/** `Display::gyroAnimation` (src/Display.cpp): a wire-frame cube redrawn every frame
    at angles taken from the accelerometer, until the button is pressed. The
    trigonometric projection works in floating point and is a parameter here. */
module Cube {
  import opened CTypes
  import opened Panel

  /** A corner of the cube, with coordinates -1 or 1. */
  datatype Vertex = Vertex(x: int, y: int, z: int)

  /** An index into `Vertices`. */
  type CornerIndex = n: nat | n < 8

  /** An edge joins two corners, given by their indices. */
  datatype Edge = Edge(a: CornerIndex, b: CornerIndex)

  const Vertices: seq<Vertex> := [
    Vertex(-1, -1, -1), Vertex(1, -1, -1), Vertex(1, 1, -1), Vertex(-1, 1, -1),
    Vertex(-1, -1, 1), Vertex(1, -1, 1), Vertex(1, 1, 1), Vertex(-1, 1, 1)]

  /** The bottom face, the top face, then the four vertical edges. */
  const Edges: seq<Edge> := [
    Edge(0, 1), Edge(1, 2), Edge(2, 3), Edge(3, 0),
    Edge(4, 5), Edge(5, 6), Edge(6, 7), Edge(7, 4),
    Edge(0, 4), Edge(1, 5), Edge(2, 6), Edge(3, 7)]

  /** How many coordinates two corners differ in. */
  function Differences(u: Vertex, v: Vertex): (n: nat)
    ensures n <= 3
    ensures n == 0 <==> u == v
  {
    (if u.x != v.x then 1 else 0) + (if u.y != v.y then 1 else 0) + (if u.z != v.z then 1 else 0)
  }

  /** Two corners of a cube share an edge when they differ in exactly one coordinate. */
  predicate Adjacent(u: Vertex, v: Vertex) {
    Differences(u, v) == 1
  }

  predicate Joins(e: Edge, u: nat, v: nat) {
    (e.a == u && e.b == v) || (e.a == v && e.b == u)
  }

  /** Every corner is a cube corner and they are pairwise different. */
  lemma CubeCorners()
    ensures |Vertices| == 8
    ensures forall i :: 0 <= i < 8 ==>
      Vertices[i].x in {-1, 1} && Vertices[i].y in {-1, 1} && Vertices[i].z in {-1, 1}
    ensures forall i, j :: 0 <= i < j < 8 ==> Vertices[i] != Vertices[j]
  {
  }

  /** Every listed edge joins two corners that share a face edge of the cube. */
  lemma EdgesAreCubeEdges()
    ensures |Edges| == 12
    ensures forall i :: 0 <= i < 12 ==> Edges[i].a < 8 && Edges[i].b < 8 && Adjacent(Vertices[Edges[i].a], Vertices[Edges[i].b])
  {
  }

  /** No edge is listed twice, in either direction. */
  lemma EdgesDistinct()
    ensures forall i, j :: 0 <= i < j < 12 ==> !Joins(Edges[j], Edges[i].a, Edges[i].b)
  {
  }

  /** Every pair of adjacent corners is joined by a listed edge, so the wire frame is
      the whole cube. */
  lemma EdgesComplete()
    ensures forall u, v :: 0 <= u < 8 && 0 <= v < 8 && Adjacent(Vertices[u], Vertices[v]) ==>
      exists i :: 0 <= i < 12 && Joins(Edges[i], u, v)
  {
    forall u, v | 0 <= u < 8 && 0 <= v < 8 && Adjacent(Vertices[u], Vertices[v])
      ensures exists i :: 0 <= i < 12 && Joins(Edges[i], u, v)
    {
      if u == 0 {
        assert Joins(Edges[0], u, v) || Joins(Edges[3], u, v) || Joins(Edges[8], u, v);
      } else if u == 1 {
        assert Joins(Edges[0], u, v) || Joins(Edges[1], u, v) || Joins(Edges[9], u, v);
      } else if u == 2 {
        assert Joins(Edges[1], u, v) || Joins(Edges[2], u, v) || Joins(Edges[10], u, v);
      } else if u == 3 {
        assert Joins(Edges[2], u, v) || Joins(Edges[3], u, v) || Joins(Edges[11], u, v);
      } else if u == 4 {
        assert Joins(Edges[4], u, v) || Joins(Edges[7], u, v) || Joins(Edges[8], u, v);
      } else if u == 5 {
        assert Joins(Edges[4], u, v) || Joins(Edges[5], u, v) || Joins(Edges[9], u, v);
      } else if u == 6 {
        assert Joins(Edges[5], u, v) || Joins(Edges[6], u, v) || Joins(Edges[10], u, v);
      } else {
        assert Joins(Edges[6], u, v) || Joins(Edges[7], u, v) || Joins(Edges[11], u, v);
      }
    }
  }

  /** Where `project` puts a corner on the panel. */
  datatype Point = Point(x: int, y: int)

  /** `Display::project`: rotate a corner by three angles and project it to the panel.
      Its sine, cosine and float-to-int arithmetic are not modelled. */
  type Projection = (Vertex, real, real, real) -> Point

  /** The smoothed angles of one frame. */
  datatype Angles = Angles(x: real, y: real, z: real)

  /** The raw accelerometer readings of one frame, and whether the button reported a
      press after that frame was drawn. */
  datatype Accel = Accel(x: int16, y: int16, z: int16)
  datatype Sample = Sample(accel: Accel, pressed: bool)

  /** The factor from raw accelerometer reading to angle, 0.00008. */
  const AngleModifier: real := 0.00008

  /** One axis of the smoothing: the new angle is the mean of the previous one and the
      scaled reading, so it lies between the two and halves the distance to the
      reading's angle. Computed here over the reals. */
  function SmoothAxis(previous: real, reading: int16): (r: real)
    ensures var target := reading as real * AngleModifier;
      && r - target == (previous - target) / 2.0
      && (previous <= target ==> previous <= r <= target)
      && (target <= previous ==> target <= r <= previous)
  {
    (reading as real * AngleModifier + previous) / 2.0
  }

  function Smooth(previous: Angles, a: Accel): (r: Angles)
    ensures r.x == SmoothAxis(previous.x, a.x) && r.y == SmoothAxis(previous.y, a.y) && r.z == SmoothAxis(previous.z, a.z)
  {
    Angles(SmoothAxis(previous.x, a.x), SmoothAxis(previous.y, a.y), SmoothAxis(previous.z, a.z))
  }

  function Pow2(n: nat): (r: real)
    ensures r >= 1.0
  {
    if n == 0 then 1.0 else 2.0 * Pow2(n - 1)
  }

  /** `n` frames of smoothing with the same reading. */
  function SmoothRepeat(previous: real, reading: int16, n: nat): real {
    if n == 0 then previous else SmoothAxis(SmoothRepeat(previous, reading, n - 1), reading)
  }

  /** While the board is held still, the angle closes in on the reading's angle: after
      `n` frames the distance left is the starting distance over 2^n. */
  lemma {:induction false} SmoothingConverges(previous: real, reading: int16, n: nat)
    ensures var target := reading as real * AngleModifier;
      SmoothRepeat(previous, reading, n) - target == (previous - target) / Pow2(n)
  {
    if n > 0 {
      SmoothingConverges(previous, reading, n - 1);
      var target := reading as real * AngleModifier;
      var d := previous - target;
      calc {
        SmoothRepeat(previous, reading, n) - target;
        (SmoothRepeat(previous, reading, n - 1) - target) / 2.0;
        d / Pow2(n - 1) / 2.0;
        d / Pow2(n);
      }
    }
  }

  /** The line for edge `e`: both corners projected with the angles handed over in the
      order y, z, x, as the board's sensor is mounted. */
  function EdgeLine(project: Projection, a: Angles, e: Edge): (r: Cmd)
    ensures r.DrawLine? && r.color == White
    ensures Point(r.x0, r.y0) == project(Vertices[e.a], a.y, a.z, a.x)
    ensures Point(r.x1, r.y1) == project(Vertices[e.b], a.y, a.z, a.x)
  {
    var p := project(Vertices[e.a], a.y, a.z, a.x);
    var q := project(Vertices[e.b], a.y, a.z, a.x);
    DrawLine(p.x, p.y, q.x, q.y, White)
  }

  /** One line per edge of `es`, in order. */
  function EdgeLines(project: Projection, a: Angles, es: seq<Edge>): (r: seq<Cmd>)
    ensures |r| == |es|
    ensures forall k :: 0 <= k < |r| ==> r[k] == EdgeLine(project, a, es[k]) && IsDrawing(r[k])
  {
    if es == [] then [] else [EdgeLine(project, a, es[0])] + EdgeLines(project, a, es[1..])
  }

  lemma Framed(lines: seq<Cmd>)
    requires forall i :: 0 <= i < |lines| ==> IsDrawing(lines[i])
    ensures var r := [Clear] + lines + [Display];
      FullFrame(r) && forall i :: 0 <= i < |lines| ==> r[i + 1] == lines[i]
  {
  }

  /** One frame of the animation: clear, the twelve edges in order, flush. */
  function Frame(project: Projection, a: Angles): (r: seq<Cmd>)
    ensures FullFrame(r) && |r| == 14
    ensures forall i :: 0 <= i < 12 ==> r[i + 1] == EdgeLine(project, a, Edges[i])
    ensures r[1..13] == EdgeLines(project, a, Edges)
  {
    var lines := EdgeLines(project, a, Edges);
    Framed(lines);
    var r := [Clear] + lines + [Display];
    assert r[1..13] == lines;
    r
  }

  /** Each edge of the cube, between any two adjacent corners, appears as a line
      between their projections. */
  lemma FrameDrawsEveryCubeEdge(project: Projection, a: Angles, u: nat, v: nat)
    requires u < 8 && v < 8 && Adjacent(Vertices[u], Vertices[v])
    ensures var p := project(Vertices[u], a.y, a.z, a.x);
      var q := project(Vertices[v], a.y, a.z, a.x);
      DrawLine(p.x, p.y, q.x, q.y, White) in Frame(project, a) || DrawLine(q.x, q.y, p.x, p.y, White) in Frame(project, a)
  {
    EdgesComplete();
    var i :| 0 <= i < 12 && Joins(Edges[i], u, v);
    assert Frame(project, a)[i + 1] == EdgeLine(project, a, Edges[i]);
  }

  /** Frames drawn before the loop returns: up to and including the first one after
      which the button reported a press, or all of them when it never did. */
  function FramesDrawn(samples: seq<Sample>): (n: nat)
    ensures n <= |samples| && (samples != [] ==> n >= 1)
    ensures forall k :: 0 <= k < n - 1 ==> !samples[k].pressed
    ensures 0 < n < |samples| ==> samples[n - 1].pressed
    ensures n == |samples| && n > 0 && samples[n - 1].pressed ==> forall k :: 0 <= k < n - 1 ==> !samples[k].pressed
    decreases |samples|
  {
    if samples == [] then 0 else if samples[0].pressed then 1 else 1 + FramesDrawn(samples[1..])
  }

  function FrameAt(r: seq<Cmd>, k: nat): seq<Cmd>
    requires 14 * k + 14 <= |r|
  {
    r[14 * k..14 * k + 14]
  }

  /** The smoothed angles of frame `k`: `k + 1` rounds of smoothing from `previous`,
      one per reading. */
  function AnglesAfter(previous: Angles, samples: seq<Sample>, k: nat): Angles
    requires k < |samples|
    decreases k
  {
    var a := Smooth(previous, samples[0].accel);
    if k == 0 then a else AnglesAfter(a, samples[1..], k - 1)
  }

  /** A frame in front of a run of frames: frame 0 is the new one, frame `k` the old
      frame `k - 1`. */
  lemma FramesAppend(f: seq<Cmd>, rest: seq<Cmd>, n: nat)
    requires |f| == 14 && |rest| == 14 * n
    ensures |f + rest| == 14 * (n + 1)
    ensures FrameAt(f + rest, 0) == f
    ensures forall k :: 0 < k < n + 1 ==> FrameAt(f + rest, k) == FrameAt(rest, k - 1)
  {
    forall k | 0 < k < n + 1
      ensures FrameAt(f + rest, k) == FrameAt(rest, k - 1)
    {
      assert FrameAt(f + rest, k) == FrameAt(rest, k - 1);
    }
  }

  /** The animation from the smoothed angles `previous`, one frame per sample until the
      press: frame `k` is the cube at the angles smoothed from the first `k + 1`
      readings. */
  function Animation(project: Projection, previous: Angles, samples: seq<Sample>): (r: seq<Cmd>)
    ensures |r| == 14 * FramesDrawn(samples)
    ensures forall k :: 0 <= k < FramesDrawn(samples) ==>
      FrameAt(r, k) == Frame(project, AnglesAfter(previous, samples, k))
    decreases |samples|
  {
    if samples == [] then []
    else
      var a := Smooth(previous, samples[0].accel);
      var rest := if samples[0].pressed then [] else Animation(project, a, samples[1..]);
      var n := if samples[0].pressed then 0 else FramesDrawn(samples[1..]);
      var f := Frame(project, a);
      FramesAppend(f, rest, n);
      var r := f + rest;
      assert forall k :: 0 < k < n + 1 ==>
        FrameAt(r, k) == Frame(project, AnglesAfter(previous, samples, k)) by {
        forall k | 0 < k < n + 1
          ensures FrameAt(r, k) == Frame(project, AnglesAfter(previous, samples, k))
        {
          assert FrameAt(r, k) == FrameAt(rest, k - 1);
          assert AnglesAfter(previous, samples, k) == AnglesAfter(a, samples[1..], k - 1);
        }
      }
      r
  }

  /** Every frame drawn is a full render of the twelve cube edges. */
  lemma AnimationFramesAreFull(project: Projection, previous: Angles, samples: seq<Sample>)
    ensures forall k :: 0 <= k < FramesDrawn(samples) ==> FullFrame(FrameAt(Animation(project, previous, samples), k))
  {
  }

  /** `gyroAnimation` starts from angles 0, 0, 0. */
  function GyroAnimation(project: Projection, samples: seq<Sample>): (r: seq<Cmd>)
    ensures |r| == 14 * FramesDrawn(samples)
    ensures forall k :: 0 <= k < FramesDrawn(samples) ==>
      FrameAt(r, k) == Frame(project, AnglesAfter(Angles(0.0, 0.0, 0.0), samples, k))
  {
    Animation(project, Angles(0.0, 0.0, 0.0), samples)
  }

  lemma LastOfFrames(p: Screen, r: seq<Cmd>, n: nat)
    requires n > 0 && |r| == 14 * n
    requires FullFrame(FrameAt(r, n - 1))
    ensures Run(p, r).shown == FrameAt(r, n - 1)[1..13]
  {
    var m := 14 * (n - 1);
    assert FrameAt(r, n - 1) == r[m..];
    EndsWithFullFrame(p, r, m);
  }

  /** When the loop returns, the glass shows the twelve edges of the last frame drawn,
      at the angles smoothed from every reading taken. */
  lemma AnimationEndsOnLastFrame(p: Screen, project: Projection, samples: seq<Sample>)
    requires samples != []
    ensures FramesDrawn(samples) >= 1
    ensures Run(p, GyroAnimation(project, samples)).shown ==
      EdgeLines(project, AnglesAfter(Angles(0.0, 0.0, 0.0), samples, FramesDrawn(samples) - 1), Edges)
  {
    var r := GyroAnimation(project, samples);
    var n := FramesDrawn(samples);
    var last := Frame(project, AnglesAfter(Angles(0.0, 0.0, 0.0), samples, n - 1));
    assert FrameAt(r, n - 1) == last;
    LastOfFrames(p, r, n);
  }
}
