/** The OLED panel as the core sees it: a 128x64 monochrome frame buffer driven by a
    handful of primitive calls. A renderer is a pure function producing the trace of
    calls it makes; `Run` gives a trace its meaning on the glass. */
module Panel {

  const OledWidth: int := 128
  const OledHeight: int := 64

  datatype Color = Black | White

  /** Bitmaps are opaque: only their identity matters to the renderers. */
  datatype Bitmap = SolderedLogo | LowBatteryAlert

  datatype Cmd =
    | Clear
    | SetCursor(x: int, y: int)
    | SetTextColor(fg: Color, bg: Color)
    | SetTextSize(size: nat)
    | SetTextWrap(wrap: bool)
    | PrintText(text: string)
    | DrawLine(x0: int, y0: int, x1: int, y1: int, color: Color)
    | DrawRect(x: int, y: int, w: int, h: int, color: Color)
    | DrawBitmap(x: int, y: int, bitmap: Bitmap, w: int, h: int, color: Color, bg: Color)
    | Display

  /** Everything except clearing and flushing only adds to the frame buffer. */
  predicate IsDrawing(c: Cmd) {
    !c.Clear? && !c.Display?
  }

  /** The frame buffer, as the drawing calls made since the last clear, and what the
      glass shows: the buffer as it was at the last flush. */
  datatype Screen = Screen(buffer: seq<Cmd>, shown: seq<Cmd>)

  function Step(p: Screen, c: Cmd): Screen {
    match c
    case Clear => p.(buffer := [])
    case Display => p.(shown := p.buffer)
    case _ => p.(buffer := p.buffer + [c])
  }

  function Run(p: Screen, t: seq<Cmd>): Screen
    decreases |t|
  {
    if t == [] then p else Run(Step(p, t[0]), t[1..])
  }

  lemma {:induction false} RunAppend(p: Screen, a: seq<Cmd>, b: seq<Cmd>)
    ensures Run(p, a + b) == Run(Run(p, a), b)
    decreases |a|
  {
    if a == [] {
      assert a + b == b;
    } else {
      assert (a + b)[1..] == a[1..] + b;
      RunAppend(Step(p, a[0]), a[1..], b);
    }
  }

  /** Drawing calls extend the buffer and leave the glass alone. */
  lemma {:induction false} RunDrawing(p: Screen, t: seq<Cmd>)
    requires forall i :: 0 <= i < |t| ==> IsDrawing(t[i])
    ensures Run(p, t) == Screen(p.buffer + t, p.shown)
    decreases |t|
  {
    if t != [] {
      RunDrawing(Step(p, t[0]), t[1..]);
      assert p.buffer + t == p.buffer + [t[0]] + t[1..];
    }
  }

  /** The drawing calls of a trace, in order: what it adds to the frame buffer when
      it contains no clear. */
  function Drawings(t: seq<Cmd>): (r: seq<Cmd>)
    ensures forall i :: 0 <= i < |r| ==> IsDrawing(r[i])
    ensures forall c :: IsDrawing(c) ==> (c in r <==> c in t)
    decreases |t|
  {
    if t == [] then []
    else (if IsDrawing(t[0]) then [t[0]] else []) + Drawings(t[1..])
  }

  lemma {:induction false} DrawingsAppend(a: seq<Cmd>, b: seq<Cmd>)
    ensures Drawings(a + b) == Drawings(a) + Drawings(b)
    decreases |a|
  {
    if a == [] {
      assert a + b == b;
    } else {
      assert (a + b)[1..] == a[1..] + b;
      DrawingsAppend(a[1..], b);
    }
  }

  /** Without a clear, a trace only adds its drawing calls to the buffer. */
  lemma {:induction false} BufferWithoutClear(p: Screen, t: seq<Cmd>)
    requires Clear !in t
    ensures Run(p, t).buffer == p.buffer + Drawings(t)
    decreases |t|
  {
    if t != [] {
      var c := t[0];
      assert Clear !in t[1..];
      BufferWithoutClear(Step(p, c), t[1..]);
      assert Drawings(t) == (if IsDrawing(c) then [c] else []) + Drawings(t[1..]);
      assert Step(p, c).buffer == p.buffer + (if IsDrawing(c) then [c] else []);
    }
  }

  /** Without a flush, the glass keeps what it showed. */
  lemma {:induction false} ShownWithoutDisplay(p: Screen, t: seq<Cmd>)
    requires Display !in t
    ensures Run(p, t).shown == p.shown
    decreases |t|
  {
    if t != [] {
      assert Display !in t[1..];
      ShownWithoutDisplay(Step(p, t[0]), t[1..]);
    }
  }

  /** A trace without a clear that ends with a flush shows the buffer it leaves. */
  lemma ShownAtFlush(p: Screen, t: seq<Cmd>)
    requires Clear !in t && |t| > 0 && t[|t| - 1] == Display
    ensures Run(p, t).shown == p.buffer + Drawings(t)
  {
    var init := t[..|t| - 1];
    assert t == init + [Display];
    assert Clear !in init;
    RunAppend(p, init, [Display]);
    BufferWithoutClear(p, init);
    DrawingsAppend(init, [Display]);
    assert Drawings([Display]) == [];
  }

  /** Without a clear, a trace only adds its drawing calls to the buffer; the glass
      shows the buffer of the last flush, or is unchanged when there is none. */
  lemma RunWithoutClear(p: Screen, t: seq<Cmd>)
    requires Clear !in t
    ensures Run(p, t).buffer == p.buffer + Drawings(t)
    ensures |t| > 0 && t[|t| - 1] == Display ==> Run(p, t).shown == p.buffer + Drawings(t)
    ensures Display !in t ==> Run(p, t).shown == p.shown
  {
    BufferWithoutClear(p, t);
    if |t| > 0 && t[|t| - 1] == Display {
      ShownAtFlush(p, t);
    }
    if Display !in t {
      ShownWithoutDisplay(p, t);
    }
  }

  /** A full-screen render: clear first, flush last, only drawing in between. */
  predicate FullFrame(t: seq<Cmd>) {
    && |t| >= 2
    && t[0] == Clear
    && t[|t| - 1] == Display
    && forall i :: 0 < i < |t| - 1 ==> IsDrawing(t[i])
  }

  /** A full-screen render shows exactly its own drawing, whatever the panel held before. */
  lemma FullFrameReplacesScreen(p: Screen, t: seq<Cmd>)
    requires FullFrame(t)
    ensures Run(p, t) == Screen(t[1..|t| - 1], t[1..|t| - 1])
  {
    var body := t[1..|t| - 1];
    assert t == [Clear] + body + [Display];
    RunAppend(p, [Clear] + body, [Display]);
    RunAppend(p, [Clear], body);
    RunDrawing(Step(p, Clear), body);
  }

  /** Whatever came before, a trace that ends with a full-screen render shows it. */
  lemma EndsWithFullFrame(p: Screen, t: seq<Cmd>, m: nat)
    requires m < |t| && FullFrame(t[m..])
    ensures Run(p, t).shown == t[m + 1..|t| - 1]
  {
    var last := t[m..];
    assert t == t[..m] + last;
    RunAppend(p, t[..m], last);
    FullFrameReplacesScreen(Run(p, t[..m]), last);
    assert last[1..|last| - 1] == t[m + 1..|t| - 1];
  }

  /** A clear right after a full-screen render starts an empty buffer while the glass
      keeps that render. */
  lemma RedrawAfterFrame(p: Screen, frame: seq<Cmd>, t: seq<Cmd>)
    requires FullFrame(frame)
    ensures Run(p, frame + ([Clear] + t)) == Run(Screen([], frame[1..|frame| - 1]), t)
  {
    FullFrameReplacesScreen(p, frame);
    RunAppend(p, frame, [Clear] + t);
    RunAppend(Run(p, frame), [Clear], t);
  }

  /** After a full-screen render, a clear and calls without a flush leave the glass
      on that render; ending them with a flush shows exactly their drawing. */
  lemma RedrawShows(p: Screen, frame: seq<Cmd>, t: seq<Cmd>)
    requires FullFrame(frame) && Clear !in t
    ensures Display !in t ==> Run(p, frame + ([Clear] + t)).shown == frame[1..|frame| - 1]
    ensures Run(p, frame + ([Clear] + (t + [Display]))).shown == Drawings(t)
  {
    var q := Screen([], frame[1..|frame| - 1]);
    RedrawAfterFrame(p, frame, t);
    RunWithoutClear(q, t);
    RedrawAfterFrame(p, frame, t + [Display]);
    assert Clear !in t + [Display];
    RunWithoutClear(q, t + [Display]);
    DrawingsAppend(t, [Display]);
    assert Drawings([Display]) == [];
  }

  /** A printed string together with the row of the text cursor it was printed at.
      Printing moves the cursor along the row; only `SetCursor` changes the row. */
  datatype Row = Row(y: int, text: string)

  /** The row the cursor is on after `c`, from row `y`. */
  function CursorAfter(c: Cmd, y: int): int {
    if c.SetCursor? then c.y else y
  }

  /** What `c` prints, on row `y`. */
  function RowOf(c: Cmd, y: int): seq<Row> {
    if c.PrintText? then [Row(y, c.text)] else []
  }

  /** The row the cursor is on after the trace, starting from row `y`. */
  function CursorRow(t: seq<Cmd>, y: int): int
    decreases |t|
  {
    if t == [] then y else CursorAfter(t[|t| - 1], CursorRow(t[..|t| - 1], y))
  }

  /** The strings a trace prints, in order, each with its row; `y` is the row the
      cursor starts on. */
  function Rows(t: seq<Cmd>, y: int): seq<Row>
    decreases |t|
  {
    if t == [] then []
    else
      var init := t[..|t| - 1];
      Rows(init, y) + RowOf(t[|t| - 1], CursorRow(init, y))
  }

  lemma RowsSnoc(t: seq<Cmd>, c: Cmd, y: int)
    ensures Rows(t + [c], y) == Rows(t, y) + RowOf(c, CursorRow(t, y))
    ensures CursorRow(t + [c], y) == CursorAfter(c, CursorRow(t, y))
  {
    assert (t + [c])[..|t|] == t;
  }

  lemma RowsOfOne(c: Cmd, y: int)
    ensures Rows([c], y) == RowOf(c, y) && CursorRow([c], y) == CursorAfter(c, y)
  {
    assert [c][..0] == [];
  }

  /** The rows of a three-call trace, one call at a time. */
  lemma RowsOfThree(a: Cmd, b: Cmd, c: Cmd, y: int)
    ensures var ya := CursorAfter(a, y);
      var yb := CursorAfter(b, ya);
      && Rows([a, b, c], y) == RowOf(a, y) + RowOf(b, ya) + RowOf(c, yb)
      && CursorRow([a, b, c], y) == CursorAfter(c, yb)
  {
    RowsOfOne(a, y);
    RowsSnoc([a], b, y);
    assert [a] + [b] == [a, b];
    RowsSnoc([a, b], c, y);
    assert [a, b] + [c] == [a, b, c];
  }

  lemma {:induction false} RowsAppend(a: seq<Cmd>, b: seq<Cmd>, y: int)
    ensures Rows(a + b, y) == Rows(a, y) + Rows(b, CursorRow(a, y))
    ensures CursorRow(a + b, y) == CursorRow(b, CursorRow(a, y))
    decreases |b|
  {
    if b == [] {
      assert a + b == a;
    } else {
      var init := b[..|b| - 1];
      assert (a + b)[..|a + b| - 1] == a + init;
      RowsAppend(a, init, y);
    }
  }

  /** Flushing neither prints nor moves the cursor. */
  lemma {:induction false} RowsOfDrawings(t: seq<Cmd>, y: int)
    requires Clear !in t
    ensures Rows(Drawings(t), y) == Rows(t, y)
    ensures CursorRow(Drawings(t), y) == CursorRow(t, y)
    decreases |t|
  {
    if t != [] {
      var head := if IsDrawing(t[0]) then [t[0]] else [];
      assert t == [t[0]] + t[1..];
      assert Clear !in t[1..];
      RowsAppend([t[0]], t[1..], y);
      RowsAppend(head, Drawings(t[1..]), y);
      RowsOfOne(t[0], y);
      RowsOfDrawings(t[1..], CursorRow([t[0]], y));
    }
  }
}
