/** The `Wsled` class (src/WSLED.cpp): the board's single WS2812 RGB LED. Its
    driver is modelled as the trace of calls made on it, and a small state
    machine for what those calls do to the one pixel. */
module Wsled {
  import opened CTypes
  import Screens

  datatype Rgb = Rgb(r: uint8, g: uint8, b: uint8)

  const Off: Rgb := Rgb(0, 0, 0)
  const White: Rgb := Rgb(255, 255, 255)

  /** The driver calls the class makes. */
  datatype LedCmd = SetBrightness(level: uint8) | ClearPixels | SetPixelColor(index: nat, color: Rgb) | Show

  /** The driver's brightness, the pixel's colour in its buffer, and the colour the LED
      is lit with since the last `show`. */
  datatype Led = Led(brightness: uint8, pixel: Rgb, shown: Rgb)

  /** The strip has one pixel: colours for any other index are dropped. */
  function Step(l: Led, c: LedCmd): Led {
    match c
    case SetBrightness(level) => l.(brightness := level)
    case ClearPixels => l.(pixel := Off)
    case SetPixelColor(index, color) => if index == 0 then l.(pixel := color) else l
    case Show => l.(shown := l.pixel)
  }

  function Execute(l: Led, t: seq<LedCmd>): Led
    decreases |t|
  {
    if t == [] then l else Execute(Step(l, t[0]), t[1..])
  }

  /** The colours the LED takes on, one per `show`, in order. */
  function Shows(l: Led, t: seq<LedCmd>): seq<Rgb>
    decreases |t|
  {
    if t == [] then []
    else
      var next := Step(l, t[0]);
      (if t[0].Show? then [next.shown] else []) + Shows(next, t[1..])
  }

  lemma {:induction false} ExecuteAppend(l: Led, a: seq<LedCmd>, b: seq<LedCmd>)
    ensures Execute(l, a + b) == Execute(Execute(l, a), b)
    ensures Shows(l, a + b) == Shows(l, a) + Shows(Execute(l, a), b)
    decreases |a|
  {
    if a == [] {
      assert a + b == b;
    } else {
      assert (a + b)[0] == a[0];
      assert (a + b)[1..] == a[1..] + b;
      ExecuteAppend(Step(l, a[0]), a[1..], b);
    }
  }

  /** Setting the pixel and showing it lights the LED with that colour, whatever it
      showed before, and leaves the brightness alone. */
  lemma PaintShows(l: Led, color: Rgb)
    ensures Execute(l, [SetPixelColor(0, color), Show]) == Led(l.brightness, color, color)
    ensures Shows(l, [SetPixelColor(0, color), Show]) == [color]
  {
    var t := [SetPixelColor(0, color), Show];
    var painted := l.(pixel := color);
    assert Step(l, t[0]) == painted;
    assert t[1..] == [Show];
    assert [Show][1..] == [];
    assert Execute(painted, [Show]) == Execute(Step(painted, Show), []);
    assert Shows(painted, [Show]) == [Step(painted, Show).shown] + Shows(Step(painted, Show), []);
  }

  /** `Wsled::begin` after creating the driver object: full brightness less one, the
      pixel cleared and shown, so the LED starts dark. */
  function Begin(): (r: seq<LedCmd>)
    ensures forall l :: Execute(l, r) == Led(254, Off, Off)
    ensures forall l :: Shows(l, r) == [Off]
  {
    [SetBrightness(254), ClearPixels, Show]
  }

  /** `Wsled::ledOff`: the LED goes dark from any state. */
  function LedOff(): (r: seq<LedCmd>)
    ensures forall l :: Execute(l, r) == Led(l.brightness, Off, Off)
    ensures forall l :: Shows(l, r) == [Off]
  {
    [ClearPixels, Show]
  }

  /** The colour of each menu page; pages past the last named one are white. */
  function MenuColor(page: uint8): (c: Rgb)
    ensures page == 0 ==> c == Rgb(0, 255, 255)
    ensures page == 1 ==> c == Rgb(255, 165, 0)
    ensures page == 2 ==> c == Rgb(255, 0, 255)
    ensures page > 2 <==> c == White
  {
    if page == 0 then Rgb(0, 255, 255)
    else if page == 1 then Rgb(255, 165, 0)
    else if page == 2 then Rgb(255, 0, 255)
    else White
  }

  /** `Wsled::showMenuColor`: the LED shows the page's colour from any state. */
  function ShowMenuColor(page: uint8): (r: seq<LedCmd>)
    ensures forall l :: Execute(l, r) == Led(l.brightness, MenuColor(page), MenuColor(page))
    ensures forall l :: Shows(l, r) == [MenuColor(page)]
  {
    var t := [SetPixelColor(0, MenuColor(page)), Show];
    assert forall l :: Execute(l, t) == Led(l.brightness, MenuColor(page), MenuColor(page)) && Shows(l, t) == [MenuColor(page)] by {
      forall l {
        PaintShows(l, MenuColor(page));
      }
    }
    t
  }

  /** The LED and the menu screen agree: the LED is white exactly on the page whose
      label reads "Exit Menu", and the three named pages have three different colours. */
  lemma MenuColorMatchesLabel(page: uint8)
    ensures MenuColor(page) == White <==> Screens.MenuLabel(page) == Screens.MenuPage3Text
    ensures forall other: uint8 :: other <= 2 && page <= 2 && other != page ==> MenuColor(other) != MenuColor(page)
  {
    Screens.ExitLabelExactlyOutOfRange(page, page);
  }

  /** One fade step per red value, each a pure red shown at once. */
  function FadeSteps(reds: seq<uint8>): (r: seq<LedCmd>)
    ensures |r| == 2 * |reds|
  {
    if reds == [] then [] else [SetPixelColor(0, Rgb(reds[0], 0, 0)), Show] + FadeSteps(reds[1..])
  }

  /** The pure reds of `reds`, in order. */
  function Reds(reds: seq<uint8>): (r: seq<Rgb>)
    ensures |r| == |reds|
    ensures forall k :: 0 <= k < |r| ==> r[k] == Rgb(reds[k], 0, 0)
  {
    if reds == [] then [] else [Rgb(reds[0], 0, 0)] + Reds(reds[1..])
  }

  lemma {:induction false} FadeStepsShow(l: Led, reds: seq<uint8>)
    ensures Shows(l, FadeSteps(reds)) == Reds(reds)
    ensures reds != [] ==> Execute(l, FadeSteps(reds)).shown == Rgb(reds[|reds| - 1], 0, 0)
    ensures reds == [] ==> Execute(l, FadeSteps(reds)) == l
    decreases |reds|
  {
    if reds != [] {
      var head := [SetPixelColor(0, Rgb(reds[0], 0, 0)), Show];
      ExecuteAppend(l, head, FadeSteps(reds[1..]));
      PaintShows(l, Rgb(reds[0], 0, 0));
      FadeStepsShow(Execute(l, head), reds[1..]);
      if |reds| > 1 {
        assert reds[1..][|reds[1..]| - 1] == reds[|reds| - 1];
      }
    }
  }

  /** `Wsled::redBlink`: the fade loop shows the red values `reds` its timing and
      float arithmetic produced, then the LED is switched off. */
  function RedBlink(reds: seq<uint8>): (r: seq<LedCmd>)
    ensures |r| == 2 * |reds| + 2
    ensures r[..|r| - 2] == FadeSteps(reds)
  {
    var t := FadeSteps(reds) + [SetPixelColor(0, Off), Show];
    assert t[..|t| - 2] == FadeSteps(reds);
    t
  }

  /** Whatever the fade did, the LED ends dark, and along the way it only ever showed
      pure reds, in the order of the fade. */
  lemma RedBlinkEndsOff(l: Led, reds: seq<uint8>)
    ensures Execute(l, RedBlink(reds)).shown == Off
    ensures Execute(l, RedBlink(reds)).brightness == l.brightness
    ensures Shows(l, RedBlink(reds)) == Reds(reds) + [Off]
  {
    var fade := FadeSteps(reds);
    assert RedBlink(reds) == fade + [SetPixelColor(0, Off), Show];
    ExecuteAppend(l, fade, [SetPixelColor(0, Off), Show]);
    FadeStepsShow(l, reds);
    FadeKeepsBrightness(l, reds);
    PaintShows(Execute(l, fade), Off);
  }

  lemma {:induction false} FadeKeepsBrightness(l: Led, reds: seq<uint8>)
    ensures Execute(l, FadeSteps(reds)).brightness == l.brightness
    decreases |reds|
  {
    if reds != [] {
      var head := [SetPixelColor(0, Rgb(reds[0], 0, 0)), Show];
      ExecuteAppend(l, head, FadeSteps(reds[1..]));
      PaintShows(l, Rgb(reds[0], 0, 0));
      FadeKeepsBrightness(Execute(l, head), reds[1..]);
    }
  }

  /** `millis()` and `unsigned long` are 32 bits wide on the ESP32. */
  const MillisModulus: nat := 0x1_0000_0000
  const FadeMs: nat := 200

  /** As written, `endTime` is `start + 200` computed in 32 bits. */
  function FadeEnd(start: uint32): (end: uint32)
    ensures start < MillisModulus - FadeMs ==> end == start + FadeMs
    ensures start >= MillisModulus - FadeMs ==> end == start + FadeMs - MillisModulus && end < FadeMs
  {
    (start + FadeMs) % MillisModulus
  }

  /** As written, the fade loop goes on while the clock reads at most `endTime`. */
  predicate FadeContinues(start: uint32, now: uint32) {
    now <= FadeEnd(start)
  }

  /** The loop's first check, at the start time itself, fails once `endTime` wraps:
      during the last 200 ms before `millis()` wraps, about every 49.7 days, the
      blink has no fade and only switches the LED off. */
  function FadeLoopEntered(start: uint32): (entered: bool)
    ensures entered <==> start < MillisModulus - FadeMs
  {
    FadeContinues(start, start)
  }

  lemma FadeSkippedBeforeWrap()
    ensures !FadeLoopEntered(0xFFFF_FFFF)
    ensures FadeLoopEntered(0)
  {
  }

  /** One start time earlier `endTime` is the largest 32-bit value, which every reading
      of the clock satisfies: the loop never exits and the LED is never switched off.
      This is the only start time with that effect. */
  lemma FadeNeverEndsBeforeWrap(start: uint32)
    ensures FadeEnd(0xFFFF_FF37) == 0xFFFF_FFFF
    ensures forall now: uint32 :: FadeContinues(0xFFFF_FF37, now)
    ensures (forall now: uint32 :: FadeContinues(start, now)) <==> start == MillisModulus - FadeMs - 1
  {
    if start != MillisModulus - FadeMs - 1 {
      assert !FadeContinues(start, 0xFFFF_FFFF);
    }
  }

  /** The wrap-safe test compares the elapsed time, `now - start` in 32 bits, with
      the fade length. */
  function WithinFade(start: uint32, now: uint32): (within: bool)
    ensures now >= start ==> (within <==> now - start <= FadeMs)
    ensures now < start ==> (within <==> now + MillisModulus - start <= FadeMs)
  {
    (now - start) % MillisModulus <= FadeMs
  }

  /** With it the fade loop is entered from every start time, it agrees with the
      code as written whenever the end time does not wrap, and from every start time
      some reading of the clock ends it. */
  lemma WithinFadeAlwaysEntered(start: uint32, now: uint32)
    ensures WithinFade(start, start)
    ensures FadeLoopEntered(start) && start <= now ==> (WithinFade(start, now) <==> FadeContinues(start, now))
    ensures !WithinFade(start, (start + FadeMs + 1) % MillisModulus)
  {
  }
}
