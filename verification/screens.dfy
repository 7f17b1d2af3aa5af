/** The full-screen renderers of the `Display` class (src/Display.cpp) and its
    `begin` rule. The scanner and the cube animation have modules of their own. */
module Screens {
  import opened CTypes
  import opened Text
  import opened Panel

  /** `oledDisplay`: no panel object yet, or the one `begin` allocated. */
  datatype DisplayObject = Unallocated | Allocated(panel: nat)

  /** `Display::begin`: the first call allocates the panel object `newPanel` and reports
      the driver's own initialisation result `driverInit`; a later call reports
      failure and keeps the panel it finds. */
  function Begin(d: DisplayObject, newPanel: nat, driverInit: bool): (r: (bool, DisplayObject))
    ensures r.1.Allocated?
    ensures d.Allocated? ==> r == (false, d)
    ensures d.Unallocated? ==> r == (driverInit, Allocated(newPanel))
  {
    if d.Allocated? then (false, d) else (driverInit, Allocated(newPanel))
  }

  /** Once `begin` has run, whatever it reported, every further call fails and
      keeps the first panel object. */
  lemma BeginOnlyOnce(d: DisplayObject, first: nat, firstInit: bool, later: nat, laterInit: bool)
    ensures var (_, d1) := Begin(d, first, firstInit);
      Begin(d1, later, laterInit) == (false, d1)
    ensures d.Unallocated? ==> Begin(Begin(d, first, firstInit).1, later, laterInit).1 == Allocated(first)
  {
  }

  /** The loading screen: the logo over the whole panel, the message on row 40. */
  function LoadingScreen(message: string): (r: seq<Cmd>)
    ensures FullFrame(r)
    ensures r[1] == DrawBitmap(0, 0, SolderedLogo, OledWidth, OledHeight, Black, White)
    ensures |r| == 6
    ensures r[2] == SetCursor(0, 40) && r[3] == SetTextColor(White, Black) && r[4] == PrintText(message)
    ensures forall i :: 0 <= i < |r| ==> !r[i].SetTextSize?
  {
    [ Clear,
      DrawBitmap(0, 0, SolderedLogo, OledWidth, OledHeight, Black, White),
      SetCursor(0, 40),
      SetTextColor(White, Black),
      PrintText(message),
      Display ]
  }

  /** The fields of `struct tm` the clock uses; `mon` counts from 0 as `tm_mon` does. */
  datatype LocalTime = LocalTime(hour: int, min: int, mday: int, mon: int)

  /** The ranges `localtime` produces for these fields. */
  predicate ValidLocalTime(t: LocalTime) {
    0 <= t.hour < 24 && 0 <= t.min < 60 && 1 <= t.mday <= 31 && 0 <= t.mon < 12
  }

  /** `char timeString[6]` and `char dateString[8]`, each holding a terminating NUL. */
  const TimeBufferSize: nat := 6
  const DateBufferSize: nat := 8

  /** `"%02d:%02d"` of hour and minute. */
  function TimeString(t: LocalTime): (s: string)
    ensures ValidLocalTime(t) ==> |s| == 5 && |s| + 1 <= TimeBufferSize
  {
    Pad2(t.hour) + ":" + Pad2(t.min)
  }

  /** `"%02d.%02d."` of day of month and the 1-based month. */
  function DateString(t: LocalTime): (s: string)
    ensures ValidLocalTime(t) ==> |s| == 6 && |s| + 1 <= DateBufferSize
  {
    Pad2(t.mday) + "." + Pad2(t.mon + 1) + "."
  }

  /** For a time `localtime` can produce, both clock strings read back as the fields
      they were made from. */
  lemma ClockStringsReadBack(t: LocalTime)
    requires ValidLocalTime(t)
    ensures var s := TimeString(t);
      && |s| == 5 && s[2] == ':'
      && AllDigits(s[..2]) && Value(s[..2]) == t.hour
      && AllDigits(s[3..]) && Value(s[3..]) == t.min
    ensures var s := DateString(t);
      && |s| == 6 && s[2] == '.' && s[5] == '.'
      && AllDigits(s[..2]) && Value(s[..2]) == t.mday
      && AllDigits(s[3..5]) && Value(s[3..5]) == t.mon + 1
  {
    Pad2RoundTrip(t.hour);
    Pad2RoundTrip(t.min);
    Pad2RoundTrip(t.mday);
    Pad2RoundTrip(t.mon + 1);
    var s := TimeString(t);
    assert s[..2] == Pad2(t.hour);
    assert s[3..] == Pad2(t.min);
    var d := DateString(t);
    assert d[..2] == Pad2(t.mday);
    assert d[3..5] == Pad2(t.mon + 1);
  }

  const BatteryBadge: Cmd := DrawBitmap(51, 37, LowBatteryAlert, 23, 12, Black, White)

  /** The time in large text on row 9. */
  function ClockTime(time: string): (r: seq<Cmd>)
    ensures |r| == 4 && r[0] == SetCursor(5, 9) && r[1] == SetTextColor(White, Black) && r[2] == SetTextSize(4) && r[3] == PrintText(time)
    ensures forall i :: 0 <= i < |r| ==> IsDrawing(r[i])
  {
    [SetCursor(5, 9), SetTextColor(White, Black), SetTextSize(4), PrintText(time)]
  }

  /** Date and step count in small text on row 54, then the two divider lines. */
  function ClockFooter(date: string, count: string): (r: seq<Cmd>)
    ensures |r| == 7 && r[0] == SetTextSize(1) && r[1] == SetCursor(2, 54)
    ensures r[2] == PrintText(date) && r[3] == PrintText("  Steps: ") && r[4] == PrintText(count)
    ensures r[5] == DrawLine(0, 45, 130, 45, White) && r[6] == DrawLine(0, 47, 130, 47, White)
    ensures forall i :: 0 <= i < |r| ==> IsDrawing(r[i])
  {
    [ SetTextSize(1),
      SetCursor(2, 54),
      PrintText(date),
      PrintText("  Steps: "),
      PrintText(count),
      DrawLine(0, 45, 130, 45, White),
      DrawLine(0, 47, 130, 47, White) ]
  }

  /** The clock's drawing for the three strings it prints, with or without the badge. */
  function ClockLayout(time: string, date: string, count: string, lowBattery: bool): (r: seq<Cmd>)
    ensures FullFrame(r) && |r| == if lowBattery then 14 else 13
    ensures r[1] == SetCursor(5, 9) && r[2] == SetTextColor(White, Black) && r[3] == SetTextSize(4) && r[4] == PrintText(time)
    ensures r[5] == SetTextSize(1) && r[6] == SetCursor(2, 54) && r[7] == PrintText(date)
    ensures r[8] == PrintText("  Steps: ") && r[9] == PrintText(count)
    ensures r[10] == DrawLine(0, 45, 130, 45, White) && r[11] == DrawLine(0, 47, 130, 47, White)
    ensures BatteryBadge in r <==> lowBattery
  {
    var big := ClockTime(time);
    var footer := ClockFooter(date, count);
    var badge := if lowBattery then [BatteryBadge] else [];
    var tail := footer + (badge + [Display]);
    var r := [Clear] + (big + tail);
    assert r[1..5] == big && r[5..] == tail && tail[..7] == footer;
    r
  }

  /** `Display::drawTimeAndStepCount`: the time in large text on row 9; date and step
      count in small text on row 54 beneath two divider lines at rows 45 and 47; the
      low-battery badge over the dividers exactly when the flag is set. */
  function ClockScreen(t: LocalTime, steps: uint32, lowBattery: bool): (r: seq<Cmd>)
    ensures FullFrame(r) && |r| == if lowBattery then 14 else 13
    ensures r[1] == SetCursor(5, 9) && r[2] == SetTextColor(White, Black) && r[3] == SetTextSize(4) && r[4] == PrintText(TimeString(t))
    ensures r[5] == SetTextSize(1) && r[6] == SetCursor(2, 54) && r[7] == PrintText(DateString(t))
    ensures r[8] == PrintText("  Steps: ") && r[9] == PrintText(Decimal(steps))
    ensures r[10] == DrawLine(0, 45, 130, 45, White) && r[11] == DrawLine(0, 47, 130, 47, White)
    ensures BatteryBadge in r <==> lowBattery
  {
    ClockLayout(TimeString(t), DateString(t), Decimal(steps), lowBattery)
  }

  /** The badge is the only difference the low-battery flag makes. */
  lemma BatteryFlagOnlyAddsBadge(t: LocalTime, steps: uint32)
    ensures var plain := ClockScreen(t, steps, false);
      ClockScreen(t, steps, true) == plain[..12] + [BatteryBadge] + plain[12..]
  {
  }

  /** `Display::drawUpdatingRtcIndicator`: two border rectangles, then a flush,
      without clearing. */
  function UpdatingRtcIndicator(): (r: seq<Cmd>)
    ensures |r| == 3 && Clear !in r && r[2] == Display
    ensures forall p :: Run(p, r) == Screen(p.buffer + r[..2], p.buffer + r[..2])
  {
    var rects := [DrawRect(0, 0, 128, 64, White), DrawRect(2, 2, 128, 64, White)];
    var r := rects + [Display];
    forall p: Screen ensures Run(p, r) == Screen(p.buffer + rects, p.buffer + rects) {
      RunAppend(p, rects, [Display]);
      RunDrawing(p, rects);
    }
    assert r[..2] == rects;
    r
  }

  /** The indicator overlays whatever the panel last held: the rectangles are added
      to the existing buffer and everything is shown. */
  lemma IndicatorOverlays(p: Screen)
    ensures Run(p, UpdatingRtcIndicator()).shown ==
      p.buffer + [DrawRect(0, 0, 128, 64, White), DrawRect(2, 2, 128, 64, White)]
    ensures Run(p, UpdatingRtcIndicator()).buffer == Run(p, UpdatingRtcIndicator()).shown
  {
  }

  /** `Display::drawErrorMessage`: a fixed header on row 0, the message on row 20 and
      the restart hint on row 50. */
  function ErrorScreen(error: string): (r: seq<Cmd>)
    ensures FullFrame(r) && |r| == 10
    ensures r[1] == SetCursor(0, 0) && r[2] == SetTextColor(White, Black) && r[3] == SetTextSize(1)
    ensures r[4] == PrintText("ERROR:")
    ensures r[5] == SetCursor(0, 20) && r[6] == PrintText(error)
    ensures r[7] == SetCursor(0, 50) && r[8] == PrintText("Restart via button...")
  {
    [ Clear,
      SetCursor(0, 0),
      SetTextColor(White, Black),
      SetTextSize(1),
      PrintText("ERROR:"),
      SetCursor(0, 20),
      PrintText(error),
      SetCursor(0, 50),
      PrintText("Restart via button..."),
      Display ]
  }

  /** The menu texts of defines.h, with their leading spaces for centring. */
  const MenuPage0Text: string := "     WiFi Scanner"
  const MenuPage1Text: string := " Gyroscope Animation"
  const MenuPage2Text: string := "    Self Destruct"
  const MenuPage3Text: string := "      Exit Menu"

  /** The label `drawMenuPage` prints for a page index; every index past the three
      named pages falls back to the exit label. */
  function MenuLabel(page: uint8): (text: string)
    ensures page == 0 ==> text == MenuPage0Text
    ensures page == 1 ==> text == MenuPage1Text
    ensures page == 2 ==> text == MenuPage2Text
    ensures page > 2 ==> text == MenuPage3Text
  {
    if page == 0 then MenuPage0Text
    else if page == 1 then MenuPage1Text
    else if page == 2 then MenuPage2Text
    else MenuPage3Text
  }

  /** The four labels are distinct, so the exit label appears for exactly the
      out-of-range indices and each named page has a label of its own. */
  lemma ExitLabelExactlyOutOfRange(page: uint8, other: uint8)
    ensures MenuLabel(page) == MenuPage3Text <==> page > 2
    ensures page <= 2 && MenuLabel(page) == MenuLabel(other) ==> page == other
  {
  }

  /** `Display::drawMenuPage`: the page's label on row 34. */
  function MenuPage(page: uint8): (r: seq<Cmd>)
    ensures FullFrame(r) && |r| == 6
    ensures r[1] == SetCursor(0, 34) && r[2] == SetTextColor(White, Black) && r[3] == SetTextSize(1)
    ensures r[4] == PrintText(MenuLabel(page))
  {
    [ Clear,
      SetCursor(0, 34),
      SetTextColor(White, Black),
      SetTextSize(1),
      PrintText(MenuLabel(page)),
      Display ]
  }

  /** `Display::selfDestructMessage`: the countdown text and the remaining seconds,
      as `print(int)` spells them, on row 34. */
  function SelfDestructMessage(secRemaining: int32): (r: seq<Cmd>)
    ensures FullFrame(r) && |r| == 7
    ensures r[1] == SetCursor(0, 34) && r[2] == SetTextColor(White, Black) && r[3] == SetTextSize(1)
    ensures r[4] == PrintText("Self destructing in ")
    ensures r[5] == PrintText(IntString(secRemaining))
  {
    [ Clear,
      SetCursor(0, 34),
      SetTextColor(White, Black),
      SetTextSize(1),
      PrintText("Self destructing in "),
      PrintText(IntString(secRemaining)),
      Display ]
  }

  /** `Display::selfDestructEnd`: a fixed two-line message on rows 20 and 40. */
  function SelfDestructEnd(): (r: seq<Cmd>)
    ensures FullFrame(r) && |r| == 8
    ensures r[1] == SetCursor(0, 20) && r[2] == SetTextColor(White, Black) && r[3] == SetTextSize(1)
    ensures r[4] == PrintText("Just kidding :)")
    ensures r[5] == SetCursor(0, 40) && r[6] == PrintText("Implement your custom function here!")
  {
    [ Clear,
      SetCursor(0, 20),
      SetTextColor(White, Black),
      SetTextSize(1),
      PrintText("Just kidding :)"),
      SetCursor(0, 40),
      PrintText("Implement your custom function here!"),
      Display ]
  }

  /** Every full-screen renderer leaves the panel showing its own drawing and nothing
      of what was there before. */
  lemma FullScreensReplaceContent(p: Screen, message: string, t: LocalTime, steps: uint32,
                                  lowBattery: bool, page: uint8, secRemaining: int32)
    ensures var r := LoadingScreen(message); Run(p, r).shown == r[1..|r| - 1]
    ensures var r := ClockScreen(t, steps, lowBattery); Run(p, r).shown == r[1..|r| - 1]
    ensures var r := ErrorScreen(message); Run(p, r).shown == r[1..|r| - 1]
    ensures var r := MenuPage(page); Run(p, r).shown == r[1..|r| - 1]
    ensures var r := SelfDestructMessage(secRemaining); Run(p, r).shown == r[1..|r| - 1]
    ensures var r := SelfDestructEnd(); Run(p, r).shown == r[1..|r| - 1]
  {
    FullFrameReplacesScreen(p, LoadingScreen(message));
    FullFrameReplacesScreen(p, ClockScreen(t, steps, lowBattery));
    FullFrameReplacesScreen(p, ErrorScreen(message));
    FullFrameReplacesScreen(p, MenuPage(page));
    FullFrameReplacesScreen(p, SelfDestructMessage(secRemaining));
    FullFrameReplacesScreen(p, SelfDestructEnd());
  }
}
