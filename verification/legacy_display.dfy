/** The earlier `Display` class in the repository's top directory (Display.cpp). Its
    `begin`, loading screen and synchronisation indicator make the same calls as
    the ones in src/Display.cpp and are modelled by `Screens`; only its clock
    screen differs: no date, no divider lines, no battery badge, and a 16-bit
    step count. */
module LegacyDisplay {
  import opened CTypes
  import opened Text
  import opened Panel
  import Screens

  /** "Steps today: " and the count in small text on row 54, column 15. */
  function LegacyFooter(count: string): (r: seq<Cmd>)
    ensures |r| == 4 && r[0] == SetCursor(15, 54) && r[1] == SetTextSize(1)
    ensures r[2] == PrintText("Steps today: ") && r[3] == PrintText(count)
    ensures forall i :: 0 <= i < |r| ==> IsDrawing(r[i]) && !r[i].DrawLine? && !r[i].DrawBitmap?
  {
    [SetCursor(15, 54), SetTextSize(1), PrintText("Steps today: "), PrintText(count)]
  }

  function LegacyClockLayout(time: string, count: string): (r: seq<Cmd>)
    ensures FullFrame(r) && |r| == 10
    ensures r[1] == SetCursor(5, 9) && r[2] == SetTextColor(White, Black) && r[3] == SetTextSize(4) && r[4] == PrintText(time)
    ensures r[5] == SetCursor(15, 54) && r[6] == SetTextSize(1)
    ensures r[7] == PrintText("Steps today: ") && r[8] == PrintText(count)
    ensures forall i :: 0 <= i < |r| ==> !r[i].DrawLine? && !r[i].DrawBitmap?
  {
    var big := Screens.ClockTime(time);
    var footer := LegacyFooter(count);
    var r := [Clear] + big + footer + [Display];
    assert r[1..5] == big && r[5..9] == footer;
    r
  }

  /** `Display::drawTimeAndStepCount` of the earlier class: the time as in the later
      clock, then the step count on row 54 and nothing else. */
  function ClockScreen(t: Screens.LocalTime, steps: uint16): (r: seq<Cmd>)
    ensures FullFrame(r) && |r| == 10
    ensures r[1] == SetCursor(5, 9) && r[2] == SetTextColor(White, Black) && r[3] == SetTextSize(4)
    ensures r[4] == PrintText(Screens.TimeString(t))
    ensures r[5] == SetCursor(15, 54) && r[6] == SetTextSize(1)
    ensures r[7] == PrintText("Steps today: ") && r[8] == PrintText(Decimal(steps))
    ensures forall i :: 0 <= i < |r| ==> !r[i].DrawLine? && !r[i].DrawBitmap?
  {
    LegacyClockLayout(Screens.TimeString(t), Decimal(steps))
  }

  /** Both clock screens open with the same five calls, so the time looks the same;
      they part after it, and only the later one ever draws the badge. */
  lemma ClockVariantsShareTime(t: Screens.LocalTime, steps: uint16, lowBattery: bool)
    ensures ClockScreen(t, steps)[..5] == Screens.ClockScreen(t, steps, lowBattery)[..5]
    ensures ClockScreen(t, steps)[5] != Screens.ClockScreen(t, steps, lowBattery)[5]
    ensures Screens.BatteryBadge !in ClockScreen(t, steps)
  {
    var older := ClockScreen(t, steps);
    var later := Screens.ClockScreen(t, steps, lowBattery);
    assert older[..5] == later[..5];
  }
}
