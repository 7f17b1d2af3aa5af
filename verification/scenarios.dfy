/** Concrete runs of the model: particular inputs and what the firmware shows or
    returns for them. */
module Scenarios {
  import opened CTypes
  import opened Text
  import opened Panel
  import Screens
  import Network
  import Scanner

  /** 14:05 on the 3rd of June (`tm_mon` 5) with 120 steps: the clock prints "14:05",
      "03.06." and "120", and carries the badge only with the low-battery flag. */
  lemma ClockAtFivePastTwo(lowBattery: bool)
    ensures var r := Screens.ClockScreen(Screens.LocalTime(14, 5, 3, 5), 120, lowBattery);
      && r[4] == PrintText("14:05")
      && r[7] == PrintText("03.06.")
      && r[8] == PrintText("  Steps: ")
      && r[9] == PrintText("120")
      && (Screens.BatteryBadge in r <==> lowBattery)
  {
    var t := Screens.LocalTime(14, 5, 3, 5);
    assert Pad2(14) == "14" && Pad2(5) == "05" && Pad2(3) == "03" && Pad2(6) == "06";
    assert Screens.TimeString(t) == "14:05";
    assert Screens.DateString(t) == "03.06.";
    assert Decimal(120) == "120" by {
      assert Decimal(12) == "12";
    }
  }

  /** A five-second timeout with a driver that never connects: five one-second waits,
      then failure. */
  lemma ConnectNeverConnects(status: nat -> Network.WiFiStatus)
    requires forall k :: status(k) == Network.Disconnected
    ensures Network.Connect(status, 5) == Network.Outcome(false, 5, 5)
  {
    Network.ConnectTimesOut(status, 5);
  }

  /** A scan that found nothing shows "No networks found" on row 0. */
  lemma EmptyScan()
    ensures Rows(Scanner.ScanBody(Scanner.Found([])), 0) == [Row(0, "No networks found")]
  {
    Scanner.ScannerRows(Scanner.Found([]));
  }

  /** Three seconds before the end the countdown prints "3"; a negative count keeps
      its sign. */
  lemma CountdownNumbers()
    ensures Screens.SelfDestructMessage(3)[5] == PrintText("3")
    ensures Screens.SelfDestructMessage(-1)[5] == PrintText("-1")
  {
    assert IntString(3) == "3";
    assert IntString(-1) == "-1";
  }
}
