/** `Display::wifiScanner` (src/Display.cpp): a "Scanning..." screen, then the scan
    outcome with at most five network names, one per row. The final wait for the
    button is an endless poll and is not part of the trace. */
module Scanner {
  import opened Panel

  /** What `WiFi.scanNetworks()` reported: a negative count (scan failed or still
      running), or the networks found with their SSIDs in scan order. */
  datatype ScanResult = ScanFailed | Found(ssids: seq<string>)

  const MaxListed: nat := 5
  const ScanningText: string := "Scanning..."
  const NoNetworksText: string := "No networks found"
  const NetworksFoundText: string := "Networks found:"

  /** The scan slots the loop walks: `i < numNetworks && i < 5`. */
  function Slots(scan: ScanResult): (n: nat)
    ensures n <= MaxListed
    ensures scan.Found? ==> n <= |scan.ssids|
    ensures scan.Found? && |scan.ssids| <= MaxListed ==> n == |scan.ssids|
    ensures scan.Found? && |scan.ssids| > MaxListed ==> n == MaxListed
    ensures scan.ScanFailed? ==> n == 0
  {
    match scan
    case ScanFailed => 0
    case Found(ssids) => if |ssids| < MaxListed then |ssids| else MaxListed
  }

  function SsidsOf(scan: ScanResult): seq<string> {
    if scan.Found? then scan.ssids else []
  }

  /** The first screen: "Scanning..." on row 0, flushed. */
  const ScanningFrame: seq<Cmd> :=
    [Clear, SetCursor(0, 0), SetTextColor(White, Black), SetTextSize(1), PrintText(ScanningText), Display]

  /** One loop iteration per slot from `i` on: an empty SSID is skipped, any other is
      printed, flushed, and the cursor moves to row 20 + 10 * i. */
  function NameLines(ssids: seq<string>, i: nat, n: nat): (r: seq<Cmd>)
    requires i <= n <= |ssids|
    ensures Clear !in r
    decreases n - i
  {
    if i == n then []
    else
      (if |ssids[i]| == 0 then [] else [PrintText(ssids[i]), Display, SetCursor(0, 20 + 10 * i)])
      + NameLines(ssids, i + 1, n)
  }

  /** Everything after the second clear and cursor reset. */
  function ScanBody(scan: ScanResult): (r: seq<Cmd>)
    ensures Clear !in r
    ensures |r| >= 2
    ensures scan == Found([]) ==> r == [PrintText(NoNetworksText), Display]
    ensures scan != Found([]) ==> r[0] == PrintText(NetworksFoundText) && r[|r| - 1] == SetTextWrap(true)
  {
    if scan == Found([]) then [PrintText(NoNetworksText), Display]
    else
      FoundHeader
      + NameLines(SsidsOf(scan), 0, Slots(scan))
      + [SetTextWrap(true)]
  }

  function WifiScanner(scan: ScanResult): (r: seq<Cmd>)
    ensures |r| >= 10 && r[..6] == ScanningFrame && r[6] == Clear && r[7] == SetCursor(0, 0)
    ensures r[8..] == ScanBody(scan)
  {
    var body := ScanBody(scan);
    var rest := [Clear] + ([SetCursor(0, 0)] + body);
    var r := ScanningFrame + rest;
    assert |ScanningFrame| == 6;
    assert r[..6] == ScanningFrame;
    assert r[6..] == rest;
    assert rest[2..] == body;
    r
  }

  /** Reference for the loop: the slots from `i` below `n` whose SSID is not empty,
      in increasing order. */
  function PrintedSlots(ssids: seq<string>, i: nat, n: nat): seq<nat>
    requires i <= n <= |ssids|
    decreases n - i
  {
    if i == n then []
    else (if |ssids[i]| == 0 then [] else [i]) + PrintedSlots(ssids, i + 1, n)
  }

  /** One slot in front of the rest of the loop. */
  lemma NameLinesUnfold(ssids: seq<string>, i: nat, n: nat)
    requires i < n <= |ssids|
    ensures |ssids[i]| == 0 ==> NameLines(ssids, i, n) == NameLines(ssids, i + 1, n)
    ensures |ssids[i]| > 0 ==>
      NameLines(ssids, i, n) == [PrintText(ssids[i]), Display, SetCursor(0, 20 + 10 * i)] + NameLines(ssids, i + 1, n)
  {
  }

  lemma PrintedSlotsUnfold(ssids: seq<string>, i: nat, n: nat)
    requires i < n <= |ssids|
    ensures |ssids[i]| == 0 ==> PrintedSlots(ssids, i, n) == PrintedSlots(ssids, i + 1, n)
    ensures |ssids[i]| > 0 ==> PrintedSlots(ssids, i, n) == [i] + PrintedSlots(ssids, i + 1, n)
  {
  }

  lemma {:induction false} PrintedSlotsInRange(ssids: seq<string>, i: nat, n: nat)
    requires i <= n <= |ssids|
    ensures forall k :: 0 <= k < |PrintedSlots(ssids, i, n)| ==>
      i <= PrintedSlots(ssids, i, n)[k] < n && |ssids[PrintedSlots(ssids, i, n)[k]]| > 0
    decreases n - i
  {
    if i < n {
      PrintedSlotsInRange(ssids, i + 1, n);
      PrintedSlotsUnfold(ssids, i, n);
      var rest := PrintedSlots(ssids, i + 1, n);
      var r := PrintedSlots(ssids, i, n);
      forall k | 0 <= k < |r|
        ensures i <= r[k] < n && |ssids[r[k]]| > 0
      {
        if |ssids[i]| > 0 && k > 0 {
          assert r[k] == rest[k - 1];
        }
      }
    }
  }

  lemma {:induction false} PrintedSlotsIncreasing(ssids: seq<string>, i: nat, n: nat)
    requires i <= n <= |ssids|
    ensures forall k, l :: 0 <= k < l < |PrintedSlots(ssids, i, n)| ==> PrintedSlots(ssids, i, n)[k] < PrintedSlots(ssids, i, n)[l]
    decreases n - i
  {
    if i < n {
      PrintedSlotsIncreasing(ssids, i + 1, n);
      PrintedSlotsInRange(ssids, i + 1, n);
      PrintedSlotsUnfold(ssids, i, n);
      var rest := PrintedSlots(ssids, i + 1, n);
      var r := PrintedSlots(ssids, i, n);
      forall k, l | 0 <= k < l < |r|
        ensures r[k] < r[l]
      {
        if |ssids[i]| > 0 {
          assert r[l] == rest[l - 1];
          if k > 0 {
            assert r[k] == rest[k - 1];
          }
        }
      }
    }
  }

  lemma {:induction false} PrintedSlotsComplete(ssids: seq<string>, i: nat, n: nat)
    requires i <= n <= |ssids|
    ensures forall j :: i <= j < n && |ssids[j]| > 0 ==> j in PrintedSlots(ssids, i, n)
    decreases n - i
  {
    if i < n {
      PrintedSlotsComplete(ssids, i + 1, n);
      PrintedSlotsUnfold(ssids, i, n);
      var rest := PrintedSlots(ssids, i + 1, n);
      var r := PrintedSlots(ssids, i, n);
      forall j | i <= j < n && |ssids[j]| > 0
        ensures j in r
      {
        if j == i {
          assert r[0] == i;
        } else {
          assert j in rest;
          if |ssids[i]| > 0 {
            assert r == [i] + rest;
          }
        }
      }
    }
  }

  /** The slots listed are exactly the non-empty ones from `i` below `n`, each once,
      in increasing order. */
  lemma PrintedSlotsSpec(ssids: seq<string>, i: nat, n: nat)
    requires i <= n <= |ssids|
    ensures var r := PrintedSlots(ssids, i, n);
      && (forall k :: 0 <= k < |r| ==> i <= r[k] < n && |ssids[r[k]]| > 0)
      && (forall k, l :: 0 <= k < l < |r| ==> r[k] < r[l])
      && (forall j :: i <= j < n && |ssids[j]| > 0 ==> j in r)
  {
    PrintedSlotsInRange(ssids, i, n);
    PrintedSlotsIncreasing(ssids, i, n);
    PrintedSlotsComplete(ssids, i, n);
  }

  lemma NameLineRows(s: string, row: int, y: int)
    ensures Rows([PrintText(s), Display, SetCursor(0, row)], y) == [Row(y, s)]
    ensures CursorRow([PrintText(s), Display, SetCursor(0, row)], y) == row
  {
    RowsOfThree(PrintText(s), Display, SetCursor(0, row), y);
  }

  /** `rows` prints the SSIDs of `slots` in order, the first on row `y` and each later
      one on row 20 + 10 * (the slot printed before it). */
  predicate RowsFollowSlots(rows: seq<Row>, ssids: seq<string>, slots: seq<nat>, y: int) {
    && |rows| == |slots|
    && (forall k :: 0 <= k < |rows| ==> slots[k] < |ssids| && rows[k].text == ssids[slots[k]])
    && (|rows| > 0 ==> rows[0].y == y)
    && (forall k :: 0 < k < |rows| ==> rows[k].y == 20 + 10 * slots[k - 1])
  }

  lemma RowsFollowSlotsCons(rows: seq<Row>, ssids: seq<string>, slots: seq<nat>, i: nat, y: int)
    requires i < |ssids|
    requires RowsFollowSlots(rows, ssids, slots, 20 + 10 * i)
    ensures RowsFollowSlots([Row(y, ssids[i])] + rows, ssids, [i] + slots, y)
  {
    var rows' := [Row(y, ssids[i])] + rows;
    var slots' := [i] + slots;
    forall k | 0 < k < |rows'|
      ensures rows'[k].y == 20 + 10 * slots'[k - 1]
    {
      assert rows'[k] == rows[k - 1];
      if k > 1 {
        assert slots'[k - 1] == slots[k - 2];
      }
    }
  }

  /** One printed slot in front of the rest of the loop. */
  lemma PrintedSlotStep(ssids: seq<string>, i: nat, n: nat, y: int)
    requires i < n <= |ssids| && |ssids[i]| > 0
    requires RowsFollowSlots(Rows(NameLines(ssids, i + 1, n), 20 + 10 * i), ssids, PrintedSlots(ssids, i + 1, n), 20 + 10 * i)
    ensures RowsFollowSlots(Rows(NameLines(ssids, i, n), y), ssids, PrintedSlots(ssids, i, n), y)
  {
    var row := 20 + 10 * i;
    var rest := NameLines(ssids, i + 1, n);
    var block := [PrintText(ssids[i]), Display, SetCursor(0, row)];
    NameLinesUnfold(ssids, i, n);
    PrintedSlotsUnfold(ssids, i, n);
    NameLineRows(ssids[i], row, y);
    RowsAppend(block, rest, y);
    RowsFollowSlotsCons(Rows(rest, row), ssids, PrintedSlots(ssids, i + 1, n), i, y);
  }

  lemma NoSlotsLeft(ssids: seq<string>, i: nat, n: nat, y: int)
    requires i == n <= |ssids|
    ensures RowsFollowSlots(Rows(NameLines(ssids, i, n), y), ssids, PrintedSlots(ssids, i, n), y)
  {
    assert NameLines(ssids, i, n) == [] && PrintedSlots(ssids, i, n) == [];
  }

  /** An empty SSID in front of the rest of the loop. */
  lemma SkippedSlotStep(ssids: seq<string>, i: nat, n: nat, y: int)
    requires i < n <= |ssids| && |ssids[i]| == 0
    requires RowsFollowSlots(Rows(NameLines(ssids, i + 1, n), y), ssids, PrintedSlots(ssids, i + 1, n), y)
    ensures RowsFollowSlots(Rows(NameLines(ssids, i, n), y), ssids, PrintedSlots(ssids, i, n), y)
  {
    NameLinesUnfold(ssids, i, n);
    PrintedSlotsUnfold(ssids, i, n);
  }

  /** The rows the loop prints on, from slot `i` with the cursor on row `y`; a skipped
      slot prints nothing but the next name's row still counts it. */
  lemma {:induction false} NameLinesLayout(ssids: seq<string>, i: nat, n: nat, y: int)
    requires i <= n <= |ssids|
    ensures RowsFollowSlots(Rows(NameLines(ssids, i, n), y), ssids, PrintedSlots(ssids, i, n), y)
    decreases n - i
  {
    if i == n {
      NoSlotsLeft(ssids, i, n, y);
    } else if |ssids[i]| == 0 {
      NameLinesLayout(ssids, i + 1, n, y);
      SkippedSlotStep(ssids, i, n, y);
    } else {
      NameLinesLayout(ssids, i + 1, n, 20 + 10 * i);
      PrintedSlotStep(ssids, i, n, y);
    }
  }

  /** The header of a non-empty outcome: printed on row 0, then the cursor goes to row 10. */
  const FoundHeader: seq<Cmd> := [PrintText(NetworksFoundText), SetCursor(0, 10), SetTextWrap(false)]

  /** A print, a move to row `row` and a call that neither prints nor moves. */
  lemma PrintMoveRows(s: string, row: int, c: Cmd, y: int)
    requires !c.PrintText? && !c.SetCursor?
    ensures Rows([PrintText(s), SetCursor(0, row), c], y) == [Row(y, s)]
    ensures CursorRow([PrintText(s), SetCursor(0, row), c], y) == row
  {
    RowsOfThree(PrintText(s), SetCursor(0, row), c, y);
  }

  lemma FoundHeaderRows()
    ensures Rows(FoundHeader, 0) == [Row(0, NetworksFoundText)] && CursorRow(FoundHeader, 0) == 10
  {
    PrintMoveRows(NetworksFoundText, 10, SetTextWrap(false), 0);
  }

  lemma NoNetworksRows()
    ensures Rows([PrintText(NoNetworksText), Display], 0) == [Row(0, NoNetworksText)]
  {
    RowsOfOne(PrintText(NoNetworksText), 0);
    RowsSnoc([PrintText(NoNetworksText)], Display, 0);
    assert [PrintText(NoNetworksText)] + [Display] == [PrintText(NoNetworksText), Display];
  }

  /** What the scanner prints after its cursor reset to row 0: with no networks only
      "No networks found"; otherwise "Networks found:" on row 0, then the non-empty
      SSIDs among the first five slots, in scan order, the first on row 10 and each
      later one on row 20 + 10 * (slot of the name before it). */
  lemma ScannerRows(scan: ScanResult)
    ensures scan == Found([]) ==> Rows(ScanBody(scan), 0) == [Row(0, NoNetworksText)]
    ensures scan != Found([]) ==>
      var rows := Rows(ScanBody(scan), 0);
      && |rows| >= 1
      && rows[0] == Row(0, NetworksFoundText)
      && RowsFollowSlots(rows[1..], SsidsOf(scan), PrintedSlots(SsidsOf(scan), 0, Slots(scan)), 10)
  {
    if scan == Found([]) {
      NoNetworksRows();
    } else {
      var names := NameLines(SsidsOf(scan), 0, Slots(scan));
      FoundHeaderRows();
      NameLinesLayout(SsidsOf(scan), 0, Slots(scan), 10);
      RowsAppend(FoundHeader, names, 0);
      RowsSnoc(FoundHeader + names, SetTextWrap(true), 0);
      assert ScanBody(scan) == FoundHeader + names + [SetTextWrap(true)];
      var rows := Rows(ScanBody(scan), 0);
      assert rows == [Row(0, NetworksFoundText)] + Rows(names, 10);
      assert rows[1..] == Rows(names, 10);
    }
  }

  /** The printed name rows move strictly down the panel and stay within rows 10 to 50. */
  lemma NameRowsDescend(rows: seq<Row>, ssids: seq<string>, slots: seq<nat>)
    requires forall k :: 0 <= k < |slots| ==> slots[k] < |ssids| && slots[k] < MaxListed
    requires forall k, l :: 0 <= k < l < |slots| ==> slots[k] < slots[l]
    requires RowsFollowSlots(rows, ssids, slots, 10)
    ensures forall k, l :: 0 <= k < l < |rows| ==> rows[k].y < rows[l].y
    ensures forall k :: 0 <= k < |rows| ==> 10 <= rows[k].y <= 50
  {
    forall k | 0 < k < |rows|
      ensures rows[k].y <= 50
    {
      assert slots[k - 1] < slots[k] < MaxListed;
    }
  }

  /** A header row followed by name rows laid out from row 10 along increasing slots
      below five: the name rows move strictly down and stay within rows 10 to 50. */
  lemma ListBelowHeader(rows: seq<Row>, ssids: seq<string>, slots: seq<nat>)
    requires |rows| >= 1 && RowsFollowSlots(rows[1..], ssids, slots, 10)
    requires forall k :: 0 <= k < |slots| ==> slots[k] < |ssids| && slots[k] < MaxListed
    requires forall k, l :: 0 <= k < l < |slots| ==> slots[k] < slots[l]
    ensures forall k, l :: 0 < k < l < |rows| ==> rows[k].y < rows[l].y
    ensures forall k :: 0 < k < |rows| ==> 10 <= rows[k].y <= 50
  {
    var names := rows[1..];
    NameRowsDescend(names, ssids, slots);
    forall k | 0 < k < |rows|
      ensures 10 <= rows[k].y <= 50
    {
      assert rows[k] == names[k - 1];
    }
    forall k, l | 0 < k < l < |rows|
      ensures rows[k].y < rows[l].y
    {
      assert rows[k] == names[k - 1] && rows[l] == names[l - 1];
    }
  }

  /** The list a loop over `n <= 5` slots leaves below the header. */
  lemma ListOfPrintedSlots(rows: seq<Row>, ssids: seq<string>, n: nat)
    requires n <= MaxListed && n <= |ssids|
    requires |rows| >= 1 && RowsFollowSlots(rows[1..], ssids, PrintedSlots(ssids, 0, n), 10)
    ensures forall k, l :: 0 < k < l < |rows| ==> rows[k].y < rows[l].y
    ensures forall k :: 0 < k < |rows| ==> 10 <= rows[k].y <= 50
  {
    PrintedSlotsInRange(ssids, 0, n);
    PrintedSlotsIncreasing(ssids, 0, n);
    ListBelowHeader(rows, ssids, PrintedSlots(ssids, 0, n));
  }

  /** Under the header on row 0, the scanner's list moves strictly down the panel,
      from row 10 to at most row 50. */
  lemma ScannerListDescends(scan: ScanResult)
    requires scan != Found([])
    ensures var rows := Rows(ScanBody(scan), 0);
      && |rows| >= 1 && rows[0] == Row(0, NetworksFoundText)
      && (forall k, l :: 0 < k < l < |rows| ==> rows[k].y < rows[l].y)
      && (forall k :: 0 < k < |rows| ==> 10 <= rows[k].y <= 50)
  {
    ScannerRows(scan);
    ListOfPrintedSlots(Rows(ScanBody(scan), 0), SsidsOf(scan), Slots(scan));
  }

  /** The loop flushes the panel exactly when it prints at least one name. */
  lemma {:induction false} NameLinesFlush(ssids: seq<string>, i: nat, n: nat)
    requires i <= n <= |ssids|
    ensures Display in NameLines(ssids, i, n) <==> PrintedSlots(ssids, i, n) != []
    decreases n - i
  {
    if i < n {
      NameLinesUnfold(ssids, i, n);
      PrintedSlotsUnfold(ssids, i, n);
      if |ssids[i]| == 0 {
        NameLinesFlush(ssids, i + 1, n);
      } else {
        assert NameLines(ssids, i, n)[1] == Display;
      }
    }
  }

  /** The drawing the glass is left with while only "Scanning..." has been flushed. */
  const ScanningShown: seq<Cmd> := ScanningFrame[1..5]

  /** As written, "Networks found:" reaches the glass only through the flush after a
      printed name: when the scan failed, or every listed SSID is empty, the panel
      keeps showing "Scanning..." while the code waits for the button. */
  lemma HeaderNeverShown(p: Screen, scan: ScanResult)
    requires scan != Found([]) && PrintedSlots(SsidsOf(scan), 0, Slots(scan)) == []
    ensures Run(p, WifiScanner(scan)).shown == ScanningShown
    ensures PrintText(NetworksFoundText) !in Run(p, WifiScanner(scan)).shown
  {
    var body := ScanBody(scan);
    NameLinesFlush(SsidsOf(scan), 0, Slots(scan));
    assert Display !in body by {
      assert body == FoundHeader + NameLines(SsidsOf(scan), 0, Slots(scan)) + [SetTextWrap(true)];
    }
    ScanningFrameIsFull();
    RedrawShows(p, ScanningFrame, [SetCursor(0, 0)] + body);
    ScanningShownIsScanning();
  }

  lemma ScanningFrameIsFull()
    ensures FullFrame(ScanningFrame) && ScanningFrame[1..|ScanningFrame| - 1] == ScanningShown
  {
  }

  lemma ScanningShownIsScanning()
    ensures ScanningShown == [SetCursor(0, 0), SetTextColor(White, Black), SetTextSize(1), PrintText(ScanningText)]
    ensures PrintText(NetworksFoundText) !in ScanningShown
  {
    assert ScanningText != NetworksFoundText by {
      assert |ScanningText| != |NetworksFoundText|;
    }
  }

  /** A failed scan is one such input. */
  lemma FailedScanKeepsScanning(p: Screen)
    ensures Run(p, WifiScanner(ScanFailed)).shown == ScanningShown
  {
    HeaderNeverShown(p, ScanFailed);
  }

  /** The evidently intended screen: the same calls with one more flush after the loop. */
  function WifiScannerFlushed(scan: ScanResult): (r: seq<Cmd>)
    ensures |r| == |WifiScanner(scan)| + 1 && r[..|r| - 1] == WifiScanner(scan) && r[|r| - 1] == Display
  {
    WifiScanner(scan) + [Display]
  }

  /** With that flush the glass always shows the outcome line: "Networks found:"
      exactly when the scan was not empty, "No networks found" otherwise. */
  lemma FlushedScannerShowsHeader(p: Screen, scan: ScanResult)
    ensures PrintText(NetworksFoundText) in Run(p, WifiScannerFlushed(scan)).shown <==> scan != Found([])
    ensures scan == Found([]) ==> PrintText(NoNetworksText) in Run(p, WifiScannerFlushed(scan)).shown
  {
    FlushedScannerShows(p, scan);
    ScannerHeaderIn(scan);
  }

  /** ... and it shows every name the loop printed, on the rows `ScannerRows` gives. */
  lemma FlushedScannerRows(p: Screen, scan: ScanResult)
    ensures Rows(Run(p, WifiScannerFlushed(scan)).shown, 0) == Rows(ScanBody(scan), 0)
  {
    FlushedScannerShows(p, scan);
    ResetRows(ScanBody(scan));
  }

  lemma FlushedScannerShows(p: Screen, scan: ScanResult)
    ensures Run(p, WifiScannerFlushed(scan)).shown == Drawings([SetCursor(0, 0)] + ScanBody(scan))
  {
    var drawn := [SetCursor(0, 0)] + ScanBody(scan);
    FlushedShape(ScanningFrame, drawn);
    ScanningFrameIsFull();
    RedrawShows(p, ScanningFrame, drawn);
  }

  lemma FlushedShape(frame: seq<Cmd>, drawn: seq<Cmd>)
    ensures frame + ([Clear] + drawn) + [Display] == frame + ([Clear] + (drawn + [Display]))
  {
  }

  lemma ResetRows(body: seq<Cmd>)
    requires Clear !in body
    ensures Rows(Drawings([SetCursor(0, 0)] + body), 0) == Rows(body, 0)
  {
    var drawn := [SetCursor(0, 0)] + body;
    assert Clear !in drawn;
    RowsOfDrawings(drawn, 0);
    RowsAppend([SetCursor(0, 0)], body, 0);
    RowsOfOne(SetCursor(0, 0), 0);
  }

  /** Which outcome line the body prints. */
  lemma ScannerHeaderIn(scan: ScanResult)
    ensures PrintText(NetworksFoundText) in [SetCursor(0, 0)] + ScanBody(scan) <==> scan != Found([])
    ensures scan == Found([]) ==> PrintText(NoNetworksText) in [SetCursor(0, 0)] + ScanBody(scan)
  {
    var body := ScanBody(scan);
    if scan != Found([]) {
      var names := NameLines(SsidsOf(scan), 0, Slots(scan));
      assert body == FoundHeader + names + [SetTextWrap(true)];
      assert body[0] == PrintText(NetworksFoundText);
    }
  }
}
