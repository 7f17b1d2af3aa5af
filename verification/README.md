# Soldered Smart Watch: display, network and LED model

A Dafny model of the core of the Soldered Smart Watch firmware. It covers three classes.

- **`Display`** draws every screen on the 128x64 OLED panel:
  - the loading screen;
  - the clock with date, step count and low-battery badge;
  - the clock-sync indicator and the error screen;
  - the menu pages and the self-destruct joke;
  - the gyroscope cube animation and the WiFi scanner.
- **`Network`** joins WiFi and waits for NTP to set the real-time clock. Both waits have a timeout counted in delays.
- **`Wsled`** drives the board's single WS2812 LED. It handles the menu colours, switching the LED off, and the red blink.

The top directory also holds an earlier `Display` and `Network`. The earlier `Network.cpp` is the same code as src/Network.cpp apart from comments, so the `Network` module models both files. The earlier `Display.cpp` makes the same calls as src/Display.cpp in `begin` (Display.cpp:5-24), `showLoadingMessage` (Display.cpp:26-38) and `drawUpdatingRtcIndicator` (Display.cpp:61-67). Those are modelled by `Screens.Begin`, `Screens.LoadingScreen` and `Screens.UpdatingRtcIndicator`. Its clock screen is different and has its own module, `LegacyDisplay`.

How the model is built:

- **Panel.** A renderer is a pure function that returns the trace of panel calls it makes (`Panel.Cmd`). `Panel.Run` gives a trace its meaning on a `Screen`, which holds:
  - the frame buffer, as the drawing calls made since the last clear;
  - what the glass shows, which is the buffer at the last flush.
  
  Printed text is mapped to cursor rows by `Panel.Rows`.
- **Drivers.** Driver readings are parameters:
  - `WiFi.status()` and `time()` are streams `nat -> T`, one value per call;
  - the scan result is a `ScanResult`;
  - the accelerometer readings and button presses are a sequence of `Sample`s;
  - `localtime()` is a `LocalTime` record;
  - the trigonometric projection is a function parameter.
- **Timeouts.** `connect` and `getTimeAndSaveToRTC` return an `Outcome`: the result, the number of delay calls, and the number of driver readings taken.
- **Integers.** They are unbounded. The 8, 16 and 32-bit C types of the source are subset types (`CTypes`), and the 32-bit wrap of `millis()` is written out in `Wsled`.
- **Constants.** The panel size and the menu texts agree with src/defines.h:42-43 and src/defines.h:62-65.

src/Display.h declares `drawTimeAndStepCount(time_t, uint16_t)`, but src/Display.cpp defines `drawTimeAndStepCount(time_t, uint32_t, bool)`. The model follows the definition in the .cpp file.

## Model

| member | source | states |
|---|---|---|
| Text.Decimal | src/Display.cpp:80 | the unsigned spelling `print` writes: digits only, a leading '0' only for zero, one digit exactly below ten |
| Text.DecimalRoundTrip | src/Display.cpp:80 | the spelled number reads back as the number printed |
| Text.IntString | src/Display.cpp:182 | `print(int)` writes at least one character |
| Text.IntStringRoundTrip | src/Display.cpp:182 | the signed spelling is a numeral whose signed value is the remaining seconds, negative ones included |
| Text.Pad2 | src/Display.cpp:67-68 | `%02d` is at least two characters wide, and exactly two for 0..99 |
| Text.Pad2RoundTrip | src/Display.cpp:67-68 | a `%02d` field reads back as its value; a negative one keeps its sign in front of the magnitude |
| Panel.RunWithoutClear | src/Display.cpp:99-106 | calls without a clear only add to the buffer; a closing flush shows old buffer plus the new drawing, and without a flush the glass is unchanged |
| Panel.FullFrameReplacesScreen | src/Display.cpp:71-92 | a clear, drawing calls and a flush: the glass shows exactly the calls drawn since the clear, whatever calls the buffer held before |
| Panel.EndsWithFullFrame | src/Display.cpp:245-289 | a trace ending in a full render shows that render's drawing |
| Panel.RedrawShows | src/Display.cpp:343-347 | after a full render, a clear and calls without a flush leave the earlier render on the glass; with a closing flush the glass shows just the new drawing |
| Screens.Begin | src/Display.cpp:13-32 | the first call allocates the panel and returns the driver's init result; a later call returns false and keeps the panel it found |
| Screens.BeginOnlyOnce | src/Display.cpp:17-23 | after any first call, every further call fails and the first panel object stays |
| Screens.LoadingScreen | src/Display.cpp:39-51 | a full render: the logo over the whole 128x64 panel, then white-on-black text with the message on row 40; it sets no text size of its own |
| Screens.TimeString | src/Display.cpp:64-67 | HH:MM is five characters and fits the six-byte buffer with its NUL |
| Screens.DateString | src/Display.cpp:65-68 | DD.MM. is six characters and fits the eight-byte buffer with its NUL |
| Screens.ClockStringsReadBack | src/Display.cpp:67-68 | for a valid local time, the two time fields read back as hour and minute; the date fields read back as day and month (tm_mon + 1), with ':' and '.' at their places |
| Screens.ClockLayout | src/Display.cpp:71-92 | a full render: the time at (5,9) in size 4, white on black; from (2,54) in size 1, the date, "  Steps: " and the count; divider lines at rows 45 and 47; the badge present exactly when the flag is set |
| Screens.ClockScreen | src/Display.cpp:60-93 | the clock for a local time: it prints TimeString, DateString, the "  Steps: " label and the decimal step count; the badge appears iff low battery |
| Screens.BatteryFlagOnlyAddsBadge | src/Display.cpp:86-90 | the low-battery flag inserts the badge before the flush and changes nothing else |
| Screens.UpdatingRtcIndicator | src/Display.cpp:99-106 | no clear: on any panel the two rectangles join the existing buffer and all of it is shown |
| Screens.IndicatorOverlays | src/Display.cpp:99-106 | the glass shows the previous buffer with the two border rectangles added |
| Screens.ErrorScreen | src/Display.cpp:113-131 | a full render in small white-on-black text: the "ERROR:" header on row 0, the message on row 20 and the restart hint on row 50 |
| Screens.MenuLabel | src/Display.cpp:147-163 | pages 0, 1 and 2 get their own labels; every other index gets the exit label |
| Screens.ExitLabelExactlyOutOfRange | src/Display.cpp:147-163 | the exit label appears iff the index is above 2, and the named pages' labels are distinct |
| Screens.MenuPage | src/Display.cpp:138-167 | a full render of the page's label on row 34, in small white-on-black text |
| Screens.SelfDestructMessage | src/Display.cpp:174-184 | a full render in small white-on-black text of the countdown text and the signed seconds on row 34 |
| Screens.SelfDestructEnd | src/Display.cpp:190-201 | a full render in small white-on-black text of the two fixed lines on rows 20 and 40 |
| Screens.FullScreensReplaceContent | src/Display.cpp:39-201 | every full-screen renderer leaves the glass showing its own drawing calls and none of the calls from before |
| LegacyDisplay.LegacyClockLayout | Display.cpp:48-58 | a full render: the time as in the later clock, then "Steps today: " and the count in size 1 from (15,54); no lines and no bitmaps |
| LegacyDisplay.ClockScreen | Display.cpp:40-59 | the earlier clock prints TimeString, then "Steps today: " and the 16-bit step count in size 1; it draws no line or bitmap |
| LegacyDisplay.ClockVariantsShareTime | Display.cpp:49-53 | both clocks share their first five calls and differ at the sixth; the earlier one never draws the badge |
| Scanner.Slots | src/Display.cpp:368 | the loop visits min(count, 5) slots, and none when the scan failed |
| Scanner.NameLines | src/Display.cpp:368-383 | the loop never clears the panel |
| Scanner.ScanBody | src/Display.cpp:351-386 | an empty scan prints only "No networks found" and flushes; any other result starts with "Networks found:" and ends by turning wrap back on; nothing clears |
| Scanner.WifiScanner | src/Display.cpp:333-386 | the "Scanning..." render, then a clear and a cursor reset, then the scan body |
| Scanner.PrintedSlotsSpec | src/Display.cpp:368-383 | the slots the loop prints are exactly the non-empty SSIDs among the visited slots, each once and in increasing order |
| Scanner.NameLinesLayout | src/Display.cpp:368-383 | each printed name is that slot's SSID. The first is on the starting row; each later one is on row 20 + 10 * (the slot printed before it), so a skipped slot still moves the next name |
| Scanner.ScannerRows | src/Display.cpp:351-386 | rows of the body: only "No networks found" on row 0 for an empty scan; otherwise the header on row 0, then the printed names laid out as above, from row 10 |
| Scanner.NameRowsDescend | src/Display.cpp:368-379 | the listed names move strictly down the panel and stay within rows 10 to 50 |
| Scanner.ScannerListDescends | src/Display.cpp:360-383 | for a non-empty result: the header on row 0, and below it the listed names move strictly down the panel from row 10 to at most row 50 |
| Scanner.NameLinesFlush | src/Display.cpp:371-376 | the loop flushes the panel iff it prints at least one name |
| Scanner.HeaderNeverShown | src/Display.cpp:357-386 | as written: with a non-empty result and no name printed, the glass keeps showing "Scanning..." and never shows "Networks found:" |
| Scanner.FailedScanKeepsScanning | src/Display.cpp:350-386 | a failed scan (negative count) leaves "Scanning..." on the glass |
| Scanner.WifiScannerFlushed | src/Display.cpp:384-386 | the corrected scanner: the same calls with one flush after the loop |
| Scanner.FlushedScannerShows | src/Display.cpp:346-386 | corrected: after the second clear, the glass shows every drawing call of the scan body |
| Scanner.FlushedScannerShowsHeader | src/Display.cpp:351-386 | corrected: "Networks found:" is shown iff the scan was not empty, and "No networks found" is shown otherwise |
| Scanner.FlushedScannerRows | src/Display.cpp:360-385 | corrected: the glass holds every printed name on the rows ScannerRows gives |
| Cube.CubeCorners | src/Display.cpp:216-217 | eight distinct corners, each coordinate -1 or 1 |
| Cube.EdgesAreCubeEdges | src/Display.cpp:219-223 | all twelve edges join corners that differ in exactly one coordinate |
| Cube.EdgesDistinct | src/Display.cpp:219-223 | no edge is listed twice in either direction |
| Cube.EdgesComplete | src/Display.cpp:216-223 | every pair of adjacent corners is joined by a listed edge |
| Cube.SmoothAxis | src/Display.cpp:254-262 | the new angle lies between the previous angle and the scaled reading, and halves the distance to the reading's angle |
| Cube.Smooth | src/Display.cpp:254-267 | each of the three angles is smoothed on its own, with its own reading |
| Cube.SmoothingConverges | src/Display.cpp:254-267 | with a constant reading, after n frames the distance left is the starting distance over 2^n |
| Cube.EdgeLine | src/Display.cpp:274-286 | a white line whose two ends are the projections of the edge's two corners, with the angles handed over as y, z, x |
| Cube.EdgeLines | src/Display.cpp:271-287 | one line per edge, in order, each between the projections of the edge's corners |
| Cube.Frame | src/Display.cpp:245-289 | a full render of 14 calls: the twelve edge lines in list order, projected with the angles in the order y, z, x |
| Cube.FrameDrawsEveryCubeEdge | src/Display.cpp:271-287 | every cube edge between adjacent corners appears in a frame as a line between their projections |
| Cube.FramesDrawn | src/Display.cpp:242-298 | frames are drawn up to and including the first one after which the button reports a press; with no press, one frame per sample |
| Cube.Animation | src/Display.cpp:242-298 | one 14-call frame per frame drawn; frame k is the cube at the angles smoothed from the first k + 1 readings |
| Cube.AnimationFramesAreFull | src/Display.cpp:245-289 | every frame drawn is a full render |
| Cube.GyroAnimation | src/Display.cpp:211-298 | starting from zero angles: one frame per frame drawn; frame k is the cube at the angles smoothed from the first k + 1 readings |
| Cube.AnimationEndsOnLastFrame | src/Display.cpp:289-297 | when the loop returns, the glass shows the twelve edge lines of the last frame drawn, at the angles smoothed from every reading taken |
| Network.Tries | src/Network.cpp:28-42 | the connect loop can check the status at most `timeout` times, and once for a zero timeout |
| Network.ConnectLoop | src/Network.cpp:31-55 | from check j: no connection before the stop; a stop before the limit was a connected reading, and the result is the confirming reading; at the limit it fails |
| Network.Connect | src/Network.cpp:21-56 | at most max(timeout, 1) one-second delays. Every skipped reading was unconnected. Success means the first connected reading came before the limit and the confirming reading after it was connected too |
| Network.ConnectSucceedsIff | src/Network.cpp:31-55 | connect returns true iff one of the allowed checks is the first connected reading and the check right after it is connected |
| Network.ConnectTimesOut | src/Network.cpp:36-42 | with no connection in the allowed checks, connect returns false after exactly max(timeout, 1) delays |
| Network.ConnectZeroTimeout | src/Network.cpp:38-42 | a zero timeout still makes one check; it either confirms at once or fails after one delay |
| Network.ConnectWaitBound | src/Network.cpp:31-42 | the total wait is at most the timeout in seconds, or one second for a zero timeout |
| Network.IsConnectedNow | src/Network.cpp:64-75 | true iff the single status reading is WL_CONNECTED |
| Network.Polls | src/Network.cpp:106-107 | the check `counter / 5 >= timeout` first holds at counter 5 * timeout, or at 1 when the timeout is zero |
| Network.RtcLoop | src/Network.cpp:99-111 | from poll c: success only on a reading of at least one day before the last poll; otherwise it fails at the last poll; the clock is read once more than it waits |
| Network.GetTimeAndSaveToRtc | src/Network.cpp:86-115 | every skipped reading was below one day; success stops at a valid reading before the poll limit; failure waits exactly the poll limit |
| Network.RtcSucceedsIff | src/Network.cpp:97-114 | the call succeeds iff some reading before the last poll holds a real time |
| Network.RtcIgnoresTimeoutReading | src/Network.cpp:102-110 | the reading taken at the poll that reaches the timeout is discarded, even when it is valid |
| Network.RtcWaitBound | src/Network.cpp:99-111 | the total wait is at most the timeout in seconds, or one 200 ms poll for a zero timeout |
| Wsled.PaintShows | src/WSLED.cpp:26-40 | setting pixel 0 and showing lights the LED with that colour and keeps the brightness |
| Wsled.FadeSteps | src/WSLED.cpp:49-66 | two calls per fade step |
| Wsled.Begin | src/WSLED.cpp:7-14 | from any state: brightness 254, pixel cleared, LED dark |
| Wsled.LedOff | src/WSLED.cpp:16-20 | from any state the LED goes dark and the brightness stays |
| Wsled.MenuColor | src/WSLED.cpp:22-39 | page 0 is cyan (0,255,255), page 1 orange (255,165,0) and page 2 magenta (255,0,255); the colour is white iff the index is above 2 |
| Wsled.ShowMenuColor | src/WSLED.cpp:22-41 | from any state, the LED shows the page's colour exactly once |
| Wsled.MenuColorMatchesLabel | src/WSLED.cpp:22-39 | the LED is white exactly on the page labelled "Exit Menu", and the three named pages have distinct colours |
| Wsled.FadeStepsShow | src/WSLED.cpp:49-66 | the fade shows its pure reds in order and ends lit with the last of them |
| Wsled.RedBlink | src/WSLED.cpp:43-71 | two calls per fade step, then the final switch-off |
| Wsled.RedBlinkEndsOff | src/WSLED.cpp:43-71 | for a fade loop that exits: the LED ends dark with the same brightness, having shown only the fade's reds and then off |
| Wsled.FadeEnd | src/WSLED.cpp:46 | as written: `endTime` is start + 200 without a wrap, and below 200 once it wraps |
| Wsled.FadeLoopEntered | src/WSLED.cpp:45-49 | as written: the first loop test passes iff start < 2^32 - 200, since `start + 200` wraps |
| Wsled.FadeSkippedBeforeWrap | src/WSLED.cpp:45-49 | as written: at millis() = 0xFFFFFFFF the fade is skipped; at 0 it runs |
| Wsled.FadeNeverEndsBeforeWrap | src/WSLED.cpp:45-49 | as written: at start 0xFFFFFF37, `endTime` is 0xFFFFFFFF and every clock reading passes the loop test; this is the only start time with that effect |
| Wsled.WithinFade | src/WSLED.cpp:49 | corrected: the elapsed time, computed modulo 2^32, is compared with 200 ms, with and without a wrap |
| Wsled.WithinFadeAlwaysEntered | src/WSLED.cpp:45-49 | corrected: the loop is entered from every start time, agrees with the original test whenever the end time does not wrap, and is ended by the reading 201 ms after the start, from every start time |
| Scenarios.ClockAtFivePastTwo | src/Display.cpp:67-80 | 14:05 on 3 June with 120 steps prints "14:05", "03.06.", "  Steps: " and "120"; the badge appears only on low battery |
| Scenarios.ConnectNeverConnects | src/Network.cpp:31-42 | with a five-second timeout and no connection, connect fails after five delays |
| Scenarios.EmptyScan | src/Display.cpp:351-356 | an empty scan shows "No networks found" on row 0 |
| Scenarios.CountdownNumbers | src/Display.cpp:181-182 | the countdown prints "3" for 3 and "-1" for -1 |

## Left out

- `Display::project` (src/Display.cpp:305-326) rotates and projects in single-precision floating point with sine and cosine. It is a function parameter, and no contract depends on its results.
- Cube.SmoothAxis: computes over the reals. The source averages `float`s, so rounding is not modelled.
- Wsled.RedBlink: the red values of the fade are an input. They come from float arithmetic on `millis()` readings, and their number depends on timing.
- Wsled.RedBlink: only runs whose fade loop exits are modelled, since `reds` is finite. The run that starts at 0xFFFFFF37 never exits (`FadeNeverEndsBeforeWrap`), so `RedBlinkEndsOff` says nothing about it.
- Panel.Run: the text cursor, text size, text colour and wrap setting are recorded as calls in the buffer, and `Clear` drops them. In the SSD1306 driver they survive `clearDisplay()`, which clears only the pixels. So "the glass shows the calls since the clear" is a statement about the call list. In particular, `showLoadingMessage` sets no text size and prints at whatever size the previous screen left; the model records only that it sets none.
- Panel.Rows: only `SetCursor` changes the text row. A `'\n'` inside a printed string also starts a new row in the driver, and so does wrapping at the panel edge while wrap is on. Neither is modelled; an SSID containing a newline would shift the rows below it.
- Driver internals are not modelled: the SSD1306 driver, `WiFi.begin`, `configTime`, `setenv`/`tzset`, and the WS2812 driver's `begin`.
- Serial debug output (`DEBUG_PRINT`) is not modelled.
- The delays in the renderers are not counted: `delay(30)` in the animation and `delay(75)` in the scanner. Delays are counted only in `Network`.
- The endless `while (true)` button wait at the end of `wifiScanner` is not part of the trace.
- The button itself is an input: the `pressed` flag of each animation sample.
- Bitmap contents (src/images.h) are not modelled. Bitmaps are compared only by identity.
- Screens.Begin: `new` and the allocation address are a parameter (`newPanel`), and the driver's own `begin()` result is a parameter (`driverInit`).
- Wsled.Begin: `Wsled::begin` is declared `bool` but returns nothing, so its return value is undefined in C++. The model keeps only its LED calls.
- The mode state machine that calls these functions, and the menu timeout, are outside this core.
- Cube: the fact that every corner lies on exactly three edges is not stated. It follows from `EdgesComplete` and `EdgesDistinct`, but as a separate lemma it costs far more solver time than it is worth.
- Network.GetTimeAndSaveToRtc: `now` is a `time_t` compared with 86400 as a signed integer. Readings are `int`, and negative or pre-1970 values simply count as "not yet set".

## Findings

| source | as written | input that shows it | evidently intended | confidence | as-written member | corrected member |
|---|---|---|---|---|---|---|
| src/Display.cpp:357-386 | "Networks found:" is printed into the buffer but only flushed by the `display()` after a printed name. A failed scan returns a negative count, which takes the "found" branch and lists nothing. A scan whose first five SSIDs are all empty also prints no name. In both cases the glass keeps "Scanning..." while the code waits for the button. | `WiFi.scanNetworks()` returns -1 | a `display()` after the loop, so the outcome line is always shown | medium, not executed | Scanner.HeaderNeverShown | Scanner.FlushedScannerShowsHeader |
| src/WSLED.cpp:45-49 | `endTime = startTime + 200` is computed in 32-bit `unsigned long` and wraps. For a start in 0xFFFFFF38..0xFFFFFFFF the first test `currentTime <= endTime` fails, so the blink shows no fade and only switches the LED off. For the start 0xFFFFFF37, `endTime` is 0xFFFFFFFF, every reading passes the test, and the loop never exits (`Wsled.FadeNeverEndsBeforeWrap`). | `millis()` = 0xFFFFFFFF at the call (no fade); `millis()` = 0xFFFFFF37 (the loop never exits) | compare elapsed time, `currentTime - startTime <= 200`, which is wrap-safe: entered from every start, and ended 201 ms later | medium, not executed | Wsled.FadeLoopEntered | Wsled.WithinFadeAlwaysEntered |
