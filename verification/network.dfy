/** The `Network` class (src/Network.cpp): joining a WiFi network and setting the
    real-time clock over NTP, both with a timeout counted in delay calls. The
    WiFi driver and the C library's clock are observed through the sequence of
    values their calls return: `status(n)` is what the n-th call of
    `WiFi.status()` in one run returns, `time(n)` what the n-th `time()` returns. */
module Network {
  import opened CTypes

  /** The values of the ESP32 WiFi driver's `wl_status_t`. */
  datatype WiFiStatus =
    | IdleStatus | NoSsidAvail | ScanCompleted | Connected | ConnectFailed
    | ConnectionLost | Disconnected | NoShield

  predicate IsConnected(s: WiFiStatus) {
    s == Connected
  }

  /** What one run returns, the number of `delay` calls it made, and how many
      readings of the driver or the clock it took. */
  datatype Outcome = Outcome(ok: bool, delays: nat, readings: nat)

  /** The milliseconds each delay of `connect` and of `getTimeAndSaveToRTC` waits. */
  const ConnectDelayMs: nat := 1000
  const RtcDelayMs: nat := 200

  /** The loop of `connect` can check the status this many times before giving up:
      a zero timeout still allows one check. */
  function Tries(timeout: uint16): (n: nat)
    ensures 1 <= n <= 0xFFFF
    ensures timeout > 0 ==> n == timeout
  {
    if timeout == 0 then 1 else timeout
  }

  /** `connect`'s loop from its `j`-th status check on; `j` delays have been made and
      the 16-bit counter holds `j`. */
  function ConnectLoop(status: nat -> WiFiStatus, timeout: uint16, j: nat): (r: Outcome)
    requires j < Tries(timeout)
    ensures j <= r.delays <= Tries(timeout)
    ensures r.ok ==> r.delays < Tries(timeout)
    ensures r.delays < Tries(timeout) ==>
      && IsConnected(status(r.delays))
      && r.ok == IsConnected(status(r.delays + 1))
      && r.readings == r.delays + 2
    ensures r.delays == Tries(timeout) ==> !r.ok && r.readings == r.delays
    ensures forall k :: j <= k < r.delays ==> !IsConnected(status(k))
    decreases Tries(timeout) - j
  {
    if IsConnected(status(j)) then
      Outcome(IsConnected(status(j + 1)), j, j + 2)
    else
      var counter: uint16 := j + 1;
      if counter >= timeout then Outcome(false, j + 1, j + 1)
      else ConnectLoop(status, timeout, j + 1)
  }

  /** `Network::connect`: wait for the driver to report a connection, one second
      at a time, then check once more. */
  function Connect(status: nat -> WiFiStatus, timeout: uint16): (r: Outcome)
    ensures r.delays <= Tries(timeout)
    ensures forall k :: 0 <= k < r.delays ==> !IsConnected(status(k))
    ensures r.delays < Tries(timeout) ==>
      IsConnected(status(r.delays)) && r.ok == IsConnected(status(r.delays + 1)) && r.readings == r.delays + 2
    ensures r.delays == Tries(timeout) ==> !r.ok && r.readings == r.delays
  {
    ConnectLoop(status, timeout, 0)
  }

  /** The first of the first `n` status readings that reports a connection. */
  predicate FirstConnectedAt(status: nat -> WiFiStatus, k: nat) {
    IsConnected(status(k)) && forall j :: 0 <= j < k ==> !IsConnected(status(j))
  }

  /** `connect` succeeds exactly when one of the checks its timeout allows reports a
      connection and the confirming check right after the first of them does too. */
  lemma ConnectSucceedsIff(status: nat -> WiFiStatus, timeout: uint16)
    ensures Connect(status, timeout).ok <==>
      exists k :: 0 <= k < Tries(timeout) && FirstConnectedAt(status, k) && IsConnected(status(k + 1))
  {
    var r := Connect(status, timeout);
    if r.ok {
      assert FirstConnectedAt(status, r.delays);
    }
    if exists k :: 0 <= k < Tries(timeout) && FirstConnectedAt(status, k) && IsConnected(status(k + 1)) {
      var k :| 0 <= k < Tries(timeout) && FirstConnectedAt(status, k) && IsConnected(status(k + 1));
      NoEarlierConnection(status, k, r.delays);
    }
  }

  /** Readings known to be unconnected cannot reach past the first connected one. */
  lemma NoEarlierConnection(status: nat -> WiFiStatus, k: nat, d: nat)
    requires FirstConnectedAt(status, k)
    requires forall j :: 0 <= j < d ==> !IsConnected(status(j))
    ensures d <= k
  {
  }

  /** `connect` gives up having waited one second per allowed check, when none of
      them reported a connection. */
  lemma ConnectTimesOut(status: nat -> WiFiStatus, timeout: uint16)
    requires forall k :: 0 <= k < Tries(timeout) ==> !IsConnected(status(k))
    ensures Connect(status, timeout) == Outcome(false, Tries(timeout), Tries(timeout))
  {
  }

  /** A zero timeout: one check, then either the confirming check or one delay. */
  lemma ConnectZeroTimeout(status: nat -> WiFiStatus)
    ensures IsConnected(status(0)) ==> Connect(status, 0) == Outcome(IsConnected(status(1)), 0, 2)
    ensures !IsConnected(status(0)) ==> Connect(status, 0) == Outcome(false, 1, 1)
  {
  }

  /** The wait never exceeds the timeout in seconds, except that a zero timeout can
      still wait one second. */
  lemma ConnectWaitBound(status: nat -> WiFiStatus, timeout: uint16)
    ensures Connect(status, timeout).delays * ConnectDelayMs <= if timeout == 0 then 1000 else timeout * 1000
  {
  }

  /** `Network::isConnected`: one reading of the driver's status. */
  function IsConnectedNow(status: nat -> WiFiStatus): (r: bool)
    ensures r <==> status(0) == Connected
  {
    IsConnected(status(0))
  }

  /** The clock holds a real time once it reads at least one day past the epoch. */
  const ValidTime: int := 24 * 3600

  /** How many 200 ms polls `getTimeAndSaveToRTC` makes before giving up: the check
      `counter / 5 >= timeout` first holds at counter 5 * timeout, or at once when
      the timeout is zero. */
  function Polls(timeout: uint16): (n: nat)
    ensures 1 <= n <= 5 * 0xFFFF
    ensures forall c: nat {:trigger c / 5} :: c >= 1 ==> (c / 5 >= timeout <==> c >= n)
  {
    if timeout == 0 then 1 else 5 * timeout
  }

  /** The loop of `getTimeAndSaveToRTC` after `c` polls: the clock has been read
      `c + 1` times and the 32-bit counter holds `c`. */
  function RtcLoop(time: nat -> int, timeout: uint16, c: nat): (r: Outcome)
    requires c < Polls(timeout)
    ensures c <= r.delays <= Polls(timeout)
    ensures r.ok ==> r.delays < Polls(timeout) && time(r.delays) >= ValidTime
    ensures !r.ok ==> r.delays == Polls(timeout)
    ensures r.readings == r.delays + 1
    ensures forall k :: c <= k < r.delays ==> time(k) < ValidTime
    decreases Polls(timeout) - c
  {
    if time(c) >= ValidTime then Outcome(true, c, c + 1)
    else
      var counter: uint32 := c + 1;
      if counter / 5 >= timeout then Outcome(false, c + 1, c + 2)
      else RtcLoop(time, timeout, c + 1)
  }

  /** `Network::getTimeAndSaveToRTC`: read the clock every 200 ms until it holds a
      real time. The NTP and time-zone configuration calls are not modelled. */
  function GetTimeAndSaveToRtc(time: nat -> int, timeout: uint16): (r: Outcome)
    ensures r.delays <= Polls(timeout)
    ensures r.ok ==> r.delays < Polls(timeout) && time(r.delays) >= ValidTime
    ensures !r.ok ==> r.delays == Polls(timeout)
    ensures forall k :: 0 <= k < r.delays ==> time(k) < ValidTime
    ensures r.readings == r.delays + 1
  {
    RtcLoop(time, timeout, 0)
  }

  /** It succeeds exactly when one of the readings before the last poll holds a real
      time, and then it stops at the first such reading. */
  lemma RtcSucceedsIff(time: nat -> int, timeout: uint16)
    ensures GetTimeAndSaveToRtc(time, timeout).ok <==> exists k :: 0 <= k < Polls(timeout) && time(k) >= ValidTime
  {
    var r := GetTimeAndSaveToRtc(time, timeout);
    if !r.ok {
      assert forall k :: 0 <= k < Polls(timeout) ==> time(k) < ValidTime;
    }
  }

  /** The reading taken at the poll that reaches the timeout is never looked at: even
      when it holds a real time, the call reports failure. */
  lemma RtcIgnoresTimeoutReading(time: nat -> int, timeout: uint16)
    requires forall k :: 0 <= k < Polls(timeout) ==> time(k) < ValidTime
    requires time(Polls(timeout)) >= ValidTime
    ensures GetTimeAndSaveToRtc(time, timeout) == Outcome(false, Polls(timeout), Polls(timeout) + 1)
  {
    RtcSucceedsIff(time, timeout);
  }

  /** The wait never exceeds the timeout in seconds, except that a zero timeout still
      waits one 200 ms poll. */
  lemma RtcWaitBound(time: nat -> int, timeout: uint16)
    ensures GetTimeAndSaveToRtc(time, timeout).delays * RtcDelayMs <= if timeout == 0 then 200 else timeout * 1000
  {
  }
}
