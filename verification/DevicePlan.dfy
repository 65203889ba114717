/** The decisions of the device flow: what an answer means, how long to wait, what a binding must hold. */
module DevicePlan {
  import opened Prelude
  import opened Text

  // A time.Duration: nanoseconds in a signed 64-bit integer.

  const SECOND: int := 1_000_000_000

  function Wrap64(n: int): (r: int)
    ensures -MAX_INT64 - 1 <= r <= MAX_INT64
    ensures -MAX_INT64 - 1 <= n <= MAX_INT64 ==> r == n
  {
    var m := n % 0x1_0000_0000_0000_0000;
    if m > MAX_INT64 then m - 0x1_0000_0000_0000_0000 else m
  }

  const DEFAULT_INTERVAL: int := 5 * SECOND
  const SLOW_DOWN_INCREMENT: int := 5 * SECOND
  const MAX_INTERVAL: int := 60 * SECOND
  const FALLBACK_EXPIRY: int := 15 * 60 * SECOND
  const MAX_TRANSPORT_FAILURES := 5
  const MAX_FLOW_RESTARTS := 2

  datatype PollOutcome = PollWait | PollSlowDown | PollExpired | PollDenied | PollFatal

  function Classify(code: string): PollOutcome {
    var c := TrimSpace(code);
    if c == "authorization_pending" then PollWait
    else if c == "slow_down" then PollSlowDown
    else if c == "expired_token" || c == "invalid_grant" then PollExpired
    else if c == "access_denied" then PollDenied
    else PollFatal
  }

  function NextInterval(current: int, outcome: PollOutcome): int {
    if outcome != PollSlowDown then current
    else
      var next := Wrap64(current + SLOW_DOWN_INCREMENT);
      if next < MAX_INTERVAL then next else MAX_INTERVAL
  }

  function StartInterval(seconds: int): (r: int)
    ensures r <= MAX_INT64
  {
    if seconds <= 0 then DEFAULT_INTERVAL else Wrap64(seconds * SECOND)
  }

  function Expiry(seconds: int): int {
    if seconds <= 0 then FALLBACK_EXPIRY else Wrap64(seconds * SECOND)
  }

  /** machine.json's triple; `origin` is what url.Parse makes of the public URL: its scheme and host name. */
  datatype Binding = Binding(machineID: string, accountID: string, publicURL: string, origin: Option<(string, string)>)

  /** What is wrong with a binding, if anything. */
  function Invalid(b: Binding): Option<string> {
    if IsBlank(b.machineID) then Some("machineId")
    else if IsBlank(b.accountID) then Some("accountId")
    else if IsBlank(b.publicURL) then Some("publicUrl")
    else if b.origin.None? || b.origin.value.0 == "" || b.origin.value.1 == "" then Some("origin")
    else None
  }

  /** An interval the server can set without a wait wrapping round to nothing. */
  predicate Sane(interval: int) {
    0 < interval <= MAX_INT64 - SLOW_DOWN_INCREMENT
  }

  /** The wait after `n` slow_down answers. */
  function BackedOff(interval: int, n: nat): int
    decreases n
  {
    if n == 0 then interval else NextInterval(BackedOff(interval, n - 1), PollSlowDown)
  }

  /** Section 3.5 of RFC 8628, capped: five seconds more for each slow_down, never over a minute. */
  lemma {:induction false} BackOffIsCapped(interval: int, n: nat)
    requires Sane(interval)
    ensures BackedOff(interval, n) ==
      if n == 0 then interval
      else if interval + n * 5_000_000_000 < 60_000_000_000 then interval + n * 5_000_000_000
      else 60_000_000_000
    decreases n
  {
    if n > 0 {
      BackOffIsCapped(interval, n - 1);
      assert (n - 1) * 5_000_000_000 + 5_000_000_000 == n * 5_000_000_000;
    }
  }

  /** A slow_down never shortens the wait if and only if the server starts at a minute or less. */
  lemma BackOffNeverShrinks(interval: int)
    requires Sane(interval)
    ensures (forall n: nat :: BackedOff(interval, n) <= BackedOff(interval, n + 1)) <==> interval <= 60_000_000_000
  {
    forall n: nat
      ensures interval <= MAX_INTERVAL ==> BackedOff(interval, n) <= BackedOff(interval, n + 1)
    {
      BackOffIsCapped(interval, n);
      BackOffIsCapped(interval, n + 1);
    }
    if interval > MAX_INTERVAL {
      BackOffIsCapped(interval, 1);
      assert BackedOff(interval, 0) > BackedOff(interval, 0 + 1);
    }
  }

  /** Which server answers make a sane interval: all but the ones close to the end of int64. */
  lemma SaneSeconds(seconds: int)
    requires seconds <= 9_223_372_031
    ensures Sane(StartInterval(seconds))
    ensures StartInterval(seconds) == if seconds <= 0 then 5_000_000_000 else seconds * 1_000_000_000
  {
  }

  /** Ten billion seconds wrap round to a negative wait. */
  lemma HugeIntervalWraps()
    ensures StartInterval(10_000_000_000) < 0
  {
    assert 10_000_000_000 * SECOND == 10_000_000_000_000_000_000;
  }
}
