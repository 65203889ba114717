/** What every end of the device flow means, in terms of what came back and when: no outcome of DevicePlan is mentioned. */
module DeviceVerdicts {
  import opened Prelude
  import opened Text
  import opened DevicePlan
  import opened DeviceFlow

  /** The error code of a reply, blanks around it aside. */
  function CodeOf(r: Reply): Option<string> {
    if r.HttpError? then Some(TrimSpace(r.code)) else None
  }

  /** The reply leaves the code open. */
  predicate StillOpen(r: Reply) {
    r.TransportFailure? || CodeOf(r) in [Some("authorization_pending"), Some("slow_down")]
  }

  /** The time at which wait number k is over. */
  function Awake(now: int, turns: seq<Turn>, waits: seq<int>, k: nat): int
    requires k < |turns| && k < |waits|
    decreases k
  {
    var later := now + (if waits[0] > 0 then waits[0] else 0) + turns[0].lag;
    if k == 0 then later else Awake(later, turns[1..], waits[1..], k - 1)
  }

  /** The loop ended in the wait after its last request, cut off by the user or by the deadline. */
  predicate EndedWaiting(t: Trace) {
    |t.waits| == t.requests + 1
  }

  /** What a verdict says of the turns before it. */
  ghost predicate Means(t: Trace, turns: seq<Turn>, now: int, deadline: int)
    requires t.requests <= |t.waits| <= |turns| && |t.waits| <= t.requests + 1
  {
    var n := t.requests;
    var last := if n > 0 then Some(turns[n - 1].reply) else None;
    var code := if n > 0 then CodeOf(turns[n - 1].reply) else None;
    && (t.verdict == Cancelled <==> EndedWaiting(t) && turns[n].cancelled)
    && (t.verdict == Expired <==>
          || (EndedWaiting(t) && !turns[n].cancelled && Awake(now, turns, t.waits, n) > deadline)
          || code in [Some("expired_token"), Some("invalid_grant")])
    && (t.verdict == Denied <==> code == Some("access_denied"))
    && (forall c :: t.verdict == Refused(c) <==>
          last == Some(HttpError(c)) && code !in [
            Some("authorization_pending"), Some("slow_down"), Some("expired_token"), Some("invalid_grant"), Some("access_denied")])
    && (forall b :: t.verdict == Bound(b) <==> last == Some(Approved(b)) && Invalid(b).None?)
    && (forall f :: t.verdict == Unusable(f) <==> exists b :: last == Some(Approved(b)) && Invalid(b) == Some(f))
    && (t.verdict in [StillPolling, LostContact] ==> !EndedWaiting(t) && (n > 0 ==> StillOpen(turns[n - 1].reply)))
  }

  /** The request of every turn before the last was made in time, and left the code open. */
  ghost predicate OpenUntil(t: Trace, turns: seq<Turn>, now: int, deadline: int)
    requires t.requests <= |t.waits| <= |turns|
  {
    && (forall k :: 0 <= k < t.requests ==> !turns[k].cancelled && Awake(now, turns, t.waits, k) <= deadline)
    && (forall k :: 0 <= k < t.requests - 1 ==> StillOpen(turns[k].reply))
  }

  lemma GoesOnMeans(t: Turn, interval: int, failures: nat, now: int, deadline: int)
    ensures GoesOn(t, interval, failures, now, deadline).Some? ==>
      !t.cancelled && now + Slept(interval) + t.lag <= deadline && StillOpen(t.reply)
  {
    hide NextInterval, TrimSpace;
  }

  /** A loop that stops before or at its first request. */
  lemma StopMeans(turns: seq<Turn>, interval: int, failures: nat, now: int, deadline: int)
    requires turns != [] && GoesOn(turns[0], interval, failures, now, deadline).None?
    ensures var t := Poll(turns, interval, failures, now, deadline);
      && t.requests <= |t.waits| == 1
      && Means(t, turns, now, deadline) && OpenUntil(t, turns, now, deadline)
  {
    hide NextInterval, TrimSpace, Invalid, Means, OpenUntil;
    var asked := !turns[0].cancelled && now + Slept(interval) + turns[0].lag <= deadline;
    if asked && turns[0].reply.HttpError? {
      StopAnswered(turns, interval, failures, now, deadline);
    } else {
      StopOtherwise(turns, interval, failures, now, deadline);
    }
  }

  lemma StopOtherwise(turns: seq<Turn>, interval: int, failures: nat, now: int, deadline: int)
    requires turns != [] && GoesOn(turns[0], interval, failures, now, deadline).None?
    requires turns[0].cancelled || now + Slept(interval) + turns[0].lag > deadline || !turns[0].reply.HttpError?
    ensures var t := Poll(turns, interval, failures, now, deadline);
      && t.requests <= |t.waits| == 1
      && Means(t, turns, now, deadline) && OpenUntil(t, turns, now, deadline)
  {
    hide NextInterval, TrimSpace, Invalid;
    FirstAwake(now, turns, Poll(turns, interval, failures, now, deadline).waits);
    hide Awake, Classify;
  }

  lemma StopAnswered(turns: seq<Turn>, interval: int, failures: nat, now: int, deadline: int)
    requires turns != [] && GoesOn(turns[0], interval, failures, now, deadline).None?
    requires !turns[0].cancelled && now + Slept(interval) + turns[0].lag <= deadline && turns[0].reply.HttpError?
    ensures var t := Poll(turns, interval, failures, now, deadline);
      && t.requests <= |t.waits| == 1
      && Means(t, turns, now, deadline) && OpenUntil(t, turns, now, deadline)
  {
    hide NextInterval, TrimSpace, Invalid;
    FirstAwake(now, turns, Poll(turns, interval, failures, now, deadline).waits);
    StopCode(turns, interval, failures, now, deadline);
    hide Awake, Classify;
  }

  lemma FirstAwake(now: int, turns: seq<Turn>, waits: seq<int>)
    requires turns != [] && waits != []
    ensures Awake(now, turns, waits, 0) == now + Slept(waits[0]) + turns[0].lag
  {
  }

  lemma StopCode(turns: seq<Turn>, interval: int, failures: nat, now: int, deadline: int)
    requires turns != [] && GoesOn(turns[0], interval, failures, now, deadline).None?
    requires !turns[0].cancelled && now + Slept(interval) + turns[0].lag <= deadline && turns[0].reply.HttpError?
    ensures var v, code := Poll(turns, interval, failures, now, deadline).verdict, TrimSpace(turns[0].reply.code);
      && (v == Expired <==> code in ["expired_token", "invalid_grant"])
      && (v == Denied <==> code == "access_denied")
      && (v == Refused(turns[0].reply.code) <==>
            code !in ["authorization_pending", "slow_down", "expired_token", "invalid_grant", "access_denied"])
      && (v.Expired? || v.Denied? || v == Refused(turns[0].reply.code))
  {
    hide NextInterval, TrimSpace;
  }

  /** A turn that goes on shifts the waits by one. */
  lemma ThenAwake(r: Trace, turns: seq<Turn>, interval: int, now: int)
    requires turns != [] && |r.waits| <= |turns| - 1
    ensures var t, later := Then(interval, r), now + Slept(interval) + turns[0].lag;
      && Awake(now, turns, t.waits, 0) == later
      && forall k :: 0 < k < |t.waits| ==> Awake(now, turns, t.waits, k) == Awake(later, turns[1..], r.waits, k - 1)
  {
    var t := Then(interval, r);
    assert t.waits[1..] == r.waits;
    FirstAwake(now, turns, t.waits);
  }

  lemma ThenMeans(r: Trace, turns: seq<Turn>, interval: int, now: int, deadline: int)
    requires turns != [] && StillOpen(turns[0].reply)
    requires r.requests <= |r.waits| <= |turns| - 1 && |r.waits| <= r.requests + 1
    requires Means(r, turns[1..], now + Slept(interval) + turns[0].lag, deadline)
    ensures Means(Then(interval, r), turns, now, deadline)
  {
    hide Invalid, TrimSpace, Awake;
    ThenAwake(r, turns, interval, now);
    var t := Then(interval, r);
    if r.requests > 0 {
      assert turns[t.requests - 1] == turns[1..][r.requests - 1];
    }
  }

  lemma ThenOpen(r: Trace, turns: seq<Turn>, interval: int, now: int, deadline: int)
    requires turns != [] && !turns[0].cancelled && now + Slept(interval) + turns[0].lag <= deadline && StillOpen(turns[0].reply)
    requires r.requests <= |r.waits| <= |turns| - 1
    requires OpenUntil(r, turns[1..], now + Slept(interval) + turns[0].lag, deadline)
    ensures OpenUntil(Then(interval, r), turns, now, deadline)
  {
    hide StillOpen, Awake, Slept;
    ThenAwake(r, turns, interval, now);
    var t := Then(interval, r);
    forall k | 0 < k < t.requests
      ensures turns[k] == turns[1..][k - 1]
    {
    }
  }

  lemma NothingMeans(now: int, deadline: int)
    ensures Means(Trace(StillPolling, [], 0), [], now, deadline) && OpenUntil(Trace(StillPolling, [], 0), [], now, deadline)
  {
  }

  /**
   Cancelled in a wait; expired because a wait went past the deadline or the last request
   was answered with expired_token or invalid_grant; denied when it was answered with
   access_denied; refused for any other code but the two that leave it open; bound or
   unusable by the binding it was approved with. Every earlier request was made in time.
   */
  lemma {:induction false} VerdictMeans(turns: seq<Turn>, interval: int, failures: nat, now: int, deadline: int)
    ensures var t := Poll(turns, interval, failures, now, deadline);
      && t.requests <= |t.waits| <= |turns| && |t.waits| <= t.requests + 1
      && Means(t, turns, now, deadline) && OpenUntil(t, turns, now, deadline)
    decreases |turns|
  {
    hide Poll, GoesOn, NextInterval, StillOpen, Means, OpenUntil;
    if turns == [] {
      PollNothing(interval, failures, now, deadline);
      NothingMeans(now, deadline);
    } else {
      PollStep(turns, interval, failures, now, deadline);
      var next := GoesOn(turns[0], interval, failures, now, deadline);
      if next.Some? {
        var later := now + Slept(interval) + turns[0].lag;
        GoesOnMeans(turns[0], interval, failures, now, deadline);
        VerdictMeans(turns[1..], next.value.0, next.value.1, later, deadline);
        var rest := Poll(turns[1..], next.value.0, next.value.1, later, deadline);
        ThenMeans(rest, turns, interval, now, deadline);
        ThenOpen(rest, turns, interval, now, deadline);
      } else {
        StopMeans(turns, interval, failures, now, deadline);
      }
    }
  }

  /** Something other than white space. */
  predicate Filled(s: string) {
    exists c <- s :: !IsSpace(c)
  }

  /** The first of a binding's parts that is missing is what is reported; with none missing it is valid. */
  lemma BindingNeeds(b: Binding)
    ensures var reached := b.origin.Some? && b.origin.value.0 != "" && b.origin.value.1 != "";
      && (Invalid(b) == None <==> Filled(b.machineID) && Filled(b.accountID) && Filled(b.publicURL) && reached)
      && (Invalid(b) == Some("machineId") <==> !Filled(b.machineID))
      && (Invalid(b) == Some("accountId") <==> Filled(b.machineID) && !Filled(b.accountID))
      && (Invalid(b) == Some("publicUrl") <==> Filled(b.machineID) && Filled(b.accountID) && !Filled(b.publicURL))
      && (Invalid(b) == Some("origin") <==> Filled(b.machineID) && Filled(b.accountID) && Filled(b.publicURL) && !reached)
  {
    hide IsSpace;
  }

  // The flow.

  /** How long a code lives, in nanoseconds: as the server says, or fifteen minutes. */
  lemma Lifetime(seconds: int)
    ensures seconds <= 0 ==> Expiry(seconds) == 900_000_000_000
    ensures 0 < seconds <= 9_223_372_036 ==> Expiry(seconds) == seconds * 1_000_000_000
  {
  }

  /** The last reply of a code that was polled, its blanks aside. */
  function LastCode(c: Code, requests: nat): Option<string> {
    if 0 < requests <= |c.turns| then CodeOf(c.turns[requests - 1].reply) else None
  }

  /** Another code is asked for only when the last one ran out of time or the server said it is spent, and never after a refusal. */
  lemma FurtherCodeAfterExpiry(codes: seq<Code>, k: nat)
    requires k + 1 < Flow(codes, 0).codes
    ensures k < 2 && k < |codes| && codes[k].given && codes[k].again
    ensures var c := codes[k]; var t := PollCode(c);
      && t.requests <= |t.waits| <= |c.turns|
      && LastCode(c, t.requests) != Some("access_denied")
      && (|| LastCode(c, t.requests) in [Some("expired_token"), Some("invalid_grant")]
          || (EndedWaiting(t) && Awake(0, c.turns, t.waits, t.requests) > Expiry(c.expiresIn)))
  {
    hide Flow, Poll, StartInterval, Expiry, Awake, TrimSpace, Invalid;
    FlowRestarts(codes, 0);
    var c := codes[k];
    VerdictMeans(c.turns, StartInterval(c.intervalSeconds), 0, 0, Expiry(c.expiresIn));
    assert AsksAgain(c, 0 + k);
  }

  /** A refusal in the browser ends the whole run, as denied. */
  lemma DenialEnds(codes: seq<Code>, k: nat)
    requires k < Flow(codes, 0).codes && k < |codes|
    requires codes[k].given && LastCode(codes[k], PollCode(codes[k]).requests) == Some("access_denied")
    ensures k == Flow(codes, 0).codes - 1 && Flow(codes, 0).end == Ended(Denied)
  {
    hide Flow, Poll, StartInterval, Expiry, Awake, TrimSpace, Invalid;
    var c := codes[k];
    VerdictMeans(c.turns, StartInterval(c.intervalSeconds), 0, 0, Expiry(c.expiresIn));
    LastCodeEnds(codes, 0);
    if k + 1 < Flow(codes, 0).codes {
      FurtherCodeAfterExpiry(codes, k);
    }
  }

  /** A run whose last code was given ends as that code ends. */
  lemma {:induction false} LastCodeEnds(codes: seq<Code>, restart: nat)
    requires restart <= MAX_FLOW_RESTARTS
    ensures var f := Flow(codes, restart);
      && f.codes <= |codes|
      && (f.codes > 0 && codes[f.codes - 1].given && PollCode(codes[f.codes - 1]).verdict != Expired
          ==> f.end == Ended(PollCode(codes[f.codes - 1]).verdict))
    decreases |codes|
  {
    hide PollCode;
    if codes != [] && codes[0].given && AsksAgain(codes[0], restart) {
      LastCodeEnds(codes[1..], restart + 1);
    }
  }
}
