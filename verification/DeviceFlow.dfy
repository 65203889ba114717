/**
 Polling for a binding (RFC 8628): the loop against a clock, what it amounts to as a
 function of everything the outside world does, and the bounds on it.
 */
module DeviceFlow {
  import opened Prelude
  import opened Text
  import opened DevicePlan

  datatype Reply = Approved(binding: Binding) | HttpError(code: string) | TransportFailure

  /** One turn of the loop: how long it took beyond the wait itself, and what came back. */
  datatype Turn = Turn(lag: nat, cancelled: bool, reply: Reply)

  datatype Verdict =
    | Bound(binding: Binding) | Unusable(field: string) | Cancelled | Expired | Denied | Refused(code: string)
    | LostContact | StillPolling

  /** What a flow did: how it ended, the waits it made and the requests it sent. */
  datatype Trace = Trace(verdict: Verdict, waits: seq<int>, requests: nat)

  function Slept(interval: int): nat {
    if interval > 0 then interval else 0
  }

  function Then(interval: int, rest: Trace): Trace {
    Trace(rest.verdict, [interval] + rest.waits, rest.requests + 1)
  }

  /** The polling loop on a given course of events; StillPolling when the events run out first. */
  function Poll(turns: seq<Turn>, interval: int, failures: nat, now: int, deadline: int): Trace
    decreases |turns|
  {
    if turns == [] then Trace(StillPolling, [], 0)
    else
      var t := turns[0];
      var later := now + Slept(interval) + t.lag;
      if t.cancelled then Trace(Cancelled, [interval], 0)
      else if later > deadline then Trace(Expired, [interval], 0)
      else
        match t.reply
        case Approved(b) => Trace(if Invalid(b).Some? then Unusable(Invalid(b).value) else Bound(b), [interval], 1)
        case TransportFailure =>
          if failures + 1 >= MAX_TRANSPORT_FAILURES then Trace(LostContact, [interval], 1)
          else Then(interval, Poll(turns[1..], interval, failures + 1, later, deadline))
        case HttpError(code) =>
          match Classify(code)
          case PollWait => Then(interval, Poll(turns[1..], interval, 0, later, deadline))
          case PollSlowDown => Then(interval, Poll(turns[1..], NextInterval(interval, PollSlowDown), 0, later, deadline))
          case PollExpired => Trace(Expired, [interval], 1)
          case PollDenied => Trace(Denied, [interval], 1)
          case PollFatal => Trace(Refused(code), [interval], 1)
  }

  /** How the loop goes on after a turn, if it does: with which interval and failure count. */
  function GoesOn(t: Turn, interval: int, failures: nat, now: int, deadline: int): Option<(int, nat)> {
    if t.cancelled || now + Slept(interval) + t.lag > deadline then None
    else
      match t.reply
      case Approved(_) => None
      case TransportFailure => if failures + 1 >= MAX_TRANSPORT_FAILURES then None else Some((interval, failures + 1))
      case HttpError(code) =>
        match Classify(code)
        case PollWait => Some((interval, 0))
        case PollSlowDown => Some((NextInterval(interval, PollSlowDown), 0))
        case _ => None
  }

  /** The loop, one turn unrolled: either it stops here after at most one more request, or it goes on. */
  lemma PollStep(turns: seq<Turn>, interval: int, failures: nat, now: int, deadline: int)
    requires turns != []
    ensures var t, next := Poll(turns, interval, failures, now, deadline), GoesOn(turns[0], interval, failures, now, deadline);
      if next.Some? then
        && now + Slept(interval) + turns[0].lag <= deadline
        && t == Then(interval, Poll(turns[1..], next.value.0, next.value.1, now + Slept(interval) + turns[0].lag, deadline))
      else
        && t.waits == [interval] && t.verdict != StillPolling
        && t.requests == (if turns[0].cancelled || now + Slept(interval) + turns[0].lag > deadline then 0 else 1)
  {
    hide Classify, Invalid, NextInterval;
  }

  /** pollForBinding, on the first turns of whatever happens. */
  method PollForBinding(turns: seq<Turn>, intervalSeconds: int, start: int, expiry: int)
      returns (verdict: Verdict, waits: seq<int>, requests: nat, now: int)
    ensures Trace(verdict, waits, requests) == Poll(turns, StartInterval(intervalSeconds), 0, start, start + expiry)
    ensures now >= start
  {
    hide Classify, Invalid, NextInterval;
    var interval, deadline, failures, i := StartInterval(intervalSeconds), start + expiry, 0, 0;
    waits, requests, now := [], 0, start;
    ghost var whole := Poll(turns, interval, 0, start, deadline);
    while i < |turns|
      invariant 0 <= i <= |turns| && now >= start
      invariant whole == Prefixed(waits, requests, Poll(turns[i..], interval, failures, now, deadline))
      decreases |turns| - i
    {
      var t := turns[i];
      assert turns[i..][0] == t && turns[i..][1..] == turns[i + 1..];
      ghost var made, sent := waits, requests;
      waits := waits + [interval];
      now := now + Slept(interval) + t.lag;
      if t.cancelled {
        return Cancelled, waits, requests, now;
      }
      if now > deadline {
        return Expired, waits, requests, now;
      }
      requests := requests + 1;
      if t.reply.Approved? {
        var invalid := Invalid(t.reply.binding);
        return if invalid.Some? then Unusable(invalid.value) else Bound(t.reply.binding), waits, requests, now;
      }
      if t.reply.TransportFailure? {
        failures := failures + 1;
        if failures >= MAX_TRANSPORT_FAILURES {
          return LostContact, waits, requests, now;
        }
        PrefixedThen(made, sent, interval, Poll(turns[i + 1..], interval, failures, now, deadline));
        i := i + 1;
        continue;
      }
      failures := 0;
      ghost var used := interval;
      match Classify(t.reply.code) {
        case PollWait =>
        case PollSlowDown => interval := NextInterval(interval, PollSlowDown);
        case PollExpired => return Expired, waits, requests, now;
        case PollDenied => return Denied, waits, requests, now;
        case PollFatal => return Refused(t.reply.code), waits, requests, now;
      }
      PrefixedThen(made, sent, used, Poll(turns[i + 1..], interval, failures, now, deadline));
      i := i + 1;
    }
    assert turns[i..] == [];
    return StillPolling, waits, requests, now;
  }

  function Prefixed(waits: seq<int>, requests: nat, rest: Trace): Trace {
    Trace(rest.verdict, waits + rest.waits, requests + rest.requests)
  }

  lemma PrefixedThen(waits: seq<int>, requests: nat, interval: int, rest: Trace)
    ensures Prefixed(waits, requests, Then(interval, rest)) == Prefixed(waits + [interval], requests + 1, rest)
  {
  }

  // How long it can go on.

  /** Each request costs at least `m` of the time left; events never run out while time is left. */
  lemma {:induction false} PollBounded(turns: seq<Turn>, interval: int, failures: nat, now: int, deadline: int, m: int)
    requires Sane(interval) && 0 < m <= interval && m <= MAX_INTERVAL
    ensures var t := Poll(turns, interval, failures, now, deadline);
      && (t.requests > 0 ==> t.requests * m <= deadline - now)
      && (t.verdict == StillPolling ==> t.requests == |turns|)
      && t.requests <= |t.waits| <= t.requests + 1
    decreases |turns|
  {
    hide Poll, GoesOn, Sane, NextInterval;
    if turns == [] {
      PollNothing(interval, failures, now, deadline);
    } else {
      PollStep(turns, interval, failures, now, deadline);
      var next := GoesOn(turns[0], interval, failures, now, deadline);
      if next.Some? {
        var later := now + Slept(interval) + turns[0].lag;
        NextIsSane(turns[0], interval, failures, now, deadline, m);
        PollBounded(turns[1..], next.value.0, next.value.1, later, deadline, m);
        OneMoreFits(Poll(turns[1..], next.value.0, next.value.1, later, deadline).requests, m, now, later, deadline);
      }
    }
  }

  lemma PollNothing(interval: int, failures: nat, now: int, deadline: int)
    ensures Poll([], interval, failures, now, deadline) == Trace(StillPolling, [], 0)
  {
  }

  lemma NextIsSane(t: Turn, interval: int, failures: nat, now: int, deadline: int, m: int)
    requires Sane(interval) && 0 < m <= interval && m <= MAX_INTERVAL
    ensures var next := GoesOn(t, interval, failures, now, deadline);
      next.Some? ==> Sane(next.value.0) && m <= next.value.0
  {
    hide Classify;
  }

  lemma OneMoreFits(r: nat, m: int, now: int, later: int, deadline: int)
    requires 0 < m && now + m <= later && (r > 0 ==> r * m <= deadline - later)
    ensures later <= deadline ==> (r + 1) * m <= deadline - now
  {
    assert (r + 1) * m == r * m + m;
  }

  /**
   For one code with lifetime E and start interval I: at most E / min(I, 60s) requests, and
   no course of events longer than that leaves the loop still polling.
   */
  lemma RequestsAreBounded(turns: seq<Turn>, seconds: int, start: int, expiry: int)
    requires Sane(StartInterval(seconds))
    ensures var t, i := Poll(turns, StartInterval(seconds), 0, start, start + expiry), StartInterval(seconds);
      var m := if i < 60_000_000_000 then i else 60_000_000_000;
      && (t.requests > 0 ==> t.requests <= expiry / m)
      && (expiry < 0 ==> t.requests == 0)
      && (|turns| > 0 && |turns| * m > expiry ==> t.verdict != StillPolling)
  {
    hide Poll, StartInterval;
    var i := StartInterval(seconds);
    var m := if i < 60_000_000_000 then i else 60_000_000_000;
    var t := Poll(turns, StartInterval(seconds), 0, start, start + expiry);
    PollBounded(turns, StartInterval(seconds), 0, start, start + expiry, m);
    if t.requests > 0 {
      Quotient(t.requests, m, expiry);
    }
  }

  lemma Quotient(r: nat, m: int, e: int)
    requires m > 0 && r > 0 && r * m <= e
    ensures r <= e / m
  {
    assert e < (e / m + 1) * m;
    if e / m + 1 <= r {
      Scaled(e / m + 1, r, m);
    }
  }

  lemma Scaled(a: int, b: int, m: int)
    requires a <= b && m > 0
    ensures a * m <= b * m
  {
  }

  /** An interval that wrapped round is never waited: the loop asks as often as it likes and the bound is gone. */
  lemma {:induction false} WrappedNeverStops(turns: seq<Turn>, interval: int, now: int, deadline: int)
    requires interval <= 0 && now <= deadline
    requires forall t <- turns :: t == Turn(0, false, HttpError("authorization_pending"))
    ensures Poll(turns, interval, 0, now, deadline).verdict == StillPolling
    ensures Poll(turns, interval, 0, now, deadline).requests == |turns|
    decreases |turns|
  {
    hide Poll, GoesOn;
    if turns == [] {
      PollNothing(interval, 0, now, deadline);
    } else {
      PollStep(turns, interval, 0, now, deadline);
      assert turns[0] in turns;
      PendingGoesOn(interval, now, deadline);
      assert forall t <- turns[1..] :: t in turns;
      WrappedNeverStops(turns[1..], interval, now, deadline);
    }
  }

  lemma PendingGoesOn(interval: int, now: int, deadline: int)
    requires interval <= 0 && now <= deadline
    ensures GoesOn(Turn(0, false, HttpError("authorization_pending")), interval, 0, now, deadline) == Some((interval, 0))
  {
    TrimPlain("authorization_pending");
  }

  /** Some number bounds the requests of one code, whatever happens. */
  ghost predicate RequestsBounded(interval: int, start: int, deadline: int) {
    exists n: nat :: AtMost(interval, start, deadline, n)
  }

  ghost predicate AtMost(interval: int, start: int, deadline: int, n: nat) {
    forall turns: seq<Turn> :: Poll(turns, interval, 0, start, deadline).requests <= n
  }

  /** The intervals and lifetimes for which there is a bound. */
  predicate Bounding(interval: int, lifetime: int) {
    lifetime < 0 || (0 < interval && (interval <= MAX_INT64 - SLOW_DOWN_INCREMENT || lifetime < interval))
  }

  /** The first wait already outlasts the code: no request is ever made. */
  lemma FirstWaitOutlasts(turns: seq<Turn>, interval: int, start: int, deadline: int)
    requires deadline < start + Slept(interval)
    ensures Poll(turns, interval, 0, start, deadline).requests == 0
  {
  }

  /** The server answers "still pending" as fast as it can, `n` times. */
  function Pending(n: nat): seq<Turn> {
    seq(n, i => Turn(0, false, HttpError("authorization_pending")))
  }

  /** One slow_down adds five seconds to an interval near the end of int64, and wraps it round. */
  lemma SlowDownWraps(interval: int, start: int, deadline: int)
    requires MAX_INT64 - SLOW_DOWN_INCREMENT < interval <= MAX_INT64 && start + interval <= deadline
    ensures NextInterval(interval, PollSlowDown) <= 0
    ensures GoesOn(Turn(0, false, HttpError("slow_down")), interval, 0, start, deadline)
      == Some((NextInterval(interval, PollSlowDown), 0))
  {
    TrimPlain("slow_down");
    assert Wrap64(interval + SLOW_DOWN_INCREMENT) == interval + SLOW_DOWN_INCREMENT - 0x1_0000_0000_0000_0000;
  }

  /** Where Bounding fails, any number of requests can be made. */
  lemma AnyNumberOfRequests(interval: int, start: int, deadline: int, n: nat) returns (turns: seq<Turn>)
    requires interval <= MAX_INT64 && !Bounding(interval, deadline - start)
    ensures Poll(turns, interval, 0, start, deadline).requests >= n
  {
    hide Poll, GoesOn, NextInterval;
    if interval <= 0 {
      turns := Pending(n);
      WrappedNeverStops(turns, interval, start, deadline);
    } else {
      var slow := Turn(0, false, HttpError("slow_down"));
      turns := [slow] + Pending(n);
      SlowDownWraps(interval, start, deadline);
      PollStep(turns, interval, 0, start, deadline);
      assert turns[1..] == Pending(n);
      WrappedNeverStops(Pending(n), NextInterval(interval, PollSlowDown), start + interval, deadline);
    }
  }

  /**
   There is a bound at all if and only if the code is dead on arrival, or the wait starts
   positive and either cannot wrap round by backing off or already outlasts the code.
   */
  lemma BoundedExactly(seconds: int, start: int, lifetime: int)
    ensures RequestsBounded(StartInterval(seconds), start, start + lifetime)
      <==> Bounding(StartInterval(seconds), lifetime)
  {
    hide Poll;
    var interval, deadline := StartInterval(seconds), start + lifetime;
    hide StartInterval;
    if Bounding(interval, lifetime) {
      var m := if interval < MAX_INTERVAL then interval else MAX_INTERVAL;
      var n := if Sane(interval) && lifetime >= 0 then lifetime / m else 0;
      forall turns: seq<Turn>
        ensures Poll(turns, interval, 0, start, deadline).requests <= n
      {
        if Sane(interval) && lifetime >= 0 {
          PollBounded(turns, interval, 0, start, deadline, m);
          if Poll(turns, interval, 0, start, deadline).requests > 0 {
            Quotient(Poll(turns, interval, 0, start, deadline).requests, m, lifetime);
          }
        } else {
          FirstWaitOutlasts(turns, interval, start, deadline);
        }
      }
      assert AtMost(interval, start, deadline, n);
    } else {
      forall n: nat
        ensures !AtMost(interval, start, deadline, n)
      {
        var turns := AnyNumberOfRequests(interval, start, deadline, n + 1);
        MoreThan(turns, interval, start, deadline, n);
      }
    }
  }

  lemma MoreThan(turns: seq<Turn>, interval: int, start: int, deadline: int, n: nat)
    requires Poll(turns, interval, 0, start, deadline).requests > n
    ensures !AtMost(interval, start, deadline, n)
  {
  }

  // Back-off.

  predicate IsSlowDown(t: Turn) {
    t.reply.HttpError? && TrimSpace(t.reply.code) == "slow_down"
  }

  function SlowDowns(turns: seq<Turn>): nat
    decreases |turns|
  {
    if turns == [] then 0 else (if IsSlowDown(turns[0]) then 1 else 0) + SlowDowns(turns[1..])
  }

  lemma NextBackedOff(t: Turn, interval: int, n: nat, failures: nat, now: int, deadline: int)
    ensures var next := GoesOn(t, BackedOff(interval, n), failures, now, deadline);
      next.Some? ==> next.value.0 == BackedOff(interval, n + if IsSlowDown(t) then 1 else 0)
  {
    hide TrimSpace, NextInterval;
  }

  /** Every wait is the start interval backed off once for each slow_down so far; nothing else changes it. */
  lemma {:induction false} WaitsBackOff(turns: seq<Turn>, interval: int, n: nat, failures: nat, now: int, deadline: int, k: nat)
    requires k < |Poll(turns, BackedOff(interval, n), failures, now, deadline).waits|
    ensures k <= |turns|
    ensures Poll(turns, BackedOff(interval, n), failures, now, deadline).waits[k] == BackedOff(interval, n + SlowDowns(turns[..k]))
    decreases |turns|
  {
    hide Poll, GoesOn, NextInterval, IsSlowDown, BackedOff;
    if turns == [] {
      PollNothing(BackedOff(interval, n), failures, now, deadline);
    } else {
      PollStep(turns, BackedOff(interval, n), failures, now, deadline);
      NextBackedOff(turns[0], interval, n, failures, now, deadline);
      var next := GoesOn(turns[0], BackedOff(interval, n), failures, now, deadline);
      if k == 0 {
        assert turns[..0] == [];
      } else if next.Some? {
        var later := now + Slept(BackedOff(interval, n)) + turns[0].lag;
        WaitsBackOff(turns[1..], interval, n + if IsSlowDown(turns[0]) then 1 else 0, next.value.1, later, deadline, k - 1);
        assert turns[..k][0] == turns[0] && turns[..k][1..] == turns[1..][..k - 1];
      }
    }
  }

  /** After k slow_down answers the wait is min(I + 5k, 60) seconds, for a start of at most a minute. */
  lemma WaitAfterSlowDowns(turns: seq<Turn>, interval: int, now: int, deadline: int, k: nat)
    requires 0 < interval <= 60_000_000_000 && k < |Poll(turns, interval, 0, now, deadline).waits|
    ensures k <= |turns|
    ensures var backedOff := interval + SlowDowns(turns[..k]) * 5_000_000_000;
      Poll(turns, interval, 0, now, deadline).waits[k] == if backedOff < 60_000_000_000 then backedOff else 60_000_000_000
  {
    hide Poll, SlowDowns;
    assert BackedOff(interval, 0) == interval;
    WaitsBackOff(turns, interval, 0, 0, now, deadline, k);
    hide BackedOff;
    BackOffIsCapped(interval, SlowDowns(turns[..k]));
  }

  /** ... and so no wait is shorter than an earlier one. */
  lemma WaitsNeverShrink(turns: seq<Turn>, interval: int, now: int, deadline: int, j: nat, k: nat)
    requires 0 < interval <= 60_000_000_000 && j <= k < |Poll(turns, interval, 0, now, deadline).waits|
    ensures Poll(turns, interval, 0, now, deadline).waits[j] <= Poll(turns, interval, 0, now, deadline).waits[k]
  {
    hide Poll, SlowDowns;
    WaitAfterSlowDowns(turns, interval, now, deadline, j);
    WaitAfterSlowDowns(turns, interval, now, deadline, k);
    SlowDownsGrow(turns[..k], j);
    assert turns[..k][..j] == turns[..j];
  }

  lemma {:induction false} SlowDownsGrow(turns: seq<Turn>, j: nat)
    requires j <= |turns|
    ensures SlowDowns(turns[..j]) <= SlowDowns(turns)
    decreases j
  {
    hide IsSlowDown;
    if j > 0 {
      SlowDownsGrow(turns[1..], j - 1);
      assert turns[..j][1..] == turns[1..][..j - 1];
    }
  }

  // Losing contact.

  /** How many transport failures in a row, at the end of some turns that started with `failures` of them. */
  function Streak(turns: seq<Turn>, failures: nat): nat
    decreases |turns|
  {
    if turns == [] then failures
    else Streak(turns[1..], if turns[0].reply.TransportFailure? then failures + 1 else 0)
  }

  lemma NextStreak(t: Turn, interval: int, failures: nat, now: int, deadline: int)
    requires failures < MAX_TRANSPORT_FAILURES
    ensures var next := GoesOn(t, interval, failures, now, deadline);
      next.Some? ==> next.value.1 == (if t.reply.TransportFailure? then failures + 1 else 0) < MAX_TRANSPORT_FAILURES
  {
    hide Classify, NextInterval;
  }

  lemma LastRequest(turns: seq<Turn>, interval: int, failures: nat, now: int, deadline: int)
    requires turns != [] && failures < MAX_TRANSPORT_FAILURES && GoesOn(turns[0], interval, failures, now, deadline).None?
    ensures var t := Poll(turns, interval, failures, now, deadline);
      && t.requests <= 1 && |t.waits| == 1
      && (t.verdict == LostContact <==> t.requests == 1 && turns[0].reply.TransportFailure?)
      && (t.verdict == LostContact ==> failures + 1 == MAX_TRANSPORT_FAILURES)
  {
    hide Classify, NextInterval, Invalid;
  }

  /** It gives up exactly when the streak of transport failures reaches five, and never lets it get there otherwise. */
  lemma {:induction false} GivesUpOnStreak(turns: seq<Turn>, interval: int, failures: nat, now: int, deadline: int)
    requires failures < MAX_TRANSPORT_FAILURES
    ensures var t := Poll(turns, interval, failures, now, deadline);
      && t.requests <= |turns|
      && (forall k :: 0 <= k < t.requests ==> Streak(turns[..k], failures) < MAX_TRANSPORT_FAILURES)
      && (t.verdict == LostContact <==> Streak(turns[..t.requests], failures) == MAX_TRANSPORT_FAILURES)
      && Streak(turns[..t.requests], failures) <= MAX_TRANSPORT_FAILURES
    decreases |turns|
  {
    hide Poll, GoesOn, NextInterval;
    if turns == [] {
      PollNothing(interval, failures, now, deadline);
    } else {
      PollStep(turns, interval, failures, now, deadline);
      NextStreak(turns[0], interval, failures, now, deadline);
      var t, next := Poll(turns, interval, failures, now, deadline), GoesOn(turns[0], interval, failures, now, deadline);
      if next.Some? {
        var later := now + Slept(interval) + turns[0].lag;
        GivesUpOnStreak(turns[1..], next.value.0, next.value.1, later, deadline);
        forall k | 0 < k <= t.requests
          ensures Streak(turns[..k], failures) == Streak(turns[1..][..k - 1], next.value.1)
        {
          assert turns[..k][1..] == turns[1..][..k - 1];
        }
      } else {
        LastRequest(turns, interval, failures, now, deadline);
        assert turns[..0] == [];
        assert turns[..1] == [turns[0]] && turns[..1][1..] == [];
      }
    }
  }

  lemma {:induction false} StreakLast(turns: seq<Turn>, t: Turn, failures: nat)
    ensures Streak(turns + [t], failures) == if t.reply.TransportFailure? then Streak(turns, failures) + 1 else 0
    decreases |turns|
  {
    if turns == [] {
      assert [] + [t] == [t];
    } else {
      assert (turns + [t])[1..] == turns[1..] + [t];
      StreakLast(turns[1..], t, if turns[0].reply.TransportFailure? then failures + 1 else 0);
    }
  }

  /** The last `n` turns all failed to reach the server. */
  ghost predicate EndsInFailures(turns: seq<Turn>, n: nat) {
    n <= |turns| && forall k :: |turns| - n <= k < |turns| ==> turns[k].reply.TransportFailure?
  }

  lemma {:induction false} StreakIsTail(turns: seq<Turn>, n: nat)
    ensures Streak(turns, 0) >= n <==> EndsInFailures(turns, n)
    decreases |turns|
  {
    if turns != [] && n > 0 {
      var before, last := turns[..|turns| - 1], turns[|turns| - 1];
      assert turns == before + [last];
      StreakLast(before, last, 0);
      StreakIsTail(before, n - 1);
    }
  }

  /**
   It gives up at exactly the fifth transport failure in a row: not before there are five,
   and never going on past them.
   */
  lemma GivesUpAtTheFifth(turns: seq<Turn>, interval: int, now: int, deadline: int)
    ensures var t := Poll(turns, interval, 0, now, deadline);
      && t.requests <= |turns|
      && (t.verdict == LostContact <==> EndsInFailures(turns[..t.requests], 5))
      && forall k :: 0 <= k < t.requests ==> !EndsInFailures(turns[..k], 5)
  {
    hide Poll, Streak, EndsInFailures;
    var t := Poll(turns, interval, 0, now, deadline);
    GivesUpOnStreak(turns, interval, 0, now, deadline);
    forall k | 0 <= k <= t.requests
      ensures Streak(turns[..k], 0) >= 5 <==> EndsInFailures(turns[..k], 5)
    {
      StreakIsTail(turns[..k], 5);
    }
  }

  // Success.

  lemma StopsBound(turns: seq<Turn>, interval: int, failures: nat, now: int, deadline: int, b: Binding)
    requires turns != [] && GoesOn(turns[0], interval, failures, now, deadline).None?
    ensures var t := Poll(turns, interval, failures, now, deadline);
      t.verdict == Bound(b) <==> t.requests == 1 && turns[0].reply == Approved(b) && Invalid(b).None?
  {
    hide Classify, NextInterval, Invalid;
  }

  lemma GoesOnUnapproved(t: Turn, interval: int, failures: nat, now: int, deadline: int)
    ensures t.reply.Approved? ==> GoesOn(t, interval, failures, now, deadline).None?
  {
  }

  /** A binding comes out if and only if the last request sent was answered with it and it can be served from. */
  lemma {:induction false} SuccessIsApproved(turns: seq<Turn>, interval: int, failures: nat, now: int, deadline: int, b: Binding)
    ensures var t := Poll(turns, interval, failures, now, deadline);
      && t.requests <= |turns|
      && (t.verdict == Bound(b) <==> t.requests > 0 && turns[t.requests - 1].reply == Approved(b) && Invalid(b).None?)
    decreases |turns|
  {
    hide Poll, GoesOn, NextInterval, Invalid;
    if turns == [] {
      PollNothing(interval, failures, now, deadline);
    } else {
      PollStep(turns, interval, failures, now, deadline);
      GoesOnUnapproved(turns[0], interval, failures, now, deadline);
      var next := GoesOn(turns[0], interval, failures, now, deadline);
      if next.Some? {
        var later := now + Slept(interval) + turns[0].lag;
        SuccessIsApproved(turns[1..], next.value.0, next.value.1, later, deadline, b);
      } else {
        StopsBound(turns, interval, failures, now, deadline, b);
      }
    }
  }

  // Restarts.

  /** One device code: whether the server gave one, what came with it, what happened, and the answer to "again?". */
  datatype Code = Code(given: bool, intervalSeconds: int, expiresIn: int, turns: seq<Turn>, again: bool)

  datatype FlowEnd = NoCode | Ended(verdict: Verdict)

  datatype FlowTrace = FlowTrace(end: FlowEnd, codes: nat, requests: nat)

  function PollCode(c: Code): Trace {
    Poll(c.turns, StartInterval(c.intervalSeconds), 0, 0, Expiry(c.expiresIn))
  }

  predicate AsksAgain(c: Code, restart: nat) {
    c.given && PollCode(c).verdict == Expired && restart < MAX_FLOW_RESTARTS && c.again
  }

  function Flow(codes: seq<Code>, restart: nat): FlowTrace
    decreases |codes|
  {
    if codes == [] then FlowTrace(Ended(StillPolling), 0, 0)
    else if !codes[0].given then FlowTrace(NoCode, 1, 0)
    else
      var t := PollCode(codes[0]);
      if AsksAgain(codes[0], restart) then
        var rest := Flow(codes[1..], restart + 1);
        FlowTrace(rest.end, rest.codes + 1, rest.requests + t.requests)
      else FlowTrace(Ended(t.verdict), 1, t.requests)
  }

  /** Only time differences matter to the loop. */
  lemma {:induction false} ShiftClock(turns: seq<Turn>, interval: int, failures: nat, now: int, deadline: int, shift: int)
    ensures Poll(turns, interval, failures, now + shift, deadline + shift) == Poll(turns, interval, failures, now, deadline)
    decreases |turns|
  {
    hide Classify, Invalid, NextInterval;
    if turns != [] {
      var later := now + Slept(interval) + turns[0].lag;
      ShiftClock(turns[1..], interval, failures + 1, later, deadline, shift);
      ShiftClock(turns[1..], interval, 0, later, deadline, shift);
      ShiftClock(turns[1..], NextInterval(interval, PollSlowDown), 0, later, deadline, shift);
    }
  }

  /** runDeviceFlow: a fresh code for an expired one, while somebody says yes, three codes in all. */
  method RunDeviceFlow(codes: seq<Code>, start: int) returns (trace: FlowTrace)
    ensures trace == Flow(codes, 0)
  {
    hide Poll, StartInterval, Expiry;
    var restart, sent, now := 0, 0, start;
    while restart < |codes|
      invariant 0 <= restart <= |codes| && restart <= MAX_FLOW_RESTARTS + 1
      invariant var rest := Flow(codes[restart..], restart);
        Flow(codes, 0) == FlowTrace(rest.end, rest.codes + restart, rest.requests + sent)
      decreases |codes| - restart
    {
      var c := codes[restart];
      assert codes[restart..][0] == c && codes[restart..][1..] == codes[restart + 1..];
      if !c.given {
        return FlowTrace(NoCode, restart + 1, sent);
      }
      var expiry := Expiry(c.expiresIn);
      var verdict, waits, requests, later := PollForBinding(c.turns, c.intervalSeconds, now, expiry);
      ShiftClock(c.turns, StartInterval(c.intervalSeconds), 0, 0, expiry, now);
      assert PollCode(c) == Trace(verdict, waits, requests);
      sent, now := sent + requests, later;
      if verdict != Expired || restart >= MAX_FLOW_RESTARTS || !c.again {
        return FlowTrace(Ended(verdict), restart + 1, sent);
      }
      restart := restart + 1;
    }
    assert codes[restart..] == [];
    return FlowTrace(Ended(StillPolling), restart, sent);
  }

  /**
   A run asks for at most three codes. Another one is asked for only after the last has
   expired and somebody said yes, and the end of the run is the end of the last code.
   */
  lemma {:induction false} FlowRestarts(codes: seq<Code>, restart: nat)
    requires restart <= MAX_FLOW_RESTARTS
    ensures var f := Flow(codes, restart);
      && f.codes <= |codes| && f.codes + restart <= 3
      && (forall k :: 0 <= k < f.codes - 1 ==> AsksAgain(codes[k], restart + k))
      && (f.end == NoCode <==> f.codes > 0 && !codes[f.codes - 1].given)
      && (f.end.Ended? && f.end.verdict != StillPolling ==> f.codes > 0 && PollCode(codes[f.codes - 1]).verdict == f.end.verdict)
    decreases |codes|
  {
    hide PollCode;
    if codes != [] && codes[0].given && AsksAgain(codes[0], restart) {
      FlowRestarts(codes[1..], restart + 1);
    }
  }

  /** A whole run ends in a binding only if a server approved it on the run's last request, and it is valid. */
  lemma FlowSucceeds(codes: seq<Code>, b: Binding)
    requires Flow(codes, 0).end == Ended(Bound(b))
    ensures var n := Flow(codes, 0).codes;
      && 1 <= n <= 3 && n <= |codes| && codes[n - 1].given && Invalid(b).None?
      && var t := PollCode(codes[n - 1]);
         1 <= t.requests <= |codes[n - 1].turns| && codes[n - 1].turns[t.requests - 1].reply == Approved(b)
  {
    hide Flow, Poll, Invalid, StartInterval, Expiry;
    FlowRestarts(codes, 0);
    var c := codes[Flow(codes, 0).codes - 1];
    SuccessIsApproved(c.turns, StartInterval(c.intervalSeconds), 0, 0, Expiry(c.expiresIn), b);
  }
}
