/** Why a call of Execute ended as it did: each outcome is traced to the step of the run that caused it. */
module BrokerOutcomes {
  import opened Prelude
  import opened BrokerSlot
  import opened BrokerFraming
  import opened BrokerProtocol
  import opened BrokerInvariant

  /** Step j answered `id` while it was pending, and no other answer ever met it pending. */
  ghost predicate AnsweredAt(
      states: seq<State>, steps: seq<Step>, j: nat, id: RequestId, c: Conn, ok: bool, body: string)
    requires |steps| < |states|
  {
    && j < |steps| && steps[j] == Reply(c, id, ok, body) && id in states[j].slot.pending
    && forall k :: 0 <= k < |steps| && k != j && steps[k].Reply? && steps[k].id == id ==> id !in states[k].slot.pending
  }

  /** Step j took the connection of the pending `id` away, or was the caller's own giving up on it. */
  ghost predicate LostAt(states: seq<State>, steps: seq<Step>, j: nat, id: RequestId)
    requires |steps| < |states|
  {
    && j < |steps|
    && (steps[j] == DropConn(id) || (id in states[j].slot.pending && TakesSlot(states[j], steps[j])))
  }

  /** The slot changes hands: a new connection, or the end of the one in it. */
  predicate TakesSlot(s: State, st: Step) {
    match st
    case Attach(_) => true
    case ReadEnd(c) => s.slot.conn == Some(c)
    case DropConn(k) => k in s.callers && s.slot.conn == Some(s.callers[k].conn)
    case _ => false
  }

  /** An outcome that is owed to a caller, in its channel, or what it returned with. */
  ghost predicate Holds(s: State, id: RequestId, o: Outcome) {
    || (id in s.owed && s.owed[id] == o)
    || (id in s.box && s.box[id] == o)
    || InPhase(s, id, Done(o))
  }

  /** This one step causes that outcome. */
  ghost predicate Causes(s: State, st: Step, id: RequestId, o: Outcome) {
    match o
    case Answer(c, ok, body) => st == Reply(c, id, ok, body) && id in s.slot.pending
    case Unavailable => st == DropConn(id) || (id in s.slot.pending && TakesSlot(s, st))
    case ContextError => id in s.callers && s.callers[id].ctxDone
  }

  /** Whoever is past the point of giving up has seen its context end. */
  ghost predicate CtxInv(s: State) {
    && (forall id <- s.callers :: GaveUp(s.callers[id].phase) ==> s.callers[id].ctxDone)
    && (forall id <- s.owed :: s.owed[id] != ContextError)
    && (forall id <- s.box :: s.box[id] != ContextError)
  }

  predicate GaveUp(p: Phase) {
    p in [WantGate(true), Cancelling, Done(ContextError)] || (p.Writing? && p.cancel)
  }

  /** Steps of callers, inside write and around the channels leave the slot as it is. */
  predicate IsOwnStep(st: Step) {
    IsCallerStep(st) || IsWriteStep(st) || st.SelectResult? || st.Deliver?
  }

  lemma CallerCtx(s: State, st: Step)
    requires CtxInv(s) && Enabled(s, st) && IsCallerStep(st)
    ensures CtxInv(Next(s, st))
  {
  }

  lemma OwnCtx(s: State, st: Step)
    requires CtxInv(s) && Enabled(s, st) && IsOwnStep(st)
    ensures CtxInv(Next(s, st))
  {
    if IsCallerStep(st) {
      CallerCtx(s, st);
      hide CtxInv, Next, Enabled;
    }
  }

  lemma TableCtx(s: State, st: Step)
    requires CtxInv(s) && Enabled(s, st) && (st.Register? || st.RemoveFailed? || st.RemoveCancelled?)
    ensures CtxInv(Next(s, st))
  {
  }

  lemma DisconnectCtx(s: State, c: Conn)
    requires CtxInv(s)
    ensures CtxInv(Disconnect(s, c))
  {
  }

  lemma TakeCtx(s: State, st: Step)
    requires CtxInv(s) && Enabled(s, st) && IsTakeStep(st)
    ensures CtxInv(Next(s, st))
  {
    if st.ReadEnd? {
      DisconnectCtx(s, st.c);
      hide CtxInv;
    } else if st.DropConn? {
      var t := SetPhase(s, st.id, Done(Unavailable));
      assert CtxInv(t);
      DisconnectCtx(t, s.callers[st.id].conn);
      hide CtxInv;
    } else {
      AttachCtx(s, st.c);
    }
  }

  lemma AttachCtx(s: State, c: Conn)
    requires CtxInv(s) && Enabled(s, Step.Attach(c))
    ensures CtxInv(Next(s, Step.Attach(c)))
  {
  }

  lemma ReplyCtx(s: State, st: Step)
    requires CtxInv(s) && Enabled(s, st) && st.Reply?
    ensures CtxInv(Next(s, st))
  {
  }

  lemma CtxStep(s: State, st: Step)
    requires CtxInv(s) && Enabled(s, st)
    ensures CtxInv(Next(s, st))
  {
    hide CtxInv, Enabled, Next;
    if IsOwnStep(st) {
      OwnCtx(s, st);
    } else if IsTakeStep(st) {
      TakeCtx(s, st);
    } else if st.Reply? {
      ReplyCtx(s, st);
    } else {
      TableCtx(s, st);
    }
  }

  lemma OwnOutcome(s: State, st: Step, id: RequestId, o: Outcome)
    requires CtxInv(s) && Enabled(s, st) && Holds(Next(s, st), id, o) && IsOwnStep(st)
    ensures Holds(s, id, o) || Causes(s, st, id, o)
  {
  }

  lemma TableOutcome(s: State, st: Step, id: RequestId, o: Outcome)
    requires Enabled(s, st) && Holds(Next(s, st), id, o) && (st.Register? || st.RemoveFailed? || st.RemoveCancelled?)
    ensures Holds(s, id, o)
  {
  }

  lemma TakeOutcome(s: State, st: Step, id: RequestId, o: Outcome)
    requires Enabled(s, st) && Holds(Next(s, st), id, o) && IsTakeStep(st)
    ensures Holds(s, id, o) || Causes(s, st, id, o)
  {
  }

  lemma ReplyOutcome(s: State, st: Step, id: RequestId, o: Outcome)
    requires Enabled(s, st) && Holds(Next(s, st), id, o) && st.Reply?
    ensures Holds(s, id, o) || Causes(s, st, id, o)
  {
  }

  /** A step hands an outcome on, or causes it. */
  lemma OutcomeStep(s: State, st: Step, id: RequestId, o: Outcome)
    requires CtxInv(s) && Enabled(s, st) && Holds(Next(s, st), id, o)
    ensures Holds(s, id, o) || Causes(s, st, id, o)
  {
    hide CtxInv, Enabled, Next, Holds, Causes;
    if IsOwnStep(st) {
      OwnOutcome(s, st, id, o);
    } else if IsTakeStep(st) {
      TakeOutcome(s, st, id, o);
    } else if st.Reply? {
      ReplyOutcome(s, st, id, o);
    } else {
      TableOutcome(s, st, id, o);
    }
  }

  lemma CtxDoneStep(s: State, st: Step, id: RequestId)
    requires Enabled(s, st) && id in Next(s, st).callers && Next(s, st).callers[id].ctxDone
    ensures (id in s.callers && s.callers[id].ctxDone) || st == CtxDone(id)
  {
  }

  /** Once registered, an id that is not pending never is again. */
  lemma PendingStep(s: State, st: Step, id: RequestId)
    requires Enabled(s, st) && id in s.callers
    ensures id in Next(s, st).callers
    ensures id in Next(s, st).slot.pending ==> id in s.slot.pending
    ensures st.Reply? && st.id == id ==> id !in Next(s, st).slot.pending
  {
  }

  // Over runs.

  ghost predicate CausedAt(states: seq<State>, steps: seq<Step>, j: nat, id: RequestId, o: Outcome)
    requires |steps| < |states|
  {
    j < |steps| && Causes(states[j], steps[j], id, o)
  }

  lemma RunStep(states: seq<State>, steps: seq<Step>, i: nat)
    requires IsRun(states, steps) && i + 1 < |states|
    ensures |states| == |steps| + 1 && Enabled(states[i], steps[i]) && states[i + 1] == Next(states[i], steps[i])
  {
  }

  lemma {:induction false} RunCtx(states: seq<State>, steps: seq<Step>, i: nat)
    requires IsRun(states, steps) && i < |states|
    ensures CtxInv(states[i])
  {
    if i > 0 {
      RunCtx(states, steps, i - 1);
      hide CtxInv, Next, Enabled, IsRun;
      RunStep(states, steps, i - 1);
      CtxStep(states[i - 1], steps[i - 1]);
    }
  }

  lemma {:induction false} OutcomeCaused(states: seq<State>, steps: seq<Step>, i: nat, id: RequestId, o: Outcome)
      returns (j: nat)
    requires IsRun(states, steps) && i < |states| && Holds(states[i], id, o)
    ensures j < i && CausedAt(states, steps, j, id, o)
  {
    j := 0;
    if i > 0 {
      RunCtx(states, steps, i - 1);
      hide CtxInv, Next, Enabled, Holds, Causes, IsRun;
      RunStep(states, steps, i - 1);
      OutcomeStep(states[i - 1], steps[i - 1], id, o);
      j := i - 1;
      if Holds(states[i - 1], id, o) {
        j := OutcomeCaused(states, steps, i - 1, id, o);
      }
    }
  }

  lemma {:induction false} CtxDoneCaused(states: seq<State>, steps: seq<Step>, i: nat, id: RequestId) returns (j: nat)
    requires IsRun(states, steps) && i < |states| && id in states[i].callers && states[i].callers[id].ctxDone
    ensures j < i && steps[j] == CtxDone(id)
  {
    j := 0;
    if i > 0 {
      hide Next, Enabled, IsRun;
      RunStep(states, steps, i - 1);
      CtxDoneStep(states[i - 1], steps[i - 1], id);
      j := i - 1;
      if id in states[i - 1].callers && states[i - 1].callers[id].ctxDone {
        j := CtxDoneCaused(states, steps, i - 1, id);
      }
    }
  }

  /** On the way to dropping its connection, no ended context having turned it back. */
  predicate HeadsForDrop(s: State, id: RequestId) {
    id in s.callers && (s.callers[id].phase == Dropping || (s.callers[id].phase in [Failed, Unregistered] && !s.callers[id].ctxDone))
  }

  lemma HeadingStep(s: State, st: Step, id: RequestId)
    requires Enabled(s, st) && HeadsForDrop(Next(s, st), id)
    ensures HeadsForDrop(s, id) || st == FailWrite(id)
  {
  }

  lemma NoneAtStart(states: seq<State>, steps: seq<Step>, id: RequestId)
    requires IsRun(states, steps)
    ensures !HeadsForDrop(states[0], id)
  {
  }

  lemma {:induction false} HeadingCaused(states: seq<State>, steps: seq<Step>, i: nat, id: RequestId) returns (j: nat)
    requires IsRun(states, steps) && i < |states| && HeadsForDrop(states[i], id)
    ensures j < i && steps[j] == FailWrite(id)
  {
    hide Next, Enabled, IsRun, HeadsForDrop;
    j := 0;
    if i == 0 {
      NoneAtStart(states, steps, id);
    } else {
      RunStep(states, steps, i - 1);
      HeadingStep(states[i - 1], steps[i - 1], id);
      j := i - 1;
      if HeadsForDrop(states[i - 1], id) {
        j := HeadingCaused(states, steps, i - 1, id);
      }
    }
  }

  /** Execute takes a connection down itself only after its own write to it went wrong. */
  lemma DropsAfterFailedWrite(states: seq<State>, steps: seq<Step>, i: nat, id: RequestId)
    requires IsRun(states, steps) && i < |steps| && steps[i] == DropConn(id)
    ensures exists j :: 0 <= j < i && steps[j] == FailWrite(id)
  {
    RunStep(states, steps, i);
    assert HeadsForDrop(states[i], id);
    hide Next, Enabled, IsRun, HeadsForDrop;
    var j := HeadingCaused(states, steps, i, id);
  }

  lemma {:induction false} NeverPendingAgain(states: seq<State>, steps: seq<Step>, i: nat, k: nat, id: RequestId)
    requires IsRun(states, steps) && i <= k < |states| && id in states[i].callers && id !in states[i].slot.pending
    ensures id in states[k].callers && id !in states[k].slot.pending
    decreases k
  {
    hide Next, Enabled, IsRun;
    if i < k {
      NeverPendingAgain(states, steps, i, k - 1, id);
      RunStep(states, steps, k - 1);
      PendingStep(states[k - 1], steps[k - 1], id);
    }
  }

  /** Of all answers to one id, at most one meets it pending. */
  lemma OneAnswerMeetsIt(states: seq<State>, steps: seq<Step>, j: nat, k: nat)
    requires IsRun(states, steps) && j < k < |steps|
    requires steps[j].Reply? && steps[k].Reply? && steps[j].id == steps[k].id
    requires steps[j].id in states[j].slot.pending
    ensures steps[k].id !in states[k].slot.pending
  {
    var id := steps[j].id;
    RunInv(states, steps, j);
    assert id in states[j].callers by {
      assert SlotInv(states[j]);
    }
    hide Next, Inv;
    hide Enabled, IsRun;
    RunStep(states, steps, j);
    PendingStep(states[j], steps[j], id);
    NeverPendingAgain(states, steps, j + 1, k, id);
  }

  /**
   A caller returns with the result or the error some answer to its request carried, and
   that answer alone met the request pending; with ErrUnavailable because its connection
   was taken away while it was pending, or because it gave up on it itself after a failed
   write; or with its context's error, because its context had ended.
   */
  lemma OutcomeExplained(states: seq<State>, steps: seq<Step>, i: nat, id: RequestId)
    requires IsRun(states, steps) && i < |states|
    requires id in states[i].callers && states[i].callers[id].phase.Done?
    ensures match states[i].callers[id].phase.outcome
      case Answer(c, ok, body) => exists j :: 0 <= j < i && AnsweredAt(states, steps, j, id, c, ok, body)
      case Unavailable => exists j :: 0 <= j < i && LostAt(states, steps, j, id)
      case ContextError => exists j :: 0 <= j < i && steps[j] == CtxDone(id)
  {
    var o := states[i].callers[id].phase.outcome;
    var j := OutcomeCaused(states, steps, i, id, o);
    hide Next, Enabled;
    match o {
      case Answer(c, ok, body) =>
        forall k | 0 <= k < |steps| && k != j && steps[k].Reply? && steps[k].id == id
          ensures id !in states[k].slot.pending
        {
          if k > j {
            OneAnswerMeetsIt(states, steps, j, k);
          } else if id in states[k].slot.pending {
            OneAnswerMeetsIt(states, steps, k, j);
          }
        }
        assert AnsweredAt(states, steps, j, id, c, ok, body);
      case Unavailable =>
        assert LostAt(states, steps, j, id);
      case ContextError =>
        var d := CtxDoneCaused(states, steps, j, id);
    }
  }
}
