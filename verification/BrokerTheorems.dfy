/** What the invariant means for the callers of Execute and for the peer on the wire. */
module BrokerTheorems {
  import opened Prelude
  import opened BrokerSlot
  import opened BrokerFraming
  import opened BrokerProtocol
  import opened BrokerInvariant

  /**
   A caller that is going to read its channel is never orphaned: its request is still
   pending, or a goroutine owes it exactly one value, or that value is in its channel,
   and no two of these at once.
   */
  lemma NeverOrphaned(states: seq<State>, steps: seq<Step>, i: nat, id: RequestId)
    requires IsRun(states, steps) && i < |states|
    requires id in states[i].callers && Expecting(states[i].callers[id].phase)
    ensures var s := states[i];
      || (id in s.slot.pending && id !in s.owed && id !in s.box)
      || (id !in s.slot.pending && id in s.owed && id !in s.box)
      || (id !in s.slot.pending && id !in s.owed && id in s.box)
  {
    RunInv(states, steps, i);
  }

  /** A goroutine that owes a value finds the capacity-1 channel empty: its send cannot block. */
  lemma SendNeverBlocks(states: seq<State>, steps: seq<Step>, i: nat, id: RequestId)
    requires IsRun(states, steps) && i < |states| && id in states[i].owed
    ensures Enabled(states[i], Deliver(id))
  {
    RunInv(states, steps, i);
  }

  lemma StepSends(s: State, st: Step)
    requires Enabled(s, st)
    ensures s.sends <= Next(s, st).sends
  {
  }

  lemma {:induction false} SendsOnlyGrow(states: seq<State>, steps: seq<Step>, i: nat, j: nat)
    requires IsRun(states, steps) && i <= j < |states|
    ensures states[i].sends <= states[j].sends
  {
    hide Next, Enabled;
    if i < j {
      SendsOnlyGrow(states, steps, i, j - 1);
      assert Enabled(states[j - 1], steps[j - 1]) && states[j - 1 + 1] == Next(states[j - 1], steps[j - 1]);
      StepSends(states[j - 1], steps[j - 1]);
    }
  }

  /** No result channel is ever sent on twice, in any run. */
  lemma OneSendPerChannel(states: seq<State>, steps: seq<Step>, i: nat, j: nat)
    requires IsRun(states, steps) && i < j < |steps|
    requires steps[i].Deliver? && steps[j].Deliver?
    ensures steps[i].id != steps[j].id
  {
    assert states[i + 1] == Next(states[i], steps[i]);
    SendsOnlyGrow(states, steps, i + 1, j);
    RunInv(states, steps, j);
    assert Enabled(states[j], steps[j]);
    hide Next;
    assert steps[i].id in states[j].sends;
    assert PlaceInv(states[j]);
  }

  /** Every pending request belongs to the connection that is current; with none, the table is empty. */
  lemma PendingBelongsToCurrent(states: seq<State>, steps: seq<Step>, i: nat)
    requires IsRun(states, steps) && i < |states|
    ensures states[i].slot.conn.None? ==> states[i].slot.pending == map[]
    ensures forall id <- states[i].slot.pending ::
              id in states[i].callers && states[i].slot.conn == Some(states[i].callers[id].conn)
  {
    RunInv(states, steps, i);
  }

  /** Whatever a replaced connection still does, end or answer, leaves the broker as it was. */
  lemma LateEventsChangeNothing(states: seq<State>, steps: seq<Step>, i: nat, st: Step)
    requires IsRun(states, steps) && i < |states|
    requires st.ReadEnd? || st.Reply?
    requires Enabled(states[i], st) && HonestStep(states[i], st)
    requires states[i].slot.conn != Some(st.c)
    ensures Next(states[i], st) == states[i]
  {
    RunInv(states, steps, i);
    assert SlotInv(states[i]) && OrderInv(states[i]);
  }

  /** The disconnect Execute itself makes after a failed write touches nothing but its caller, once the connection was replaced. */
  lemma LateDropEndsItsCaller(s: State, id: RequestId)
    requires Enabled(s, DropConn(id)) && s.slot.conn != Some(s.callers[id].conn)
    ensures Next(s, DropConn(id)) == SetPhase(s, id, Done(Unavailable))
  {
  }

  /** Two calls of write never hold the gate at once, and the token is never lost. */
  lemma WritesNeverOverlap(states: seq<State>, steps: seq<Step>, i: nat, a: RequestId, b: RequestId)
    requires IsRun(states, steps) && i < |states|
    requires IsWriting(states[i], a)
    ensures states[i].gate == 0
    ensures IsWriting(states[i], b) ==> a == b
  {
    RunInv(states, steps, i);
  }

  lemma TokenConserved(states: seq<State>, steps: seq<Step>, i: nat)
    requires IsRun(states, steps) && i < |states|
    ensures states[i].gate == 1 <==> forall id :: !IsWriting(states[i], id)
    ensures states[i].gate <= 1
  {
    RunInv(states, steps, i);
  }

  lemma {:induction false} GoodLogEvent(log: seq<WriteEvent>, j: nat)
    requires GoodLog(log) && j < |log|
    ensures WellFormed(log[j])
    ensures log[j].cancel ==> log[j].id in CommandsOn(log[..j])
  {
    if j < |log| - 1 {
      GoodLogEvent(log[..|log| - 1], j);
      assert log[..|log| - 1][..j] == log[..j];
    }
  }

  lemma {:induction false} CommandIsOn(log: seq<WriteEvent>, id: RequestId) returns (i: nat)
    requires id in CommandsOn(log)
    ensures i < |log| && log[i].id == id && !log[i].cancel && Complete(log[i])
  {
    var last := log[|log| - 1];
    if last.id == id && !last.cancel && Complete(last) {
      i := |log| - 1;
    } else {
      i := CommandIsOn(log[..|log| - 1], id);
    }
  }

  /**
   A cancel frame, even one cut short, comes after the complete command frame of its
   own id on the same connection, and no frame on any connection exceeds the limit.
   */
  lemma CancelFollowsCommand(states: seq<State>, steps: seq<Step>, n: nat, c: Conn, j: nat) returns (i: nat)
    requires IsRun(states, steps) && n < |states|
    requires c in states[n].log && j < |states[n].log[c]|
    ensures WellFormed(states[n].log[c][j])
    ensures states[n].log[c][j].cancel ==>
      && i < j
      && states[n].log[c][i].id == states[n].log[c][j].id
      && !states[n].log[c][i].cancel
      && Complete(states[n].log[c][i])
  {
    RunInv(states, steps, n);
    var log := states[n].log[c];
    GoodLogEvent(log, j);
    i := 0;
    if log[j].cancel {
      i := CommandIsOn(log[..j], log[j].id);
    }
  }

  /**
   On a connection no write is in progress on, the bytes split back into exactly the
   messages whose frame was completed, if and only if no write on it stopped inside its
   frame. A context that ends during a write is what stops one there while the
   connection stays current.
   */
  lemma WireSplitsBack(states: seq<State>, steps: seq<Step>, n: nat, c: Conn)
    requires IsRun(states, steps) && n < |states|
    requires c in states[n].wire
    requires forall id :: IsWriting(states[n], id) ==> states[n].callers[id].conn != c
    ensures c in states[n].log
    ensures ScanLines(states[n].wire[c]) == Scan(Messages(states[n].log[c]), [])
            <==> forall ev <- states[n].log[c] :: !StoppedPartWay(ev)
    ensures forall line <- Messages(states[n].log[c]) :: Fits(line)
  {
    RunInv(states, steps, n);
    IdleWireIsLog(states[n], c);
    GoodLogWellFormed(states[n].log[c]);
    FramingExact(states[n].log[c]);
    ScannedLinesFit(states[n].log[c]);
  }

  lemma IdleWireIsLog(s: State, c: Conn)
    requires WireInv(s) && OrderInv(s) && c in s.wire
    requires forall id :: IsWriting(s, id) ==> s.callers[id].conn != c
    ensures c in s.log && s.wire[c] == Bytes(s.log[c]) && GoodLog(s.log[c])
  {
    assert Unfinished(s, c) == [];
  }

  lemma GoodLogWellFormed(log: seq<WriteEvent>)
    requires GoodLog(log)
    ensures forall ev <- log :: WellFormed(ev)
  {
    forall ev | ev in log
      ensures WellFormed(ev)
    {
      var j :| 0 <= j < |log| && log[j] == ev;
      GoodLogEvent(log, j);
    }
  }

  // Provenance.

  ghost predicate FromOwn(o: Outcome, c: Conn) {
    o.Answer? ==> o.from == c
  }

  /** Every answer on its way to a caller came in on the connection of that caller. */
  ghost predicate AnswerInv(s: State) {
    && (forall id <- s.owed :: id in s.callers && FromOwn(s.owed[id], s.callers[id].conn))
    && (forall id <- s.box :: id in s.callers && FromOwn(s.box[id], s.callers[id].conn))
    && (forall id <- s.callers :: s.callers[id].phase.Done? ==> FromOwn(s.callers[id].phase.outcome, s.callers[id].conn))
  }

  ghost predicate IsHonestRun(states: seq<State>, steps: seq<Step>) {
    && IsRun(states, steps)
    && forall i :: 0 <= i < |steps| ==> HonestStep(states[i], steps[i])
  }

  lemma CallerStepKeepsAnswers(s: State, st: Step)
    requires AnswerInv(s) && Enabled(s, st) && IsCallerStep(st)
    ensures AnswerInv(Next(s, st))
  {
  }

  lemma RegistrationKeepsAnswers(s: State, st: Step)
    requires AnswerInv(s) && Enabled(s, st) && (st.Register? || st.RemoveFailed? || st.RemoveCancelled?)
    ensures AnswerInv(Next(s, st))
  {
  }

  lemma WriteStepKeepsAnswers(s: State, st: Step)
    requires AnswerInv(s) && Enabled(s, st) && IsWriteStep(st)
    ensures AnswerInv(Next(s, st))
  {
  }

  lemma ChannelStepKeepsAnswers(s: State, st: Step)
    requires AnswerInv(s) && Enabled(s, st) && (st.SelectResult? || st.Deliver?)
    ensures AnswerInv(Next(s, st))
  {
  }

  lemma ReplyKeepsAnswers(s: State, st: Step)
    requires AnswerInv(s) && SlotInv(s) && OrderInv(s) && Enabled(s, st) && st.Reply? && HonestStep(s, st)
    ensures AnswerInv(Next(s, st))
  {
  }

  lemma TakeKeepsAnswers(s: State, st: Step)
    requires AnswerInv(s) && SlotInv(s) && Enabled(s, st) && IsTakeStep(st)
    ensures AnswerInv(Next(s, st))
  {
  }

  lemma StepKeepsAnswers(s: State, st: Step)
    requires Inv(s) && AnswerInv(s) && Enabled(s, st) && HonestStep(s, st)
    ensures AnswerInv(Next(s, st))
  {
    hide AnswerInv, SlotInv, PlaceInv, GateInv, WireInv, OrderInv, Enabled, Next, HonestStep;
    if IsCallerStep(st) {
      CallerStepKeepsAnswers(s, st);
    } else if st.Register? || st.RemoveFailed? || st.RemoveCancelled? {
      RegistrationKeepsAnswers(s, st);
    } else if IsWriteStep(st) {
      WriteStepKeepsAnswers(s, st);
    } else if IsTakeStep(st) {
      TakeKeepsAnswers(s, st);
    } else if st.Reply? {
      ReplyKeepsAnswers(s, st);
    } else {
      ChannelStepKeepsAnswers(s, st);
    }
  }

  lemma {:induction false} HonestRunAnswers(states: seq<State>, steps: seq<Step>, i: nat)
    requires IsHonestRun(states, steps) && i < |states|
    ensures AnswerInv(states[i])
  {
    if i > 0 {
      HonestRunAnswers(states, steps, i - 1);
      RunInv(states, steps, i - 1);
      hide Inv, AnswerInv, Enabled, Next, HonestStep;
      assert Enabled(states[i - 1], steps[i - 1]) && states[i - 1 + 1] == Next(states[i - 1], steps[i - 1]);
      StepKeepsAnswers(states[i - 1], steps[i - 1]);
    }
  }

  /** Every answer a caller ends with came in on the connection its own command was written on. */
  lemma AnswersComeHome(states: seq<State>, steps: seq<Step>, i: nat, id: RequestId)
    requires IsHonestRun(states, steps) && i < |states|
    requires id in states[i].callers && states[i].callers[id].phase.Done?
    requires states[i].callers[id].phase.outcome.Answer?
    ensures states[i].callers[id].phase.outcome.from == states[i].callers[id].conn
  {
    HonestRunAnswers(states, steps, i);
  }

  // Release: no waiter depends on the runtime answering.

  /** The steps that get a waiting caller out: fail its connection if need be, deliver, receive. */
  function Rescue(s: State, id: RequestId): seq<Step>
    requires id in s.callers
  {
    (if id in s.slot.pending then [ReadEnd(s.callers[id].conn)] else [])
    + (if id in s.box then [] else [Deliver(id)])
    + [SelectResult(id)]
  }

  ghost predicate AllEnabled(s: State, steps: seq<Step>)
    decreases |steps|
  {
    steps == [] || (Enabled(s, steps[0]) && AllEnabled(Next(s, steps[0]), steps[1..]))
  }

  function Follow(s: State, steps: seq<Step>): State
    requires AllEnabled(s, steps)
    decreases |steps|
  {
    if steps == [] then s else Follow(Next(s, steps[0]), steps[1..])
  }

  lemma RescueFromBox(s: State, id: RequestId)
    requires id in s.callers && s.callers[id].phase == Waiting && id in s.box
    ensures AllEnabled(s, [SelectResult(id)])
    ensures var t := Follow(s, [SelectResult(id)]); id in t.callers && t.callers[id].phase == Done(s.box[id])
  {
    assert [SelectResult(id)][1..] == [];
  }

  lemma RescueFromOwed(s: State, id: RequestId)
    requires id in s.callers && s.callers[id].phase == Waiting && id in s.owed && id !in s.box
    ensures AllEnabled(s, [Deliver(id), SelectResult(id)])
    ensures var t := Follow(s, [Deliver(id), SelectResult(id)]); id in t.callers && t.callers[id].phase == Done(s.owed[id])
  {
    RescueFromBox(Next(s, Deliver(id)), id);
    assert [Deliver(id), SelectResult(id)][1..] == [SelectResult(id)];
  }

  lemma RescueFromPending(s: State, id: RequestId)
    requires SlotInv(s) && InPhase(s, id, Waiting)
    requires id in s.slot.pending && id !in s.owed && id !in s.box
    ensures var steps := [ReadEnd(s.callers[id].conn), Deliver(id), SelectResult(id)];
      AllEnabled(s, steps) && InPhase(Follow(s, steps), id, Done(Unavailable))
  {
    var c := s.callers[id].conn;
    var t := Next(s, ReadEnd(c));
    assert t.owed[id] == Unavailable;
    RescueFromOwed(t, id);
    assert [ReadEnd(c), Deliver(id), SelectResult(id)][1..] == [Deliver(id), SelectResult(id)];
  }

  lemma WaiterIsPlaced(s: State, id: RequestId)
    requires PlaceInv(s) && InPhase(s, id, Waiting)
    ensures id in s.slot.pending || id in s.owed || id in s.box
    ensures id in s.slot.pending ==> id !in s.owed && id !in s.box
    ensures id in s.owed ==> id !in s.slot.pending && id !in s.box
    ensures id in s.box ==> id !in s.slot.pending && id !in s.owed
  {
  }

  lemma PlacedWaiterIsReleased(s: State, id: RequestId)
    requires Inv(s) && InPhase(s, id, Waiting)
    ensures AllEnabled(s, Rescue(s, id))
    ensures InPhase(Follow(s, Rescue(s, id)), id, Done(
              if id in s.box then s.box[id] else if id in s.owed then s.owed[id] else Unavailable))
  {
    hide SlotInv, PlaceInv, GateInv, WireInv, OrderInv, AllEnabled, Follow, Next, Enabled;
    WaiterIsPlaced(s, id);
    if id in s.box {
      RescueFromBox(s, id);
      assert Rescue(s, id) == [SelectResult(id)];
    } else if id in s.owed {
      RescueFromOwed(s, id);
      assert Rescue(s, id) == [Deliver(id), SelectResult(id)];
    } else {
      RescueFromPending(s, id);
      assert Rescue(s, id) == [ReadEnd(s.callers[id].conn), Deliver(id), SelectResult(id)];
    }
  }

  /**
   In every reachable state a waiting caller is at most three steps from returning: the
   end of its connection, the send, the receive. If it was still pending it returns
   ErrUnavailable.
   */
  lemma WaiterIsReleased(states: seq<State>, steps: seq<Step>, i: nat, id: RequestId)
    requires IsRun(states, steps) && i < |states|
    requires InPhase(states[i], id, Waiting)
    ensures AllEnabled(states[i], Rescue(states[i], id))
    ensures InPhase(Follow(states[i], Rescue(states[i], id)), id, Done(
              if id in states[i].box then states[i].box[id]
              else if id in states[i].owed then states[i].owed[id]
              else Unavailable))
  {
    RunInv(states, steps, i);
    PlacedWaiterIsReleased(states[i], id);
  }

  // The failing family of WireSplitsBack, as a run.

  lemma {:induction false} FollowThen(s: State, a: seq<Step>, b: seq<Step>)
    requires AllEnabled(s, a) && AllEnabled(Follow(s, a), b)
    ensures AllEnabled(s, a + b) && Follow(s, a + b) == Follow(Follow(s, a), b)
    decreases |a|
  {
    hide Next, Enabled;
    if a == [] {
      assert a + b == b;
    } else {
      FollowThen(Next(s, a[0]), a[1..], b);
      assert (a + b)[1..] == a[1..] + b;
    }
  }

  lemma FollowOne(s: State, st: Step)
    requires Enabled(s, st)
    ensures AllEnabled(s, [st]) && Follow(s, [st]) == Next(s, st)
  {
    assert [st][1..] == [];
  }

  /** Takes one more step at the end of an enabled schedule. */
  lemma Extend(s: State, steps: seq<Step>, st: Step)
    requires AllEnabled(s, steps) && Enabled(Follow(s, steps), st)
    ensures AllEnabled(s, steps + [st]) && Follow(s, steps + [st]) == Next(Follow(s, steps), st)
  {
    FollowOne(Follow(s, steps), st);
    FollowThen(s, steps, [st]);
  }

  /** Two commands registered on connection 0, the first about to put bytes on the wire. */
  function TwoCommands(first: Line, second: Line, p: Phase, ctxDone: bool, q: Phase): map<RequestId, Caller> {
    map[1 := Caller(0, first, [], ctxDone, p), 2 := Caller(0, second, [], false, q)]
  }

  /** The state at each stage of the garbling run. */
  function Stage(callers: map<RequestId, Caller>, writer: Option<RequestId>, bytes: seq<byte>, log: seq<WriteEvent>): State {
    State(Slot(Some(0), map[1 := 0, 2 := 0]), callers, map[], map[], multiset{},
          if writer.None? then 1 else 0, writer, map[0 := bytes], map[0 := log])
  }

  lemma RegisterTwo(first: Line, second: Line) returns (steps: seq<Step>)
    ensures AllEnabled(INIT, steps)
    ensures Follow(INIT, steps) == Stage(TwoCommands(first, second, WantGate(false), false, WantGate(false)), None, [], [])
  {
    steps := [];
    Extend(INIT, steps, Step.Attach(0));
    steps := steps + [Step.Attach(0)];
    Extend(INIT, steps, Step.Register(1, first, []));
    steps := steps + [Step.Register(1, first, [])];
    Extend(INIT, steps, Step.Register(2, second, []));
    steps := steps + [Step.Register(2, second, [])];
  }

  lemma WriteOneByte(s: State, first: Line, second: Line) returns (steps: seq<Step>)
    requires s == Stage(TwoCommands(first, second, WantGate(false), false, WantGate(false)), None, [], [])
    requires first != [] && Fits(first)
    ensures AllEnabled(s, steps)
    ensures Follow(s, steps) == Stage(
              TwoCommands(first, second, Writing(false, Frame(first)[1..]), false, WantGate(false)), Some(1), first[..1], [])
  {
    steps := [];
    Extend(s, steps, AcquireGate(1));
    steps := steps + [AcquireGate(1)];
    Extend(s, steps, WriteChunk(1, 1));
    steps := steps + [WriteChunk(1, 1)];
    assert [] + Frame(first)[..1] == first[..1];
  }

  lemma CutShort(s: State, first: Line, second: Line) returns (steps: seq<Step>)
    requires first != []
    requires s == Stage(
               TwoCommands(first, second, Writing(false, Frame(first)[1..]), false, WantGate(false)), Some(1), first[..1], [])
    ensures AllEnabled(s, steps)
    ensures Follow(s, steps) == Stage(
              TwoCommands(first, second, Failed, true, WantGate(false)), None, first[..1],
              [WriteEvent(1, false, first, 1)])
  {
    steps := [];
    Extend(s, steps, CtxDone(1));
    steps := steps + [CtxDone(1)];
    assert |Frame(first)[1..]| == |first|;
    assert [] + [WriteEvent(1, false, first, 1)] == [WriteEvent(1, false, first, 1)];
    Extend(s, steps, FailWrite(1));
    steps := steps + [FailWrite(1)];
  }

  lemma WriteWhole(s: State, first: Line, second: Line) returns (steps: seq<Step>)
    requires first != [] && Fits(second)
    requires s == Stage(
               TwoCommands(first, second, Failed, true, WantGate(false)), None, first[..1],
               [WriteEvent(1, false, first, 1)])
    ensures AllEnabled(s, steps)
    ensures Follow(s, steps) == Stage(
              TwoCommands(first, second, Failed, true, Waiting), None, first[..1] + Frame(second),
              [WriteEvent(1, false, first, 1), WriteEvent(2, false, second, |second| + 1)])
  {
    steps := [];
    Extend(s, steps, AcquireGate(2));
    steps := steps + [AcquireGate(2)];
    Extend(s, steps, WriteChunk(2, |second| + 1));
    steps := steps + [WriteChunk(2, |second| + 1)];
    assert Frame(second)[..|second| + 1] == Frame(second) && Frame(second)[|second| + 1..] == [];
    assert [WriteEvent(1, false, first, 1)] + [WriteEvent(2, false, second, |second| + 1)]
        == [WriteEvent(1, false, first, 1), WriteEvent(2, false, second, |second| + 1)];
    assert Follow(s, steps) == Stage(
        TwoCommands(first, second, Failed, true, Writing(false, [])), Some(2), first[..1] + Frame(second),
        [WriteEvent(1, false, first, 1)]);
    Extend(s, steps, FinishWrite(2));
    steps := steps + [FinishWrite(2)];
  }

  /**
   A context that ends inside a write stops the frame but keeps the connection. There is
   a run, for any two commands, in which the second command is read as part of a garbled
   line, while its caller waits for an answer on the connection that is still current.
   */
  lemma CancelledWriteGarbles(first: Line, second: Line) returns (steps: seq<Step>)
    requires first != [] && Fits(first) && Fits(second)
    ensures AllEnabled(INIT, steps)
    ensures var t := Follow(INIT, steps);
      && t.slot.conn == Some(0) && InPhase(t, 2, Waiting) && 0 in t.wire
      && ScanLines(t.wire[0]).lines == [first[..1] + second]
  {
    var a := RegisterTwo(first, second);
    var b := WriteOneByte(Follow(INIT, a), first, second);
    FollowThen(INIT, a, b);
    var c := CutShort(Follow(INIT, a + b), first, second);
    FollowThen(INIT, a + b, c);
    var d := WriteWhole(Follow(INIT, a + b + c), first, second);
    FollowThen(INIT, a + b + c, d);
    steps := a + b + c + d;
    ScanPlain([], first[..1]);
    assert [] + first[..1] == first[..1];
    ScanFrame(first[..1], second);
  }
}
