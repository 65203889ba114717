/** What every step of the broker keeps, whatever the interleaving. */
module BrokerInvariant {
  import opened Prelude
  import opened BrokerSlot
  import opened BrokerFraming
  import opened BrokerProtocol

  /** Phases in which the caller's own entry may still be in the pending table. */
  predicate MayBePending(p: Phase) {
    Expecting(p) || p.Failed? || p.Cancelling?
  }

  /** Phases in which the caller is going to read its result channel. */
  predicate Expecting(p: Phase) {
    p == WantGate(false) || (p.Writing? && !p.cancel) || p.Waiting?
  }

  /** Every pending entry was registered on the connection that is current now. */
  ghost predicate SlotInv(s: State) {
    && s.wire.Keys == s.log.Keys
    && (s.slot.conn.Some? ==> s.slot.conn.value in s.wire)
    && (forall id <- s.callers :: s.callers[id].conn in s.wire)
    && (forall id <- s.slot.pending ::
          && s.slot.conn == Some(s.slot.pending[id])
          && id in s.callers
          && s.callers[id].conn == s.slot.pending[id]
          && MayBePending(s.callers[id].phase))
  }

  /** A result channel is pending, owed a value, or already sent on: never two of these. */
  ghost predicate PlaceInv(s: State) {
    && (forall id <- s.slot.pending :: id in s.callers && id !in s.owed && id !in s.sends)
    && (forall id <- s.owed :: id in s.callers && id !in s.sends)
    && (forall id <- s.box :: id in s.sends)
    && (forall id <- s.sends :: id in s.callers && s.sends[id] == 1)
    && (forall id <- s.callers :: Expecting(s.callers[id].phase) ==> id in s.slot.pending || id in s.owed || id in s.box)
  }

  /** The gate token is either in the channel or with the one call of write in progress. */
  ghost predicate GateInv(s: State) {
    && s.gate == (if s.writer.None? then 1 else 0)
    && (s.writer.Some? ==> IsWriting(s, s.writer.value))
    && (forall id <- s.callers :: IsWriting(s, id) ==> s.writer == Some(id))
  }

  /** How much of its frame a write in progress has put on the wire. */
  function Progress(k: Caller): seq<byte>
    requires k.phase.Writing?
  {
    var frame := Frame(LineOf(k, k.phase.cancel));
    if |k.phase.rest| <= |frame| then frame[..|frame| - |k.phase.rest|] else []
  }

  ghost predicate WriterInv(k: Caller)
    requires k.phase.Writing?
  {
    var frame := Frame(LineOf(k, k.phase.cancel));
    && |k.phase.rest| <= |frame|
    && k.phase.rest == frame[|frame| - |k.phase.rest|..]
    && (|k.phase.rest| < |frame| ==> Fits(LineOf(k, k.phase.cancel)))
  }

  /** The bytes of a frame that is being written on c right now. */
  function Unfinished(s: State, c: Conn): seq<byte> {
    if s.writer.Some? && IsWriting(s, s.writer.value) && s.callers[s.writer.value].conn == c
    then Progress(s.callers[s.writer.value])
    else []
  }

  /** A connection's bytes are its finished writes, then what the write in progress has sent. */
  ghost predicate WireInv(s: State) {
    && (s.writer.Some? && IsWriting(s, s.writer.value) ==> WriterInv(s.callers[s.writer.value]))
    && (forall c <- s.wire :: c in s.log && s.wire[c] == Bytes(s.log[c]) + Unfinished(s, c))
  }

  predicate AfterCommand(p: Phase) {
    p.Waiting? || p.Cancelling? || p == WantGate(true) || (p.Writing? && p.cancel)
  }

  /** Every write kept to the frame limit, and a cancel frame follows its own complete command frame. */
  ghost predicate GoodLog(log: seq<WriteEvent>) {
    log == [] ||
    var ev := log[|log| - 1];
    var before := log[..|log| - 1];
    && GoodLog(before)
    && WellFormed(ev)
    && (ev.cancel ==> ev.id in CommandsOn(before))
  }

  ghost predicate OrderInv(s: State) {
    && (forall id <- s.callers :: AfterCommand(s.callers[id].phase) ==> CommandSent(s, s.callers[id].conn, id))
    && (forall c <- s.log :: GoodLog(s.log[c]))
    && (forall c <- s.log, id <- CommandsOn(s.log[c]) :: id in s.callers && s.callers[id].conn == c)
  }

  ghost predicate Inv(s: State) {
    SlotInv(s) && PlaceInv(s) && GateInv(s) && WireInv(s) && OrderInv(s)
  }

  // The steps, by the part of the state they touch.

  /** One caller moves on its own. */
  predicate IsCallerStep(st: Step) {
    st.CtxDone? || st.GiveUpGate? || st.ConsultCtx? || st.SelectCancel?
  }

  /** A step inside write: the gate, the wire and its log. */
  predicate IsWriteStep(st: Step) {
    st.AcquireGate? || st.WriteChunk? || st.FinishWrite? || st.FailWrite?
  }

  /** A critical section that takes every entry. */
  predicate IsTakeStep(st: Step) {
    st.DropConn? || st.Attach? || st.ReadEnd?
  }

  // Frames: what a step may change without disturbing each part of the invariant.

  ghost predicate SameCallers(s: State, t: State) {
    && s.callers.Keys <= t.callers.Keys
    && (forall id <- s.callers :: t.callers[id].conn == s.callers[id].conn)
  }

  lemma PlaceFrame(s: State, t: State)
    requires PlaceInv(s) && SameCallers(s, t)
    requires t.slot == s.slot && t.owed == s.owed && t.box == s.box && t.sends == s.sends
    requires forall id <- t.callers :: Expecting(t.callers[id].phase) ==> id in s.callers && Expecting(s.callers[id].phase)
    ensures PlaceInv(t)
  {
  }

  lemma SlotFrame(s: State, t: State)
    requires SlotInv(s) && SameCallers(s, t) && t.callers.Keys == s.callers.Keys
    requires t.wire.Keys == s.wire.Keys == t.log.Keys
    requires t.slot.conn == s.slot.conn
    requires forall id <- t.slot.pending :: id in s.slot.pending && t.slot.pending[id] == s.slot.pending[id]
    requires forall id <- t.slot.pending :: id in s.callers && (MayBePending(s.callers[id].phase) ==> MayBePending(t.callers[id].phase))
    ensures SlotInv(t)
  {
  }

  lemma WireFrame(s: State, t: State)
    requires WireInv(s) && GateInv(s)
    requires t.wire == s.wire && t.log == s.log && t.writer == s.writer
    requires s.writer.Some? ==>
      && s.writer.value in t.callers
      && t.callers[s.writer.value] == s.callers[s.writer.value].(ctxDone := t.callers[s.writer.value].ctxDone)
    ensures WireInv(t)
  {
    forall c | c in t.wire
      ensures Unfinished(t, c) == Unfinished(s, c)
    {
    }
  }

  lemma OrderFrame(s: State, t: State)
    requires OrderInv(s) && SameCallers(s, t)
    requires t.log == s.log
    requires forall id <- t.callers :: AfterCommand(t.callers[id].phase) ==> id in s.callers && AfterCommand(s.callers[id].phase)
    ensures OrderInv(t)
  {
  }

  /** s with one caller's phase (and perhaps its context) changed. */
  function Moved(s: State, id: RequestId, ctxDone: bool, p: Phase): State
    requires id in s.callers
  {
    s.(callers := s.callers[id := s.callers[id].(ctxDone := ctxDone, phase := p)])
  }

  lemma MoveKeepsTables(s: State, id: RequestId, ctxDone: bool, p: Phase)
    requires SlotInv(s) && PlaceInv(s) && id in s.callers
    requires Expecting(p) ==> Expecting(s.callers[id].phase)
    requires id in s.slot.pending ==> MayBePending(p)
    ensures SlotInv(Moved(s, id, ctxDone, p)) && PlaceInv(Moved(s, id, ctxDone, p))
  {
    hide PlaceInv;
    SlotFrame(s, Moved(s, id, ctxDone, p));
    PlaceFrame(s, Moved(s, id, ctxDone, p));
  }

  lemma MoveKeepsWire(s: State, id: RequestId, ctxDone: bool, p: Phase)
    requires GateInv(s) && WireInv(s) && OrderInv(s) && id in s.callers
    requires p == s.callers[id].phase || (!p.Writing? && !s.callers[id].phase.Writing?)
    requires AfterCommand(p) ==> AfterCommand(s.callers[id].phase)
    ensures GateInv(Moved(s, id, ctxDone, p)) && WireInv(Moved(s, id, ctxDone, p)) && OrderInv(Moved(s, id, ctxDone, p))
  {
    hide WireInv, OrderInv;
    WireFrame(s, Moved(s, id, ctxDone, p));
    OrderFrame(s, Moved(s, id, ctxDone, p));
  }

  lemma PhaseKnown(s: State, id: RequestId)
    requires SlotInv(s) && id in s.slot.pending
    ensures id in s.callers && MayBePending(s.callers[id].phase)
  {
  }

  lemma CallerStepKeeps(s: State, st: Step)
    requires Inv(s) && Enabled(s, st) && IsCallerStep(st)
    ensures Inv(Next(s, st))
  {
    hide SlotInv, PlaceInv, GateInv, WireInv, OrderInv;
    if st.id in s.slot.pending {
      PhaseKnown(s, st.id);
    }
    var t := Next(s, st);
    MoveKeepsTables(s, st.id, t.callers[st.id].ctxDone, t.callers[st.id].phase);
    MoveKeepsWire(s, st.id, t.callers[st.id].ctxDone, t.callers[st.id].phase);
  }

  // Steps that move entries between the table, the goroutines and the channels.

  /** t differs from s in nothing the gate, the wire or the order of frames depends on. */
  ghost predicate OffWire(s: State, t: State) {
    && t.wire == s.wire && t.log == s.log && t.gate == s.gate && t.writer == s.writer
    && SameCallers(s, t)
    && (forall id <- s.callers :: s.callers[id].phase.Writing? ==> t.callers[id] == s.callers[id])
    && (forall id <- t.callers :: t.callers[id].phase.Writing? ==> id in s.callers && t.callers[id] == s.callers[id])
    && (forall id <- t.callers :: AfterCommand(t.callers[id].phase) ==> id in s.callers && AfterCommand(s.callers[id].phase))
  }

  lemma OffWireKeeps(s: State, t: State)
    requires GateInv(s) && WireInv(s) && OrderInv(s) && OffWire(s, t)
    ensures GateInv(t) && WireInv(t) && OrderInv(t)
  {
    hide WireInv, OrderInv;
    WireFrame(s, t);
    OrderFrame(s, t);
  }

  lemma RemoveKeepsTables(s: State, id: RequestId, p: Phase)
    requires SlotInv(s) && PlaceInv(s) && id in s.callers && !Expecting(p)
    ensures SlotInv(SetPhase(s, id, p).(slot := Remove(s.slot, id)))
    ensures PlaceInv(SetPhase(s, id, p).(slot := Remove(s.slot, id)))
  {
  }

  lemma EmptyBoxKeepsTables(s: State, id: RequestId)
    requires SlotInv(s) && PlaceInv(s) && id in s.callers && !Expecting(s.callers[id].phase)
    ensures SlotInv(s.(box := s.box - {id})) && PlaceInv(s.(box := s.box - {id}))
  {
  }

  lemma BoxedIsNotPending(s: State, id: RequestId)
    requires PlaceInv(s) && id in s.box
    ensures id !in s.slot.pending
  {
  }

  lemma SelectResultKeepsTables(s: State, id: RequestId)
    requires SlotInv(s) && PlaceInv(s) && Enabled(s, SelectResult(id))
    ensures SlotInv(Next(s, SelectResult(id))) && PlaceInv(Next(s, SelectResult(id)))
  {
    hide SlotInv, PlaceInv;
    BoxedIsNotPending(s, id);
    var k := s.callers[id];
    MoveKeepsTables(s, id, k.ctxDone, Done(s.box[id]));
    EmptyBoxKeepsTables(Moved(s, id, k.ctxDone, Done(s.box[id])), id);
  }

  lemma DeliverKeepsTables(s: State, id: RequestId)
    requires SlotInv(s) && PlaceInv(s) && Enabled(s, Deliver(id))
    ensures SlotInv(Next(s, Deliver(id))) && PlaceInv(Next(s, Deliver(id)))
  {
  }

  lemma ReplyKeepsTables(s: State, c: Conn, id: RequestId, ok: bool, body: string)
    requires SlotInv(s) && PlaceInv(s) && Enabled(s, Reply(c, id, ok, body))
    ensures SlotInv(Next(s, Reply(c, id, ok, body))) && PlaceInv(Next(s, Reply(c, id, ok, body)))
  {
  }

  lemma RegisterKeepsTables(s: State, id: RequestId, command: Line, cancelLine: Line)
    requires SlotInv(s) && PlaceInv(s)
    requires Enabled(s, Step.Register(id, command, cancelLine))
    ensures SlotInv(Next(s, Step.Register(id, command, cancelLine)))
    ensures PlaceInv(Next(s, Step.Register(id, command, cancelLine)))
  {
  }

  lemma DisconnectKeepsTables(s: State, c: Conn)
    requires SlotInv(s) && PlaceInv(s)
    ensures SlotInv(Disconnect(s, c)) && PlaceInv(Disconnect(s, c))
  {
  }

  lemma AttachKeepsTables(s: State, c: Conn)
    requires SlotInv(s) && PlaceInv(s) && Enabled(s, Step.Attach(c))
    ensures SlotInv(Next(s, Step.Attach(c))) && PlaceInv(Next(s, Step.Attach(c)))
  {
  }

  lemma AttachKeepsWire(s: State, c: Conn)
    requires GateInv(s) && WireInv(s) && SlotInv(s) && Enabled(s, Step.Attach(c))
    ensures GateInv(Next(s, Step.Attach(c))) && WireInv(Next(s, Step.Attach(c)))
  {
    var t := Next(s, Step.Attach(c));
    forall d | d in t.wire
      ensures Unfinished(t, d) == if d == c then [] else Unfinished(s, d)
    {
    }
  }

  lemma AttachKeepsOrder(s: State, c: Conn)
    requires OrderInv(s) && SlotInv(s) && Enabled(s, Step.Attach(c))
    ensures OrderInv(Next(s, Step.Attach(c)))
  {
    assert GoodLog([]) && CommandsOn([]) == {};
    hide GoodLog, CommandsOn, AfterCommand, Owe;
    var t := Next(s, Step.Attach(c));
    assert t.callers == s.callers && t.log == s.log[c := []];
    hide Next, Enabled;
  }

  // Steps inside write.

  lemma WriteStepFrame(s: State, st: Step)
    requires Enabled(s, st) && IsWriteStep(st)
    ensures SameCallers(s, Next(s, st)) && Next(s, st).callers.Keys == s.callers.Keys
    ensures s.wire.Keys == s.log.Keys ==> Next(s, st).wire.Keys == Next(s, st).log.Keys == s.wire.Keys
    ensures Next(s, st).slot == s.slot
    ensures forall id <- s.callers :: MayBePending(s.callers[id].phase) ==> MayBePending(Next(s, st).callers[id].phase)
  {
  }

  lemma WriteStepKeepsSlot(s: State, st: Step)
    requires SlotInv(s) && Enabled(s, st) && IsWriteStep(st)
    ensures SlotInv(Next(s, st))
  {
    WriteStepFrame(s, st);
    hide Next, Enabled;
    SlotFrame(s, Next(s, st));
  }

  lemma WriteStepKeepsPlace(s: State, st: Step)
    requires PlaceInv(s) && Enabled(s, st) && IsWriteStep(st)
    ensures PlaceInv(Next(s, st))
  {
    hide PlaceInv;
    PlaceFrame(s, Next(s, st));
  }

  lemma WriteStepKeepsGate(s: State, st: Step)
    requires GateInv(s) && Enabled(s, st) && IsWriteStep(st)
    ensures GateInv(Next(s, st))
  {
  }

  lemma StartedKeepsOrder(s: State, st: Step)
    requires OrderInv(s) && Enabled(s, st) && (st.AcquireGate? || st.WriteChunk?)
    ensures OrderInv(Next(s, st))
  {
    hide OrderInv;
    OrderFrame(s, Next(s, st));
  }

  lemma AcquireKeepsWire(s: State, id: RequestId)
    requires GateInv(s) && WireInv(s) && Enabled(s, AcquireGate(id))
    ensures WireInv(Next(s, AcquireGate(id)))
  {
    var t := Next(s, AcquireGate(id));
    assert forall c <- s.wire :: Unfinished(s, c) == Unfinished(t, c) == [];
  }

  /** s after one conn.Write call of caller id put `bytes` on the wire. */
  function Wrote(s: State, id: RequestId, p: Phase, bytes: seq<byte>): State
    requires id in s.callers && s.callers[id].conn in s.wire
  {
    var c := s.callers[id].conn;
    SetPhase(s, id, p).(wire := s.wire[c := s.wire[c] + bytes])
  }

  lemma WroteKeepsWire(s: State, id: RequestId, p: Phase, bytes: seq<byte>)
    requires WireInv(s) && s.writer == Some(id) && IsWriting(s, id) && p.Writing? && s.callers[id].conn in s.wire
    requires WriterInv(s.callers[id].(phase := p))
    requires Progress(s.callers[id].(phase := p)) == Progress(s.callers[id]) + bytes
    ensures WireInv(Wrote(s, id, p, bytes))
  {
    hide Progress, WriterInv, Bytes;
    var t := Wrote(s, id, p, bytes);
    forall c | c in t.wire
      ensures c in t.log && t.wire[c] == Bytes(t.log[c]) + Unfinished(t, c)
    {
      UnfinishedGrows(s, id, p, bytes, c);
      assert s.wire[c] == Bytes(s.log[c]) + Unfinished(s, c);
      hide Unfinished;
    }
  }

  lemma UnfinishedGrows(s: State, id: RequestId, p: Phase, bytes: seq<byte>, c: Conn)
    requires s.writer == Some(id) && IsWriting(s, id) && p.Writing? && s.callers[id].conn in s.wire
    requires Progress(s.callers[id].(phase := p)) == Progress(s.callers[id]) + bytes
    ensures Unfinished(Wrote(s, id, p, bytes), c) == Unfinished(s, c) + if c == s.callers[id].conn then bytes else []
  {
    hide Progress;
  }

  lemma WriterIs(s: State, id: RequestId)
    requires GateInv(s) && WireInv(s) && IsWriting(s, id)
    ensures s.writer == Some(id) && WriterInv(s.callers[id])
  {
  }

  lemma ChunkKeepsWire(s: State, id: RequestId, n: nat)
    requires GateInv(s) && WireInv(s) && Enabled(s, WriteChunk(id, n))
    ensures WireInv(Next(s, WriteChunk(id, n)))
  {
    hide GateInv, WireInv;
    WriterIs(s, id);
    var k := s.callers[id];
    ProgressGrows(k, n);
    WroteKeepsWire(s, id, Writing(k.phase.cancel, k.phase.rest[n..]), k.phase.rest[..n]);
  }

  lemma ProgressGrows(k: Caller, n: nat)
    requires k.phase.Writing? && WriterInv(k) && n <= |k.phase.rest|
    requires Fits(LineOf(k, k.phase.cancel))
    ensures WriterInv(k.(phase := Writing(k.phase.cancel, k.phase.rest[n..])))
    ensures Progress(k.(phase := Writing(k.phase.cancel, k.phase.rest[n..]))) == Progress(k) + k.phase.rest[..n]
  {
  }

  /** Finishing or abandoning a write logs exactly the bytes it put on the wire. */
  lemma EndLogsProgress(k: Caller, ev: WriteEvent)
    requires k.phase.Writing? && WriterInv(k)
    requires ev.line == LineOf(k, k.phase.cancel) && ev.cut == |Frame(ev.line)| - |k.phase.rest|
    ensures WellFormed(ev) && EventBytes(ev) == Progress(k)
    ensures Complete(ev) <==> k.phase.rest == []
  {
  }

  lemma LogAppend(log: seq<WriteEvent>, ev: WriteEvent)
    requires GoodLog(log) && WellFormed(ev) && (ev.cancel ==> ev.id in CommandsOn(log))
    ensures GoodLog(log + [ev])
    ensures Bytes(log + [ev]) == Bytes(log) + EventBytes(ev)
    ensures CommandsOn(log + [ev]) == CommandsOn(log) + if !ev.cancel && Complete(ev) then {ev.id} else {}
  {
    assert (log + [ev])[..|log|] == log;
  }

  lemma EndKeepsWire(s: State, id: RequestId, cut: nat, p: Phase)
    requires GateInv(s) && WireInv(s) && IsWriting(s, id) && s.callers[id].conn in s.log && s.callers[id].conn in s.wire
    requires cut == |Frame(LineOf(s.callers[id], s.callers[id].phase.cancel))| - |s.callers[id].phase.rest|
    requires !p.Writing?
    ensures WireInv(EndWrite(s, id, cut, p))
  {
    var k := s.callers[id];
    var t := EndWrite(s, id, cut, p);
    var ev := WriteEvent(id, k.phase.cancel, LineOf(k, k.phase.cancel), cut);
    EndLogsProgress(k, ev);
    BytesAppend(s.log[k.conn], ev);
    assert Unfinished(s, k.conn) == Progress(k);
    assert forall c <- s.wire :: Unfinished(t, c) == [];
    assert forall c <- s.wire :: c != k.conn ==> Unfinished(s, c) == [];
  }

  lemma EndKeepsOrder(s: State, id: RequestId, cut: nat, p: Phase)
    requires OrderInv(s) && IsWriting(s, id) && WriterInv(s.callers[id]) && s.callers[id].conn in s.log
    requires cut == |Frame(LineOf(s.callers[id], s.callers[id].phase.cancel))| - |s.callers[id].phase.rest|
    requires AfterCommand(p) ==> s.callers[id].phase == Writing(false, [])
    ensures OrderInv(EndWrite(s, id, cut, p))
  {
    var k := s.callers[id];
    var t := EndWrite(s, id, cut, p);
    var ev := WriteEvent(id, k.phase.cancel, LineOf(k, k.phase.cancel), cut);
    EndLogsProgress(k, ev);
    LogAppend(s.log[k.conn], ev);
    assert forall c <- s.log :: CommandsOn(s.log[c]) <= CommandsOn(t.log[c]);
  }

  // One lemma a step, with the parts of the invariant taken as wholes.

  lemma RegisterKeeps(s: State, st: Step)
    requires Inv(s) && Enabled(s, st) && st.Register?
    ensures Inv(Next(s, st))
  {
    hide SlotInv, PlaceInv, GateInv, WireInv, OrderInv;
    RegisterKeepsTables(s, st.id, st.command, st.cancelLine);
    OffWireKeeps(s, Next(s, st));
  }

  lemma RemoveFailedKeeps(s: State, st: Step)
    requires Inv(s) && Enabled(s, st) && st.RemoveFailed?
    ensures Inv(Next(s, st))
  {
    hide SlotInv, PlaceInv, GateInv, WireInv, OrderInv;
    RemoveKeepsTables(s, st.id, Unregistered);
    var t := Next(s, st);
    assert OffWire(s, t) && t == SetPhase(s, st.id, Unregistered).(slot := Remove(s.slot, st.id));
    hide Next, Enabled, OffWire, SetPhase;
    OffWireKeeps(s, t);
  }

  lemma RemoveCancelledKeeps(s: State, st: Step)
    requires Inv(s) && Enabled(s, st) && st.RemoveCancelled?
    ensures Inv(Next(s, st))
  {
    hide SlotInv, PlaceInv, GateInv, WireInv, OrderInv;
    RemoveKeepsTables(s, st.id, WantGate(true));
    OffWireKeeps(s, Next(s, st));
  }

  lemma ChannelStepKeeps(s: State, st: Step)
    requires Inv(s) && Enabled(s, st) && (st.SelectResult? || st.Deliver?)
    ensures Inv(Next(s, st))
  {
    hide SlotInv, PlaceInv, GateInv, WireInv, OrderInv;
    if st.SelectResult? {
      SelectResultKeepsTables(s, st.id);
    } else {
      DeliverKeepsTables(s, st.id);
    }
    OffWireKeeps(s, Next(s, st));
  }

  lemma ReplyKeeps(s: State, st: Step)
    requires Inv(s) && Enabled(s, st) && st.Reply?
    ensures Inv(Next(s, st))
  {
    hide SlotInv, PlaceInv, GateInv, WireInv, OrderInv;
    ReplyKeepsTables(s, st.c, st.id, st.ok, st.body);
    OffWireKeeps(s, Next(s, st));
  }

  lemma DisconnectKeeps(s: State, c: Conn)
    requires Inv(s)
    ensures Inv(Disconnect(s, c))
  {
    hide SlotInv, PlaceInv, GateInv, WireInv, OrderInv;
    DisconnectKeepsTables(s, c);
    OffWireKeeps(s, Disconnect(s, c));
  }

  lemma DisconnectStepKeeps(s: State, st: Step)
    requires Inv(s) && Enabled(s, st) && (st.DropConn? || st.ReadEnd?)
    ensures Inv(Next(s, st))
  {
    hide SlotInv, PlaceInv, GateInv, WireInv, OrderInv;
    if st.DropConn? {
      if st.id in s.slot.pending {
        PhaseKnown(s, st.id);
      }
      MoveKeepsTables(s, st.id, s.callers[st.id].ctxDone, Done(Unavailable));
      MoveKeepsWire(s, st.id, s.callers[st.id].ctxDone, Done(Unavailable));
      DisconnectKeeps(SetPhase(s, st.id, Done(Unavailable)), s.callers[st.id].conn);
    } else {
      DisconnectKeeps(s, st.c);
    }
  }

  lemma AttachKeeps(s: State, st: Step)
    requires Inv(s) && Enabled(s, st) && st.Attach?
    ensures Inv(Next(s, st))
  {
    hide SlotInv, PlaceInv, GateInv, WireInv, OrderInv;
    AttachKeepsTables(s, st.c);
    AttachKeepsWire(s, st.c);
    AttachKeepsOrder(s, st.c);
  }

  lemma StartedWriteKeeps(s: State, st: Step)
    requires Inv(s) && Enabled(s, st) && (st.AcquireGate? || st.WriteChunk?)
    ensures Inv(Next(s, st))
  {
    hide SlotInv, PlaceInv, GateInv, WireInv, OrderInv;
    WriteStepKeepsSlot(s, st);
    WriteStepKeepsPlace(s, st);
    WriteStepKeepsGate(s, st);
    StartedKeepsOrder(s, st);
    if st.AcquireGate? {
      AcquireKeepsWire(s, st.id);
    } else {
      ChunkKeepsWire(s, st.id, st.n);
    }
  }

  lemma WriterKnown(s: State, id: RequestId)
    requires GateInv(s) && WireInv(s) && SlotInv(s) && IsWriting(s, id)
    ensures s.callers[id].conn in s.wire && WriterInv(s.callers[id])
  {
  }

  lemma EndedWriteKeeps(s: State, st: Step)
    requires Inv(s) && Enabled(s, st) && (st.FinishWrite? || st.FailWrite?)
    ensures Inv(Next(s, st))
  {
    hide SlotInv, PlaceInv, GateInv, WireInv, OrderInv;
    WriteStepKeepsSlot(s, st);
    WriteStepKeepsPlace(s, st);
    WriteStepKeepsGate(s, st);
    WriterKnown(s, st.id);
    var k := s.callers[st.id];
    var cut := |Frame(LineOf(k, k.phase.cancel))| - |k.phase.rest|;
    var p := Next(s, st).callers[st.id].phase;
    assert Next(s, st) == EndWrite(s, st.id, cut, p);
    EndKeepsWire(s, st.id, cut, p);
    EndKeepsOrder(s, st.id, cut, p);
  }

  /** Every step, from any state that satisfies the invariant, keeps all of it. */
  lemma StepKeeps(s: State, st: Step)
    requires Inv(s) && Enabled(s, st)
    ensures Inv(Next(s, st))
  {
    hide Inv, Enabled, Next;
    match st
    case Register(_, _, _) => RegisterKeeps(s, st);
    case CtxDone(_) => CallerStepKeeps(s, st);
    case GiveUpGate(_) => CallerStepKeeps(s, st);
    case ConsultCtx(_) => CallerStepKeeps(s, st);
    case SelectCancel(_) => CallerStepKeeps(s, st);
    case AcquireGate(_) => StartedWriteKeeps(s, st);
    case WriteChunk(_, _) => StartedWriteKeeps(s, st);
    case FinishWrite(_) => EndedWriteKeeps(s, st);
    case FailWrite(_) => EndedWriteKeeps(s, st);
    case RemoveFailed(_) => RemoveFailedKeeps(s, st);
    case RemoveCancelled(_) => RemoveCancelledKeeps(s, st);
    case SelectResult(_) => ChannelStepKeeps(s, st);
    case Deliver(_) => ChannelStepKeeps(s, st);
    case Reply(_, _, _, _) => ReplyKeeps(s, st);
    case DropConn(_) => DisconnectStepKeeps(s, st);
    case ReadEnd(_) => DisconnectStepKeeps(s, st);
    case Attach(_) => AttachKeeps(s, st);
  }

  lemma InitInv()
    ensures Inv(INIT)
  {
  }

  /** Every state of every run satisfies the invariant. */
  lemma {:induction false} RunInv(states: seq<State>, steps: seq<Step>, i: nat)
    requires IsRun(states, steps) && i < |states|
    ensures Inv(states[i])
  {
    if i == 0 {
      InitInv();
    } else {
      RunInv(states, steps, i - 1);
      hide Inv, Enabled, Next;
      assert Enabled(states[i - 1], steps[i - 1]) && states[i - 1 + 1] == Next(states[i - 1], steps[i - 1]);
      StepKeeps(states[i - 1], steps[i - 1]);
    }
  }
}
