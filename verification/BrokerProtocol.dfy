/**
 The broker as a labelled step system. Every critical section, channel send, channel
 receive and conn.Write call of `Execute`, `serveConn`, `write`, `resolve`,
 `disconnect` and `failPending` is one step, so a run is any interleaving of any
 number of callers, connections and reply goroutines.
 */
module BrokerProtocol {
  import opened Prelude
  import opened BrokerSlot
  import opened BrokerFraming

  /** What a caller of Execute gets back. An answer remembers the connection it came in on. */
  datatype Outcome =
    | Answer(from: Conn, ok: bool, body: string)
    | Unavailable
    | ContextError

  /** Where one call of Execute stands. `cancel` tells the command's write from the cancel frame's. */
  datatype Phase =
    | WantGate(cancel: bool)
    | Writing(cancel: bool, rest: seq<byte>)
    | Waiting
    | Failed
    | Unregistered
    | Dropping
    | Cancelling
    | Done(outcome: Outcome)

  datatype Caller = Caller(conn: Conn, command: Line, cancelLine: Line, ctxDone: bool, phase: Phase)

  datatype State = State(
    slot: Slot<Conn>,                 // b.conn and b.pending; an entry names the connection it registered on
    callers: map<RequestId, Caller>,  // every call of Execute that got past the connection check
    owed: map<RequestId, Outcome>,    // what goroutines past their critical section still have to send
    box: map<RequestId, Outcome>,     // the filled capacity-1 result channels
    sends: multiset<RequestId>,       // history: how often each channel was sent on
    gate: nat,                        // tokens in the capacity-1 write gate
    writer: Option<RequestId>,        // history: the call of write that took the token last, until it gives it back
    wire: map<Conn, seq<byte>>,       // bytes written on each connection so far
    log: map<Conn, seq<WriteEvent>>)  // history: finished calls of write on each connection

  datatype Step =
    | Register(id: RequestId, command: Line, cancelLine: Line)
    | CtxDone(id: RequestId)
    | AcquireGate(id: RequestId)
    | GiveUpGate(id: RequestId)
    | WriteChunk(id: RequestId, n: nat)
    | FinishWrite(id: RequestId)
    | FailWrite(id: RequestId)
    | RemoveFailed(id: RequestId)
    | ConsultCtx(id: RequestId)
    | DropConn(id: RequestId)
    | SelectResult(id: RequestId)
    | SelectCancel(id: RequestId)
    | RemoveCancelled(id: RequestId)
    | Attach(c: Conn)
    | ReadEnd(c: Conn)
    | Reply(c: Conn, id: RequestId, ok: bool, body: string)
    | Deliver(id: RequestId)

  const INIT: State := State(EmptySlot(), map[], map[], map[], multiset{}, 1, None, map[], map[])

  function LineOf(k: Caller, cancel: bool): Line {
    if cancel then k.cancelLine else k.command
  }

  predicate InPhase(s: State, id: RequestId, p: Phase) {
    id in s.callers && s.callers[id].phase == p
  }

  predicate IsWriting(s: State, id: RequestId) {
    id in s.callers && s.callers[id].phase.Writing?
  }

  predicate WantsGate(s: State, id: RequestId) {
    id in s.callers && s.callers[id].phase.WantGate?
  }

  predicate Enabled(s: State, st: Step) {
    match st
    case Register(id, _, _) => s.slot.conn.Some? && s.slot.conn.value in s.wire && id !in s.callers
    case CtxDone(id) => id in s.callers
    case AcquireGate(id) => WantsGate(s, id) && s.gate > 0
    case GiveUpGate(id) => WantsGate(s, id) && (s.callers[id].phase.cancel || s.callers[id].ctxDone)
    case WriteChunk(id, n) =>
      && IsWriting(s, id)
      && Fits(LineOf(s.callers[id], s.callers[id].phase.cancel))
      && 0 < n <= |s.callers[id].phase.rest|
      && s.callers[id].conn in s.wire
    case FinishWrite(id) => IsWriting(s, id) && s.callers[id].phase.rest == [] && s.callers[id].conn in s.log
    case FailWrite(id) => IsWriting(s, id) && s.callers[id].conn in s.log
    case RemoveFailed(id) => InPhase(s, id, Failed)
    case ConsultCtx(id) => InPhase(s, id, Unregistered)
    case DropConn(id) => InPhase(s, id, Dropping)
    case SelectResult(id) => InPhase(s, id, Waiting) && id in s.box
    case SelectCancel(id) => InPhase(s, id, Waiting) && s.callers[id].ctxDone
    case RemoveCancelled(id) => InPhase(s, id, Cancelling)
    case Attach(c) => c !in s.wire
    case ReadEnd(c) => c in s.wire
    case Reply(c, _, _, _) => c in s.wire
    case Deliver(id) => id in s.owed && id !in s.box
  }

  function SetPhase(s: State, id: RequestId, p: Phase): State
    requires id in s.callers
  {
    s.(callers := s.callers[id := s.callers[id].(phase := p)])
  }

  /** The write of `id` ends with `cut` bytes on the wire, and the gate token goes back. */
  function EndWrite(s: State, id: RequestId, cut: nat, p: Phase): State
    requires IsWriting(s, id) && s.callers[id].conn in s.log
  {
    var k := s.callers[id];
    var ev := WriteEvent(id, k.phase.cancel, LineOf(k, k.phase.cancel), cut);
    SetPhase(s, id, p).(gate := s.gate + 1, writer := None, log := s.log[k.conn := s.log[k.conn] + [ev]])
  }

  /** Where a caller goes when its write did not happen or did not finish. */
  function AfterFailure(cancel: bool): Phase {
    if cancel then Done(ContextError) else Failed
  }

  /** A critical section hands the channels it took to the goroutine that will send on them. */
  function Owe(s: State, taken: map<RequestId, Conn>, outcome: Outcome): State {
    s.(owed := s.owed + map id | id in taken :: outcome)
  }

  /** disconnect(c): only the current connection empties the slot and fails its requests. */
  function Disconnect(s: State, c: Conn): State {
    if s.slot.conn != Some(c) then s
    else Owe(s.(slot := Detach(s.slot, c)), s.slot.pending, Unavailable)
  }

  function Next(s: State, st: Step): State
    requires Enabled(s, st)
  {
    match st
    case Register(id, command, cancelLine) =>
      var c := s.slot.conn.value;
      s.(slot := BrokerSlot.Register(s.slot, id, c),
         callers := s.callers[id := Caller(c, command, cancelLine, false, WantGate(false))])
    case CtxDone(id) => s.(callers := s.callers[id := s.callers[id].(ctxDone := true)])
    case AcquireGate(id) =>
      var k := s.callers[id];
      SetPhase(s, id, Writing(k.phase.cancel, Frame(LineOf(k, k.phase.cancel)))).(gate := s.gate - 1, writer := Some(id))
    case GiveUpGate(id) => SetPhase(s, id, AfterFailure(s.callers[id].phase.cancel))
    case WriteChunk(id, n) =>
      var k := s.callers[id];
      var rest := k.phase.rest;
      SetPhase(s, id, Writing(k.phase.cancel, rest[n..])).(wire := s.wire[k.conn := s.wire[k.conn] + rest[..n]])
    case FinishWrite(id) =>
      var k := s.callers[id];
      EndWrite(s, id, |LineOf(k, k.phase.cancel)| + 1, if k.phase.cancel then Done(ContextError) else Waiting)
    case FailWrite(id) =>
      var k := s.callers[id];
      var size := |LineOf(k, k.phase.cancel)| + 1;
      EndWrite(s, id, if |k.phase.rest| <= size then size - |k.phase.rest| else 0, AfterFailure(k.phase.cancel))
    case RemoveFailed(id) => SetPhase(s, id, Unregistered).(slot := Remove(s.slot, id))
    case ConsultCtx(id) => SetPhase(s, id, if s.callers[id].ctxDone then Done(ContextError) else Dropping)
    case DropConn(id) => Disconnect(SetPhase(s, id, Done(Unavailable)), s.callers[id].conn)
    case SelectResult(id) => SetPhase(s, id, Done(s.box[id])).(box := s.box - {id})
    case SelectCancel(id) => SetPhase(s, id, Cancelling)
    case RemoveCancelled(id) => SetPhase(s, id, WantGate(true)).(slot := Remove(s.slot, id))
    case Attach(c) =>
      Owe(s.(slot := BrokerSlot.Attach(s.slot, c), wire := s.wire[c := []], log := s.log[c := []]),
          s.slot.pending, Unavailable)
    case ReadEnd(c) => Disconnect(s, c)
    case Reply(c, id, ok, body) =>
      if id !in s.slot.pending then s
      else Owe(s.(slot := Remove(s.slot, id)), map[id := s.slot.pending[id]], Answer(c, ok, body))
    case Deliver(id) =>
      s.(owed := s.owed - {id}, box := s.box[id := s.owed[id]], sends := s.sends + multiset{id})
  }

  /** A run: states joined by enabled steps, from the broker New returns. */
  ghost predicate IsRun(states: seq<State>, steps: seq<Step>) {
    && |states| == |steps| + 1
    && states[0] == INIT
    && forall i :: 0 <= i < |steps| ==> Enabled(states[i], steps[i]) && states[i + 1] == Next(states[i], steps[i])
  }

  /** The ids whose complete command frame is on a log. */
  function CommandsOn(log: seq<WriteEvent>): set<RequestId> {
    if log == [] then {}
    else
      var ev := log[|log| - 1];
      CommandsOn(log[..|log| - 1]) + (if !ev.cancel && Complete(ev) then {ev.id} else {})
  }

  /** The complete command frame of `id` was written on connection c. */
  predicate CommandSent(s: State, c: Conn, id: RequestId) {
    c in s.log && id in CommandsOn(s.log[c])
  }

  /** The last byte of the command of `id` is on connection c, and its write has not returned yet. */
  predicate CommandArriving(s: State, c: Conn, id: RequestId) {
    InPhase(s, id, Writing(false, [])) && s.callers[id].conn == c
  }

  /** The runtime answers only ids whose whole command it was sent: the assumption behind provenance. */
  predicate HonestStep(s: State, st: Step) {
    st.Reply? ==> CommandSent(s, st.c, st.id) || CommandArriving(s, st.c, st.id)
  }
}
