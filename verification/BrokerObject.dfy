/**
 The broker as the mutable object it is: its fields, and the methods that change them,
 each proved against the critical sections of BrokerSlot and the frames of BrokerFraming.
 */
module BrokerObject {
  import opened Prelude
  import opened BrokerSlot
  import opened BrokerFraming
  import opened BrokerProtocol

  /** A result channel of capacity 1. */
  class Channel {
    var buf: seq<Outcome>

    constructor ()
      ensures buf == []
    {
      buf := [];
    }

    /** A send that would block is excluded; BrokerTheorems.SendNeverBlocks says none does. */
    method Send(v: Outcome)
      requires buf == []
      modifies this
      ensures buf == [v]
    {
      buf := [v];
    }
  }

  /** What one call of conn.Write does: how much it accepts at most, and whether it fails. */
  datatype WriteCall = WriteCall(accepts: nat, fails: bool)

  /** The bytes a connection has taken. */
  class Connection {
    var bytes: seq<byte>

    constructor ()
      ensures bytes == []
    {
      bytes := [];
    }

    method Write(data: seq<byte>, call: WriteCall) returns (written: nat, failed: bool)
      modifies this
      ensures written == (if call.accepts < |data| then call.accepts else |data|)
      ensures failed == call.fails
      ensures bytes == old(bytes) + data[..written]
    {
      written := if call.accepts < |data| then call.accepts else |data|;
      failed := call.fails;
      bytes := bytes + data[..written];
    }
  }

  /** How many of n bytes get out before the calls run dry, fail or stall, and whether all did. */
  datatype Sent = Sent(cut: nat, ok: bool)

  function SendThrough(calls: seq<WriteCall>, n: nat): (r: Sent)
    ensures r.cut <= n
    ensures r.ok ==> r.cut == n
  {
    if n == 0 then Sent(0, true)
    else if calls == [] then Sent(0, false)
    else
      var w := if calls[0].accepts < n then calls[0].accepts else n;
      if calls[0].fails || w == 0 then Sent(w, false)
      else
        var rest := SendThrough(calls[1..], n - w);
        Sent(w + rest.cut, rest.ok)
  }

  function Total(calls: seq<WriteCall>): nat {
    if calls == [] then 0 else calls[0].accepts + Total(calls[1..])
  }

  /** The first k calls all make headway without an error, and between them take n bytes. */
  predicate Suffice(calls: seq<WriteCall>, k: nat, n: nat) {
    && k <= |calls| && Total(calls[..k]) >= n
    && forall j :: 0 <= j < k ==> !calls[j].fails && calls[j].accepts > 0
  }

  lemma SufficeLater(calls: seq<WriteCall>, k: nat, n: nat)
    requires calls != [] && !calls[0].fails && calls[0].accepts > 0
    ensures Suffice(calls, k + 1, n) <==> Suffice(calls[1..], k, if calls[0].accepts < n then n - calls[0].accepts else 0)
  {
    if k + 1 <= |calls| {
      assert calls[..k + 1][1..] == calls[1..][..k];
      assert forall j :: 0 <= j < k ==> calls[1..][j] == calls[j + 1];
    }
  }

  /** The whole frame gets out if and only if enough calls succeed before any fails or stalls. */
  lemma {:induction false} SentWhole(calls: seq<WriteCall>, n: nat)
    ensures SendThrough(calls, n).ok <==> exists k: nat :: Suffice(calls, k, n)
    decreases |calls|
  {
    hide SendThrough;
    SentStep(calls, n);
    if n == 0 {
      assert Suffice(calls, 0, 0);
    } else if calls == [] || calls[0].fails || calls[0].accepts == 0 {
      forall k: nat
        ensures !Suffice(calls, k, n)
      {
        assert Total(calls[..0]) == 0;
      }
    } else {
      var rest := if calls[0].accepts < n then n - calls[0].accepts else 0;
      SentWhole(calls[1..], rest);
      if k: nat :| Suffice(calls[1..], k, rest) {
        SufficeLater(calls, k, n);
      }
      if k: nat :| Suffice(calls, k, n) {
        assert Total(calls[..0]) == 0;
        SufficeLater(calls, k - 1, n);
      }
    }
  }

  lemma SentStep(calls: seq<WriteCall>, n: nat)
    ensures n == 0 ==> SendThrough(calls, n).ok
    ensures n > 0 && (calls == [] || calls[0].fails || calls[0].accepts == 0) ==> !SendThrough(calls, n).ok
    ensures n > 0 && calls != [] && !calls[0].fails && calls[0].accepts > 0 ==>
      SendThrough(calls, n).ok == SendThrough(calls[1..], if calls[0].accepts < n then n - calls[0].accepts else 0).ok
  {
  }

  /** A later outcome, counted from `done` bytes on. */
  function Later(done: nat, r: Sent): Sent {
    Sent(done + r.cut, r.ok)
  }

  lemma PrefixGrows(before: seq<byte>, frame: seq<byte>, k: nat, w: nat)
    requires k + w <= |frame|
    ensures before + frame[..k] + frame[k..][..w] == before + frame[..k + w]
    ensures frame[k..][w..] == frame[k + w..]
  {
  }

  class Broker {
    var conn: Option<Conn>
    var connectedAt: Option<nat>
    var pending: map<RequestId, Channel>
    var gate: nat

    ghost predicate Valid()
      reads this, pending.Values
    {
      && (conn.Some? <==> connectedAt.Some?)
      && (conn.None? ==> pending == map[])
      && (forall id <- pending :: pending[id].buf == [])
      && (forall i, j :: i in pending && j in pending && pending[i] == pending[j] ==> i == j)
    }

    function View(): Slot<Channel>
      reads this
    {
      Slot(conn, pending)
    }

    constructor ()
      ensures Valid() && View() == EmptySlot() && gate == 1
    {
      conn := None;
      connectedAt := None;
      pending := map[];
      gate := 1;
    }

    method Status() returns (connected: bool, at: Option<nat>)
      requires Valid()
      ensures connected == conn.Some? && at == connectedAt
      ensures connected <==> at.Some?
    {
      connected, at := conn.Some?, connectedAt;
    }

    /** Execute's first critical section: None when no runtime is connected. */
    method StartRequest(id: RequestId, ch: Channel) returns (c: Option<Conn>)
      requires Valid() && id !in pending && ch.buf == [] && ch !in pending.Values
      modifies this`pending
      ensures Valid()
      ensures c == conn
      ensures View() == if c.Some? then BrokerSlot.Register(old(View()), id, ch) else old(View())
    {
      c := conn;
      if c.Some? {
        pending := pending[id := ch];
      }
    }

    /** failPending: one send to each taken channel, in whatever order the map yields them. */
    method FailPending(taken: map<RequestId, Channel>, err: Outcome)
      requires forall id <- taken :: taken[id].buf == []
      requires forall i, j :: i in taken && j in taken && taken[i] == taken[j] ==> i == j
      modifies taken.Values
      ensures forall id <- taken :: taken[id].buf == [err]
    {
      var todo := taken.Keys;
      while todo != {}
        invariant todo <= taken.Keys
        invariant forall id <- taken :: taken[id].buf == if id in todo then [] else [err]
        decreases todo
      {
        var id :| id in todo;
        taken[id].Send(err);
        todo := todo - {id};
      }
    }

    /** serveConn after a valid hello: the new connection replaces the old, whose requests fail. */
    method InstallConnection(c: Conn, now: nat)
      requires Valid()
      modifies this`conn, this`connectedAt, this`pending, pending.Values
      ensures Valid()
      ensures View() == BrokerSlot.Attach(old(View()), c) && connectedAt == Some(now)
      ensures forall id <- old(pending) :: old(pending)[id].buf == [Unavailable]
    {
      var taken := pending;
      conn, connectedAt, pending := Some(c), Some(now), map[];
      FailPending(taken, Unavailable);
    }

    /** disconnect: nothing at all unless c is the connection in the slot. */
    method Disconnect(c: Conn)
      requires Valid()
      modifies this`conn, this`connectedAt, this`pending, pending.Values
      ensures Valid()
      ensures View() == Detach(old(View()), c)
      ensures old(conn) != Some(c) ==> connectedAt == old(connectedAt)
      ensures forall id <- old(pending) ::
                old(pending)[id].buf == if old(conn) == Some(c) then [Unavailable] else []
    {
      if conn != Some(c) {
        return;
      }
      var taken := pending;
      conn, connectedAt, pending := None, None, map[];
      FailPending(taken, Unavailable);
    }

    /**
     resolve: what a result message carries goes to the channel that was pending under its
     id, if any: the result, or an empty object for none or null, when the message is ok; the
     error, or one of the broker's own for none, when it is not.
     */
    method Resolve(c: Conn, id: RequestId, ok: bool, result: Option<string>, error: Option<string>)
      requires Valid()
      modifies this`pending, pending.Values
      ensures Valid()
      ensures View() == Remove(old(View()), id)
      ensures forall k <- old(pending) :: k != id ==> old(pending)[k].buf == []
      ensures id in old(pending) ==>
        var buf := old(pending)[id].buf;
        && |buf| == 1 && buf[0].Answer? && buf[0].from == c && buf[0].ok == ok
        && (ok && result.Some? && result.value !in ["", "null"] ==> buf[0].body == result.value)
        && (ok && (result.None? || result.value in ["", "null"]) ==> buf[0].body == "{}")
        && (!ok && error.Some? ==> buf[0].body == error.value)
        && (!ok && error.None? ==> buf[0].body == "Browser command failed (BROWSER_COMMAND_FAILED)")
    {
      if id !in pending {
        pending := pending - {id};
        return;
      }
      var ch := pending[id];
      pending := pending - {id};
      if !ok {
        ch.Send(Answer(c, false, if error.Some? then error.value else "Browser command failed (BROWSER_COMMAND_FAILED)"));
        return;
      }
      var value := "{}";
      if result.Some? && result.value != "" && result.value != "null" {
        value := result.value;
      }
      ch.Send(Answer(c, true, value));
    }

    method RemovePending(id: RequestId)
      requires Valid()
      modifies this`pending
      ensures Valid()
      ensures View() == Remove(old(View()), id)
    {
      pending := pending - {id};
    }

    /**
     The loop of write: conn.Write on the shrinking rest of the frame until it is empty,
     a call fails, or a call accepts nothing.
     */
    method SendFrame(wire: Connection, frame: seq<byte>, calls: seq<WriteCall>) returns (ok: bool, ghost cut: nat)
      modifies wire
      ensures Sent(cut, ok) == SendThrough(calls, |frame|)
      ensures wire.bytes == old(wire.bytes) + frame[..cut]
    {
      var rest, i, failed := frame, 0, false;
      cut := 0;
      while rest != [] && !failed
        invariant i <= |calls| && cut <= |frame|
        invariant rest == frame[cut..]
        invariant wire.bytes == old(wire.bytes) + frame[..cut]
        invariant SendThrough(calls, |frame|)
               == if failed then Sent(cut, false) else Later(cut, SendThrough(calls[i..], |rest|))
        decreases |rest|, !failed
      {
        if i == |calls| {
          failed := true;
        } else {
          var written, err := wire.Write(rest, calls[i]);
          failed := err || written == 0;
          PrefixGrows(old(wire.bytes), frame, cut, written);
          rest, cut, i := rest[written..], cut + written, i + 1;
          assert calls[i - 1..][1..] == calls[i..];
        }
      }
      ok := !failed;
    }

    /**
     write: takes the gate token, sends the frame, puts the token back. Whatever happens,
     the wire gains exactly the event logged by the protocol: the first `cut` bytes of
     the frame, all of it whenever the call reports success, none of it when the gate was
     given up or the frame is over the limit.
     */
    method Write(wire: Connection, id: RequestId, cancel: bool, line: Line, gaveUp: bool, calls: seq<WriteCall>)
      returns (ok: bool, ghost cut: nat)
      requires gate == 1
      modifies this`gate, wire
      ensures gate == 1
      ensures WellFormed(WriteEvent(id, cancel, line, cut))
      ensures wire.bytes == old(wire.bytes) + EventBytes(WriteEvent(id, cancel, line, cut))
      ensures ok ==> Complete(WriteEvent(id, cancel, line, cut))
      ensures ok ==> wire.bytes == old(wire.bytes) + line + [10]
      ensures Sent(cut, ok) == if gaveUp || |line| + 1 > 8_388_608 then Sent(0, false) else SendThrough(calls, |line| + 1)
    {
      ok, cut := false, 0;
      if !gaveUp {
        gate := gate - 1;
        if Fits(line) {
          ok, cut := SendFrame(wire, Frame(line), calls);
        }
        gate := gate + 1;
      }
      assert wire.bytes == old(wire.bytes) + Frame(line)[..cut];
      assert Frame(line)[..cut] == EventBytes(WriteEvent(id, cancel, line, cut));
    }
  }
}
