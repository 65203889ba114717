/**
 The critical sections of the browser broker: what each piece of code that holds
 `b.mu` does to the connection slot and to the table of pending requests. The step
 system (BrokerProtocol) and the imperative class (BrokerObject) share them; they
 differ only in what a pending entry is, a connection number or a channel.
 */
module BrokerSlot {
  import opened Prelude

  type Conn = nat
  type RequestId = nat

  datatype Slot<E> = Slot(conn: Option<Conn>, pending: map<RequestId, E>)

  function EmptySlot<E>(): Slot<E> {
    Slot(None, map[])
  }

  /** Execute's first critical section, when a runtime is connected. */
  function Register<E>(s: Slot<E>, id: RequestId, e: E): Slot<E>
    requires s.conn.Some?
  {
    s.(pending := s.pending[id := e])
  }

  /** serveConn installs c and takes every pending entry. */
  function Attach<E>(s: Slot<E>, c: Conn): Slot<E> {
    Slot(Some(c), map[])
  }

  /** disconnect empties the slot, but only for the connection it names. */
  function Detach<E>(s: Slot<E>, c: Conn): Slot<E> {
    if s.conn == Some(c) then EmptySlot() else s
  }

  /** resolve and removePending both delete one entry, present or not. */
  function Remove<E>(s: Slot<E>, id: RequestId): Slot<E> {
    s.(pending := s.pending - {id})
  }
}
