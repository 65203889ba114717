/**
 The change log as the poller sees it: rows in ascending seq order, of which a session's
 may be deleted, and the events one poll makes of what it read.
 */
module CdcLog {
  import opened Prelude

  datatype Event = Event(seqNo: int, session: string, payload: string)

  const DEFAULT_BATCH := 512

  ghost predicate Ascending(events: seq<Event>) {
    forall i, j :: 0 <= i < j < |events| ==> events[i].seqNo < events[j].seqNo
  }

  ghost predicate AllAbove(events: seq<Event>, after: int) {
    forall e <- events :: e.seqNo > after
  }

  /** The rows past a cursor: SELECT ... WHERE seq > ? ORDER BY seq. */
  function Past(rows: seq<Event>, after: int): (r: seq<Event>)
    ensures forall e :: e in r <==> e in rows && e.seqNo > after
  {
    if rows == [] then []
    else (if rows[0].seqNo > after then [rows[0]] else []) + Past(rows[1..], after)
  }

  /** ... LIMIT ?: what one read returns. */
  function EventsAfter(rows: seq<Event>, after: int, limit: nat): seq<Event> {
    var past := Past(rows, after);
    if |past| <= limit then past else past[..limit]
  }

  /** MAX(seq), or 0 for an empty log. */
  function LatestSeq(rows: seq<Event>): int {
    if rows == [] then 0 else rows[|rows| - 1].seqNo
  }

  function Without(rows: seq<Event>, session: string): (r: seq<Event>)
    ensures forall e :: e in r <==> e in rows && e.session != session
  {
    if rows == [] then []
    else (if rows[0].session != session then [rows[0]] else []) + Without(rows[1..], session)
  }

  /** What Poll publishes of a batch: an event at or below the cursor is skipped. */
  function Fresh(batch: seq<Event>, cursor: int): seq<Event> {
    if batch == [] then []
    else if batch[0].seqNo <= cursor then Fresh(batch[1..], cursor)
    else [batch[0]] + Fresh(batch[1..], batch[0].seqNo)
  }

  /** Where the cursor stands after publishing some events. */
  function CursorAfter(published: seq<Event>, cursor: int): int {
    if published == [] then cursor else published[|published| - 1].seqNo
  }

  lemma AscendingAppend(a: seq<Event>, b: seq<Event>)
    requires Ascending(a) && Ascending(b)
    requires forall x, y :: x in a && y in b ==> x.seqNo < y.seqNo
    ensures Ascending(a + b)
  {
  }

  /** Whatever a source returns, what is published of it strictly increases, from above the cursor on. */
  lemma {:induction false} FreshAscends(batch: seq<Event>, cursor: int)
    ensures Ascending(Fresh(batch, cursor)) && AllAbove(Fresh(batch, cursor), cursor)
    ensures CursorAfter(Fresh(batch, cursor), cursor) >= cursor
    ensures forall e <- Fresh(batch, cursor) :: e in batch && e.seqNo <= CursorAfter(Fresh(batch, cursor), cursor)
    decreases |batch|
  {
    if batch != [] {
      if batch[0].seqNo <= cursor {
        FreshAscends(batch[1..], cursor);
      } else {
        FreshAscends(batch[1..], batch[0].seqNo);
      }
    }
  }

  /** From an ordered log read past the cursor, everything is published. */
  lemma {:induction false} FreshKeepsAll(batch: seq<Event>, cursor: int)
    requires Ascending(batch) && AllAbove(batch, cursor)
    ensures Fresh(batch, cursor) == batch
    decreases |batch|
  {
    if batch != [] {
      assert Ascending(batch[1..]) by {
        assert forall i :: 0 <= i < |batch| - 1 ==> batch[1..][i] == batch[i + 1];
      }
      assert batch[0] in batch;
      forall e | e in batch[1..]
        ensures e.seqNo > batch[0].seqNo
      {
        var i :| 0 <= i < |batch[1..]| && batch[1..][i] == e;
        assert batch[i + 1] == e;
      }
      FreshKeepsAll(batch[1..], batch[0].seqNo);
    }
  }

  lemma {:induction false} PastAscends(rows: seq<Event>, after: int)
    requires Ascending(rows)
    ensures Ascending(Past(rows, after))
    decreases |rows|
  {
    if rows != [] {
      AscendingTail(rows);
      PastAscends(rows[1..], after);
      if rows[0].seqNo > after {
        AscendingAppend([rows[0]], Past(rows[1..], after));
      }
    }
  }

  lemma {:induction false} WithoutAscends(rows: seq<Event>, session: string)
    requires Ascending(rows)
    ensures Ascending(Without(rows, session))
    decreases |rows|
  {
    if rows != [] {
      AscendingTail(rows);
      WithoutAscends(rows[1..], session);
      if rows[0].session != session {
        AscendingAppend([rows[0]], Without(rows[1..], session));
      }
    }
  }

  lemma AscendingTail(rows: seq<Event>)
    requires Ascending(rows) && rows != []
    ensures Ascending(rows[1..])
    ensures forall e <- rows[1..] :: e.seqNo > rows[0].seqNo
  {
    assert forall i :: 0 <= i < |rows| - 1 ==> rows[1..][i] == rows[i + 1];
  }

  /** An ascending list is determined by what is in it. */
  lemma {:induction false} AscendingUnique(a: seq<Event>, b: seq<Event>)
    requires Ascending(a) && Ascending(b) && forall e :: e in a <==> e in b
    ensures a == b
    decreases |a|
  {
    assert a != [] ==> a[0] in a;
    assert b != [] ==> b[0] in b;
    if a != [] {
      AscendingTail(a);
      AscendingTail(b);
      assert a == [a[0]] + a[1..] && b == [b[0]] + b[1..];
      assert a[0] == b[0];
      forall e
        ensures e in a[1..] <==> e in b[1..]
      {
        assert e in a <==> e == a[0] || e in a[1..];
        assert e in b <==> e == b[0] || e in b[1..];
      }
      AscendingUnique(a[1..], b[1..]);
    }
  }
}
