/** The poller and the broadcaster as objects. */
module CdcPoller {
  import opened Prelude
  import opened CdcLog

  /** A registered callback: what it has been called with, and the events it panics on. */
  class Subscriber {
    const panicsOn: set<int>
    var heard: seq<Event>
    ghost const since: nat
    ghost var until: Option<nat>

    constructor (panicsOn: set<int>, ghost since: nat)
      ensures heard == [] && this.since == since && this.until == None && this.panicsOn == panicsOn
    {
      this.panicsOn := panicsOn;
      this.heard := [];
      this.since := since;
      this.until := None;
    }

    method Call(e: Event) returns (panicked: bool)
      modifies this`heard
      ensures heard == old(heard) + [e] && panicked == (e.seqNo in panicsOn)
    {
      heard := heard + [e];
      panicked := e.seqNo in panicsOn;
    }

    /** It was called with exactly the stretch of `published` it was subscribed for. */
    ghost predicate HeardItsSlice(published: seq<Event>)
      reads this
    {
      var end := if until.Some? then until.value else |published|;
      since <= end <= |published| && heard == published[since..end]
    }
  }

  /** Map iteration: some key, in no particular order. */
  method AnyOf(ids: set<nat>) returns (id: nat)
    requires ids != {}
    ensures id in ids
  {
    id :| id in ids;
  }

  lemma SliceGrows(published: seq<Event>, e: Event, since: nat)
    ensures since <= |published| ==> (published + [e])[since..|published + [e]|] == published[since..|published|] + [e]
  {
  }

  lemma SliceStays(published: seq<Event>, e: Event, since: nat, until: nat)
    ensures since <= until <= |published| ==> (published + [e])[since..until] == published[since..until]
  {
  }

  lemma ValuesOfUpdate(subs: map<nat, Subscriber>, id: nat, sub: Subscriber)
    requires id !in subs
    ensures subs[id := sub].Values == subs.Values + {sub}
  {
    var after := subs[id := sub];
    assert after[id] == sub;
    forall s | s in subs.Values
      ensures s in after.Values
    {
      var k :| k in subs && subs[k] == s;
      assert after[k] == s;
    }
  }

  lemma ValuesOfRemoval(subs: map<nat, Subscriber>, id: nat)
    ensures subs.Values == (subs - {id}).Values + if id in subs then {subs[id]} else {}
  {
    var after := subs - {id};
    forall s | s in subs.Values && (id !in subs || s != subs[id])
      ensures s in after.Values
    {
      var k :| k in subs && subs[k] == s;
      assert after[k] == s;
    }
  }

  /** What other goroutines do between two events of a batch. */
  datatype Meanwhile = Joins(panicsOn: set<int>) | Leaves(id: nat)

  class Broadcaster {
    var subs: map<nat, Subscriber>
    var nextID: nat
    ghost var published: seq<Event>
    ghost var gone: set<Subscriber>

    ghost function Everyone(): set<Subscriber>
      reads this
    {
      subs.Values + gone
    }

    /** Every subscriber there was, current or gone, has heard exactly its slice. */
    ghost predicate Valid()
      reads this, subs.Values, gone
    {
      && (forall id <- subs :: id < nextID)
      && (forall a, b :: a in subs && b in subs && a != b ==> subs[a] != subs[b])
      && (forall id <- subs :: subs[id] !in gone && subs[id].until == None && subs[id].HeardItsSlice(published))
      && (forall s <- gone :: s.until.Some? && s.HeardItsSlice(published))
    }

    constructor ()
      ensures Valid() && subs == map[] && published == [] && gone == {}
    {
      subs, nextID := map[], 0;
      published, gone := [], {};
    }

    /** Subscribe: a fresh id for a callback that has heard nothing yet. */
    method Subscribe(panicsOn: set<int>) returns (id: nat, sub: Subscriber)
      requires Valid()
      modifies this`subs, this`nextID
      ensures Valid() && fresh(sub)
      ensures id !in old(subs) && subs == old(subs)[id := sub]
      ensures sub.since == |published| && sub.heard == [] && sub.panicsOn == panicsOn
      ensures Everyone() == old(Everyone()) + {sub}
    {
      id := nextID;
      nextID := nextID + 1;
      sub := new Subscriber(panicsOn, |published|);
      subs := subs[id := sub];
      ValuesOfUpdate(old(subs), id, sub);
    }

    /** The function Subscribe returns: it may be called again, and then does nothing. */
    method Unsubscribe(id: nat)
      requires Valid()
      modifies this`subs, this`gone, subs.Values`until
      ensures Valid() && subs == old(subs) - {id}
      ensures gone == old(gone) + if id in old(subs) then {old(subs)[id]} else {}
      ensures Everyone() == old(Everyone())
    {
      ValuesOfRemoval(subs, id);
      if id in subs {
        ghost var sub := subs[id];
        sub.until := Some(|published|);
        assert sub.HeardItsSlice(published);
        assert forall s <- gone :: s.HeardItsSlice(published);
        gone := gone + {sub};
      }
      subs := subs - {id};
    }

    /** A panic stays with the callback that raised it. */
    method Deliver(sub: Subscriber, e: Event)
      modifies sub`heard
      ensures sub.heard == old(sub.heard) + [e]
    {
      var _ := sub.Call(e);
    }

    /** Every current subscriber is called once, in whatever order the map gives them. */
    method DeliverAll(e: Event)
      requires forall a, b :: a in subs && b in subs && a != b ==> subs[a] != subs[b]
      modifies subs.Values`heard
      ensures forall id <- subs :: subs[id].heard == old(subs[id].heard) + [e]
    {
      var todo := subs.Keys;
      while todo != {}
        invariant todo <= subs.Keys
        invariant forall id <- subs :: subs[id].heard == old(subs[id].heard) + (if id in todo then [] else [e])
        decreases todo
      {
        var id := AnyOf(todo);
        todo := todo - {id};
        assert subs[id] in subs.Values;
        Deliver(subs[id], e);
      }
    }

    /** Publish: one event reaches every current subscriber, whichever of them panic. */
    method Publish(e: Event)
      requires Valid()
      modifies this`published, subs.Values`heard
      ensures Valid() && published == old(published) + [e]
      ensures forall id <- subs :: subs[id].heard == old(subs[id].heard) + [e]
    {
      published := published + [e];
      DeliverAll(e);
      forall s | s in gone || s in subs.Values
        ensures s.HeardItsSlice(published)
      {
        SliceGrows(old(published), e, s.since);
        if s in gone {
          SliceStays(old(published), e, s.since, s.until.value);
        }
      }
    }

    /** Subscriptions that come and go while no event is being published. */
    method Others(actions: seq<Meanwhile>)
      requires Valid()
      modifies this`subs, this`nextID, this`gone, subs.Values`until
      ensures Valid() && published == old(published)
      ensures old(Everyone()) <= Everyone() && fresh(Everyone() - old(Everyone()))
      ensures fresh(subs.Values - old(subs.Values))
    {
      for i := 0 to |actions|
        invariant Valid() && published == old(published)
        invariant old(Everyone()) <= Everyone() && fresh(Everyone() - old(Everyone()))
        invariant fresh(subs.Values - old(subs.Values))
      {
        match actions[i]
        case Joins(panicsOn) => var _, _ := Subscribe(panicsOn);
        case Leaves(id) => Unsubscribe(id);
      }
    }
  }

  lemma FreshStep(events: seq<Event>, i: nat, cursor: int)
    requires i < |events|
    ensures Fresh(events[i..], cursor) ==
      if events[i].seqNo <= cursor then Fresh(events[i + 1..], cursor)
      else [events[i]] + Fresh(events[i + 1..], events[i].seqNo)
  {
    assert events[i..][1..] == events[i + 1..];
  }

  lemma FreshEnds(events: seq<Event>, cursor: int)
    ensures Fresh(events[|events|..], cursor) == [] && events[0..] == events
  {
  }

  class Poller {
    const bcast: Broadcaster
    const batch: int
    var lastSeq: int

    constructor (bcast: Broadcaster, batch: int, startSeq: int)
      ensures this.bcast == bcast && lastSeq == startSeq
      ensures this.batch == if batch <= 0 then 512 else batch
    {
      this.bcast := bcast;
      this.batch := if batch <= 0 then DEFAULT_BATCH else batch;
      lastSeq := startSeq;
    }

    /** SeekToHead: to where the log's head is, unless reading it failed. */
    method SeekToHead(latest: Option<int>) returns (ok: bool)
      modifies this`lastSeq
      ensures ok == latest.Some?
      ensures lastSeq == if latest.Some? then latest.value else old(lastSeq)
    {
      if latest.None? {
        return false;
      }
      lastSeq := latest.value;
      return true;
    }

    /** One event of a batch: subscribers come and go, then it is published, unless it is not new. */
    method Handle(e: Event, meanwhile: seq<Meanwhile>)
      requires bcast.Valid()
      modifies this`lastSeq, bcast, bcast.subs.Values
      ensures bcast.Valid() && old(bcast.Everyone()) <= bcast.Everyone()
      ensures fresh(bcast.subs.Values - old(bcast.subs.Values))
      ensures bcast.published == old(bcast.published) + if e.seqNo <= old(lastSeq) then [] else [e]
      ensures lastSeq == if e.seqNo <= old(lastSeq) then old(lastSeq) else e.seqNo
    {
      bcast.Others(meanwhile);
      if e.seqNo > lastSeq {
        bcast.Publish(e);
        lastSeq := e.seqNo;
      }
    }

    /**
     Poll on whatever the source returned, with subscribers joining and leaving before each
     event. With FreshAscends: for any source at all, the seqs published strictly increase
     and stay above the cursor. Valid says what each subscriber, current or gone, has heard.
     */
    method Poll(fetched: Option<seq<Event>>, meanwhile: seq<seq<Meanwhile>>) returns (ok: bool)
      requires bcast.Valid()
      modifies this`lastSeq, bcast, bcast.subs.Values
      ensures bcast.Valid() && ok == fetched.Some?
      ensures old(bcast.Everyone()) <= bcast.Everyone()
      ensures fetched.None? ==> lastSeq == old(lastSeq) && bcast.published == old(bcast.published)
      ensures fetched.Some? ==>
        && bcast.published == old(bcast.published) + Fresh(fetched.value, old(lastSeq))
        && lastSeq == CursorAfter(Fresh(fetched.value, old(lastSeq)), old(lastSeq))
    {
      hide Fresh;
      if fetched.None? {
        return false;
      }
      var events := fetched.value;
      ghost var done := [];
      FreshEnds(events, lastSeq);
      for i := 0 to |events|
        invariant bcast.Valid()
        invariant old(bcast.Everyone()) <= bcast.Everyone()
        invariant fresh(bcast.subs.Values - old(bcast.subs.Values))
        invariant Fresh(events, old(lastSeq)) == done + Fresh(events[i..], lastSeq)
        invariant bcast.published == old(bcast.published) + done
        invariant lastSeq == CursorAfter(done, old(lastSeq))
      {
        FreshStep(events, i, lastSeq);
        if events[i].seqNo > lastSeq {
          done := done + [events[i]];
        }
        Handle(events[i], if i < |meanwhile| then meanwhile[i] else []);
      }
      FreshEnds(events, lastSeq);
      assert done + [] == done;
      return true;
    }
  }
}
