/**
 Runs of the log, the poller and its subscribers. A poll is one read and then one call of
 Publish an event, and appends, deletions, subscriptions and their ends fall anywhere
 between them.
 */
module CdcRuns {
  import opened Prelude
  import opened CdcLog

  /** One subscription: the stretch of published events it covers, and what it was called with. */
  datatype Sub = Sub(since: nat, until: Option<nat>, heard: seq<Event>)

  datatype State = State(
    rows: seq<Event>,          // change_log
    used: int,                 // the highest seq ever given out; AUTOINCREMENT never reuses one
    cursor: int,               // Poller.lastSeq
    left: seq<Event>,          // what is left of the batch Poll has read
    batch: nat,                // Poller.batch
    published: seq<Event>,     // history: every call of Publish
    subs: map<nat, Sub>,       // every subscription there ever was; a live one has no end
    nextID: nat,
    appended: seq<Event>,      // history: every row ever written
    missed: set<int>,          // history: rows deleted before the last seek, or later but before they were read
    start: int,                // history: the cursor set by the last seek
    epoch: nat)                // history: how much had been published by then

  datatype Step =
    | Append(events: seq<Event>)
    | Purge(session: string)
    | Read
    | ReadFails
    | PublishNext
    | Seek
    | Subscribe
    | Unsubscribe(id: nat)

  ghost predicate Enabled(s: State, step: Step) {
    match step
    case Append(events) => Ascending(events) && AllAbove(events, s.used)
    case Read => s.left == []
    case ReadFails => s.left == []
    case PublishNext => s.left != []
    case Seek => s.left == []
    case Unsubscribe(id) => id in s.subs
    case _ => true
  }

  /** Every live subscriber is called with the event, whatever any of them does with it. */
  function Hear(subs: map<nat, Sub>, events: seq<Event>): map<nat, Sub> {
    map id | id in subs :: if subs[id].until.None? then subs[id].(heard := subs[id].heard + events) else subs[id]
  }

  /** How far the log has been read. */
  function ReadUpTo(s: State): int {
    CursorAfter(s.left, s.cursor)
  }

  function Next(s: State, step: Step): State
    requires Enabled(s, step)
  {
    match step
    case Append(events) =>
      s.(rows := s.rows + events, appended := s.appended + events, used := CursorAfter(events, s.used))
    case Purge(session) =>
      s.(rows := Without(s.rows, session),
         missed := s.missed + (set e | e in s.rows && e.session == session && e.seqNo > ReadUpTo(s) :: e.seqNo))
    case Read => s.(left := EventsAfter(s.rows, s.cursor, s.batch))
    case ReadFails => s
    case PublishNext =>
      var e := s.left[0];
      if e.seqNo <= s.cursor then s.(left := s.left[1..])
      else
        s.(left := s.left[1..], published := s.published + [e], cursor := e.seqNo, subs := Hear(s.subs, [e]))
    case Seek =>
      s.(cursor := LatestSeq(s.rows), start := LatestSeq(s.rows), epoch := |s.published|,
         missed := set e | e in s.appended && e !in s.rows :: e.seqNo)
    case Subscribe => s.(subs := s.subs[s.nextID := Sub(|s.published|, None, [])], nextID := s.nextID + 1)
    case Unsubscribe(id) =>
      if id in s.subs && s.subs[id].until.None?
      then s.(subs := s.subs[id := s.subs[id].(until := Some(|s.published|))])
      else s
  }

  ghost predicate Initial(s: State) {
    && s.rows == s.appended == s.published == s.left == [] && s.cursor == s.start && s.batch > 0 && s.used >= 0
    && s.subs == map[] && s.nextID == 0 && s.missed == {} && s.epoch == 0
  }

  // What every step keeps.

  ghost predicate LogInv(s: State) {
    && Ascending(s.rows) && Ascending(s.appended) && s.used >= 0
    && (forall e <- s.rows :: e in s.appended)
    && (forall e <- s.appended :: e.seqNo <= s.used)
    && (ReadUpTo(s) <= s.used || (s.cursor == s.start && s.left == [])) && s.start <= s.cursor && s.batch > 0
    && (forall e <- s.appended :: e.seqNo > ReadUpTo(s) && e !in s.rows ==> e.seqNo in s.missed)
    && (forall n <- s.missed :: n <= s.used && forall e <- s.rows :: e.seqNo != n)
  }

  /** What is left of the batch: the rows read but not yet published, deleted since or not. */
  ghost predicate BatchInv(s: State) {
    && Ascending(s.left) && AllAbove(s.left, s.cursor)
    && (forall e <- s.left :: e in s.appended && e.seqNo !in s.missed)
    && (forall e <- s.appended :: s.cursor < e.seqNo <= ReadUpTo(s) && e.seqNo !in s.missed ==> e in s.left)
  }

  /** Since the last seek: exactly the rows appended past the start and up to the cursor, less the missed. */
  ghost predicate Exactly(s: State) {
    && s.epoch <= |s.published|
    && Ascending(s.published[s.epoch..])
    && (forall e :: e in s.published[s.epoch..] <==>
          e in s.appended && s.start < e.seqNo <= s.cursor && e.seqNo !in s.missed)
  }

  /** No event is ever published twice, across seeks too. */
  ghost predicate OnceInv(s: State) {
    && Ascending(s.published)
    && (forall e <- s.published :: e.seqNo <= s.used)
    && (forall e, r :: e in s.published && r in s.rows && r.seqNo > s.cursor ==> e.seqNo < r.seqNo)
    && (forall e, r :: e in s.published && r in s.left ==> e.seqNo < r.seqNo)
  }

  function End(sub: Sub, published: nat): nat {
    if sub.until.Some? then sub.until.value else published
  }

  ghost predicate Slice(sub: Sub, published: seq<Event>) {
    && sub.since <= End(sub, |published|) <= |published|
    && sub.heard == published[sub.since..End(sub, |published|)]
  }

  ghost predicate SubsInv(s: State) {
    && (forall id <- s.subs :: id < s.nextID)
    && (forall id <- s.subs :: Slice(s.subs[id], s.published))
  }

  ghost predicate Inv(s: State) {
    LogInv(s) && BatchInv(s) && Exactly(s) && OnceInv(s) && SubsInv(s)
  }

  // The lemmas behind a poll.

  /** A prefix of an ascending list ends at its highest seq. */
  lemma LastIsHighest(events: seq<Event>, cursor: int)
    requires Ascending(events) && AllAbove(events, cursor)
    ensures CursorAfter(events, cursor) >= cursor
    ensures forall e <- events :: e.seqNo <= CursorAfter(events, cursor)
  {
    if events != [] {
      assert events[|events| - 1] in events;
    }
  }

  /** A read returns the next rows past the cursor, and nothing between them is left out. */
  lemma ReadIsNext(rows: seq<Event>, cursor: int, batch: nat)
    requires Ascending(rows) && batch > 0
    ensures IsNextRead(rows, cursor, EventsAfter(rows, cursor, batch))
    ensures Fresh(EventsAfter(rows, cursor, batch), cursor) == EventsAfter(rows, cursor, batch)
  {
    var past, read := Past(rows, cursor), EventsAfter(rows, cursor, batch);
    PastAscends(rows, cursor);
    assert read == past[..|read|] && (read == [] ==> past == []);
    PrefixAscends(past, |read|, cursor);
    hide EventsAfter, Past, Ascending, CursorAfter;
    FreshKeepsAll(read, cursor);
    LastIsHighest(read, cursor);
    forall e | e in past && e.seqNo <= CursorAfter(read, cursor)
      ensures e in read
    {
      ReadIsPrefix(past, |read|, cursor, e);
    }
  }

  lemma PrefixAscends(past: seq<Event>, n: nat, cursor: int)
    requires Ascending(past) && AllAbove(past, cursor) && n <= |past|
    ensures Ascending(past[..n]) && AllAbove(past[..n], cursor) && forall e <- past[..n] :: e in past
  {
  }

  lemma ReadIsPrefix(past: seq<Event>, n: nat, cursor: int, e: Event)
    requires Ascending(past) && AllAbove(past, cursor) && n <= |past| && e in past
    requires e.seqNo <= CursorAfter(past[..n], cursor)
    ensures e in past[..n]
  {
    var i :| 0 <= i < |past| && past[i] == e;
    if n > 0 {
      assert past[..n][n - 1] == past[n - 1];
      assert i < n ==> past[..n][i] == e;
    }
  }

  ghost predicate IsNextRead(rows: seq<Event>, cursor: int, read: seq<Event>) {
    && Ascending(read) && AllAbove(read, cursor)
    && (forall e <- read :: e in rows && e.seqNo <= CursorAfter(read, cursor))
    && CursorAfter(read, cursor) >= cursor
    && (forall e <- rows :: cursor < e.seqNo <= CursorAfter(read, cursor) ==> e in read)
    && (read == [] ==> forall e <- rows :: e.seqNo <= cursor)
  }

  /** All of the invariant but what concerns the subscribers. */
  ghost predicate Core(s: State) {
    LogInv(s) && BatchInv(s) && Exactly(s) && OnceInv(s)
  }

  /** What a read finds, and what it leaves alone. */
  lemma ReadIs(s: State)
    requires LogInv(s) && s.left == []
    ensures var t := Next(s, Read);
      && t == s.(left := t.left)
      && IsNextRead(s.rows, s.cursor, t.left)
      && ReadUpTo(t) == CursorAfter(t.left, s.cursor) >= ReadUpTo(s) == s.cursor
      && (t.left != [] ==> exists e :: e in t.left && e.seqNo == ReadUpTo(t))
  {
    hide Ascending, EventsAfter, IsNextRead, Fresh;
    ReadIsNext(s.rows, s.cursor, s.batch);
    var read := EventsAfter(s.rows, s.cursor, s.batch);
    NextReadEnds(s.rows, s.cursor, read);
    assert read != [] ==> read[|read| - 1] in read;
  }

  lemma NextReadEnds(rows: seq<Event>, cursor: int, read: seq<Event>)
    requires IsNextRead(rows, cursor, read)
    ensures CursorAfter(read, cursor) >= cursor
  {
  }

  lemma ReadKeeps(s: State)
    requires Core(s) && s.left == []
    ensures Core(Next(s, Read))
  {
    ReadIs(s);
    hide Next, ReadUpTo, CursorAfter, Ascending;
    var t := Next(s, Read);
    ReadKeepsLog(s, t);
    ReadKeepsBatch(s, t);
  }

  lemma ReadKeepsLog(s: State, t: State)
    requires LogInv(s) && s.left == [] && t == s.(left := t.left) && IsNextRead(s.rows, s.cursor, t.left)
    requires ReadUpTo(t) == CursorAfter(t.left, s.cursor) >= ReadUpTo(s) == s.cursor
    requires t.left != [] ==> exists e :: e in t.left && e.seqNo == ReadUpTo(t)
    ensures LogInv(t)
  {
    hide ReadUpTo, CursorAfter, Ascending;
  }

  lemma ReadKeepsBatch(s: State, t: State)
    requires LogInv(s) && s.left == [] && t == s.(left := t.left) && IsNextRead(s.rows, s.cursor, t.left)
    requires ReadUpTo(t) == CursorAfter(t.left, s.cursor) >= ReadUpTo(s) == s.cursor
    ensures BatchInv(t)
  {
    hide ReadUpTo, CursorAfter, Ascending;
  }

  /** The next event left is above the cursor, and is the lowest of those left. */
  lemma PublishIs(s: State)
    requires BatchInv(s) && s.left != []
    ensures var e, t := s.left[0], Next(s, PublishNext);
      && t == s.(left := s.left[1..], published := s.published + [e], cursor := e.seqNo, subs := Hear(s.subs, [e]))
      && s.cursor < e.seqNo <= ReadUpTo(s) == ReadUpTo(t)
      && Ascending(t.left) && AllAbove(t.left, e.seqNo)
      && (forall r :: r in s.left <==> r == e || r in t.left)
  {
    var e, rest, t := s.left[0], s.left[1..], Next(s, PublishNext);
    AscendingTail(s.left);
    assert e in s.left;
    assert rest != [] ==> s.left[|s.left| - 1] == rest[|rest| - 1];
    LastIsHighest(s.left, s.cursor);
    hide Ascending, Hear;
    assert s.left == [e] + rest;
  }

  lemma PublishKeeps(s: State)
    requires Core(s) && s.left != []
    ensures Core(Next(s, PublishNext))
  {
    PublishIs(s);
    hide Next, ReadUpTo, CursorAfter, Ascending;
    var e, t := s.left[0], Next(s, PublishNext);
    PublishKeepsLog(s, e, t);
    PublishKeepsBatch(s, e, t);
    PublishKeepsExactly(s, e, t);
    PublishKeepsOnce(s, e, t);
    hide LogInv, BatchInv, Exactly, OnceInv;
  }

  /** One event goes from the batch to the subscribers. */
  ghost predicate Publishes(s: State, e: Event, t: State) {
    && t == s.(left := t.left, published := s.published + [e], cursor := e.seqNo, subs := t.subs)
    && s.cursor < e.seqNo <= ReadUpTo(s) == ReadUpTo(t)
    && Ascending(t.left) && AllAbove(t.left, e.seqNo)
    && (forall r :: r in s.left <==> r == e || r in t.left)
  }

  lemma PublishKeepsLog(s: State, e: Event, t: State)
    requires LogInv(s) && BatchInv(s) && Publishes(s, e, t)
    ensures LogInv(t)
  {
    BatchIsOld(s);
    hide ReadUpTo, CursorAfter, Ascending;
    assert e in s.left;
  }

  lemma PublishKeepsBatch(s: State, e: Event, t: State)
    requires BatchInv(s) && Publishes(s, e, t)
    ensures BatchInv(t)
  {
    hide ReadUpTo, CursorAfter, Ascending;
  }

  lemma PublishKeepsExactly(s: State, e: Event, t: State)
    requires LogInv(s) && BatchInv(s) && Exactly(s) && Publishes(s, e, t)
    ensures Exactly(t)
  {
    var before, after := s.published[s.epoch..], t.published[t.epoch..];
    assert after == before + [e];
    AscendingAppend(before, [e]);
    hide ReadUpTo, CursorAfter;
    assert e in s.left;
    forall r
      ensures r in after <==> r in t.appended && t.start < r.seqNo <= t.cursor && r.seqNo !in t.missed
    {
      hide Exactly;
      BetweenIsOne(s, e, t, r);
      assert r in after <==> r in before || r == e;
      PublishedMeans(s, r);
    }
  }

  lemma PublishedMeans(s: State, r: Event)
    requires Exactly(s)
    ensures r in s.published[s.epoch..] <==> r in s.appended && s.start < r.seqNo <= s.cursor && r.seqNo !in s.missed
  {
  }

  /** Between the old cursor and the new one only the event published counts. */
  lemma BetweenIsOne(s: State, e: Event, t: State, r: Event)
    requires LogInv(s) && BatchInv(s) && Publishes(s, e, t)
    ensures r in s.appended && s.cursor < r.seqNo <= e.seqNo && r.seqNo !in s.missed <==> r == e
    ensures s.start < e.seqNo
  {
    hide ReadUpTo, CursorAfter, Ascending;
    assert e in s.left;
  }

  lemma PublishKeepsOnce(s: State, e: Event, t: State)
    requires LogInv(s) && BatchInv(s) && OnceInv(s) && Publishes(s, e, t)
    ensures OnceInv(t)
  {
    assert e in s.left;
    AscendingAppend(s.published, [e]);
    hide ReadUpTo, CursorAfter, Ascending;
  }

  lemma AppendKeeps(s: State, events: seq<Event>)
    requires Core(s) && Enabled(s, Append(events))
    ensures Core(Next(s, Append(events)))
  {
    var t := Next(s, Append(events));
    LastIsHighest(events, s.used);
    AscendingAppend(s.rows, events);
    AscendingAppend(s.appended, events);
    BatchIsOld(s);
    assert ReadUpTo(t) == ReadUpTo(s);
    assert t == s.(rows := s.rows + events, appended := s.appended + events, used := t.used);
    hide Ascending, CursorAfter, ReadUpTo, Next;
    AppendKeepsLog(s, events, t);
    AppendKeepsBatch(s, events, t);
    AppendKeepsExactly(s, events, t);
    hide LogInv, BatchInv, Exactly;
  }

  ghost predicate Appends(s: State, events: seq<Event>, t: State) {
    && t == s.(rows := s.rows + events, appended := s.appended + events, used := t.used)
    && AllAbove(events, s.used) && t.used >= s.used && (forall e <- events :: e.seqNo <= t.used)
    && Ascending(t.rows) && Ascending(t.appended)
    && s.cursor <= ReadUpTo(s) == ReadUpTo(t) && (s.left == [] ==> ReadUpTo(s) == s.cursor)
  }

  lemma AppendKeepsLog(s: State, events: seq<Event>, t: State)
    requires LogInv(s) && Appends(s, events, t)
    ensures LogInv(t)
  {
    hide ReadUpTo, Ascending;
  }

  lemma AppendKeepsBatch(s: State, events: seq<Event>, t: State)
    requires LogInv(s) && BatchInv(s) && Appends(s, events, t)
    ensures BatchInv(t)
  {
    hide ReadUpTo, Ascending;
  }

  lemma AppendKeepsExactly(s: State, events: seq<Event>, t: State)
    requires LogInv(s) && Exactly(s) && Appends(s, events, t)
    ensures Exactly(t)
  {
    hide ReadUpTo, Ascending;
  }

  lemma BatchIsOld(s: State)
    requires LogInv(s) && BatchInv(s)
    ensures s.left == [] ==> ReadUpTo(s) == s.cursor
    ensures s.cursor <= ReadUpTo(s)
  {
    LastIsHighest(s.left, s.cursor);
  }

  lemma PurgeKeeps(s: State, session: string)
    requires Core(s)
    ensures Core(Next(s, Purge(session)))
  {
    WithoutAscends(s.rows, session);
    BatchIsOld(s);
    LastIsHighest(s.left, s.cursor);
    var t := Next(s, Purge(session));
    assert ReadUpTo(t) == ReadUpTo(s);
    assert t == s.(rows := t.rows, missed := t.missed);
    RowsAreUnique(s);
    hide Ascending, ReadUpTo, CursorAfter;
    assert Purges(s, session, t);
    hide Next;
    PurgeKeepsLog(s, session, t);
    PurgeKeepsBatch(s, session, t);
    PurgeKeepsExactly(s, session, t);
    hide LogInv, BatchInv, Exactly, Purges;
  }

  ghost predicate Purges(s: State, session: string, t: State) {
    && t == s.(rows := t.rows, missed := t.missed) && ReadUpTo(t) == ReadUpTo(s) >= s.cursor
    && Ascending(t.rows)
    && (forall e :: e in t.rows <==> e in s.rows && e.session != session)
    && (forall n :: n in t.missed <==>
          n in s.missed || exists e :: e in s.rows && e.session == session && e.seqNo > ReadUpTo(s) && e.seqNo == n)
    && (forall e, r :: e in s.rows && r in s.appended && e.seqNo == r.seqNo ==> e == r)
    && (forall e <- s.left :: e.seqNo <= ReadUpTo(s))
  }

  lemma PurgeKeepsLog(s: State, session: string, t: State)
    requires LogInv(s) && Purges(s, session, t)
    ensures LogInv(t)
  {
    hide ReadUpTo, Ascending;
  }

  lemma PurgeKeepsBatch(s: State, session: string, t: State)
    requires LogInv(s) && BatchInv(s) && Purges(s, session, t)
    ensures BatchInv(t)
  {
    hide ReadUpTo, Ascending;
  }

  lemma PurgeKeepsExactly(s: State, session: string, t: State)
    requires LogInv(s) && Exactly(s) && Purges(s, session, t)
    ensures Exactly(t)
  {
    hide ReadUpTo, Ascending;
  }

  lemma RowsAreUnique(s: State)
    requires LogInv(s)
    ensures forall e, r :: e in s.rows && r in s.appended && e.seqNo == r.seqNo ==> e == r
  {
    forall e, r | e in s.rows && r in s.appended && e.seqNo == r.seqNo
      ensures e == r
    {
      SameSeqSameRow(s.appended, e, r);
    }
  }

  lemma SameSeqSameRow(events: seq<Event>, a: Event, b: Event)
    requires Ascending(events) && a in events && b in events && a.seqNo == b.seqNo
    ensures a == b
  {
  }

  lemma SeekKeeps(s: State)
    requires Core(s) && s.left == []
    ensures Core(Next(s, Seek))
  {
    LatestIsHighest(s.rows);
    RowsAreUnique(s);
    SeekKeepsLog(s);
    SeekKeepsRest(s);
  }

  lemma SeekKeepsLog(s: State)
    requires LogInv(s) && s.left == []
    requires forall e <- s.rows :: e.seqNo <= LatestSeq(s.rows)
    requires forall e, r :: e in s.rows && r in s.appended && e.seqNo == r.seqNo ==> e == r
    requires s.rows != [] ==> exists e <- s.rows :: e.seqNo == LatestSeq(s.rows)
    ensures LogInv(Next(s, Seek))
  {
    hide LatestSeq, Ascending;
  }

  lemma SeekKeepsRest(s: State)
    requires LogInv(s) && OnceInv(s) && s.left == []
    requires forall e <- s.rows :: e.seqNo <= LatestSeq(s.rows)
    ensures var t := Next(s, Seek); BatchInv(t) && Exactly(t) && OnceInv(t)
  {
    assert Ascending([]);
    assert Next(s, Seek).published[Next(s, Seek).epoch..] == [];
    hide LatestSeq, Ascending;
  }

  lemma LatestIsHighest(rows: seq<Event>)
    requires Ascending(rows)
    ensures forall e <- rows :: e.seqNo <= LatestSeq(rows)
    ensures rows != [] ==> exists e <- rows :: e.seqNo == LatestSeq(rows)
  {
    if rows != [] {
      assert rows[|rows| - 1] in rows;
    }
  }

  // What every step does to the subscribers.

  lemma HearKeeps(sub: Sub, published: seq<Event>, events: seq<Event>)
    requires Slice(sub, published)
    ensures Slice(if sub.until.None? then sub.(heard := sub.heard + events) else sub, published + events)
  {
  }

  lemma SubsKeep(s: State, step: Step)
    requires SubsInv(s) && Enabled(s, step)
    ensures SubsInv(Next(s, step))
  {
    hide Slice, Without;
    var t := Next(s, step);
    match step
    case PublishNext =>
      if s.left[0].seqNo > s.cursor {
        forall id | id in s.subs
          ensures Slice(t.subs[id], t.published)
        {
          HearKeeps(s.subs[id], s.published, [s.left[0]]);
        }
      }
    case Subscribe =>
      NewSlice(s.published);
    case Unsubscribe(id) =>
      if id in s.subs {
        EndSlice(s.subs[id], s.published);
      }
    case _ =>
  }

  lemma NewSlice(published: seq<Event>)
    ensures Slice(Sub(|published|, None, []), published)
  {
  }

  lemma EndSlice(sub: Sub, published: seq<Event>)
    requires Slice(sub, published)
    ensures sub.until.None? ==> Slice(sub.(until := Some(|published|)), published)
  {
  }

  lemma StepKeeps(s: State, step: Step)
    requires Inv(s) && Enabled(s, step)
    ensures Inv(Next(s, step))
  {
    assert Core(s);
    hide LogInv, BatchInv, Exactly, OnceInv, SubsInv, Next;
    SubsKeep(s, step);
    match step
    case Append(events) => AppendKeeps(s, events);
    case Purge(session) => PurgeKeeps(s, session);
    case Read => ReadKeeps(s);
    case PublishNext => PublishKeeps(s);
    case Seek => SeekKeeps(s);
    case _ => QuietKeeps(s, step);
  }

  lemma QuietKeeps(s: State, step: Step)
    requires Core(s) && Enabled(s, step)
    requires step.ReadFails? || step.Subscribe? || step.Unsubscribe?
    ensures Core(Next(s, step))
  {
    hide Ascending;
  }

  ghost predicate IsRun(states: seq<State>, steps: seq<Step>) {
    && |states| == |steps| + 1
    && Initial(states[0])
    && forall i :: 0 <= i < |steps| ==> Enabled(states[i], steps[i]) && states[i + 1] == Next(states[i], steps[i])
  }

  lemma {:induction false} RunInv(states: seq<State>, steps: seq<Step>, k: nat)
    requires IsRun(states, steps) && k < |states|
    ensures Inv(states[k])
    decreases k
  {
    hide Enabled, Next;
    if k > 0 {
      hide Inv;
      RunInv(states, steps, k - 1);
      StepKeeps(states[k - 1], steps[k - 1]);
    }
  }

  /**
   At any point of any run, what was published since the last seek is exactly what was
   appended past the start and up to the cursor, less what was deleted before it was read:
   each event once, in seq order. And no event is published twice even across seeks.
   */
  lemma PublishedExactlyOnce(states: seq<State>, steps: seq<Step>, k: nat)
    requires IsRun(states, steps) && k < |states|
    ensures Exactly(states[k]) && Ascending(states[k].published)
  {
    hide Exactly, LogInv, SubsInv;
    RunInv(states, steps, k);
  }

  /** Every subscriber, live or gone, was called with exactly the stretch published while it was subscribed. */
  lemma SubscribersHearTheirSlice(states: seq<State>, steps: seq<Step>, k: nat, id: nat)
    requires IsRun(states, steps) && k < |states| && id in states[k].subs
    ensures Slice(states[k].subs[id], states[k].published)
  {
    hide Exactly, LogInv, OnceInv, Slice;
    RunInv(states, steps, k);
  }

  // Draining.

  function Outstanding(s: State): nat {
    |Past(s.rows, s.cursor)|
  }

  /** The rest of a poll: one Publish an event until the batch is empty. */
  function PublishRest(s: State): State
    decreases |s.left|
  {
    if s.left == [] then s else PublishRest(Next(s, PublishNext))
  }

  /** Polls that nothing else comes between. */
  function Polled(s: State, n: nat): (t: State)
    requires s.left == []
    ensures t.left == []
    decreases n
  {
    if n == 0 then s
    else
      RestIsEmpty(Next(Polled(s, n - 1), Read));
      PublishRest(Next(Polled(s, n - 1), Read))
  }

  lemma {:induction false} RestIsEmpty(s: State)
    ensures PublishRest(s).left == []
    decreases |s.left|
  {
    if s.left != [] {
      RestIsEmpty(Next(s, PublishNext));
    }
  }

  /** What is left of an ordered batch is published whole. */
  lemma {:induction false} RestPublishes(s: State)
    requires Ascending(s.left) && AllAbove(s.left, s.cursor)
    ensures var t := PublishRest(s);
      && t.rows == s.rows && t.batch == s.batch
      && t.published == s.published + s.left && t.cursor == CursorAfter(s.left, s.cursor)
    decreases |s.left|
  {
    hide Hear;
    if s.left == [] {
      assert s.published + [] == s.published;
    } else {
      AscendingTail(s.left);
      assert s.left[0] in s.left;
      hide Ascending;
      var t := Next(s, PublishNext);
      RestPublishes(t);
      assert s.left == [s.left[0]] + t.left;
      assert s.published + [s.left[0]] + t.left == s.published + s.left;
      assert t.left != [] ==> t.left[|t.left| - 1] == s.left[|s.left| - 1];
    }
  }

  /** Past the n-th outstanding row lie the outstanding rows after the n-th. */
  lemma PastTail(rows: seq<Event>, cursor: int, n: nat)
    requires Ascending(rows) && n <= |Past(rows, cursor)|
    ensures Past(rows, CursorAfter(Past(rows, cursor)[..n], cursor)) == Past(rows, cursor)[n..]
  {
    var past := Past(rows, cursor);
    PastAscends(rows, cursor);
    var to := CursorAfter(past[..n], cursor);
    PastAscends(rows, to);
    assert n > 0 ==> past[..n][n - 1] == past[n - 1] && past[n - 1] in past;
    hide Past;
    DropAscends(past, n, cursor);
    hide Ascending;
    AscendingUnique(Past(rows, to), past[n..]);
  }

  lemma DropAscends(past: seq<Event>, n: nat, cursor: int)
    requires Ascending(past) && AllAbove(past, cursor) && n <= |past|
    ensures Ascending(past[n..])
    ensures forall e :: e in past[n..] <==> e in past && e.seqNo > CursorAfter(past[..n], cursor)
  {
    assert n > 0 ==> past[..n][n - 1] == past[n - 1];
    forall e
      ensures e in past[n..] <==> e in past && e.seqNo > CursorAfter(past[..n], cursor)
    {
      if e in past[n..] {
        var i :| 0 <= i < |past| - n && past[n..][i] == e;
        assert past[n + i] == e;
      }
      if e in past && e.seqNo > CursorAfter(past[..n], cursor) {
        var i :| 0 <= i < |past| && past[i] == e;
        assert i >= n ==> past[n..][i - n] == e;
      }
    }
  }

  function Min(a: nat, b: nat): (m: nat)
    ensures m <= a && m <= b
  {
    if a <= b then a else b
  }

  lemma {:induction false} PollsPublish(s: State, n: nat)
    requires Ascending(s.rows) && s.batch > 0 && s.left == []
    ensures var t, past := Polled(s, n), Past(s.rows, s.cursor);
      && t.rows == s.rows && t.batch == s.batch
      && t.published == s.published + past[..Min(n * s.batch, |past|)]
      && Past(t.rows, t.cursor) == past[Min(n * s.batch, |past|)..]
    decreases n
  {
    hide Next, Past, Ascending;
    var past := Past(s.rows, s.cursor);
    if n == 0 {
      assert Min(0 * s.batch, |past|) == 0;
      assert past[..0] == [] && past[0..] == past;
    } else {
      hide Min, PublishRest;
      PollsPublish(s, n - 1);
      OnePoll(Polled(s, n - 1));
      TakeMore(past, s.batch, n);
    }
  }

  lemma TakeMore(past: seq<Event>, batch: nat, n: nat)
    requires n > 0
    ensures var done := Min((n - 1) * batch, |past|);
      && done <= |past|
      && past[..done] + past[done..][..Min(batch, |past[done..]|)] == past[..Min(n * batch, |past|)]
      && past[done..][Min(batch, |past[done..]|)..] == past[Min(n * batch, |past|)..]
  {
    assert (n - 1) * batch + batch == n * batch;
    var done := Min((n - 1) * batch, |past|);
    assert done + Min(batch, |past| - done) == Min(n * batch, |past|);
  }

  lemma OnePoll(s: State)
    requires Ascending(s.rows) && s.batch > 0 && s.left == []
    ensures var t, past := PublishRest(Next(s, Read)), Past(s.rows, s.cursor);
      && t.rows == s.rows && t.batch == s.batch
      && t.published == s.published + past[..Min(s.batch, |past|)]
      && Past(t.rows, t.cursor) == past[Min(s.batch, |past|)..]
  {
    hide Ascending, Past, Fresh, Hear, CursorAfter, PublishRest;
    var past := Past(s.rows, s.cursor);
    ReadIsNext(s.rows, s.cursor, s.batch);
    assert EventsAfter(s.rows, s.cursor, s.batch) == past[..Min(s.batch, |past|)];
    RestPublishes(Next(s, Read));
    PastTail(s.rows, s.cursor, Min(s.batch, |past|));
  }

  /** n outstanding rows take exactly n / batch polls, rounded up: then all of them, and not before. */
  lemma DrainsInBatches(s: State, polls: nat)
    requires Ascending(s.rows) && s.batch > 0 && s.left == []
    ensures Outstanding(Polled(s, polls)) == 0 <==> polls * s.batch >= Outstanding(s)
    ensures polls * s.batch >= Outstanding(s) ==> Polled(s, polls).published == s.published + Past(s.rows, s.cursor)
  {
    hide Past, Next, Polled, PublishRest, Ascending;
    PollsPublish(s, polls);
    var past := Past(s.rows, s.cursor);
    assert past[..|past|] == past;
  }
}
