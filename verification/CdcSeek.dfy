/** A seek starts from now: what was in the log by then is not published any more, and what comes later is past the start. */
module CdcSeek {
  import opened Prelude
  import opened CdcLog
  import opened CdcRuns

  /** Since a seek that found `there` appended and `upTo` published. */
  ghost predicate SeekInv(s: State, there: seq<Event>, upTo: nat) {
    && s.epoch == upTo <= |s.published| && s.start <= s.used
    && (forall e <- there :: e in s.appended)
    && (forall e <- s.appended :: e !in there ==> e.seqNo > s.start)
    && (forall e <- s.rows :: e.seqNo > s.start ==> e !in there)
    && (forall e <- s.left :: e !in there)
    && (forall e <- s.published[s.epoch..] :: e !in there)
  }

  lemma SeekBegins(s: State)
    requires LogInv(s) && Enabled(s, Seek)
    ensures SeekInv(Next(s, Seek), s.appended, |s.published|)
  {
    LatestIsHighest(s.rows);
    assert s.published[|s.published|..] == [];
  }

  lemma AppendKeepsSeek(s: State, there: seq<Event>, upTo: nat, events: seq<Event>)
    requires LogInv(s) && SeekInv(s, there, upTo) && Enabled(s, Append(events))
    ensures SeekInv(Next(s, Append(events)), there, upTo)
  {
    var t := Next(s, Append(events));
    forall e | e in t.appended && e !in there
      ensures e.seqNo > t.start
    {
      assert e in s.appended || e in events;
    }
    forall e | e in t.rows && e.seqNo > t.start
      ensures e !in there
    {
      assert e in s.rows || e in events;
    }
  }

  lemma PublishKeepsSeek(s: State, there: seq<Event>, upTo: nat)
    requires SeekInv(s, there, upTo) && Enabled(s, PublishNext)
    ensures SeekInv(Next(s, PublishNext), there, upTo)
  {
    hide Hear;
    var t := Next(s, PublishNext);
    assert forall e <- t.left :: e in s.left;
    forall e | e in t.published[t.epoch..]
      ensures e !in there
    {
      assert e in s.published[s.epoch..] || e == s.left[0];
    }
  }

  lemma OtherKeepsSeek(s: State, there: seq<Event>, upTo: nat, step: Step)
    requires LogInv(s) && SeekInv(s, there, upTo) && Enabled(s, step)
    requires !step.Append? && !step.PublishNext? && !step.Seek?
    ensures SeekInv(Next(s, step), there, upTo)
  {
    hide Hear;
    if step.Read? {
      forall e | e in EventsAfter(s.rows, s.cursor, s.batch)
        ensures e in s.rows && e.seqNo > s.cursor
      {
        assert e in Past(s.rows, s.cursor);
      }
    }
  }

  lemma {:induction false} SeekRun(states: seq<State>, steps: seq<Step>, k: nat, j: nat)
    requires IsRun(states, steps) && k < j < |states| && steps[k] == Seek
    requires forall i :: k < i < j ==> steps[i] != Seek
    ensures SeekInv(states[j], states[k].appended, |states[k].published|)
    decreases j
  {
    hide Next, Enabled, SeekInv, BatchInv, Exactly, OnceInv, SubsInv, LogInv;
    RunInv(states, steps, j - 1);
    assert Enabled(states[j - 1], steps[j - 1]) && states[j - 1 + 1] == Next(states[j - 1], steps[j - 1]);
    if j == k + 1 {
      SeekBegins(states[k]);
    } else {
      SeekRun(states, steps, k, j - 1);
      var s, step := states[j - 1], steps[j - 1];
      if step.Append? {
        AppendKeepsSeek(s, states[k].appended, |states[k].published|, step.events);
      } else if step.PublishNext? {
        PublishKeepsSeek(s, states[k].appended, |states[k].published|);
      } else {
        OtherKeepsSeek(s, states[k].appended, |states[k].published|, step);
      }
    }
  }

  /**
   Until the next seek, what is published was written to the log after this one; and all
   that is written after it lies past the start, where PublishedExactlyOnce counts it in.
   */
  lemma SeekStartsFromNow(states: seq<State>, steps: seq<Step>, k: nat, j: nat)
    requires IsRun(states, steps) && k < j < |states| && steps[k] == Seek
    requires forall i :: k < i < j ==> steps[i] != Seek
    ensures states[j].epoch == |states[k].published| <= |states[j].published|
    ensures forall e <- states[j].published[|states[k].published|..] :: e !in states[k].appended
    ensures forall e <- states[j].appended :: e !in states[k].appended ==> e.seqNo > states[j].start
  {
    SeekRun(states, steps, k, j);
  }
}
