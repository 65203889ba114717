/**
 One session's canonical directory under any number of interleaved writers, with a crash
 possible between any two file operations: what can ever happen to an attachment.
 */
module AttachmentRuns {
  import opened Prelude
  import opened AttachmentNames
  import opened AttachmentFiles

  datatype Stage = Copying | Committed

  /** A call of writeReaderAtomicRoot in progress. Its temporary file has its own inode. */
  datatype Writer = Writer(temp: string, inode: nat, name: string, source: seq<byte>, stage: Stage)

  /** `temps` remembers every temporary name ever drawn: random suffixes do not repeat. */
  datatype State = State(dir: Dir, writers: map<nat, Writer>, temps: set<string>)

  datatype Step =
    | Open(w: nat, suffix: string, inode: nat, name: string, source: seq<byte>)
    | Copy(w: nat, upTo: nat)
    | Commit(w: nat)
    | Unlink(w: nat)
    | Abandon(w: nat)
    | Rollback(w: nat)
    | Purge(name: string)
    | Crash

  ghost predicate Enabled(s: State, step: Step) {
    match step
    case Open(w, suffix, inode, name, source) =>
      && w !in s.writers && inode !in s.dir.data && ValidName(name)
      && TempName(suffix) !in s.dir.entries && TempName(suffix) !in s.temps
    case Copy(w, upTo) =>
      && w in s.writers && s.writers[w].stage == Copying && s.writers[w].inode in s.dir.data
      && |s.dir.data[s.writers[w].inode]| <= upTo <= Limit(s.writers[w].source)
    case Commit(w) =>
      && w in s.writers && s.writers[w].stage == Copying && s.writers[w].inode in s.dir.data
      && |s.dir.data[s.writers[w].inode]| == Limit(s.writers[w].source)
      && 0 < Limit(s.writers[w].source) <= MAX_FILE_BYTES
      && s.writers[w].temp in s.dir.entries
      && s.writers[w].name !in s.dir.entries
    case Unlink(w) => w in s.writers
    case Abandon(w) => w in s.writers
    case Rollback(w) => w in s.writers && s.writers[w].stage == Committed
    case Purge(name) => true
    case Crash => true
  }

  function Next(s: State, step: Step): State
    requires Enabled(s, step)
  {
    match step
    case Open(w, suffix, inode, name, source) =>
      State(Create(s.dir, TempName(suffix), inode),
            s.writers[w := Writer(TempName(suffix), inode, name, source, Copying)],
            s.temps + {TempName(suffix)})
    case Copy(w, upTo) => s.(dir := WriteAt(s.dir, s.writers[w].inode, s.writers[w].source[..upTo]))
    case Commit(w) =>
      s.(dir := LinkTo(s.dir, s.writers[w].temp, s.writers[w].name),
         writers := s.writers[w := s.writers[w].(stage := Committed)])
    case Unlink(w) => s.(dir := Remove(s.dir, s.writers[w].temp))
    case Abandon(w) => s.(writers := s.writers - {w})
    case Rollback(w) => s.(dir := Remove(s.dir, s.writers[w].name))
    case Purge(name) => s.(dir := Remove(s.dir, name))
    case Crash => s.(writers := map[])
  }

  /** The names a step removes on purpose: Put's rollback and RemoveSession. */
  function Removed(s: State, step: Step): set<string>
    requires Enabled(s, step)
  {
    match step
    case Rollback(w) => {s.writers[w].name}
    case Purge(name) => {name}
    case _ => {}
  }

  /** The attachment a step completes. */
  function Added(s: State, step: Step): map<string, seq<byte>>
    requires Enabled(s, step)
  {
    match step
    case Commit(w) => map[s.writers[w].name := s.writers[w].source]
    case _ => map[]
  }

  ghost predicate WriterInv(dir: Dir, temps: set<string>, w: Writer) {
    && w.inode in dir.data && w.temp in temps && !ValidName(w.temp) && ValidName(w.name)
    && |dir.data[w.inode]| <= Limit(w.source) && dir.data[w.inode] == w.source[..|dir.data[w.inode]|]
    && (w.temp in dir.entries ==> dir.entries[w.temp] == Hard(w.inode))
    && (w.stage == Copying ==> forall n <- dir.entries :: dir.entries[n] == Hard(w.inode) ==> n == w.temp)
  }

  ghost predicate Inv(s: State) {
    && Sound(s.dir) && Canonical(s.dir)
    && (forall w <- s.writers :: WriterInv(s.dir, s.temps, s.writers[w]))
    && (forall v, w :: v in s.writers && w in s.writers && v != w ==> s.writers[v].inode != s.writers[w].inode)
    && (forall v, w :: v in s.writers && w in s.writers && v != w ==> s.writers[v].temp != s.writers[w].temp)
  }

  /** At rest a canonical directory holds whole attachments; anything else in it is left over. */
  ghost predicate Initial(s: State) {
    Sound(s.dir) && Canonical(s.dir) && s.writers == map[]
  }

  // One lemma a kind of step.

  lemma OpenKeeps(s: State, w: nat, suffix: string, inode: nat, name: string, source: seq<byte>)
    requires Inv(s) && Enabled(s, Open(w, suffix, inode, name, source))
    ensures Inv(Next(s, Open(w, suffix, inode, name, source)))
    ensures Lawful(s.dir, Next(s, Open(w, suffix, inode, name, source)).dir, map[], {})
  {
    hide ValidName;
    TempIsNotValid(suffix);
    var t := Next(s, Open(w, suffix, inode, name, source));
    forall n | n in s.dir.entries
      ensures SameFile(s.dir, t.dir, n)
    {
    }
  }

  lemma CopyKeeps(s: State, w: nat, upTo: nat)
    requires Inv(s) && Enabled(s, Copy(w, upTo))
    ensures Inv(Next(s, Copy(w, upTo)))
    ensures Lawful(s.dir, Next(s, Copy(w, upTo)).dir, map[], {})
  {
    hide ValidName;
    var t := Next(s, Copy(w, upTo));
    forall n | ValidName(n)
      ensures SameFile(s.dir, t.dir, n)
    {
      assert n != s.writers[w].temp;
    }
  }

  lemma CommitKeeps(s: State, w: nat)
    requires Inv(s) && Enabled(s, Commit(w))
    ensures Inv(Next(s, Commit(w)))
    ensures Lawful(s.dir, Next(s, Commit(w)).dir, map[s.writers[w].name := s.writers[w].source], {})
  {
    hide ValidName;
    var t, x := Next(s, Commit(w)), s.writers[w];
    assert x.source[..|x.source|] == x.source;
    assert t.dir.entries[x.name] == Hard(x.inode);
    forall n | n != x.name
      ensures SameFile(s.dir, t.dir, n)
    {
    }
  }

  lemma RemoveKeeps(s: State, name: string)
    requires Inv(s)
    ensures Inv(s.(dir := Remove(s.dir, name)))
    ensures Lawful(s.dir, Remove(s.dir, name), map[], {name})
  {
    hide ValidName;
    forall n | n != name
      ensures SameFile(s.dir, Remove(s.dir, name), n)
    {
    }
  }

  lemma LeaveKeeps(s: State, writers: map<nat, Writer>)
    requires Inv(s) && writers.Items <= s.writers.Items
    ensures Inv(s.(writers := writers))
    ensures Lawful(s.dir, s.dir, map[], {})
  {
    hide ValidName, WriterInv, Canonical;
    forall w | w in writers
      ensures w in s.writers && s.writers[w] == writers[w]
    {
      assert (w, writers[w]) in writers.Items;
    }
  }

  /** A name taken for removal that is not an attachment's removes no attachment. */
  lemma TempRemovalLawful(before: Dir, after: Dir, temp: string)
    requires Lawful(before, after, map[], {temp}) && !ValidName(temp)
    ensures Lawful(before, after, map[], {})
  {
    hide ValidName, SameFile;
  }

  lemma WriterTempInvalid(s: State, w: nat)
    requires Inv(s) && w in s.writers
    ensures !ValidName(s.writers[w].temp)
  {
  }

  /** Every step keeps the invariant, and changes no attachment except by completing or removing it. */
  lemma StepKeeps(s: State, step: Step)
    requires Inv(s) && Enabled(s, step)
    ensures Inv(Next(s, step))
    ensures Lawful(s.dir, Next(s, step).dir, Added(s, step), Removed(s, step))
  {
    hide Inv, Lawful, ValidName, Remove;
    match step
    case Open(w, suffix, inode, name, source) => OpenKeeps(s, w, suffix, inode, name, source);
    case Copy(w, upTo) => CopyKeeps(s, w, upTo);
    case Commit(w) => CommitKeeps(s, w);
    case Unlink(w) =>
      RemoveKeeps(s, s.writers[w].temp);
      WriterTempInvalid(s, w);
      TempRemovalLawful(s.dir, Next(s, step).dir, s.writers[w].temp);
    case Rollback(w) => RemoveKeeps(s, s.writers[w].name);
    case Purge(name) => RemoveKeeps(s, name);
    case Abandon(w) => LeaveKeeps(s, s.writers - {w});
    case Crash => LeaveKeeps(s, map[]);
  }

  ghost predicate IsRun(states: seq<State>, steps: seq<Step>) {
    && |states| == |steps| + 1
    && Initial(states[0])
    && forall i :: 0 <= i < |steps| ==> Enabled(states[i], steps[i]) && states[i + 1] == Next(states[i], steps[i])
  }

  lemma {:induction false} RunInv(states: seq<State>, steps: seq<Step>, k: nat)
    requires IsRun(states, steps) && k < |states|
    ensures Inv(states[k])
  {
    hide Inv, Enabled, Next;
    if k == 0 {
      InitialInv(states[0]);
    } else {
      RunInv(states, steps, k - 1);
      StepKeeps(states[k - 1], steps[k - 1]);
    }
  }

  lemma InitialInv(s: State)
    requires Initial(s)
    ensures Inv(s)
  {
  }

  /** Whenever the machine stops, every attachment there is, is whole: 1 byte to 10 MiB. */
  lemma NeverPartial(states: seq<State>, steps: seq<Step>, k: nat, name: string)
    requires IsRun(states, steps) && k < |states|
    requires ValidName(name) && name in states[k].dir.entries
    ensures var bytes := BytesOf(states[k].dir, name); bytes.Some? && 1 <= |bytes.value| <= 10_485_760
  {
    hide ValidName, BytesOf;
    RunInv(states, steps, k);
  }

  /** An attachment keeps its bytes for as long as nobody removes it, whatever else runs or crashes. */
  lemma {:induction false} Immutable(states: seq<State>, steps: seq<Step>, i: nat, j: nat, name: string)
    requires IsRun(states, steps) && i <= j < |states|
    requires ValidName(name) && name in states[i].dir.entries
    requires forall k :: i <= k < j ==> name !in Removed(states[k], steps[k])
    ensures SameFile(states[i].dir, states[j].dir, name)
    decreases j
  {
    hide ValidName, Enabled, Next, Removed, Inv;
    if i < j {
      Immutable(states, steps, i, j - 1, name);
      RunInv(states, steps, j - 1);
      StepKeeps(states[j - 1], steps[j - 1]);
      assert name !in Removed(states[j - 1], steps[j - 1]);
    }
  }

  /** Somewhere in the run a writer set out to store exactly these bytes under this name. */
  ghost predicate WasOffered(steps: seq<Step>, name: string, bytes: seq<byte>) {
    exists k :: 0 <= k < |steps| && steps[k].Open? && steps[k].name == name && steps[k].source == bytes
  }

  lemma OfferedStays(steps: seq<Step>, more: seq<Step>, name: string, bytes: seq<byte>)
    requires steps <= more && WasOffered(steps, name, bytes)
    ensures WasOffered(more, name, bytes)
  {
    var k :| 0 <= k < |steps| && steps[k].Open? && steps[k].name == name && steps[k].source == bytes;
    assert more[k] == steps[k];
  }

  lemma {:induction false} WritersOffered(states: seq<State>, steps: seq<Step>, k: nat, w: nat)
    requires IsRun(states, steps) && k < |states| && w in states[k].writers
    ensures WasOffered(steps[..k], states[k].writers[w].name, states[k].writers[w].source)
    decreases k
  {
    hide ValidName, Canonical;
    if k > 0 {
      var before, step := states[k - 1], steps[k - 1];
      assert states[k] == Next(before, step) && Enabled(before, step);
      assert steps[..k][k - 1] == step;
      if w in before.writers {
        WritersOffered(states, steps, k - 1, w);
        assert steps[..k - 1] <= steps[..k];
        OfferedStays(steps[..k - 1], steps[..k], before.writers[w].name, before.writers[w].source);
        assert states[k].writers[w].name == before.writers[w].name;
      }
    }
  }

  /** What is read as an attachment was there from the start, or is exactly what some writer offered under that name. */
  lemma {:induction false} Provenance(states: seq<State>, steps: seq<Step>, k: nat, name: string)
    requires IsRun(states, steps) && k < |states|
    requires ValidName(name) && name in states[k].dir.entries
    ensures var bytes := BytesOf(states[k].dir, name);
      bytes.Some? && (bytes == BytesOf(states[0].dir, name) || WasOffered(steps[..k], name, bytes.value))
    decreases k
  {
    hide ValidName, Next, Inv, WasOffered, Initial, BytesOf, Lawful, SameFile;
    NeverPartial(states, steps, k, name);
    if k > 0 {
      var before, step := states[k - 1], steps[k - 1];
      RunInv(states, steps, k - 1);
      StepKeeps(before, step);
      AppearsOrStays(before.dir, states[k].dir, Added(before, step), Removed(before, step), name);
      if name in before.dir.entries && BytesOf(before.dir, name) == BytesOf(states[k].dir, name) {
        Provenance(states, steps, k - 1, name);
        if WasOffered(steps[..k - 1], name, BytesOf(before.dir, name).value) {
          OfferedStays(steps[..k - 1], steps[..k], name, BytesOf(before.dir, name).value);
        }
      } else {
        WritersOffered(states, steps, k - 1, step.w);
        OfferedStays(steps[..k - 1], steps[..k], name, before.writers[step.w].source);
      }
    }
  }

  lemma AppearsOrStays(before: Dir, after: Dir, added: map<string, seq<byte>>, removed: set<string>, name: string)
    requires Lawful(before, after, added, removed) && ValidName(name) && name in after.entries
    ensures (name in before.entries && BytesOf(before, name) == BytesOf(after, name))
      || (name in added && BytesOf(after, name) == Some(added[name]))
  {
    hide ValidName, BytesOf;
  }
}
