/** Put, ImportWorkspace, MaterializeWorkspace and RemoveSession, as the store performs them. */
module AttachmentOperations {
  import opened Prelude
  import opened Text
  import opened AttachmentNames
  import opened AttachmentFiles
  import opened AttachmentStore
  import opened AttachmentTeardown

  datatype PutFaults = PutFaults(ctx: bool, open: bool, canonical: Faults, openWork: bool, work: Faults, rollback: bool)

  datatype PutResult = Stored | Refused | NotStored | NotProjected | NotRolledBack

  /** What goes wrong around one directory entry of an import or a materialize. */
  datatype EntryFaults = EntryFaults(ctx: bool, open: bool, openTarget: bool, write: Faults, close: bool)

  /** What opening the worktree's attachments directory and listing it came to. */
  datatype Listing = Missing | Unreadable | Listed

  ghost predicate Smooth(d: Dir, faults: string -> EntryFaults) {
    forall n :: var f := faults(n);
      !f.ctx && !f.open && !f.openTarget && !f.close && !f.write.cleanup && Quiet(d, f.write)
  }

  /** None of the temporary names to be drawn is taken. */
  ghost predicate TempsFree(d: Dir, faults: string -> EntryFaults) {
    forall n :: TempName(faults(n).write.suffix) !in d.entries
  }

  lemma WriteKeepsCanonical(before: Dir, now: Dir, name: string, source: seq<byte>, replace: bool)
    requires Canonical(before) && AtMost(before, now, name, source, replace) && IsComplete(Some(source))
    ensures Canonical(now)
  {
    hide ValidName;
    forall n | n in now.entries && ValidName(n)
      ensures IsComplete(BytesOf(now, n))
    {
      if !SameFile(before, now, n) {
        assert n == name;
      }
    }
  }

  class Store {
    const dataDir: string

    /** A blank data directory counts as none. */
    constructor (dir: string)
      ensures dataDir == if IsBlank(dir) then "" else dir
    {
      dataDir := if IsBlank(dir) then "" else dir;
    }

    predicate Acceptable(id: string, workspacePath: string, name: string, data: seq<byte>)
    {
      ValidSessionID(id) && ValidName(name) && 0 < |data| <= 10_485_760 && !IsBlank(workspacePath) && dataDir != ""
    }

    /** Put: the canonical copy first, then the worktree's; a failed second copy takes the first one back. */
    method Put(id: string, workspacePath: string, name: string, data: seq<byte>, canonical: FileTree, work: FileTree, f: PutFaults)
        returns (result: PutResult)
      requires canonical.Valid() && work.Valid() && canonical != work
      modifies canonical, work
      ensures canonical.Valid() && work.Valid()
      ensures result == Refused <==> f.ctx || !Acceptable(id, workspacePath, name, data)
      ensures result == Stored ==>
        && BytesOf(canonical.dir, name) == Some(data) && BytesOf(work.dir, name) == Some(data)
        && name !in old(canonical.dir).entries && name !in old(work.dir).entries
        && forall n :: ValidName(n) && n != name ==>
             SameFile(old(canonical.dir), canonical.dir, n) && SameFile(old(work.dir), work.dir, n)
      ensures result in {Refused, NotStored, NotProjected} ==> forall n :: ValidName(n) ==>
        SameFile(old(canonical.dir), canonical.dir, n) && SameFile(old(work.dir), work.dir, n)
      ensures result == NotRolledBack ==>
        && f.rollback && BytesOf(canonical.dir, name) == Some(data)
        && forall n :: ValidName(n) ==>
             (n != name ==> SameFile(old(canonical.dir), canonical.dir, n)) && SameFile(old(work.dir), work.dir, n)
      ensures result != Refused && !f.open && !f.openWork && Quiet(old(canonical.dir), f.canonical) && Quiet(old(work.dir), f.work) ==>
        (result == Stored <==> name !in old(canonical.dir).entries && name !in old(work.dir).entries)
      ensures old(canonical.trail) <= canonical.trail && old(work.trail) <= work.trail
      ensures TrailWithin(canonical.trail, |old(canonical.trail)|, old(canonical.dir), name, data, false)
      ensures TrailWithin(work.trail, |old(work.trail)|, old(work.dir), name, data, false)
    {
      hide ValidName, BytesOf, Sound, TempName;
      if f.ctx || !ValidSessionID(id) || !ValidName(name) || |data| == 0 || |data| > MAX_FILE_BYTES {
        return Refused;
      }
      if IsBlank(workspacePath) || dataDir == "" {
        return Refused;
      }
      if f.open {
        return NotStored;
      }
      canonical.MkdirAll();
      InvalidTemps(f.canonical, f.work);
      var first := WriteAtomic(canonical, name, data, false, f.canonical);
      if first != Written {
        return NotStored;
      }
      var second := Failed;
      if !f.openWork {
        second := WriteAtomic(work, name, data, false, f.work);
      }
      if second == Written {
        return Stored;
      }
      if f.rollback {
        return NotRolledBack;
      }
      RollbackWithin(old(canonical.dir), canonical.dir, name, data);
      TrailGrows(canonical.trail, |old(canonical.trail)|, Remove(canonical.dir, name), old(canonical.dir), name, data, false);
      canonical.Become(Remove(canonical.dir, name));
      return NotProjected;
    }

    /** One eligible file of the worktree is copied into canonical storage. */
    method TakeOver(canonical: FileTree, work: FileTree, name: string, faults: string -> EntryFaults,
                    ghost before: Dir, ghost todo: set<string>, ghost start: nat)
        returns (copied: Outcome)
      requires canonical.Valid() && canonical != work && Eligible(work.dir, name) && name in todo
      requires ImportedBut(before, work.dir, canonical.dir, todo)
      requires AllImportedSome(before, work.dir, canonical.trail, start)
      modifies canonical
      ensures canonical.Valid() && old(canonical.trail) <= canonical.trail && (old(canonical.made) ==> canonical.made)
      ensures ImportedBut(before, work.dir, canonical.dir, todo)
      ensures copied in {Written, Exists} ==> ImportedBut(before, work.dir, canonical.dir, todo - {name})
      ensures copied !in {Empty, TooLarge}
      ensures AllImportedSome(before, work.dir, canonical.trail, start)
      ensures Smooth(before, faults) && TempsFree(old(canonical.dir), faults) ==>
        copied in {Written, Exists} && TempsFree(canonical.dir, faults)
    {
      hide ValidName, ImportedSome, ImportedBut, TakenOver, Sound, TempsFree, Smooth, SameFile, TempName, BytesOf;
      EligibleSome(work.dir, name);
      var bytes := BytesOf(work.dir, name).value;
      ghost var here, trail := canonical.dir, canonical.trail;
      if Smooth(before, faults) && TempsFree(here, faults) {
        SmoothEntry(before, faults, name, here);
      }
      copied := WriteAtomic(canonical, name, bytes, false, faults(name).write);
      TempIsNotValid(faults(name).write.suffix);
      TakeEntry(before, work.dir, here, canonical.dir, todo, name, copied);
      TrailImported(before, work.dir, here, trail, canonical.trail, start, todo, name);
      if Smooth(before, faults) && TempsFree(here, faults) {
        TempIsFree(here, faults, name);
        TempsStayFree(here, canonical.dir, faults, name);
      }
    }

    /** ImportWorkspace: goes through the worktree's entries in any order; an earlier canonical file wins. */
    method ImportWorkspace(id: string, workspacePath: string, canonical: FileTree, work: FileTree,
                           listing: Listing, ctx: bool, faults: string -> EntryFaults)
        returns (ok: bool)
      requires canonical.Valid() && work.Valid() && canonical != work
      modifies canonical
      ensures canonical.Valid()
      ensures ok && listing == Listed ==> Imported(old(canonical.dir), work.dir, canonical.dir)
      ensures ok && listing != Listed ==> listing == Missing && canonical.dir == old(canonical.dir)
      ensures ok ==> !ctx && ValidSessionID(id) && !IsBlank(workspacePath)
      ensures ImportedSome(old(canonical.dir), work.dir, canonical.dir)
      ensures old(canonical.trail) <= canonical.trail
      ensures AllImportedSome(old(canonical.dir), work.dir, canonical.trail, |old(canonical.trail)|)
      ensures Smooth(old(canonical.dir), faults) && dataDir != "" && listing != Unreadable ==>
        (ok <==> !ctx && ValidSessionID(id) && !IsBlank(workspacePath))
    {
      hide ValidName, Imported, ImportedSome, ImportedBut, TakenOver, Sound, TempsFree, Smooth, SameFile, AllImportedSome, TempName;
      ghost var before, start := canonical.dir, |canonical.trail|;
      NothingImported(before, work.dir);
      NoStates(before, work.dir, canonical.trail);
      if ctx || !ValidSessionID(id) || IsBlank(workspacePath) || listing == Unreadable {
        return false;
      }
      if listing == Missing {
        return true;
      }
      SmoothStart(before, faults);
      var todo, sessionOpen := work.dir.entries.Keys, false;
      while todo != {}
        invariant todo <= work.dir.entries.Keys
        invariant canonical.Valid() && old(canonical.trail) <= canonical.trail && (sessionOpen ==> canonical.made)
        invariant ImportedBut(before, work.dir, canonical.dir, todo)
        invariant AllImportedSome(before, work.dir, canonical.trail, start)
        invariant Smooth(before, faults) ==> TempsFree(canonical.dir, faults)
        decreases todo
      {
        var name :| name in todo;
        ghost var was := todo;
        todo := todo - {name};
        if Smooth(before, faults) {
          SmoothEntry(before, faults, name, canonical.dir);
        }
        if faults(name).ctx {
          ImportedButSome(before, work.dir, canonical.dir, was);
          return false;
        }
        if work.dir.entries[name].Symlink? || !ValidName(name) {
          SkipEntry(before, work.dir, canonical.dir, was, name);
          continue;
        }
        if faults(name).open {
          ImportedButSome(before, work.dir, canonical.dir, was);
          return false;
        }
        if !IsComplete(BytesOf(work.dir, name)) {
          SkipEntry(before, work.dir, canonical.dir, was, name);
          continue;
        }
        if !sessionOpen {
          if dataDir == "" || faults(name).openTarget {
            ImportedButSome(before, work.dir, canonical.dir, was);
            return false;
          }
          canonical.MkdirAll();
          sessionOpen := true;
        }
        var copied := TakeOver(canonical, work, name, faults, before, was, start);
        if copied in {Exists, Empty, TooLarge} {
          continue;
        }
        if copied != Written || faults(name).close {
          ImportedButSome(before, work.dir, canonical.dir, was);
          return false;
        }
      }
      ImportedAll(before, work.dir, canonical.dir);
      ImportedIsSome(before, work.dir, canonical.dir);
      return true;
    }

    /** MaterializeWorkspace: every canonical file replaces whatever the worktree has under its name. */
    method MaterializeWorkspace(id: string, workspacePath: string, canonical: FileTree, work: FileTree,
                                ctx: bool, unreadable: bool, faults: string -> EntryFaults)
        returns (ok: bool, materialized: bool)
      requires canonical.Valid() && work.Valid() && canonical != work
      modifies work
      ensures work.Valid()
      ensures ok && dataDir != "" ==>
        && Projected(canonical.dir, old(work.dir), work.dir)
        && (materialized <==> exists n :: Eligible(canonical.dir, n))
      ensures dataDir == "" ==> !materialized && work.dir == old(work.dir) && (ok <==> !ctx && !IsBlank(workspacePath))
      ensures !ok ==> !materialized && ProjectedSome(canonical.dir, old(work.dir), work.dir)
      ensures Smooth(old(work.dir), faults) && NoFolders(canonical.dir, old(work.dir)) && !unreadable && dataDir != "" ==>
        (ok <==> !ctx && !IsBlank(workspacePath) && ValidSessionID(id))
    {
      hide ValidName, Projected, ProjectedSome, ProjectedName, ProjectedBut, Sound, TempsFree, Smooth, SameFile,
        TempName, NoFolders, Eligible;
      ghost var before := work.dir;
      EligibleIsEntry(canonical.dir);
      NothingProjected(canonical.dir, before);
      if ctx || IsBlank(workspacePath) {
        return false, false;
      }
      if dataDir == "" {
        return true, false;
      }
      if !ValidSessionID(id) {
        return false, false;
      }
      if !canonical.made {
        NothingCanonical(canonical.dir, before);
        return true, false;
      }
      if unreadable {
        return false, false;
      }
      SmoothStart(before, faults);
      var todo := canonical.dir.entries.Keys;
      materialized := false;
      while todo != {}
        invariant todo <= canonical.dir.entries.Keys
        invariant work.Valid()
        invariant ProjectedBut(canonical.dir, before, work.dir, todo)
        invariant materialized <==> exists n :: Eligible(canonical.dir, n) && n !in todo
        invariant Smooth(before, faults) ==> TempsFree(work.dir, faults)
        decreases todo
      {
        var name :| name in todo;
        ghost var was := todo;
        todo := todo - {name};
        if Smooth(before, faults) {
          SmoothEntry(before, faults, name, work.dir);
        }
        if faults(name).ctx {
          ProjectedButSome(canonical.dir, before, work.dir, was);
          return false, false;
        }
        if canonical.dir.entries[name].Symlink? || !ValidName(name) {
          NotEligible(canonical.dir, name);
          PassEntry(canonical.dir, before, work.dir, was, name);
          continue;
        }
        if faults(name).open {
          ProjectedButSome(canonical.dir, before, work.dir, was);
          return false, false;
        }
        if !IsComplete(BytesOf(canonical.dir, name)) {
          NotEligible(canonical.dir, name);
          PassEntry(canonical.dir, before, work.dir, was, name);
          continue;
        }
        EligibleMeans(canonical.dir, name);
        if faults(name).openTarget {
          ProjectedButSome(canonical.dir, before, work.dir, was);
          return false, false;
        }
        var copied := Project(canonical, work, name, faults, before, was);
        if copied != Written || faults(name).close {
          ProjectedButSome(canonical.dir, before, work.dir, was);
          return false, false;
        }
        materialized := true;
      }
      ProjectedAll(canonical.dir, before, work.dir);
      return true, materialized;
    }

    /** One canonical file replaces its copy in the worktree. */
    method Project(canonical: FileTree, work: FileTree, name: string, faults: string -> EntryFaults,
                   ghost before: Dir, ghost todo: set<string>)
        returns (copied: Outcome)
      requires work.Valid() && canonical != work && Eligible(canonical.dir, name) && name in todo
      requires ProjectedBut(canonical.dir, before, work.dir, todo)
      modifies work
      ensures work.Valid()
      ensures ProjectedBut(canonical.dir, before, work.dir, todo)
      ensures copied == Written ==> ProjectedBut(canonical.dir, before, work.dir, todo - {name})
      ensures Smooth(before, faults) && TempsFree(old(work.dir), faults) ==>
        TempsFree(work.dir, faults) && (NoFolders(canonical.dir, before) ==> copied == Written)
    {
      hide ValidName, ProjectedName, ProjectedBut, Sound, TempsFree, Smooth, SameFile, TempName, BytesOf, NoFolders;
      EligibleSome(canonical.dir, name);
      var bytes := BytesOf(canonical.dir, name).value;
      ghost var here := work.dir;
      NotAFolder(canonical.dir, before, here, todo, name);
      if Smooth(before, faults) && TempsFree(here, faults) {
        SmoothEntry(before, faults, name, here);
      }
      copied := WriteAtomic(work, name, bytes, true, faults(name).write);
      TempIsNotValid(faults(name).write.suffix);
      ProjectEntry(canonical.dir, before, here, work.dir, todo, name, copied);
      if Smooth(before, faults) && TempsFree(here, faults) {
        TempIsFree(here, faults, name);
        TempsStayFree(here, work.dir, faults, name);
      }
    }

    /** RemoveSession: the canonical files go one by one, then the directory; a failure leaves the rest. */
    method RemoveSession(id: string, canonical: FileTree, ctx: bool, late: bool, stuck: set<string>) returns (ok: bool)
      requires canonical.Valid()
      modifies canonical
      ensures canonical.Valid()
      ensures ok <==>
        && !ctx
        && (dataDir == "" || (ValidSessionID(id) && (!old(canonical.made) || (!late && stuck * old(canonical.dir).entries.Keys == {}))))
      ensures ok && dataDir != "" ==> !canonical.made && canonical.dir.entries == map[]
      ensures dataDir == "" || ctx || !ValidSessionID(id) ==> canonical.dir == old(canonical.dir)
      ensures forall n :: n !in canonical.dir.entries || SameFile(old(canonical.dir), canonical.dir, n)
      ensures old(canonical.trail) <= canonical.trail
      ensures forall k :: |old(canonical.trail)| <= k < |canonical.trail| ==>
        forall n :: n !in canonical.trail[k].entries || SameFile(old(canonical.dir), canonical.trail[k], n)
    {
      if ctx || (dataDir != "" && !ValidSessionID(id)) {
        return false;
      }
      if dataDir == "" || !canonical.made {
        return true;
      }
      ghost var before, start := canonical.dir, |canonical.trail|;
      while canonical.dir.entries.Keys != {}
        invariant canonical.Valid() && canonical.made && old(canonical.trail) <= canonical.trail
        invariant canonical.dir.data == before.data && canonical.dir.entries.Keys <= before.entries.Keys
        invariant forall n <- before.entries.Keys - canonical.dir.entries.Keys :: n !in stuck
        invariant forall n <- canonical.dir.entries :: SameFile(before, canonical.dir, n)
        invariant forall k :: start <= k < |canonical.trail| ==>
          forall n :: n !in canonical.trail[k].entries || SameFile(before, canonical.trail[k], n)
        decreases canonical.dir.entries.Keys
      {
        var name :| name in canonical.dir.entries.Keys;
        if name in stuck {
          assert name in stuck * before.entries.Keys;
          return false;
        }
        canonical.Become(Remove(canonical.dir, name));
      }
      canonical.RemoveDir();
      return !late;
    }
  }

  /** All names outside `todo` have been dealt with; those in it have been left alone, or taken over already. */
  ghost predicate ImportedBut(c: Dir, w: Dir, now: Dir, todo: set<string>) {
    forall n :: ValidName(n) ==> TakenOver(c, w, now, n) || (n in todo && SameFile(c, now, n))
  }

  /** The states a method went through since `start` are all interrupted imports. */
  ghost predicate AllImportedSome(c: Dir, w: Dir, trail: seq<Dir>, start: nat) {
    forall k :: start <= k < |trail| ==> ImportedSome(c, w, trail[k])
  }

  lemma NoStates(c: Dir, w: Dir, trail: seq<Dir>)
    ensures AllImportedSome(c, w, trail, |trail|)
  {
  }

  lemma NothingImported(c: Dir, w: Dir)
    ensures ImportedSome(c, w, c) && ImportedBut(c, w, c, w.entries.Keys)
  {
    hide ValidName, IsComplete;
  }

  lemma ImportedButSome(c: Dir, w: Dir, now: Dir, todo: set<string>)
    requires ImportedBut(c, w, now, todo)
    ensures ImportedSome(c, w, now)
  {
    hide ValidName, Eligible, BytesOf;
    forall n | ValidName(n)
      ensures SameFile(c, now, n) || (n !in c.entries && TakenOver(c, w, now, n))
    {
      assert TakenOver(c, w, now, n) || (n in todo && SameFile(c, now, n));
    }
  }

  lemma ImportedAll(c: Dir, w: Dir, now: Dir)
    requires ImportedBut(c, w, now, {})
    ensures Imported(c, w, now)
  {
    hide ValidName, TakenOver, SameFile;
  }

  /** An entry the import passes over: it was not eligible. */
  lemma SkipEntry(c: Dir, w: Dir, now: Dir, todo: set<string>, name: string)
    requires ImportedBut(c, w, now, todo) && !Eligible(w, name)
    ensures ImportedBut(c, w, now, todo - {name})
  {
    hide ValidName, IsComplete;
    forall n | ValidName(n)
      ensures TakenOver(c, w, now, n) || (n in todo - {name} && SameFile(c, now, n))
    {
      assert TakenOver(c, w, now, n) || (n in todo && SameFile(c, now, n));
    }
  }

  /** An entry the import writes, or finds already there. */
  lemma TakeEntry(c: Dir, w: Dir, here: Dir, now: Dir, todo: set<string>, name: string, copied: Outcome)
    requires ImportedBut(c, w, here, todo) && name in todo && Eligible(w, name)
    requires forall n | ValidName(n) && (copied == Written ==> n != name) :: SameFile(here, now, n)
    requires copied == Written ==> name !in here.entries && BytesOf(now, name) == BytesOf(w, name)
    requires copied == Exists ==> name in here.entries
    ensures ImportedBut(c, w, now, todo)
    ensures copied in {Written, Exists} ==> ImportedBut(c, w, now, todo - {name})
  {
    hide ValidName, IsComplete, BytesOf;
    forall n | ValidName(n)
      ensures TakenOver(c, w, now, n) || (n in todo && SameFile(c, now, n))
      ensures copied in {Written, Exists} ==> TakenOver(c, w, now, n) || (n in todo - {name} && SameFile(c, now, n))
    {
      assert TakenOver(c, w, here, n) || (n in todo && SameFile(c, here, n));
      EligibleIsThere(w, here, n);
    }
  }

  lemma EligibleIsThere(w: Dir, d: Dir, n: string)
    ensures BytesOf(d, n) == BytesOf(w, n) && Eligible(w, n) ==> n in d.entries
    ensures n !in d.entries ==> BytesOf(d, n) == None
  {
  }

  lemma TrailImported(c: Dir, w: Dir, here: Dir, trail: seq<Dir>, trail': seq<Dir>, start: nat, todo: set<string>, name: string)
    requires ImportedBut(c, w, here, todo) && Eligible(w, name) && trail <= trail'
    requires AllImportedSome(c, w, trail, start) && BytesOf(w, name).Some?
    requires TrailWithin(trail', |trail|, here, name, BytesOf(w, name).value, false)
    ensures AllImportedSome(c, w, trail', start)
  {
    hide ImportedSome, AtMost, ImportedBut;
    forall k | start <= k < |trail'|
      ensures ImportedSome(c, w, trail'[k])
    {
      if k < |trail| {
        assert trail'[k] == trail[k];
      } else {
        WriteImported(c, w, here, trail'[k], todo, name);
      }
    }
  }

  lemma TempIsFree(d: Dir, faults: string -> EntryFaults, name: string)
    requires TempsFree(d, faults)
    ensures TempName(faults(name).write.suffix) !in d.entries
  {
  }

  lemma WriteImported(c: Dir, w: Dir, here: Dir, now: Dir, todo: set<string>, name: string)
    requires ImportedBut(c, w, here, todo) && Eligible(w, name)
    requires AtMost(here, now, name, BytesOf(w, name).value, false)
    ensures ImportedSome(c, w, now)
  {
    hide ValidName, IsComplete, BytesOf;
    forall n | ValidName(n)
      ensures SameFile(c, now, n) || (n !in c.entries && TakenOver(c, w, now, n))
    {
      assert TakenOver(c, w, here, n) || (n in todo && SameFile(c, here, n));
      EligibleSome(w, name);
      assert SameFile(here, now, n) || (n == name && n !in here.entries && BytesOf(now, n) == Some(BytesOf(w, name).value));
      EligibleIsThere(w, here, n);
    }
  }

  lemma EligibleSome(w: Dir, name: string)
    ensures Eligible(w, name) ==> BytesOf(w, name).Some?
  {
  }

  lemma SmoothStart(d: Dir, faults: string -> EntryFaults)
    ensures Smooth(d, faults) ==> TempsFree(d, faults)
  {
    hide TempName;
  }

  lemma SmoothEntry(before: Dir, faults: string -> EntryFaults, name: string, here: Dir)
    requires Smooth(before, faults) && TempsFree(here, faults)
    ensures var f := faults(name);
      !f.ctx && !f.open && !f.openTarget && !f.close && !f.write.cleanup && Quiet(here, f.write)
  {
    hide TempName;
  }

  lemma TempsStayFree(here: Dir, now: Dir, faults: string -> EntryFaults, name: string)
    requires TempsFree(here, faults) && ValidName(name)
    requires forall n | n != TempName(faults(name).write.suffix) && n != name :: SameFile(here, now, n)
    requires TempName(faults(name).write.suffix) !in now.entries
    ensures TempsFree(now, faults)
  {
    hide ValidName, TempName, BytesOf;
    forall n
      ensures TempName(faults(n).write.suffix) !in now.entries
    {
      TempIsNotValid(faults(n).write.suffix);
      if TempName(faults(n).write.suffix) != TempName(faults(name).write.suffix) {
        assert SameFile(here, now, TempName(faults(n).write.suffix));
      }
    }
  }

  lemma InvalidTemps(f: Faults, g: Faults)
    ensures !ValidName(TempName(f.suffix)) && !ValidName(TempName(g.suffix))
  {
    TempIsNotValid(f.suffix);
    TempIsNotValid(g.suffix);
  }

  /** Taking back the one file written leaves every attachment as it was. */
  lemma RollbackWithin(before: Dir, now: Dir, name: string, source: seq<byte>)
    requires Sound(now) && name !in before.entries
    requires forall n :: ValidName(n) && n != name ==> SameFile(before, now, n)
    ensures Sound(Remove(now, name))
    ensures forall n :: ValidName(n) ==> SameFile(before, Remove(now, name), n)
    ensures AtMost(before, Remove(now, name), name, source, false)
  {
    hide ValidName;
  }

  /** What materializing has still to do, and what it has done. */
  ghost predicate ProjectedBut(c: Dir, w: Dir, now: Dir, todo: set<string>) {
    forall n :: ValidName(n) ==> ProjectedName(c, w, now, n) || (n in todo && SameFile(w, now, n))
  }

  /** No directory stands in the way of a canonical file. */
  ghost predicate NoFolders(c: Dir, w: Dir) {
    forall n :: Eligible(c, n) && n in w.entries ==> !w.entries[n].Folder?
  }

  lemma NothingProjected(c: Dir, w: Dir)
    ensures ProjectedSome(c, w, w) && ProjectedBut(c, w, w, c.entries.Keys)
  {
    hide ValidName, Eligible;
    EligibleIsEntry(c);
  }

  lemma NothingCanonical(c: Dir, w: Dir)
    requires c.entries == map[]
    ensures Projected(c, w, w)
    ensures !exists n :: Eligible(c, n)
  {
    hide ValidName, Eligible;
    EligibleIsEntry(c);
    assert forall n: string :: n !in c.entries;
  }

  lemma EligibleIsEntry(d: Dir)
    ensures forall n :: Eligible(d, n) ==> n in d.entries
  {
  }

  lemma ProjectedButSome(c: Dir, w: Dir, now: Dir, todo: set<string>)
    requires ProjectedBut(c, w, now, todo)
    ensures ProjectedSome(c, w, now)
  {
    hide ValidName, ProjectedName, SameFile;
  }

  lemma ProjectedAll(c: Dir, w: Dir, now: Dir)
    requires ProjectedBut(c, w, now, {})
    ensures Projected(c, w, now)
  {
    hide ValidName, ProjectedName, SameFile;
  }

  lemma NotEligible(d: Dir, name: string)
    requires name in d.entries && (d.entries[name].Symlink? || !ValidName(name) || !IsComplete(BytesOf(d, name)))
    ensures !Eligible(d, name)
  {
  }

  lemma EligibleMeans(d: Dir, name: string)
    ensures Eligible(d, name) <==> ValidName(name) && IsComplete(BytesOf(d, name))
  {
  }

  lemma PassEntry(c: Dir, w: Dir, now: Dir, todo: set<string>, name: string)
    requires ProjectedBut(c, w, now, todo) && !Eligible(c, name)
    ensures ProjectedBut(c, w, now, todo - {name})
  {
    hide ValidName, IsComplete;
    forall n | ValidName(n)
      ensures ProjectedName(c, w, now, n) || (n in todo - {name} && SameFile(w, now, n))
    {
      assert ProjectedName(c, w, now, n) || (n in todo && SameFile(w, now, n));
    }
  }

  lemma ProjectEntry(c: Dir, w: Dir, here: Dir, now: Dir, todo: set<string>, name: string, copied: Outcome)
    requires ProjectedBut(c, w, here, todo) && name in todo && Eligible(c, name)
    requires forall n | ValidName(n) && (copied == Written ==> n != name) :: SameFile(here, now, n)
    requires copied == Written ==> BytesOf(now, name) == BytesOf(c, name)
    ensures ProjectedBut(c, w, now, todo)
    ensures copied == Written ==> ProjectedBut(c, w, now, todo - {name})
  {
    hide ValidName, IsComplete, BytesOf;
    forall n | ValidName(n)
      ensures ProjectedName(c, w, now, n) || (n in todo && SameFile(w, now, n))
      ensures copied == Written ==> ProjectedName(c, w, now, n) || (n in todo - {name} && SameFile(w, now, n))
    {
      assert ProjectedName(c, w, here, n) || (n in todo && SameFile(w, here, n));
      EligibleIsThere(c, here, n);
    }
  }

  lemma NotAFolder(c: Dir, w: Dir, here: Dir, todo: set<string>, name: string)
    requires ProjectedBut(c, w, here, todo) && Eligible(c, name)
    ensures NoFolders(c, w) ==> CanTake(here, name, true)
  {
    hide ValidName, IsComplete;
    assert ProjectedName(c, w, here, name) || SameFile(w, here, name);
    FileIsNoFolder(c, here, name);
  }

  lemma FileIsNoFolder(c: Dir, d: Dir, name: string)
    requires Eligible(c, name)
    ensures BytesOf(d, name) == BytesOf(c, name) ==> CanTake(d, name, true)
  {
  }
}
