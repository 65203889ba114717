/** The installer as it works: privileged commands on one machine, any of which may be refused. */
module InstallerObject {
  import opened Prelude
  import opened Installer

  class Machine {
    var box: Box
    var left: Option<nat>   // how many more commands get through; None when nothing stops them

    constructor (box: Box, left: Option<nat>)
      ensures this.box == box && this.left == left
    {
      this.box, this.left := box, left;
    }

    /** runSetupPrivileged: the only place the machine changes. */
    method Run(c: Command) returns (ok: bool)
      modifies this
      ensures ok == (old(left) != Some(0))
      ensures box == if ok then Do(old(box), c) else old(box)
      ensures left == if old(left).Some? && old(left).value > 0 then Some(old(left).value - 1) else old(left)
    {
      if left == Some(0) {
        return false;
      }
      if left.Some? {
        left := Some(left.value - 1);
      }
      box := Do(box, c);
      return true;
    }

    /** writeSetupFile: reports whether the content differed. A stopped write leaves the file as it was. */
    method WriteSetupFile(file: File, content: string) returns (ok: bool, changed: bool)
      modifies this
      ensures ok ==> box == Replay(old(box), WriteIfDiffers(old(box).files, file, content))
      ensures ok ==> changed == (Lookup(old(box).files, file) != Some(content))
      ensures !ok ==> box == old(box)
      ensures Through(old(left), left, ok)
    {
      Nothing(box);
      One(box, WriteFile(file, content));
      if Lookup(box.files, file) == Some(content) {
        return true, false;
      }
      ok := Run(WriteFile(file, content));
      return ok, ok;
    }

    method EnsureDirs(dirs: seq<string>) returns (ok: bool)
      modifies this
      ensures ok ==> box == Replay(old(box), DirCommands(dirs))
      ensures !ok ==> Interrupted(old(box), DirCommands(dirs), box)
      ensures Through(old(left), left, ok)
    {
      hide Do;
      var all := DirCommands(dirs);
      ghost var before := box;
      Nothing(box);
      for i := 0 to |dirs|
        invariant box == Replay(before, all[..i])
        invariant Through(old(left), left, true)
      {
        assert all[..i + 1][..i] == all[..i];
        ok := Run(MakeDir(dirs[i]));
        if !ok {
          return false;
        }
      }
      assert all[..|dirs|] == all;
      return true;
    }

    /** ensureSetupPackages: the repository only when something is missing and gh is, or its list is there already. */
    method EnsurePackages(p: Plan, keyringFetched: bool) returns (ok: bool)
      modifies this
      ensures ok ==> box == Replay(old(box), PackageCommands(p, old(box)))
      ensures !ok ==> Interrupted(old(box), PackageCommands(p, old(box)), box)
      ensures keyringFetched ==> Through(old(left), left, ok)
    {
      hide Replay, Do, Interrupted, RepoCommands;
      ghost var before := box;
      Nothing(box);
      Completed(box, PackageCommands(p, box));
      var missing := FindMissing(p.packages, box.packages);
      if missing == [] {
        return true;
      }
      ghost var repo := if "gh" in missing || SourceListFile in box.files then RepoCommands(p, box) else [];
      ghost var apt := [AptUpdate, AptInstall(missing)];
      if "gh" in missing || SourceListFile in box.files {
        if !keyringFetched {
          return false;
        }
        ok := EnsureRepo(p);
        if !ok {
          InterruptedFirst(before, repo, apt, box);
          return false;
        }
      }
      ghost var mid := box;
      assert mid == Replay(before, repo);
      ok := Apt(missing);
      if !ok {
        InterruptedThen(before, repo, apt, box);
        return false;
      }
      ReplayAppend(before, repo, apt);
    }

    method Apt(missing: seq<string>) returns (ok: bool)
      modifies this
      ensures ok ==> box == Replay(old(box), [AptUpdate, AptInstall(missing)])
      ensures !ok ==> Interrupted(old(box), [AptUpdate, AptInstall(missing)], box)
      ensures Through(old(left), left, ok)
    {
      hide Do;
      ghost var before, all := box, [AptUpdate, AptInstall(missing)];
      Completed(before, all);
      assert all[..1] == [AptUpdate] && all[..1][..0] == [] && all[..2] == all;
      Nothing(before);
      One(before, AptUpdate);
      ok := Run(AptUpdate);
      if !ok {
        return false;
      }
      ok := Run(AptInstall(missing));
    }

    /** ensureGitHubCLIRepo, once the signing key has been fetched. */
    method EnsureRepo(p: Plan) returns (ok: bool)
      modifies this
      ensures ok ==> box == Replay(old(box), RepoCommands(p, old(box)))
      ensures !ok ==> Interrupted(old(box), RepoCommands(p, old(box)), box)
      ensures Through(old(left), left, ok)
    {
      hide Replay, Interrupted, WriteIfDiffers;
      ghost var before := box;
      ghost var key, list := WriteIfDiffers(box.files, KeyringFile, p.keyring), WriteIfDiffers(box.files, SourceListFile, p.sourceList);
      ghost var dir := [MakeDir(p.keyringDir)];
      Completed(before, dir + key + list);
      One(before, MakeDir(p.keyringDir));
      ok := Run(MakeDir(p.keyringDir));
      if !ok {
        return false;
      }
      Completed(before, dir);
      InterruptedFirst(before, dir, key, box);
      InterruptedFirst(before, dir + key, list, box);
      var changed;
      ok, changed := WriteSetupFile(KeyringFile, p.keyring);
      if !ok {
        return false;
      }
      ReplayAppend(before, dir, key);
      WriteReplay(Do(before, MakeDir(p.keyringDir)), KeyringFile, p.keyring);
      SameDecision(before.files, box.files, SourceListFile, p.sourceList);
      Completed(before, dir + key);
      InterruptedFirst(before, dir + key, list, box);
      ok, changed := WriteSetupFile(SourceListFile, p.sourceList);
      if !ok {
        return false;
      }
      ReplayAppend(before, dir + key, list);
    }

    /** ensureSetupBinary: reports whether the installed binary was another one. */
    method EnsureBinary(p: Plan) returns (ok: bool, changed: bool)
      modifies this
      ensures ok ==> box == Replay(old(box), BinaryCommands(p, old(box))) && changed == BinaryChanges(p, old(box))
      ensures !ok ==> box == old(box)
      ensures Through(old(left), left, ok)
    {
      Nothing(box);
      One(box, PlaceBinary(p.self));
      if box.binary == Some(p.self) {
        return true, false;
      }
      ok := Run(PlaceBinary(p.self));
      return ok, true;
    }

    method WriteUnits(p: Plan) returns (ok: bool, daemonChanged: bool, gatewayChanged: bool)
      modifies this
      ensures ok ==> box == Replay(old(box), UnitCommands(p, old(box)))
      ensures ok ==> daemonChanged == UnitChanges(p, old(box), Daemon) && gatewayChanged == UnitChanges(p, old(box), Gateway)
      ensures !ok ==> Interrupted(old(box), UnitCommands(p, old(box)), box)
      ensures Through(old(left), left, ok)
    {
      hide Replay, Interrupted, WriteIfDiffers;
      ghost var before := box;
      ghost var first := WriteIfDiffers(box.files, UnitFile(Daemon), Text(p, Daemon));
      ghost var second := WriteIfDiffers(box.files, UnitFile(Gateway), Text(p, Gateway));
      Completed(before, first + second);
      daemonChanged, gatewayChanged := false, false;
      ok, daemonChanged := WriteSetupFile(UnitFile(Daemon), Text(p, Daemon));
      if !ok {
        return;
      }
      Completed(before, first);
      InterruptedFirst(before, first, second, box);
      WriteReplay(before, UnitFile(Daemon), Text(p, Daemon));
      SameDecision(before.files, box.files, UnitFile(Gateway), Text(p, Gateway));
      ok, gatewayChanged := WriteSetupFile(UnitFile(Gateway), Text(p, Gateway));
      if !ok {
        return;
      }
      ReplayAppend(before, first, second);
    }

    /** One command of a list known beforehand. */
    method Next(c: Command, ghost before: Box, ghost all: seq<Command>, ghost n: nat) returns (ok: bool)
      requires n < |all| && all[n] == c && box == Replay(before, all[..n])
      modifies this
      ensures ok ==> box == Replay(before, all[..n + 1])
      ensures !ok ==> Interrupted(before, all, box)
      ensures Through(old(left), left, ok)
    {
      hide Do;
      assert all[..n + 1][..n] == all[..n];
      ok := Run(c);
    }

    /** The systemctl part: reload if a unit changed, enable, then start or restart each unit that is to run. */
    method Serve(p: Plan, daemonChanged: bool, gatewayChanged: bool, binaryChanged: bool, ghost found: Box) returns (ok: bool)
      requires daemonChanged == UnitChanges(p, found, Daemon) && gatewayChanged == UnitChanges(p, found, Gateway)
      requires binaryChanged == BinaryChanges(p, found)
      modifies this
      ensures ok ==> box == Replay(old(box), ServiceCommands(p, found))
      ensures !ok ==> Interrupted(old(box), ServiceCommands(p, found), box)
      ensures Through(old(left), left, ok)
    {
      hide Replay, Interrupted, UnitChanges, BinaryChanges;
      ghost var before, all, n := box, ServiceCommands(p, found), 0;
      assert all[..0] == [];
      Nothing(before);
      if daemonChanged || gatewayChanged {
        ok := Next(DaemonReload, before, all, n);
        if !ok {
          return;
        }
        n := n + 1;
      }
      ok := Next(EnableUnits, before, all, n);
      if !ok {
        return;
      }
      ok := Next(if daemonChanged then Restart(Daemon) else Start(Daemon), before, all, n + 1);
      if !ok {
        return;
      }
      if p.pair || p.bound {
        ok := Next(if gatewayChanged || binaryChanged then Restart(Gateway) else Start(Gateway), before, all, n + 2);
        if !ok {
          return;
        }
        n := n + 1;
      }
      assert all[..n + 2] == all;
    }

    /** installSetupVM: a run that gets through issues exactly the commands the machine it found calls for. */
    method InstallSetupVM(p: Plan, keyringFetched: bool) returns (ok: bool, skew: bool)
      modifies this
      ensures ok ==> box == Install(p, old(box)) && skew == NotesSkew(p, old(box))
      ensures !ok ==> Interrupted(old(box), Commands(p, old(box)), box)
      ensures old(left).None? && keyringFetched ==> ok
    {
      hide Replay, Interrupted, DirCommands, PackageCommands, BinaryCommands, UnitCommands, ServiceCommands, UnitChanges, BinaryChanges;
      ghost var found := box;
      ghost var dirs, packages, binary := DirCommands(p.dirs), PackageCommands(p, found), BinaryCommands(p, found);
      ghost var units, services := UnitCommands(p, found), ServiceCommands(p, found);
      skew := false;
      ok := EnsureDirs(p.dirs);
      if !ok {
        InterruptedFirst(found, dirs, packages + binary + units + services, box);
        assert dirs + (packages + binary + units + services) == Commands(p, found);
        return;
      }
      DirsReplay(found, p.dirs);
      SamePackageDecisions(p, found, box.dirs);
      ok := EnsurePackages(p, keyringFetched);
      if !ok {
        GoesOnAndEnds(found, dirs, packages, binary + units + services, box);
        assert dirs + packages + (binary + units + services) == Commands(p, found);
        return;
      }
      ReplayAppend(found, dirs, packages);
      PackagesLeaveDecisions(p, found, box);
      var binaryChanged;
      ok, binaryChanged := EnsureBinary(p);
      if !ok {
        Completed(found, dirs + packages);
        InterruptedFirst(found, dirs + packages, binary + units + services, box);
        assert dirs + packages + (binary + units + services) == Commands(p, found);
        return;
      }
      ReplayAppend(found, dirs + packages, binary);
      BinaryLeavesDecisions(p, found, box);
      var daemonChanged, gatewayChanged;
      ok, daemonChanged, gatewayChanged := WriteUnits(p);
      if !ok {
        GoesOnAndEnds(found, dirs + packages + binary, units, services, box);
        return;
      }
      ReplayAppend(found, dirs + packages + binary, units);
      ok := Serve(p, daemonChanged, gatewayChanged, binaryChanged, found);
      if !ok {
        GoesOnAndEnds(found, dirs + packages + binary + units, services, [], box);
        assert dirs + packages + binary + units + services + [] == Commands(p, found);
        return;
      }
      ReplayAppend(found, dirs + packages + binary + units, services);
      skew := binaryChanged && !daemonChanged;
    }
  }

  lemma GoesOnAndEnds(b: Box, x: seq<Command>, y: seq<Command>, z: seq<Command>, now: Box)
    requires Interrupted(Replay(b, x), y, now)
    ensures Interrupted(b, x + y + z, now)
  {
    InterruptedThen(b, x, y, now);
    InterruptedFirst(b, x + y, z, now);
  }

  lemma PackagesLeaveDecisions(p: Plan, found: Box, now: Box)
    requires now == Replay(found, DirCommands(p.dirs) + PackageCommands(p, found))
    ensures BinaryCommands(p, now) == BinaryCommands(p, found) && BinaryChanges(p, now) == BinaryChanges(p, found)
    ensures forall u :: Lookup(now.files, UnitFile(u)) == Lookup(found.files, UnitFile(u))
  {
    hide Replay, PackageCommands, DirCommands, WithPackages;
    ReplayAppend(found, DirCommands(p.dirs), PackageCommands(p, found));
    DirsReplay(found, p.dirs);
    var b1 := found.(dirs := found.dirs + set d | d in p.dirs);
    SamePackageDecisions(p, found, b1.dirs);
    PackagesReplay(p, b1);
    PackagesKeepUnits(p, b1);
  }

  lemma BinaryLeavesDecisions(p: Plan, found: Box, now: Box)
    requires now == Replay(found, DirCommands(p.dirs) + PackageCommands(p, found) + BinaryCommands(p, found))
    ensures UnitCommands(p, now) == UnitCommands(p, found)
    ensures forall u :: UnitChanges(p, now, u) == UnitChanges(p, found, u)
  {
    hide PackageCommands, DirCommands, UnitCommands;
    var mid := Replay(found, DirCommands(p.dirs) + PackageCommands(p, found));
    ReplayAppend(found, DirCommands(p.dirs) + PackageCommands(p, found), BinaryCommands(p, found));
    PackagesLeaveDecisions(p, found, mid);
    Nothing(mid);
    One(mid, PlaceBinary(p.self));
    hide Replay;
    SameUnitDecisions(p, found, now);
  }

  method FindMissing(packages: seq<string>, have: set<string>) returns (missing: seq<string>)
    ensures missing == Missing(packages, have)
  {
    missing := [];
    for i := 0 to |packages|
      invariant Missing(packages, have) == missing + Missing(packages[i..], have)
    {
      assert packages[i..][1..] == packages[i + 1..];
      if packages[i] !in have {
        missing := missing + [packages[i]];
      }
    }
    assert packages[|packages|..] == [] && missing + [] == missing;
  }

  /** Nothing stops a command when nothing is set to; a failure means something was. */
  ghost predicate Through(before: Option<nat>, after: Option<nat>, ok: bool) {
    before.None? ==> after.None? && ok
  }
}
