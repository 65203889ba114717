/** In what order a run of the installer does things: nothing is used before it is there. */
module InstallerOrder {
  import opened Prelude
  import opened Installer

  /** Commands that touch services and nothing on disk. */
  predicate IsService(c: Command) {
    c == DaemonReload || c == EnableUnits || c.Start? || c.Restart?
  }

  lemma {:induction false} ServicesKeepDisk(b: Box, commands: seq<Command>)
    requires forall c <- commands :: IsService(c)
    ensures var t := Replay(b, commands);
      t.dirs == b.dirs && t.files == b.files && t.packages == b.packages && t.binary == b.binary
    decreases |commands|
  {
    if commands != [] {
      ServicesKeepDisk(b, commands[..|commands| - 1]);
      assert IsService(commands[|commands| - 1]);
    }
  }

  lemma ServiceCommandsAre(p: Plan, b: Box)
    ensures forall c <- ServiceCommands(p, b) :: IsService(c)
    ensures forall c <- Preparation(p, b) :: !IsService(c)
  {
    hide Missing, UnitChanges, BinaryChanges, Lookup;
    PreparationIs(p, b);
  }

  lemma PreparationIs(p: Plan, b: Box)
    ensures forall c <- Preparation(p, b) :: !IsService(c)
  {
    hide Missing, BinaryChanges, Lookup;
    assert forall c <- DirCommands(p.dirs) :: !IsService(c);
    assert forall c <- PackageCommands(p, b) :: !IsService(c);
  }

  lemma SplitAt(before: seq<Command>, services: seq<Command>, i: nat)
    requires (forall c <- before :: !IsService(c)) && forall c <- services :: IsService(c)
    requires i < |before + services|
    ensures IsService((before + services)[i]) <==> i >= |before|
  {
    hide IsService;
    var c := (before + services)[i];
    assert if i < |before| then c in before else c in services;
  }

  /** What has to be there before a unit may start. */
  ghost predicate InPlace(p: Plan, c: Box) {
    && (forall d <- p.dirs :: d in c.dirs) && (forall x <- p.packages :: x in c.packages)
    && c.binary == Some(p.self)
    && forall u :: Lookup(c.files, UnitFile(u)) == Some(Text(p, u))
  }

  /**
   Whenever a unit is started or restarted, every directory, package and unit file and the
   binary are in place, and the units are enabled; and where this run wrote a unit file,
   systemd has been told to read the files again since.
   */
  lemma StartsInPlace(p: Plan, b: Box, i: nat)
    requires i < |Commands(p, b)| && (Commands(p, b)[i].Start? || Commands(p, b)[i].Restart?)
    ensures InPlace(p, Replay(b, Commands(p, b)[..i]))
    ensures EnableUnits in Commands(p, b)[..i]
    ensures forall k, u, text :: 0 <= k < |Commands(p, b)| && Commands(p, b)[k] == WriteFile(UnitFile(u), text) ==>
      exists j :: k < j < i && Commands(p, b)[j] == DaemonReload
  {
    var before, services, all := Preparation(p, b), ServiceCommands(p, b), Commands(p, b);
    var n := |before|;
    ServiceCommandsAre(p, b);
    WritesMeanReload(p, b);
    ServiceOrder(p, b);
    hide Preparation, ServiceCommands, Placed, Lookup, Replay;
    SplitAt(before, services, i);
    assert all[i] == services[i - n];
    assert all[..i] == before + services[..i - n];
    ReplayAppend(b, before, services[..i - n]);
    PlacedReplay(p, b);
    PlacedReaches(p, b);
    ServicesKeepDisk(Placed(p, b), services[..i - n]);
    forall k, u, text | 0 <= k < |all| && all[k] == WriteFile(UnitFile(u), text)
      ensures exists j :: k < j < i && all[j] == DaemonReload
    {
      SplitAt(before, services, k);
      assert all[k] == before[k] && before[k] in before;
      assert all[n] == services[0];
    }
  }

  /** The services' commands: reload first where there is one, units enabled before anything starts. */
  lemma ServiceOrder(p: Plan, b: Box)
    ensures var s := ServiceCommands(p, b);
      forall i :: 0 <= i < |s| && (s[i].Start? || s[i].Restart?) ==>
        && EnableUnits in s[..i]
        && (s[0] == DaemonReload ==> i > 0)
  {
    hide UnitChanges, BinaryChanges;
    var s := ServiceCommands(p, b);
    assert s[0] == EnableUnits || s[1] == EnableUnits;
    forall i | 0 <= i < |s| && (s[i].Start? || s[i].Restart?)
      ensures EnableUnits in s[..i]
    {
      var k := if s[0] == EnableUnits then 0 else 1;
      assert s[..i][k] == EnableUnits;
    }
  }

  lemma WritesMeanReload(p: Plan, b: Box)
    ensures forall u, text :: WriteFile(UnitFile(u), text) in Preparation(p, b) ==> ServiceCommands(p, b)[0] == DaemonReload
  {
    hide Missing, Lookup;
    forall u, text | WriteFile(UnitFile(u), text) in Preparation(p, b)
      ensures UnitChanges(p, b, Daemon) || UnitChanges(p, b, Gateway)
    {
      assert WriteFile(UnitFile(u), text) !in DirCommands(p.dirs);
      assert WriteFile(UnitFile(u), text) !in PackageCommands(p, b);
      assert WriteFile(UnitFile(u), text) !in BinaryCommands(p, b);
    }
  }

  // Packages.

  /** The lists of packages a command list installs are found in its middle part alone. */
  lemma InstallsAt(x: seq<Command>, y: seq<Command>, z: seq<Command>, i: nat)
    requires (forall c <- x :: !c.AptInstall?) && forall c <- z :: !c.AptInstall?
    requires i < |x + y + z| && (x + y + z)[i].AptInstall?
    ensures |x| <= i < |x| + |y| && (x + y + z)[i] == y[i - |x|] && (x + y + z)[..i] == x + y[..i - |x|]
  {
    var all := x + y + z;
    var c := all[i];
    assert if i < |x| then c in x else if i < |x| + |y| then c == y[i - |x|] else c in z;
  }

  lemma OtherCommands(p: Plan, b: Box)
    ensures Commands(p, b) == DirCommands(p.dirs) + PackageCommands(p, b) + (BinaryCommands(p, b) + UnitCommands(p, b) + ServiceCommands(p, b))
    ensures forall c <- DirCommands(p.dirs) :: !c.AptInstall?
    ensures forall c <- BinaryCommands(p, b) + UnitCommands(p, b) + ServiceCommands(p, b) :: !c.AptInstall?
  {
    hide PackageCommands, Lookup, UnitChanges, BinaryChanges;
    assert forall c <- BinaryCommands(p, b) :: !c.AptInstall?;
    assert forall c <- UnitCommands(p, b) :: !c.AptInstall?;
    assert forall c <- ServiceCommands(p, b) :: !c.AptInstall?;
  }

  /** Where a list of package commands installs something. */
  lemma PackagesAt(p: Plan, b: Box, i: nat)
    requires i < |PackageCommands(p, b)| && PackageCommands(p, b)[i].AptInstall?
    ensures var missing := Missing(p.packages, b.packages);
      var repo := if "gh" in missing || SourceListFile in b.files then RepoCommands(p, b) else [];
      && missing != [] && PackageCommands(p, b)[i] == AptInstall(missing) && i == |repo| + 1
      && PackageCommands(p, b)[i - 1] == AptUpdate && PackageCommands(p, b)[..i - 1] == repo
  {
    hide Missing, Lookup;
    var repo := RepoCommands(p, b);
    assert forall c <- repo :: !c.AptInstall?;
    assert i < |repo| && i < |PackageCommands(p, b)| ==> PackageCommands(p, b)[i] == repo[i] || PackageCommands(p, b)[0] == AptUpdate;
  }

  /**
   What a run installs is what it found missing, right after the package lists were brought
   up to date; and before that, where gh is among it or the list of GitHub's repository was
   there already, that list and the key it is signed with are in place as they should be.
   */
  lemma InstallsFromGoodLists(p: Plan, b: Box, i: nat, packages: seq<string>)
    requires i < |Commands(p, b)| && Commands(p, b)[i] == AptInstall(packages)
    ensures forall x :: x in packages <==> x in p.packages && x !in b.packages
    ensures i > 0 && Commands(p, b)[i - 1] == AptUpdate
    ensures "gh" in packages || SourceListFile in b.files ==>
      var c := Replay(b, Commands(p, b)[..i - 1]);
      && p.keyringDir in c.dirs
      && Lookup(c.files, KeyringFile) == Some(p.keyring) && Lookup(c.files, SourceListFile) == Some(p.sourceList)
  {
    var dirs, commands := DirCommands(p.dirs), PackageCommands(p, b);
    var rest := BinaryCommands(p, b) + UnitCommands(p, b) + ServiceCommands(p, b);
    OtherCommands(p, b);
    hide Commands, DirCommands, PackageCommands, BinaryCommands, UnitCommands, ServiceCommands, Replay, RepoCommands, Missing;
    InstallsAt(dirs, commands, rest, i);
    PackagesAt(p, b, i - |dirs|);
    forall x
      ensures x in packages <==> x in p.packages && x !in b.packages
    {
      MissingMembers(p.packages, b.packages, x);
    }
    assert Commands(p, b)[..i - 1] == dirs + commands[..i - |dirs| - 1];
    ReplayAppend(b, dirs, commands[..i - |dirs| - 1]);
    DirsReplay(b, p.dirs);
    var b1 := b.(dirs := b.dirs + set d | d in p.dirs);
    SameRepo(p, b, b1.dirs);
    RepoReplay(p, b1);
  }

  lemma SameRepo(p: Plan, b: Box, dirs: set<string>)
    ensures RepoCommands(p, b) == RepoCommands(p, b.(dirs := dirs))
  {
  }
}
