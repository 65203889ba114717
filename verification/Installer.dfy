/**
 What `ao setup-vm` does to a machine, as the list of privileged commands one run issues,
 and what that list makes of a second run and of a run that was cut short.
 */
module Installer {
  import opened Prelude

  datatype Unit = Daemon | Gateway

  /** The files the installer manages: two under /etc/apt, one per unit under /etc/systemd/system. */
  datatype File = KeyringFile | SourceListFile | UnitFile(unit: Unit)

  /** A running process: the unit text and the binary it was started from, and when. */
  datatype Process = Process(text: Option<string>, binary: Option<string>, generation: nat)

  datatype Command =
    | MakeDir(dir: string)
    | WriteFile(file: File, content: string)
    | AptUpdate
    | AptInstall(packages: seq<string>)
    | PlaceBinary(content: string)
    | DaemonReload
    | EnableUnits
    | Start(unit: Unit)
    | Restart(unit: Unit)

  datatype Box = Box(
    dirs: set<string>, files: map<File, string>, packages: set<string>, binary: Option<string>,
    enabled: bool, running: map<Unit, Process>, spawned: nat)

  /** What one run works from: the plan, the running ao binary, and what the downloads yield. */
  datatype Plan = Plan(
    dirs: seq<string>, packages: seq<string>, texts: map<Unit, string>, self: string,
    pair: bool, bound: bool, keyringDir: string, keyring: string, sourceList: string)

  function Text(p: Plan, u: Unit): string {
    if u in p.texts then p.texts[u] else ""
  }

  // The machine.

  function Lookup(files: map<File, string>, f: File): Option<string> {
    if f in files then Some(files[f]) else None
  }

  /** systemd runs the text of the unit file: enable and daemon-reload both make it read the files again. */
  function Spawn(b: Box, u: Unit): Box {
    b.(running := b.running[u := Process(Lookup(b.files, UnitFile(u)), b.binary, b.spawned)], spawned := b.spawned + 1)
  }

  function Do(b: Box, c: Command): Box {
    match c
    case MakeDir(dir) => b.(dirs := b.dirs + {dir})
    case WriteFile(file, content) => b.(files := b.files[file := content])
    case AptUpdate => b
    case AptInstall(packages) => b.(packages := b.packages + set x | x in packages)
    case PlaceBinary(content) => b.(binary := Some(content))
    case DaemonReload => b
    case EnableUnits => b.(enabled := true)
    case Start(u) => if u in b.running then b else Spawn(b, u)
    case Restart(u) => Spawn(b, u)
  }

  function Replay(b: Box, commands: seq<Command>): Box
    decreases |commands|
  {
    if commands == [] then b else Do(Replay(b, commands[..|commands| - 1]), commands[|commands| - 1])
  }

  // The commands of one run.

  function DirCommands(dirs: seq<string>): (r: seq<Command>)
    ensures |r| == |dirs| && forall i :: 0 <= i < |r| ==> r[i] == MakeDir(dirs[i])
  {
    seq(|dirs|, i requires 0 <= i < |dirs| => MakeDir(dirs[i]))
  }

  function Missing(packages: seq<string>, have: set<string>): seq<string> {
    if packages == [] then []
    else (if packages[0] in have then [] else [packages[0]]) + Missing(packages[1..], have)
  }

  lemma {:induction false} MissingMembers(packages: seq<string>, have: set<string>, x: string)
    ensures x in Missing(packages, have) <==> x in packages && x !in have
  {
    if packages != [] {
      MissingMembers(packages[1..], have, x);
      assert packages == [packages[0]] + packages[1..];
    }
  }

  /** writeSetupFile touches the disk only when the content differs. */
  function WriteIfDiffers(files: map<File, string>, f: File, content: string): seq<Command> {
    if Lookup(files, f) == Some(content) then [] else [WriteFile(f, content)]
  }

  function RepoCommands(p: Plan, b: Box): seq<Command> {
    [MakeDir(p.keyringDir)]
    + WriteIfDiffers(b.files, KeyringFile, p.keyring)
    + WriteIfDiffers(b.files, SourceListFile, p.sourceList)
  }

  function PackageCommands(p: Plan, b: Box): seq<Command> {
    var missing := Missing(p.packages, b.packages);
    if missing == [] then []
    else
      (if "gh" in missing || SourceListFile in b.files then RepoCommands(p, b) else [])
      + [AptUpdate, AptInstall(missing)]
  }

  predicate BinaryChanges(p: Plan, b: Box) {
    b.binary != Some(p.self)
  }

  predicate UnitChanges(p: Plan, b: Box, u: Unit) {
    Lookup(b.files, UnitFile(u)) != Some(Text(p, u))
  }

  function UnitCommands(p: Plan, b: Box): seq<Command> {
    WriteIfDiffers(b.files, UnitFile(Daemon), Text(p, Daemon)) + WriteIfDiffers(b.files, UnitFile(Gateway), Text(p, Gateway))
  }

  predicate RunsGateway(p: Plan) {
    p.pair || p.bound
  }

  function ServiceCommands(p: Plan, b: Box): seq<Command> {
    (if UnitChanges(p, b, Daemon) || UnitChanges(p, b, Gateway) then [DaemonReload] else [])
    + [EnableUnits]
    + [if UnitChanges(p, b, Daemon) then Restart(Daemon) else Start(Daemon)]
    + (if !RunsGateway(p) then []
       else if UnitChanges(p, b, Gateway) || BinaryChanges(p, b) then [Restart(Gateway)]
       else [Start(Gateway)])
  }

  function BinaryCommands(p: Plan, b: Box): seq<Command> {
    if BinaryChanges(p, b) then [PlaceBinary(p.self)] else []
  }

  function Preparation(p: Plan, b: Box): seq<Command> {
    DirCommands(p.dirs) + PackageCommands(p, b) + BinaryCommands(p, b) + UnitCommands(p, b)
  }

  /** Everything a run issues, decided by the machine it finds. */
  function Commands(p: Plan, b: Box): seq<Command> {
    Preparation(p, b) + ServiceCommands(p, b)
  }

  /** A run that was not stopped. */
  function Install(p: Plan, b: Box): Box {
    Replay(b, Commands(p, b))
  }

  /** A run stopped after some of its commands. */
  ghost predicate Interrupted(b: Box, commands: seq<Command>, now: Box) {
    exists k :: 0 <= k <= |commands| && now == Replay(b, commands[..k])
  }

  // Replaying.

  lemma {:induction false} ReplayAppend(b: Box, x: seq<Command>, y: seq<Command>)
    ensures Replay(b, x + y) == Replay(Replay(b, x), y)
    decreases |y|
  {
    hide Do;
    if y == [] {
      assert x + y == x;
    } else {
      assert (x + y)[..|x + y| - 1] == x + y[..|y| - 1];
      ReplayAppend(b, x, y[..|y| - 1]);
    }
  }

  lemma InterruptedFirst(b: Box, x: seq<Command>, y: seq<Command>, now: Box)
    requires Interrupted(b, x, now)
    ensures Interrupted(b, x + y, now)
  {
    hide Replay;
    var k :| 0 <= k <= |x| && now == Replay(b, x[..k]);
    assert (x + y)[..k] == x[..k];
  }

  lemma InterruptedThen(b: Box, x: seq<Command>, y: seq<Command>, now: Box)
    requires Interrupted(Replay(b, x), y, now)
    ensures Interrupted(b, x + y, now)
  {
    hide Replay;
    var k :| 0 <= k <= |y| && now == Replay(Replay(b, x), y[..k]);
    ReplayAppend(b, x, y[..k]);
    assert (x + y)[..|x| + k] == x + y[..k];
  }

  lemma Completed(b: Box, x: seq<Command>)
    ensures Interrupted(b, x, Replay(b, x)) && Interrupted(b, x, b)
  {
    assert x[..|x|] == x && x[..0] == [];
    assert Replay(b, []) == b;
    hide Replay;
  }

  // What each part of a run leaves behind.

  lemma {:induction false} DirsReplay(b: Box, dirs: seq<string>)
    ensures Replay(b, DirCommands(dirs)) == b.(dirs := b.dirs + set d | d in dirs)
    decreases |dirs|
  {
    if dirs == [] {
    } else {
      assert DirCommands(dirs)[..|dirs| - 1] == DirCommands(dirs[..|dirs| - 1]);
      DirsReplay(b, dirs[..|dirs| - 1]);
      assert dirs == dirs[..|dirs| - 1] + [dirs[|dirs| - 1]];
    }
  }

  lemma One(b: Box, c: Command)
    ensures Replay(b, [c]) == Do(b, c)
  {
    assert [c][..0] == [];
    assert Replay(b, []) == b;
  }

  lemma WriteReplay(b: Box, f: File, content: string)
    ensures Replay(b, WriteIfDiffers(b.files, f, content)) == b.(files := b.files[f := content])
  {
    if Lookup(b.files, f) == Some(content) {
      assert b.files[f := content] == b.files;
    } else {
      One(b, WriteFile(f, content));
    }
  }

  /** Where the package step leaves the machine. */
  function WithPackages(p: Plan, b: Box): Box {
    var missing := Missing(p.packages, b.packages);
    if missing == [] then b
    else
      var repo := "gh" in missing || SourceListFile in b.files;
      b.(packages := b.packages + (set x | x in missing),
         dirs := if repo then b.dirs + {p.keyringDir} else b.dirs,
         files := if repo then b.files[KeyringFile := p.keyring][SourceListFile := p.sourceList] else b.files)
  }

  lemma RepoReplay(p: Plan, b: Box)
    ensures Replay(b, RepoCommands(p, b))
      == b.(dirs := b.dirs + {p.keyringDir}, files := b.files[KeyringFile := p.keyring][SourceListFile := p.sourceList])
  {
    hide Replay, WriteIfDiffers;
    var x := [MakeDir(p.keyringDir)];
    var y := WriteIfDiffers(b.files, KeyringFile, p.keyring);
    var z := WriteIfDiffers(b.files, SourceListFile, p.sourceList);
    ReplayAppend(b, x + y, z);
    ReplayAppend(b, x, y);
    One(b, MakeDir(p.keyringDir));
    var b1 := Do(b, MakeDir(p.keyringDir));
    WriteReplay(b1, KeyringFile, p.keyring);
    var b2 := b1.(files := b1.files[KeyringFile := p.keyring]);
    SameDecision(b1.files, b2.files, SourceListFile, p.sourceList);
    WriteReplay(b2, SourceListFile, p.sourceList);
  }

  lemma SameDecision(files: map<File, string>, files': map<File, string>, f: File, content: string)
    requires Lookup(files, f) == Lookup(files', f)
    ensures WriteIfDiffers(files, f, content) == WriteIfDiffers(files', f, content)
  {
  }

  lemma PackagesReplay(p: Plan, b: Box)
    ensures Replay(b, PackageCommands(p, b)) == WithPackages(p, b)
  {
    hide Replay, RepoCommands;
    var missing := Missing(p.packages, b.packages);
    Nothing(b);
    if missing != [] {
      var repo := if "gh" in missing || SourceListFile in b.files then RepoCommands(p, b) else [];
      RepoReplay(p, b);
      ReplayAppend(b, repo, [AptUpdate, AptInstall(missing)]);
      var mid := Replay(b, repo);
      assert [AptUpdate, AptInstall(missing)] == [AptUpdate] + [AptInstall(missing)];
      ReplayAppend(mid, [AptUpdate], [AptInstall(missing)]);
      One(mid, AptUpdate);
      One(mid, AptInstall(missing));
    }
  }

  lemma Nothing(b: Box)
    ensures Replay(b, []) == b
  {
  }

  /** The machine once its packages, binary and unit files are in place and before any service is touched. */
  function Placed(p: Plan, b: Box): Box {
    var c := WithPackages(p, b.(dirs := b.dirs + set d | d in p.dirs));
    c.(binary := Some(p.self),
       files := c.files[UnitFile(Daemon) := Text(p, Daemon)][UnitFile(Gateway) := Text(p, Gateway)])
  }

  /** The services of the placed machine `c`, where the run had found `b`. */
  function Served(p: Plan, b: Box, c: Box): Box {
    var d := Do(c.(enabled := true), if UnitChanges(p, b, Daemon) then Restart(Daemon) else Start(Daemon));
    if !RunsGateway(p) then d
    else Do(d, if UnitChanges(p, b, Gateway) || BinaryChanges(p, b) then Restart(Gateway) else Start(Gateway))
  }

  lemma UnitsReplay(p: Plan, b: Box)
    ensures Replay(b, UnitCommands(p, b))
      == b.(files := b.files[UnitFile(Daemon) := Text(p, Daemon)][UnitFile(Gateway) := Text(p, Gateway)])
  {
    hide Replay, WriteIfDiffers;
    var x := WriteIfDiffers(b.files, UnitFile(Daemon), Text(p, Daemon));
    var y := WriteIfDiffers(b.files, UnitFile(Gateway), Text(p, Gateway));
    ReplayAppend(b, x, y);
    WriteReplay(b, UnitFile(Daemon), Text(p, Daemon));
    var b1 := b.(files := b.files[UnitFile(Daemon) := Text(p, Daemon)]);
    SameDecision(b.files, b1.files, UnitFile(Gateway), Text(p, Gateway));
    WriteReplay(b1, UnitFile(Gateway), Text(p, Gateway));
  }

  lemma ServicesReplay(p: Plan, b: Box, c: Box)
    ensures Replay(c, ServiceCommands(p, b)) == Served(p, b, c)
  {
    hide Replay, UnitChanges, BinaryChanges, Spawn;
    var x := if UnitChanges(p, b, Daemon) || UnitChanges(p, b, Gateway) then [DaemonReload] else [];
    var daemon := if UnitChanges(p, b, Daemon) then Restart(Daemon) else Start(Daemon);
    var gateway := if UnitChanges(p, b, Gateway) || BinaryChanges(p, b) then Restart(Gateway) else Start(Gateway);
    var z := if RunsGateway(p) then [gateway] else [];
    assert ServiceCommands(p, b) == x + [EnableUnits] + [daemon] + z;
    ReplayAppend(c, x + [EnableUnits] + [daemon], z);
    ReplayAppend(c, x + [EnableUnits], [daemon]);
    ReplayAppend(c, x, [EnableUnits]);
    Nothing(c);
    One(c, DaemonReload);
    One(c, EnableUnits);
    var d := c.(enabled := true);
    One(d, daemon);
    Nothing(Do(d, daemon));
    One(Do(d, daemon), gateway);
  }

  lemma SameUnitDecisions(p: Plan, b: Box, c: Box)
    requires forall u :: Lookup(b.files, UnitFile(u)) == Lookup(c.files, UnitFile(u))
    ensures UnitCommands(p, b) == UnitCommands(p, c)
  {
  }

  lemma PackagesKeepUnits(p: Plan, b: Box)
    ensures forall u :: Lookup(b.files, UnitFile(u)) == Lookup(WithPackages(p, b).files, UnitFile(u))
    ensures WithPackages(p, b).binary == b.binary
  {
  }

  lemma SamePackageDecisions(p: Plan, b: Box, dirs: set<string>)
    ensures PackageCommands(p, b) == PackageCommands(p, b.(dirs := dirs))
  {
  }

  lemma PlacedReplay(p: Plan, b: Box)
    ensures Replay(b, Preparation(p, b)) == Placed(p, b)
  {
    hide Replay, PackageCommands, WithPackages, UnitCommands;
    var dirs, packages := DirCommands(p.dirs), PackageCommands(p, b);
    var binary, units := BinaryCommands(p, b), UnitCommands(p, b);
    ReplayAppend(b, dirs + packages + binary, units);
    ReplayAppend(b, dirs + packages, binary);
    ReplayAppend(b, dirs, packages);
    DirsReplay(b, p.dirs);
    var b1 := b.(dirs := b.dirs + set d | d in p.dirs);
    SamePackageDecisions(p, b, b1.dirs);
    PackagesReplay(p, b1);
    var b2 := WithPackages(p, b1);
    PackagesKeepUnits(p, b1);
    Nothing(b2);
    One(b2, PlaceBinary(p.self));
    var b3 := b2.(binary := Some(p.self));
    SameUnitDecisions(p, b, b3);
    UnitsReplay(p, b3);
  }

  /** What a completed run comes to. */
  lemma InstallIs(p: Plan, b: Box)
    ensures Install(p, b) == Served(p, b, Placed(p, b))
  {
    hide Replay, Preparation, Placed, ServiceCommands, Served;
    PlacedReplay(p, b);
    ReplayAppend(b, Preparation(p, b), ServiceCommands(p, b));
    ServicesReplay(p, b, Placed(p, b));
  }

  // The results.

  /** Whatever state a completed run starts from, an interrupted one included, it ends with everything in place. */
  lemma InstallReaches(p: Plan, b: Box)
    ensures var c := Install(p, b);
      && (forall d <- p.dirs :: d in c.dirs) && (forall x <- p.packages :: x in c.packages)
      && c.binary == Some(p.self) && c.enabled
      && (forall u :: Lookup(c.files, UnitFile(u)) == Some(Text(p, u)))
      && Daemon in c.running && (RunsGateway(p) ==> Gateway in c.running)
  {
    hide Install, UnitChanges, BinaryChanges, Placed;
    InstallIs(p, b);
    PlacedReaches(p, b);
  }

  lemma PlacedReaches(p: Plan, b: Box)
    ensures var c := Placed(p, b);
      && (forall d <- p.dirs :: d in c.dirs) && (forall x <- p.packages :: x in c.packages)
      && c.binary == Some(p.self)
      && (forall u :: Lookup(c.files, UnitFile(u)) == Some(Text(p, u)))
  {
    hide WithPackages, Text;
    PackagesPresent(p, b.(dirs := b.dirs + set d | d in p.dirs));
    forall u
      ensures Lookup(Placed(p, b).files, UnitFile(u)) == Some(Text(p, u))
    {
      match u
      case Daemon =>
      case Gateway =>
    }
  }

  lemma PackagesPresent(p: Plan, b: Box)
    ensures forall x <- p.packages :: x in WithPackages(p, b).packages
    ensures b.dirs <= WithPackages(p, b).dirs
  {
    var missing := Missing(p.packages, b.packages);
    forall x | x in p.packages
      ensures x in WithPackages(p, b).packages
    {
      MissingMembers(p.packages, b.packages, x);
      assert x in b.packages || x in missing;
    }
  }

  /** Commands that leave an installed and running machine as it is. */
  predicate Harmless(c: Command) {
    c.MakeDir? || c == EnableUnits || c.Start?
  }

  /**
   A second completed run with the same plan and binary writes no file, installs no package,
   replaces no binary and restarts no unit: it changes nothing at all.
   */
  lemma SecondRunChangesNothing(p: Plan, b: Box)
    ensures var c := Install(p, b);
      && (forall x <- Commands(p, c) :: Harmless(x))
      && Install(p, c) == c
  {
    var c := Install(p, b);
    InstallReaches(p, b);
    hide Install, Replay;
    NothingMissing(p.packages, c.packages);
    assert PackageCommands(p, c) == [];
    assert !BinaryChanges(p, c) && !UnitChanges(p, c, Daemon) && !UnitChanges(p, c, Gateway);
    assert UnitCommands(p, c) == [];
    InstallIs(p, c);
    assert c.dirs + (set d | d in p.dirs) == c.dirs;
    assert Placed(p, c) == c by {
      assert c.files[UnitFile(Daemon) := Text(p, Daemon)] == c.files;
      assert c.files[UnitFile(Gateway) := Text(p, Gateway)] == c.files;
    }
  }

  lemma {:induction false} NothingMissing(packages: seq<string>, have: set<string>)
    requires forall x <- packages :: x in have
    ensures Missing(packages, have) == []
  {
    if packages != [] {
      assert packages[0] in have;
      NothingMissing(packages[1..], have);
    }
  }

  /**
   A completed run restarts the daemon if and only if its unit text differed: otherwise the
   daemon that was running, sessions and all, is the one still running afterwards.
   */
  lemma DaemonRestartsOnlyForItsUnit(p: Plan, b: Box)
    ensures Restart(Daemon) in Commands(p, b) <==> UnitChanges(p, b, Daemon)
    ensures Daemon in Install(p, b).running
    ensures Daemon in b.running && !UnitChanges(p, b, Daemon) ==> Install(p, b).running[Daemon] == b.running[Daemon]
    ensures UnitChanges(p, b, Daemon) ==> Install(p, b).running[Daemon].generation == b.spawned
  {
    hide Install, Preparation, Placed, UnitChanges, BinaryChanges;
    NoRestarts(p, b);
    InstallIs(p, b);
    PlacedKeepsServices(p, b);
  }

  lemma PlacedKeepsServices(p: Plan, b: Box)
    ensures Placed(p, b).running == b.running && Placed(p, b).spawned == b.spawned
  {
  }

  lemma NoRestarts(p: Plan, b: Box)
    ensures forall u :: Restart(u) !in Preparation(p, b)
  {
    hide Missing, Lookup;
    forall u
      ensures Restart(u) !in DirCommands(p.dirs) && Restart(u) !in PackageCommands(p, b)
    {
    }
  }

  /** The gateway holds no sessions: it is restarted for its unit or for the binary, where it runs at all. */
  lemma GatewayRestarts(p: Plan, b: Box)
    ensures Restart(Gateway) in Commands(p, b) <==>
      RunsGateway(p) && (UnitChanges(p, b, Gateway) || BinaryChanges(p, b))
  {
    hide Preparation, UnitChanges, BinaryChanges;
    NoRestarts(p, b);
  }

  /** When the run reports that the daemon was left on the previous build. */
  predicate NotesSkew(p: Plan, b: Box) {
    BinaryChanges(p, b) && !UnitChanges(p, b, Daemon)
  }

  /**
   The note is given exactly when the daemon is now behind, if and only if the run restarted
   the daemon, or the binary on disk and the binary the daemon ran were both old or both not.
   A daemon left behind by an earlier run is never mentioned again.
   */
  lemma SkewIsNoted(p: Plan, b: Box)
    ensures Daemon in Install(p, b).running
    ensures (NotesSkew(p, b) <==> Install(p, b).running[Daemon].binary != Some(p.self)) <==>
      || UnitChanges(p, b, Daemon)
      || (b.binary != Some(p.self) <==> Daemon in b.running && b.running[Daemon].binary != Some(p.self))
    ensures Daemon in b.running && b.running[Daemon].binary != b.binary == Some(p.self) && !UnitChanges(p, b, Daemon) ==>
      !NotesSkew(p, b) && Install(p, b).running[Daemon].binary != Some(p.self)
  {
    hide Install, Placed, UnitChanges, Lookup;
    InstallIs(p, b);
    PlacedReaches(p, b);
    PlacedKeepsServices(p, b);
  }

  /** The text a running unit was started from is the one now on disk. */
  predicate InSync(b: Box, u: Unit) {
    u in b.running && b.running[u].text == Lookup(b.files, UnitFile(u))
  }

  /**
   After a completed run the daemon runs the text on disk if and only if the run itself
   changed that text, found no daemon running, or found it running that text already.
   */
  lemma DaemonInSync(p: Plan, b: Box)
    ensures InSync(Install(p, b), Daemon) <==>
      || UnitChanges(p, b, Daemon) || Daemon !in b.running || b.running[Daemon].text == Some(Text(p, Daemon))
  {
    hide Install, Placed, UnitChanges, BinaryChanges, Lookup;
    InstallIs(p, b);
    PlacedReaches(p, b);
    PlacedKeepsServices(p, b);
  }

  /** Setup run over and over. */
  function Repeated(p: Plan, b: Box, n: nat): Box
    decreases n
  {
    if n == 0 then b else Install(p, Repeated(p, b, n - 1))
  }

  /** However often a run is repeated, only the first one does anything. */
  lemma {:induction false} RepeatingChangesNothing(p: Plan, b: Box, n: nat)
    requires n > 0
    ensures Repeated(p, b, n) == Install(p, b)
    decreases n
  {
    hide Install;
    if n == 1 {
      assert Repeated(p, b, 0) == b;
    } else {
      RepeatingChangesNothing(p, b, n - 1);
      SecondRunChangesNothing(p, b);
    }
  }

  /**
   So a run stopped after writing the unit and before restarting the daemon is never made
   good by later runs: the daemon stays on the old text however often setup is run again.
   */
  lemma InterruptedRunDoesNotConverge(p: Plan, b: Box, n: nat)
    requires Daemon in b.running && b.running[Daemon].text != Some(Text(p, Daemon))
    requires UnitChanges(p, b, Daemon)
    ensures Interrupted(b, Commands(p, b), Placed(p, b))
    ensures !InSync(Repeated(p, Placed(p, b), n), Daemon)
  {
    var now := Placed(p, b);
    PlacedIsInterrupted(p, b);
    PlacedKeepsServices(p, b);
    PlacedReaches(p, b);
    if n > 0 {
      hide Install, Placed, Commands;
      DaemonInSync(p, now);
      RepeatingChangesNothing(p, now, n);
    }
  }

  lemma PlacedIsInterrupted(p: Plan, b: Box)
    ensures Interrupted(b, Commands(p, b), Placed(p, b))
  {
    hide Replay, Preparation, ServiceCommands, Placed, Interrupted;
    PlacedReplay(p, b);
    Completed(b, Preparation(p, b));
    InterruptedFirst(b, Preparation(p, b), ServiceCommands(p, b), Placed(p, b));
  }
}
