/**
 The directories a create call is about to make: found beforehand, from the innermost
 ancestor outwards, so that exactly those can be handed to their owner afterwards.
 */
module SetupDirs {
  import opened Prelude
  import opened Text

  /** A cleaned absolute path as its components; the root is []. */
  type Path = seq<string>

  datatype Node = Directory | Plain(content: string)

  type Tree = map<Path, Node>

  function Parent(p: Path): Path {
    if p == [] then [] else p[..|p| - 1]
  }

  /** Every entry lies in a directory. */
  ghost predicate PrefixClosed(t: Tree) {
    [] in t && t[[]] == Directory && forall p <- t :: Parent(p) in t && t[Parent(p)] == Directory
  }

  lemma ParentExists(t: Tree, p: Path)
    requires PrefixClosed(t) && p in t
    ensures Parent(p) in t && t[Parent(p)] == Directory
  {
  }

  lemma {:induction false} AncestorsExist(t: Tree, p: Path, k: nat)
    requires PrefixClosed(t) && p in t && k < |p|
    ensures p[..k] in t && t[p[..k]] == Directory
    decreases |p|
  {
    hide PrefixClosed;
    ParentExists(t, p);
    if k < |p| - 1 {
      AncestorsExist(t, Parent(p), k);
      assert Parent(p)[..k] == p[..k];
    }
  }

  /** A proper prefix of the path is a plain file: stat answers ENOTDIR, not ENOENT. */
  predicate UnderFile(t: Tree, p: Path) {
    exists k :: 0 <= k < |p| && p[..k] in t && t[p[..k]].Plain?
  }

  datatype StatResult = Found | NotExist | NotDirectory

  function Stat(t: Tree, p: Path): StatResult {
    if p in t then Found else if UnderFile(t, p) then NotDirectory else NotExist
  }

  function Reversed(s: seq<Path>): (r: seq<Path>)
    ensures |r| == |s| && forall i :: 0 <= i < |s| ==> r[i] == s[|s| - 1 - i]
  {
    seq(|s|, i requires 0 <= i < |s| => s[|s| - 1 - i])
  }

  /** The `n` innermost strict ancestors of a path, outermost first. */
  ghost predicate IsAncestry(missing: seq<Path>, dir: Path) {
    && |missing| <= |Parent(dir)| + 1
    && forall i :: 0 <= i < |missing| ==>
         var k := |Parent(dir)| + 1 - |missing| + i;
         missing[i] == dir[..k]
  }

  lemma StillUnderFile(t: Tree, p: Path, q: Path)
    requires p <= q && UnderFile(t, p)
    ensures UnderFile(t, q)
  {
    var k :| 0 <= k < |p| && p[..k] in t && t[p[..k]].Plain?;
    assert q[..k] == p[..k];
  }

  lemma NothingUnderFile(t: Tree, p: Path)
    requires PrefixClosed(t) && p in t
    ensures !UnderFile(t, p)
    ensures forall q: Path :: q <= p ==> q in t
  {
    hide PrefixClosed;
    forall k | 0 <= k < |p|
      ensures p[..k] in t && !t[p[..k]].Plain?
    {
      AncestorsExist(t, p, k);
    }
    forall q: Path | q <= p
      ensures q in t
    {
      if |q| < |p| {
        AncestorsExist(t, p, |q|);
        assert q == p[..|q|];
      } else {
        assert q == p;
      }
    }
  }

  /** setupMissingSetupDirs: walks up until something is there, the root at the latest. */
  method MissingSetupDirs(t: Tree, dir: Path) returns (r: Result<seq<Path>, Path>)
    requires PrefixClosed(t)
    ensures r.Err? <==> UnderFile(t, Parent(dir))
    ensures r.Ok? ==> IsAncestry(r.value, dir)
    ensures r.Ok? ==> forall p: Path :: p in r.value <==> p <= Parent(dir) && p !in t
  {
    hide PrefixClosed, UnderFile;
    RootExists(t);
    var missing, cur := [], Parent(dir);
    while Stat(t, cur) != Found
      invariant cur <= Parent(dir) && |missing| == |Parent(dir)| - |cur|
      invariant forall i :: 0 <= i < |missing| ==> missing[i] == dir[..|Parent(dir)| - i] && missing[i] !in t
      invariant if |missing| > 0 then !UnderFile(t, Parent(dir)) else cur == Parent(dir)
      decreases |cur|
    {
      if Stat(t, cur) == NotDirectory {
        StillUnderFile(t, cur, Parent(dir));
        return Err(cur);
      }
      assert cur == dir[..|cur|];
      missing := missing + [cur];
      cur := Parent(cur);
    }
    NothingUnderFile(t, cur);
    r := Ok(Reversed(missing));
    AllMissing(t, dir, cur, missing);
  }

  lemma RootExists(t: Tree)
    requires PrefixClosed(t)
    ensures [] in t && t[[]] == Directory
  {
  }

  lemma PrefixOfPrefix(p: Path, q: Path, r: Path)
    requires p <= r && q <= r && |p| <= |q|
    ensures p <= q
  {
  }

  lemma AllMissing(t: Tree, dir: Path, cur: Path, missing: seq<Path>)
    requires cur <= Parent(dir) && |missing| == |Parent(dir)| - |cur|
    requires forall i :: 0 <= i < |missing| ==> missing[i] == dir[..|Parent(dir)| - i] && missing[i] !in t
    requires forall q: Path :: q <= cur ==> q in t
    ensures IsAncestry(Reversed(missing), dir)
    ensures forall p: Path :: p in Reversed(missing) <==> p <= Parent(dir) && p !in t
  {
    var r := Reversed(missing);
    forall p: Path | p <= Parent(dir) && p !in t
      ensures p in r
    {
      if |p| <= |cur| {
        PrefixOfPrefix(p, cur, Parent(dir));
      }
      var i := |Parent(dir)| - |p|;
      assert missing[i] == p;
      assert r[|missing| - 1 - i] == p;
    }
    forall p: Path | p in r
      ensures p <= Parent(dir) && p !in t
    {
      var i :| 0 <= i < |r| && r[i] == p;
      assert r[i] == missing[|missing| - 1 - i];
    }
  }

  /** os.MkdirAll: None where it fails. */
  function MkdirAll(t: Tree, dir: Path): Option<Tree>
    decreases |dir|
  {
    if dir in t then (if t[dir] == Directory then Some(t) else None)
    else if dir == [] then None
    else
      match MkdirAll(t, Parent(dir))
      case None => None
      case Some(u) => Some(u[dir := Directory])
  }

  /** It makes the path and every ancestor that is missing, and nothing else; it fails under a file. */
  lemma {:induction false} MkdirAllMakes(t: Tree, dir: Path)
    requires PrefixClosed(t)
    ensures MkdirAll(t, dir).None? <==> UnderFile(t, dir) || (dir in t && t[dir].Plain?)
    ensures MkdirAll(t, dir).Some? ==>
      var u := MkdirAll(t, dir).value;
      && PrefixClosed(u) && dir in u && u[dir] == Directory
      && (forall p :: p in u <==> p in t || p <= dir)
      && (forall p <- t :: u[p] == t[p])
      && (forall p <- u :: p !in t ==> u[p] == Directory)
    decreases |dir|
  {
    hide PrefixClosed;
    if dir in t {
      NothingUnderFile(t, dir);
    } else {
      RootExists(t);
      MkdirAllMakes(t, Parent(dir));
      ParentBlocks(t, dir);
      assert MkdirAll(t, dir) == match MkdirAll(t, Parent(dir)) { case None => None case Some(u) => Some(u[dir := Directory]) };
      hide MkdirAll, UnderFile;
      if MkdirAll(t, Parent(dir)).Some? {
        OneMoreDir(t, MkdirAll(t, Parent(dir)).value, dir);
      }
    }
  }

  lemma OneMoreDir(t: Tree, u: Tree, dir: Path)
    requires dir != [] && PrefixClosed(u) && Parent(dir) in u && u[Parent(dir)] == Directory && dir !in t
    requires (forall p :: p in u <==> p in t || p <= Parent(dir)) && (forall p <- t :: u[p] == t[p])
    requires forall p <- u :: p !in t ==> u[p] == Directory
    ensures var v := u[dir := Directory];
      && PrefixClosed(v)
      && (forall p :: p in v <==> p in t || p <= dir)
      && (forall p <- t :: v[p] == t[p])
      && (forall p <- v :: p !in t ==> v[p] == Directory)
  {
    hide PrefixClosed;
    var v := u[dir := Directory];
    StaysClosed(u, dir);
    forall p
      ensures p in v <==> p in t || p <= dir
    {
      assert p <= dir <==> p == dir || p <= Parent(dir);
    }
  }

  lemma StaysClosed(u: Tree, dir: Path)
    requires dir != [] && PrefixClosed(u) && Parent(dir) in u && u[Parent(dir)] == Directory
    ensures PrefixClosed(u[dir := Directory])
  {
    hide PrefixClosed;
    RootExists(u);
    var v := u[dir := Directory];
    forall p | p in v
      ensures Parent(p) in v && v[Parent(p)] == Directory
    {
      if p in u {
        ParentExists(u, p);
      }
    }
    ClosedIf(v);
  }

  lemma ClosedIf(t: Tree)
    requires [] in t && t[[]] == Directory && forall p <- t :: Parent(p) in t && t[Parent(p)] == Directory
    ensures PrefixClosed(t)
  {
  }

  lemma ParentBlocks(t: Tree, dir: Path)
    requires dir != []
    ensures UnderFile(t, dir) <==> UnderFile(t, Parent(dir)) || (Parent(dir) in t && t[Parent(dir)].Plain?)
  {
    var p := Parent(dir);
    if UnderFile(t, dir) {
      var k :| 0 <= k < |dir| && dir[..k] in t && t[dir[..k]].Plain?;
      assert k < |p| ==> p[..k] == dir[..k];
    }
    if UnderFile(t, p) {
      StillUnderFile(t, p, dir);
    }
    assert p == dir[..|p|];
  }

  /**
   What is missing beforehand is, the directory itself apart, exactly what the create call
   makes: handing those over covers every new ancestor and no old one. Where the walk upwards
   fails, the create call fails too.
   */
  lemma MissingIsWhatIsMade(t: Tree, dir: Path)
    requires PrefixClosed(t)
    ensures UnderFile(t, Parent(dir)) ==> MkdirAll(t, dir).None?
    ensures MkdirAll(t, dir).Some? ==>
      forall p: Path :: p <= Parent(dir) && p !in t <==> p in MkdirAll(t, dir).value && p !in t && p != dir
  {
    hide PrefixClosed, MkdirAll, UnderFile;
    MkdirAllMakes(t, dir);
    RootExists(t);
    if dir != [] {
      ParentBlocks(t, dir);
      var made := MkdirAll(t, dir);
      if made.Some? {
        forall p: Path
          ensures p <= Parent(dir) && p !in t <==> p in made.value && p !in t && p != dir
        {
          StrictPrefix(p, dir);
        }
      }
    }
  }

  lemma StrictPrefix(p: Path, dir: Path)
    requires dir != []
    ensures p <= dir && p != dir <==> p <= Parent(dir)
  {
    if p <= dir && p != dir {
      assert p == Parent(dir)[..|p|];
    }
  }
}
