/** ensureSetupPasscode: one passcode per box, and every directory made for it handed to its owner. */
module SetupPasscode {
  import opened Prelude
  import opened Text
  import opened SetupDirs

  const PASSCODE_FILE := "passcode.hash"
  const HASH_LENGTH := 64

  predicate IsHexDigit(c: char) {
    IsDigit(c) || 'a' <= c <= 'f' || 'A' <= c <= 'F'
  }

  predicate IsPasscodeHash(s: string) {
    |s| == HASH_LENGTH && forall c <- s :: IsHexDigit(c)
  }

  function HashPath(dir: Path): Path {
    dir + [PASSCODE_FILE]
  }

  /** LoadPasscodeStore succeeds. */
  predicate Loadable(t: Tree, dir: Path) {
    HashPath(dir) in t && t[HashPath(dir)].Plain? && IsPasscodeHash(TrimSpace(t[HashPath(dir)].content))
  }

  datatype Result = Existing | Generated | Stopped | Failed

  class Disk {
    var tree: Tree
    var owner: map<Path, string>
    const self: string   // the user this process runs as
    const root: bool     // whether that is root; nobody else may chown
    var left: Option<nat>  // how many more chown calls get through; None when nothing stops them

    ghost predicate Valid()
      reads this
    {
      PrefixClosed(tree) && owner.Keys == tree.Keys
    }

    constructor (tree: Tree, owner: map<Path, string>, self: string, root: bool, left: Option<nat>)
      requires PrefixClosed(tree) && owner.Keys == tree.Keys
      ensures Valid() && this.tree == tree && this.owner == owner
      ensures this.self == self && this.root == root && this.left == left
    {
      hide PrefixClosed;
      this.tree, this.owner, this.self, this.root, this.left := tree, owner, self, root, left;
    }

    /** GeneratePasscode: makes the directory, then moves the new hash file into place. */
    method GeneratePasscode(dir: Path, hash: string) returns (ok: bool)
      requires Valid()
      modifies this`tree, this`owner
      ensures Valid()
      ensures ok <==> MkdirAll(old(tree), dir).Some? && !(HashPath(dir) in old(tree) && old(tree)[HashPath(dir)] == Directory)
      ensures ok ==> tree == MkdirAll(old(tree), dir).value[HashPath(dir) := Plain(hash)]
      ensures ok ==> forall p <- tree :: owner[p] == if p in old(tree) && p != HashPath(dir) then old(owner)[p] else self
      ensures !ok ==> forall p <- old(tree) :: p in tree && tree[p] == old(tree)[p] && owner[p] == old(owner)[p]
    {
      hide MkdirAll, PrefixClosed, UnderFile;
      MkdirAllMakes(tree, dir);
      var made := MkdirAll(tree, dir);
      if made.None? {
        return false;
      }
      var before, owners := tree, owner;
      tree := made.value;
      owner := map p | p in tree :: if p in before then owners[p] else self;
      if HashPath(dir) in tree && tree[HashPath(dir)] == Directory {
        return false;
      }
      FileStaysClosed(tree, dir, Plain(hash));
      tree := tree[HashPath(dir) := Plain(hash)];
      owner := owner[HashPath(dir) := self];
      return true;
    }

    method Chown(p: Path, user: string) returns (ok: bool)
      requires Valid() && p in tree
      modifies this`owner, this`left
      ensures Valid() && ok == (old(left) != Some(0))
      ensures owner == if ok then old(owner)[p := user] else old(owner)
      ensures old(left).None? ==> left.None?
    {
      hide PrefixClosed;
      if left == Some(0) {
        return false;
      }
      if left.Some? {
        left := Some(left.value - 1);
      }
      owner := owner[p := user];
      return true;
    }

    /** chownSetupDirs: these directories and nothing below them, up to the first that fails. */
    method ChownDirs(dirs: seq<Path>, user: string) returns (ok: bool)
      requires Valid() && forall d <- dirs :: d in tree
      modifies this`owner, this`left
      ensures Valid() && (!ok ==> root) && (old(left).None? ==> left.None? && ok)
      ensures ok ==> forall p <- tree :: owner[p] == if root && p in dirs then user else old(owner)[p]
      ensures !ok ==> exists n :: 0 <= n < |dirs| && Handed(old(owner), owner, dirs[..n], user)
    {
      hide PrefixClosed;
      if !root {
        return true;
      }
      for i := 0 to |dirs|
        invariant owner.Keys == tree.Keys && (old(left).None? ==> left.None?)
        invariant forall p <- tree :: owner[p] == if p in dirs[..i] then user else old(owner)[p]
      {
        assert dirs[..i + 1] == dirs[..i] + [dirs[i]];
        ok := Chown(dirs[i], user);
        if !ok {
          assert Handed(old(owner), owner, dirs[..i], user);
          return false;
        }
      }
      assert dirs[..|dirs|] == dirs;
      return true;
    }

    /** chownSetupTree: everything from the directory down, up to the first that fails. */
    method ChownTree(dir: Path, user: string) returns (ok: bool)
      requires Valid()
      modifies this`owner, this`left
      ensures Valid() && (!ok ==> root) && (old(left).None? ==> left.None? && ok)
      ensures ok ==> forall p <- tree :: owner[p] == if root && dir <= p then user else old(owner)[p]
      ensures !ok ==> exists q: Path :: q in tree && dir <= q && owner[q] == old(owner)[q]
      ensures forall p <- tree :: owner[p] == old(owner)[p] || (dir <= p && owner[p] == user)
    {
      hide PrefixClosed;
      if !root {
        return true;
      }
      var all := set p | p in tree && dir <= p;
      var todo := all;
      while todo != {}
        invariant todo <= all && owner.Keys == tree.Keys && (old(left).None? ==> left.None?)
        invariant forall p <- tree :: owner[p] == if dir <= p && p !in todo then user else old(owner)[p]
        decreases todo
      {
        var p :| p in todo;
        ok := Chown(p, user);
        if !ok {
          assert owner[p] == old(owner)[p];
          return false;
        }
        todo := todo - {p};
      }
      return true;
    }

    /** The new ancestors one by one, and the directory with all it holds. */
    method HandOver(dirs: seq<Path>, dir: Path, user: string) returns (ok: bool)
      requires Valid() && NoDuplicates(dirs) && forall d <- dirs :: d in tree && |d| < |dir|
      modifies this`owner, this`left
      ensures Valid() && (!ok ==> root) && (old(left).None? ==> ok)
      ensures ok ==> forall p <- tree :: owner[p] == if root && (p in dirs || dir <= p) then user else old(owner)[p]
      ensures !ok ==> exists p :: p in tree && (p in dirs || dir <= p) && owner[p] == old(owner)[p]
      ensures forall p <- tree :: owner[p] == old(owner)[p] || ((p in dirs || dir <= p) && owner[p] == user)
    {
      hide PrefixClosed, NoDuplicates;
      ghost var before := owner;
      ok := ChownDirs(dirs, user);
      if !ok {
        ghost var n :| 0 <= n < |dirs| && Handed(before, owner, dirs[..n], user);
        NotBefore(dirs, n);
        assert dirs[n] in dirs && owner[dirs[n]] == before[dirs[n]];
        return false;
      }
      ghost var between := owner;
      ok := ChownTree(dir, user);
      if !ok {
        ghost var q :| q in tree && dir <= q && owner[q] == between[q];
        assert q !in dirs;
      }
    }

    /** Notes what is missing, then generates: all that is new is noted, or lies in the directory itself. */
    method NoteAndGenerate(dir: Path, hash: string) returns (ok: bool, missing: seq<Path>)
      requires Valid() && IsPasscodeHash(TrimSpace(hash))
      modifies this`tree, this`owner
      ensures Valid()
      ensures ok ==> Loadable(tree, dir) && dir <= HashPath(dir)
      ensures ok ==> NoDuplicates(missing) && forall d <- missing :: d in tree && d !in old(tree) && |d| < |dir|
      ensures ok ==> forall p <- tree :: p !in old(tree) ==> p in missing || dir <= p
      ensures ok ==> forall p <- tree :: owner[p] == if p in old(tree) && p != HashPath(dir) then old(owner)[p] else self
      ensures forall p <- old(tree) :: p in tree && (dir <= p || owner[p] == old(owner)[p])
      ensures forall p <- old(tree) :: p == HashPath(dir) || tree[p] == old(tree)[p]
    {
      hide MkdirAll, PrefixClosed, UnderFile, TrimSpace, IsPasscodeHash, IsAncestry, Loadable, HashPath, Parent, NoDuplicates;
      missing := [];
      var before := tree;
      var noted := MissingSetupDirs(tree, dir);
      if noted.Err? {
        return false, missing;
      }
      missing := noted.value;
      MkdirAllMakes(tree, dir);
      MissingIsWhatIsMade(tree, dir);
      ok := GeneratePasscode(dir, hash);
      if ok {
        NewIsLoadable(MkdirAll(before, dir).value, dir, hash);
        RootExists(before);
        assert missing != [] ==> missing[0] in missing;
        AncestryIsDistinct(missing, dir);
      }
    }

    /**
     ensureSetupPasscode: a good passcode is never touched, nor anything about it. A run that
     generates one leaves behind no directory of its making that is not the owner's; a run
     stopped in the hand-over leaves some entry with the owner it had, and the passcode good,
     so no later run hands that entry over. Nothing that was there before outside the passcode
     directory changes hands.
     */
    method EnsurePasscode(dir: Path, user: string, hash: string) returns (result: Result)
      requires Valid() && IsPasscodeHash(TrimSpace(hash))
      modifies this
      ensures Valid()
      ensures result == Existing <==> Loadable(old(tree), dir)
      ensures result == Existing ==> tree == old(tree) && owner == old(owner)
      ensures result in {Generated, Stopped} ==> Loadable(tree, dir)
      ensures result == Generated && root ==> forall p <- tree :: p !in old(tree) || dir <= p ==> owner[p] == user
      ensures result == Stopped ==> root && old(left).Some? && exists p ::
        p in tree && (p !in old(tree) || dir <= p)
        && owner[p] == if p in old(tree) && p != HashPath(dir) then old(owner)[p] else self
      ensures forall p <- old(tree) :: p in tree && (dir <= p || owner[p] == old(owner)[p])
      ensures forall p <- old(tree) :: p == HashPath(dir) || tree[p] == old(tree)[p]
    {
      hide PrefixClosed, TrimSpace, IsPasscodeHash, Loadable, HashPath, NoDuplicates;
      if Loadable(tree, dir) {
        return Existing;
      }
      var ok, missing := NoteAndGenerate(dir, hash);
      if !ok {
        return Failed;
      }
      var handed := HandOver(missing, dir, user);
      return if handed then Generated else Stopped;
    }
  }

  /** The entries of `done` have gone to `user`, and no others have changed hands. */
  ghost predicate Handed(before: map<Path, string>, after: map<Path, string>, done: seq<Path>, user: string) {
    before.Keys == after.Keys && forall p <- after :: after[p] == if p in done then user else before[p]
  }

  lemma NotBefore(dirs: seq<Path>, n: nat)
    requires NoDuplicates(dirs) && n < |dirs|
    ensures dirs[n] !in dirs[..n]
  {
  }

  lemma AncestryIsDistinct(missing: seq<Path>, dir: Path)
    requires IsAncestry(missing, dir) && (missing != [] ==> dir != [])
    ensures NoDuplicates(missing) && forall d <- missing :: |d| < |dir|
  {
    forall i | 0 <= i < |missing|
      ensures |missing[i]| == |Parent(dir)| + 1 - |missing| + i
    {
    }
  }

  /** A passcode is kept in passcode.hash, as 64 hexadecimal digits in either letter case. */
  lemma LoadableIs(t: Tree, dir: Path)
    ensures Loadable(t, dir) <==>
      && dir + ["passcode.hash"] in t && t[dir + ["passcode.hash"]].Plain?
      && var text := TrimSpace(t[dir + ["passcode.hash"]].content);
         |text| == 64 && forall i :: 0 <= i < 64 ==> text[i] in "0123456789abcdefABCDEF"
  {
    hide TrimSpace;
    HexDigitIs();
  }

  lemma HexDigitIs()
    ensures forall c: char :: IsHexDigit(c) <==> c in "0123456789abcdefABCDEF"
  {
  }

  lemma NewIsLoadable(t: Tree, dir: Path, hash: string)
    requires IsPasscodeHash(TrimSpace(hash))
    ensures Loadable(t[HashPath(dir) := Plain(hash)], dir)
    ensures dir <= HashPath(dir)
  {
    hide IsPasscodeHash, TrimSpace;
  }

  lemma FileStaysClosed(t: Tree, dir: Path, file: Node)
    requires PrefixClosed(t) && dir in t && t[dir] == Directory && file.Plain?
    requires HashPath(dir) in t ==> t[HashPath(dir)].Plain?
    ensures PrefixClosed(t[HashPath(dir) := file])
  {
    hide PrefixClosed;
    RootExists(t);
    var u, h := t[HashPath(dir) := file], HashPath(dir);
    assert Parent(h) == dir;
    forall p | p in u
      ensures Parent(p) in u && u[Parent(p)] == Directory
    {
      if p in t {
        ParentExists(t, p);
      }
    }
    ClosedIf(u);
  }
}
