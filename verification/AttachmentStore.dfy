/**
 The store's own methods: they change the canonical directory of one session and the
 attachments directory of one worktree by single file operations, any of which may fail.
 Each tree keeps a history of its states, one per operation, so that what holds of the
 whole history holds wherever a crash stops the method.
 */
module AttachmentStore {
  import opened Prelude
  import opened Text
  import opened AttachmentNames
  import opened AttachmentFiles

  /** A directory on disk. `made` tells whether the directory itself is there. */
  class FileTree {
    var made: bool
    var dir: Dir
    ghost var trail: seq<Dir>

    ghost predicate Valid()
      reads this
    {
      && Sound(dir) && |trail| > 0 && trail[|trail| - 1] == dir
      && (!made ==> dir.entries == map[])
    }

    constructor ()
      ensures Valid() && !made && trail == [dir]
    {
      made, dir := false, Dir(map[], map[]);
      trail := [Dir(map[], map[])];
    }

    method MkdirAll()
      requires Valid()
      modifies this`made
      ensures Valid() && made
    {
      made := true;
    }

    method RemoveDir()
      requires Valid() && dir.entries == map[]
      modifies this`made
      ensures Valid() && !made
    {
      made := false;
    }

    method Become(d: Dir)
      requires Valid() && made && Sound(d)
      modifies this`dir, this`trail
      ensures Valid() && dir == d && trail == old(trail) + [d]
    {
      dir := d;
      trail := trail + [d];
    }
  }

  /** Which of its steps go wrong in one atomic write. `copy` stops the copying after that many bytes. */
  datatype Faults = Faults(
    ctx: bool, mkdir: bool, random: bool, suffix: string, create: bool, copy: Option<nat>,
    sync: bool, close: bool, commit: bool, cleanup: bool)

  datatype Outcome = Written | Exists | Empty | TooLarge | Failed

  /** Nothing goes wrong before the commit, and the drawn name is free. */
  ghost predicate Quiet(d: Dir, f: Faults) {
    && !f.ctx && !f.mkdir && !f.random && !f.create && f.copy == None && !f.sync && !f.close && !f.commit
    && TempName(f.suffix) !in d.entries
  }

  /** The target can take the file: free, or with `replace` anything but a directory. */
  predicate CanTake(d: Dir, name: string, replace: bool) {
    if replace then name in d.entries ==> !d.entries[name].Folder? else name !in d.entries
  }

  /** How a write ends when nothing goes wrong. */
  function Verdict(d: Dir, name: string, source: seq<byte>, replace: bool): Outcome {
    if |source| == 0 then Empty
    else if |source| > MAX_FILE_BYTES then TooLarge
    else if CanTake(d, name, replace) then Written
    else if replace then Failed
    else Exists
  }

  /** All that one write may have done to the attachments so far: nothing, or put the whole file in place. */
  ghost predicate AtMost(before: Dir, now: Dir, name: string, source: seq<byte>, replace: bool) {
    forall n :: ValidName(n) ==>
      || SameFile(before, now, n)
      || (n == name && (replace || n !in before.entries) && BytesOf(now, n) == Some(source))
  }

  /** The states a method went through since `start`, all within what one write may do. */
  ghost predicate TrailWithin(trail: seq<Dir>, start: nat, before: Dir, name: string, source: seq<byte>, replace: bool) {
    forall k :: start <= k < |trail| ==> AtMost(before, trail[k], name, source, replace)
  }

  lemma UncommittedWithin(before: Dir, temp: string, inode: nat, bytes: seq<byte>, name: string, source: seq<byte>, replace: bool)
    requires Sound(before) && !ValidName(temp) && inode !in before.data
    ensures AtMost(before, WriteAt(Create(before, temp, inode), inode, bytes), name, source, replace)
  {
    hide ValidName;
  }

  /** The history of one more operation. */
  lemma TrailGrows(trail: seq<Dir>, start: nat, d: Dir, before: Dir, name: string, source: seq<byte>, replace: bool)
    requires TrailWithin(trail, start, before, name, source, replace)
    requires AtMost(before, d, name, source, replace)
    ensures TrailWithin(trail + [d], start, before, name, source, replace)
  {
    hide AtMost;
  }

  method FreshInode(used: set<nat>) returns (inode: nat)
    ensures inode !in used
  {
    inode := 0;
    var rest := used;
    while inode in used
      invariant forall i :: i in used && i >= inode ==> i in rest
      decreases rest
    {
      rest := rest - {inode};
      inode := inode + 1;
    }
  }

  /** The temporary file with the bytes copied so far. */
  ghost predicate IsUncommitted(before: Dir, now: Dir, temp: string, bytes: seq<byte>) {
    exists inode: nat :: inode !in before.data && now == WriteAt(Create(before, temp, inode), inode, bytes)
  }

  /** io.Copy into a new temporary file; the reader may fail after `stop` bytes. */
  method CopyIn(tree: FileTree, temp: string, source: seq<byte>, stop: Option<nat>, ghost name: string, ghost replace: bool)
      returns (written: nat)
    requires tree.Valid() && tree.made && !ValidName(temp) && temp !in tree.dir.entries
    modifies tree`dir, tree`trail
    ensures tree.Valid() && old(tree.trail) <= tree.trail
    ensures TrailWithin(tree.trail, |old(tree.trail)|, old(tree.dir), name, source, replace)
    ensures written <= Limit(source) && (stop == None ==> written == Limit(source))
    ensures IsUncommitted(old(tree.dir), tree.dir, temp, source[..written])
  {
    hide ValidName, AtMost, TrailWithin;
    ghost var before, start := tree.dir, |tree.trail|;
    var inode := FreshInode(tree.dir.data.Keys);
    UncommittedWithin(before, temp, inode, [], name, source, replace);
    assert Create(before, temp, inode) == WriteAt(Create(before, temp, inode), inode, []);
    NothingYet(tree.trail, before, name, source, replace);
    TrailGrows(tree.trail, start, Create(before, temp, inode), before, name, source, replace);
    tree.Become(Create(tree.dir, temp, inode));
    written := 0;
    while written < Limit(source) && (stop == None || written < stop.value)
      invariant 0 <= written <= Limit(source)
      invariant tree.Valid() && old(tree.trail) <= tree.trail
      invariant tree.dir == WriteAt(Create(before, temp, inode), inode, source[..written])
      invariant TrailWithin(tree.trail, start, before, name, source, replace)
    {
      written := written + 1;
      UncommittedWithin(before, temp, inode, source[..written], name, source, replace);
      assert WriteAt(tree.dir, inode, source[..written]) == WriteAt(Create(before, temp, inode), inode, source[..written]);
      TrailGrows(tree.trail, start, WriteAt(tree.dir, inode, source[..written]), before, name, source, replace);
      tree.Become(WriteAt(tree.dir, inode, source[..written]));
    }
  }

  lemma NothingYet(trail: seq<Dir>, before: Dir, name: string, source: seq<byte>, replace: bool)
    ensures TrailWithin(trail, |trail|, before, name, source, replace)
  {
  }

  lemma SameFileTransitive(a: Dir, b: Dir, c: Dir, name: string)
    requires SameFile(a, b, name) && SameFile(b, c, name)
    ensures SameFile(a, c, name)
  {
  }

  /** Dropping the temporary name takes nothing else with it. */
  lemma CleanupWithin(before: Dir, now: Dir, temp: string, name: string, source: seq<byte>, replace: bool)
    requires AtMost(before, now, name, source, replace) && Sound(now) && !ValidName(temp)
    ensures AtMost(before, Remove(now, temp), name, source, replace) && Sound(Remove(now, temp))
    ensures forall n | n != temp :: SameFile(now, Remove(now, temp), n)
  {
    hide ValidName;
    forall n | n != temp
      ensures SameFile(now, Remove(now, temp), n)
    {
    }
  }

  lemma LinkWithin(before: Dir, now: Dir, temp: string, name: string, source: seq<byte>, replace: bool)
    requires Sound(before) && !ValidName(temp) && ValidName(name) && temp !in before.entries
    requires IsUncommitted(before, now, temp, source)
    requires replace || name !in before.entries
    ensures temp in now.entries && Sound(now)
    ensures var linked := LinkTo(now, temp, name);
      && AtMost(before, linked, name, source, replace)
      && Sound(linked) && name in linked.entries && BytesOf(linked, name) == Some(source)
      && forall n | n != temp && n != name :: SameFile(before, linked, n)
  {
    hide ValidName;
  }

  /** The commit, by link or by rename, puts the whole file in place under the name. */
  lemma CommitWithin(before: Dir, now: Dir, temp: string, name: string, source: seq<byte>, replace: bool)
    requires Sound(before) && !ValidName(temp) && ValidName(name) && temp !in before.entries
    requires IsUncommitted(before, now, temp, source)
    requires replace || name !in before.entries
    ensures temp in now.entries && Sound(now)
    ensures var linked, renamed := LinkTo(now, temp, name), RenameTo(now, temp, name);
      && AtMost(before, linked, name, source, replace)
      && AtMost(before, renamed, name, source, replace)
      && Sound(linked) && Sound(renamed)
      && name in linked.entries && name in renamed.entries && temp !in renamed.entries
      && BytesOf(linked, name) == BytesOf(renamed, name) == Some(source)
      && forall n | n != temp && n != name :: SameFile(before, linked, n) && SameFile(before, renamed, n)
  {
    hide ValidName, IsUncommitted, AtMost, Sound, LinkTo, BytesOf;
    LinkWithin(before, now, temp, name, source, replace);
    var linked := LinkTo(now, temp, name);
    CleanupWithin(before, linked, temp, name, source, replace);
    assert SameFile(linked, Remove(linked, temp), name);
    forall n | n != temp && n != name
      ensures SameFile(before, Remove(linked, temp), n)
    {
      SameFileTransitive(before, linked, Remove(linked, temp), n);
    }
  }

  lemma UncommittedElsewhere(before: Dir, now: Dir, temp: string, bytes: seq<byte>, name: string, source: seq<byte>, replace: bool)
    requires IsUncommitted(before, now, temp, bytes) && Sound(before) && !ValidName(temp) && temp !in before.entries
    ensures temp in now.entries && AtMost(before, now, name, source, replace) && Sound(now)
    ensures forall n | n != temp :: SameFile(before, now, n)
  {
    hide ValidName;
  }

  /** The no-replace link, or the replacing rename. */
  method CommitTemp(tree: FileTree, temp: string, name: string, source: seq<byte>, replace: bool, ghost before: Dir, ghost start: nat)
      returns (out: Outcome)
    requires tree.Valid() && tree.made && ValidName(name) && !ValidName(temp)
    requires Sound(before) && temp !in before.entries && IsUncommitted(before, tree.dir, temp, source)
    requires TrailWithin(tree.trail, start, before, name, source, replace)
    modifies tree`dir, tree`trail
    ensures tree.Valid() && old(tree.trail) <= tree.trail
    ensures TrailWithin(tree.trail, start, before, name, source, replace)
    ensures AtMost(before, tree.dir, name, source, replace)
    ensures out == (if CanTake(before, name, replace) then Written else if replace then Failed else Exists)
    ensures out == Written ==> name in tree.dir.entries && BytesOf(tree.dir, name) == Some(source)
    ensures out == Written && replace ==> temp !in tree.dir.entries
    ensures forall n | n != temp && (out == Written ==> n != name) :: SameFile(before, tree.dir, n)
  {
    hide ValidName, AtMost, TrailWithin, IsUncommitted, Sound, RenameTo, LinkTo;
    UncommittedElsewhere(before, tree.dir, temp, source, name, source, replace);
    assert SameFile(before, tree.dir, name);
    if !CanTake(tree.dir, name, replace) {
      return if replace then Failed else Exists;
    }
    CommitWithin(before, tree.dir, temp, name, source, replace);
    var next := if replace then RenameTo(tree.dir, temp, name) else LinkTo(tree.dir, temp, name);
    TrailGrows(tree.trail, start, next, before, name, source, replace);
    tree.Become(next);
    return Written;
  }

  /** writeReaderAtomicRoot: copies to a temporary file, then commits it in one step. */
  method WriteAtomic(tree: FileTree, name: string, source: seq<byte>, replace: bool, f: Faults) returns (out: Outcome)
    requires tree.Valid() && ValidName(name)
    modifies tree
    ensures tree.Valid() && (old(tree.made) ==> tree.made)
    ensures old(tree.trail) <= tree.trail
    ensures TrailWithin(tree.trail, |old(tree.trail)|, old(tree.dir), name, source, replace)
    ensures Quiet(old(tree.dir), f) ==> out == Verdict(old(tree.dir), name, source, replace)
    ensures out == Written ==>
      && BytesOf(tree.dir, name) == Some(source) && 1 <= |source| <= 10_485_760
      && CanTake(old(tree.dir), name, replace) && tree.made
    ensures out == Exists ==> !replace && name in old(tree.dir).entries
    ensures out == Empty ==> source == []
    ensures out == TooLarge ==> |source| > 10_485_760
    ensures forall n | n != TempName(f.suffix) && (out == Written ==> n != name) :: SameFile(old(tree.dir), tree.dir, n)
    ensures !f.cleanup && TempName(f.suffix) !in old(tree.dir).entries ==> TempName(f.suffix) !in tree.dir.entries
    ensures out == Written && replace ==> TempName(f.suffix) !in tree.dir.entries
  {
    hide ValidName, AtMost, TrailWithin, IsUncommitted, TempName, Sound, BytesOf;
    ghost var before, start := tree.dir, |tree.trail|;
    NothingYet(tree.trail, before, name, source, replace);
    if f.ctx || f.mkdir {
      return Failed;
    }
    tree.MkdirAll();
    var temp := TempName(f.suffix);
    TempIsNotValid(f.suffix);
    if f.random || f.create || temp in tree.dir.entries {
      return Failed;
    }
    var written := CopyIn(tree, temp, source, f.copy, name, replace);
    UncommittedElsewhere(before, tree.dir, temp, source[..written], name, source, replace);
    out := Failed;
    if f.copy == None {
      if written == 0 {
        out := Empty;
      } else if written > MAX_FILE_BYTES {
        out := TooLarge;
      } else if !f.sync && !f.close && !f.commit {
        assert source[..written] == source;
        out := CommitTemp(tree, temp, name, source, replace, before, start);
      }
    }
    ghost var now := tree.dir;
    if !f.cleanup {
      CleanupWithin(before, tree.dir, temp, name, source, replace);
      TrailGrows(tree.trail, start, Remove(tree.dir, temp), before, name, source, replace);
      tree.Become(Remove(tree.dir, temp));
      assert SameFile(now, tree.dir, name);
      forall n | n != temp && (out == Written ==> n != name)
        ensures SameFile(before, tree.dir, n)
      {
        SameFileTransitive(before, now, tree.dir, n);
      }
    }
  }
}
