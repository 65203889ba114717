/**
 A directory of files as names linked to byte contents, the five file operations the store
 makes on it, and what "complete", "the same file" and "canonical" mean.
 */
module AttachmentFiles {
  import opened Prelude
  import opened AttachmentNames

  const MAX_FILE_BYTES: nat := 10 * 1024 * 1024

  /** io.Copy through a LimitReader stops one byte past the limit. */
  function Limit(source: seq<byte>): nat {
    if |source| <= MAX_FILE_BYTES then |source| else MAX_FILE_BYTES + 1
  }

  /** A directory entry. Two entries may link the same inode: that is how a file is committed. */
  datatype Node = Hard(inode: nat) | Symlink | Folder

  datatype Dir = Dir(entries: map<string, Node>, data: map<nat, seq<byte>>)

  ghost predicate Sound(d: Dir) {
    forall n <- d.entries :: d.entries[n].Hard? ==> d.entries[n].inode in d.data
  }

  /** The bytes of a regular file. */
  function BytesOf(d: Dir, name: string): Option<seq<byte>> {
    if name in d.entries && d.entries[name].Hard? && d.entries[name].inode in d.data
    then Some(d.data[d.entries[name].inode])
    else None
  }

  predicate IsComplete(bytes: Option<seq<byte>>) {
    bytes.Some? && 1 <= |bytes.value| <= MAX_FILE_BYTES
  }

  /** What ImportWorkspace takes from a workspace. */
  predicate Eligible(d: Dir, name: string) {
    ValidName(name) && IsComplete(BytesOf(d, name))
  }

  /** No attachment of the directory is partial, empty or too large. */
  ghost predicate Canonical(d: Dir) {
    forall n <- d.entries :: ValidName(n) ==> IsComplete(BytesOf(d, n))
  }

  /** A name stands for the same entry with the same bytes in both directories, or for none. */
  ghost predicate SameFile(a: Dir, b: Dir, name: string) {
    && (name in a.entries <==> name in b.entries)
    && (name in a.entries ==> a.entries[name] == b.entries[name] && BytesOf(a, name) == BytesOf(b, name))
  }

  /** Over one file operation an attachment stays as it is, appears with all its bytes, or is removed on purpose. */
  ghost predicate Lawful(before: Dir, after: Dir, added: map<string, seq<byte>>, removed: set<string>) {
    forall n :: ValidName(n) ==>
      || SameFile(before, after, n)
      || (n !in before.entries && n in added && BytesOf(after, n) == Some(added[n]))
      || (n !in after.entries && n in removed)
  }

  // The file operations, where they succeed.

  function Create(d: Dir, name: string, inode: nat): Dir {
    Dir(d.entries[name := Hard(inode)], d.data[inode := []])
  }

  function WriteAt(d: Dir, inode: nat, bytes: seq<byte>): Dir {
    d.(data := d.data[inode := bytes])
  }

  /** link: a second name for what `from` stands for. */
  function LinkTo(d: Dir, from: string, name: string): Dir
    requires from in d.entries
  {
    d.(entries := d.entries[name := d.entries[from]])
  }

  function Remove(d: Dir, name: string): Dir {
    d.(entries := d.entries - {name})
  }

  function RenameTo(d: Dir, from: string, name: string): Dir
    requires from in d.entries
  {
    Remove(LinkTo(d, from, name), from)
  }
}
