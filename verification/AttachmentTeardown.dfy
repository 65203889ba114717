/**
 What importing a worktree and materializing into one mean for the attachments, name by
 name, and what the two make of each other.
 */
module AttachmentTeardown {
  import opened Prelude
  import opened AttachmentNames
  import opened AttachmentFiles

  /** An earlier canonical file wins; otherwise an eligible file of the worktree becomes canonical. */
  ghost predicate TakenOver(c: Dir, w: Dir, c': Dir, name: string) {
    if name in c.entries then SameFile(c, c', name)
    else if Eligible(w, name) then BytesOf(c', name) == BytesOf(w, name)
    else name !in c'.entries
  }

  /** A completed import of worktree `w` turns canonical `c` into `c'`. */
  ghost predicate Imported(c: Dir, w: Dir, c': Dir) {
    forall n :: ValidName(n) ==> TakenOver(c, w, c', n)
  }

  /** An import stopped anywhere: some of the names have been taken over. */
  ghost predicate ImportedSome(c: Dir, w: Dir, now: Dir) {
    forall n :: ValidName(n) ==> SameFile(c, now, n) || (n !in c.entries && TakenOver(c, w, now, n))
  }

  ghost predicate ProjectedName(c: Dir, w: Dir, w': Dir, name: string) {
    if Eligible(c, name) then BytesOf(w', name) == BytesOf(c, name) else SameFile(w, w', name)
  }

  /** A completed materialize from canonical `c` turns worktree `w` into `w'`. */
  ghost predicate Projected(c: Dir, w: Dir, w': Dir) {
    forall n :: ValidName(n) ==> ProjectedName(c, w, w', n)
  }

  ghost predicate ProjectedSome(c: Dir, w: Dir, now: Dir) {
    forall n :: ValidName(n) ==> SameFile(w, now, n) || ProjectedName(c, w, now, n)
  }

  /** Two directories hold the same attachments. */
  ghost predicate SameAttachments(a: Dir, b: Dir) {
    forall n :: ValidName(n) ==> BytesOf(a, n) == BytesOf(b, n) && (n in a.entries <==> n in b.entries)
  }

  /** An import leaves canonical canonical, wherever it stops. */
  lemma ImportKeepsCanonical(c: Dir, w: Dir, now: Dir)
    requires Canonical(c) && ImportedSome(c, w, now)
    ensures Canonical(now)
  {
    hide ValidName, IsComplete;
    forall n | n in now.entries && ValidName(n)
      ensures IsComplete(BytesOf(now, n))
    {
      if !SameFile(c, now, n) {
        assert TakenOver(c, w, now, n);
      }
    }
  }

  lemma ImportedIsSome(c: Dir, w: Dir, c': Dir)
    requires Imported(c, w, c')
    ensures ImportedSome(c, w, c')
  {
    hide ValidName, Eligible, BytesOf;
    forall n | ValidName(n) && !SameFile(c, c', n)
      ensures n !in c.entries && TakenOver(c, w, c', n)
    {
      assert TakenOver(c, w, c', n);
    }
  }

  /** Importing changes nothing if and only if the worktree holds no eligible file canonical lacks. */
  lemma ImportChangesNothing(c: Dir, w: Dir, c': Dir)
    requires Imported(c, w, c')
    ensures SameAttachments(c, c') <==> forall n :: Eligible(w, n) ==> n in c.entries
  {
    hide ValidName, IsComplete;
    forall n | ValidName(n)
      ensures BytesOf(c, n) == BytesOf(c', n) && (n in c.entries <==> n in c'.entries) <==> (Eligible(w, n) ==> n in c.entries)
    {
      assert TakenOver(c, w, c', n);
      if n !in c.entries && Eligible(w, n) {
        CompleteIsThere(w, c', n);
      }
    }
  }

  lemma CompleteIsThere(w: Dir, c: Dir, n: string)
    requires BytesOf(c, n) == BytesOf(w, n)
    ensures Eligible(w, n) ==> n in c.entries
  {
  }

  /** The second of two imports of the same worktree changes nothing. */
  lemma ImportIdempotent(c: Dir, w: Dir, c1: Dir, c2: Dir)
    requires Imported(c, w, c1) && Imported(c1, w, c2)
    ensures SameAttachments(c1, c2)
  {
    hide ValidName, SameAttachments, IsComplete;
    forall n | Eligible(w, n)
      ensures n in c1.entries
    {
      assert TakenOver(c, w, c1, n);
      if n !in c.entries {
        CompleteIsThere(w, c1, n);
      }
    }
    ImportChangesNothing(c1, w, c2);
  }

  /**
   Teardown and restore: after importing `w` and materializing into any `v`, the new worktree
   agrees with canonical on every canonical name, and no eligible file of the old worktree is
   lost: it comes back with the bytes canonical had for it before, or else its own.
   */
  lemma TeardownRoundTrip(c: Dir, w: Dir, c': Dir, v: Dir, v': Dir)
    requires Canonical(c) && Imported(c, w, c') && Projected(c', v, v')
    ensures Canonical(c')
    ensures forall n <- c'.entries :: ValidName(n) ==> BytesOf(v', n) == BytesOf(c', n)
    ensures forall n :: Eligible(w, n) ==> BytesOf(v', n) == if n in c.entries then BytesOf(c, n) else BytesOf(w, n)
  {
    hide ValidName, IsComplete;
    ImportedIsSome(c, w, c');
    ImportKeepsCanonical(c, w, c');
    forall n | n in c'.entries && ValidName(n)
      ensures BytesOf(v', n) == BytesOf(c', n)
    {
      assert ProjectedName(c', v, v', n);
    }
    forall n | Eligible(w, n)
      ensures BytesOf(v', n) == if n in c.entries then BytesOf(c, n) else BytesOf(w, n)
    {
      assert TakenOver(c, w, c', n) && ProjectedName(c', v, v', n);
      if n !in c.entries {
        CompleteIsThere(w, c', n);
      }
    }
  }

  /**
   Importing right after materializing leaves canonical as it was if and only if the worktree
   held no eligible file unknown to canonical before.
   */
  lemma ImportAfterMaterialize(c: Dir, w: Dir, w': Dir, c': Dir)
    requires Canonical(c) && Projected(c, w, w') && Imported(c, w', c')
    ensures SameAttachments(c, c') <==> forall n :: Eligible(w, n) ==> n in c.entries
  {
    hide ValidName, IsComplete, SameAttachments;
    ImportChangesNothing(c, w', c');
    forall n | ValidName(n) && n !in c.entries
      ensures Eligible(w, n) <==> Eligible(w', n)
    {
      assert ProjectedName(c, w, w', n);
      if Eligible(c, n) {
        CompleteIsThere(c, c, n);
      }
    }
  }
}
