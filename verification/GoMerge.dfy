/** Folding several schema files into one namespace, and what the order of the files can change. */
module GoMerge {
  import opened Prelude
  import opened GoCopies
  import opened GoSchema
  import opened GoKinds
  import opened GoRender
  import opened GoRuns
  import opened StringOrder

  type File = map<string, Schema>

  /** The names on which a file disagrees with what is there. */
  function Conflicts(defs: File, file: File): set<string> {
    set n | n in file && n in defs && !SameShape(defs[n], file[n])
  }

  /** mergeDefs: what is there already stays; a disagreement stops the generator. */
  function Merge(defs: File, file: File): Option<File> {
    if Conflicts(defs, file) == {} then Some(file + defs) else None
  }

  function MergeAll(files: seq<File>): Option<File>
    decreases |files|
  {
    if files == [] then Some(map[])
    else
      match MergeAll(files[..|files| - 1])
      case None => None
      case Some(defs) => Merge(defs, files[|files| - 1])
  }

  /** Any two files agree on the shape of every name both declare. */
  ghost predicate Compatible(files: seq<File>) {
    forall f, g, n :: f in files && g in files && n in f && n in g ==> SameShape(f[n], g[n])
  }

  ghost predicate MergeOf(defs: File, files: seq<File>) {
    && (forall n <- defs :: exists f :: f in files && n in f && defs[n] == f[n])
    && (forall f, n :: f in files && n in f ==> n in defs && SameShape(defs[n], f[n]))
  }

  lemma MergeStep(defs: File, files: seq<File>, file: File)
    requires MergeOf(defs, files)
    ensures Merge(defs, file).Some? ==> MergeOf(Merge(defs, file).value, files + [file])
    ensures Merge(defs, file).None? ==> !Compatible(files + [file])
  {
    hide SameShape;
    var all := files + [file];
    assert forall f :: f in all <==> f in files || f == file;
    if Conflicts(defs, file) == {} {
      var merged := file + defs;
      forall f, n | f in all && n in f
        ensures n in merged && SameShape(merged[n], f[n])
      {
        if f == file && n in defs {
          assert n !in Conflicts(defs, file);
        } else if f == file {
          ShapeReflexive(file[n]);
        }
      }
      forall n | n in merged
        ensures exists f :: f in all && n in f && merged[n] == f[n]
      {
        if n in defs {
          var f :| f in files && n in f && defs[n] == f[n];
          assert f in all;
        } else {
          assert file in all;
        }
      }
    } else {
      var n :| n in Conflicts(defs, file);
      var f :| f in files && n in f && defs[n] == f[n];
      assert f in all && file in all;
    }
  }

  lemma ShapeReflexive(s: Schema)
    ensures SameShape(s, s)
  {
  }

  lemma ShapeEuclidean(a: Schema, b: Schema, c: Schema)
    requires SameShape(a, b) && SameShape(a, c)
    ensures SameShape(b, c) && SameShape(b, a)
  {
  }

  /**
   A set of files merges if and only if every two of them agree on the shape of what both
   declare; the result then declares exactly the names declared somewhere, each in the
   shape of every file that declares it.
   */
  lemma {:induction false} MergesExactly(files: seq<File>)
    ensures MergeAll(files).Some? <==> Compatible(files)
    ensures MergeAll(files).Some? ==> MergeOf(MergeAll(files).value, files)
    decreases |files|
  {
    hide SameShape, Merge;
    if files != [] {
      var before := files[..|files| - 1];
      assert files == before + [files[|files| - 1]];
      assert forall f :: f in before ==> f in files;
      MergesExactly(before);
      if MergeAll(before).Some? {
        MergeStep(MergeAll(before).value, before, files[|files| - 1]);
      } else {
        assert !Compatible(files);
      }
      if MergeAll(files).Some? {
        MergedIsCompatible(MergeAll(files).value, files);
      }
    }
  }

  lemma MergedIsCompatible(defs: File, files: seq<File>)
    requires MergeOf(defs, files)
    ensures Compatible(files)
  {
    forall f, g, n | f in files && g in files && n in f && n in g
      ensures SameShape(f[n], g[n])
    {
      ShapeEuclidean(defs[n], f[n], g[n]);
    }
  }

  /** A file that declares the same names differs from this one in documentation only. */
  ghost predicate Copies(file: File, other: File) {
    file.Keys == other.Keys && forall n <- file :: SameButDocs(file[n], other[n])
  }

  /** A file merges with any copy of itself, whatever the titles and descriptions in it, and stays what it was. */
  lemma CopiesMerge(file: File, other: File)
    requires Copies(file, other)
    ensures Merge(file, other) == Some(file)
  {
    CopiesAgree(file, other);
    hide Conflicts, SameButDocs;
    assert other + file == file;
  }

  lemma CopiesAgree(file: File, other: File)
    requires Copies(file, other)
    ensures Conflicts(file, other) == {}
  {
    hide SameShape, SameButDocs;
    forall n | n in file
      ensures SameShape(file[n], other[n])
    {
      SameShapeIs(file[n], other[n]);
    }
  }

  /** The definitions in the order renderTypes walks them. */
  ghost function InOrder(defs: File): seq<Prop> {
    var names := Sorted(defs.Keys);
    seq(|names|, i requires 0 <= i < |names| => Prop(names[i], defs[names[i]]))
  }

  /** A merge of some files, set beside a merge of the same files: no name is missing, no shape differs. */
  lemma MergeCovers(a: File, b: File, files: seq<File>, files': seq<File>)
    requires MergeOf(a, files) && MergeOf(b, files')
    requires forall f :: f in files ==> f in files'
    ensures forall n <- a :: n in b && SameShape(a[n], b[n])
  {
    hide SameShape;
    forall n | n in a
      ensures n in b && SameShape(a[n], b[n])
    {
      var f :| f in files && n in f && a[n] == f[n];
      assert f in files';
      ShapeReflexive(b[n]);
      ShapeEuclidean(b[n], f[n], b[n]);
    }
  }

  lemma AgreeInOrder(a: File, b: File)
    requires a.Keys == b.Keys
    requires forall n <- a :: n in b && SameShape(a[n], b[n])
    ensures SameShapes(InOrder(a), InOrder(b))
  {
    hide SameShape;
  }

  /** Two merges of the same files declare the same names in the same shapes. */
  lemma MergesAgree(a: File, b: File, files: seq<File>, files': seq<File>)
    requires MergeOf(a, files) && MergeOf(b, files')
    requires forall f :: f in files <==> f in files'
    ensures SameShapes(InOrder(a), InOrder(b))
  {
    hide SameShape, MergeOf, InOrder, SameShapes;
    MergeCovers(a, b, files, files');
    MergeCovers(b, a, files', files);
    AgreeInOrder(a, b);
  }

  /**
   The order in which files are read decides nothing: whether they merge, and which
   declarations, comments aside, may come out, depends only on the set of files.
   */
  lemma FileOrderNeverShows(files: seq<File>, files': seq<File>)
    requires forall f :: f in files <==> f in files'
    ensures MergeAll(files).Some? <==> MergeAll(files').Some?
    ensures MergeAll(files).Some? ==>
      forall decls :: MayDeclare(InOrder(MergeAll(files).value), decls) <==> MayDeclare(InOrder(MergeAll(files').value), decls)
  {
    hide SameShape, InOrder, MayDeclare, MergeAll, SameShapes;
    MergesExactly(files);
    MergesExactly(files');
    assert Compatible(files) <==> Compatible(files');
    if MergeAll(files).Some? {
      MergesAgree(MergeAll(files).value, MergeAll(files').value, files, files');
      forall decls: seq<Decl> | true
        ensures MayDeclare(InOrder(MergeAll(files).value), decls) <==> MayDeclare(InOrder(MergeAll(files').value), decls)
      {
        ShapesDecide(InOrder(MergeAll(files).value), InOrder(MergeAll(files').value), decls);
      }
    }
  }
}
