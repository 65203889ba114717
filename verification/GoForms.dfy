/** Which kind of Go declaration a definition becomes, and what an enum of it lists. */
module GoForms {
  import opened Json
  import opened Prelude
  import opened GoNames
  import opened GoSchema
  import opened GoRender
  import opened GoDeclared
  import opened GoDecoding
  import opened GoStructs
  import opened GoSound
  import opened GoProgram
  import opened GoLimits

  /** A list of values for what is declared as a string, or of strings alone where nothing is declared. */
  predicate ListsOwnStrings(s: Schema) {
    s.enum != [] && (StringType in Types(s) || (Types(s) == [] && forall v <- s.enum :: v.Str?))
  }

  /** In every arm the name has one value only. */
  predicate Marks(s: Schema, name: string) {
    forall arm <- s.oneOf :: exists q <- arm.properties :: q.name == name && |q.schema.enum| == 1
  }

  lemma OwnStringsAre(s: Schema)
    ensures IsNamedEnum(s) <==> ListsOwnStrings(s)
  {
    hide Types;
    assert forall i :: 0 <= i < |s.enum| ==> s.enum[i] in s.enum;
  }

  lemma MarksIs(s: Schema, name: string)
    ensures IsCommonTag(s.oneOf, name) <==> Marks(s, name)
  {
    forall arm
      ensures IsTagIn(arm, name) <==> exists q <- arm.properties :: q.name == name && |q.schema.enum| == 1
    {
      if exists q <- arm.properties :: q.name == name && |q.schema.enum| == 1 {
        var q :| q in arm.properties && q.name == name && |q.schema.enum| == 1;
        var i :| 0 <= i < |arm.properties| && arm.properties[i] == q;
      }
    }
    hide IsTagIn;
    assert forall i :: 0 <= i < |s.oneOf| ==> s.oneOf[i] in s.oneOf;
  }

  lemma {:induction false} SomeTag(arms: seq<Schema>, candidates: seq<Prop>)
    ensures FirstTag(arms, candidates).Some? <==> exists p <- candidates :: IsCommonTag(arms, p.name)
    decreases |candidates|
  {
    hide IsCommonTag;
    if candidates != [] {
      SomeTag(arms, candidates[1..]);
      assert forall p :: p in candidates <==> p == candidates[0] || p in candidates[1..];
    }
  }

  lemma TaggedIs(s: Schema)
    ensures TaggedUnion(s).Some? <==> |s.oneOf| >= 2 && exists name :: Marks(s, name)
  {
    forall name
      ensures IsCommonTag(s.oneOf, name) <==> Marks(s, name)
    {
      MarksIs(s, name);
    }
    if |s.oneOf| >= 2 {
      SomeTag(s.oneOf, s.oneOf[0].properties);
      hide FirstTag, IsCommonTag;
      if name :| Marks(s, name) {
        assert s.oneOf[0] in s.oneOf;
        var q :| q in s.oneOf[0].properties && q.name == name;
      }
    }
  }

  /**
   A definition becomes a string type if it lists strings, itself or in each of its arms;
   else a struct if its arms have a discriminator or it has members of its own; and else a
   type defined over another.
   */
  lemma FormDecided(oracle: Oracle, p: Prop)
    ensures var s, d := p.schema, OwnDecl(oracle, p);
      && (d.EnumDecl? <==> ListsOwnStrings(s) || ListsStrings(s))
      && (d.StructDecl? <==> !d.EnumDecl? && ((|s.oneOf| >= 2 && exists name :: Marks(s, name)) || s.properties != []))
  {
    OwnStringsAre(p.schema);
    ListsStringsIs(p.schema);
    TaggedIs(p.schema);
    hide IsNamedEnum, ListsOwnStrings, EnumUnion, ListsStrings, TaggedUnion, Marks;
    OwnDeclIs(oracle, p);
    FormIs(oracle, p);
  }

  lemma FormIs(oracle: Oracle, p: Prop)
    requires OwnDecls(oracle, p) != []
    ensures var s, d := p.schema, OwnDecls(oracle, p)[0];
      && (d.EnumDecl? <==> IsNamedEnum(s) || EnumUnion(s))
      && (d.StructDecl? <==> !d.EnumDecl? && (TaggedUnion(s).Some? || s.properties != []))
  {
    hide ExportName, Texts, Dedup, ArmTexts, EnumUnion, IsStringEnum, TaggedUnion, Fields, Founds, MapType;
    var name, s := ExportName(p.name), p.schema;
    if IsUnionDef(s) {
      UnionWritten(oracle(name), name, s, TaggedUnion(s).value);
      hide EmitUnion, Flatten;
    }
  }

  /** What a string type lists: the strings the definition lists, itself or in some arm. */
  lemma EnumValues(oracle: Oracle, p: Prop)
    requires OwnDecl(oracle, p).EnumDecl?
    ensures var s := p.schema;
      forall x :: x in OwnDecl(oracle, p).values <==>
        if ListsOwnStrings(s) then Str(x) in s.enum else exists arm <- Arms(s) :: Str(x) in arm.enum
  {
    var s := p.schema;
    OwnStringsAre(s);
    OwnDeclIs(oracle, p);
    FormIs(oracle, p);
    TextsAre(s.enum);
    ArmTextsAre(Arms(s));
    DedupIs(ArmTexts(Arms(s)), {});
    hide ListsOwnStrings, IsNamedEnum, EnumUnion, TaggedUnion, Dedup, ArmTexts, Texts, ExportName, Arms;
  }

  /** A reference means what stands behind its last slash, so #/definitions/X and X both mean X. */
  lemma {:induction false} LastSegment(prefix: string, name: string)
    requires '/' !in name
    ensures AfterLastSlash(name) == name && AfterLastSlash(prefix + "/" + name) == name
    decreases |prefix|
  {
    NoSlash(name);
    var s := prefix + "/" + name;
    if prefix == "" {
      assert s[1..] == name;
    } else {
      assert s[1..] == prefix[1..] + "/" + name;
      assert s[1..][|prefix| - 1] == '/';
      LastSegment(prefix[1..], name);
    }
  }
}
