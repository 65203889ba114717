/** Definitions on which the generator falls short of what it is for, a family for each way it can. */
module GoLimits {
  import opened Json
  import opened Prelude
  import opened Text
  import opened GoNames
  import opened GoSchema
  import opened GoKinds
  import opened GoWiden
  import opened GoRender
  import opened GoDecoding
  import opened GoFields
  import opened GoDeclared
  import opened StringOrder
  import opened GoRuns

  const PLAIN: Schema := Schema("", NoType, [], [], [], None, NoExtra, [], [], [], "", "", "", [])

  const STRING: Schema := PLAIN.(typ := OneType(StringType))
  const INTEGER: Schema := PLAIN.(typ := OneType(IntegerType))

  /** An arm with the tag "kind" and a field "f". */
  function Arm(field: Schema): Schema {
    PLAIN.(properties := [Prop("f", field), Prop("kind", PLAIN.(enum := [Str("v")]))])
  }

  /** A tagged union that gives "f" a reference in one arm and a string in the other. */
  function RefOrString(ref: string): Schema {
    PLAIN.(oneOf := [Arm(PLAIN.(ref := ref)), Arm(STRING)])
  }

  lemma RefOrStringIsUnion(ref: string)
    ensures IsUnionDef(RefOrString(ref)) && TaggedUnion(RefOrString(ref)) == Some("kind")
  {
    var s := RefOrString(ref);
    var a, b := Arm(PLAIN.(ref := ref)), Arm(STRING);
    assert s.oneOf == [a, b];
    assert !IsEnumArm(Arms(s)[0]);
    assert !IsTagIn(a, "f") by {
      assert a.properties[0].name == "f" && a.properties[1].name == "kind";
    }
    assert IsTagIn(a, "kind") by {
      assert a.properties[1].name == "kind" && |a.properties[1].schema.enum| == 1;
    }
    assert IsTagIn(b, "kind") by {
      assert b.properties[1].name == "kind" && |b.properties[1].schema.enum| == 1;
    }
    hide IsTagIn;
    assert !IsCommonTag(s.oneOf, "f") by {
      assert !IsTagIn(s.oneOf[0], "f");
    }
    assert IsCommonTag(s.oneOf, "kind");
    var c := s.oneOf[0].properties;
    assert c[1..][0].name == "kind";
    assert FirstTag(s.oneOf, c) == FirstTag(s.oneOf, c[1..]);
  }

  lemma RefOrStringProps(ref: string)
    ensures var tag := Prop("kind", PLAIN.(enum := [Str("v")]));
      ArmProps(RefOrString(ref).oneOf) == [Prop("f", PLAIN.(ref := ref)), tag, Prop("f", STRING), tag]
  {
    var a, b := Arm(PLAIN.(ref := ref)), Arm(STRING);
    assert [a, b][..1] == [a] && [a][..0] == [];
    assert ArmProps([a]) == ArmProps([]) + a.properties;
    assert ArmProps([a, b]) == ArmProps([a]) + b.properties;
  }

  lemma RefMaps(ref: string, owner: string)
    requires ref != ""
    ensures MapType(PLAIN.(ref := ref), owner, "f") == Mapped(Named(RefName(ref)), None)
    ensures MapType(STRING, owner, "f") == Mapped(GoString, None)
  {
    hide RefName;
    assert Concrete(PLAIN.(ref := ref).anyOf) == [] && Concrete(STRING.anyOf) == [];
    assert Base(PLAIN.(ref := ref)) == PLAIN.(ref := ref) && Base(STRING) == STRING;
    assert FirstConcrete(Types(STRING)) == Some(StringType);
  }

  const TAG: Prop := Prop("kind", PLAIN.(enum := [Str("v")]))

  function Collected(typ: GoType, values: seq<string>): Flat {
    Flat(["f"], map["f" := typ], values, [])
  }

  lemma AddTag(kinds: Answers, f: Flat, owner: string)
    ensures AddProp(kinds, owner, "kind", f, TAG) == f.(values := f.values + ["v"])
  {
    var e := [Str("v")];
    assert e[1..] == [];
    assert Texts(e) == ["v"];
  }

  lemma AddField(kinds: Answers, owner: string, ref: string, typ: GoType, values: seq<string>)
    requires ref != ""
    ensures AddProp(kinds, owner, "kind", NO_FIELDS, Prop("f", PLAIN.(ref := ref))) == Collected(Named(RefName(ref)), [])
    ensures AddProp(kinds, owner, "kind", Collected(typ, values), Prop("f", STRING)) == Collected(Join(kinds, typ, GoString), values)
  {
    hide MapType, Join, RefName;
    RefMaps(ref, owner);
    assert [] + ["f"] == ["f"];
    assert map[]["f" := Named(RefName(ref))] == map["f" := Named(RefName(ref))];
    assert map["f" := typ]["f" := Join(kinds, typ, GoString)] == map["f" := Join(kinds, typ, GoString)];
    var none: seq<Inline> := [];
    assert none + [] == none;
  }

  /** What the four properties of such a union collect, one after the other. */
  lemma Collecting(draws: Draws, owner: string, ref: string)
    requires ref != ""
    ensures var r, props := Named(RefName(ref)), ArmProps(RefOrString(ref).oneOf);
      && |props| == 4
      && props[0] == Prop("f", PLAIN.(ref := ref)) && props[1] == TAG && props[2] == Prop("f", STRING) && props[3] == TAG
      && AddProps(draws, owner, "kind", props[..0]) == NO_FIELDS
      && AddProps(draws, owner, "kind", props[..1]) == Collected(r, [])
      && AddProps(draws, owner, "kind", props[..2]) == Collected(r, ["v"])
      && AddProps(draws, owner, "kind", props[..3]) == Collected(Join(draws(2), r, GoString), ["v"])
      && AddProps(draws, owner, "kind", props) == Collected(Join(draws(2), r, GoString), ["v", "v"])
  {
    RefOrStringProps(ref);
    hide AddProp, RefName, Join, ArmProps, STRING, PLAIN;
    var r, props := Named(RefName(ref)), ArmProps(RefOrString(ref).oneOf);
    assert props[..1][..0] == props[..0] && props[..2][..1] == props[..1] && props[..3][..2] == props[..2];
    AddField(draws(0), owner, ref, r, []);
    AddTag(draws(1), Collected(r, []), owner);
    assert [] + ["v"] == ["v"];
    AddField(draws(2), owner, ref, r, ["v"]);
    AddTag(draws(3), Collected(Join(draws(2), r, GoString), ["v"]), owner);
    assert ["v"] + ["v"] == ["v", "v"];
  }

  /** The third property is the one that asks, about the reference and about string. */
  lemma Asking(draws: Draws, owner: string, ref: string, n: nat, typ: GoType)
    requires ref != ""
    ensures AskedInUnion(draws, owner, "kind", ArmProps(RefOrString(ref).oneOf), n, typ)
            <==> n == 2 && typ in [Named(RefName(ref)), GoString]
  {
    hide RefName, ArmProps, AddProps, STRING, PLAIN, MapType, Join;
    Collecting(draws, owner, ref);
    RefMaps(ref, owner);
  }

  // A definition jsonKind never returns on.

  /** A definition with a field that wraps a reference to itself in a one-armed allOf. */
  function Wrap(name: string): Schema {
    PLAIN.(properties := [Prop("x", PLAIN)], allOf := [PLAIN.(ref := name)])
  }

  lemma NoSlash(s: string)
    requires '/' !in s
    ensures AfterLastSlash(s) == s
  {
    if s != "" {
      assert s[0] in s;
      assert forall c <- s[1..] :: c in s;
    }
  }

  lemma WrapAsks(name: string)
    requires name != "" && '/' !in name
    ensures TurnOf(Wrap(name)) == Asks(Named(ExportName(name)))
  {
    hide ExportName;
    var def := Wrap(name);
    assert Concrete(def.anyOf) == [];
    assert Base(def) == def;
    NoSlash(name);
    assert RefName(name) == ExportName(name);
  }

  /** On a definition that wraps itself jsonKind may go round for ever. */
  lemma WrapLoops(defs: seq<Prop>, i: nat, name: string)
    requires name != "" && '/' !in name
    requires Declares(defs, i, ExportName(name)) && defs[i].schema == Wrap(name)
    ensures Loops(defs, Named(ExportName(name)))
  {
    hide ExportName, TurnOf, Wrap;
    WrapAsks(name);
    var typ := Named(ExportName(name));
    var round := [typ, typ];
    assert MayTake(defs, typ, Asks(typ));
    assert round[0] == round[|round| - 1];
    assert TrailFrom(defs, typ, round) && EndsOnItself(round);
  }

  /** Such a definition, and a union that joins a reference to it with string. */
  function WrapAndUnion(name: string, union: string): seq<Prop> {
    [Prop(name, Wrap(name)), Prop(union, RefOrString(name))]
  }

  lemma WrapAndUnionSettled(name: string, union: string)
    requires ExportName(union) != ExportName(name)
    ensures Settled(WrapAndUnion(name, union))
  {
    hide ExportName, OwnKind, HopOf;
    var defs := WrapAndUnion(name, union);
    forall n, i: nat, j: nat | Declares(defs, i, n) && Declares(defs, j, n)
      ensures i == j
    {
    }
  }

  lemma WrapAndUnionAsks(oracle: Oracle, name: string, union: string)
    requires name != "" && '/' !in name && ExportName(union) != ExportName(name)
    ensures Asked(oracle, WrapAndUnion(name, union), 1, 2, Named(ExportName(name)))
  {
    hide ExportName, RenderDefs, IsNamedEnum, EnumUnion, AskedInUnion, TaggedUnion, ArmProps, RefOrString, Tracks, Names, NoDuplicates;
    var defs := WrapAndUnion(name, union);
    assert defs[..1] == [Prop(name, Wrap(name))] && defs[..1][..0] == [];
    WrapIsNoUnion(name);
    hide Wrap;
    DefsDeclare(oracle, defs[..1]);
    RefOrStringIsUnion(name);
    Asking(oracle(ExportName(union)), ExportName(union), name, 2, Named(ExportName(name)));
    NoSlash(name);
  }

  lemma WrapIsNoUnion(name: string)
    ensures !IsUnionDef(Wrap(name))
  {
  }

  /** No run over these definitions ever writes anything. */
  lemma NothingIsWritten(name: string, union: string, decls: seq<Decl>)
    requires name != "" && '/' !in name && ExportName(union) != ExportName(name)
    ensures !MayDeclare(WrapAndUnion(name, union), decls)
  {
    hide ExportName, Settled, Loops, MayAnswer, Asked, RenderTypes, Wrap, RefOrString;
    var defs := WrapAndUnion(name, union);
    WrapAndUnionSettled(name, union);
    WrapLoops(defs, 0, name);
    SettledAnswer(defs, Named(ExportName(name)));
    forall oracle: Oracle | true
      ensures !Honest(oracle, defs)
    {
      WrapAndUnionAsks(oracle, name, union);
    }
  }

  // Two definitions of one Go name.

  /** Two definitions of one Go name, and a union that joins a reference to it with string. */
  function TwiceAndUnion(name: string, other: string, union: string): seq<Prop> {
    [Prop(name, STRING), Prop(other, INTEGER), Prop(union, RefOrString(name))]
  }

  lemma ScalarsSay()
    ensures TurnOf(STRING) == Says(StringKind) && TurnOf(INTEGER) == Says(IntegerKind)
    ensures !IsUnionDef(STRING) && !IsUnionDef(INTEGER)
  {
    assert Concrete(INTEGER.anyOf) == [];
    assert Base(INTEGER) == INTEGER;
  }

  /** jsonKind may take such a name for a string or for an integer. */
  lemma TwiceAnswers(name: string, other: string, union: string, k: Kind)
    requires ExportName(other) == ExportName(name) != ExportName(union) && k in [StringKind, IntegerKind]
    ensures MayAnswer(TwiceAndUnion(name, other, union), Named(ExportName(name)), k)
  {
    hide ExportName, TurnOf, STRING, INTEGER, RefOrString;
    ScalarsSay();
    var defs, typ := TwiceAndUnion(name, other, union), Named(ExportName(name));
    assert Declares(defs, 0, ExportName(name)) && Declares(defs, 1, ExportName(name));
    assert TrailFrom(defs, typ, [typ]);
    assert MayTake(defs, [typ][|[typ]| - 1], Says(k));
  }

  function Saying(k: Kind): Oracle {
    owner => Always(name => k)
  }

  /** The third definition alone asks for kinds. */
  lemma TwiceAsks(name: string, other: string, union: string, oracle: Oracle, i: nat, n: nat, typ: GoType)
    requires name != "" && Asked(oracle, TwiceAndUnion(name, other, union), i, n, typ)
    ensures i == 2 && n == 2 && typ in [Named(RefName(name)), GoString]
  {
    hide ExportName, RenderDefs, IsUnionDef, AskedInUnion, TaggedUnion, ArmProps, RefOrString, STRING, INTEGER, RefName;
    ScalarsSay();
    RefOrStringIsUnion(name);
    Asking(oracle(ExportName(union)), ExportName(union), name, n, typ);
  }

  lemma SayingIsHonest(name: string, other: string, union: string, k: Kind)
    requires name != "" && '/' !in name && k in [StringKind, IntegerKind]
    requires ExportName(other) == ExportName(name) != ExportName(union)
    ensures Honest(Saying(k), TwiceAndUnion(name, other, union))
  {
    hide ExportName, Asked, MayAnswer, STRING, INTEGER, RefOrString;
    var defs := TwiceAndUnion(name, other, union);
    NoSlash(name);
    forall i: nat, n: nat, typ | Asked(Saying(k), defs, i, n, typ)
      ensures i < |defs| && MayAnswer(defs, typ, KindOf(Saying(k)(ExportName(defs[i].name))(n), typ))
    {
      TwiceAsks(name, other, union, Saying(k), i, n, typ);
      if typ.Named? {
        TwiceAnswers(name, other, union, k);
      } else {
        BuiltinAnswer(defs, typ, StringKind);
      }
    }
  }

  lemma StringIsAlias(oracle: Oracle, name: string)
    ensures RenderDef(oracle, NOTHING, name, STRING) == Out([AliasDecl(name, GoString, false)], [], {name})
  {
    assert Concrete(STRING.anyOf) == [];
    assert Base(STRING) == STRING;
    assert FirstConcrete(Types(STRING)) == Some(StringType);
    assert MapType(STRING, name, "") == Mapped(GoString, None);
  }

  lemma UnionIsEmitted(draws: Draws, o: Out, name: string, ref: string)
    requires ref != ""
    ensures var t, typ := EmitUnion(draws, o, name, RefOrString(ref), "kind"), Join(draws(2), Named(RefName(ref)), GoString);
      && |t.decls| == |o.decls| + 2 && t.inline == o.inline
      && t.decls[|o.decls|] == StructDecl(name,
          [TagField(name, "kind"), Field(Unclash(ExportName("f"), {ExportName("kind")}), typ, NeedsPointer(typ), "f", true)])
  {
    hide ExportName, RefName, RefOrString, ArmProps, Join, NeedsPointer, AddProps;
    Collecting(draws, name, ref);
    var props := ArmProps(RefOrString(ref).oneOf);
    FlatListed(draws, name, "kind", props);
    var typ := Join(draws(2), Named(RefName(ref)), GoString);
    var f := AddProps(draws, name, "kind", props);
    assert f == Collected(typ, ["v", "v"]);
    assert f.order[1..] == [];
    assert o.inline + [] == o.inline;
  }

  /** What the union becomes when jsonKind answers k for the shared name. */
  lemma SayingWrites(name: string, other: string, union: string, k: Kind)
    requires name != "" && '/' !in name
    requires ExportName(other) == ExportName(name) != ExportName(union)
    ensures var decls := RenderTypes(Saying(k), TwiceAndUnion(name, other, union)).decls;
      && |decls| == 3 && decls[1].StructDecl? && |decls[1].fields| == 2
      && decls[1].fields[1].typ == if k == StringKind then GoString else RawJson
  {
    hide ExportName, RefName, RefOrString, STRING, INTEGER, EmitUnion, IsNamedEnum, EnumUnion, TaggedUnion;
    var defs := TwiceAndUnion(name, other, union);
    var oracle := Saying(k);
    assert defs[..2][..1] == defs[..1] && defs[..1][..0] == [] && defs[..3] == defs;
    StringIsAlias(oracle, ExportName(name));
    RefOrStringIsUnion(name);
    var o := RenderDefs(oracle, defs[..2], NOTHING);
    assert RenderDefs(oracle, defs[..1], NOTHING) == Out([AliasDecl(ExportName(name), GoString, false)], [], {ExportName(name)});
    assert o == RenderDefs(oracle, defs[..1], NOTHING);
    UnionIsEmitted(oracle(ExportName(union)), o, ExportName(union), name);
  }

  /**
   Definitions of one Go name but different kinds show: the same definitions can be written
   in two ways, by the order in which a Go map happens to be walked.
   */
  lemma TwoOutputs(name: string, other: string, union: string)
    requires name != "" && '/' !in name
    requires ExportName(other) == ExportName(name) != ExportName(union)
    ensures exists a, b :: a != b && MayDeclare(TwiceAndUnion(name, other, union), a) && MayDeclare(TwiceAndUnion(name, other, union), b)
    ensures !Settled(TwiceAndUnion(name, other, union))
  {
    hide ExportName, Honest, RenderTypes, Settled, MayDeclare;
    var defs := TwiceAndUnion(name, other, union);
    SayingIsHonest(name, other, union, StringKind);
    SayingIsHonest(name, other, union, IntegerKind);
    SayingWrites(name, other, union, StringKind);
    SayingWrites(name, other, union, IntegerKind);
    var a, b := RenderTypes(Saying(StringKind), defs).decls, RenderTypes(Saying(IntegerKind), defs).decls;
    assert a[1].fields[1].typ != b[1].fields[1].typ;
    SayingDeclares(defs, StringKind);
    SayingDeclares(defs, IntegerKind);
    if Settled(defs) {
      OutputDecided(defs);
    }
  }

  lemma SayingDeclares(defs: seq<Prop>, k: Kind)
    requires Honest(Saying(k), defs)
    ensures MayDeclare(defs, RenderTypes(Saying(k), defs).decls)
  {
  }

  // A definition named like the tag type of a union.

  /** A definition that takes the name of the tag type of a union sorted behind it. */
  function TagTypeTaken(union: string, def: Schema, s: Schema): seq<Prop> {
    [Prop(ExportName(union) + "Type", def), Prop(union, s)]
  }

  /** Both are declared, and the tag type is declared twice. */
  lemma TagTypeTwice(oracle: Oracle, union: string, def: Schema, s: Schema)
    requires union != "" && IsLower(union[0]) && IsUnionDef(s)
    ensures var defs := TagTypeTaken(union, def, s);
      && Less(defs[0].name, defs[1].name) && Clash(defs)
      && !NoDuplicates(Names(RenderTypes(oracle, defs).decls))
  {
    hide ExportName, RenderTypes, NoDuplicates, Names, IsUnionDef;
    var defs := TagTypeTaken(union, def, s);
    ExportNameShape(union);
    TypeSuffixExported(union);
    var before := defs[..1];
    assert before[..0] == [];
    assert before == [defs[0]];
    assert |ExportName(union) + "Type"| != |ExportName(union)|;
    DefinitionsTaken(before);
    assert ExportName(defs[0].name) in ExportedNames(before);
    if ExportName(union) in Taken(before) {
      TakenComesFrom(before, ExportName(union));
    }
    DeclaredOnce(oracle, defs);
  }

  // Three fields of one Go name.

  /** Three properties whose names differ only in the character between two words. */
  function Separated(x: string, y: string, separators: (char, char, char), schemas: (Schema, Schema, Schema)): seq<Prop> {
    [Prop(x + [separators.0] + y, schemas.0),
     Prop(x + [separators.1] + y, schemas.1),
     Prop(x + [separators.2] + y, schemas.2)]
  }

  /** They break the fields of a struct. */
  lemma ThreeSeparators(
      owner: string, x: string, y: string, separators: (char, char, char), schemas: (Schema, Schema, Schema),
      required: seq<string>)
    requires !IsAlphanumeric(separators.0) && !IsAlphanumeric(separators.1) && !IsAlphanumeric(separators.2)
    requires ExportName(x + y) != ""
    ensures !NoDuplicates(FieldNames(Fields(owner, Separated(x, y, separators, schemas), required, {})))
  {
    hide ExportName, NoDuplicates, Fields, FieldNames;
    var props := Separated(x, y, separators, schemas);
    SeparatorsAlike(x, y, separators.0, separators.1);
    SeparatorsAlike(x, y, separators.0, separators.2);
    SeparatedNotEmpty(x, y, separators.0);
    var n := ExportName(props[0].name);
    ThreeOfAName(props, n);
    FieldNamesDistinct(owner, props, required);
    assert n in GoNamesOf(props);
  }

  lemma SeparatedNotEmpty(x: string, y: string, c: char)
    requires ExportName(x + y) != ""
    ensures ExportName(x + [c] + y) != ""
  {
    hide ExportName;
    ExportNameEmpty(x + y);
    ExportNameEmpty(x + [c] + y);
    var i :| 0 <= i < |x + y| && IsAlphanumeric((x + y)[i]);
    var j := if i < |x| then i else i + 1;
    assert (x + [c] + y)[j] == (x + y)[i];
  }

  lemma ThreeOfAName(props: seq<Prop>, n: string)
    requires |props| == 3 && n != "" && forall p <- props :: ExportName(p.name) == n
    ensures GoNamesOf(props) == [n, n, n] && Count(GoNamesOf(props), n) == 3
  {
    hide ExportName;
    var one, two := props[2..], props[1..];
    assert two[1..] == one && one[1..] == [];
    assert GoNamesOf(one) == [n] && GoNamesOf(two) == [n] + GoNamesOf(one) && GoNamesOf(props) == [n] + GoNamesOf(two);
    assert [n, n, n][1..] == [n, n] && [n, n][1..] == [n] && [n][1..] == [];
    assert Count([n], n) == 1 && Count([n, n], n) == 2 && Count([n, n, n], n) == 3;
  }

  // Types the mapping has no room for.

  /** A schema that says nothing but its types and a format. */
  function TypedOnly(types: seq<JsonType>, format: string): Schema {
    PLAIN.(typ := ManyTypes(types), format := format)
  }

  function Nobody(): Meaning {
    (name, v) => false
  }

  /** A value of each type. */
  function Example(t: JsonType): Value {
    match t
    case StringType => Str("")
    case BooleanType => Bool(false)
    case IntegerType => Whole(0)
    case NumberType => Fraction(0.5)
    case ArrayType => Arr([])
    case ObjectType => Obj([])
    case _ => Null
  }

  lemma TypedOnlyAdmits(types: seq<JsonType>, format: string, v: Value)
    ensures Admits(Nobody(), TypedOnly(types, format), v) <==>
      (types != [] ==> exists t <- types :: HasType(t, v)) && (v.Whole? ==> InFormat(format, v.n))
  {
    hide HasType, InFormat;
    var s := TypedOnly(types, format);
    assert Types(s) == types;
  }

  lemma TypedOnlyRegular(types: seq<JsonType>, format: string)
    requires TypesAgree(TypedOnly(types, format))
    ensures Regular(TypedOnly(types, format))
  {
    hide TypesAgree;
    assert !exists i :: SoleArm(TypedOnly(types, format).anyOf, i);
  }

  /** An integer that is too large for int64. */
  const LARGE: int := 0x8000_0000_0000_0000

  lemma TypedOnlyTakes(types: seq<JsonType>, format: string, t: JsonType, v: Value)
    requires Leads(types, t) && Known(t) && t != ObjectType && !v.Null?
    ensures Takes(Nobody(), TypedOnly(types, format), "", "", v) <==>
      HasType(t, v) && (t == IntegerType ==> InFormat(if format in ["uint32", "uint64"] then "uint64" else "int64", v.n))
  {
    var s := TypedOnly(types, format);
    assert !exists i :: SoleArm(s.anyOf, i);
    assert Types(s) == types;
    LeadsOne(types);
    hide Leads, InFormat, Types;
  }

  lemma LeadsOne(types: seq<JsonType>)
    ensures forall t, u :: Leads(types, t) && Leads(types, u) ==> t == u
  {
    LeadsIs(types);
    hide Leads;
  }

  lemma MisfitOfType(types: seq<JsonType>, format: string, t: JsonType, u: JsonType)
    requires Leads(types, t) && Known(t) && t != ObjectType
    requires u in types && Known(u) && u != t && !(t == NumberType && u == IntegerType)
    ensures Admits(Nobody(), TypedOnly(types, format), Example(u))
    ensures !Takes(Nobody(), TypedOnly(types, format), "", "", Example(u))
  {
    TypedOnlyAdmits(types, format, Example(u));
    TypedOnlyTakes(types, format, t, Example(u));
    assert HasType(u, Example(u)) && !HasType(t, Example(u));
    hide Admits, Takes, Leads;
  }

  lemma MisfitOfSize(types: seq<JsonType>, format: string)
    requires Leads(types, IntegerType) && format !in BOUNDED
    ensures Admits(Nobody(), TypedOnly(types, format), Whole(LARGE))
    ensures !Takes(Nobody(), TypedOnly(types, format), "", "", Whole(LARGE))
  {
    TypedOnlyAdmits(types, format, Whole(LARGE));
    TypedOnlyTakes(types, format, IntegerType, Whole(LARGE));
    assert IntegerType in types && HasType(IntegerType, Whole(LARGE));
    hide Admits, Takes, Leads;
  }

  /**
   For a schema of types and a format alone: all it admits decodes if and only if, null
   aside, one type is declared, or integers beside numbers first, and integers have a
   format that leaves no more than Go has room for. So uint, or no format at all, is too wide.
   */
  lemma TypesDecodeExactly(types: seq<JsonType>, format: string)
    ensures (forall v :: Admits(Nobody(), TypedOnly(types, format), v) ==>
               Decodes(Nobody(), MapType(TypedOnly(types, format), "", "").typ, v))
            <==> TypesAgree(TypedOnly(types, format))
  {
    var s := TypedOnly(types, format);
    assert Types(s) == types;
    if TypesAgree(s) {
      TypedOnlyRegular(types, format);
      NothingFound(types, format);
      forall v | Admits(Nobody(), s, v)
        ensures Decodes(Nobody(), MapType(s, "", "").typ, v)
      {
        AdmittedDecodes(Nobody(), Nobody(), s, "", "", v);
      }
    } else {
      var t :| Leads(types, t) && Known(t) && !LeavesOpen(s) && !TypesAgreeOn(types, format, t);
      var v := Misfit(types, format, t);
      DecodesExactly(Nobody(), s, "", "", v);
    }
  }

  predicate TypesAgreeOn(types: seq<JsonType>, format: string, t: JsonType) {
    && (forall u <- types :: Known(u) ==> u == t || (t == NumberType && u == IntegerType))
    && (t == IntegerType ==> format in BOUNDED)
  }

  lemma Misfit(types: seq<JsonType>, format: string, t: JsonType) returns (v: Value)
    requires Leads(types, t) && Known(t) && !LeavesOpen(TypedOnly(types, format)) && !TypesAgreeOn(types, format, t)
    ensures Admits(Nobody(), TypedOnly(types, format), v)
    ensures !Takes(Nobody(), TypedOnly(types, format), "", "", v)
  {
    hide Admits, Takes, Leads;
    assert Types(TypedOnly(types, format)) == types;
    if t == IntegerType && format !in BOUNDED {
      MisfitOfSize(types, format);
      v := Whole(LARGE);
    } else {
      var u :| u in types && Known(u) && u != t && !(t == NumberType && u == IntegerType);
      MisfitOfType(types, format, t, u);
      v := Example(u);
    }
  }

  lemma NothingFound(types: seq<JsonType>, format: string)
    ensures MapType(TypedOnly(types, format), "", "").found == None
  {
    hide EnumUnion, FirstConcrete;
    var s := TypedOnly(types, format);
    assert Concrete(s.anyOf) == [];
    assert Base(s) == s;
    assert MapType(s, "", "") == MapBase(s, "", "");
    assert MapBase(s, "", "") == MapByType(s, FirstConcrete(Types(s)), "", "");
  }
}
