/** jsonKind against the values themselves: the kind it reads off a type or a definition is the least that covers them. */
module GoScalars {
  import opened Json
  import opened Prelude
  import opened GoNames
  import opened GoSchema
  import opened GoRender
  import opened GoDecoding
  import opened GoJoins
  import opened GoDeclared
  import opened GoSound
  import opened GoProgram
  import opened GoKinds
  import opened GoRuns
  import opened GoLimits
  import opened GoLosses

  /** Every value but null that decodes into the type is of the kind. */
  ghost predicate Covers(named: Meaning, k: Kind, t: GoType) {
    forall v: Value :: Decodes(named, t, v) && !v.Null? ==> OfKind(k, v)
  }

  /** For a type of Go's own, the kind is the narrowest that covers what decodes into it. */
  lemma BuiltinKindIsNarrowest(named: Meaning, t: GoType, k: Kind)
    requires !t.Named?
    ensures Covers(named, k, t) <==> k == BuiltinKind(t) || k == NoKind || (k == NumberKind && BuiltinKind(t) == IntegerKind)
  {
    var v := Sample(t);
    assert Decodes(named, t, v) && !v.Null?;
    if !OfKind(k, v) {
      assert !Covers(named, k, t);
    }
  }

  /** A value that tells the type from those of other kinds. */
  function Sample(t: GoType): Value {
    match t
    case GoString => Str("")
    case GoBool => Bool(true)
    case GoInt64 => Whole(0)
    case GoUint64 => Whole(0)
    case GoFloat64 => Fraction(0.5)
    case MapOf(_) => Obj([])
    case _ => Arr([])
  }

  predicate IsScalar(t: JsonType) {
    t in [StringType, IntegerType, NumberType, BooleanType]
  }

  /** No scalar type stands behind one that is none, and string stands behind no other. */
  ghost predicate InOrder(types: seq<JsonType>) {
    && (StringType in types ==> Leads(types, StringType))
    && forall t, u :: Leads(types, t) && u in types && IsScalar(u) ==> IsScalar(t)
  }

  function ScalarKind(t: JsonType): Kind {
    match t
    case StringType => StringKind
    case IntegerType => IntegerKind
    case NumberType => NumberKind
    case BooleanType => BooleanKind
    case _ => NoKind
  }

  lemma {:induction false} DeclaredKindIs(types: seq<JsonType>)
    ensures DeclaredKind(types) == NoKind <==> forall u <- types :: !IsScalar(u)
    ensures match FirstConcrete(types)
      case None => forall u <- types :: u == NullType
      case Some(t) => t in types && (IsScalar(t) ==> DeclaredKind(types) == ScalarKind(t))
    ensures DeclaredKind(types) != NoKind ==> exists u <- types :: DeclaredKind(types) == ScalarKind(u)
    decreases |types|
  {
    if types != [] {
      DeclaredKindIs(types[1..]);
      assert types[0] in types && forall u <- types[1..] :: u in types;
      assert forall u <- types :: u == types[0] || u in types[1..];
      if DeclaredKind(types) != NoKind && !IsScalar(types[0]) {
        var u :| u in types[1..] && DeclaredKind(types[1..]) == ScalarKind(u);
        assert u in types;
      }
    }
  }

  /** A definition of a type by its name alone: no reference, enum or object, and nothing to see past. */
  predicate TypeByName(s: Schema) {
    IsAliasDef(s) && s.ref == "" && s.enum == [] && |s.allOf| != 1 && Base(s) == s
  }

  lemma MapsByName(s: Schema, name: string)
    requires TypeByName(s)
    ensures BuiltinKind(MapType(s, name, "").typ) == match FirstConcrete(Types(s))
      case None => NoKind
      case Some(t) => ScalarKind(t)
    ensures !MapType(s, name, "").typ.Named?
    ensures s.properties == [] && s.items.None? && !s.additional.SchemaExtra? ==> MapType(s, name, "").found.None?
  {
    var concrete := FirstConcrete(Types(s));
    assert MapType(s, name, "") == MapByType(s, concrete, name, "") by {
      hide MapByType, FirstConcrete, Concrete, EnumUnion, TaggedUnion;
    }
    hide FirstConcrete, Concrete, EnumUnion, TaggedUnion, MapType, Base, Types, IsNamedEnum, ExportName;
  }

  /**
   For such a definition jsonKind and the Go type agree if and only if its types are in
   order: jsonKind looks for any scalar type, the Go type is that of the first.
   */
  lemma KindsAgreeExactly(s: Schema, name: string)
    requires TypeByName(s)
    ensures OwnKind(s) == BuiltinKind(MapType(s, name, "").typ) <==> InOrder(Types(s))
  {
    var types := Types(s);
    DeclaredKindIs(types);
    LeadsIs(types);
    MapsByName(s, name);
    hide MapByType, Base, ExportName, EnumUnion, TaggedUnion, Leads, Concrete, MapType, Types, FirstConcrete, DeclaredKind;
    if FirstConcrete(types).Some? {
      assert Leads(types, FirstConcrete(types).value);
    }
  }

  /** So such a definition shows the kind it is written as if and only if its types are in order. */
  lemma KindMatchesExactly(p: Prop)
    requires TypeByName(p.schema)
    ensures KindMatches(p) <==> InOrder(Types(p.schema))
  {
    var s, name := p.schema, ExportName(p.name);
    KindsAgreeExactly(s, name);
    DeclaredKindIs(Types(s));
    MapsByName(s, name);
    NoNameByName(s, name);
    hide MapType, ExportName, InOrder, EnumUnion, TaggedUnion, BuiltinKind, Types, Base, DeclaredKind, FirstConcrete, IsStringEnum;
  }

  lemma NoNameByName(s: Schema, name: string)
    requires TypeByName(s)
    ensures !MapType(s, name, "").typ.Named? && HopOf(s).None?
    ensures OwnKind(s) == NoKind ==> BuiltinKind(MapType(s, name, "").typ) == NoKind
  {
    DeclaredKindIs(Types(s));
    MapsByName(s, name);
    hide ExportName, EnumUnion, TaggedUnion, MapType, FirstConcrete;
  }

  /** A file of one such definition, its types in order and agreeing, is one EveryValueDecodes speaks of. */
  lemma OneTypeIsWellFormed(oracle: Oracle, name: string, types: seq<JsonType>, format: string)
    requires InOrder(types) && TypesAgree(TypedOnly(types, format))
    ensures WellFormed(oracle, [Prop(name, TypedOnly(types, format))]) && Honest(oracle, [Prop(name, TypedOnly(types, format))])
  {
    var p := Prop(name, TypedOnly(types, format));
    TypedOnlyByName(types, format);
    TypedOnlyRegular(types, format);
    KindMatchesExactly(p);
    NoNameByName(p.schema, ExportName(name));
    AliasAlone(oracle, p);
    hide *;
    OneAlias(oracle, p);
  }

  lemma TypedOnlyByName(types: seq<JsonType>, format: string)
    ensures var s := TypedOnly(types, format);
      TypeByName(s) && Types(s) == types && s.properties == [] && s.items.None? && !s.additional.SchemaExtra?
  {
    assert Concrete(TypedOnly(types, format).anyOf) == [];
  }

  lemma OneAlias(oracle: Oracle, p: Prop)
    requires TypeByName(p.schema) && Regular(p.schema) && KindMatches(p)
    requires !MapType(p.schema, ExportName(p.name), "").typ.Named? && RenderTypes(oracle, [p]).inline == []
    ensures WellFormed(oracle, [p]) && Honest(oracle, [p])
  {
    hide MapType, ExportName, Regular, KindMatches, RenderTypes, EnumUnion, TaggedUnion, IsNamedEnum, Base, RegularUnion, RegularObject, AskedInUnion,
      MayAnswer;
    var defs := [p];
    assert defs[..0] == [];
    assert !IsUnionDef(p.schema);
    assert !Clash(defs) && Taken(defs[..0]) == {};
    hide Clash, Taken;
    assert Apart(oracle, defs);
    assert RegularDef(p.schema);
    assert NoRawBehind(defs);
    assert KindsMatch(defs);
  }

  lemma AliasAlone(oracle: Oracle, p: Prop)
    requires TypeByName(p.schema) && p.schema.properties == [] && p.schema.items.None? && !p.schema.additional.SchemaExtra?
    ensures RenderTypes(oracle, [p]).inline == []
  {
    OneDefinition(oracle, p);
    MapsByName(p.schema, ExportName(p.name));
    var o := RenderDef(oracle, NOTHING, ExportName(p.name), p.schema);
    assert o.inline == [] by {
      hide ExportName, EnumUnion, TaggedUnion, IsNamedEnum, RenderDefs, MapType, Base, Drain;
    }
    hide RenderDef, RenderDefs;
  }
}
