/**
 Every value a definition admits decodes into the declaration written for it: the branches
 of renderDef, one by one, over any meaning of the names on both sides.
 */
module GoSound {
  import opened Json
  import opened Prelude
  import opened Text
  import opened GoNames
  import opened GoSchema
  import opened GoKinds
  import opened GoWiden
  import opened GoRender
  import opened GoFields
  import opened GoDeclared
  import opened GoDecoding
  import opened GoJoins
  import opened GoRuns
  import opened GoStructs

  /** A member goes into the field of its name; what no field is named for is skipped. */
  ghost predicate MemberFits(named: Meaning, f: Field, m: Member) {
    m.key == f.json ==> Decodes(named, f.typ, m.value)
  }

  ghost predicate MembersFit(named: Meaning, fields: seq<Field>, members: seq<Member>) {
    forall i, k :: 0 <= i < |fields| && 0 <= k < |members| ==> MemberFits(named, fields[i], members[k])
  }

  /** encoding/json decodes the value into a variable of the declared type. `under` is what a type defined over a name takes. */
  ghost predicate DeclDecodes(named: Meaning, under: Meaning, d: Decl, v: Value) {
    v.Null? ||
    match d
    case EnumDecl(_, _) => v.Str?
    case StructDecl(_, fields) => v.Obj? && MembersFit(named, fields, v.members)
    case AliasDecl(_, target, transparent) =>
      transparent || if target.Named? then under(target.name, v) else Decodes(named, target, v)
  }

  // Structs.

  /** An object, and nothing in its members is beyond the mapping. */
  ghost predicate RegularObject(s: Schema) {
    && s.ref == "" && Types(s) != [] && (forall t <- Types(s) :: t in [ObjectType, NullType])
    && forall i :: 0 <= i < |s.properties| ==> Regular(s.properties[i].schema)
  }

  lemma RegularObjectAdmits(refs: Meaning, s: Schema, v: Value)
    requires RegularObject(s) && Admits(refs, s, v)
    ensures v.Obj? || v.Null?
  {
  }

  lemma {:induction false} FoundsAt(owner: string, props: seq<Prop>, i: nat)
    requires i < |props| && ExportName(props[i].name) != ""
    ensures forall x <- FoundBy(owner, props[i]) :: x in Founds(owner, props)
    decreases |props|
  {
    hide MapType, ExportName;
    if i > 0 {
      assert props[1..][i - 1] == props[i];
      FoundsAt(owner, props[1..], i - 1);
    }
  }

  /** Which member of the list a field stands for. */
  lemma {:induction false} NameableAt(props: seq<Prop>, i: nat) returns (j: nat)
    requires i < |Nameable(props)|
    ensures j < |props| && props[j] == Nameable(props)[i] && ExportName(props[j].name) != ""
    decreases |props|
  {
    hide ExportName;
    ExportNameEmpty(props[0].name);
    if ExportName(props[0].name) == "" {
      j := NameableAt(props[1..], i);
      j := j + 1;
    } else if i == 0 {
      j := 0;
    } else {
      j := NameableAt(props[1..], i - 1);
      j := j + 1;
    }
  }

  ghost predicate AllFoundDecode(refs: Meaning, named: Meaning, l: seq<Inline>) {
    forall x <- l :: FoundDecodes(refs, named, Some(x))
  }

  /** A member that is admitted decodes into its field. */
  lemma MemberDecodes(refs: Meaning, named: Meaning, owner: string, p: Prop, v: Value)
    requires Regular(p.schema) && Admits(refs, p.schema, v) && RefsDecode(refs, named)
    requires AllFoundDecode(refs, named, FoundBy(owner, p))
    ensures Decodes(named, MapType(p.schema, owner, p.name).typ, v)
  {
    hide Regular, Admits, RefsDecode, MapType, Decodes;
    var found := MapType(p.schema, owner, p.name).found;
    if found.Some? {
      assert found.value in FoundBy(owner, p);
    }
    assert FoundDecodes(refs, named, found);
    hide FoundDecodes;
    AdmittedDecodes(refs, named, p.schema, owner, p.name, v);
  }

  lemma AdmittedProperty(refs: Meaning, s: Schema, v: Value, i: nat, k: nat)
    requires s.ref == "" && Admits(refs, s, v) && v.Obj?
    requires i < |s.properties| && k < |v.members| && v.members[k].key == s.properties[i].name
    ensures Admits(refs, s.properties[i].schema, v.members[k].value)
  {
  }

  /** An object the schema admits decodes into the struct written for it. */
  lemma ObjectDecodes(refs: Meaning, named: Meaning, under: Meaning, name: string, s: Schema, v: Value)
    requires RegularObject(s) && Admits(refs, s, v) && RefsDecode(refs, named)
    requires AllFoundDecode(refs, named, Founds(name, s.properties))
    ensures DeclDecodes(named, under, StructDecl(name, Fields(name, s.properties, s.required, {})), v)
  {
    RegularObjectAdmits(refs, s, v);
    var fields := Fields(name, s.properties, s.required, {});
    hide Fields, Founds, Admits, RegularObject, RefsDecode, AllFoundDecode;
    if v.Obj? {
      forall i, k | 0 <= i < |fields| && 0 <= k < |v.members|
        ensures MemberFits(named, fields[i], v.members[k])
      {
        if v.members[k].key == fields[i].json {
          FieldDecodes(refs, named, name, s, v, i, k);
        }
      }
      hide MemberFits;
      assert MembersFit(named, fields, v.members);
    }
  }

  lemma FieldDecodes(refs: Meaning, named: Meaning, name: string, s: Schema, v: Value, i: nat, k: nat)
    requires RegularObject(s) && Admits(refs, s, v) && RefsDecode(refs, named) && v.Obj?
    requires AllFoundDecode(refs, named, Founds(name, s.properties))
    requires i < |Fields(name, s.properties, s.required, {})| && k < |v.members|
    requires v.members[k].key == Fields(name, s.properties, s.required, {})[i].json
    ensures Decodes(named, Fields(name, s.properties, s.required, {})[i].typ, v.members[k].value)
  {
    hide Admits, Regular, RefsDecode, Fields, Nameable, Founds, MapType, FoundDecodes, ExportName;
    FieldsStand(name, s.properties, s.required, {});
    var f, p := Fields(name, s.properties, s.required, {})[i], Nameable(s.properties)[i];
    assert StandsFor(f, name, p, s.required);
    var j := NameableAt(s.properties, i);
    FoundsAt(name, s.properties, j);
    AdmittedProperty(refs, s, v, j, k);
    MemberDecodes(refs, named, name, p, v.members[k].value);
  }

  // Flattened unions.

  lemma JoinTwo(kinds: Answers, named: Meaning, a: GoType, b: GoType, v: Value)
    requires (a != b ==> KindsHold(kinds, named, [a, b])) && FitsInt64(v) && (Decodes(named, a, v) || Decodes(named, b, v))
    ensures Decodes(named, Join(kinds, a, b), v)
  {
    if a != b {
      var types := [a, b];
      assert types[..1] == [a] && [a][..0] == [];
      assert JoinAll(kinds, [a]) == a;
      assert JoinAll(kinds, types) == Join(kinds, a, b);
      assert a == types[0] && b == types[1];
      hide Join, JoinAll, KindsHold, AllEqual, AllOfKind, FitsInt64;
      JoinDecodes(kinds, named, types, if Decodes(named, a, v) then a else b, v);
    }
  }

  /** Whatever jsonKind may answer for a type is so of every value of the type. */
  ghost predicate KindsSound(defs: seq<Prop>, named: Meaning) {
    forall t, k, v: Value :: MayAnswer(defs, t, k) && Decodes(named, t, v) && !v.Null? ==> OfKind(k, v)
  }

  lemma AskedHold(defs: seq<Prop>, draws: Draws, named: Meaning, owner: string, tag: string, props: seq<Prop>, n: nat)
    requires KindsSound(defs, named) && HonestUnion(defs, draws, owner, tag, props) && n < |props|
    ensures var f, p := AddProps(draws, owner, tag, props[..n]), props[n];
      var t := MapType(p.schema, owner, p.name).typ;
      p.name != tag && p.name in f.types && f.types[p.name] != t ==> KindsHold(draws(n), named, [f.types[p.name], t])
  {
    hide MapType, Decodes, AddProps, KindOf, MayAnswer;
    var f, p := AddProps(draws, owner, tag, props[..n]), props[n];
    var t := MapType(p.schema, owner, p.name).typ;
    if p.name != tag && p.name in f.types && f.types[p.name] != t {
      assert AskedInUnion(draws, owner, tag, props, n, t);
      assert AskedInUnion(draws, owner, tag, props, n, f.types[p.name]);
    }
  }

  /** What decodes into the type some arm gives a field decodes into the type the field ends with. */
  lemma {:induction false} FlatDecodes(
      defs: seq<Prop>, draws: Draws, named: Meaning, owner: string, tag: string, props: seq<Prop>, q: Prop, w: Value, m: nat)
    requires KindsSound(defs, named) && HonestUnion(defs, draws, owner, tag, props) && FitsInt64(w) && m <= |props|
    requires q in props[..m] && q.name != tag && Decodes(named, MapType(q.schema, owner, q.name).typ, w)
    ensures var f := AddProps(draws, owner, tag, props[..m]); q.name in f.types && Decodes(named, f.types[q.name], w)
    decreases m
  {
    hide MapType, Join, Decodes, FoundBy, Texts, KindsHold, FitsInt64, KindsSound, HonestUnion;
    var n := m - 1;
    var before, last := props[..n], props[n];
    assert props[..m][..n] == before && props[..m] == before + [last];
    var f := AddProps(draws, owner, tag, before);
    if q in before {
      FlatDecodes(defs, draws, named, owner, tag, props, q, w, n);
    }
    if last.name == q.name && q.name in f.types {
      AskedHold(defs, draws, named, owner, tag, props, n);
      JoinTwo(draws(n), named, f.types[q.name], MapType(last.schema, owner, q.name).typ, w);
    }
  }

  /** An arm of a tagged union: an object that refuses undeclared members, its tag a listed string. */
  ghost predicate RegularArm(arm: Schema, tag: string) {
    && RegularObject(arm) && arm.additional == BoolExtra(false)
    && forall i :: 0 <= i < |arm.properties| && arm.properties[i].name == tag ==>
         arm.properties[i].schema.ref == "" && arm.properties[i].schema.enum != [] && ListsText(arm.properties[i].schema.enum)
  }

  ghost predicate RegularUnion(s: Schema, tag: string) {
    s.ref == "" && s.oneOf != [] && forall i :: 0 <= i < |s.oneOf| ==> RegularArm(s.oneOf[i], tag)
  }

  /** No integer in the members is too large for int64. */
  predicate SmallMembers(v: Value) {
    v.Obj? ==> forall k :: 0 <= k < |v.members| ==> FitsInt64(v.members[k].value)
  }

  /** Every member of an admitted object is a declared one. */
  lemma MemberDeclared(refs: Meaning, arm: Schema, tag: string, v: Value, k: nat) returns (i: nat)
    requires RegularArm(arm, tag) && Admits(refs, arm, v) && v.Obj? && k < |v.members|
    ensures i < |arm.properties| && arm.properties[i].name == v.members[k].key
    ensures Regular(arm.properties[i].schema) && Admits(refs, arm.properties[i].schema, v.members[k].value)
  {
    assert HasProperty(arm.properties, v.members[k].key);
    i :| 0 <= i < |arm.properties| && arm.properties[i].name == v.members[k].key;
    AdmittedProperty(refs, arm, v, i, k);
  }

  lemma TagIsText(refs: Meaning, arm: Schema, tag: string, i: nat, w: Value)
    requires RegularArm(arm, tag) && i < |arm.properties| && arm.properties[i].name == tag
    requires Admits(refs, arm.properties[i].schema, w)
    ensures w.Str? || w.Null?
  {
    assert w in arm.properties[i].schema.enum;
  }

  lemma {:induction false} FoundInFlat(draws: Draws, owner: string, tag: string, props: seq<Prop>, q: Prop)
    requires q in props && q.name != tag
    ensures forall x <- FoundBy(owner, q) :: x in AddProps(draws, owner, tag, props).found
    decreases |props|
  {
    hide MapType, FoundBy, Join, Texts;
    var before := props[..|props| - 1];
    assert props == before + [props[|props| - 1]];
    if q in before {
      FoundInFlat(draws, owner, tag, before, q);
    }
  }

  lemma {:induction false} TagNotListed(draws: Draws, owner: string, tag: string, props: seq<Prop>)
    ensures tag !in AddProps(draws, owner, tag, props).types
    decreases |props|
  {
    hide MapType, FoundBy, Join, Texts;
    if props != [] {
      TagNotListed(draws, owner, tag, props[..|props| - 1]);
    }
  }

  lemma UnionFieldFits(
      defs: seq<Prop>, refs: Meaning, named: Meaning, draws: Draws, name: string, s: Schema, tag: string, a: nat, q: Prop, w: Value)
    requires a < |s.oneOf| && q in s.oneOf[a].properties && q.name in Flatten(draws, name, tag, s.oneOf).types
    requires Regular(q.schema) && Admits(refs, q.schema, w) && FitsInt64(w)
    requires RefsDecode(refs, named) && KindsSound(defs, named) && HonestUnion(defs, draws, name, tag, ArmProps(s.oneOf))
    requires AllFoundDecode(refs, named, Flatten(draws, name, tag, s.oneOf).found)
    ensures Decodes(named, Flatten(draws, name, tag, s.oneOf).types[q.name], w)
  {
    hide Regular, Admits, RefsDecode, KindsSound, HonestUnion, FoundDecodes, AddProps, ArmProps, FoundBy, Decodes, FitsInt64, MapType;
    var props := ArmProps(s.oneOf);
    TagNotListed(draws, name, tag, props);
    ArmPropsMember(s.oneOf, q);
    assert q in props;
    FoundInFlat(draws, name, tag, props, q);
    MemberDecodes(refs, named, name, q, w);
    assert props[..|props|] == props;
    FlatDecodes(defs, draws, named, name, tag, props, q, w, |props|);
  }

  /** One member of a value one arm admits, in the struct of the union. */
  lemma UnionMemberFits(
      defs: seq<Prop>, refs: Meaning, named: Meaning, draws: Draws, name: string, s: Schema, tag: string, a: nat, v: Value, i: nat, k: nat)
    requires RegularUnion(s, tag) && a < |s.oneOf| && Admits(refs, s.oneOf[a], v) && v.Obj? && SmallMembers(v)
    requires RefsDecode(refs, named) && KindsSound(defs, named) && HonestUnion(defs, draws, name, tag, ArmProps(s.oneOf))
    requires AllFoundDecode(refs, named, Flatten(draws, name, tag, s.oneOf).found)
    requires forall w: Value :: w.Str? ==> named(name + "Type", w)
    requires EmitUnion(draws, NOTHING, name, s, tag).decls != []
    requires UnionStruct(EmitUnion(draws, NOTHING, name, s, tag).decls[0], name, tag, Flatten(draws, name, tag, s.oneOf))
    requires i < |EmitUnion(draws, NOTHING, name, s, tag).decls[0].fields| && k < |v.members|
    ensures MemberFits(named, EmitUnion(draws, NOTHING, name, s, tag).decls[0].fields[i], v.members[k])
  {
    hide EmitUnion, Admits, RegularObject, RefsDecode, AllFoundDecode, KindsSound, HonestUnion, Decodes, Flatten, TagType;
    var f, arm, m := Flatten(draws, name, tag, s.oneOf), s.oneOf[a], v.members[k];
    var d := EmitUnion(draws, NOTHING, name, s, tag).decls[0];
    if m.key == d.fields[i].json {
      assert RegularArm(arm, tag);
      var j := MemberDeclared(refs, arm, tag, v, k);
      var q := arm.properties[j];
      if i == 0 {
        TagIsText(refs, arm, tag, j, m.value);
        TextDecodes(named, name, m.value);
      } else {
        hide RegularArm, RegularUnion;
        assert f.order[i - 1] in f.order;
        assert StandsInUnion(d.fields[i], f.order[i - 1], f.types[f.order[i - 1]]);
        UnionFieldFits(defs, refs, named, draws, name, s, tag, a, q, m.value);
      }
    }
  }

  lemma TextDecodes(named: Meaning, name: string, w: Value)
    requires forall x: Value :: x.Str? ==> named(name + "Type", x)
    requires w.Str? || w.Null?
    ensures Decodes(named, Named(name + "Type"), w)
  {
  }

  /** A value the union admits decodes into its struct, whichever arm it is of. */
  lemma UnionDecodes(
      defs: seq<Prop>, refs: Meaning, named: Meaning, under: Meaning, draws: Draws, name: string, s: Schema, tag: string, v: Value)
    requires RegularUnion(s, tag) && Admits(refs, s, v) && SmallMembers(v)
    requires RefsDecode(refs, named) && KindsSound(defs, named) && HonestUnion(defs, draws, name, tag, ArmProps(s.oneOf))
    requires AllFoundDecode(refs, named, Flatten(draws, name, tag, s.oneOf).found)
    requires forall w: Value :: w.Str? ==> named(name + "Type", w)
    ensures EmitUnion(draws, NOTHING, name, s, tag).decls != []
    ensures DeclDecodes(named, under, EmitUnion(draws, NOTHING, name, s, tag).decls[0], v)
  {
    UnionWritten(draws, name, s, tag);
    var a :| 0 <= a < |s.oneOf| && Admits(refs, s.oneOf[a], v);
    assert RegularArm(s.oneOf[a], tag);
    assert RegularObject(s.oneOf[a]);
    RegularObjectAdmits(refs, s.oneOf[a], v);
    hide Admits, RegularObject, RegularUnion, RegularArm, RefsDecode, AllFoundDecode, KindsSound, HonestUnion, EmitUnion,
      Flatten, TagType, SmallMembers;
    var d := EmitUnion(draws, NOTHING, name, s, tag).decls[0];
    if v.Obj? {
      forall i, k | 0 <= i < |d.fields| && 0 <= k < |v.members|
        ensures MemberFits(named, d.fields[i], v.members[k])
      {
        UnionMemberFits(defs, refs, named, draws, name, s, tag, a, v, i, k);
      }
      hide MemberFits, UnionStruct;
      assert MembersFit(named, d.fields, v.members);
    }
  }

  // Definitions.

  /** A definition nothing in which is beyond the mapping: an enum of strings, a union of objects, an object, or a regular type. */
  ghost predicate RegularDef(s: Schema) {
    if IsNamedEnum(s) then s.ref == "" && ListsText(s.enum)
    else if EnumUnion(s) then s.ref == "" && forall i :: 0 <= i < |Arms(s)| ==> Arms(s)[i].ref == "" && ListsText(Arms(s)[i].enum)
    else if TaggedUnion(s).Some? then RegularUnion(s, TaggedUnion(s).value)
    else if s.properties != [] then RegularObject(s)
    else Regular(s)
  }

  /** Definitions renderDef turns into an alias. */
  predicate IsAliasDef(s: Schema) {
    !IsNamedEnum(s) && !EnumUnion(s) && TaggedUnion(s).None? && s.properties == []
  }

  /** The answers for the union a definition becomes are ones jsonKind may give. */
  ghost predicate HonestDef(defs: seq<Prop>, oracle: Oracle, p: Prop)
    requires IsUnionDef(p.schema)
  {
    var name, s := ExportName(p.name), p.schema;
    HonestUnion(defs, oracle(name), name, TaggedUnion(s).value, ArmProps(s.oneOf))
  }

  /** The anonymous objects a definition asks for by itself. */
  ghost function OwnInline(oracle: Oracle, p: Prop): seq<Inline> {
    RenderDef(oracle, NOTHING, ExportName(p.name), p.schema).inline
  }

  lemma NamedEnumAdmits(refs: Meaning, s: Schema, v: Value)
    requires IsNamedEnum(s) && s.ref == "" && ListsText(s.enum) && Admits(refs, s, v)
    ensures v.Str? || v.Null?
  {
    assert v in s.enum;
  }

  lemma EnumUnionAdmits(refs: Meaning, s: Schema, v: Value)
    requires EnumUnion(s) && s.ref == "" && Admits(refs, s, v)
    requires forall i :: 0 <= i < |Arms(s)| ==> Arms(s)[i].ref == "" && ListsText(Arms(s)[i].enum)
    ensures v.Str? || v.Null?
  {
    var i :| 0 <= i < |Arms(s)| && Admits(refs, Arms(s)[i], v);
    assert IsEnumArm(Arms(s)[i]);
    assert v in Arms(s)[i].enum;
  }

  /** What an alias takes: raw JSON as it is, a type of its own as the type behind it. */
  lemma AliasDecodes(refs: Meaning, named: Meaning, under: Meaning, name: string, s: Schema, v: Value)
    requires Regular(s) && Admits(refs, s, v)
    requires RefsDecode(refs, named) && RefsDecode(refs, under)
    requires FoundDecodes(refs, named, MapType(s, name, "").found) && FoundDecodes(refs, under, MapType(s, name, "").found)
    ensures var m := MapType(s, name, "");
      DeclDecodes(named, under, AliasDecl(name, m.typ, m.typ == RawJson), v)
  {
    hide Regular, Admits, RefsDecode, FoundDecodes, MapType;
    AdmittedDecodes(refs, named, s, name, "", v);
    AdmittedDecodes(refs, under, s, name, "", v);
  }

  /**
   Every value a regular definition admits decodes into the declaration written for it, if
   what it refers to and the objects it asks for do, and jsonKind answered what is so.
   */
  lemma DefinitionDecodes(
      defs: seq<Prop>, refs: Meaning, named: Meaning, under: Meaning, oracle: Oracle, p: Prop, v: Value)
    requires RegularDef(p.schema) && Admits(refs, p.schema, v)
    requires IsUnionDef(p.schema) ==> SmallMembers(v)
    requires RefsDecode(refs, named) && AllFoundDecode(refs, named, OwnInline(oracle, p))
    requires IsAliasDef(p.schema) ==> RefsDecode(refs, under) && AllFoundDecode(refs, under, OwnInline(oracle, p))
    requires IsUnionDef(p.schema) ==> KindsSound(defs, named) && HonestDef(defs, oracle, p)
    requires IsUnionDef(p.schema) ==> forall w: Value :: w.Str? ==> named(ExportName(p.name) + "Type", w)
    ensures OwnDecls(oracle, p) != []
    ensures DeclDecodes(named, under, OwnDecls(oracle, p)[0], v)
  {
    var name, s := ExportName(p.name), p.schema;
    DefFromNothing(oracle, NOTHING, p);
    hide ExportName, Admits, Regular, RegularUnion, RegularObject, RefsDecode, EmitUnion, EmitStruct, FoundDecodes, KindsSound, HonestUnion,
      MapType, Dedup, Texts, ArmTexts, EnumUnion, TaggedUnion, IsStringEnum, SmallMembers, ListsText;
    if IsNamedEnum(s) {
      NamedEnumAdmits(refs, s, v);
    } else if EnumUnion(s) {
      EnumUnionAdmits(refs, s, v);
    } else if TaggedUnion(s).Some? {
      OwnUnion(oracle(name), name, s, TaggedUnion(s).value);
      UnionDecodes(defs, refs, named, under, oracle(name), name, s, TaggedUnion(s).value, v);
    } else if s.properties != [] {
      OwnObject(name, s);
      ObjectDecodes(refs, named, under, name, s, v);
    } else {
      var m := MapType(s, name, "");
      assert m.found.Some? ==> m.found.value in OwnInline(oracle, p);
      AliasDecodes(refs, named, under, name, s, v);
    }
  }

  lemma OwnUnion(draws: Draws, name: string, s: Schema, tag: string)
    ensures EmitUnion(draws, NOTHING, name, s, tag).inline == Flatten(draws, name, tag, s.oneOf).found
  {
    UnionWritten(draws, name, s, tag);
  }

  lemma OwnObject(name: string, s: Schema)
    ensures var t := EmitStruct(NOTHING, name, s);
      t.decls == [StructDecl(name, Fields(name, s.properties, s.required, {}))] && t.inline == Founds(name, s.properties)
  {
    hide Fields, Founds;
    assert [] + Founds(name, s.properties) == Founds(name, s.properties);
  }
}
