/** The structs and enums a schema becomes: every member and every value has its place, and absence stays absence. */
module GoStructs {
  import opened Json
  import opened Prelude
  import opened Text
  import opened GoNames
  import opened GoSchema
  import opened GoKinds
  import opened GoWiden
  import opened GoRender
  import opened GoDecoding
  import opened StringOrder

  // Struct fields.

  /** The members a Go field can be named for, in order. */
  function Nameable(props: seq<Prop>): seq<Prop>
    decreases |props|
  {
    if props == [] then []
    else if forall i :: 0 <= i < |props[0].name| ==> !IsAlphanumeric(props[0].name[i]) then Nameable(props[1..])
    else [props[0]] + Nameable(props[1..])
  }

  predicate AdmitsNull(s: Schema) {
    NullType in Types(s) || exists arm <- s.anyOf :: NullType in Types(arm)
  }

  /** The field that stands for a member: its own name on the wire, and omitted where it may be absent or null. */
  predicate StandsFor(f: Field, owner: string, p: Prop, required: seq<string>) {
    && f.json == p.name
    && f.typ == MapType(p.schema, owner, p.name).typ
    && (f.goName == ExportName(p.name) || f.goName == ExportName(p.name) + "_")
    && (f.omitempty <==> p.name !in required || AdmitsNull(p.schema))
    && (f.pointer <==> f.omitempty && !f.typ.Slice? && !f.typ.MapOf? && f.typ != RawJson)
  }

  lemma NullableIs(s: Schema)
    ensures Nullable(s) <==> AdmitsNull(s)
  {
    hide Types;
    if exists arm <- s.anyOf :: NullType in Types(arm) {
      var arm :| arm in s.anyOf && NullType in Types(arm);
      var i :| 0 <= i < |s.anyOf| && s.anyOf[i] == arm;
      assert NullType in Types(s.anyOf[i]);
    }
  }

  /** A struct has one field for each of its members, in order, and no others. */
  lemma {:induction false} FieldsStand(owner: string, props: seq<Prop>, required: seq<string>, used: set<string>)
    ensures var fields, members := Fields(owner, props, required, used), Nameable(props);
      |fields| == |members| && forall i :: 0 <= i < |fields| ==> StandsFor(fields[i], owner, members[i], required)
    decreases |props|
  {
    hide ExportName, MapType, Nullable, AdmitsNull;
    if props != [] {
      var p := props[0];
      ExportNameEmpty(p.name);
      NullableIs(p.schema);
      if ExportName(p.name) == "" {
        FieldsStand(owner, props[1..], required, used);
      } else {
        var f := MakeField(owner, p, required, used);
        FieldsStand(owner, props[1..], required, used + {f.goName});
        assert StandsFor(f, owner, p, required);
      }
    }
  }

  // Presence.

  /** Go leaves such a value out under omitempty. */
  predicate IsZero(v: Value) {
    v in [Null, Bool(false), Whole(0), Fraction(0.0), Str(""), Arr([]), Obj([])]
  }

  /**
   Whether encoding a decoded struct writes the member again: always without omitempty, for
   a pointer if it is not nil, raw JSON if there is any, and anything else if it is not zero.
   */
  predicate WrittenBack(f: Field, member: Option<Value>) {
    if !f.omitempty then true
    else if member.None? then false
    else if f.pointer then !member.value.Null?
    else if f.typ == RawJson then true
    else !IsZero(member.value)
  }

  predicate IsEmptyList(typ: GoType, v: Value) {
    (typ.Slice? && v == Arr([])) || (typ.MapOf? && v == Obj([]))
  }

  /**
   A member that may be absent is written back if and only if it was there and not null, an
   empty list or map aside; a zero that was there never reads as absent. A required one is
   always written back.
   */
  lemma PresenceKept(named: Meaning, f: Field, owner: string, p: Prop, required: seq<string>, v: Value)
    requires StandsFor(f, owner, p, required) && Decodes(named, f.typ, v)
    ensures p.name in required && !AdmitsNull(p.schema) ==> WrittenBack(f, None) && WrittenBack(f, Some(v))
    ensures p.name !in required || AdmitsNull(p.schema) ==>
      && !WrittenBack(f, None)
      && (WrittenBack(f, Some(v)) <==> f.typ == RawJson || (!v.Null? && !IsEmptyList(f.typ, v)))
  {
    hide MapType, AdmitsNull, ExportName, StandsFor;
    if f.typ.Slice? || f.typ.MapOf? {
      ListZero(named, f.typ, v);
    }
    assert f.pointer <==> f.omitempty && !f.typ.Slice? && !f.typ.MapOf? && f.typ != RawJson by {
      PointerIs(f, owner, p, required);
    }
    assert f.omitempty <==> p.name !in required || AdmitsNull(p.schema) by {
      PointerIs(f, owner, p, required);
    }
    hide Decodes, IsZero, IsEmptyList;
  }

  lemma PointerIs(f: Field, owner: string, p: Prop, required: seq<string>)
    requires StandsFor(f, owner, p, required)
    ensures f.omitempty <==> p.name !in required || AdmitsNull(p.schema)
    ensures f.pointer <==> f.omitempty && !f.typ.Slice? && !f.typ.MapOf? && f.typ != RawJson
  {
    hide MapType, AdmitsNull, ExportName;
  }

  /** The zeros of a list or a map are null and the empty one. */
  lemma ListZero(named: Meaning, typ: GoType, v: Value)
    requires Decodes(named, typ, v) && (typ.Slice? || typ.MapOf?)
    ensures IsZero(v) <==> v.Null? || IsEmptyList(typ, v)
  {
  }

  // Flattened unions.

  /** The fields of a flattened union: the tag, always there, then each field of the arms, absent from some. */
  lemma {:induction false} UnionFieldsStand(order: seq<string>, types: map<string, GoType>, used: set<string>)
    requires forall p <- order :: p in types
    ensures var fields := UnionFields(order, types, used);
      |fields| == |order| && forall i :: 0 <= i < |fields| ==>
        var f := fields[i];
        && f.json == order[i] && f.typ == types[order[i]] && f.omitempty
        && (f.goName == ExportName(order[i]) || f.goName == ExportName(order[i]) + "_")
        && (f.pointer <==> !f.typ.Slice? && !f.typ.MapOf? && f.typ != RawJson)
    decreases |order|
  {
    hide ExportName;
    if order != [] {
      UnionFieldsStand(order[1..], types, used + {Unclash(ExportName(order[0]), used)});
    }
  }

  /** A field of a flattened union: absent from some arms, so a pointer wherever a zero could be taken for one. */
  predicate StandsInUnion(f: Field, json: string, typ: GoType) {
    && f.json == json && f.typ == typ && f.omitempty
    && (f.pointer <==> !typ.Slice? && !typ.MapOf? && typ != RawJson)
  }

  /** The struct of a union: the tag, always there, then the fields of all arms. */
  ghost predicate UnionStruct(d: Decl, name: string, tag: string, f: Flat) {
    && d.StructDecl? && d.name == name && |d.fields| == |f.order| + 1
    && d.fields[0].json == tag && d.fields[0].typ == Named(name + "Type") && !d.fields[0].omitempty && !d.fields[0].pointer
    && (forall p <- f.order :: p in f.types)
    && forall i :: 0 <= i < |f.order| ==> StandsInUnion(d.fields[i + 1], f.order[i], f.types[f.order[i]])
  }

  /** The type of its tag, with every value once and in order. */
  ghost predicate TagType(d: Decl, name: string, f: Flat) {
    && d.EnumDecl? && d.name == name + "Type" && Ascending(d.values)
    && forall x :: x in d.values <==> x in f.values
  }

  /** A union is written as that struct and that type. */
  lemma UnionWritten(draws: Draws, name: string, s: Schema, tag: string)
    ensures var f, t := Flatten(draws, name, tag, s.oneOf), EmitUnion(draws, NOTHING, name, s, tag);
      |t.decls| == 2 && UnionStruct(t.decls[0], name, tag, f) && TagType(t.decls[1], name, f) && t.inline == f.found
  {
    var f := Flatten(draws, name, tag, s.oneOf);
    EmitUnionIs(draws, name, s, tag);
    UnionStructWritten(name, tag, f);
    TagTypeWritten(name, f);
    hide Flatten, ExportName, UnionStruct, TagType, UnionFields, TagField, EmitUnion, Listed;
  }

  lemma TagTypeWritten(name: string, f: Flat)
    ensures TagType(EnumDecl(name + "Type", Sorted(set v | v in f.values)), name, f)
  {
  }

  lemma EmitUnionIs(draws: Draws, name: string, s: Schema, tag: string)
    ensures var f, t := Flatten(draws, name, tag, s.oneOf), EmitUnion(draws, NOTHING, name, s, tag);
      && Listed(f) && |t.decls| == 2 && t.inline == f.found
      && t.decls[0] == StructDecl(name, [TagField(name, tag)] + UnionFields(f.order, f.types, {ExportName(tag)}))
      && t.decls[1] == EnumDecl(name + "Type", Sorted(set v | v in f.values))
  {
    hide ExportName, AddProps, ArmProps, UnionFields, TagField;
    FlatListed(draws, name, tag, ArmProps(s.oneOf));
    var f := Flatten(draws, name, tag, s.oneOf);
    assert [] + f.found == f.found;
  }

  lemma TagFieldIs(name: string, tag: string)
    ensures var f := TagField(name, tag);
      f.json == tag && f.typ == Named(name + "Type") && !f.omitempty && !f.pointer
  {
    hide ExportName;
  }

  lemma UnionStructWritten(name: string, tag: string, f: Flat)
    requires forall p <- f.order :: p in f.types
    ensures UnionStruct(StructDecl(name, [TagField(name, tag)] + UnionFields(f.order, f.types, {ExportName(tag)})), name, tag, f)
  {
    hide ExportName, UnionFields, StandsInUnion, TagField;
    UnionFieldsStandIn(f, {ExportName(tag)});
    TagFieldIs(name, tag);
    PutFirst(TagField(name, tag), UnionFields(f.order, f.types, {ExportName(tag)}));
  }

  lemma PutFirst(f: Field, rest: seq<Field>)
    ensures |[f] + rest| == |rest| + 1 && ([f] + rest)[0] == f
    ensures forall i :: 0 <= i < |rest| ==> ([f] + rest)[i + 1] == rest[i]
  {
  }

  lemma UnionFieldsStandIn(f: Flat, used: set<string>)
    requires forall p <- f.order :: p in f.types
    ensures var fields := UnionFields(f.order, f.types, used);
      |fields| == |f.order| && forall i :: 0 <= i < |fields| ==> StandsInUnion(fields[i], f.order[i], f.types[f.order[i]])
  {
    UnionFieldsStand(f.order, f.types, used);
    hide UnionFields, ExportName;
  }

  // Enums.

  lemma {:induction false} TextsAre(values: seq<Value>)
    ensures forall x :: x in Texts(values) <==> Str(x) in values
    decreases |values|
  {
    if values != [] {
      TextsAre(values[1..]);
      assert values == [values[0]] + values[1..];
    }
  }

  lemma {:induction false} DedupIs(values: seq<string>, seen: set<string>)
    ensures forall x :: x in Dedup(values, seen) <==> x in values && x !in seen
    ensures NoDuplicates(Dedup(values, seen))
    decreases |values|
  {
    if values != [] {
      var rest := if values[0] in seen then seen else seen + {values[0]};
      DedupIs(values[1..], rest);
      assert values == [values[0]] + values[1..];
    }
  }

  lemma {:induction false} ArmTextsAre(arms: seq<Schema>)
    ensures forall x :: x in ArmTexts(arms) <==> exists a <- arms :: Str(x) in a.enum
    decreases |arms|
  {
    if arms != [] {
      ArmTextsAre(arms[1..]);
      TextsAre(arms[0].enum);
      assert arms == [arms[0]] + arms[1..];
      assert forall a :: a in arms <==> a == arms[0] || a in arms[1..];
      hide Texts;
    }
  }

  /** A documented enum lists the strings of its arms, each once. */
  lemma EnumListsArms(s: Schema)
    ensures var values := Dedup(ArmTexts(Arms(s)), {});
      && NoDuplicates(values)
      && forall x :: x in values <==> exists a <- Arms(s) :: Str(x) in a.enum
  {
    DedupIs(ArmTexts(Arms(s)), {});
    ArmTextsAre(Arms(s));
    hide Dedup, ArmTexts, Arms;
  }

  /** The values collected for the tag are those of the tag's property in every arm. */
  lemma {:induction false} TagValues(draws: Draws, owner: string, tag: string, props: seq<Prop>, x: string)
    ensures x in AddProps(draws, owner, tag, props).values <==>
      exists p <- props :: p.name == tag && Str(x) in p.schema.enum
    decreases |props|
  {
    hide MapType, FoundBy, Join, Texts;
    if props != [] {
      var before, last := props[..|props| - 1], props[|props| - 1];
      TagValues(draws, owner, tag, before, x);
      TextsAre(last.schema.enum);
      assert props == before + [last];
      assert forall p :: p in props <==> p in before || p == last;
    }
  }
}
