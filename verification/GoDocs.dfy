/** Documentation never reaches the generated declarations: every reader agrees on equal shapes. */
module GoDocs {
  import opened Prelude
  import opened Text
  import opened GoNames
  import opened GoCopies
  import opened GoSchema

  lemma TypesStrip(s: Schema)
    ensures Types(StripDocs(s)) == Types(s)
  {
  }

  /** Stripping twice is stripping once. */
  lemma {:induction false} StripIdempotent(s: Schema)
    ensures StripDocs(StripDocs(s)) == StripDocs(s)
    decreases s
  {
    var t := StripDocs(s);
    forall i | 0 <= i < |s.properties|
      ensures StripDocs(t.properties[i].schema) == t.properties[i].schema
    {
      StripIdempotent(s.properties[i].schema);
    }
    forall i | 0 <= i < |s.definitions|
      ensures StripDocs(t.definitions[i].schema) == t.definitions[i].schema
    {
      StripIdempotent(s.definitions[i].schema);
    }
    if s.items.Some? {
      StripIdempotent(s.items.value);
    }
    forall i | 0 <= i < |s.oneOf|
      ensures StripDocs(t.oneOf[i]) == t.oneOf[i]
    {
      StripIdempotent(s.oneOf[i]);
    }
    forall i | 0 <= i < |s.anyOf|
      ensures StripDocs(t.anyOf[i]) == t.anyOf[i]
    {
      StripIdempotent(s.anyOf[i]);
    }
    forall i | 0 <= i < |s.allOf|
      ensures StripDocs(t.allOf[i]) == t.allOf[i]
    {
      StripIdempotent(s.allOf[i]);
    }
    var u := StripDocs(t);
    assert u.properties == t.properties;
    assert u.definitions == t.definitions;
    assert u.oneOf == t.oneOf && u.anyOf == t.anyOf && u.allOf == t.allOf;
  }

  lemma {:induction false} ConcreteStrip(a: seq<Schema>, b: seq<Schema>)
    requires |a| == |b| && forall i :: 0 <= i < |a| ==> b[i] == StripDocs(a[i])
    ensures |Concrete(b)| == |Concrete(a)|
    ensures forall i :: 0 <= i < |Concrete(a)| ==> Concrete(b)[i] == StripDocs(Concrete(a)[i])
  {
    if a != [] {
      assert b[0] == StripDocs(a[0]);
      ConcreteStrip(a[1..], b[1..]);
    }
  }

  lemma BaseStrip(s: Schema)
    ensures Base(StripDocs(s)) == StripDocs(Base(s))
  {
    StripLevel(s);
    hide StripDocs;
    ConcreteStrip(s.anyOf, StripDocs(s).anyOf);
    assert StripDocs(s).ref == s.ref by {
      StripLevel(s);
    }
  }

  lemma EnumUnionStrip(s: Schema)
    ensures EnumUnion(StripDocs(s)) == EnumUnion(s)
  {
    var t := StripDocs(s);
    StripLevel(s);
    forall i | 0 <= i < |Arms(s)|
      ensures IsEnumArm(Arms(t)[i]) == IsEnumArm(Arms(s)[i])
    {
      assert Arms(t)[i] == StripDocs(Arms(s)[i]);
      TypesStrip(Arms(s)[i]);
    }
  }

  /** Two mappings agree: same type, and the same anonymous object up to documentation. */
  predicate SameMapped(m: Mapped, n: Mapped) {
    && m.typ == n.typ
    && m.found.Some? == n.found.Some?
    && (m.found.Some? ==> m.found.value.name == n.found.value.name && SameShape(m.found.value.schema, n.found.value.schema))
  }

  lemma {:induction false} MapTypeStrip(s: Schema, owner: string, field: string)
    ensures SameMapped(MapType(s, owner, field), MapType(StripDocs(s), owner, field))
    decreases Size(s), 2
  {
    BaseIsNoLarger(s);
    BaseStrip(s);
    MapBaseStrip(Base(s), owner, field);
  }

  lemma {:induction false} MapBaseStrip(b: Schema, owner: string, field: string)
    ensures SameMapped(MapBase(b, owner, field), MapBase(StripDocs(b), owner, field))
    decreases Size(b), 1
  {
    hide MapByType, MapType;
    assert Types(StripDocs(b)) == Types(b);
    assert |StripDocs(b).allOf| == |b.allOf|;
    if b.ref != "" {
    } else if |b.allOf| == 1 {
      assert StripDocs(b).allOf[0] == StripDocs(b.allOf[0]);
      ListSizeBounds(b.allOf, b.allOf[0]);
      MapTypeStrip(b.allOf[0], owner, field);
    } else if b.enum == [] {
      MapByTypeStrip(b, FirstConcrete(Types(b)), owner, field);
    }
  }

  lemma {:induction false} MapByTypeStrip(b: Schema, concrete: Option<JsonType>, owner: string, field: string)
    ensures SameMapped(MapByType(b, concrete, owner, field), MapByType(StripDocs(b), concrete, owner, field))
    decreases Size(b), 0
  {
    hide EnumUnion, MapType, Size, ExportName, Types, Base;
    SizeParts(b);
    EnumUnionStrip(b);
    StripIdempotent(b);
    StripLevel(b);
    StripLevel(b);
    hide StripDocs;
    if concrete == Some(ArrayType) && b.items.Some? {
      MapTypeStrip(b.items.value, owner, field);
    }
  }

  /** Schemas of the same shape map to the same Go type and ask for the same declarations. */
  lemma SameShapeMapsAlike(a: Schema, b: Schema, owner: string, field: string)
    requires SameShape(a, b)
    ensures SameMapped(MapType(a, owner, field), MapType(b, owner, field))
  {
    MapTypeStrip(a, owner, field);
    MapTypeStrip(b, owner, field);
  }

  lemma {:induction false} FirstTagStrip(arms: seq<Schema>, arms': seq<Schema>, c: seq<Prop>, c': seq<Prop>)
    requires |arms| == |arms'| && forall i :: 0 <= i < |arms| ==> arms'[i] == StripDocs(arms[i])
    requires |c| == |c'| && forall i :: 0 <= i < |c| ==> c'[i].name == c[i].name
    ensures FirstTag(arms', c') == FirstTag(arms, c)
  {
    if c != [] {
      forall i | 0 <= i < |arms|
        ensures IsTagIn(arms'[i], c[0].name) <==> IsTagIn(arms[i], c[0].name)
      {
        TagStrip(arms[i], c[0].name);
      }
      FirstTagStrip(arms, arms', c[1..], c'[1..]);
    }
  }

  lemma TagStrip(arm: Schema, name: string)
    ensures IsTagIn(StripDocs(arm), name) <==> IsTagIn(arm, name)
  {
    var t := StripDocs(arm);
    StripLevel(arm);
    if IsTagIn(arm, name) {
      var i :| 0 <= i < |arm.properties| && arm.properties[i].name == name && |arm.properties[i].schema.enum| == 1;
      assert t.properties[i].name == name;
    }
  }

  lemma NullableStrip(s: Schema)
    ensures Nullable(StripDocs(s)) == Nullable(s)
  {
    var t := StripDocs(s);
    StripLevel(s);
    forall i | 0 <= i < |s.anyOf|
      ensures Types(t.anyOf[i]) == Types(s.anyOf[i])
    {
      TypesStrip(s.anyOf[i]);
    }
    if Nullable(s) && NullType !in Types(s) {
      var i :| 0 <= i < |s.anyOf| && NullType in Types(s.anyOf[i]);
      assert NullType in Types(t.anyOf[i]);
    }
  }

  lemma TaggedUnionStrip(s: Schema)
    ensures TaggedUnion(StripDocs(s)) == TaggedUnion(s)
  {
    StripLevel(s);
    if |s.oneOf| >= 2 {
      StripLevel(s.oneOf[0]);
      hide StripDocs;
      FirstTagStrip(s.oneOf, StripDocs(s).oneOf, s.oneOf[0].properties, StripDocs(s).oneOf[0].properties);
    }
  }

  /** Everything renderDef asks of a schema besides its fields. */
  lemma ReadersStrip(s: Schema)
    ensures var t := StripDocs(s);
      && Types(t) == Types(s) && Nullable(t) == Nullable(s) && IsStringEnum(t) == IsStringEnum(s)
      && EnumUnion(t) == EnumUnion(s) && TaggedUnion(t) == TaggedUnion(s)
      && t.enum == s.enum && t.required == s.required && |t.properties| == |s.properties|
  {
    hide Nullable, EnumUnion, TaggedUnion;
    NullableStrip(s);
    EnumUnionStrip(s);
    TaggedUnionStrip(s);
  }
}
