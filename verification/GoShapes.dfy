/** Definitions of equal shapes render to equal declarations: documentation changes nothing. */
module GoShapes {
  import opened Prelude
  import opened Text
  import opened GoNames
  import opened GoSchema
  import opened GoCopies
  import opened GoDocs
  import opened GoKinds
  import opened GoWiden
  import opened GoRender

  ghost predicate SameInlines(a: seq<Inline>, b: seq<Inline>) {
    |a| == |b| && forall i :: 0 <= i < |a| ==> a[i].name == b[i].name && SameShape(a[i].schema, b[i].schema)
  }

  lemma SameInlinesAppend(a: seq<Inline>, a': seq<Inline>, b: seq<Inline>, b': seq<Inline>)
    requires SameInlines(a, a') && SameInlines(b, b')
    ensures SameInlines(a + b, a' + b')
  {
    hide SameShape;
  }

  lemma PartsOfSameShape(s: Schema, t: Schema)
    requires SameShape(s, t)
    ensures SameShapes(s.properties, t.properties) && s.required == t.required && s.enum == t.enum
    ensures Nullable(s) == Nullable(t) && IsStringEnum(s) == IsStringEnum(t)
    ensures EnumUnion(s) == EnumUnion(t) && TaggedUnion(s) == TaggedUnion(t)
  {
    ReadersStrip(s);
    ReadersStrip(t);
    StripLevel(s);
    StripLevel(t);
    hide StripDocs, Nullable, IsStringEnum, EnumUnion, TaggedUnion;
    forall i | 0 <= i < |s.properties|
      ensures s.properties[i].name == t.properties[i].name && SameShape(s.properties[i].schema, t.properties[i].schema)
    {
      assert StripDocs(s).properties[i] == StripDocs(t).properties[i];
    }
  }

  lemma ArmsOfSameShape(s: Schema, t: Schema)
    requires SameShape(s, t)
    ensures |s.oneOf| == |t.oneOf| && forall i :: 0 <= i < |s.oneOf| ==> SameShape(s.oneOf[i], t.oneOf[i])
    ensures |Arms(s)| == |Arms(t)| && forall i :: 0 <= i < |Arms(s)| ==> SameShape(Arms(s)[i], Arms(t)[i])
  {
    StripLevel(s);
    StripLevel(t);
    hide StripDocs;
    forall i | 0 <= i < |s.oneOf|
      ensures SameShape(s.oneOf[i], t.oneOf[i])
    {
      assert StripDocs(s).oneOf[i] == StripDocs(t).oneOf[i];
    }
    forall i | 0 <= i < |s.anyOf|
      ensures SameShape(s.anyOf[i], t.anyOf[i])
    {
      assert StripDocs(s).anyOf[i] == StripDocs(t).anyOf[i];
    }
  }

  lemma PropAlike(owner: string, p: Prop, q: Prop, required: seq<string>, used: set<string>)
    requires p.name == q.name && SameShape(p.schema, q.schema)
    ensures MakeField(owner, p, required, used) == MakeField(owner, q, required, used)
    ensures MapType(p.schema, owner, p.name).typ == MapType(q.schema, owner, q.name).typ
    ensures SameInlines(FoundBy(owner, p), FoundBy(owner, q))
    ensures p.schema.enum == q.schema.enum
  {
    hide MapType, Nullable, SameShape, ExportName, SameShapes, IsStringEnum, EnumUnion, TaggedUnion;
    PartsOfSameShape(p.schema, q.schema);
    SameShapeMapsAlike(p.schema, q.schema, owner, p.name);
  }

  lemma {:induction false} FieldsAlike(owner: string, a: seq<Prop>, b: seq<Prop>, required: seq<string>, used: set<string>)
    requires SameShapes(a, b)
    ensures Fields(owner, a, required, used) == Fields(owner, b, required, used)
    ensures SameInlines(Founds(owner, a), Founds(owner, b))
    decreases |a|
  {
    hide SameShape, MakeField, FoundBy, ExportName;
    if a != [] {
      PropAlike(owner, a[0], b[0], required, used);
      if ExportName(a[0].name) == "" {
        FieldsAlike(owner, a[1..], b[1..], required, used);
        SameInlinesAppend([], [], Founds(owner, a[1..]), Founds(owner, b[1..]));
      } else {
        FieldsAlike(owner, a[1..], b[1..], required, used + {MakeField(owner, a[0], required, used).goName});
        SameInlinesAppend(FoundBy(owner, a[0]), FoundBy(owner, b[0]), Founds(owner, a[1..]), Founds(owner, b[1..]));
      }
    }
  }

  ghost predicate SameOut(o: Out, p: Out) {
    o.decls == p.decls && o.emitted == p.emitted && SameInlines(o.inline, p.inline)
  }

  lemma EmitStructAlike(o: Out, p: Out, name: string, s: Schema, t: Schema)
    requires SameOut(o, p) && SameShape(s, t)
    ensures SameOut(EmitStruct(o, name, s), EmitStruct(p, name, t))
  {
    PartsOfSameShape(s, t);
    FieldsAlike(name, s.properties, t.properties, s.required, {});
    hide Fields, Founds, SameShape, SameInlines, SameShapes;
    SameInlinesAppendIf(name !in o.emitted, o.inline, p.inline, Founds(name, s.properties), Founds(name, t.properties));
  }

  lemma SameInlinesAppendIf(c: bool, a: seq<Inline>, a': seq<Inline>, b: seq<Inline>, b': seq<Inline>)
    requires SameInlines(a, a') && SameInlines(b, b')
    ensures c ==> SameInlines(a + b, a' + b')
  {
    SameInlinesAppend(a, a', b, b');
  }

  ghost predicate SameFlat(f: Flat, g: Flat) {
    f.order == g.order && f.types == g.types && f.values == g.values && SameInlines(f.found, g.found)
  }

  lemma {:induction false} AddPropsAlike(draws: Draws, owner: string, tag: string, a: seq<Prop>, b: seq<Prop>)
    requires SameShapes(a, b)
    ensures SameFlat(AddProps(draws, owner, tag, a), AddProps(draws, owner, tag, b))
    decreases |a|
  {
    if a != [] {
      var n := |a| - 1;
      AddPropsAlike(draws, owner, tag, a[..n], b[..n]);
      AddPropAlike(draws(n), owner, tag, AddProps(draws, owner, tag, a[..n]), AddProps(draws, owner, tag, b[..n]), a[n], b[n]);
      hide AddProp, SameFlat;
    }
  }

  lemma AddPropAlike(kinds: Answers, owner: string, tag: string, f: Flat, g: Flat, p: Prop, q: Prop)
    requires SameFlat(f, g)
    requires p.name == q.name && SameShape(p.schema, q.schema)
    ensures SameFlat(AddProp(kinds, owner, tag, f, p), AddProp(kinds, owner, tag, g, q))
  {
    hide SameInlines, Join, MapType, FoundBy, SameShape, Texts, MakeField;
    PropAlike(owner, p, q, [], {});
    SameInlinesAppend(f.found, g.found, FoundBy(owner, p), FoundBy(owner, q));
  }

  lemma {:induction false} ArmPropsAlike(a: seq<Schema>, b: seq<Schema>)
    requires |a| == |b| && forall i :: 0 <= i < |a| ==> SameShape(a[i], b[i])
    ensures SameShapes(ArmProps(a), ArmProps(b))
    decreases |a|
  {
    hide SameShape;
    if a != [] {
      ArmPropsAlike(a[..|a| - 1], b[..|b| - 1]);
      PartsOfSameShape(a[|a| - 1], b[|b| - 1]);
    }
  }

  lemma {:induction false} ArmTextsAlike(a: seq<Schema>, b: seq<Schema>)
    requires |a| == |b| && forall i :: 0 <= i < |a| ==> SameShape(a[i], b[i])
    ensures ArmTexts(a) == ArmTexts(b)
    decreases |a|
  {
    hide SameShape, Texts;
    if a != [] {
      PartsOfSameShape(a[0], b[0]);
      ArmTextsAlike(a[1..], b[1..]);
    }
  }

  lemma EmitUnionAlike(draws: Draws, o: Out, p: Out, name: string, s: Schema, t: Schema, tag: string)
    requires SameOut(o, p) && SameShape(s, t)
    ensures SameOut(EmitUnion(draws, o, name, s, tag), EmitUnion(draws, p, name, t, tag))
  {
    hide SameShapes, SameShape, AddProps, ArmProps, SameInlines, UnionFields, TagField;
    ArmsOfSameShape(s, t);
    ArmPropsAlike(s.oneOf, t.oneOf);
    AddPropsAlike(draws, name, tag, ArmProps(s.oneOf), ArmProps(t.oneOf));
    SameInlinesAppend(o.inline, p.inline, Flatten(draws, name, tag, s.oneOf).found, Flatten(draws, name, tag, t.oneOf).found);
  }

  lemma RenderDefAlike(oracle: Oracle, o: Out, p: Out, name: string, s: Schema, t: Schema)
    requires SameOut(o, p) && SameShape(s, t)
    ensures SameOut(RenderDef(oracle, o, name, s), RenderDef(oracle, p, name, t))
  {
    hide SameShapes, SameShape, EmitUnion, EmitStruct, MapType, SameInlines, Texts, ArmTexts, Dedup, TaggedUnion, EnumUnion, IsStringEnum;
    PartsOfSameShape(s, t);
    PropertyCount(s, t);
    if name in o.emitted {
    } else if IsNamedEnum(s) {
    } else if EnumUnion(s) {
      ArmsOfSameShape(s, t);
      ArmTextsAlike(Arms(s), Arms(t));
    } else if TaggedUnion(s).Some? {
      EmitUnionAlike(oracle(name), o, p, name, s, t, TaggedUnion(s).value);
    } else if s.properties != [] {
      EmitStructAlike(o, p, name, s, t);
    } else {
      AliasAlike(o, p, name, s, t);
    }
  }

  lemma PropertyCount(s: Schema, t: Schema)
    requires SameShapes(s.properties, t.properties)
    ensures |s.properties| == |t.properties|
  {
  }

  lemma AliasAlike(o: Out, p: Out, name: string, s: Schema, t: Schema)
    requires SameOut(o, p) && SameShape(s, t)
    ensures MapType(s, name, "").typ == MapType(t, name, "").typ
    ensures var m, n := MapType(s, name, ""), MapType(t, name, "");
      SameInlines(o.inline + (if m.found.Some? then [m.found.value] else []), p.inline + (if n.found.Some? then [n.found.value] else []))
  {
    SameShapeMapsAlike(s, t, name, "");
    hide MapType, SameShape;
    var m, n := MapType(s, name, ""), MapType(t, name, "");
    SameInlinesAppend(o.inline, p.inline, if m.found.Some? then [m.found.value] else [], if n.found.Some? then [n.found.value] else []);
  }

  lemma {:induction false} RenderDefsAlike(oracle: Oracle, a: seq<Prop>, b: seq<Prop>)
    requires SameShapes(a, b)
    ensures SameOut(RenderDefs(oracle, a, NOTHING), RenderDefs(oracle, b, NOTHING))
    decreases |a|
  {
    hide RenderDef, SameShape, ExportName;
    if a != [] {
      var n := |a| - 1;
      RenderDefsAlike(oracle, a[..n], b[..n]);
      hide SameOut;
      RenderDefAlike(oracle, RenderDefs(oracle, a[..n], NOTHING), RenderDefs(oracle, b[..n], NOTHING),
                     ExportName(a[n].name), a[n].schema, b[n].schema);
    }
  }

  lemma {:induction false} DrainAlike(o: Out, p: Out, i: nat)
    requires SameOut(o, p) && i <= |o.inline|
    ensures SameOut(Drain(o, i), Drain(p, i))
    decreases InlineSize(o.inline[i..])
  {
    if i < |o.inline| {
      TurnShrinks(o, i);
      TurnShrinks(p, i);
      hide EmitStruct, InlineSize, SameShape;
      EmitStructAlike(o, p, o.inline[i].name, o.inline[i].schema, p.inline[i].schema);
      DrainAlike(EmitStruct(o, o.inline[i].name, o.inline[i].schema),
                 EmitStruct(p, p.inline[i].name, p.inline[i].schema), i + 1);
    }
  }

  /**
   Definition lists with the same names and, name by name, the same shapes are rendered
   to the same declarations, however their documentation differs, when jsonKind answers alike.
   */
  lemma DocsNeverShow(oracle: Oracle, defs: seq<Prop>, defs': seq<Prop>)
    requires SameShapes(defs, defs')
    ensures RenderTypes(oracle, defs).decls == RenderTypes(oracle, defs').decls
  {
    hide RenderDefs, Drain, SameShapes;
    RenderDefsAlike(oracle, defs, defs');
    DrainAlike(RenderDefs(oracle, defs, NOTHING), RenderDefs(oracle, defs', NOTHING), 0);
  }
}
