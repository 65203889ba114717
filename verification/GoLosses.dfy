/** Definitions that admit values the generated program cannot decode, with the values they lose. */
module GoLosses {
  import opened Json
  import opened Prelude
  import opened Text
  import opened GoNames
  import opened GoSchema
  import opened GoKinds
  import opened GoWiden
  import opened GoRender
  import opened GoDecoding
  import opened GoRuns
  import opened GoSound
  import opened GoProgram
  import opened GoLimits

  // A definition that is only a name for one written as raw JSON.

  /** A definition that says nothing, and one that is a reference to it. */
  function OpenAndName(raw: string, name: string): seq<Prop> {
    [Prop(raw, PLAIN), Prop(name, PLAIN.(ref := raw))]
  }

  lemma PlainMaps(owner: string, ref: string)
    ensures MapType(PLAIN, owner, "") == Mapped(RawJson, None)
    ensures ref != "" ==> MapType(PLAIN.(ref := ref), owner, "") == Mapped(Named(RefName(ref)), None)
  {
    hide RefName;
    assert Concrete(PLAIN.anyOf) == [] && Base(PLAIN) == PLAIN;
    assert Concrete(PLAIN.(ref := ref).anyOf) == [];
    assert ref != "" ==> Base(PLAIN.(ref := ref)) == PLAIN.(ref := ref);
  }

  lemma OneDefinition(oracle: Oracle, p: Prop)
    ensures RenderDefs(oracle, [p], NOTHING) == RenderDef(oracle, NOTHING, ExportName(p.name), p.schema)
  {
    hide ExportName, RenderDef;
    assert [p][..0] == [] && RenderDefs(oracle, [], NOTHING) == NOTHING;
  }

  lemma OpenAndNameWrites(oracle: Oracle, raw: string, name: string)
    requires raw != "" && '/' !in raw && ExportName(raw) != ExportName(name)
    ensures RenderTypes(oracle, OpenAndName(raw, name)).decls ==
      [AliasDecl(ExportName(raw), RawJson, true), AliasDecl(ExportName(name), Named(ExportName(raw)), false)]
  {
    hide ExportName, MapType;
    NoSlash(raw);
    PlainMaps(ExportName(raw), raw);
    PlainMaps(ExportName(name), raw);
    var defs := OpenAndName(raw, name);
    assert defs[..1] == [defs[0]];
    OneDefinition(oracle, defs[0]);
    var first := RenderDefs(oracle, defs[..1], NOTHING);
    assert first == Out([AliasDecl(ExportName(raw), RawJson, true)], [], {ExportName(raw)});
    assert RenderDefs(oracle, defs, NOTHING) == RenderDef(oracle, first, ExportName(name), PLAIN.(ref := raw));
  }

  /**
   A type defined over a raw JSON type loses its methods with the name: of all the values
   the definition admits, which is every value, only those a []byte takes still decode.
   */
  lemma RawIsLost(oracle: Oracle, raw: string, name: string, v: Value)
    requires raw != "" && '/' !in raw && ExportName(raw) != ExportName(name)
    ensures Admits(RefsOf(OpenAndName(raw, name), 1), OpenAndName(raw, name)[1].schema, v)
    ensures (exists n: nat :: NamedDecodes(RenderTypes(oracle, OpenAndName(raw, name)).decls, n, ExportName(name), v)) <==> IsBytes(v)
  {
    hide ExportName, RenderTypes, IsBytes;
    var defs := OpenAndName(raw, name);
    NoSlash(raw);
    NoUnions(raw, name);
    PlainAdmits(RefsOf(defs, 0), v);
    assert defs[0].name == raw;
    assert RefAdmits(defs, 1, raw, v);
    OpenAndNameWrites(oracle, raw, name);
    NamedRaw(RenderTypes(oracle, defs).decls, ExportName(raw), ExportName(name), v);
  }

  lemma NoUnions(raw: string, name: string)
    ensures !IsUnionDef(PLAIN) && !IsUnionDef(PLAIN.(ref := raw))
  {
  }

  lemma PlainAdmits(refs: Meaning, v: Value)
    ensures Admits(refs, PLAIN, v)
  {
    AnyFormat(v);
    hide HasType, InFormat, HasKey;
  }

  lemma AnyFormat(v: Value)
    ensures v.Whole? ==> InFormat("", v.n)
  {
  }

  lemma OverAName(decls: seq<Decl>, n: nat, name: string, target: string, v: Value)
    requires n > 0
    ensures TakesIn(decls, n, AliasDecl(name, Named(target), false), v) <==> v.Null? || UnderDecodes(decls, n - 1, target, v)
  {
    hide UnderDecodes, Decodes;
  }

  lemma NamedRaw(decls: seq<Decl>, raw: string, name: string, v: Value)
    requires raw != name && decls == [AliasDecl(raw, RawJson, true), AliasDecl(name, Named(raw), false)]
    ensures (exists n: nat :: NamedDecodes(decls, n, name, v)) <==> IsBytes(v)
  {
    hide IsBytes, Decodes;
    assert v.Null? ==> IsBytes(v) by {
      NullIsBytes(v);
    }
    forall n: nat | NamedDecodes(decls, n, name, v)
      ensures IsBytes(v)
    {
      var d :| d in decls && d.name == name && TakesIn(decls, n, d, v);
      assert d == decls[1];
      OverAName(decls, n, name, raw, v);
      if !v.Null? {
        var e :| e in decls && e.name == raw && TakesUnder(decls, n - 1, e, v);
        assert e == decls[0];
      }
    }
    if IsBytes(v) {
      assert decls[0] in decls && TakesUnder(decls, 1, decls[0], v);
      assert UnderDecodes(decls, 1, raw, v);
      OverAName(decls, 2, name, raw, v);
      assert decls[1] in decls;
      assert NamedDecodes(decls, 2, name, v);
    }
  }

  lemma NullIsBytes(v: Value)
    ensures v.Null? ==> IsBytes(v)
  {
  }

  // A definition that is an array of anonymous objects.

  function ObjectsOf(props: seq<Prop>): Schema {
    PLAIN.(typ := OneType(ArrayType), items := Some(PLAIN.(typ := OneType(ObjectType), properties := props)))
  }

  lemma ObjectsMap(props: seq<Prop>, name: string)
    requires props != []
    ensures var m := MapType(ObjectsOf(props), ExportName(name), "");
      m.typ == Slice(Named(ExportName(name))) && m.found.Some? && m.found.value.name == ExportName(name)
  {
    TrailingUnderscore(name);
    hide ExportName;
    var s := ObjectsOf(props);
    var item := s.items.value;
    ObjectMaps(item, ExportName(name));
    assert Concrete(s.anyOf) == [] && Base(s) == s;
    assert FirstConcrete(Types(s)) == Some(ArrayType);
    hide MapType;
    assert MapBase(s, ExportName(name), "") == MapByType(s, Some(ArrayType), ExportName(name), "");
    MapsBase(s, ExportName(name));
  }

  lemma MapsBase(s: Schema, owner: string)
    requires Base(s) == s
    ensures MapType(s, owner, "") == MapBase(s, owner, "")
  {
    hide MapBase;
  }

  lemma ObjectMaps(item: Schema, owner: string)
    requires item == PLAIN.(typ := OneType(ObjectType), properties := item.properties) && item.properties != []
    ensures MapType(item, owner, "") == Mapped(Named(ExportName(owner + "_" + "")), Some(Inline(ExportName(owner + "_" + ""), item)))
  {
    hide ExportName;
    assert Concrete(item.anyOf) == [] && Base(item) == item;
    assert FirstConcrete(Types(item)) == Some(ObjectType);
    hide MapType;
    assert MapBase(item, owner, "") == MapByType(item, Some(ObjectType), owner, "");
    MapsBase(item, owner);
  }

  lemma ObjectsAreAlias(props: seq<Prop>)
    ensures IsAliasDef(ObjectsOf(props))
  {
  }

  /** The anonymous object would take the name the array already has, so it is never declared. */
  lemma ObjectsWrite(oracle: Oracle, props: seq<Prop>, name: string)
    requires props != []
    ensures RenderTypes(oracle, [Prop(name, ObjectsOf(props))]).decls ==
      [AliasDecl(ExportName(name), Slice(Named(ExportName(name))), false)]
  {
    ObjectsMap(props, name);
    ObjectsAreAlias(props);
    hide ExportName, MapType, ObjectsOf;
    var p := Prop(name, ObjectsOf(props));
    var m := MapType(p.schema, ExportName(name), "");
    OneDefinition(oracle, p);
    AliasAlone(oracle, p);
    hide RenderDefs, RenderDef;
    OneTurnLeft(Out([AliasDecl(ExportName(name), m.typ, false)], [m.found.value], {ExportName(name)}));
  }

  lemma AliasAlone(oracle: Oracle, p: Prop)
    requires IsAliasDef(p.schema) && MapType(p.schema, ExportName(p.name), "").found.Some?
    ensures var m := MapType(p.schema, ExportName(p.name), "");
      RenderDef(oracle, NOTHING, ExportName(p.name), p.schema)
      == Out([AliasDecl(ExportName(p.name), m.typ, m.typ == RawJson)], [m.found.value], {ExportName(p.name)})
  {
    hide ExportName, MapType, IsNamedEnum, EnumUnion, TaggedUnion;
  }

  lemma OneTurnLeft(o: Out)
    requires |o.inline| == 1 && o.inline[0].name in o.emitted
    ensures Drain(o, 0) == o
  {
    hide Fields, Founds;
    assert EmitStruct(o, o.inline[0].name, o.inline[0].schema) == o;
    assert Drain(o, 1) == o;
  }

  lemma ObjectsAdmit(refs: Meaning, props: seq<Prop>, members: seq<Member>)
    requires Admits(refs, ObjectsOf(props).items.value, Obj(members))
    ensures Admits(refs, ObjectsOf(props), Arr([Obj(members)]))
  {
    var s, v := ObjectsOf(props), Arr([Obj(members)]);
    assert Types(s) == [ArrayType] && ArrayType in Types(s) && HasType(ArrayType, v);
  }

  /** The type becomes an array of itself: no list with an object in it decodes, whichever the definition admits. */
  lemma ObjectsAreLost(oracle: Oracle, props: seq<Prop>, name: string, members: seq<Member>, n: nat)
    requires props != []
    ensures !NamedDecodes(RenderTypes(oracle, [Prop(name, ObjectsOf(props))]).decls, n, ExportName(name), Arr([Obj(members)]))
  {
    hide ExportName, RenderTypes;
    ObjectsWrite(oracle, props, name);
    ArrayOfItself(RenderTypes(oracle, [Prop(name, ObjectsOf(props))]).decls, ExportName(name), members, n);
  }

  lemma ArrayOfItself(decls: seq<Decl>, name: string, members: seq<Member>, n: nat)
    requires decls == [AliasDecl(name, Slice(Named(name)), false)]
    ensures !NamedDecodes(decls, n, name, Arr([Obj(members)]))
  {
    forall m: nat, d | d in decls && m > 0
      ensures !TakesIn(decls, m, d, Obj(members))
    {
      assert d == decls[0];
    }
    forall d | d in decls && n > 0
      ensures !TakesIn(decls, n, d, Arr([Obj(members)]))
    {
      assert d == decls[0];
      assert Arr([Obj(members)]).elems[0] == Obj(members);
      assert !NamedDecodes(decls, n - 1, name, Obj(members));
      assert !Decodes(NamedOf(decls, n - 1), Named(name), Obj(members));
    }
  }
}
