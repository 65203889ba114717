/** Every type name the generated code uses is declared, and when it is declared exactly once. */
module GoDeclared {
  import opened Prelude
  import opened Text
  import opened GoNames
  import opened GoSchema
  import opened GoKinds
  import opened GoWiden
  import opened GoRender

  function Names(decls: seq<Decl>): seq<string> {
    seq(|decls|, i requires 0 <= i < |decls| => decls[i].name)
  }

  lemma NamesAppend(a: seq<Decl>, b: seq<Decl>)
    ensures Names(a + b) == Names(a) + Names(b)
  {
  }

  /** `emitted` is the set of declared names. */
  ghost predicate Tracks(o: Out) {
    o.emitted == set n | n in Names(o.decls)
  }

  lemma Declare(o: Out, d: Decl, t: Out)
    requires Tracks(o) && t.decls == o.decls + [d] && t.emitted == o.emitted + {d.name}
    ensures Tracks(t)
    ensures NoDuplicates(Names(t.decls)) <==> NoDuplicates(Names(o.decls)) && d.name !in o.emitted
  {
    NamesAppend(o.decls, [d]);
    var a, b := Names(o.decls), Names(t.decls);
    assert b == a + [d.name];
    assert forall i, j :: 0 <= i < j < |a| ==> a[i] == b[i] && a[j] == b[j];
    if d.name in o.emitted {
      var i :| 0 <= i < |a| && a[i] == d.name;
      assert b[i] == b[|a|];
    }
  }

  lemma StructDeclares(o: Out, name: string, s: Schema)
    requires Tracks(o)
    ensures Tracks(EmitStruct(o, name, s))
    ensures NoDuplicates(Names(EmitStruct(o, name, s).decls)) <==> NoDuplicates(Names(o.decls))
    ensures EmitStruct(o, name, s).emitted == o.emitted + {name}
  {
    hide Fields, Founds, Tracks, Names;
    if name !in o.emitted {
      Declare(o, StructDecl(name, Fields(name, s.properties, s.required, {})), EmitStruct(o, name, s));
    } else {
      assert o.emitted + {name} == o.emitted;
    }
  }

  /** The names written by the time the definitions of `todo` are rendered. */
  function Taken(todo: seq<Prop>): set<string>
    decreases |todo|
  {
    if todo == [] then {}
    else
      var before := Taken(todo[..|todo| - 1]);
      var name := ExportName(todo[|todo| - 1].name);
      if name in before then before
      else if IsUnionDef(todo[|todo| - 1].schema) then before + {name, name + "Type"}
      else before + {name}
  }

  /** A union still to be written finds the name of its tag type taken. */
  predicate Clash(todo: seq<Prop>)
    decreases |todo|
  {
    todo != [] &&
    var before := Taken(todo[..|todo| - 1]);
    var name := ExportName(todo[|todo| - 1].name);
    || Clash(todo[..|todo| - 1])
    || (name !in before && IsUnionDef(todo[|todo| - 1].schema) && name + "Type" in before)
  }

  lemma UnionAppends(draws: Draws, o: Out, name: string, s: Schema, tag: string) returns (fields: Decl, tags: Decl)
    ensures var t := EmitUnion(draws, o, name, s, tag);
      && t.decls == o.decls + [fields, tags] && fields.name == name && tags.name == name + "Type"
      && t.emitted == o.emitted + {name, name + "Type"}
  {
    hide UnionFields, Flatten;
    var t := EmitUnion(draws, o, name, s, tag);
    fields, tags := t.decls[|o.decls|], t.decls[|o.decls| + 1];
  }

  lemma UnionDeclares(draws: Draws, o: Out, name: string, s: Schema, tag: string)
    requires Tracks(o) && name !in o.emitted
    ensures var t := EmitUnion(draws, o, name, s, tag);
      && Tracks(t)
      && t.emitted == o.emitted + {name, name + "Type"}
      && (NoDuplicates(Names(t.decls)) <==> NoDuplicates(Names(o.decls)) && name + "Type" !in o.emitted)
  {
    hide EmitUnion, Tracks, Names, NoDuplicates;
    var t := EmitUnion(draws, o, name, s, tag);
    var fields, tags := UnionAppends(draws, o, name, s, tag);
    var mid := Out(o.decls + [fields], o.inline, o.emitted + {name});
    var end := Out(mid.decls + [tags], t.inline, mid.emitted + {name + "Type"});
    Declare(o, fields, mid);
    Declare(mid, tags, end);
    assert end.decls == t.decls && end.emitted == t.emitted;
    assert |name + "Type"| != |name|;
    TracksOnly(end, t);
  }

  lemma TracksOnly(o: Out, t: Out)
    requires Tracks(o) && o.decls == t.decls && o.emitted == t.emitted
    ensures Tracks(t)
  {
  }

  lemma DefDeclares(oracle: Oracle, o: Out, name: string, s: Schema)
    requires Tracks(o)
    ensures var t := RenderDef(oracle, o, name, s);
      && Tracks(t)
      && t.emitted == (if name in o.emitted then o.emitted else if IsUnionDef(s) then o.emitted + {name, name + "Type"} else o.emitted + {name})
      && (NoDuplicates(Names(t.decls)) <==>
            NoDuplicates(Names(o.decls)) && (name in o.emitted || !IsUnionDef(s) || name + "Type" !in o.emitted))
  {
    hide EmitUnion, EmitStruct, Tracks, Names, MapType, Dedup, ArmTexts, EnumUnion, IsNamedEnum, TaggedUnion;
    var t := RenderDef(oracle, o, name, s);
    if name in o.emitted {
    } else if IsUnionDef(s) {
      UnionDeclares(oracle(name), o, name, s, TaggedUnion(s).value);
    } else if !IsNamedEnum(s) && !EnumUnion(s) && s.properties != [] {
      StructDeclares(o, name, s);
    } else {
      Declare(o, t.decls[|o.decls|], t);
    }
  }

  lemma {:induction false} DefsDeclare(oracle: Oracle, todo: seq<Prop>)
    ensures var t := RenderDefs(oracle, todo, NOTHING);
      Tracks(t) && t.emitted == Taken(todo) && (NoDuplicates(Names(t.decls)) <==> !Clash(todo))
    decreases |todo|
  {
    hide RenderDef, IsUnionDef, ExportName;
    if todo == [] {
      assert Names([]) == [];
    } else {
      hide Tracks, Names;
      DefsDeclare(oracle, todo[..|todo| - 1]);
      DefDeclares(oracle, RenderDefs(oracle, todo[..|todo| - 1], NOTHING), ExportName(todo[|todo| - 1].name), todo[|todo| - 1].schema);
    }
  }

  /** The worklist adds no second declaration of anything, and declares all it was asked for. */
  lemma {:induction false} DrainDeclares(o: Out, i: nat)
    requires i <= |o.inline| && Tracks(o)
    requires forall k :: 0 <= k < i ==> o.inline[k].name in o.emitted
    ensures var t := Drain(o, i);
      && Tracks(t) && o.emitted <= t.emitted && o.inline <= t.inline
      && (NoDuplicates(Names(t.decls)) <==> NoDuplicates(Names(o.decls)))
      && forall x <- t.inline :: x.name in t.emitted
    decreases InlineSize(o.inline[i..])
  {
    if i < |o.inline| {
      TurnShrinks(o, i);
      StructDeclares(o, o.inline[i].name, o.inline[i].schema);
      EmitGrows(o, o.inline[i].name, o.inline[i].schema);
      hide EmitStruct, Tracks, Names, InlineSize;
      DrainDeclares(EmitStruct(o, o.inline[i].name, o.inline[i].schema), i + 1);
    }
  }

  lemma EmitGrows(o: Out, name: string, s: Schema)
    ensures o.inline <= EmitStruct(o, name, s).inline
  {
  }

  /**
   Each name is declared at most once if and only if no tagged union meets its own tag
   type's name already written when its turn comes.
   */
  lemma DeclaredOnce(oracle: Oracle, defs: seq<Prop>)
    ensures NoDuplicates(Names(RenderTypes(oracle, defs).decls)) <==> !Clash(defs)
  {
    DefsDeclare(oracle, defs);
    var o := RenderDefs(oracle, defs, NOTHING);
    hide Tracks, Names, RenderDefs;
    DrainDeclares(o, 0);
  }

  /** A taken name is a definition's, or the tag type of a definition that is a union. */
  ghost predicate TakenFrom(todo: seq<Prop>, n: string) {
    exists i :: 0 <= i < |todo| && Writes(todo[i], n)
  }

  predicate Writes(p: Prop, n: string) {
    n == ExportName(p.name) || (IsUnionDef(p.schema) && n == ExportName(p.name) + "Type")
  }

  lemma {:induction false} TakenComesFrom(todo: seq<Prop>, n: string)
    requires n in Taken(todo)
    ensures TakenFrom(todo, n)
    decreases |todo|
  {
    hide IsUnionDef, ExportName;
    var before := todo[..|todo| - 1];
    if n in Taken(before) {
      TakenComesFrom(before, n);
      var i :| 0 <= i < |before| && Writes(before[i], n);
      assert Writes(todo[i], n);
    } else {
      assert Writes(todo[|todo| - 1], n);
    }
  }

  lemma SameSuffix(a: string, b: string, suffix: string)
    requires a != b
    ensures a + suffix != b + suffix
  {
    if |a| == |b| {
      assert (a + suffix)[..|a|] == a && (b + suffix)[..|b|] == b;
    }
  }

  /** Enough to rule a clash out by looking at names alone. */
  lemma {:induction false} NoClash(todo: seq<Prop>)
    requires forall i, j :: 0 <= i < |todo| && 0 <= j < |todo| && i != j ==> ExportName(todo[i].name) != ExportName(todo[j].name)
    requires forall i, j :: 0 <= i < |todo| && 0 <= j < |todo| && IsUnionDef(todo[j].schema)
               ==> ExportName(todo[i].name) != ExportName(todo[j].name) + "Type"
    ensures !Clash(todo)
    decreases |todo|
  {
    hide IsUnionDef, ExportName;
    if todo != [] {
      var k := |todo| - 1;
      var before := todo[..k];
      NoClash(before);
      var name := ExportName(todo[k].name);
      forall n | n in Taken(before) && IsUnionDef(todo[k].schema)
        ensures n != name + "Type"
      {
        TakenComesFrom(before, n);
        var i :| 0 <= i < |before| && Writes(before[i], n);
        assert todo[i] == before[i];
        SameSuffix(ExportName(todo[i].name), name, "Type");
      }
    }
  }

  // Closed references.

  ghost predicate RefsIn(s: Schema, names: set<string>)
    decreases s
  {
    && (s.ref != "" ==> RefName(s.ref) in names)
    && (forall i :: 0 <= i < |s.properties| ==> RefsIn(s.properties[i].schema, names))
    && (s.items.Some? ==> RefsIn(s.items.value, names))
    && (s.additional.SchemaExtra? ==> RefsIn(s.additional.schema, names))
    && (forall i :: 0 <= i < |s.oneOf| ==> RefsIn(s.oneOf[i], names))
    && (forall i :: 0 <= i < |s.anyOf| ==> RefsIn(s.anyOf[i], names))
    && (forall i :: 0 <= i < |s.allOf| ==> RefsIn(s.allOf[i], names))
  }

  ghost predicate PropsRefsIn(props: seq<Prop>, names: set<string>) {
    forall i :: 0 <= i < |props| ==> RefsIn(props[i].schema, names)
  }

  ghost function ExportedNames(defs: seq<Prop>): set<string> {
    set i | 0 <= i < |defs| :: ExportName(defs[i].name)
  }

  /** The named types a type expression mentions. */
  function TypeNames(t: GoType): set<string> {
    match t
    case Named(n) => {n}
    case Slice(e) => TypeNames(e)
    case MapOf(e) => TypeNames(e)
    case _ => {}
  }

  function FoundNames(found: Option<Inline>): set<string> {
    if found.Some? then {found.value.name} else {}
  }

  lemma ArmsRefs(s: Schema, names: set<string>)
    requires RefsIn(s, names)
    ensures forall x <- s.allOf :: RefsIn(x, names)
    ensures forall x <- s.anyOf :: RefsIn(x, names)
  {
    hide RefName;
  }

  lemma BaseRefs(s: Schema, names: set<string>)
    requires RefsIn(s, names)
    ensures RefsIn(Base(s), names)
  {
    ArmsRefs(s, names);
    hide RefsIn;
    if |Concrete(s.anyOf)| == 1 {
      assert Concrete(s.anyOf)[0] in s.anyOf;
    } else if |s.allOf| == 1 {
      assert s.allOf[0] in s.allOf;
    }
  }

  /** A mapped type names only referenced definitions and the object it found. */
  lemma {:induction false} MapTypeRefs(s: Schema, owner: string, field: string, names: set<string>)
    requires RefsIn(s, names)
    ensures var m := MapType(s, owner, field);
      && TypeNames(m.typ) <= names + FoundNames(m.found)
      && (m.found.Some? ==> RefsIn(m.found.value.schema, names))
    decreases Size(s), 2
  {
    BaseIsNoLarger(s);
    BaseRefs(s, names);
    MapBaseRefs(Base(s), owner, field, names);
  }

  lemma {:induction false} MapBaseRefs(b: Schema, owner: string, field: string, names: set<string>)
    requires RefsIn(b, names)
    ensures var m := MapBase(b, owner, field);
      && TypeNames(m.typ) <= names + FoundNames(m.found)
      && (m.found.Some? ==> RefsIn(m.found.value.schema, names))
    decreases Size(b), 1
  {
    hide RefName, MapByType, MapType;
    if b.ref != "" {
    } else if |b.allOf| == 1 {
      ListSizeBounds(b.allOf, b.allOf[0]);
      MapTypeRefs(b.allOf[0], owner, field, names);
    } else {
      MapByTypeRefs(b, FirstConcrete(Types(b)), owner, field, names);
    }
  }

  lemma {:induction false} MapByTypeRefs(b: Schema, concrete: Option<JsonType>, owner: string, field: string, names: set<string>)
    requires RefsIn(b, names)
    ensures var m := MapByType(b, concrete, owner, field);
      && TypeNames(m.typ) <= names + FoundNames(m.found)
      && (m.found.Some? ==> RefsIn(m.found.value.schema, names))
    decreases Size(b), 0
  {
    hide ExportName, MapType, EnumUnion;
    if concrete == Some(ArrayType) && b.items.Some? {
      MapTypeRefs(b.items.value, owner, field, names);
    } else if concrete == Some(ObjectType) && b.additional.SchemaExtra? {
      MapTypeRefs(b.additional.schema, owner, field, names);
    }
  }

  function FieldUses(fields: seq<Field>): set<string>
    decreases |fields|
  {
    if fields == [] then {} else TypeNames(fields[0].typ) + FieldUses(fields[1..])
  }

  /** The type names a declaration uses. */
  function DeclUses(d: Decl): set<string> {
    match d
    case EnumDecl(_, _) => {}
    case StructDecl(_, fields) => FieldUses(fields)
    case AliasDecl(_, target, _) => TypeNames(target)
  }

  ghost function InlineNames(l: seq<Inline>): set<string> {
    set i | 0 <= i < |l| :: l[i].name
  }

  ghost predicate InlineRefsIn(l: seq<Inline>, names: set<string>) {
    forall i :: 0 <= i < |l| ==> RefsIn(l[i].schema, names)
  }

  lemma InlineAppend(a: seq<Inline>, b: seq<Inline>, names: set<string>)
    requires InlineRefsIn(a, names) && InlineRefsIn(b, names)
    ensures InlineRefsIn(a + b, names)
    ensures InlineNames(a) <= InlineNames(a + b) && InlineNames(b) <= InlineNames(a + b)
  {
    forall n | n in InlineNames(a)
      ensures n in InlineNames(a + b)
    {
      var i :| 0 <= i < |a| && a[i].name == n;
      assert (a + b)[i] == a[i];
    }
    forall n | n in InlineNames(b)
      ensures n in InlineNames(a + b)
    {
      var i :| 0 <= i < |b| && b[i].name == n;
      assert (a + b)[|a| + i] == b[i];
    }
  }

  lemma FoundByRefs(owner: string, p: Prop, names: set<string>)
    requires RefsIn(p.schema, names)
    ensures TypeNames(MapType(p.schema, owner, p.name).typ) <= names + InlineNames(FoundBy(owner, p))
    ensures InlineRefsIn(FoundBy(owner, p), names)
  {
    MapTypeRefs(p.schema, owner, p.name, names);
    hide MapType, RefsIn;
    if MapType(p.schema, owner, p.name).found.Some? {
      assert FoundBy(owner, p)[0] == MapType(p.schema, owner, p.name).found.value;
    }
  }

  /** The fields of a struct use only definitions and the objects the struct asks for. */
  lemma {:induction false} FieldsUse(owner: string, props: seq<Prop>, required: seq<string>, used: set<string>, names: set<string>)
    requires PropsRefsIn(props, names)
    ensures FieldUses(Fields(owner, props, required, used)) <= names + InlineNames(Founds(owner, props))
    ensures InlineRefsIn(Founds(owner, props), names)
    decreases |props|
  {
    hide ExportName, RefsIn, MapType, InlineNames, InlineRefsIn;
    if props == [] {
      assert InlineRefsIn([], names) by {
        NoInlines(names);
      }
    } else {
      var f := MakeField(owner, props[0], required, used);
      if ExportName(props[0].name) == "" {
        FieldsUse(owner, props[1..], required, used, names);
        assert [] + Founds(owner, props[1..]) == Founds(owner, props[1..]);
      } else {
        FieldsUse(owner, props[1..], required, used + {f.goName}, names);
        FoundByRefs(owner, props[0], names);
        InlineAppend(FoundBy(owner, props[0]), Founds(owner, props[1..]), names);
        assert ([f] + Fields(owner, props[1..], required, used + {f.goName}))[1..]
            == Fields(owner, props[1..], required, used + {f.goName});
      }
    }
  }

  lemma NoInlines(names: set<string>)
    ensures InlineRefsIn([], names)
  {
  }

  /** The joined types of a flattened union use no more than its arms did. */
  ghost predicate FlatUses(f: Flat, names: set<string>) {
    && InlineRefsIn(f.found, names)
    && forall p <- f.types :: TypeNames(f.types[p]) <= names + InlineNames(f.found)
  }

  lemma JoinUses(kinds: Answers, a: GoType, b: GoType)
    ensures TypeNames(Join(kinds, a, b)) <= TypeNames(a)
  {
    hide KindOf;
  }

  lemma AddPropUses(kinds: Answers, owner: string, tag: string, f: Flat, p: Prop, names: set<string>)
    requires FlatUses(f, names) && RefsIn(p.schema, names)
    ensures FlatUses(AddProp(kinds, owner, tag, f, p), names)
  {
    FoundByRefs(owner, p, names);
    InlineAppend(f.found, FoundBy(owner, p), names);
    if p.name in f.types {
      JoinUses(kinds, f.types[p.name], MapType(p.schema, owner, p.name).typ);
    }
    hide InlineNames, InlineRefsIn, Join, MapType, RefsIn, FoundBy, Texts;
  }

  lemma {:induction false} AddPropsUse(draws: Draws, owner: string, tag: string, props: seq<Prop>, names: set<string>)
    requires PropsRefsIn(props, names)
    ensures FlatUses(AddProps(draws, owner, tag, props), names)
    decreases |props|
  {
    hide RefsIn, AddProp;
    if props != [] {
      AddPropsUse(draws, owner, tag, props[..|props| - 1], names);
      AddPropUses(draws(|props| - 1), owner, tag, AddProps(draws, owner, tag, props[..|props| - 1]), props[|props| - 1], names);
    }
  }

  lemma {:induction false} ArmPropsRefs(arms: seq<Schema>, names: set<string>)
    requires forall i :: 0 <= i < |arms| ==> RefsIn(arms[i], names)
    ensures PropsRefsIn(ArmProps(arms), names)
    decreases |arms|
  {
    if arms != [] {
      ArmPropsRefs(arms[..|arms| - 1], names);
      SchemaPropsRefs(arms[|arms| - 1], names);
    }
  }

  lemma SchemaPropsRefs(s: Schema, names: set<string>)
    requires RefsIn(s, names)
    ensures PropsRefsIn(s.properties, names)
  {
  }

  lemma {:induction false} UnionFieldsUse(order: seq<string>, types: map<string, GoType>, used: set<string>, all: set<string>)
    requires forall p <- order :: p in types
    requires forall p <- types :: TypeNames(types[p]) <= all
    ensures FieldUses(UnionFields(order, types, used)) <= all
    decreases |order|
  {
    hide ExportName, TypeNames;
    if order != [] {
      UnionFieldsUse(order[1..], types, used + {Unclash(ExportName(order[0]), used)}, all);
    }
  }

  /** What is used so far is a definition, an object on the worklist, or written already. */
  ghost predicate Accounted(o: Out, names: set<string>) {
    && InlineRefsIn(o.inline, names)
    && forall d <- o.decls :: DeclUses(d) <= names + InlineNames(o.inline) + o.emitted
  }

  lemma Account(o: Out, t: Out, more: seq<Inline>, added: seq<Decl>, names: set<string>)
    requires Accounted(o, names) && InlineRefsIn(more, names)
    requires t.decls == o.decls + added && t.inline == o.inline + more && o.emitted <= t.emitted
    requires forall d <- added :: DeclUses(d) <= names + InlineNames(more) + t.emitted
    ensures Accounted(t, names)
  {
    InlineAppend(o.inline, more, names);
    hide InlineNames, InlineRefsIn, DeclUses;
  }

  lemma StructAccounted(o: Out, name: string, s: Schema, names: set<string>)
    requires Accounted(o, names) && RefsIn(s, names)
    ensures Accounted(EmitStruct(o, name, s), names)
  {
    hide Accounted, Fields, Founds, RefsIn, InlineNames, InlineRefsIn, FieldUses, PropsRefsIn;
    SchemaPropsRefs(s, names);
    FieldsUse(name, s.properties, s.required, {}, names);
    if name !in o.emitted {
      Account(o, EmitStruct(o, name, s), Founds(name, s.properties),
              [StructDecl(name, Fields(name, s.properties, s.required, {}))], names);
    }
  }

  lemma FlattenUses(draws: Draws, name: string, tag: string, s: Schema, names: set<string>)
    requires RefsIn(s, names)
    ensures var f := Flatten(draws, name, tag, s.oneOf);
      && (forall p <- f.order :: p in f.types)
      && InlineRefsIn(f.found, names)
      && FieldUses(UnionFields(f.order, f.types, {ExportName(tag)})) <= names + InlineNames(f.found)
  {
    ArmPropsRefs(s.oneOf, names);
    hide RefsIn, AddProps, ArmProps, UnionFields, InlineNames, InlineRefsIn, ExportName;
    AddPropsUse(draws, name, tag, ArmProps(s.oneOf), names);
    FlatListed(draws, name, tag, ArmProps(s.oneOf));
    var f := Flatten(draws, name, tag, s.oneOf);
    UnionFieldsUse(f.order, f.types, {ExportName(tag)}, names + InlineNames(f.found));
  }

  lemma TagFirstUses(name: string, tag: string, rest: seq<Field>)
    ensures FieldUses([TagField(name, tag)] + rest) == {name + "Type"} + FieldUses(rest)
  {
    hide ExportName;
    assert ([TagField(name, tag)] + rest)[1..] == rest;
  }

  lemma UnionAccounted(draws: Draws, o: Out, name: string, s: Schema, tag: string, names: set<string>)
    requires Accounted(o, names) && RefsIn(s, names)
    ensures Accounted(EmitUnion(draws, o, name, s, tag), names)
  {
    hide Accounted, InlineNames, RefsIn, EmitUnion, UnionFields, ExportName, InlineRefsIn, FieldUses, Flatten, TagField;
    FlattenUses(draws, name, tag, s, names);
    var f := Flatten(draws, name, tag, s.oneOf);
    var fields, tags := UnionParts(draws, o, name, s, tag, f);
    TagFirstUses(name, tag, UnionFields(f.order, f.types, {ExportName(tag)}));
    Account(o, EmitUnion(draws, o, name, s, tag), f.found, [fields, tags], names);
  }

  lemma UnionParts(draws: Draws, o: Out, name: string, s: Schema, tag: string, f: Flat) returns (fields: Decl, tags: Decl)
    requires f == Flatten(draws, name, tag, s.oneOf) && forall p <- f.order :: p in f.types
    ensures var t := EmitUnion(draws, o, name, s, tag);
      && t.decls == o.decls + [fields, tags] && t.inline == o.inline + f.found
      && t.emitted == o.emitted + {name, name + "Type"}
      && fields == StructDecl(name, [TagField(name, tag)] + UnionFields(f.order, f.types, {ExportName(tag)}))
      && tags.EnumDecl?
  {
    hide UnionFields, Flatten, ExportName;
    var t := EmitUnion(draws, o, name, s, tag);
    fields, tags := t.decls[|o.decls|], t.decls[|o.decls| + 1];
  }

  lemma DefAccounted(oracle: Oracle, o: Out, name: string, s: Schema, names: set<string>)
    requires Accounted(o, names) && RefsIn(s, names)
    ensures Accounted(RenderDef(oracle, o, name, s), names)
  {
    hide Accounted, InlineNames, RefsIn, EmitUnion, EmitStruct, MapType, InlineRefsIn, EnumUnion, IsNamedEnum, TaggedUnion, Dedup, Texts, ArmTexts;
    var t := RenderDef(oracle, o, name, s);
    MapTypeRefs(s, name, "", names);
    NoInlines(names);
    if name in o.emitted {
    } else if IsNamedEnum(s) || EnumUnion(s) {
      Account(o, t, [], [t.decls[|o.decls|]], names);
    } else if TaggedUnion(s).Some? {
      UnionAccounted(oracle(name), o, name, s, TaggedUnion(s).value, names);
    } else if s.properties != [] {
      StructAccounted(o, name, s, names);
    } else {
      AliasAccounted(o, t, MapType(s, name, ""), name, names);
    }
  }

  lemma AliasAccounted(o: Out, t: Out, m: Mapped, name: string, names: set<string>)
    requires Accounted(o, names)
    requires TypeNames(m.typ) <= names + FoundNames(m.found) && (m.found.Some? ==> RefsIn(m.found.value.schema, names))
    requires t == Out(o.decls + [AliasDecl(name, m.typ, m.typ == RawJson)],
                      o.inline + (if m.found.Some? then [m.found.value] else []), o.emitted + {name})
    ensures Accounted(t, names)
  {
    var more := if m.found.Some? then [m.found.value] else [];
    if m.found.Some? {
      assert more[0].name in InlineNames(more);
    }
    hide Accounted, RefsIn;
    Account(o, t, more, [AliasDecl(name, m.typ, m.typ == RawJson)], names);
  }

  lemma {:induction false} DefsAccounted(oracle: Oracle, todo: seq<Prop>, names: set<string>)
    requires PropsRefsIn(todo, names)
    ensures Accounted(RenderDefs(oracle, todo, NOTHING), names)
    decreases |todo|
  {
    if todo != [] {
      hide RefsIn, RenderDef, Accounted;
      DefsAccounted(oracle, todo[..|todo| - 1], names);
      DefAccounted(oracle, RenderDefs(oracle, todo[..|todo| - 1], NOTHING), ExportName(todo[|todo| - 1].name), todo[|todo| - 1].schema, names);
    }
  }

  lemma {:induction false} DrainAccounted(o: Out, i: nat, names: set<string>)
    requires i <= |o.inline| && Accounted(o, names)
    ensures Accounted(Drain(o, i), names)
    decreases InlineSize(o.inline[i..])
  {
    if i < |o.inline| {
      TurnShrinks(o, i);
      StructAccounted(o, o.inline[i].name, o.inline[i].schema, names);
      hide EmitStruct, Accounted, InlineSize;
      DrainAccounted(EmitStruct(o, o.inline[i].name, o.inline[i].schema), i + 1, names);
    }
  }

  lemma {:induction false} DefinitionsTaken(todo: seq<Prop>)
    ensures ExportedNames(todo) <= Taken(todo)
    decreases |todo|
  {
    hide ExportName, IsUnionDef;
    if todo != [] {
      DefinitionsTaken(todo[..|todo| - 1]);
      forall n | n in ExportedNames(todo)
        ensures n in Taken(todo)
      {
        var i :| 0 <= i < |todo| && n == ExportName(todo[i].name);
        if i < |todo| - 1 {
          assert todo[..|todo| - 1][i] == todo[i];
        }
      }
    }
  }

  lemma AccountedIsDeclared(t: Out, names: set<string>, d: Decl, n: string)
    requires Accounted(t, names) && Tracks(t) && names <= t.emitted
    requires forall x <- t.inline :: x.name in t.emitted
    requires d in t.decls && n in DeclUses(d)
    ensures n in Names(t.decls)
  {
    hide RefsIn, InlineRefsIn, DeclUses, Names;
    if n in InlineNames(t.inline) {
      var i :| 0 <= i < |t.inline| && t.inline[i].name == n;
      assert t.inline[i] in t.inline;
    }
  }

  /** With every reference leading to some definition, every type name used is declared. */
  lemma UsedAreDeclared(oracle: Oracle, defs: seq<Prop>, d: Decl, n: string)
    requires PropsRefsIn(defs, ExportedNames(defs))
    requires d in RenderTypes(oracle, defs).decls && n in DeclUses(d)
    ensures n in Names(RenderTypes(oracle, defs).decls)
  {
    hide RenderDefs, Drain, Taken, RefsIn, DeclUses, ExportedNames, PropsRefsIn, Names, Tracks, Accounted, InlineRefsIn, NoDuplicates;
    var names := ExportedNames(defs);
    var o := RenderDefs(oracle, defs, NOTHING);
    DefsDeclare(oracle, defs);
    DefinitionsTaken(defs);
    DefsAccounted(oracle, defs, names);
    DrainDeclares(o, 0);
    DrainAccounted(o, 0, names);
    AccountedIsDeclared(Drain(o, 0), names, d, n);
  }

  // Whose declaration a name is.

  /** What a definition becomes when nothing has taken its name; its own declaration comes first. */
  ghost function OwnDecls(oracle: Oracle, p: Prop): seq<Decl> {
    RenderDef(oracle, NOTHING, ExportName(p.name), p.schema).decls
  }

  /** The declaration an anonymous object becomes when nothing has taken its name. */
  function OwnStruct(x: Inline): Decl {
    StructDecl(x.name, Fields(x.name, x.schema.properties, x.schema.required, {}))
  }

  lemma UnionFromNothing(draws: Draws, o: Out, name: string, s: Schema, tag: string)
    ensures EmitUnion(draws, o, name, s, tag).decls == o.decls + EmitUnion(draws, NOTHING, name, s, tag).decls
  {
    hide UnionFields, Flatten, TagField, ExportName, AddProps, ArmProps;
    FlatListed(draws, name, tag, ArmProps(s.oneOf));
  }

  lemma DefFromNothing(oracle: Oracle, o: Out, p: Prop)
    requires ExportName(p.name) !in o.emitted
    ensures RenderDef(oracle, o, ExportName(p.name), p.schema).decls == o.decls + OwnDecls(oracle, p)
    ensures OwnDecls(oracle, p) != [] && OwnDecls(oracle, p)[0].name == ExportName(p.name)
  {
    hide EmitUnion, MapType, Dedup, ArmTexts, EnumUnion, IsNamedEnum, TaggedUnion, Texts, ExportName, Fields, Founds;
    var name, s := ExportName(p.name), p.schema;
    if IsUnionDef(s) {
      UnionFromNothing(oracle(name), o, name, s, TaggedUnion(s).value);
      var fields, tags := UnionAppends(oracle(name), NOTHING, name, s, TaggedUnion(s).value);
    }
  }

  lemma {:induction false} DefsOnlyAppend(oracle: Oracle, todo: seq<Prop>, i: nat)
    requires i <= |todo|
    ensures RenderDefs(oracle, todo[..i], NOTHING).decls <= RenderDefs(oracle, todo, NOTHING).decls
    decreases |todo|
  {
    hide RenderDef, ExportName;
    if i == |todo| {
      assert todo[..i] == todo;
    } else {
      var n := |todo| - 1;
      DefsOnlyAppend(oracle, todo[..n], i);
      assert todo[..n][..i] == todo[..i];
      DefOnlyAppends(oracle, RenderDefs(oracle, todo[..n], NOTHING), todo[n]);
    }
  }

  lemma DefOnlyAppends(oracle: Oracle, o: Out, p: Prop)
    ensures o.decls <= RenderDef(oracle, o, ExportName(p.name), p.schema).decls
  {
    if ExportName(p.name) !in o.emitted {
      DefFromNothing(oracle, o, p);
      hide RenderDef, ExportName;
    }
  }

  lemma StructWrites(o: Out, x: Inline)
    ensures var t := EmitStruct(o, x.name, x.schema);
      && o.decls <= t.decls && o.inline <= t.inline
      && forall d <- t.decls :: d in o.decls || d == OwnStruct(x)
  {
    hide Fields, Founds;
  }

  /** The worklist adds nothing but what the objects on it become. */
  lemma {:induction false} DrainWrites(o: Out, i: nat)
    requires i <= |o.inline|
    ensures var t := Drain(o, i);
      && o.decls <= t.decls && o.inline <= t.inline
      && forall d <- t.decls :: d in o.decls || exists x <- t.inline :: d == OwnStruct(x)
    decreases InlineSize(o.inline[i..])
  {
    if i < |o.inline| {
      hide EmitStruct, OwnStruct, InlineSize;
      TurnShrinks(o, i);
      var x := o.inline[i];
      StructWrites(o, x);
      DrainWrites(EmitStruct(o, x.name, x.schema), i + 1);
      assert Drain(o, i).inline[i] == x;
    }
  }

  lemma OneOfAName(decls: seq<Decl>, d: Decl, e: Decl)
    requires NoDuplicates(Names(decls)) && d in decls && e in decls && d.name == e.name
    ensures d == e
  {
    var i :| 0 <= i < |decls| && decls[i] == d;
    var j :| 0 <= j < |decls| && decls[j] == e;
    assert Names(decls)[i] == Names(decls)[j];
  }

  lemma DeclOfName(decls: seq<Decl>, n: string) returns (d: Decl)
    requires n in Names(decls)
    ensures d in decls && d.name == n
  {
    var i :| 0 <= i < |decls| && Names(decls)[i] == n;
    d := decls[i];
  }

  /**
   A definition's name stands for that definition if and only if nobody had taken the name
   when its turn came, or whoever had declared the very same.
   */
  lemma DefinitionStands(oracle: Oracle, defs: seq<Prop>, i: nat)
    requires !Clash(defs) && i < |defs|
    ensures OwnDecls(oracle, defs[i]) != []
    ensures OwnDecls(oracle, defs[i])[0] in RenderTypes(oracle, defs).decls
            <==> (ExportName(defs[i].name) !in Taken(defs[..i])
                  || OwnDecls(oracle, defs[i])[0] in RenderDefs(oracle, defs[..i], NOTHING).decls)
  {
    hide ExportName, OwnDecls, RenderDef, Drain, Taken, Clash, NoDuplicates, Names;
    var before := RenderDefs(oracle, defs[..i], NOTHING);
    var all := RenderDefs(oracle, defs, NOTHING);
    DefFromNothing(oracle, NOTHING, defs[i]);
    DeclaredOnce(oracle, defs);
    DefsDeclare(oracle, defs[..i]);
    DefsOnlyAppend(oracle, defs, i);
    DefsOnlyAppend(oracle, defs, i + 1);
    DrainWrites(all, 0);
    var own := OwnDecls(oracle, defs[i])[0];
    if ExportName(defs[i].name) !in Taken(defs[..i]) {
      DefFromNothing(oracle, before, defs[i]);
      assert defs[..i + 1][..i] == defs[..i];
      assert own in RenderDefs(oracle, defs[..i + 1], NOTHING).decls;
    } else {
      var there := DeclOfName(before.decls, own.name);
      if own in RenderTypes(oracle, defs).decls {
        OneOfAName(RenderTypes(oracle, defs).decls, own, there);
      }
    }
  }

  /** Objects of one name become one declaration. */
  ghost predicate ObjectsAgree(l: seq<Inline>) {
    forall x, y :: x in l && y in l && x.name == y.name ==> OwnStruct(x) == OwnStruct(y)
  }

  /**
   Every anonymous object's name stands for that object if and only if no two of one name
   differ, and none takes the name of something else already written.
   */
  lemma ObjectsStand(oracle: Oracle, defs: seq<Prop>)
    requires !Clash(defs)
    ensures var o, t := RenderDefs(oracle, defs, NOTHING), RenderTypes(oracle, defs);
      (forall x <- t.inline :: OwnStruct(x) in t.decls)
      <==> (ObjectsAgree(t.inline) && forall x <- t.inline :: x.name in Taken(defs) ==> OwnStruct(x) in o.decls)
  {
    hide RenderDefs, Drain, Taken, Clash, NoDuplicates, Names, Tracks, Fields;
    var o, t := RenderDefs(oracle, defs, NOTHING), RenderTypes(oracle, defs);
    DeclaredOnce(oracle, defs);
    DefsDeclare(oracle, defs);
    DrainDeclares(o, 0);
    DrainWrites(o, 0);
    forall x | x in t.inline
      ensures x.name in Names(t.decls)
      ensures x.name in Taken(defs) ==> x.name in Names(o.decls)
    {
      TracksNames(o);
      TracksNames(t);
    }
    if forall x <- t.inline :: OwnStruct(x) in t.decls {
      forall x, y | x in t.inline && y in t.inline && x.name == y.name
        ensures OwnStruct(x) == OwnStruct(y)
      {
        OneOfAName(t.decls, OwnStruct(x), OwnStruct(y));
      }
      forall x | x in t.inline && x.name in Taken(defs)
        ensures OwnStruct(x) in o.decls
      {
        var d := DeclOfName(o.decls, x.name);
        OneOfAName(t.decls, OwnStruct(x), d);
      }
    }
    if ObjectsAgree(t.inline) && forall x <- t.inline :: x.name in Taken(defs) ==> OwnStruct(x) in o.decls {
      forall x | x in t.inline && x.name !in Taken(defs)
        ensures OwnStruct(x) in t.decls
      {
        var d := DeclOfName(t.decls, x.name);
        TracksNames(o);
        NamedInNames(o.decls, d);
      }
    }
  }

  lemma TracksNames(o: Out)
    requires Tracks(o)
    ensures forall n :: n in o.emitted <==> n in Names(o.decls)
  {
  }

  lemma NamedInNames(decls: seq<Decl>, d: Decl)
    ensures d in decls ==> d.name in Names(decls)
  {
    if d in decls {
      var i :| 0 <= i < |decls| && decls[i] == d;
      assert Names(decls)[i] == d.name;
    }
  }
}
