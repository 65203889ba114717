/**
 Rendering as a function: which declarations a sorted list of definitions becomes. A
 declaration is kept as data, without its comments.
 */
module GoRender {
  import opened Json
  import opened Prelude
  import opened Text
  import opened GoNames
  import opened GoSchema
  import opened GoKinds
  import opened GoWiden
  import StringOrder

  datatype Field = Field(goName: string, typ: GoType, pointer: bool, json: string, omitempty: bool)

  datatype Decl =
    | EnumDecl(name: string, values: seq<string>)
    | StructDecl(name: string, fields: seq<Field>)
    | AliasDecl(name: string, target: GoType, transparent: bool)

  /** Where rendering stands: the text so far, the anonymous objects found, the names written. */
  datatype Out = Out(decls: seq<Decl>, inline: seq<Inline>, emitted: set<string>)

  const NOTHING: Out := Out([], [], {})

  predicate NeedsPointer(t: GoType) {
    !t.Slice? && !t.MapOf? && t != RawJson
  }

  function Texts(values: seq<Value>): seq<string> {
    if values == [] then []
    else (if values[0].Str? then [values[0].text] else []) + Texts(values[1..])
  }

  /** The first field of a Go name keeps it; a later one gets one underscore. */
  function Unclash(goName: string, used: set<string>): string {
    if goName in used then goName + "_" else goName
  }

  function MakeField(owner: string, p: Prop, required: seq<string>, used: set<string>): Field {
    var typ := MapType(p.schema, owner, p.name).typ;
    var optional := p.name !in required || Nullable(p.schema);
    Field(Unclash(ExportName(p.name), used), typ, optional && NeedsPointer(typ), p.name, optional)
  }

  /** The fields of a struct; a name that exports to nothing is skipped. */
  function Fields(owner: string, props: seq<Prop>, required: seq<string>, used: set<string>): seq<Field>
    decreases |props|
  {
    if props == [] then []
    else if ExportName(props[0].name) == "" then Fields(owner, props[1..], required, used)
    else
      var f := MakeField(owner, props[0], required, used);
      [f] + Fields(owner, props[1..], required, used + {f.goName})
  }

  function FoundBy(owner: string, p: Prop): seq<Inline> {
    match MapType(p.schema, owner, p.name).found
    case None => []
    case Some(x) => [x]
  }

  /** The anonymous objects the fields of a struct ask for. */
  function Founds(owner: string, props: seq<Prop>): seq<Inline>
    decreases |props|
  {
    if props == [] then []
    else (if ExportName(props[0].name) == "" then [] else FoundBy(owner, props[0])) + Founds(owner, props[1..])
  }

  function EmitStruct(o: Out, name: string, s: Schema): Out {
    if name in o.emitted then o
    else Out(o.decls + [StructDecl(name, Fields(name, s.properties, s.required, {}))],
             o.inline + Founds(name, s.properties),
             o.emitted + {name})
  }

  // Flattening a tagged union.

  /** The fields collected so far: their order of first appearance, one type each, and the tag's values. */
  datatype Flat = Flat(order: seq<string>, types: map<string, GoType>, values: seq<string>, found: seq<Inline>)

  function AddProp(kinds: Answers, owner: string, tag: string, f: Flat, p: Prop): Flat {
    if p.name == tag then f.(values := f.values + Texts(p.schema.enum))
    else
      var typ := MapType(p.schema, owner, p.name).typ;
      var g := f.(found := f.found + FoundBy(owner, p));
      if p.name !in f.types then g.(order := f.order + [p.name], types := f.types[p.name := typ])
      else g.(types := f.types[p.name := Join(kinds, f.types[p.name], typ)])
  }

  /** What jsonKind answers for the n-th property of a union, should it be asked there. */
  type Draws = nat -> Answers

  const NO_FIELDS: Flat := Flat([], map[], [], [])

  function AddProps(draws: Draws, owner: string, tag: string, props: seq<Prop>): Flat
    decreases |props|
  {
    if props == [] then NO_FIELDS
    else
      var n := |props| - 1;
      AddProp(draws(n), owner, tag, AddProps(draws, owner, tag, props[..n]), props[n])
  }

  /** Every property of every arm, arm by arm. */
  function ArmProps(arms: seq<Schema>): seq<Prop>
    decreases |arms|
  {
    if arms == [] then [] else ArmProps(arms[..|arms| - 1]) + arms[|arms| - 1].properties
  }

  function Flatten(draws: Draws, owner: string, tag: string, arms: seq<Schema>): Flat {
    AddProps(draws, owner, tag, ArmProps(arms))
  }

  function UnionFields(order: seq<string>, types: map<string, GoType>, used: set<string>): seq<Field>
    requires forall p <- order :: p in types
    decreases |order|
  {
    if order == [] then []
    else
      var goName := Unclash(ExportName(order[0]), used);
      var typ := types[order[0]];
      [Field(goName, typ, NeedsPointer(typ), order[0], true)] + UnionFields(order[1..], types, used + {goName})
  }

  /** Each field is listed once, and has a type. */
  ghost predicate Listed(f: Flat) {
    && NoDuplicates(f.order)
    && (forall p <- f.order :: p in f.types)
    && (forall p <- f.types :: p in f.order)
  }

  lemma AddPropListed(kinds: Answers, owner: string, tag: string, f: Flat, p: Prop)
    requires Listed(f)
    ensures Listed(AddProp(kinds, owner, tag, f, p))
  {
    hide Join, MapType, FoundBy;
    assert p.name in f.order + [p.name];
    assert forall q <- f.order :: q in f.order + [p.name];
  }

  lemma {:induction false} FlatListed(draws: Draws, owner: string, tag: string, props: seq<Prop>)
    ensures Listed(AddProps(draws, owner, tag, props))
    decreases |props|
  {
    hide AddProp;
    if props != [] {
      var n := |props| - 1;
      FlatListed(draws, owner, tag, props[..n]);
      AddPropListed(draws(n), owner, tag, AddProps(draws, owner, tag, props[..n]), props[n]);
    }
  }

  function TagField(name: string, tag: string): Field {
    Field(ExportName(tag), Named(name + "Type"), false, tag, false)
  }

  /** One struct for all arms, then the discriminator's own type, written without asking if it exists. */
  ghost function EmitUnion(draws: Draws, o: Out, name: string, s: Schema, tag: string): Out {
    FlatListed(draws, name, tag, ArmProps(s.oneOf));
    var f := Flatten(draws, name, tag, s.oneOf);
    Out(o.decls + [StructDecl(name, [TagField(name, tag)] + UnionFields(f.order, f.types, {ExportName(tag)})),
                   EnumDecl(name + "Type", StringOrder.Sorted(set v | v in f.values))],
        o.inline + f.found,
        o.emitted + {name, name + "Type"})
  }

  function Dedup(values: seq<string>, seen: set<string>): seq<string>
    decreases |values|
  {
    if values == [] then []
    else if values[0] in seen then Dedup(values[1..], seen)
    else [values[0]] + Dedup(values[1..], seen + {values[0]})
  }

  function ArmTexts(arms: seq<Schema>): seq<string>
    decreases |arms|
  {
    if arms == [] then [] else Texts(arms[0].enum) + ArmTexts(arms[1..])
  }

  predicate IsNamedEnum(s: Schema) {
    s.enum != [] && IsStringEnum(s)
  }

  /** Definitions renderDef turns into a tagged union. */
  predicate IsUnionDef(s: Schema) {
    !IsNamedEnum(s) && !EnumUnion(s) && TaggedUnion(s).Some?
  }

  /** What jsonKind answers over a whole run: for each union, at each of its properties. */
  type Oracle = string -> Draws

  ghost function RenderDef(oracle: Oracle, o: Out, name: string, s: Schema): Out {
    if name in o.emitted then o
    else if IsNamedEnum(s) then
      o.(decls := o.decls + [EnumDecl(name, Texts(s.enum))], emitted := o.emitted + {name})
    else if EnumUnion(s) then
      o.(decls := o.decls + [EnumDecl(name, Dedup(ArmTexts(Arms(s)), {}))], emitted := o.emitted + {name})
    else if TaggedUnion(s).Some? then EmitUnion(oracle(name), o, name, s, TaggedUnion(s).value)
    else if s.properties != [] then EmitStruct(o, name, s)
    else
      var m := MapType(s, name, "");
      Out(o.decls + [AliasDecl(name, m.typ, m.typ == RawJson)],
          o.inline + (if m.found.Some? then [m.found.value] else []),
          o.emitted + {name})
  }

  ghost function RenderDefs(oracle: Oracle, todo: seq<Prop>, o: Out): Out
    decreases |todo|
  {
    if todo == [] then o
    else RenderDef(oracle, RenderDefs(oracle, todo[..|todo| - 1], o), ExportName(todo[|todo| - 1].name), todo[|todo| - 1].schema)
  }

  // The worklist of anonymous objects.

  function InlineSize(l: seq<Inline>): nat
    decreases |l|
  {
    if l == [] then 0 else Size(l[0].schema) + InlineSize(l[1..])
  }

  lemma {:induction false} InlineSizeAppend(a: seq<Inline>, b: seq<Inline>)
    ensures InlineSize(a + b) == InlineSize(a) + InlineSize(b)
    decreases |a|
  {
    if a == [] {
      assert a + b == b;
    } else {
      assert (a + b)[1..] == a[1..] + b;
      InlineSizeAppend(a[1..], b);
    }
  }

  /** A struct asks for at most as much schema as its properties hold. */
  lemma {:induction false} FoundsSize(owner: string, props: seq<Prop>)
    ensures InlineSize(Founds(owner, props)) <= PropsSize(props)
    decreases |props|
  {
    hide MapType, ExportName;
    if props != [] {
      FoundsSize(owner, props[1..]);
      var here := if ExportName(props[0].name) == "" then [] else FoundBy(owner, props[0]);
      InlineSizeAppend(here, Founds(owner, props[1..]));
      if here != [] {
        assert here[1..] == [];
      }
    }
  }

  lemma PropsSmaller(s: Schema)
    ensures PropsSize(s.properties) < Size(s)
  {
  }

  /** What one turn of the worklist leaves to do is strictly less schema than before. */
  lemma TurnShrinks(o: Out, i: nat)
    requires i < |o.inline|
    ensures var t := EmitStruct(o, o.inline[i].name, o.inline[i].schema);
      i + 1 <= |t.inline| && InlineSize(t.inline[i + 1..]) < InlineSize(o.inline[i..])
  {
    hide Fields, Founds, Size, PropsSize;
    var x := o.inline[i];
    assert o.inline[i..][0] == x && o.inline[i..][1..] == o.inline[i + 1..];
    PropsSmaller(x.schema);
    FoundsSize(x.name, x.schema.properties);
    InlineSizeAppend(o.inline[i + 1..], Founds(x.name, x.schema.properties));
    assert (o.inline + Founds(x.name, x.schema.properties))[i + 1..]
        == o.inline[i + 1..] + Founds(x.name, x.schema.properties);
  }

  /** The loop over the growing list: it ends because the schema still to do only shrinks. */
  function Drain(o: Out, i: nat): Out
    requires i <= |o.inline|
    decreases InlineSize(o.inline[i..])
  {
    if i == |o.inline| then o
    else
      TurnShrinks(o, i);
      Drain(EmitStruct(o, o.inline[i].name, o.inline[i].schema), i + 1)
  }

  ghost function RenderTypes(oracle: Oracle, defs: seq<Prop>): Out {
    Drain(RenderDefs(oracle, defs, NOTHING), 0)
  }
}
