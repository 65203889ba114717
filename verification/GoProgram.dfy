/**
 The generated file as a whole, and the schema as a whole: references resolved through the
 definitions on one side, type names through the declarations on the other.
 */
module GoProgram {
  import opened Json
  import opened Prelude
  import opened Text
  import opened GoNames
  import opened GoSchema
  import opened GoKinds
  import opened GoWiden
  import opened GoRender
  import opened GoDeclared
  import opened GoDecoding
  import opened GoFields
  import opened GoJoins
  import opened GoStructs
  import opened GoRuns
  import opened GoSound

  // The schema's side: a reference admits what the definition it leads to admits.

  /** All integers in the value fit an int64. */
  predicate AllSmall(v: Value) {
    match v
    case Whole(_) => FitsInt64(v)
    case Arr(elems) => forall k :: 0 <= k < |elems| ==> AllSmall(elems[k])
    case Obj(members) => forall k :: 0 <= k < |members| ==> AllSmall(members[k].value)
    case _ => true
  }

  /** Tagged unions join integer types to int64; a value with larger ones is out of their reach. */
  predicate InReach(defs: seq<Prop>, v: Value) {
    (exists i :: 0 <= i < |defs| && IsUnionDef(defs[i].schema)) ==> AllSmall(v)
  }

  /** The reference admits the value, on a way that follows fewer than k references. */
  ghost predicate RefAdmits(defs: seq<Prop>, k: nat, ref: string, v: Value)
    decreases k, 0
  {
    && InReach(defs, v) && k > 0
    && exists i :: 0 <= i < |defs| && defs[i].name == AfterLastSlash(ref) && Admits(RefsOf(defs, k - 1), defs[i].schema, v)
  }

  ghost function RefsOf(defs: seq<Prop>, k: nat): Meaning
    decreases k, 1
  {
    (ref, v) => RefAdmits(defs, k, ref, v)
  }

  // Go's side: a name takes what its declaration takes.

  predicate IsBase64(s: string) {
    && |s| % 4 == 0
    && forall i :: 0 <= i < |s| ==> IsAlphanumeric(s[i]) || s[i] in "+/" || (s[i] == '=' && i >= |s| - 2)
  }

  /** What encoding/json decodes into a []byte, as a type defined over raw JSON is one. */
  predicate IsBytes(v: Value) {
    || v.Null? || (v.Str? && IsBase64(v.text))
    || (v.Arr? && forall k :: 0 <= k < |v.elems| ==> v.elems[k].Null? || (v.elems[k].Whole? && 0 <= v.elems[k].n < 256))
  }

  /** A variable of the named type takes the value, on a way that looks up at most n names. */
  ghost predicate NamedDecodes(decls: seq<Decl>, n: nat, name: string, v: Value)
    decreases n, 1
  {
    n > 0 && exists d :: d in decls && d.name == name && TakesIn(decls, n, d, v)
  }

  ghost predicate TakesIn(decls: seq<Decl>, n: nat, d: Decl, v: Value)
    requires n > 0
    decreases n, 0
  {
    DeclDecodes(NamedOf(decls, n - 1), UnderOf(decls, n - 1), d, v)
  }

  /** The same for a type defined over the named one: it has its structure but, over raw JSON, not its methods. */
  ghost predicate UnderDecodes(decls: seq<Decl>, n: nat, name: string, v: Value)
    decreases n, 1
  {
    n > 0 && exists d :: d in decls && d.name == name && TakesUnder(decls, n, d, v)
  }

  ghost predicate TakesUnder(decls: seq<Decl>, n: nat, d: Decl, v: Value)
    requires n > 0
    decreases n, 0
  {
    if d.AliasDecl? && d.transparent then IsBytes(v) else DeclDecodes(NamedOf(decls, n - 1), UnderOf(decls, n - 1), d, v)
  }

  ghost function NamedOf(decls: seq<Decl>, n: nat): Meaning
    decreases n, 2
  {
    (name, v) => NamedDecodes(decls, n, name, v)
  }

  ghost function UnderOf(decls: seq<Decl>, n: nat): Meaning
    decreases n, 2
  {
    (name, v) => UnderDecodes(decls, n, name, v)
  }

  // More look-ups never hurt.

  ghost predicate Within(a: Meaning, b: Meaning) {
    forall name, v: Value :: a(name, v) ==> b(name, v)
  }

  lemma {:induction false} DecodesMore(a: Meaning, b: Meaning, typ: GoType, v: Value)
    requires Within(a, b) && Decodes(a, typ, v)
    ensures Decodes(b, typ, v)
    decreases typ
  {
    if typ.Slice? && v.Arr? {
      forall k | 0 <= k < |v.elems|
        ensures Decodes(b, typ.elem, v.elems[k])
      {
        DecodesMore(a, b, typ.elem, v.elems[k]);
      }
    } else if typ.MapOf? && v.Obj? {
      forall k | 0 <= k < |v.members|
        ensures Decodes(b, typ.elem, v.members[k].value)
      {
        DecodesMore(a, b, typ.elem, v.members[k].value);
      }
    }
  }

  lemma DeclDecodesMore(a: Meaning, b: Meaning, c: Meaning, e: Meaning, d: Decl, v: Value)
    requires Within(a, b) && Within(c, e) && DeclDecodes(a, c, d, v)
    ensures DeclDecodes(b, e, d, v)
  {
    hide Decodes;
    if !v.Null? && d.StructDecl? {
      forall i, k | 0 <= i < |d.fields| && 0 <= k < |v.members|
        ensures MemberFits(b, d.fields[i], v.members[k])
      {
        assert MemberFits(a, d.fields[i], v.members[k]);
        if v.members[k].key == d.fields[i].json {
          DecodesMore(a, b, d.fields[i].typ, v.members[k].value);
        }
      }
    } else if !v.Null? && d.AliasDecl? && !d.transparent && !d.target.Named? {
      DecodesMore(a, b, d.target, v);
    }
  }

  lemma {:induction false} MoreLookups(decls: seq<Decl>, m: nat, n: nat)
    requires m <= n
    ensures Within(NamedOf(decls, m), NamedOf(decls, n)) && Within(UnderOf(decls, m), UnderOf(decls, n))
    decreases m
  {
    hide DeclDecodes, IsBytes;
    if m > 0 {
      MoreLookups(decls, m - 1, n - 1);
    }
    forall name, v: Value | NamedOf(decls, m)(name, v)
      ensures NamedOf(decls, n)(name, v)
    {
      assert NamedDecodes(decls, m, name, v);
      var d :| d in decls && d.name == name && TakesIn(decls, m, d, v);
      DeclDecodesMore(NamedOf(decls, m - 1), NamedOf(decls, n - 1), UnderOf(decls, m - 1), UnderOf(decls, n - 1), d, v);
      assert TakesIn(decls, n, d, v);
    }
    forall name, v: Value | UnderOf(decls, m)(name, v)
      ensures UnderOf(decls, n)(name, v)
    {
      assert UnderDecodes(decls, m, name, v);
      var d :| d in decls && d.name == name && TakesUnder(decls, m, d, v);
      if !(d.AliasDecl? && d.transparent) {
        DeclDecodesMore(NamedOf(decls, m - 1), NamedOf(decls, n - 1), UnderOf(decls, m - 1), UnderOf(decls, n - 1), d, v);
      }
      assert TakesUnder(decls, n, d, v);
    }
  }

  // Every definition and every anonymous object has its declaration.

  /** No two definitions, unions' tag types or anonymous objects are after one name. */
  ghost predicate Apart(oracle: Oracle, defs: seq<Prop>) {
    && !Clash(defs)
    && (forall i :: 0 <= i < |defs| ==> ExportName(defs[i].name) !in Taken(defs[..i]))
    && var l := RenderTypes(oracle, defs).inline;
       && (forall i, j :: 0 <= i < j < |l| ==> l[i].name != l[j].name)
       && forall i :: 0 <= i < |l| ==> l[i].name !in Taken(defs)
  }

  lemma InlineFromNothing(oracle: Oracle, o: Out, p: Prop)
    requires ExportName(p.name) !in o.emitted
    ensures RenderDef(oracle, o, ExportName(p.name), p.schema).inline == o.inline + OwnInline(oracle, p)
  {
    hide MapType, Dedup, ArmTexts, EnumUnion, IsNamedEnum, TaggedUnion, Texts, ExportName, Fields, Founds, Flatten, UnionFields, TagField;
    var name, s := ExportName(p.name), p.schema;
    if IsUnionDef(s) {
      FlatListed(oracle(name), name, TaggedUnion(s).value, ArmProps(s.oneOf));
    }
  }

  lemma {:induction false} InlineOnlyAppends(oracle: Oracle, todo: seq<Prop>, i: nat)
    requires i <= |todo|
    ensures RenderDefs(oracle, todo[..i], NOTHING).inline <= RenderDefs(oracle, todo, NOTHING).inline
    decreases |todo|
  {
    hide RenderDef, ExportName;
    if i == |todo| {
      assert todo[..i] == todo;
    } else {
      var n := |todo| - 1;
      InlineOnlyAppends(oracle, todo[..n], i);
      assert todo[..n][..i] == todo[..i];
      InlineAppends(oracle, RenderDefs(oracle, todo[..n], NOTHING), todo[n]);
    }
  }

  lemma InlineAppends(oracle: Oracle, o: Out, p: Prop)
    ensures o.inline <= RenderDef(oracle, o, ExportName(p.name), p.schema).inline
  {
    if ExportName(p.name) !in o.emitted {
      InlineFromNothing(oracle, o, p);
      hide RenderDef, ExportName;
    }
  }

  lemma DefinitionPresent(oracle: Oracle, defs: seq<Prop>, i: nat)
    requires i < |defs| && ExportName(defs[i].name) !in Taken(defs[..i])
    ensures forall d <- OwnDecls(oracle, defs[i]) :: d in RenderTypes(oracle, defs).decls
    ensures forall x <- OwnInline(oracle, defs[i]) :: x in RenderTypes(oracle, defs).inline
  {
    hide RenderDef, ExportName, OwnDecls, OwnInline, Drain, Taken, Clash, NoDuplicates, Names, Tracks;
    var before, all := RenderDefs(oracle, defs[..i], NOTHING), RenderDefs(oracle, defs, NOTHING);
    DefsDeclare(oracle, defs[..i]);
    DefFromNothing(oracle, before, defs[i]);
    InlineFromNothing(oracle, before, defs[i]);
    var after := RenderDefs(oracle, defs[..i + 1], NOTHING);
    assert defs[..i + 1][..i] == defs[..i];
    assert after == RenderDef(oracle, before, ExportName(defs[i].name), defs[i].schema);
    DefsOnlyAppend(oracle, defs, i + 1);
    InlineOnlyAppends(oracle, defs, i + 1);
    DrainWrites(all, 0);
    hide RenderDefs;
    InPrefix(after.decls, all.decls, RenderTypes(oracle, defs).decls);
    InPrefix(after.inline, all.inline, RenderTypes(oracle, defs).inline);
  }

  lemma InPrefix<T>(a: seq<T>, b: seq<T>, c: seq<T>)
    requires a <= b <= c
    ensures forall x :: x in a ==> x in c
  {
    forall x | x in a
      ensures x in c
    {
      var i :| 0 <= i < |a| && a[i] == x;
      assert c[i] == x;
    }
  }

  /** On a list without repeated or taken names, every object gets its struct and its own objects a place. */
  lemma {:induction false} DrainServes(o: Out, i: nat, j: nat)
    requires i <= |o.inline| && i <= j < |Drain(o, i).inline|
    requires var l := Drain(o, i).inline;
      && (forall a, b :: 0 <= a < b < |l| ==> l[a].name != l[b].name)
      && forall a :: i <= a < |l| ==> l[a].name !in o.emitted
    ensures var t := Drain(o, i);
      && OwnStruct(t.inline[j]) in t.decls
      && forall y <- Founds(t.inline[j].name, t.inline[j].schema.properties) :: y in t.inline
    decreases InlineSize(o.inline[i..])
  {
    hide InlineSize;
    if i < |o.inline| {
      TurnShrinks(o, i);
      DrainWrites(o, i);
      var t, x := Drain(o, i), o.inline[i];
      var next := EmitStruct(o, x.name, x.schema);
      assert t.inline[i] == x;
      NextServes(o, x);
      hide EmitStruct;
      assert Drain(next, i + 1) == t;
      DrainWrites(next, i + 1);
      if j > i {
        DrainServes(next, i + 1, j);
      } else {
        hide Drain;
        assert OwnStruct(x) in next.decls;
      }
    }
  }

  lemma NextServes(o: Out, x: Inline)
    requires x.name !in o.emitted
    ensures var t := EmitStruct(o, x.name, x.schema);
      && OwnStruct(x) in t.decls && t.emitted == o.emitted + {x.name}
      && forall y <- Founds(x.name, x.schema.properties) :: y in t.inline
  {
    hide Fields, Founds;
    assert (o.decls + [OwnStruct(x)])[|o.decls|] == OwnStruct(x);
  }

  lemma ObjectPresent(oracle: Oracle, defs: seq<Prop>, j: nat)
    requires Apart(oracle, defs) && j < |RenderTypes(oracle, defs).inline|
    ensures var t := RenderTypes(oracle, defs);
      && OwnStruct(t.inline[j]) in t.decls
      && forall y <- Founds(t.inline[j].name, t.inline[j].schema.properties) :: y in t.inline
  {
    hide RenderDefs, Drain, Taken, Clash, NoDuplicates, Names, Tracks, Fields, Founds;
    DefsDeclare(oracle, defs);
    DrainServes(RenderDefs(oracle, defs, NOTHING), 0, j);
  }

  // jsonKind tells the truth.

  /** What jsonKind reads off a definition is what the definition is written as. */
  ghost predicate KindMatches(p: Prop) {
    var s, typ := p.schema, MapType(p.schema, ExportName(p.name), "").typ;
    && (OwnKind(s) != NoKind ==>
          IsNamedEnum(s) || EnumUnion(s) || (IsAliasDef(s) && !typ.Named? && BuiltinKind(typ) == OwnKind(s)))
    && (HopOf(s).Some? ==> IsAliasDef(s) && typ == HopOf(s).value)
  }

  lemma OwnAlias(oracle: Oracle, p: Prop)
    requires IsAliasDef(p.schema)
    ensures var typ := MapType(p.schema, ExportName(p.name), "").typ;
      OwnDecls(oracle, p) == [AliasDecl(ExportName(p.name), typ, typ == RawJson)]
  {
    hide ExportName, MapType, EnumUnion, TaggedUnion, IsStringEnum;
  }

  lemma OwnEnum(oracle: Oracle, p: Prop)
    requires IsNamedEnum(p.schema) || EnumUnion(p.schema)
    ensures OwnDecls(oracle, p) != [] && OwnDecls(oracle, p)[0].EnumDecl?
    ensures OwnKind(p.schema) == StringKind
  {
    hide ExportName, Texts, Dedup, ArmTexts, Base;
  }

  lemma BuiltinTakes(named: Meaning, t: GoType, v: Value)
    requires !t.Named? && Decodes(named, t, v) && !v.Null?
    ensures OfKind(BuiltinKind(t), v)
  {
  }

  /** Whatever the declaration of a definition takes is of the kind jsonKind says without asking on. */
  lemma SaidIsSo(oracle: Oracle, p: Prop, named: Meaning, under: Meaning, v: Value)
    requires KindMatches(p) && HopOf(p.schema).None? && OwnDecls(oracle, p) != [] && !v.Null?
    requires var d := OwnDecls(oracle, p)[0]; (d.AliasDecl? && d.transparent) || DeclDecodes(named, under, d, v)
    ensures OfKind(OwnKind(p.schema), v)
  {
    hide OwnKind, HopOf, MapType, EnumUnion, TaggedUnion, IsStringEnum, OwnDecls, OfKind, Decodes, ExportName;
    if OwnKind(p.schema) != NoKind {
      if IsNamedEnum(p.schema) || EnumUnion(p.schema) {
        OwnEnum(oracle, p);
        StringsAreText(v);
      } else {
        OwnAlias(oracle, p);
        var t := MapType(p.schema, ExportName(p.name), "").typ;
        if t != RawJson {
          BuiltinTakes(named, t, v);
        }
      }
    } else {
      AnythingGoes(v);
    }
  }

  lemma StringsAreText(v: Value)
    ensures v.Str? ==> OfKind(StringKind, v)
  {
  }

  lemma AnythingGoes(v: Value)
    ensures OfKind(NoKind, v)
  {
  }

  /** The declaration that carries the name of a definition is its own. */
  lemma OwnIsTheOne(oracle: Oracle, defs: seq<Prop>, i: nat, d: Decl)
    requires Apart(oracle, defs) && i < |defs|
    requires d in RenderTypes(oracle, defs).decls && d.name == ExportName(defs[i].name)
    ensures OwnDecls(oracle, defs[i]) != [] && d == OwnDecls(oracle, defs[i])[0]
  {
    hide RenderTypes, Clash, Taken, NoDuplicates, Names, RenderDef, ExportName;
    DeclaredOnce(oracle, defs);
    DefinitionPresent(oracle, defs, i);
    DefFromNothing(oracle, NOTHING, defs[i]);
    OneOfAName(RenderTypes(oracle, defs).decls, d, OwnDecls(oracle, defs[i])[0]);
  }

  ghost predicate KindsMatch(defs: seq<Prop>) {
    forall i :: 0 <= i < |defs| ==> KindMatches(defs[i])
  }

  /** The value is taken under this name, by a variable of the type or of one defined over it. */
  ghost predicate TakenAs(decls: seq<Decl>, n: nat, name: string, v: Value) {
    NamedDecodes(decls, n, name, v) || UnderDecodes(decls, n, name, v)
  }

  lemma TakenBy(decls: seq<Decl>, n: nat, name: string, v: Value) returns (d: Decl)
    requires TakenAs(decls, n, name, v)
    ensures n > 0 && d in decls && d.name == name
    ensures (d.AliasDecl? && d.transparent) || DeclDecodes(NamedOf(decls, n - 1), UnderOf(decls, n - 1), d, v)
  {
    hide DeclDecodes, IsBytes;
    if NamedDecodes(decls, n, name, v) {
      d :| d in decls && d.name == name && TakesIn(decls, n, d, v);
    } else {
      d :| d in decls && d.name == name && TakesUnder(decls, n, d, v);
    }
  }

  /** Along the calls jsonKind makes, what is taken under one name is taken under the next. */
  lemma {:induction false} TrailKind(
      oracle: Oracle, defs: seq<Prop>, p: seq<GoType>, j: nat, k: Kind, n: nat, v: Value)
    requires Apart(oracle, defs) && KindsMatch(defs)
    requires Trail(defs, p) && MayTake(defs, p[|p| - 1], Says(k)) && j < |p| && p[j].Named?
    requires TakenAs(RenderTypes(oracle, defs).decls, n, p[j].name, v) && !v.Null?
    ensures OfKind(k, v)
    decreases |p| - j
  {
    hide RenderTypes, Apart, KindMatches, ExportName, OfKind, OwnKind, HopOf, DeclDecodes, TakenAs, OwnDecls;
    var decls := RenderTypes(oracle, defs).decls;
    if Declared(defs, p[j].name) {
      var turn := if j == |p| - 1 then Says(k) else Asks(p[j + 1]);
      assert MayTake(defs, p[j], turn);
      var i: nat :| Declares(defs, i, p[j].name) && turn == TurnOf(defs[i].schema);
      var d := TakenBy(decls, n, p[j].name, v);
      OwnIsTheOne(oracle, defs, i, d);
      if j == |p| - 1 {
        SaidIsSo(oracle, defs[i], NamedOf(decls, n - 1), UnderOf(decls, n - 1), v);
      } else {
        NextIsTaken(oracle, defs[i], p[j + 1], decls, n, v);
        TrailKind(oracle, defs, p, j + 1, k, n - 1, v);
      }
    } else {
      Undeclared(defs, p, j, k);
      AnythingGoes(v);
    }
  }

  lemma Undeclared(defs: seq<Prop>, p: seq<GoType>, j: nat, k: Kind)
    requires Trail(defs, p) && MayTake(defs, p[|p| - 1], Says(k)) && j < |p| && p[j].Named? && !Declared(defs, p[j].name)
    ensures k == NoKind
  {
    hide ExportName, TurnOf, Declares;
    assert j < |p| - 1 ==> MayTake(defs, p[j], Asks(p[j + 1]));
  }

  /** A definition jsonKind asks on from is written as a type over the one it asks about. */
  lemma NextIsTaken(oracle: Oracle, p: Prop, next: GoType, decls: seq<Decl>, n: nat, v: Value)
    requires KindMatches(p) && HopOf(p.schema) == Some(next) && OwnDecls(oracle, p) != [] && !v.Null? && n > 0
    requires var d := OwnDecls(oracle, p)[0];
      (d.AliasDecl? && d.transparent) || DeclDecodes(NamedOf(decls, n - 1), UnderOf(decls, n - 1), d, v)
    ensures next.Named? && TakenAs(decls, n - 1, next.name, v)
  {
    hide MapType, IsAliasDef, OwnKind, HopOf, OwnDecls, ExportName, UnderDecodes, NamedDecodes, Decodes, MembersFit;
    HopIsNamed(p.schema);
    OwnAlias(oracle, p);
  }

  lemma HopIsNamed(s: Schema)
    ensures HopOf(s).Some? ==> HopOf(s).value.Named?
  {
    hide OwnKind, Base, RefName;
  }

  /** Whatever jsonKind may answer for a type is so of every value that decodes into it. */
  lemma KindsAreSound(oracle: Oracle, defs: seq<Prop>, n: nat)
    requires Apart(oracle, defs) && KindsMatch(defs)
    ensures KindsSound(defs, NamedOf(RenderTypes(oracle, defs).decls, n))
  {
    hide Apart, KindsMatch, RenderTypes, MayTake, OfKind;
    var decls := RenderTypes(oracle, defs).decls;
    forall t, k, v: Value | MayAnswer(defs, t, k) && Decodes(NamedOf(decls, n), t, v) && !v.Null?
      ensures OfKind(k, v)
    {
      if t.Named? {
        var p :| TrailFrom(defs, t, p) && MayTake(defs, p[|p| - 1], Says(k));
        assert NamedOf(decls, n)(t.name, v);
        assert TakenAs(decls, n, t.name, v);
        TrailKind(oracle, defs, p, 0, k, n, v);
      } else {
        BuiltinAnswer(defs, t, k);
        BuiltinTakes(NamedOf(decls, n), t, v);
      }
    }
  }

  // The program decodes what the schema admits.

  predicate NamesOnly(p: Prop, q: Prop) {
    IsAliasDef(p.schema) && MapType(p.schema, ExportName(p.name), "").typ == Named(ExportName(q.name))
  }

  /** No definition is nothing but a name for one that is written as raw JSON. */
  ghost predicate NoRawBehind(defs: seq<Prop>) {
    forall i, j :: 0 <= i < |defs| && 0 <= j < |defs| && NamesOnly(defs[i], defs[j]) && IsAliasDef(defs[j].schema) ==>
      !Undescribed(defs[j].schema)
  }

  /**
   Definitions the generator is made for: names apart, nothing in them beyond the mapping,
   and kinds that can be read off them.
   */
  ghost predicate WellFormed(oracle: Oracle, defs: seq<Prop>) {
    && Apart(oracle, defs) && KindsMatch(defs) && NoRawBehind(defs)
    && (forall i :: 0 <= i < |defs| ==> RegularDef(defs[i].schema))
    && forall x <- RenderTypes(oracle, defs).inline :: RegularObject(x.schema)
  }

  /** More than any definition is large: the look-ups one reference may cost. */
  function Cost(defs: seq<Prop>): nat {
    PropsSize(defs) + 2
  }

  lemma {:induction false} NoLargerThanAll(l: seq<Inline>, x: Inline)
    requires x in l
    ensures Size(x.schema) <= InlineSize(l)
    decreases |l|
  {
    if x != l[0] {
      NoLargerThanAll(l[1..], x);
    }
  }

  lemma FoundIsSmaller(name: string, s: Schema, y: Inline)
    requires y in Founds(name, s.properties)
    ensures Size(y.schema) < Size(s)
  {
    hide Founds, InlineSize, Size, PropsSize;
    NoLargerThanAll(Founds(name, s.properties), y);
    FoundsSize(name, s.properties);
    PropsSmaller(s);
  }

  /** How many look-ups a way of k references may cost. */
  function Budget(defs: seq<Prop>, k: nat): nat
    decreases k
  {
    if k == 0 then 0 else Budget(defs, k - 1) + Cost(defs)
  }

  /** The definition a reference leads to takes the value, with this many look-ups. */
  ghost predicate TakenAt(oracle: Oracle, defs: seq<Prop>, n: nat, ref: string, w: Value, i: nat) {
    && i < |defs| && defs[i].name == AfterLastSlash(ref)
    && n > 0 && TakesIn(RenderTypes(oracle, defs).decls, n, OwnDecl(oracle, defs[i]), w)
  }

  /** What references of k steps admit is taken. */
  ghost predicate Reached(oracle: Oracle, defs: seq<Prop>, k: nat) {
    forall ref, w: Value :: RefAdmits(defs, k, ref, w) ==> exists i: nat :: TakenAt(oracle, defs, Budget(defs, k), ref, w, i)
  }

  lemma ReachedMore(oracle: Oracle, defs: seq<Prop>, k: nat, n: nat)
    requires Apart(oracle, defs) && Reached(oracle, defs, k) && Budget(defs, k) <= n
    ensures RefsDecode(RefsOf(defs, k), NamedOf(RenderTypes(oracle, defs).decls, n))
  {
    hide RenderTypes, RefAdmits, NamedDecodes, ExportName, AfterLastSlash, Budget, OwnDecls, OwnInline, TakesIn, Clash, Taken;
    var decls, b := RenderTypes(oracle, defs).decls, Budget(defs, k);
    MoreLookups(decls, b, n);
    forall ref, w: Value | RefsOf(defs, k)(ref, w)
      ensures NamedOf(decls, n)(ExportName(AfterLastSlash(ref)), w)
    {
      assert RefAdmits(defs, k, ref, w);
      var i: nat :| TakenAt(oracle, defs, b, ref, w, i);
      DefinitionPresent(oracle, defs, i);
      OwnDeclIs(oracle, defs[i]);
      TakenNames(decls, b, OwnDecl(oracle, defs[i]), w);
      assert NamedOf(decls, b)(ExportName(AfterLastSlash(ref)), w);
    }
  }

  lemma TakenNames(decls: seq<Decl>, n: nat, d: Decl, v: Value)
    requires n > 0 && d in decls && TakesIn(decls, n, d, v)
    ensures NamedDecodes(decls, n, d.name, v)
    ensures !(d.AliasDecl? && d.transparent) ==> UnderDecodes(decls, n, d.name, v)
  {
    hide DeclDecodes;
    assert !(d.AliasDecl? && d.transparent) ==> TakesUnder(decls, n, d, v);
  }

  /** An anonymous object takes what its schema admits, given as many look-ups as it is large beyond those for references. */
  ghost predicate ObjectsTaken(decls: seq<Decl>, defs: seq<Prop>, k: nat, l: seq<Inline>) {
    forall x, w: Value, n: nat :: x in l && Admits(RefsOf(defs, k), x.schema, w) && n >= Budget(defs, k) + Size(x.schema) ==>
      NamedDecodes(decls, n, x.name, w)
  }

  lemma ObjectsFound(decls: seq<Decl>, defs: seq<Prop>, k: nat, l: seq<Inline>, n: nat)
    requires ObjectsTaken(decls, defs, k, l) && forall x <- l :: n >= Budget(defs, k) + Size(x.schema)
    ensures AllFoundDecode(RefsOf(defs, k), NamedOf(decls, n), l)
  {
    hide Admits, NamedDecodes, Budget, Size;
  }

  lemma {:induction false} ObjectTaken(oracle: Oracle, defs: seq<Prop>, k: nat, x: Inline, w: Value, n: nat)
    requires WellFormed(oracle, defs) && x in RenderTypes(oracle, defs).inline
    requires Reached(oracle, defs, k)
    requires Admits(RefsOf(defs, k), x.schema, w) && n >= Budget(defs, k) + Size(x.schema)
    ensures NamedDecodes(RenderTypes(oracle, defs).decls, n, x.name, w)
    decreases Size(x.schema)
  {
    hide WellFormed, RenderTypes, Apart, RegularObject, Admits, Size, Founds, NamedDecodes, Budget, Reached, RefsDecode, AllFoundDecode, OwnStruct;
    var t := RenderTypes(oracle, defs);
    var founds := Founds(x.name, x.schema.properties);
    WellFormedObject(oracle, defs, x);
    SizeIsPositive(x.schema);
    ReachedMore(oracle, defs, k, n - 1);
    var j :| 0 <= j < |t.inline| && t.inline[j] == x;
    ObjectPresent(oracle, defs, j);
    forall y | y in founds
      ensures y in t.inline && Size(y.schema) < Size(x.schema)
    {
      FoundIsSmaller(x.name, x.schema, y);
    }
    forall y, u: Value, m: nat | y in founds && Admits(RefsOf(defs, k), y.schema, u) && m >= Budget(defs, k) + Size(y.schema)
      ensures NamedDecodes(t.decls, m, y.name, u)
    {
      ObjectTaken(oracle, defs, k, y, u, m);
    }
    assert ObjectsTaken(t.decls, defs, k, founds);
    hide ObjectsTaken;
    ObjectsFound(t.decls, defs, k, founds, n - 1);
    ObjectStructTaken(t.decls, defs, k, x, w, n);
  }

  lemma WellFormedObject(oracle: Oracle, defs: seq<Prop>, x: Inline)
    requires WellFormed(oracle, defs) && x in RenderTypes(oracle, defs).inline
    ensures Apart(oracle, defs) && RegularObject(x.schema)
  {
    hide RenderTypes, Apart, KindsMatch, NoRawBehind, RegularDef, RegularObject;
  }

  lemma ObjectStructTaken(decls: seq<Decl>, defs: seq<Prop>, k: nat, x: Inline, w: Value, n: nat)
    requires n > 0 && RegularObject(x.schema) && OwnStruct(x) in decls && Admits(RefsOf(defs, k), x.schema, w)
    requires RefsDecode(RefsOf(defs, k), NamedOf(decls, n - 1))
    requires AllFoundDecode(RefsOf(defs, k), NamedOf(decls, n - 1), Founds(x.name, x.schema.properties))
    ensures NamedDecodes(decls, n, x.name, w)
  {
    hide RegularObject, Admits, RefsDecode, AllFoundDecode, Founds, Fields, DeclDecodes;
    ObjectDecodes(RefsOf(defs, k), NamedOf(decls, n - 1), UnderOf(decls, n - 1), x.name, x.schema, w);
    TakenIs(decls, n, OwnStruct(x), w);
  }

  lemma SizeIsPositive(s: Schema)
    ensures Size(s) > 0
  {
  }

  lemma TakenIs(decls: seq<Decl>, n: nat, d: Decl, v: Value)
    requires n > 0 && d in decls && DeclDecodes(NamedOf(decls, n - 1), UnderOf(decls, n - 1), d, v)
    ensures NamedDecodes(decls, n, d.name, v)
  {
    hide DeclDecodes;
    assert TakesIn(decls, n, d, v);
  }

  // What a definition asks for by itself is part of it.

  lemma {:induction false} FlatFound(draws: Draws, owner: string, tag: string, props: seq<Prop>, y: Inline)
    requires y in AddProps(draws, owner, tag, props).found
    ensures exists q <- props :: y in FoundBy(owner, q)
    decreases |props|
  {
    hide MapType, FoundBy, Join, Texts;
    var before, last := props[..|props| - 1], props[|props| - 1];
    assert props == before + [last];
    if y in AddProps(draws, owner, tag, before).found {
      FlatFound(draws, owner, tag, before, y);
    }
  }

  lemma {:induction false} PropNoLarger(props: seq<Prop>, q: Prop)
    requires q in props
    ensures Size(q.schema) <= PropsSize(props)
  {
    if q != props[0] {
      PropNoLarger(props[1..], q);
    }
  }

  lemma UnionFoundSmaller(draws: Draws, name: string, s: Schema, tag: string, y: Inline)
    requires y in Flatten(draws, name, tag, s.oneOf).found
    ensures Size(y.schema) < Size(s)
  {
    FlatFound(draws, name, tag, ArmProps(s.oneOf), y);
    var q :| q in ArmProps(s.oneOf) && y in FoundBy(name, q);
    ArmPropsMember(s.oneOf, q);
    var arm :| arm in s.oneOf && q in arm.properties;
    PropNoLarger(arm.properties, q);
    PropsSmaller(arm);
    ListSizeBounds(s.oneOf, arm);
    FoundNoLarger(name, q, y);
    ListSmaller(s);
    hide Size, PropsSize, ListSize, ArmProps;
  }

  lemma FoundNoLarger(owner: string, q: Prop, y: Inline)
    requires y in FoundBy(owner, q)
    ensures Size(y.schema) <= Size(q.schema)
  {
    hide MapType, Size;
    assert MapType(q.schema, owner, q.name).found == Some(y);
  }

  lemma ListSmaller(s: Schema)
    ensures ListSize(s.oneOf) < Size(s)
  {
  }

  lemma OwnInlineNoLarger(oracle: Oracle, p: Prop, y: Inline)
    requires y in OwnInline(oracle, p)
    ensures Size(y.schema) <= Size(p.schema)
  {
    hide ExportName, EmitUnion, EmitStruct, MapType, Dedup, Texts, ArmTexts, EnumUnion, TaggedUnion, IsStringEnum, Size;
    var name, s := ExportName(p.name), p.schema;
    if IsUnionDef(s) {
      OwnUnion(oracle(name), name, s, TaggedUnion(s).value);
      UnionFoundSmaller(oracle(name), name, s, TaggedUnion(s).value, y);
    } else if !IsAliasDef(s) {
      OwnObject(name, s);
      FoundIsSmaller(name, s, y);
    }
  }

  // Aliases.

  lemma {:induction false} FoundName(s: Schema, owner: string, field: string)
    ensures MapType(s, owner, field).found.Some? ==> MapType(s, owner, field).found.value.name == ExportName(owner + "_" + field)
    decreases Size(s), 2
  {
    hide ExportName, Base;
    BaseIsNoLarger(s);
    FoundNameBare(Base(s), owner, field);
  }

  lemma {:induction false} FoundNameBare(b: Schema, owner: string, field: string)
    ensures MapBase(b, owner, field).found.Some? ==> MapBase(b, owner, field).found.value.name == ExportName(owner + "_" + field)
    decreases Size(b), 1
  {
    hide ExportName, RefName, EnumUnion, FirstConcrete, MapType;
    SizeParts(b);
    hide Size;
    if b.ref != "" {
    } else if |b.allOf| == 1 {
      FoundName(b.allOf[0], owner, field);
    } else if b.enum == [] {
      if b.items.Some? {
        FoundName(b.items.value, owner, field);
      }
      if b.additional.SchemaExtra? {
        FoundName(b.additional.schema, owner, field);
      }
    }
  }

  lemma TrailingUnderscore(x: string)
    ensures ExportName(ExportName(x) + "_" + "") == ExportName(x)
  {
    ExportNameIdempotent(x);
    hide ExportName;
    var y := ExportName(x);
    SeparatorVanishes(y, "", '_');
    assert y + "_" + "" == y + ['_'] + "";
    EmptyCamel();
    hide Camel;
    SameCamel(y + "_" + "", y);
  }

  lemma EmptyCamel()
    ensures Camel("", true) == ""
  {
  }

  lemma SameCamel(x: string, y: string)
    requires Camel(x, true) == Camel(y, true)
    ensures ExportName(x) == ExportName(y)
  {
    hide RewriteAll, INITIALISMS, NoLeadingDigit, Camel;
  }

  /** An anonymous object an alias asks for would take the name of the alias itself. */
  lemma AliasFindsNothing(oracle: Oracle, defs: seq<Prop>, i: nat)
    requires Apart(oracle, defs) && i < |defs| && IsAliasDef(defs[i].schema)
    ensures MapType(defs[i].schema, ExportName(defs[i].name), "").found.None?
  {
    hide RenderTypes, Clash, Taken, MapType, EnumUnion, TaggedUnion, IsStringEnum;
    var p := defs[i];
    var found := MapType(p.schema, ExportName(p.name), "").found;
    if found.Some? {
      FoundName(p.schema, ExportName(p.name), "");
      TrailingUnderscore(p.name);
      AliasInline(oracle, p);
      DefinitionPresent(oracle, defs, i);
      ObjectIsNoDefinition(oracle, defs, i, found.value);
    }
  }

  lemma ObjectIsNoDefinition(oracle: Oracle, defs: seq<Prop>, i: nat, x: Inline)
    requires Apart(oracle, defs) && i < |defs| && x in RenderTypes(oracle, defs).inline
    ensures x.name != ExportName(defs[i].name)
  {
    hide RenderTypes, Clash, Taken, ExportName;
    DefinitionsTaken(defs);
    assert ExportName(defs[i].name) in ExportedNames(defs);
    var l := RenderTypes(oracle, defs).inline;
    var j :| 0 <= j < |l| && l[j] == x;
  }

  lemma AliasInline(oracle: Oracle, p: Prop)
    requires IsAliasDef(p.schema) && MapType(p.schema, ExportName(p.name), "").found.Some?
    ensures MapType(p.schema, ExportName(p.name), "").found.value in OwnInline(oracle, p)
  {
    hide ExportName, MapType, EnumUnion, TaggedUnion, IsStringEnum;
  }

  lemma TransparentIsRaw(oracle: Oracle, p: Prop)
    requires OwnDecls(oracle, p) != [] && OwnDecls(oracle, p)[0].AliasDecl? && OwnDecls(oracle, p)[0].transparent
    ensures IsAliasDef(p.schema) && Undescribed(p.schema)
  {
    RawExactly(p.schema, ExportName(p.name), "");
    hide ExportName, MapType, EnumUnion, TaggedUnion, IsStringEnum, Undescribed, EmitUnion, EmitStruct, Dedup, Texts, ArmTexts;
    if !IsAliasDef(p.schema) {
      OwnStructOrUnion(oracle, p);
    }
  }

  lemma OwnStructOrUnion(oracle: Oracle, p: Prop)
    requires !IsAliasDef(p.schema) && OwnDecls(oracle, p) != []
    ensures !OwnDecls(oracle, p)[0].AliasDecl?
  {
    hide ExportName, Texts, Dedup, ArmTexts, EnumUnion, IsStringEnum, TaggedUnion, Fields, Founds;
    var name, s := ExportName(p.name), p.schema;
    if IsUnionDef(s) {
      UnionWritten(oracle(name), name, s, TaggedUnion(s).value);
      hide EmitUnion, Flatten;
    }
  }

  /** A name as a variable of it takes it, but for one, taken as a type defined over it does. */
  ghost function Over(decls: seq<Decl>, n: nat, target: string): Meaning {
    (name, v) => if name == target then UnderDecodes(decls, n, name, v) else NamedDecodes(decls, n, name, v)
  }

  lemma ReachedOver(oracle: Oracle, defs: seq<Prop>, k: nat, n: nat, p: Prop, target: string)
    requires WellFormed(oracle, defs) && Reached(oracle, defs, k) && Budget(defs, k) <= n
    requires p in defs && IsAliasDef(p.schema) && MapType(p.schema, ExportName(p.name), "").typ == Named(target)
    ensures RefsDecode(RefsOf(defs, k), Over(RenderTypes(oracle, defs).decls, n, target))
  {
    var decls, b := RenderTypes(oracle, defs).decls, Budget(defs, k);
    hide RenderTypes, Apart, KindsMatch, RegularDef, RegularObject, RefAdmits, NamedDecodes, UnderDecodes, ExportName, AfterLastSlash, Budget,
      OwnDecls, OwnInline, TakesIn, Clash, Taken, Undescribed, IsAliasDef, MapType, Reached;
    MoreLookups(decls, b, n);
    ReachedMore(oracle, defs, k, n);
    forall ref, w: Value | RefsOf(defs, k)(ref, w)
      ensures Over(decls, n, target)(ExportName(AfterLastSlash(ref)), w) || w.Null?
    {
      assert RefAdmits(defs, k, ref, w);
      if ExportName(AfterLastSlash(ref)) == target {
        TargetTaken(oracle, defs, k, p, target, ref, w);
        assert UnderOf(decls, b)(target, w);
        assert UnderOf(decls, n)(target, w);
      } else {
        assert w.Null? || NamedOf(decls, n)(ExportName(AfterLastSlash(ref)), w);
      }
    }
  }

  lemma TargetTaken(oracle: Oracle, defs: seq<Prop>, k: nat, p: Prop, target: string, ref: string, w: Value)
    requires WellFormed(oracle, defs) && Reached(oracle, defs, k) && RefAdmits(defs, k, ref, w)
    requires p in defs && IsAliasDef(p.schema) && MapType(p.schema, ExportName(p.name), "").typ == Named(target)
    requires ExportName(AfterLastSlash(ref)) == target
    ensures UnderDecodes(RenderTypes(oracle, defs).decls, Budget(defs, k), target, w)
  {
    hide RenderTypes, Clash, Taken, KindsMatch, RegularDef, RegularObject, RefAdmits, NamedDecodes, UnderDecodes, ExportName, AfterLastSlash, Budget,
      OwnDecls, OwnInline, TakesIn, Undescribed, IsAliasDef, MapType;
    var decls, b := RenderTypes(oracle, defs).decls, Budget(defs, k);
    var i: nat :| TakenAt(oracle, defs, b, ref, w, i);
    var d := OwnDecl(oracle, defs[i]);
    OwnDeclIs(oracle, defs[i]);
    DefinitionPresent(oracle, defs, i);
    var h :| 0 <= h < |defs| && defs[h] == p;
    assert NamesOnly(defs[h], defs[i]);
    if d.AliasDecl? && d.transparent {
      TransparentIsRaw(oracle, defs[i]);
    }
    TakenNames(decls, b, d, w);
  }

  /** What the parts of a definition need, where the look-ups left are enough. */
  lemma PartsTaken(oracle: Oracle, defs: seq<Prop>, k: nat, i: nat, n: nat)
    requires WellFormed(oracle, defs) && Reached(oracle, defs, k) && i < |defs|
    requires n > Budget(defs, k) + Size(defs[i].schema)
    ensures RefsDecode(RefsOf(defs, k), NamedOf(RenderTypes(oracle, defs).decls, n - 1))
    ensures AllFoundDecode(RefsOf(defs, k), NamedOf(RenderTypes(oracle, defs).decls, n - 1), OwnInline(oracle, defs[i]))
    ensures KindsSound(defs, NamedOf(RenderTypes(oracle, defs).decls, n - 1))
  {
    hide RenderTypes, Clash, Taken, NoRawBehind, KindsMatch, RegularDef, RegularObject, Admits, Size, NamedDecodes, Budget, Reached, RefsDecode,
      AllFoundDecode, OwnInline, OwnDecls, ExportName, KindsSound;
    var t := RenderTypes(oracle, defs);
    ReachedMore(oracle, defs, k, n - 1);
    KindsAreSound(oracle, defs, n - 1);
    DefinitionPresent(oracle, defs, i);
    forall y | y in OwnInline(oracle, defs[i])
      ensures y in t.inline && Size(y.schema) <= Size(defs[i].schema)
    {
      OwnInlineNoLarger(oracle, defs[i], y);
    }
    forall y, u: Value, m: nat | y in OwnInline(oracle, defs[i]) && Admits(RefsOf(defs, k), y.schema, u) && m >= Budget(defs, k) + Size(y.schema)
      ensures NamedDecodes(t.decls, m, y.name, u)
    {
      ObjectTaken(oracle, defs, k, y, u, m);
    }
    assert ObjectsTaken(t.decls, defs, k, OwnInline(oracle, defs[i]));
    hide ObjectsTaken, WellFormed;
    ObjectsFound(t.decls, defs, k, OwnInline(oracle, defs[i]), n - 1);
  }

  /** What a union needs besides: its tag type, honest answers, and integers that fit. */
  lemma UnionReady(oracle: Oracle, defs: seq<Prop>, i: nat, n: nat, v: Value)
    requires Apart(oracle, defs) && Honest(oracle, defs) && i < |defs| && n > 0 && InReach(defs, v)
    requires IsUnionDef(defs[i].schema)
    ensures HonestDef(defs, oracle, defs[i]) && SmallMembers(v)
    ensures forall w: Value :: w.Str? ==> NamedOf(RenderTypes(oracle, defs).decls, n)(ExportName(defs[i].name) + "Type", w)
  {
    var decls, p := RenderTypes(oracle, defs).decls, defs[i];
    SmallIsSmall(v);
    DefsDeclare(oracle, defs[..i]);
    hide RenderTypes, Clash, Taken, Names, Tracks, NoDuplicates, ExportName, RenderDefs, HonestUnion, AllSmall;
    assert WritesUnion(oracle, defs, i);
    HonestAt(defs, oracle, i);
    DefinitionPresent(oracle, defs, i);
    var e := OwnTagType(oracle, p);
    hide OwnDecls, IsUnionDef, HonestDef, SmallMembers, UnderOf;
    forall w: Value | w.Str?
      ensures NamedOf(decls, n)(ExportName(p.name) + "Type", w)
    {
      assert TakesIn(decls, n, e, w);
      assert NamedDecodes(decls, n, ExportName(p.name) + "Type", w);
    }
  }

  lemma SmallIsSmall(v: Value)
    ensures AllSmall(v) ==> SmallMembers(v)
  {
    if AllSmall(v) && v.Obj? {
      forall k | 0 <= k < |v.members|
        ensures FitsInt64(v.members[k].value)
      {
        assert AllSmall(v.members[k].value);
      }
    }
  }

  lemma OwnTagType(oracle: Oracle, p: Prop) returns (e: Decl)
    requires IsUnionDef(p.schema)
    ensures e in OwnDecls(oracle, p) && e.EnumDecl? && e.name == ExportName(p.name) + "Type"
  {
    hide ExportName, EmitUnion, Flatten, EnumUnion, TaggedUnion, IsStringEnum;
    var name, s := ExportName(p.name), p.schema;
    UnionWritten(oracle(name), name, s, TaggedUnion(s).value);
    e := EmitUnion(oracle(name), NOTHING, name, s, TaggedUnion(s).value).decls[1];
  }

  lemma NoInlineOfAlias(oracle: Oracle, p: Prop)
    requires IsAliasDef(p.schema) && MapType(p.schema, ExportName(p.name), "").found.None?
    ensures OwnInline(oracle, p) == []
  {
    hide ExportName, MapType, EnumUnion, TaggedUnion, IsStringEnum;
  }

  /** An alias of a name, decoded with its target taken as a type defined over it. */
  lemma NamedAliasTaken(oracle: Oracle, defs: seq<Prop>, k: nat, p: Prop, target: string, v: Value, n: nat)
    requires WellFormed(oracle, defs) && Reached(oracle, defs, k) && p in defs && IsAliasDef(p.schema) && Regular(p.schema)
    requires MapType(p.schema, ExportName(p.name), "") == Mapped(Named(target), None)
    requires Admits(RefsOf(defs, k), p.schema, v) && n > Budget(defs, k)
    requires RefsDecode(RefsOf(defs, k), NamedOf(RenderTypes(oracle, defs).decls, n - 1))
    ensures TakesIn(RenderTypes(oracle, defs).decls, n, AliasDecl(ExportName(p.name), Named(target), false), v)
  {
    var decls := RenderTypes(oracle, defs).decls;
    hide *;
    NothingFoundDecodes(RefsOf(defs, k), NamedOf(decls, n - 1));
    NothingFoundDecodes(RefsOf(defs, k), Over(decls, n - 1, target));
    ReachedOver(oracle, defs, k, n - 1, p, target);
    AliasDecodes(RefsOf(defs, k), NamedOf(decls, n - 1), Over(decls, n - 1, target), ExportName(p.name), p.schema, v);
    OverIsUnder(decls, n, ExportName(p.name), target, v);
  }

  lemma OtherAliasTaken(decls: seq<Decl>, defs: seq<Prop>, k: nat, p: Prop, v: Value, n: nat)
    requires IsAliasDef(p.schema) && Regular(p.schema) && n > 0
    requires MapType(p.schema, ExportName(p.name), "").found.None? && !MapType(p.schema, ExportName(p.name), "").typ.Named?
    requires Admits(RefsOf(defs, k), p.schema, v)
    requires RefsDecode(RefsOf(defs, k), NamedOf(decls, n - 1))
    ensures var typ := MapType(p.schema, ExportName(p.name), "").typ;
      TakesIn(decls, n, AliasDecl(ExportName(p.name), typ, typ == RawJson), v)
  {
    var typ := MapType(p.schema, ExportName(p.name), "").typ;
    hide *;
    NothingFoundDecodes(RefsOf(defs, k), NamedOf(decls, n - 1));
    AliasDecodes(RefsOf(defs, k), NamedOf(decls, n - 1), NamedOf(decls, n - 1), ExportName(p.name), p.schema, v);
    UnnamedTakes(decls, n, AliasDecl(ExportName(p.name), typ, typ == RawJson), v);
  }

  /** What is known of an alias and of what it leads to. */
  lemma AliasReady(oracle: Oracle, defs: seq<Prop>, k: nat, i: nat, n: nat)
    requires WellFormed(oracle, defs) && Reached(oracle, defs, k) && i < |defs| && IsAliasDef(defs[i].schema)
    requires n > Budget(defs, k)
    ensures Regular(defs[i].schema) && MapType(defs[i].schema, ExportName(defs[i].name), "").found.None?
    ensures RefsDecode(RefsOf(defs, k), NamedOf(RenderTypes(oracle, defs).decls, n - 1))
  {
    hide *;
    AliasIsRegular(oracle, defs, i);
    AliasFindsNothing(oracle, defs, i);
    ReachedMore(oracle, defs, k, n - 1);
  }

  lemma AliasTaken(oracle: Oracle, defs: seq<Prop>, k: nat, i: nat, v: Value, n: nat)
    requires WellFormed(oracle, defs) && Reached(oracle, defs, k) && i < |defs| && IsAliasDef(defs[i].schema)
    requires Admits(RefsOf(defs, k), defs[i].schema, v) && n > Budget(defs, k)
    ensures TakesIn(RenderTypes(oracle, defs).decls, n, OwnDecl(oracle, defs[i]), v)
  {
    hide *;
    AliasReady(oracle, defs, k, i, n);
    AliasWritten(oracle, defs[i]);
    var typ := MapType(defs[i].schema, ExportName(defs[i].name), "").typ;
    if typ.Named? {
      NamedAliasTaken(oracle, defs, k, defs[i], typ.name, v, n);
    } else {
      OtherAliasTaken(RenderTypes(oracle, defs).decls, defs, k, defs[i], v, n);
    }
  }

  lemma AliasWritten(oracle: Oracle, p: Prop)
    requires IsAliasDef(p.schema)
    ensures var typ := MapType(p.schema, ExportName(p.name), "").typ;
      OwnDecl(oracle, p) == AliasDecl(ExportName(p.name), typ, typ == RawJson)
  {
    hide *;
    OwnAlias(oracle, p);
    OwnDeclIs(oracle, p);
  }

  /** The declaration of a definition itself. */
  ghost function OwnDecl(oracle: Oracle, p: Prop): (d: Decl)
    ensures d.name == ExportName(p.name)
  {
    OwnName(oracle, p);
    OwnDecls(oracle, p)[0]
  }

  lemma OwnDeclIs(oracle: Oracle, p: Prop)
    ensures OwnDecls(oracle, p) != [] && OwnDecl(oracle, p) == OwnDecls(oracle, p)[0]
  {
    OwnName(oracle, p);
    hide OwnDecls;
  }

  lemma NothingFoundDecodes(refs: Meaning, named: Meaning)
    ensures FoundDecodes(refs, named, None)
  {
  }

  lemma OverIsUnder(decls: seq<Decl>, n: nat, name: string, target: string, v: Value)
    requires n > 0 && DeclDecodes(NamedOf(decls, n - 1), Over(decls, n - 1, target), AliasDecl(name, Named(target), false), v)
    ensures TakesIn(decls, n, AliasDecl(name, Named(target), false), v)
  {
    hide NamedDecodes, UnderDecodes;
  }

  lemma UnnamedTakes(decls: seq<Decl>, n: nat, d: Decl, v: Value)
    requires n > 0 && d.AliasDecl? && !d.target.Named? && DeclDecodes(NamedOf(decls, n - 1), NamedOf(decls, n - 1), d, v)
    ensures TakesIn(decls, n, d, v)
  {
    hide NamedDecodes, UnderDecodes, Decodes;
  }

  lemma AliasIsRegular(oracle: Oracle, defs: seq<Prop>, i: nat)
    requires WellFormed(oracle, defs) && i < |defs| && IsAliasDef(defs[i].schema)
    ensures Regular(defs[i].schema) && Apart(oracle, defs)
  {
    hide Regular, Apart, KindsMatch, NoRawBehind, RegularObject, RegularUnion, EnumUnion, TaggedUnion, IsStringEnum, RenderTypes;
    assert RegularDef(defs[i].schema);
  }

  /** A definition that is no alias, once all it is made of is known to decode. */
  lemma OtherDefinitionTaken(oracle: Oracle, decls: seq<Decl>, defs: seq<Prop>, k: nat, p: Prop, v: Value, n: nat)
    requires n > 0 && RegularDef(p.schema) && !IsAliasDef(p.schema) && Admits(RefsOf(defs, k), p.schema, v)
    requires RefsDecode(RefsOf(defs, k), NamedOf(decls, n - 1)) && KindsSound(defs, NamedOf(decls, n - 1))
    requires AllFoundDecode(RefsOf(defs, k), NamedOf(decls, n - 1), OwnInline(oracle, p))
    requires IsUnionDef(p.schema) ==> HonestDef(defs, oracle, p) && SmallMembers(v)
    requires IsUnionDef(p.schema) ==> forall w: Value :: w.Str? ==> NamedOf(decls, n - 1)(ExportName(p.name) + "Type", w)
    ensures TakesIn(decls, n, OwnDecl(oracle, p), v)
  {
    hide *;
    OwnDeclIs(oracle, p);
    DefinitionDecodes(defs, RefsOf(defs, k), NamedOf(decls, n - 1), UnderOf(decls, n - 1), oracle, p, v);
    DeclTakes(decls, n, OwnDecl(oracle, p), v);
  }

  /** A definition takes what it admits, with its own size in look-ups beyond those for references. */
  lemma DefinitionTaken(oracle: Oracle, defs: seq<Prop>, k: nat, i: nat, v: Value, n: nat)
    requires WellFormed(oracle, defs) && Honest(oracle, defs) && Reached(oracle, defs, k) && i < |defs|
    requires Admits(RefsOf(defs, k), defs[i].schema, v) && InReach(defs, v)
    requires n > Budget(defs, k) + Size(defs[i].schema)
    ensures TakesIn(RenderTypes(oracle, defs).decls, n, OwnDecl(oracle, defs[i]), v)
  {
    hide *;
    SizeIsPositive(defs[i].schema);
    if IsAliasDef(defs[i].schema) {
      AliasTaken(oracle, defs, k, i, v, n);
    } else {
      PlainTaken(oracle, defs, k, i, v, n);
    }
  }

  lemma PlainTaken(oracle: Oracle, defs: seq<Prop>, k: nat, i: nat, v: Value, n: nat)
    requires WellFormed(oracle, defs) && Honest(oracle, defs) && Reached(oracle, defs, k) && i < |defs|
    requires Admits(RefsOf(defs, k), defs[i].schema, v) && InReach(defs, v)
    requires n > Budget(defs, k) + Size(defs[i].schema) && n > 1 && !IsAliasDef(defs[i].schema)
    ensures TakesIn(RenderTypes(oracle, defs).decls, n, OwnDecl(oracle, defs[i]), v)
  {
    hide *;
    DefinitionRegular(oracle, defs, i);
    PartsTaken(oracle, defs, k, i, n);
    if IsUnionDef(defs[i].schema) {
      UnionReady(oracle, defs, i, n - 1, v);
    }
    OtherDefinitionTaken(oracle, RenderTypes(oracle, defs).decls, defs, k, defs[i], v, n);
  }

  lemma OwnName(oracle: Oracle, p: Prop)
    ensures OwnDecls(oracle, p) != [] && OwnDecls(oracle, p)[0].name == ExportName(p.name)
  {
    hide OwnDecls, RenderDef, ExportName;
    DefFromNothing(oracle, NOTHING, p);
  }

  lemma DeclTakes(decls: seq<Decl>, n: nat, d: Decl, v: Value)
    requires n > 0 && DeclDecodes(NamedOf(decls, n - 1), UnderOf(decls, n - 1), d, v)
    ensures TakesIn(decls, n, d, v)
  {
    hide DeclDecodes;
  }

  lemma DefinitionRegular(oracle: Oracle, defs: seq<Prop>, i: nat)
    requires WellFormed(oracle, defs) && i < |defs|
    ensures RegularDef(defs[i].schema) && Apart(oracle, defs)
  {
    hide Apart, KindsMatch, NoRawBehind, RegularObject, RegularDef, RenderTypes;
  }

  lemma {:induction false} AllReached(oracle: Oracle, defs: seq<Prop>, k: nat)
    requires WellFormed(oracle, defs) && Honest(oracle, defs)
    ensures Reached(oracle, defs, k)
    decreases k
  {
    hide WellFormed, Honest, RenderTypes, Admits, TakesIn, OwnDecls, ExportName, AfterLastSlash, Size, PropsSize, InReach;
    if k > 0 {
      AllReached(oracle, defs, k - 1);
      forall ref, w: Value | RefAdmits(defs, k, ref, w)
        ensures exists i: nat :: TakenAt(oracle, defs, Budget(defs, k), ref, w, i)
      {
        var i: nat :| i < |defs| && defs[i].name == AfterLastSlash(ref) && Admits(RefsOf(defs, k - 1), defs[i].schema, w);
        PropNoLarger(defs, defs[i]);
        DefinitionTaken(oracle, defs, k - 1, i, w, Budget(defs, k));
        assert TakenAt(oracle, defs, Budget(defs, k), ref, w, i);
      }
    }
  }

  /**
   What the generator is for: every value a definition admits, however deep its references
   go, is decoded by encoding/json into the Go type generated for that definition, in any
   run that ends.
   */
  lemma EveryValueDecodes(oracle: Oracle, defs: seq<Prop>, k: nat, i: nat, v: Value)
    requires WellFormed(oracle, defs) && Honest(oracle, defs) && i < |defs|
    requires Admits(RefsOf(defs, k), defs[i].schema, v) && InReach(defs, v)
    ensures exists n: nat :: NamedDecodes(RenderTypes(oracle, defs).decls, n, ExportName(defs[i].name), v)
  {
    var n := Budget(defs, k) + Size(defs[i].schema) + 1;
    hide WellFormed, Honest, RenderTypes, Admits, TakesIn, OwnDecls, ExportName, Size, InReach, Reached, Budget;
    AllReached(oracle, defs, k);
    DefinitionTaken(oracle, defs, k, i, v, n);
    OwnIsThere(oracle, defs, i);
    TakenNames(RenderTypes(oracle, defs).decls, n, OwnDecl(oracle, defs[i]), v);
  }

  lemma OwnIsThere(oracle: Oracle, defs: seq<Prop>, i: nat)
    requires WellFormed(oracle, defs) && i < |defs|
    ensures OwnDecl(oracle, defs[i]) in RenderTypes(oracle, defs).decls
  {
    OwnDeclIs(oracle, defs[i]);
    hide RenderTypes, Clash, Taken, KindsMatch, NoRawBehind, RegularDef, RegularObject, OwnDecls, OwnInline, ExportName;
    DefinitionPresent(oracle, defs, i);
  }
}
