/**
 What a run of the generator may write. jsonKind is asked whenever two arms give one field
 different types; a run that gets all its answers writes RenderTypes of them, and a run
 that asks about a type jsonKind never returns on writes nothing.
 */
module GoRuns {
  import opened Prelude
  import opened Text
  import opened GoNames
  import opened GoSchema
  import opened GoKinds
  import opened GoWiden
  import opened GoRender
  import opened GoShapes
  import opened GoFields

  // The questions of a run.

  /** Joining property p to what is collected asks for the kind of `typ`. */
  predicate AsksFor(owner: string, tag: string, f: Flat, p: Prop, typ: GoType) {
    && p.name != tag && p.name in f.types
    && var next := MapType(p.schema, owner, p.name).typ;
    f.types[p.name] != next && typ in [f.types[p.name], next]
  }

  predicate AskedInUnion(draws: Draws, owner: string, tag: string, props: seq<Prop>, n: nat, typ: GoType) {
    n < |props| && AsksFor(owner, tag, AddProps(draws, owner, tag, props[..n]), props[n], typ)
  }

  ghost predicate HonestUnion(defs: seq<Prop>, draws: Draws, owner: string, tag: string, props: seq<Prop>) {
    forall n: nat, typ :: AskedInUnion(draws, owner, tag, props, n, typ) ==> MayAnswer(defs, typ, KindOf(draws(n), typ))
  }

  /** The i-th definition is written, as a tagged union. */
  ghost predicate WritesUnion(oracle: Oracle, todo: seq<Prop>, i: nat) {
    && i < |todo| && IsUnionDef(todo[i].schema)
    && ExportName(todo[i].name) !in RenderDefs(oracle, todo[..i], NOTHING).emitted
  }

  /** The n-th property of the union that the i-th definition becomes asks for the kind of `typ`. */
  ghost predicate Asked(oracle: Oracle, todo: seq<Prop>, i: nat, n: nat, typ: GoType) {
    && WritesUnion(oracle, todo, i)
    && var name, s := ExportName(todo[i].name), todo[i].schema;
    AskedInUnion(oracle(name), name, TaggedUnion(s).value, ArmProps(s.oneOf), n, typ)
  }

  /** Every answer the oracle gives where it is asked is one jsonKind may give. */
  ghost predicate Honest(oracle: Oracle, defs: seq<Prop>) {
    forall i: nat, n: nat, typ :: Asked(oracle, defs, i, n, typ) ==>
      MayAnswer(defs, typ, KindOf(oracle(ExportName(defs[i].name))(n), typ))
  }

  /** Some run over these definitions writes these declarations. */
  ghost predicate MayDeclare(defs: seq<Prop>, decls: seq<Decl>) {
    exists oracle: Oracle :: Honest(oracle, defs) && decls == RenderTypes(oracle, defs).decls
  }

  // Equal shapes: the same runs.

  lemma AskedSameShape(draws: Draws, owner: string, tag: string, a: seq<Prop>, b: seq<Prop>, n: nat, typ: GoType)
    requires SameShapes(a, b) && AskedInUnion(draws, owner, tag, a, n, typ)
    ensures AskedInUnion(draws, owner, tag, b, n, typ)
  {
    hide SameShape, AddProps, MapType, MakeField, FoundBy;
    AddPropsAlike(draws, owner, tag, a[..n], b[..n]);
    PropAlike(owner, a[n], b[n], [], {});
  }

  lemma WritesSameShape(oracle: Oracle, a: seq<Prop>, b: seq<Prop>, i: nat)
    requires SameShapes(a, b) && WritesUnion(oracle, a, i)
    ensures WritesUnion(oracle, b, i)
  {
    hide SameShape, RenderDefs, IsStringEnum, EnumUnion, TaggedUnion, ExportName;
    RenderDefsAlike(oracle, a[..i], b[..i]);
    PartsOfSameShape(a[i].schema, b[i].schema);
  }

  lemma HonestSameShape(oracle: Oracle, a: seq<Prop>, b: seq<Prop>)
    requires SameShapes(a, b) && Honest(oracle, a)
    ensures Honest(oracle, b)
  {
    SameShapesBack(a, b);
    forall i: nat, n: nat, typ | Asked(oracle, b, i, n, typ)
      ensures MayAnswer(b, typ, KindOf(oracle(ExportName(b[i].name))(n), typ))
    {
      QuestionSameShape(oracle, b, a, i, n, typ);
      hide MayAnswer, Asked, SameShape, ExportName;
      AnswerSameShape(a, b, typ, KindOf(oracle(ExportName(b[i].name))(n), typ));
    }
  }

  lemma SameShapesBack(a: seq<Prop>, b: seq<Prop>)
    requires SameShapes(a, b)
    ensures SameShapes(b, a)
  {
  }

  lemma QuestionSameShape(oracle: Oracle, a: seq<Prop>, b: seq<Prop>, i: nat, n: nat, typ: GoType)
    requires SameShapes(a, b) && Asked(oracle, a, i, n, typ)
    ensures i < |b| && a[i].name == b[i].name && Asked(oracle, b, i, n, typ)
  {
    hide SameShape, RenderDefs, ExportName, AskedInUnion, ArmProps;
    WritesSameShape(oracle, a, b, i);
    PartsOfSameShape(a[i].schema, b[i].schema);
    ArmsOfSameShape(a[i].schema, b[i].schema);
    hide WritesUnion, TaggedUnion, Nullable, IsStringEnum, EnumUnion, SameShapes;
    ArmPropsAlike(a[i].schema.oneOf, b[i].schema.oneOf);
    var name := ExportName(a[i].name);
    AskedSameShape(oracle(name), name, TaggedUnion(a[i].schema).value, ArmProps(a[i].schema.oneOf), ArmProps(b[i].schema.oneOf), n, typ);
  }

  /** Documentation decides nothing: equal shapes may be declared in exactly the same ways. */
  lemma ShapesDecide(a: seq<Prop>, b: seq<Prop>, decls: seq<Decl>)
    requires SameShapes(a, b)
    ensures MayDeclare(a, decls) <==> MayDeclare(b, decls)
  {
    hide Honest, RenderTypes, SameShapes;
    SameShapesBack(a, b);
    if MayDeclare(a, decls) {
      var oracle: Oracle :| Honest(oracle, a) && decls == RenderTypes(oracle, a).decls;
      HonestSameShape(oracle, a, b);
      DocsNeverShow(oracle, a, b);
    }
    if MayDeclare(b, decls) {
      var oracle: Oracle :| Honest(oracle, b) && decls == RenderTypes(oracle, b).decls;
      HonestSameShape(oracle, b, a);
      DocsNeverShow(oracle, b, a);
    }
  }

  // Settled definitions: at most one output.

  /** The answer jsonKind gives, if it has one to give. */
  ghost function TheKind(defs: seq<Prop>, typ: GoType): Kind {
    if exists k :: MayAnswer(defs, typ, k) then
      var k :| MayAnswer(defs, typ, k);
      k
    else NoKind
  }

  ghost function TheKinds(defs: seq<Prop>): Answers {
    name => TheKind(defs, Named(name))
  }

  ghost function TheOracle(defs: seq<Prop>): Oracle {
    owner => Always(TheKinds(defs))
  }

  lemma AnswerIsTheKind(defs: seq<Prop>, typ: GoType, k: Kind)
    requires Settled(defs) && MayAnswer(defs, typ, k)
    ensures k == KindOf(TheKinds(defs), typ)
  {
    hide MayAnswer, Settled;
    SettledAnswer(defs, typ);
    if !typ.Named? {
      BuiltinAnswer(defs, typ, k);
    }
  }

  lemma TheKindIsAnswer(defs: seq<Prop>, typ: GoType)
    ensures (exists k :: MayAnswer(defs, typ, k)) <==> MayAnswer(defs, typ, KindOf(TheKinds(defs), typ))
  {
    hide MayAnswer;
    if !typ.Named? {
      BuiltinAnswer(defs, typ, BuiltinKind(typ));
    }
  }

  /** Up to any property, honest answers and the one answer of each type collect the same. */
  lemma {:induction false} SettledCollect(defs: seq<Prop>, draws: Draws, owner: string, tag: string, props: seq<Prop>, m: nat)
    requires Settled(defs) && HonestUnion(defs, draws, owner, tag, props) && m <= |props|
    ensures AddProps(draws, owner, tag, props[..m]) == AddProps(Always(TheKinds(defs)), owner, tag, props[..m])
    decreases m
  {
    hide Settled, MayAnswer, AsksFor;
    if m > 0 {
      var n := m - 1;
      SettledCollect(defs, draws, owner, tag, props, n);
      assert props[..m][..n] == props[..n];
      var f := AddProps(draws, owner, tag, props[..n]);
      forall typ | AsksFor(owner, tag, f, props[n], typ)
        ensures KindOf(draws(n), typ) == KindOf(TheKinds(defs), typ)
      {
        assert AskedInUnion(draws, owner, tag, props, n, typ);
        AnswerIsTheKind(defs, typ, KindOf(draws(n), typ));
      }
      hide AddProps, HonestUnion, KindOf, TheKinds;
      AddPropAnswers(draws(n), TheKinds(defs), owner, tag, f, props[n]);
      SettledCollectStep(draws, TheKinds(defs), owner, tag, props, m);
    }
  }

  lemma SettledCollectStep(draws: Draws, kinds: Answers, owner: string, tag: string, props: seq<Prop>, m: nat)
    requires 0 < m <= |props|
    ensures AddProps(draws, owner, tag, props[..m])
      == AddProp(draws(m - 1), owner, tag, AddProps(draws, owner, tag, props[..m - 1]), props[m - 1])
    ensures AddProps(Always(kinds), owner, tag, props[..m])
      == AddProp(kinds, owner, tag, AddProps(Always(kinds), owner, tag, props[..m - 1]), props[m - 1])
  {
    hide AddProp;
    assert props[..m][..m - 1] == props[..m - 1];
  }

  /** Adding a property depends on the answers for what it asks about only. */
  lemma AddPropAnswers(kinds: Answers, kinds': Answers, owner: string, tag: string, f: Flat, p: Prop)
    requires forall typ :: AsksFor(owner, tag, f, p, typ) ==> KindOf(kinds, typ) == KindOf(kinds', typ)
    ensures AddProp(kinds, owner, tag, f, p) == AddProp(kinds', owner, tag, f, p)
  {
    hide MapType, KindOf, FoundBy, Canonical, Texts;
    var next := MapType(p.schema, owner, p.name).typ;
    if p.name != tag && p.name in f.types && f.types[p.name] != next {
      assert AsksFor(owner, tag, f, p, next) && AsksFor(owner, tag, f, p, f.types[p.name]);
    }
  }

  lemma EmitUnionAnswers(draws: Draws, draws': Draws, o: Out, name: string, s: Schema, tag: string)
    requires Flatten(draws, name, tag, s.oneOf) == Flatten(draws', name, tag, s.oneOf)
    ensures EmitUnion(draws, o, name, s, tag) == EmitUnion(draws', o, name, s, tag)
  {
    hide Flatten, UnionFields, TagField;
    FlatListed(draws, name, tag, ArmProps(s.oneOf));
    FlatListed(draws', name, tag, ArmProps(s.oneOf));
  }

  lemma {:induction false} SettledRender(defs: seq<Prop>, oracle: Oracle, m: nat)
    requires Settled(defs) && Honest(oracle, defs) && m <= |defs|
    ensures RenderDefs(oracle, defs[..m], NOTHING) == RenderDefs(TheOracle(defs), defs[..m], NOTHING)
    decreases m
  {
    hide RenderDef, ExportName, Settled, Honest, TheOracle;
    if m > 0 {
      SettledRender(defs, oracle, m - 1);
      assert defs[..m][..m - 1] == defs[..m - 1];
      SettledDef(defs, oracle, m - 1);
    }
  }

  lemma SettledDef(defs: seq<Prop>, oracle: Oracle, i: nat)
    requires Settled(defs) && Honest(oracle, defs) && i < |defs|
    ensures var o, name, s := RenderDefs(oracle, defs[..i], NOTHING), ExportName(defs[i].name), defs[i].schema;
      RenderDef(oracle, o, name, s) == RenderDef(TheOracle(defs), o, name, s)
  {
    hide Settled, RenderDefs, ExportName, EmitUnion, EmitStruct, MapType, IsNamedEnum, EnumUnion, TaggedUnion, Dedup, ArmTexts, Texts, TheKinds;
    if WritesUnion(oracle, defs, i) {
      var name, s := ExportName(defs[i].name), defs[i].schema;
      HonestAt(defs, oracle, i);
      SettledFlatten(defs, oracle(name), name, TaggedUnion(s).value, s.oneOf);
      hide Flatten;
      EmitUnionAnswers(oracle(name), Always(TheKinds(defs)), RenderDefs(oracle, defs[..i], NOTHING), name, s, TaggedUnion(s).value);
    }
  }

  lemma HonestAt(defs: seq<Prop>, oracle: Oracle, i: nat)
    requires Honest(oracle, defs) && WritesUnion(oracle, defs, i)
    ensures var name, s := ExportName(defs[i].name), defs[i].schema;
      HonestUnion(defs, oracle(name), name, TaggedUnion(s).value, ArmProps(s.oneOf))
  {
    hide AskedInUnion, MayAnswer, ArmProps, KindOf, ExportName, WritesUnion, TaggedUnion;
    WritesIsUnion(oracle, defs, i);
    var name, s := ExportName(defs[i].name), defs[i].schema;
    forall n: nat, typ | AskedInUnion(oracle(name), name, TaggedUnion(s).value, ArmProps(s.oneOf), n, typ)
      ensures MayAnswer(defs, typ, KindOf(oracle(name)(n), typ))
    {
      assert Asked(oracle, defs, i, n, typ);
    }
  }

  lemma WritesIsUnion(oracle: Oracle, defs: seq<Prop>, i: nat)
    requires WritesUnion(oracle, defs, i)
    ensures i < |defs| && IsUnionDef(defs[i].schema)
  {
  }

  lemma SettledFlatten(defs: seq<Prop>, draws: Draws, owner: string, tag: string, arms: seq<Schema>)
    requires Settled(defs) && HonestUnion(defs, draws, owner, tag, ArmProps(arms))
    ensures Flatten(draws, owner, tag, arms) == Flatten(Always(TheKinds(defs)), owner, tag, arms)
  {
    hide Settled, HonestUnion, AddProps, ArmProps, TheKinds;
    var props := ArmProps(arms);
    SettledCollect(defs, draws, owner, tag, props, |props|);
    assert props[..|props|] == props;
  }

  /** What an honest run asks is what the run with the one answer of each type asks. */
  lemma SettledQuestion(defs: seq<Prop>, oracle: Oracle, i: nat, n: nat, typ: GoType)
    requires Settled(defs) && Honest(oracle, defs) && Asked(TheOracle(defs), defs, i, n, typ)
    ensures Asked(oracle, defs, i, n, typ)
  {
    hide Settled, RenderDefs, ExportName, TaggedUnion, IsUnionDef, AddProps, ArmProps, AsksFor, Honest, TheKinds;
    SettledRender(defs, oracle, i);
    assert WritesUnion(oracle, defs, i);
    WritesIsUnion(oracle, defs, i);
    HonestAt(defs, oracle, i);
    var name, s := ExportName(defs[i].name), defs[i].schema;
    SettledCollect(defs, oracle(name), name, TaggedUnion(s).value, ArmProps(s.oneOf), n);
  }

  /** Where none of the questions of a run loops, there is a run that gets its answers. */
  lemma NoLoopWrites(defs: seq<Prop>)
    requires forall i: nat, n: nat, typ :: Asked(TheOracle(defs), defs, i, n, typ) ==> !Loops(defs, typ)
    ensures MayDeclare(defs, RenderTypes(TheOracle(defs), defs).decls)
  {
    hide Loops, MayAnswer, Asked, RenderTypes, TheKinds;
    forall i: nat, n: nat, typ | Asked(TheOracle(defs), defs, i, n, typ)
      ensures MayAnswer(defs, typ, KindOf(TheOracle(defs)("")(n), typ))
    {
      var k := NoLoopAnswers(defs, typ);
      TheKindIsAnswer(defs, typ);
    }
    assert Honest(TheOracle(defs), defs);
  }

  /**
   When definitions that share a Go name agree, there is at most one output, and there is
   one exactly when no type whose kind is asked for leads jsonKind back to where it was.
   */
  lemma OutputDecided(defs: seq<Prop>)
    requires Settled(defs)
    ensures forall a, b :: MayDeclare(defs, a) && MayDeclare(defs, b) ==> a == b
    ensures (exists decls :: MayDeclare(defs, decls))
            <==> forall i: nat, n: nat, typ :: Asked(TheOracle(defs), defs, i, n, typ) ==> !Loops(defs, typ)
  {
    hide Settled, Honest, RenderTypes, Asked, Loops, TheOracle;
    forall a | MayDeclare(defs, a)
      ensures a == RenderTypes(TheOracle(defs), defs).decls
      ensures forall i: nat, n: nat, typ :: Asked(TheOracle(defs), defs, i, n, typ) ==> !Loops(defs, typ)
    {
      var oracle: Oracle :| Honest(oracle, defs) && a == RenderTypes(oracle, defs).decls;
      SettledTypes(defs, oracle);
      SettledAnswers(defs, oracle);
    }
    if forall i: nat, n: nat, typ :: Asked(TheOracle(defs), defs, i, n, typ) ==> !Loops(defs, typ) {
      NoLoopWrites(defs);
    }
  }

  lemma SettledTypes(defs: seq<Prop>, oracle: Oracle)
    requires Settled(defs) && Honest(oracle, defs)
    ensures RenderTypes(oracle, defs) == RenderTypes(TheOracle(defs), defs)
  {
    hide Settled, Honest, RenderDefs, TheOracle, Drain;
    SettledRender(defs, oracle, |defs|);
    assert defs[..|defs|] == defs;
  }

  lemma SettledAnswers(defs: seq<Prop>, oracle: Oracle)
    requires Settled(defs) && Honest(oracle, defs)
    ensures forall i: nat, n: nat, typ :: Asked(TheOracle(defs), defs, i, n, typ) ==> !Loops(defs, typ)
  {
    hide Settled, Asked, Loops, TheOracle, KindOf, MayAnswer;
    forall i: nat, n: nat, typ | Asked(TheOracle(defs), defs, i, n, typ)
      ensures !Loops(defs, typ)
    {
      SettledQuestion(defs, oracle, i, n, typ);
      assert i < |defs| by {
        AskedIndex(oracle, defs, i, n, typ);
      }
      SettledAnswer(defs, typ);
    }
  }

  lemma AskedIndex(oracle: Oracle, defs: seq<Prop>, i: nat, n: nat, typ: GoType)
    requires Asked(oracle, defs, i, n, typ)
    ensures i < |defs|
  {
  }

  /**
   When definitions that share a Go name agree, reordering the arms of a union or repeating
   one changes neither which fields there are nor their types, whatever jsonKind met first.
   */
  lemma ArmOrderNeverShows(
      defs: seq<Prop>, draws: Draws, draws': Draws, owner: string, tag: string, arms: seq<Schema>, arms': seq<Schema>, field: string)
    requires Settled(defs) && forall a :: a in arms <==> a in arms'
    requires HonestUnion(defs, draws, owner, tag, ArmProps(arms)) && HonestUnion(defs, draws', owner, tag, ArmProps(arms'))
    ensures var f, g := Flatten(draws, owner, tag, arms), Flatten(draws', owner, tag, arms');
      && (field in f.types <==> field in g.types)
      && (field in f.types ==> f.types[field] == g.types[field])
  {
    hide Settled, HonestUnion, Flatten, TheKinds;
    SettledFlatten(defs, draws, owner, tag, arms);
    SettledFlatten(defs, draws', owner, tag, arms');
    FieldTypeIgnoresArmOrder(TheKinds(defs), owner, tag, arms, arms', field);
  }
}
