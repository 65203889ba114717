/**
 jsonKind: the JSON kind a generated Go type encodes. It looks a name up by ranging over a
 Go map and takes whichever definition of that name it meets first, and it calls itself on
 what a one-armed allOf refers to. So one call may answer differently from another, or
 never answer; both are described here by the calls it may make.
 */
module GoKinds {
  import opened Prelude
  import opened Text
  import opened GoNames
  import opened GoSchema
  import opened GoCopies
  import opened GoDocs

  datatype Kind = StringKind | IntegerKind | NumberKind | BooleanKind | NoKind

  function DeclaredKind(types: seq<JsonType>): Kind {
    if types == [] then NoKind
    else match types[0]
      case StringType => StringKind
      case IntegerType => IntegerKind
      case NumberType => NumberKind
      case BooleanType => BooleanKind
      case _ => DeclaredKind(types[1..])
  }

  /** The kind a definition shows without following a one-armed allOf. */
  function OwnKind(def: Schema): Kind {
    if IsStringEnum(def) || EnumUnion(def) then StringKind else DeclaredKind(Types(Base(def)))
  }

  /** The type jsonKind calls itself on when it meets this definition, if it does. */
  function HopOf(def: Schema): Option<GoType> {
    if OwnKind(def) == NoKind && |Base(def).allOf| == 1 then Some(Named(RefName(Base(def).allOf[0].ref))) else None
  }

  function BuiltinKind(typ: GoType): Kind {
    match typ
    case GoString => StringKind
    case GoInt64 => IntegerKind
    case GoUint64 => IntegerKind
    case GoFloat64 => NumberKind
    case GoBool => BooleanKind
    case _ => NoKind
  }

  /** One call of jsonKind: it answers, or it asks about another type. */
  datatype Turn = Says(kind: Kind) | Asks(typ: GoType)

  function TurnOf(def: Schema): Turn {
    match HopOf(def)
    case Some(typ) => Asks(typ)
    case None => Says(OwnKind(def))
  }

  ghost predicate Declares(defs: seq<Prop>, i: nat, name: string) {
    i < |defs| && ExportName(defs[i].name) == name
  }

  ghost predicate Declared(defs: seq<Prop>, name: string) {
    exists i: nat :: Declares(defs, i, name)
  }

  /** What one call may do: any definition of the name may be the first one met. */
  ghost predicate MayTake(defs: seq<Prop>, typ: GoType, turn: Turn) {
    match typ
    case Named(name) =>
      if Declared(defs, name) then exists i: nat :: Declares(defs, i, name) && turn == TurnOf(defs[i].schema)
      else turn == Says(NoKind)
    case _ => turn == Says(BuiltinKind(typ))
  }

  lemma SomeTurn(defs: seq<Prop>, typ: GoType) returns (turn: Turn)
    ensures MayTake(defs, typ, turn)
  {
    hide ExportName, TurnOf;
    turn := Says(BuiltinKind(typ));
    if typ.Named? && Declared(defs, typ.name) {
      var i: nat :| Declares(defs, i, typ.name);
      turn := TurnOf(defs[i].schema);
    }
  }

  /** All definitions of one Go name show the same kind and lead to the same type. */
  ghost predicate Agree(defs: seq<Prop>, name: string) {
    forall i: nat, j: nat :: Declares(defs, i, name) && Declares(defs, j, name) ==>
      && OwnKind(defs[i].schema) == OwnKind(defs[j].schema)
      && HopOf(defs[i].schema) == HopOf(defs[j].schema)
  }

  ghost predicate OneTurn(defs: seq<Prop>, typ: GoType) {
    forall a, b :: MayTake(defs, typ, a) && MayTake(defs, typ, b) ==> a == b
  }

  /** What a call does with a name is settled if and only if the definitions of that name agree. */
  lemma OneTurnIffAgree(defs: seq<Prop>, name: string)
    ensures OneTurn(defs, Named(name)) <==> Agree(defs, name)
  {
    hide ExportName, OwnKind, Base, RefName;
    if OneTurn(defs, Named(name)) {
      forall i: nat, j: nat | Declares(defs, i, name) && Declares(defs, j, name)
        ensures OwnKind(defs[i].schema) == OwnKind(defs[j].schema) && HopOf(defs[i].schema) == HopOf(defs[j].schema)
      {
        assert MayTake(defs, Named(name), TurnOf(defs[i].schema));
        assert MayTake(defs, Named(name), TurnOf(defs[j].schema));
      }
    }
    if Agree(defs, name) {
      forall a, b | MayTake(defs, Named(name), a) && MayTake(defs, Named(name), b)
        ensures a == b
      {
      }
    }
  }

  // The calls jsonKind makes of itself.

  /** Types jsonKind may be called on one after the other. */
  ghost predicate Trail(defs: seq<Prop>, p: seq<GoType>) {
    p != [] && forall i :: 0 <= i < |p| - 1 ==> MayTake(defs, p[i], Asks(p[i + 1]))
  }

  ghost predicate TrailFrom(defs: seq<Prop>, typ: GoType, p: seq<GoType>) {
    Trail(defs, p) && p[0] == typ
  }

  /** jsonKind may return `k` on `typ`. */
  ghost predicate MayAnswer(defs: seq<Prop>, typ: GoType, k: Kind) {
    exists p :: TrailFrom(defs, typ, p) && MayTake(defs, p[|p| - 1], Says(k))
  }

  /** From `typ` a type can be reached that can reach itself in one or more calls. */
  ghost predicate Loops(defs: seq<Prop>, typ: GoType) {
    exists p :: TrailFrom(defs, typ, p) && EndsOnItself(p)
  }

  ghost predicate EndsOnItself(p: seq<GoType>) {
    p != [] && exists i :: 0 <= i < |p| - 1 && p[i] == p[|p| - 1]
  }

  /** However the map is walked, jsonKind returns on `typ` within n calls. */
  ghost predicate ReturnsWithin(defs: seq<Prop>, typ: GoType, n: nat) {
    forall p :: TrailFrom(defs, typ, p) ==> |p| <= n
  }

  ghost function NamedTypes(defs: seq<Prop>): set<GoType> {
    set i | 0 <= i < |defs| :: Named(ExportName(defs[i].name))
  }

  lemma {:induction false} NamedTypesBound(defs: seq<Prop>)
    ensures |NamedTypes(defs)| <= |defs|
    decreases |defs|
  {
    hide ExportName;
    if defs != [] {
      NamedTypesBound(defs[1..]);
      assert NamedTypes(defs) == {Named(ExportName(defs[0].name))} + NamedTypes(defs[1..]) by {
        forall t | t in NamedTypes(defs)
          ensures t == Named(ExportName(defs[0].name)) || t in NamedTypes(defs[1..])
        {
          var i :| 0 <= i < |defs| && t == Named(ExportName(defs[i].name));
          if i > 0 {
            assert defs[1..][i - 1] == defs[i];
          }
        }
        forall t | t in NamedTypes(defs[1..])
          ensures t in NamedTypes(defs)
        {
          var i :| 0 <= i < |defs[1..]| && t == Named(ExportName(defs[1..][i].name));
          assert defs[i + 1] == defs[1..][i];
        }
      }
    }
  }

  lemma AskerIsDefined(defs: seq<Prop>, t: GoType, u: GoType)
    requires MayTake(defs, t, Asks(u))
    ensures t in NamedTypes(defs)
  {
    hide ExportName, TurnOf;
    var i: nat :| Declares(defs, i, t.name) && Asks(u) == TurnOf(defs[i].schema);
    assert t == Named(ExportName(defs[i].name));
  }

  /** More items than there are values to choose from: one occurs twice. */
  lemma {:induction false} Pigeonhole(p: seq<GoType>, places: set<GoType>)
    requires |p| > |places| && forall t <- p :: t in places
    ensures exists i, j :: 0 <= i < j < |p| && p[i] == p[j]
    decreases |p|
  {
    var t := p[|p| - 1];
    var before := p[..|p| - 1];
    assert t in places;
    if t in before {
      var i :| 0 <= i < |before| && before[i] == t;
      assert p[i] == p[|p| - 1];
    } else {
      Pigeonhole(before, places - {t});
      var i, j :| 0 <= i < j < |before| && before[i] == before[j];
      assert p[i] == p[j];
    }
  }

  /** A trail with more calls than there are definitions has come back to where it was. */
  lemma LongTrailLoops(defs: seq<Prop>, typ: GoType, p: seq<GoType>)
    requires TrailFrom(defs, typ, p) && |p| > |defs| + 1
    ensures Loops(defs, typ)
  {
    hide MayTake, NamedTypes;
    var askers := p[..|p| - 1];
    forall t | t in askers
      ensures t in NamedTypes(defs)
    {
      var i :| 0 <= i < |askers| && askers[i] == t;
      AskerIsDefined(defs, p[i], p[i + 1]);
    }
    NamedTypesBound(defs);
    Pigeonhole(askers, NamedTypes(defs));
    var i, j :| 0 <= i < j < |askers| && askers[i] == askers[j];
    var q := p[..j + 1];
    assert q[i] == q[|q| - 1];
    assert TrailFrom(defs, typ, q) && EndsOnItself(q);
  }

  /** A trail that has come back can go round once more. */
  lemma OnceMore(defs: seq<Prop>, typ: GoType, p: seq<GoType>) returns (q: seq<GoType>)
    requires TrailFrom(defs, typ, p) && EndsOnItself(p)
    ensures TrailFrom(defs, typ, q) && EndsOnItself(q) && |q| > |p|
  {
    hide MayTake;
    var i :| 0 <= i < |p| - 1 && p[i] == p[|p| - 1];
    q := p + p[i + 1..];
    forall k | 0 <= k < |q| - 1
      ensures MayTake(defs, q[k], Asks(q[k + 1]))
    {
      if k >= |p| - 1 {
        assert q[k] == p[k - (|p| - 1) + i] && q[k + 1] == p[k - (|p| - 1) + i + 1];
      }
    }
    assert q[|q| - 1] == p[|p| - 1] == q[|p| - 1];
  }

  lemma {:induction false} LoopGoesOn(defs: seq<Prop>, typ: GoType, n: nat) returns (q: seq<GoType>)
    requires Loops(defs, typ)
    ensures TrailFrom(defs, typ, q) && EndsOnItself(q) && |q| > n
    decreases n
  {
    hide TrailFrom, EndsOnItself;
    if n == 0 {
      q :| TrailFrom(defs, typ, q) && EndsOnItself(q);
      assert q != [] by {
        TrailIsThere(defs, typ, q);
      }
    } else {
      var p := LoopGoesOn(defs, typ, n - 1);
      q := OnceMore(defs, typ, p);
    }
  }

  lemma TrailIsThere(defs: seq<Prop>, typ: GoType, p: seq<GoType>)
    requires TrailFrom(defs, typ, p)
    ensures p != []
  {
  }

  /**
   jsonKind is sure to return on a type if and only if no type it can reach reaches itself;
   it then returns within one call more than there are definitions.
   */
  lemma ReturnsUnlessItLoops(defs: seq<Prop>, typ: GoType)
    ensures (exists n: nat :: ReturnsWithin(defs, typ, n)) <==> !Loops(defs, typ)
    ensures !Loops(defs, typ) ==> ReturnsWithin(defs, typ, |defs| + 1)
  {
    hide TrailFrom, EndsOnItself;
    if n: nat :| ReturnsWithin(defs, typ, n) {
      if Loops(defs, typ) {
        var q := LoopGoesOn(defs, typ, n);
        assert false;
      }
    }
    if !Loops(defs, typ) {
      forall p | TrailFrom(defs, typ, p)
        ensures |p| <= |defs| + 1
      {
        if |p| > |defs| + 1 {
          LongTrailLoops(defs, typ, p);
        }
      }
      assert ReturnsWithin(defs, typ, |defs| + 1);
    }
  }

  /** Where jsonKind cannot loop it has an answer to give. */
  lemma {:induction false} AnswerAtTheEnd(defs: seq<Prop>, typ: GoType, p: seq<GoType>) returns (k: Kind)
    requires TrailFrom(defs, typ, p) && ReturnsWithin(defs, typ, |defs| + 1)
    ensures MayAnswer(defs, typ, k)
    decreases |defs| + 2 - |p|
  {
    hide MayTake;
    var turn := SomeTurn(defs, p[|p| - 1]);
    match turn {
      case Says(said) =>
        k := said;
      case Asks(next) =>
        var more := p + [next];
        assert TrailFrom(defs, typ, more);
        k := AnswerAtTheEnd(defs, typ, more);
    }
  }

  lemma NoLoopAnswers(defs: seq<Prop>, typ: GoType) returns (k: Kind)
    requires !Loops(defs, typ)
    ensures MayAnswer(defs, typ, k)
  {
    hide MayTake, ReturnsWithin, Loops;
    ReturnsUnlessItLoops(defs, typ);
    assert TrailFrom(defs, typ, [typ]);
    k := AnswerAtTheEnd(defs, typ, [typ]);
  }

  // Definitions on which every call is settled.

  ghost predicate Settled(defs: seq<Prop>) {
    forall name :: Agree(defs, name)
  }

  lemma SettledTurn(defs: seq<Prop>, typ: GoType, a: Turn, b: Turn)
    requires Settled(defs) && MayTake(defs, typ, a) && MayTake(defs, typ, b)
    ensures a == b
  {
    hide Agree, Declared, Declares;
    if typ.Named? {
      OneTurnIffAgree(defs, typ.name);
      hide MayTake;
      assert OneTurn(defs, typ);
    }
  }

  lemma {:induction false} SettledTrails(defs: seq<Prop>, p: seq<GoType>, q: seq<GoType>, i: nat)
    requires Settled(defs) && Trail(defs, p) && Trail(defs, q) && p[0] == q[0]
    requires i < |p| && i < |q|
    ensures p[i] == q[i]
    decreases i
  {
    hide MayTake, Settled;
    if i > 0 {
      SettledTrails(defs, p, q, i - 1);
      SettledTurn(defs, p[i - 1], Asks(p[i]), Asks(q[i]));
    }
  }

  /** A trail on which jsonKind can stop is at least as long as any other. */
  lemma AnsweredIsLongest(defs: seq<Prop>, typ: GoType, p: seq<GoType>, k: Kind, q: seq<GoType>)
    requires Settled(defs) && TrailFrom(defs, typ, p) && TrailFrom(defs, typ, q)
    requires MayTake(defs, p[|p| - 1], Says(k))
    ensures |q| <= |p|
  {
    hide MayTake, Settled;
    SettledTrails(defs, p, q, if |q| > |p| then |p| - 1 else 0);
    if |q| > |p| {
      SettledTurn(defs, p[|p| - 1], Says(k), Asks(q[|p|]));
    }
  }

  /** On settled definitions jsonKind has at most one answer, and one exactly when it does not loop. */
  lemma SettledAnswer(defs: seq<Prop>, typ: GoType)
    requires Settled(defs)
    ensures forall k, l :: MayAnswer(defs, typ, k) && MayAnswer(defs, typ, l) ==> k == l
    ensures (exists k :: MayAnswer(defs, typ, k)) <==> !Loops(defs, typ)
  {
    hide MayTake, Settled;
    forall k, l | MayAnswer(defs, typ, k) && MayAnswer(defs, typ, l)
      ensures k == l
    {
      var p :| TrailFrom(defs, typ, p) && MayTake(defs, p[|p| - 1], Says(k));
      var q :| TrailFrom(defs, typ, q) && MayTake(defs, q[|q| - 1], Says(l));
      AnsweredIsLongest(defs, typ, p, k, q);
      AnsweredIsLongest(defs, typ, q, l, p);
      SettledTrails(defs, p, q, |p| - 1);
      SettledTurn(defs, p[|p| - 1], Says(k), Says(l));
    }
    if k :| MayAnswer(defs, typ, k) {
      var p :| TrailFrom(defs, typ, p) && MayTake(defs, p[|p| - 1], Says(k));
      if Loops(defs, typ) {
        var q := LoopGoesOn(defs, typ, |p|);
        AnsweredIsLongest(defs, typ, p, k, q);
      }
    }
    if !Loops(defs, typ) {
      var k := NoLoopAnswers(defs, typ);
    }
  }

  lemma BuiltinNeverAsks(defs: seq<Prop>, typ: GoType, next: GoType)
    requires !typ.Named?
    ensures !MayTake(defs, typ, Asks(next))
  {
  }

  lemma BuiltinSays(defs: seq<Prop>, typ: GoType, k: Kind)
    requires !typ.Named?
    ensures MayTake(defs, typ, Says(k)) <==> k == BuiltinKind(typ)
  {
  }

  lemma BuiltinAnswer(defs: seq<Prop>, typ: GoType, k: Kind)
    requires !typ.Named?
    ensures MayAnswer(defs, typ, k) <==> k == BuiltinKind(typ)
  {
    hide MayTake;
    BuiltinSays(defs, typ, k);
    var only := [typ];
    assert TrailFrom(defs, typ, only) && only[|only| - 1] == typ;
    if MayAnswer(defs, typ, k) {
      var p :| TrailFrom(defs, typ, p) && MayTake(defs, p[|p| - 1], Says(k));
      if |p| > 1 {
        BuiltinNeverAsks(defs, typ, p[1]);
      }
    }
  }

  // Definitions of equal shapes.

  ghost predicate SameShapes(a: seq<Prop>, b: seq<Prop>) {
    |a| == |b| && forall i :: 0 <= i < |a| ==> a[i].name == b[i].name && SameShape(a[i].schema, b[i].schema)
  }

  lemma TurnSameShape(a: Schema, b: Schema)
    requires SameShape(a, b)
    ensures TurnOf(a) == TurnOf(b)
  {
    ReadersStrip(a);
    ReadersStrip(b);
    BaseStrip(a);
    BaseStrip(b);
    StripLevel(Base(a));
    StripLevel(Base(b));
    TypesStrip(Base(a));
    TypesStrip(Base(b));
    if |Base(a).allOf| == 1 {
      StripLevel(Base(a).allOf[0]);
      StripLevel(Base(b).allOf[0]);
    }
  }

  lemma TakeSameShape(a: seq<Prop>, b: seq<Prop>, typ: GoType, turn: Turn)
    requires SameShapes(a, b) && MayTake(a, typ, turn)
    ensures MayTake(b, typ, turn)
  {
    hide ExportName, SameShape, TurnOf;
    if typ.Named? {
      assert forall i: nat :: Declares(a, i, typ.name) <==> Declares(b, i, typ.name);
      if Declared(a, typ.name) {
        var i: nat :| Declares(a, i, typ.name) && turn == TurnOf(a[i].schema);
        assert Declares(b, i, typ.name);
        TurnSameShape(a[i].schema, b[i].schema);
      }
    }
  }

  lemma AnswerSameShape(a: seq<Prop>, b: seq<Prop>, typ: GoType, k: Kind)
    requires SameShapes(a, b) && MayAnswer(a, typ, k)
    ensures MayAnswer(b, typ, k)
  {
    hide MayTake, SameShapes;
    var p :| TrailFrom(a, typ, p) && MayTake(a, p[|p| - 1], Says(k));
    TakeSameShape(a, b, p[|p| - 1], Says(k));
    forall i | 0 <= i < |p| - 1
      ensures MayTake(b, p[i], Asks(p[i + 1]))
    {
      TakeSameShape(a, b, p[i], Asks(p[i + 1]));
    }
    assert TrailFrom(b, typ, p);
  }
}
