/**
 Joining the Go types of one field over the arms of a tagged union: widen, and the fold
 renderFlattenedUnion makes of it. What jsonKind answers is a parameter.
 */
module GoWiden {
  import opened Prelude
  import opened GoSchema
  import opened GoKinds

  /** The answers jsonKind gives for named types during one call of widen. */
  type Answers = string -> Kind

  function KindOf(kinds: Answers, typ: GoType): Kind {
    if typ.Named? then kinds(typ.name) else BuiltinKind(typ)
  }

  function Canonical(k: Kind): GoType {
    match k
    case StringKind => GoString
    case IntegerKind => GoInt64
    case NumberKind => GoFloat64
    case BooleanKind => GoBool
    case NoKind => RawJson
  }

  function Widen(kinds: Answers, a: GoType, b: GoType): GoType {
    if KindOf(kinds, a) != KindOf(kinds, b) then RawJson else Canonical(KindOf(kinds, a))
  }

  /** The type of a field already seen as `a` when the next arm maps it to `b`. */
  function Join(kinds: Answers, a: GoType, b: GoType): GoType {
    if a == b then a else Widen(kinds, a, b)
  }

  /** The fold over the arms, in order. */
  function JoinAll(kinds: Answers, types: seq<GoType>): GoType
    requires types != []
  {
    if |types| == 1 then types[0] else Join(kinds, JoinAll(kinds, types[..|types| - 1]), types[|types| - 1])
  }

  lemma CanonicalKind(kinds: Answers, k: Kind)
    ensures KindOf(kinds, Canonical(k)) == k
    ensures Canonical(k) == RawJson <==> k == NoKind
  {
  }

  ghost predicate AllEqual(types: seq<GoType>) {
    forall t, u :: t in types && u in types ==> t == u
  }

  ghost predicate AllOfKind(kinds: Answers, types: seq<GoType>, k: Kind) {
    forall t <- types :: KindOf(kinds, t) == k
  }

  /**
   What a join should be: the common type if all arms agree, the canonical type of the
   kind if only the kinds agree, raw JSON otherwise.
   */
  ghost function LeastCommon(kinds: Answers, types: seq<GoType>): GoType
    requires types != []
  {
    if AllEqual(types) then types[0]
    else if AllOfKind(kinds, types, KindOf(kinds, types[0])) then Canonical(KindOf(kinds, types[0]))
    else RawJson
  }

  lemma LeastCommonStep(kinds: Answers, before: seq<GoType>, last: GoType)
    requires before != []
    ensures LeastCommon(kinds, before + [last]) == Join(kinds, LeastCommon(kinds, before), last)
  {
    hide KindOf, Canonical;
    CanonicalKind(kinds, KindOf(kinds, before[0]));
    CanonicalKind(kinds, NoKind);
    var types := before + [last];
    var k := KindOf(kinds, before[0]);
    assert types[0] == before[0] && before[0] in before && before[0] in types && last in types;
    assert forall t <- types :: t in before || t == last;
    assert forall t <- before :: t in types;
    assert AllEqual(types) <==> AllEqual(before) && last == before[0];
    assert AllOfKind(kinds, types, k) <==> AllOfKind(kinds, before, k) && KindOf(kinds, last) == k;
    assert AllEqual(before) ==> AllOfKind(kinds, before, k);
  }

  /** The fold over the arms is that join. */
  lemma {:induction false} JoinAllIs(kinds: Answers, types: seq<GoType>)
    requires types != []
    ensures JoinAll(kinds, types) == LeastCommon(kinds, types)
    decreases |types|
  {
    hide LeastCommon, Join;
    if |types| == 1 {
      SingleCommon(kinds, types);
    } else {
      JoinAllIs(kinds, types[..|types| - 1]);
      LeastCommonStep(kinds, types[..|types| - 1], types[|types| - 1]);
      assert types == types[..|types| - 1] + [types[|types| - 1]];
    }
  }

  lemma SingleCommon(kinds: Answers, types: seq<GoType>)
    requires |types| == 1
    ensures LeastCommon(kinds, types) == types[0]
  {
    hide KindOf;
  }

  /** Neither the order of the arms nor how often a type occurs among them matters. */
  lemma JoinAllIgnoresOrder(kinds: Answers, types: seq<GoType>, others: seq<GoType>)
    requires types != [] && others != []
    requires forall t :: t in types <==> t in others
    ensures JoinAll(kinds, types) == JoinAll(kinds, others)
  {
    JoinAllIs(kinds, types);
    JoinAllIs(kinds, others);
    assert types[0] in others && others[0] in types;
  }

  /** The join keeps every arm's JSON kind, unless it is raw JSON. */
  lemma JoinAllKeepsKind(kinds: Answers, types: seq<GoType>, t: GoType)
    requires t in types
    ensures JoinAll(kinds, types) == RawJson || KindOf(kinds, JoinAll(kinds, types)) == KindOf(kinds, t)
  {
    JoinAllIs(kinds, types);
    CanonicalKind(kinds, KindOf(kinds, types[0]));
    assert types[0] in types;
  }

  /** Idempotent, commutative, associative: a semilattice with raw JSON on top of distinct kinds. */
  lemma JoinIsSemilattice(kinds: Answers, a: GoType, b: GoType, c: GoType)
    ensures Join(kinds, a, a) == a
    ensures Join(kinds, a, b) == Join(kinds, b, a)
    ensures Join(kinds, Join(kinds, a, b), c) == Join(kinds, a, Join(kinds, b, c))
  {
    hide KindOf, Canonical, Widen;
    WidenIs(kinds, a, b);
    WidenIs(kinds, b, a);
    WidenIs(kinds, b, c);
    WidenIs(kinds, a, c);
    WidenIs(kinds, Widen(kinds, a, b), c);
    WidenIs(kinds, a, Widen(kinds, b, c));
  }

  /** The widened type and its kind, from the kinds of the two. */
  lemma WidenIs(kinds: Answers, a: GoType, b: GoType)
    ensures var w, k := Widen(kinds, a, b), KindOf(kinds, a);
      && w == (if k == KindOf(kinds, b) then Canonical(k) else RawJson)
      && KindOf(kinds, w) == (if k == KindOf(kinds, b) then k else NoKind)
    ensures Canonical(NoKind) == RawJson
  {
    hide KindOf;
    CanonicalKind(kinds, KindOf(kinds, a));
    CanonicalKind(kinds, NoKind);
  }
}
