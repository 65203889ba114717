/** Joining loses nothing: what decodes into the type of one arm decodes into the type of the field, too large integers aside. */
module GoJoins {
  import opened Json
  import opened Prelude
  import opened GoSchema
  import opened GoKinds
  import opened GoWiden
  import opened GoDecoding

  /** Values of a JSON kind; a kind nobody knows may be anything. */
  predicate OfKind(k: Kind, v: Value) {
    match k
    case StringKind => v.Str?
    case IntegerKind => v.Whole?
    case NumberKind => v.Whole? || v.Fraction?
    case BooleanKind => v.Bool?
    case NoKind => true
  }

  /** What jsonKind answered for each of these types is so of every value of the type. */
  ghost predicate KindsHold(kinds: Answers, named: Meaning, types: seq<GoType>) {
    forall t, v: Value :: t in types && Decodes(named, t, v) && !v.Null? ==> OfKind(KindOf(kinds, t), v)
  }

  /** It is so of the types Go itself has. */
  lemma BuiltinsHold(kinds: Answers, named: Meaning, t: GoType, v: Value)
    requires !t.Named? && Decodes(named, t, v) && !v.Null?
    ensures OfKind(KindOf(kinds, t), v)
  {
  }

  predicate FitsInt64(v: Value) {
    v.Whole? ==> -0x8000_0000_0000_0000 <= v.n < 0x8000_0000_0000_0000
  }

  lemma CanonicalDecodes(named: Meaning, k: Kind, v: Value)
    requires OfKind(k, v)
    ensures Decodes(named, Canonical(k), v) <==> (k == IntegerKind ==> FitsInt64(v))
  {
  }

  /**
   A value one arm takes, the field takes, with one exception: where arms of different
   integer types are joined, the field is an int64, and takes no larger integer.
   */
  lemma JoinDecodes(kinds: Answers, named: Meaning, types: seq<GoType>, t: GoType, v: Value)
    requires KindsHold(kinds, named, types) && t in types && Decodes(named, t, v)
    ensures Decodes(named, JoinAll(kinds, types), v) <==>
      (AllEqual(types) || v.Null? || (KindOf(kinds, types[0]) == IntegerKind && AllOfKind(kinds, types, IntegerKind) ==> FitsInt64(v)))
  {
    JoinAllIs(kinds, types);
    assert types[0] in types;
    if !AllEqual(types) && !v.Null? {
      assert OfKind(KindOf(kinds, t), v);
      CanonicalKind(kinds, KindOf(kinds, types[0]));
      hide KindOf, KindsHold, AllEqual;
      if AllOfKind(kinds, types, KindOf(kinds, types[0])) {
        CanonicalDecodes(named, KindOf(kinds, types[0]), v);
      }
    }
  }

  /** The failing family: a uint64 joined with any other integer type refuses the upper half of what it took. */
  lemma WideIntegersLost(kinds: Answers, named: Meaning, n: int)
    requires 0x8000_0000_0000_0000 <= n < 0x1_0000_0000_0000_0000
    ensures Decodes(named, GoUint64, Whole(n)) && !Decodes(named, JoinAll(kinds, [GoUint64, GoInt64]), Whole(n))
  {
    var types := [GoUint64, GoInt64];
    JoinAllIs(kinds, types);
    assert types[0] in types && types[1] in types;
    assert types[0] != types[1];
    assert AllOfKind(kinds, types, IntegerKind);
  }
}
