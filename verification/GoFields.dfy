/** Fields of the generated structs: when their names are distinct, and what a flattened field's type is. */
module GoFields {
  import opened Prelude
  import opened Text
  import opened GoNames
  import opened GoSchema
  import opened GoKinds
  import opened GoWiden
  import opened GoRender

  // Field names.

  function GoNamesOf(props: seq<Prop>): seq<string>
    decreases |props|
  {
    if props == [] then []
    else (if ExportName(props[0].name) == "" then [] else [ExportName(props[0].name)]) + GoNamesOf(props[1..])
  }

  function FieldNames(fields: seq<Field>): seq<string> {
    seq(|fields|, i requires 0 <= i < |fields| => fields[i].goName)
  }

  /** How often a name occurs. */
  function Count(names: seq<string>, n: string): nat
    decreases |names|
  {
    if names == [] then 0 else (if names[0] == n then 1 else 0) + Count(names[1..], n)
  }

  /** The field names given to a list of Go names, when `used` are taken. */
  function Given(names: seq<string>, used: set<string>): seq<string>
    decreases |names|
  {
    if names == [] then []
    else [Unclash(names[0], used)] + Given(names[1..], used + {Unclash(names[0], used)})
  }

  lemma {:induction false} FieldNamesGiven(owner: string, props: seq<Prop>, required: seq<string>, used: set<string>)
    ensures FieldNames(Fields(owner, props, required, used)) == Given(GoNamesOf(props), used)
    decreases |props|
  {
    hide ExportName, MapType;
    if props != [] {
      var name := ExportName(props[0].name);
      if name == "" {
        FieldNamesGiven(owner, props[1..], required, used);
        assert [] + GoNamesOf(props[1..]) == GoNamesOf(props[1..]);
      } else {
        var f := MakeField(owner, props[0], required, used);
        FieldNamesGiven(owner, props[1..], required, used + {f.goName});
        var rest := Fields(owner, props[1..], required, used + {f.goName});
        assert FieldNames([f] + rest) == [f.goName] + FieldNames(rest);
        assert ([name] + GoNamesOf(props[1..]))[1..] == GoNamesOf(props[1..]);
      }
    }
  }

  /** A name that already carries the underscore. */
  predicate Marked(n: string) {
    n != "" && n[|n| - 1] == '_'
  }

  lemma {:induction false} CountMember(names: seq<string>, n: string)
    ensures Count(names, n) > 0 <==> n in names
    decreases |names|
  {
    if names != [] {
      CountMember(names[1..], n);
    }
  }

  /** How many more fields of a Go name fit: two to begin with, fewer when names are taken. */
  function Room(n: string, used: set<string>): int {
    if n !in used then 2 else if n + "_" !in used then 1 else 0
  }

  /** The names given are new and distinct exactly when no Go name occurs more often than it has room. */
  lemma {:induction false} GivenDistinct(names: seq<string>, used: set<string>)
    requires forall n <- names :: !Marked(n)
    requires forall n <- names :: n + "_" in used ==> n in used
    ensures (NoDuplicates(Given(names, used)) && forall g <- Given(names, used) :: g !in used)
            <==> forall n <- names :: Count(names, n) <= Room(n, used)
    decreases |names|
  {
    if names != [] {
      var x := names[0];
      var rest := names[1..];
      var g := Unclash(x, used);
      var used' := used + {g};
      var given := Given(rest, used');
      assert names == [x] + rest && Given(names, used) == [g] + given;
      forall n | n in rest && n + "_" in used'
        ensures n in used'
      {
        if n + "_" == g {
          SameMark(n, x, used);
        }
      }
      GivenDistinct(rest, used');
      GivenStep(g, given, used);
      forall n | n in names
        ensures n != x ==> Room(n, used') == Room(n, used) && Count(names, n) == Count(rest, n)
      {
        if n != x && (n == g || n + "_" == g) {
          SameMark(n, x, used);
        }
      }
      CountMember(rest, x);
      RoomShrinks(x, used);
      RoomSplits(x, rest, used);
    }
  }

  lemma SameMark(n: string, x: string, used: set<string>)
    requires !Marked(n) && !Marked(x) && (n == Unclash(x, used) || n + "_" == Unclash(x, used))
    ensures n == x
  {
    assert Marked(n + "_") && Marked(x + "_");
    assert (n + "_")[..|n|] == n && (x + "_")[..|x|] == x;
  }

  lemma GivenStep(g: string, given: seq<string>, used: set<string>)
    ensures (NoDuplicates([g] + given) && forall h <- [g] + given :: h !in used)
            <==> (NoDuplicates(given) && (forall h <- given :: h !in used + {g}) && g !in used)
  {
    hide NoDuplicates;
    DuplicatesStep(g, given);
    assert forall h :: h in [g] + given <==> h == g || h in given;
  }

  lemma DuplicatesStep(g: string, given: seq<string>)
    ensures NoDuplicates([g] + given) <==> NoDuplicates(given) && g !in given
  {
    var all := [g] + given;
    if NoDuplicates(all) {
      assert forall i :: 0 <= i < |given| ==> given[i] == all[i + 1];
      forall i | 0 <= i < |given|
        ensures given[i] != g
      {
        assert all[0] != all[i + 1];
      }
    }
    if NoDuplicates(given) && g !in given {
      forall i, j | 0 <= i < j < |all|
        ensures all[i] != all[j]
      {
        assert all[j] == given[j - 1];
        assert i > 0 ==> all[i] == given[i - 1];
      }
    }
  }

  /** Giving x a name uses up one place, and is new exactly when there was one. */
  lemma RoomShrinks(x: string, used: set<string>)
    requires !Marked(x) && (x + "_" in used ==> x in used)
    ensures Unclash(x, used) !in used <==> Room(x, used) > 0
    ensures Room(x, used) > 0 ==> Room(x, used + {Unclash(x, used)}) == Room(x, used) - 1
    ensures Room(x, used) == 0 ==> Room(x, used + {Unclash(x, used)}) == 0
  {
    assert Marked(x + "_");
    assert x + "_" != x;
  }

  lemma RoomSplits(x: string, rest: seq<string>, used: set<string>)
    requires !Marked(x) && (x + "_" in used ==> x in used)
    requires forall n <- [x] + rest :: n != x ==> Room(n, used + {Unclash(x, used)}) == Room(n, used) && Count([x] + rest, n) == Count(rest, n)
    ensures (forall n <- [x] + rest :: Count([x] + rest, n) <= Room(n, used))
            <==> ((forall n <- rest :: Count(rest, n) <= Room(n, used + {Unclash(x, used)})) && Unclash(x, used) !in used)
  {
    var names := [x] + rest;
    var used' := used + {Unclash(x, used)};
    RoomShrinks(x, used);
    assert names[1..] == rest && x in names;
    assert Count(names, x) == 1 + Count(rest, x);
    CountMember(rest, x);
    assert forall n <- rest :: n in names;
    hide Room, Unclash;
  }

  /**
   The fields of a generated struct have distinct names if and only if no three JSON
   names share one Go name: a single underscore tells only two apart.
   */
  lemma FieldNamesDistinct(owner: string, props: seq<Prop>, required: seq<string>)
    ensures NoDuplicates(FieldNames(Fields(owner, props, required, {})))
            <==> forall n <- GoNamesOf(props) :: Count(GoNamesOf(props), n) <= 2
  {
    FieldNamesGiven(owner, props, required, {});
    GoNamesUnmarked(props);
    hide Fields, FieldNames, GoNamesOf, Marked;
    GivenDistinct(GoNamesOf(props), {});
  }

  lemma {:induction false} GoNamesUnmarked(props: seq<Prop>)
    ensures forall n <- GoNamesOf(props) :: !Marked(n)
    decreases |props|
  {
    hide ExportName, Marked;
    if props != [] {
      GoNamesUnmarked(props[1..]);
      ExportedUnmarked(props[0].name);
    }
  }

  lemma ExportedUnmarked(s: string)
    ensures !Marked(ExportName(s))
  {
    hide ExportName;
    ExportNameShape(s);
    var n := ExportName(s);
    assert n != "" ==> IsAlphanumeric(n[|n| - 1]);
  }

  // Flattened unions.

  /** The types one field has in the arms that declare it, in order. */
  function TypesOf(owner: string, tag: string, props: seq<Prop>, field: string): seq<GoType>
    decreases |props|
  {
    if props == [] then []
    else
      var p := props[|props| - 1];
      TypesOf(owner, tag, props[..|props| - 1], field)
      + (if p.name == field && field != tag then [MapType(p.schema, owner, field).typ] else [])
  }

  lemma JoinMore(kinds: Answers, types: seq<GoType>, t: GoType)
    requires types != []
    ensures JoinAll(kinds, types + [t]) == Join(kinds, JoinAll(kinds, types), t)
  {
    hide Join;
    assert (types + [t])[..|types|] == types;
  }

  /** The same answers everywhere. */
  function Always(kinds: Answers): Draws {
    n => kinds
  }

  /**
   Answered alike everywhere, the fold ends with every field of every arm, once, at the
   join of the types it has there.
   */
  lemma FlattenJoins(kinds: Answers, owner: string, tag: string, props: seq<Prop>, field: string)
    ensures var f, types := AddProps(Always(kinds), owner, tag, props), TypesOf(owner, tag, props, field);
      && NoDuplicates(f.order)
      && (field in f.order <==> types != [])
      && (field in f.types <==> types != [])
      && (types != [] ==> f.types[field] == JoinAll(kinds, types))
  {
    FlatListed(Always(kinds), owner, tag, props);
    FlattenJoinsStep(kinds, owner, tag, props, field);
    hide AddProps, TypesOf, JoinAll;
  }

  lemma {:induction false} FlattenJoinsStep(kinds: Answers, owner: string, tag: string, props: seq<Prop>, field: string)
    ensures var f, types := AddProps(Always(kinds), owner, tag, props), TypesOf(owner, tag, props, field);
      && (field in f.types <==> types != [])
      && (types != [] ==> f.types[field] == JoinAll(kinds, types))
    decreases |props|
  {
    hide Join, JoinAll, MapType, FoundBy, Texts;
    if props != [] {
      var before := props[..|props| - 1];
      var p := props[|props| - 1];
      FlattenJoinsStep(kinds, owner, tag, before, field);
      var types := TypesOf(owner, tag, before, field);
      if p.name == field && field != tag {
        var t := MapType(p.schema, owner, field).typ;
        if types != [] {
          JoinMore(kinds, types, t);
        } else {
          assert [] + [t] == [t];
          JoinOne(kinds, t);
        }
      } else {
        assert types + [] == types;
      }
    }
  }

  lemma JoinOne(kinds: Answers, t: GoType)
    ensures JoinAll(kinds, [t]) == t
  {
  }

  function Exports(names: seq<string>): seq<string> {
    seq(|names|, i requires 0 <= i < |names| => ExportName(names[i]))
  }

  lemma {:induction false} UnionNamesGiven(order: seq<string>, types: map<string, GoType>, used: set<string>)
    requires forall p <- order :: p in types
    ensures FieldNames(UnionFields(order, types, used)) == Given(Exports(order), used)
    decreases |order|
  {
    hide ExportName;
    if order != [] {
      var goName := Unclash(ExportName(order[0]), used);
      UnionNamesGiven(order[1..], types, used + {goName});
      assert Exports(order)[1..] == Exports(order[1..]);
      var f := Field(goName, types[order[0]], NeedsPointer(types[order[0]]), order[0], true);
      FieldNamesCons(f, UnionFields(order[1..], types, used + {goName}));
    }
  }

  lemma FieldNamesCons(f: Field, rest: seq<Field>)
    ensures FieldNames([f] + rest) == [f.goName] + FieldNames(rest)
  {
  }

  /**
   The fields of a flattened union, its tag among them, have distinct names if and only if
   no three of its JSON names share one Go name.
   */
  lemma UnionFieldNamesDistinct(name: string, tag: string, order: seq<string>, types: map<string, GoType>)
    requires forall p <- order :: p in types
    ensures NoDuplicates(FieldNames([TagField(name, tag)] + UnionFields(order, types, {ExportName(tag)})))
            <==> forall n <- [ExportName(tag)] + Exports(order) :: Count([ExportName(tag)] + Exports(order), n) <= 2
  {
    hide ExportName, UnionFields, FieldNames, Count, NoDuplicates, Marked;
    var names := [ExportName(tag)] + Exports(order);
    UnionNamesGiven(order, types, {ExportName(tag)});
    FieldNamesCons(TagField(name, tag), UnionFields(order, types, {ExportName(tag)}));
    assert names[1..] == Exports(order);
    assert {} + {ExportName(tag)} == {ExportName(tag)};
    assert Given(names, {}) == [ExportName(tag)] + Given(Exports(order), {ExportName(tag)});
    forall n | n in names
      ensures !Marked(n)
    {
      ExportedUnmarked(tag);
      var i :| 0 <= i < |names| && names[i] == n;
      if i > 0 {
        ExportedUnmarked(order[i - 1]);
      }
    }
    GivenDistinct(names, {});
  }

  lemma {:induction false} TypesOfMember(owner: string, tag: string, props: seq<Prop>, field: string, t: GoType)
    ensures t in TypesOf(owner, tag, props, field)
            <==> field != tag && exists p :: p in props && p.name == field && MapType(p.schema, owner, field).typ == t
    decreases |props|
  {
    hide MapType;
    if props != [] {
      var before := props[..|props| - 1];
      var last := props[|props| - 1];
      assert props == before + [last];
      TypesOfMember(owner, tag, before, field, t);
      assert forall p :: p in props <==> p in before || p == last;
    }
  }

  lemma {:induction false} ArmPropsMember(arms: seq<Schema>, p: Prop)
    ensures p in ArmProps(arms) <==> exists a :: a in arms && p in a.properties
    decreases |arms|
  {
    if arms != [] {
      var before := arms[..|arms| - 1];
      assert arms == before + [arms[|arms| - 1]];
      ArmPropsMember(before, p);
      assert forall a :: a in arms <==> a in before || a == arms[|arms| - 1];
    }
  }

  lemma SameArmsSameTypes(owner: string, tag: string, arms: seq<Schema>, arms': seq<Schema>, field: string, t: GoType)
    requires forall a :: a in arms <==> a in arms'
    ensures t in TypesOf(owner, tag, ArmProps(arms), field) <==> t in TypesOf(owner, tag, ArmProps(arms'), field)
  {
    hide MapType, TypesOf, ArmProps;
    TypesOfMember(owner, tag, ArmProps(arms), field, t);
    TypesOfMember(owner, tag, ArmProps(arms'), field, t);
    forall p
      ensures p in ArmProps(arms) <==> p in ArmProps(arms')
    {
      ArmPropsMember(arms, p);
      ArmPropsMember(arms', p);
    }
  }

  /** Answered alike everywhere, neither the order of the arms nor a repeated one changes a field or its type. */
  lemma FieldTypeIgnoresArmOrder(
      kinds: Answers, owner: string, tag: string, arms: seq<Schema>, arms': seq<Schema>, field: string)
    requires forall a :: a in arms <==> a in arms'
    ensures var f, g := Flatten(Always(kinds), owner, tag, arms), Flatten(Always(kinds), owner, tag, arms');
      && (field in f.types <==> field in g.types)
      && (field in f.types ==> f.types[field] == g.types[field])
  {
    var a, b := TypesOf(owner, tag, ArmProps(arms), field), TypesOf(owner, tag, ArmProps(arms'), field);
    forall t
      ensures t in a <==> t in b
    {
      SameArmsSameTypes(owner, tag, arms, arms', field, t);
    }
    hide TypesOf, AddProps, JoinAll, ArmProps;
    FlattenJoins(kinds, owner, tag, ArmProps(arms), field);
    FlattenJoins(kinds, owner, tag, ArmProps(arms'), field);
    assert a != [] ==> a[0] in b;
    assert b != [] ==> b[0] in a;
    if a != [] {
      JoinAllIgnoresOrder(kinds, a, b);
    }
  }
}
