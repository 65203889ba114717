/**
 The generator as it works: an object that fills its table of definitions, writes
 declarations one after the other and grows its list of anonymous objects on the way.
 Each method is proved to do what the functions of GoSchema, GoRender and GoMerge say.
 */
module GoGenerator {
  import opened Json
  import opened Prelude
  import opened Text
  import opened GoNames
  import opened GoSchema
  import opened GoKinds
  import opened GoWiden
  import opened GoRender
  import opened GoMerge
  import opened GoRuns
  import opened StringOrder

  /** Keys of a Go map come in ascending order; the arms of a oneOf are where it decides something. */
  ghost predicate ArmsInOrder(s: Schema) {
    forall arm <- s.oneOf :: Ascending(PropNames(arm.properties))
  }

  function PropNames(props: seq<Prop>): seq<string> {
    seq(|props|, i requires 0 <= i < |props| => props[i].name)
  }

  // The discriminator.

  /** The names usable as a tag in one arm. */
  function TagNames(arm: Schema): set<string> {
    set i | 0 <= i < |arm.properties| && |arm.properties[i].schema.enum| == 1 :: arm.properties[i].name
  }

  lemma TagNamesAre(arm: Schema, name: string)
    ensures name in TagNames(arm) <==> IsTagIn(arm, name)
  {
  }

  /** The names that are a tag in every arm. */
  ghost function CommonTags(arms: seq<Schema>): set<string>
    requires arms != []
  {
    set n | n in TagNames(arms[0]) && IsCommonTag(arms, n)
  }

  /** The first common tag in key order is the least one. */
  lemma {:induction false} FirstTagIsLeast(arms: seq<Schema>, candidates: seq<Prop>)
    requires Ascending(PropNames(candidates))
    ensures FirstTag(arms, candidates).None? <==>
      forall p <- candidates :: !IsCommonTag(arms, p.name)
    ensures FirstTag(arms, candidates).Some? ==>
      var x := FirstTag(arms, candidates).value;
      && IsCommonTag(arms, x)
      && (exists p <- candidates :: p.name == x)
      && forall p <- candidates :: IsCommonTag(arms, p.name) ==> p.name == x || Less(x, p.name)
    decreases |candidates|
  {
    hide IsCommonTag, Less;
    if candidates != [] {
      var names := PropNames(candidates);
      assert names[1..] == PropNames(candidates[1..]);
      FirstTagIsLeast(arms, candidates[1..]);
      forall p | p in candidates && p != candidates[0]
        ensures p in candidates[1..] && Less(candidates[0].name, p.name)
      {
        var i :| 0 <= i < |candidates| && candidates[i] == p;
        assert candidates[1..][i - 1] == p;
        assert Less(names[0], names[i]);
      }
    }
  }

  lemma TagIsLeast(s: Schema)
    requires |s.oneOf| >= 2 && ArmsInOrder(s)
    ensures TaggedUnion(s).None? <==> CommonTags(s.oneOf) == {}
    ensures TaggedUnion(s).Some? ==> IsLeast(TaggedUnion(s).value, CommonTags(s.oneOf))
  {
    var arms, candidates := s.oneOf, s.oneOf[0].properties;
    FirstTagIsLeast(arms, candidates);
    hide IsTagIn, FirstTag, Less;
    forall n
      ensures n in CommonTags(arms) <==> IsCommonTag(arms, n)
      ensures IsCommonTag(arms, n) ==> exists p <- candidates :: p.name == n
    {
      TagNamesAre(arms[0], n);
      if IsCommonTag(arms, n) {
        assert IsTagIn(arms[0], n);
        CommonIsCandidate(arms[0], n);
      }
    }
  }

  lemma CommonIsCandidate(arm: Schema, n: string)
    requires IsTagIn(arm, n)
    ensures exists p <- arm.properties :: p.name == n
  {
    var i :| 0 <= i < |arm.properties| && arm.properties[i].name == n;
    assert arm.properties[i] in arm.properties;
  }

  /** taggedUnion: cuts the first arm's tags down by each further arm, then takes the least left. */
  method FindTag(s: Schema) returns (tag: Option<string>)
    requires ArmsInOrder(s)
    ensures tag == TaggedUnion(s)
  {
    hide Less, FirstTag, ArmsInOrder;
    if |s.oneOf| < 2 {
      return None;
    }
    ghost var arms := s.oneOf;
    var common := {};
    var i := 0;
    while i < |s.oneOf|
      invariant 0 <= i <= |arms|
      invariant i == 0 ==> common == {}
      invariant i > 0 ==> forall n :: n in common <==> IsCommonTag(arms[..i], n)
    {
      var here := TagNames(s.oneOf[i]);
      forall n
        ensures n in here <==> IsTagIn(arms[i], n)
      {
        TagNamesAre(arms[i], n);
      }
      if here == {} {
        NoCommonTag(arms, i);
        TagIsLeast(s);
        return None;
      }
      assert arms[..i + 1] == arms[..i] + [arms[i]];
      ghost var was := common;
      common := if i == 0 then here else common * here;
      forall n
        ensures n in common <==> IsCommonTag(arms[..i + 1], n)
      {
        hide IsTagIn;
        if i > 0 {
          assert IsCommonTag(arms[..i + 1], n) <==> IsCommonTag(arms[..i], n) && IsTagIn(arms[i], n);
        }
      }
      i := i + 1;
    }
    assert arms[..|arms|] == arms;
    forall n
      ensures n in CommonTags(arms) <==> n in common
    {
      TagNamesAre(arms[0], n);
    }
    assert common == CommonTags(arms);
    TagIsLeast(s);
    if common == {} {
      return None;
    }
    var least := PickLeast(common);
    LeastIsUnique(least, TaggedUnion(s).value, common);
    return Some(least);
  }

  /** No tag is common once one arm has none. */
  lemma NoCommonTag(arms: seq<Schema>, i: nat)
    requires i < |arms| && TagNames(arms[i]) == {}
    ensures forall n :: !IsCommonTag(arms, n)
  {
    forall n
      ensures !IsTagIn(arms[i], n)
    {
      TagNamesAre(arms[i], n);
    }
  }

  /** What mapping a property asks for, as a list. */
  function Wanted(m: Mapped): seq<Inline> {
    if m.found.Some? then [m.found.value] else []
  }

  /** The first declared type that is not null. */
  method ConcreteType(types: seq<JsonType>) returns (concrete: Option<JsonType>)
    ensures concrete == FirstConcrete(types)
  {
    for i := 0 to |types|
      invariant FirstConcrete(types) == FirstConcrete(types[i..])
    {
      assert types[i..][1..] == types[i + 1..];
      if types[i] != NullType {
        return Some(types[i]);
      }
    }
    return None;
  }

  method CollectTexts(values: seq<Value>) returns (texts: seq<string>)
    ensures texts == Texts(values)
  {
    texts := [];
    for i := 0 to |values|
      invariant Texts(values) == texts + Texts(values[i..])
    {
      assert values[i..][1..] == values[i + 1..];
      if values[i].Str? {
        texts := texts + [values[i].text];
      }
    }
    assert values[|values|..] == [];
  }

  /** The values of all arms of a documented enum, each written once. */
  method CollectArmTexts(arms: seq<Schema>) returns (texts: seq<string>)
    ensures texts == Dedup(ArmTexts(arms), {})
  {
    texts := [];
    var seen := {};
    for i := 0 to |arms|
      invariant Dedup(ArmTexts(arms), {}) == texts + Dedup(ArmTexts(arms[i..]), seen)
    {
      var values := arms[i].enum;
      ghost var after := ArmTexts(arms[i + 1..]);
      assert arms[i..][1..] == arms[i + 1..] && ArmTexts(arms[i..]) == Texts(values) + after;
      assert values[0..] == values;
      for j := 0 to |values|
        invariant Dedup(ArmTexts(arms), {}) == texts + Dedup(Texts(values[j..]) + after, seen)
      {
        assert values[j..][1..] == values[j + 1..];
        if values[j].Str? {
          var text := values[j].text;
          ghost var left := Texts(values[j..]) + after;
          assert left[0] == text && left[1..] == Texts(values[j + 1..]) + after;
          if text !in seen {
            seen := seen + {text};
            texts := texts + [text];
          }
        } else {
          assert Texts(values[j..]) == Texts(values[j + 1..]);
        }
      }
      assert values[|values|..] == [] && [] + after == after;
    }
    assert arms[|arms|..] == [] && texts + [] == texts;
  }

  lemma AddPropsNone(draws: Draws, owner: string, tag: string)
    ensures AddProps(draws, owner, tag, []) == NO_FIELDS && NO_FIELDS.found == []
  {
  }

  /** The j-th property of an arm comes next after all those of the arms before. */
  lemma AddPropsNext(draws: Draws, owner: string, tag: string, before: seq<Prop>, props: seq<Prop>, j: nat)
    requires j < |props|
    ensures AddProps(draws, owner, tag, before + props[..j + 1])
      == AddProp(draws(|before| + j), owner, tag, AddProps(draws, owner, tag, before + props[..j]), props[j])
  {
    hide AddProp;
    assert (before + props[..j + 1])[..|before| + j] == before + props[..j];
  }

  /** The fields and anonymous objects of a struct from its i-th property on. */
  lemma FieldsStep(name: string, s: Schema, i: nat, used: set<string>)
    requires i < |s.properties|
    ensures var p, rest := s.properties[i], s.properties[i + 1..];
      if ExportName(p.name) == "" then
        && Fields(name, s.properties[i..], s.required, used) == Fields(name, rest, s.required, used)
        && Founds(name, s.properties[i..]) == Founds(name, rest)
      else
        var f := MakeField(name, p, s.required, used);
        && Fields(name, s.properties[i..], s.required, used) == [f] + Fields(name, rest, s.required, used + {f.goName})
        && Founds(name, s.properties[i..]) == FoundBy(name, p) + Founds(name, rest)
  {
    hide ExportName, MakeField, FoundBy;
    assert s.properties[i..][1..] == s.properties[i + 1..];
  }

  lemma FieldsDone(name: string, s: Schema, used: set<string>)
    ensures Fields(name, s.properties[|s.properties|..], s.required, used) == []
    ensures Founds(name, s.properties[|s.properties|..]) == []
  {
  }

  class Generator {
    var defs: map<string, Schema>
    var decls: seq<Decl>
    var inline: seq<Inline>
    var emitted: set<string>

    ghost function Written(): Out
      reads this
    {
      Out(decls, inline, emitted)
    }

    constructor ()
      ensures defs == map[] && Written() == NOTHING
    {
      defs := map[];
      decls, inline, emitted := [], [], {};
    }

    /** mergeDefs: what is there stays; the first disagreement met stops the generator. */
    method MergeDefs(file: File) returns (conflict: Option<string>)
      modifies this`defs
      ensures conflict.None? ==> Merge(old(defs), file) == Some(defs)
      ensures conflict.Some? ==> conflict.value in Conflicts(old(defs), file) && Merge(old(defs), file) == None
      ensures forall n <- old(defs) :: n in defs && defs[n] == old(defs)[n]
    {
      hide SameShape;
      ghost var before := defs;
      var todo := file.Keys;
      while todo != {}
        invariant todo <= file.Keys
        invariant defs == (map n | n in file && n !in todo :: file[n]) + before
        invariant forall n <- file.Keys - todo :: n !in Conflicts(before, file)
        decreases todo
      {
        var name :| name in todo;
        todo := todo - {name};
        if name !in defs {
          defs := defs[name := file[name]];
        } else if !SameShape(defs[name], file[name]) {
          return Some(name);
        }
      }
      assert (map n | n in file && n !in todo :: file[n]) == file;
      return None;
    }

    /** goType: an anonymous object met on the way goes to the end of the list. */
    method MapGoType(s: Schema, owner: string, field: string) returns (typ: GoType)
      modifies this`inline
      ensures typ == MapType(s, owner, field).typ
      ensures inline == old(inline) + Wanted(MapType(s, owner, field))
      decreases Size(s)
    {
      hide ExportName, Size, EnumUnion, RefName;
      BaseIsNoLarger(s);
      var b := Base(s);
      hide Base;
      if b.ref != "" {
        return Named(RefName(b.ref));
      }
      if |b.allOf| == 1 {
        SizeParts(b);
        typ := MapGoType(b.allOf[0], owner, field);
        return;
      }
      if b.enum != [] {
        return GoString;
      }
      SizeParts(b);
      var concrete := ConcreteType(Types(b));
      assert MapBase(b, owner, field) == MapByType(b, concrete, owner, field);
      match concrete
      case Some(StringType) => return GoString;
      case Some(BooleanType) => return GoBool;
      case Some(IntegerType) => return if b.format in ["uint64", "uint32"] then GoUint64 else GoInt64;
      case Some(NumberType) => return GoFloat64;
      case Some(ArrayType) =>
        if b.items.None? {
          return Slice(RawJson);
        }
        var elem := MapGoType(b.items.value, owner, field);
        return Slice(elem);
      case Some(ObjectType) =>
        if b.properties == [] && b.additional.SchemaExtra? {
          var elem := MapGoType(b.additional.schema, owner, field);
          return MapOf(elem);
        }
        if b.properties == [] {
          return if b.additional.NoExtra? then RawJson else MapOf(RawJson);
        }
        var name := ExportName(owner + "_" + field);
        inline := inline + [Inline(name, b)];
        return Named(name);
      case _ =>
        return if EnumUnion(b) then GoString else RawJson;
    }

    /** renderField: one line of a struct, unless the name exports to nothing. */
    method RenderField(owner: string, p: Prop, required: seq<string>, used: set<string>)
        returns (field: Option<Field>, used': set<string>)
      modifies this`inline
      ensures ExportName(p.name) == "" ==> field == None && used' == used && inline == old(inline)
      ensures ExportName(p.name) != "" ==>
        && field == Some(MakeField(owner, p, required, used))
        && used' == used + {field.value.goName}
        && inline == old(inline) + FoundBy(owner, p)
    {
      hide ExportName, MapType;
      var goName := ExportName(p.name);
      if goName == "" {
        return None, used;
      }
      if goName in used {
        goName := goName + "_";
      }
      var typ := MapGoType(p.schema, owner, p.name);
      var optional := p.name !in required || Nullable(p.schema);
      field := Some(Field(goName, typ, optional && NeedsPointer(typ), p.name, optional));
      used' := used + {goName};
    }

    /** renderStruct: nothing if the name is taken, else one struct and whatever its fields ask for. */
    method RenderStruct(name: string, s: Schema)
      modifies this`decls, this`inline, this`emitted
      ensures Written() == EmitStruct(old(Written()), name, s)
    {
      hide ExportName, MakeField, FoundBy, Fields, Founds;
      if name in emitted {
        return;
      }
      assert s.properties[0..] == s.properties;
      emitted := emitted + {name};
      var fields, used, i := [], {}, 0;
      ghost var wanted := [];
      while i < |s.properties|
        invariant 0 <= i <= |s.properties|
        invariant Fields(name, s.properties, s.required, {}) == fields + Fields(name, s.properties[i..], s.required, used)
        invariant Founds(name, s.properties) == wanted + Founds(name, s.properties[i..])
        invariant inline == old(inline) + wanted
        invariant decls == old(decls) && emitted == old(emitted) + {name}
      {
        FieldsStep(name, s, i, used);
        var field, used' := RenderField(name, s.properties[i], s.required, used);
        if field.Some? {
          fields := fields + [field.value];
          wanted := wanted + FoundBy(name, s.properties[i]);
        }
        used := used';
        i := i + 1;
      }
      FieldsDone(name, s, used);
      assert fields + [] == fields && wanted + [] == wanted;
      decls := decls + [StructDecl(name, fields)];
    }

    /** One property of one arm: a value of the tag, a new field, or a field to be joined. */
    method AddToUnion(kinds: Answers, name: string, tag: string, f: Flat, p: Prop, ghost start: seq<Inline>) returns (g: Flat)
      requires inline == start + f.found
      modifies this`inline
      ensures g == AddProp(kinds, name, tag, f, p)
      ensures inline == start + g.found
    {
      hide MapType, Widen;
      if p.name == tag {
        var texts := CollectTexts(p.schema.enum);
        return f.(values := f.values + texts);
      }
      var typ := MapGoType(p.schema, name, p.name);
      g := f.(found := f.found + FoundBy(name, p));
      if p.name !in f.types {
        g := g.(order := f.order + [p.name], types := f.types[p.name := typ]);
      } else if f.types[p.name] != typ {
        g := g.(types := f.types[p.name := Widen(kinds, f.types[p.name], typ)]);
      } else {
        assert f.types == f.types[p.name := typ];
      }
    }

    /** The first loops of renderFlattenedUnion: the fields of all arms, joined by name. */
    method FlattenArms(draws: Draws, name: string, tag: string, arms: seq<Schema>) returns (f: Flat)
      modifies this`inline
      ensures f == Flatten(draws, name, tag, arms)
      ensures inline == old(inline) + f.found
    {
      hide AddProp, AddProps, NO_FIELDS;
      AddPropsNone(draws, name, tag);
      f := NO_FIELDS;
      ghost var start := inline;
      var seen := 0;
      for i := 0 to |arms|
        invariant seen == |ArmProps(arms[..i])|
        invariant f == AddProps(draws, name, tag, ArmProps(arms[..i]))
        invariant inline == start + f.found
      {
        var props := arms[i].properties;
        ghost var before := ArmProps(arms[..i]);
        assert before + props[..0] == before;
        for j := 0 to |props|
          invariant seen == |before| + j
          invariant f == AddProps(draws, name, tag, before + props[..j])
          invariant inline == start + f.found
        {
          AddPropsNext(draws, name, tag, before, props, j);
          f := AddToUnion(draws(seen), name, tag, f, props[j], start);
          seen := seen + 1;
        }
        assert props[..|props|] == props && arms[..i + 1][..i] == arms[..i];
      }
      assert arms[..|arms|] == arms;
    }

    /** renderFlattenedUnion: one struct for all arms, then the type of its tag. */
    method RenderFlattenedUnion(draws: Draws, name: string, s: Schema, tag: string)
      modifies this`decls, this`inline, this`emitted
      ensures Written() == EmitUnion(draws, old(Written()), name, s, tag)
    {
      hide AddProps, ArmProps, ExportName;
      var f := FlattenArms(draws, name, tag, s.oneOf);
      FlatListed(draws, name, tag, ArmProps(s.oneOf));
      var fields, used := [TagField(name, tag)], {ExportName(tag)};
      for i := 0 to |f.order|
        invariant fields + UnionFields(f.order[i..], f.types, used)
          == [TagField(name, tag)] + UnionFields(f.order, f.types, {ExportName(tag)})
      {
        var rest := f.order[i..];
        assert rest[0] == f.order[i] && rest[1..] == f.order[i + 1..];
        var goName := ExportName(f.order[i]);
        if goName in used {
          goName := goName + "_";
        }
        var typ := f.types[f.order[i]];
        fields := fields + [Field(goName, typ, NeedsPointer(typ), f.order[i], true)];
        used := used + {goName};
      }
      assert f.order[|f.order|..] == [] && fields + [] == fields;
      var values := Sort(set v | v in f.values);
      decls := decls + [StructDecl(name, fields), EnumDecl(name + "Type", values)];
      emitted := emitted + {name, name + "Type"};
    }

    /** renderDef: enum, tagged union, struct or alias, whichever comes first; nothing if the name is taken. */
    method RenderDefinition(oracle: Oracle, name: string, s: Schema)
      requires ArmsInOrder(s)
      modifies this`decls, this`inline, this`emitted
      ensures Written() == RenderDef(oracle, old(Written()), name, s)
    {
      hide EmitUnion, EmitStruct, MapType, EnumUnion, IsStringEnum, ArmsInOrder, TaggedUnion, Texts, Arms, Dedup, ArmTexts;
      if name in emitted {
        return;
      }
      if s.enum != [] && IsStringEnum(s) {
        var values := CollectTexts(s.enum);
        emitted := emitted + {name};
        decls := decls + [EnumDecl(name, values)];
        return;
      }
      if EnumUnion(s) {
        var values := CollectArmTexts(Arms(s));
        emitted := emitted + {name};
        decls := decls + [EnumDecl(name, values)];
        return;
      }
      var tag := FindTag(s);
      if tag.Some? {
        RenderFlattenedUnion(oracle(name), name, s, tag.value);
        return;
      }
      if s.properties != [] {
        RenderStruct(name, s);
        return;
      }
      emitted := emitted + {name};
      var target := MapGoType(s, name, "");
      decls := decls + [AliasDecl(name, target, target == RawJson)];
    }

    /** renderTypes: the definitions in order of name, then the list of anonymous objects while it grows. */
    method RenderAll(oracle: Oracle)
      requires Written() == NOTHING
      requires forall n <- defs :: ArmsInOrder(defs[n])
      modifies this`decls, this`inline, this`emitted
      ensures Written() == RenderTypes(oracle, InOrder(defs))
      ensures Honest(oracle, InOrder(defs)) ==> MayDeclare(InOrder(defs), decls)
    {
      hide RenderDef, EmitStruct, ExportName, Drain, ArmsInOrder, Sorted, Honest;
      var names := Sort(defs.Keys);
      var table := defs;
      var listed := seq(|names|, i requires 0 <= i < |names| => Prop(names[i], table[names[i]]));
      assert listed == InOrder(defs);
      for i := 0 to |listed|
        invariant Written() == RenderDefs(oracle, listed[..i], NOTHING)
      {
        assert listed[..i + 1][..i] == listed[..i];
        assert names[i] in defs;
        RenderDefinition(oracle, ExportName(listed[i].name), listed[i].schema);
      }
      assert listed[..|listed|] == listed;
      DrainInline();
    }

    /** The second loop of renderTypes: each struct written may put more at the end of the list. */
    method DrainInline()
      modifies this`decls, this`inline, this`emitted
      ensures Written() == Drain(old(Written()), 0)
    {
      hide EmitStruct, InlineSize;
      var i := 0;
      while i < |inline|
        invariant 0 <= i <= |inline|
        invariant Drain(Written(), i) == Drain(old(Written()), 0)
        decreases InlineSize(inline[i..])
      {
        TurnShrinks(Written(), i);
        RenderStruct(inline[i].name, inline[i].schema);
        i := i + 1;
      }
    }
  }
}
