/**
 What the generated types are for: a value the schema admits is one encoding/json decodes
 into the Go type of that schema. Admission is draft-07's, decoding is Go's; neither knows
 of the other, or of the functions that map one to the other.
 */
module GoDecoding {
  import opened Json
  import opened Prelude
  import opened Text
  import opened GoNames
  import opened GoSchema

  /** What a reference, or a type name, stands for: the values behind it. */
  type Meaning = (string, Value) -> bool

  // The schema's side.

  predicate HasType(t: JsonType, v: Value) {
    match t
    case NullType => v.Null?
    case StringType => v.Str?
    case BooleanType => v.Bool?
    case IntegerType => v.Whole?
    case NumberType => v.Whole? || v.Fraction?
    case ArrayType => v.Arr?
    case ObjectType => v.Obj?
    case OtherType(_) => false
  }

  /** The whole numbers a format leaves; a format nobody defined leaves all. */
  predicate InFormat(format: string, n: int) {
    match format
    case "uint8" => 0 <= n < 0x100
    case "uint16" => 0 <= n < 0x1_0000
    case "uint32" => 0 <= n < 0x1_0000_0000
    case "uint64" => 0 <= n < 0x1_0000_0000_0000_0000
    case "uint" => 0 <= n < 0x1_0000_0000_0000_0000
    case "int8" => -0x80 <= n < 0x80
    case "int16" => -0x8000 <= n < 0x8000
    case "int32" => -0x8000_0000 <= n < 0x8000_0000
    case "int64" => -0x8000_0000_0000_0000 <= n < 0x8000_0000_0000_0000
    case "int" => -0x8000_0000_0000_0000 <= n < 0x8000_0000_0000_0000
    case _ => true
  }

  predicate HasKey(members: seq<Member>, key: string) {
    exists i :: 0 <= i < |members| && members[i].key == key
  }

  predicate HasProperty(props: seq<Prop>, name: string) {
    exists i :: 0 <= i < |props| && props[i].name == name
  }

  /**
   The schema admits the value. Beside a $ref nothing else counts (section 8.3 of the
   draft-07 core specification). For a oneOf, one admitting arm is enough.
   */
  ghost predicate Admits(refs: Meaning, s: Schema, v: Value)
    decreases s
  {
    if s.ref != "" then refs(s.ref, v)
    else
      && (Types(s) != [] ==> exists t <- Types(s) :: HasType(t, v))
      && (v.Whole? ==> InFormat(s.format, v.n))
      && (s.enum != [] ==> v in s.enum)
      && (v.Obj? ==>
            && (forall key <- s.required :: HasKey(v.members, key))
            && (forall i, k :: 0 <= i < |s.properties| && 0 <= k < |v.members| && v.members[k].key == s.properties[i].name ==>
                  Admits(refs, s.properties[i].schema, v.members[k].value))
            && (forall k :: 0 <= k < |v.members| && !HasProperty(s.properties, v.members[k].key) ==>
                  match s.additional
                  case BoolExtra(allowed) => allowed
                  case SchemaExtra(extra) => Admits(refs, extra, v.members[k].value)
                  case _ => true))
      && (v.Arr? && s.items.Some? ==> forall k :: 0 <= k < |v.elems| ==> Admits(refs, s.items.value, v.elems[k]))
      && (s.oneOf != [] ==> exists i :: 0 <= i < |s.oneOf| && Admits(refs, s.oneOf[i], v))
      && (s.anyOf != [] ==> exists i :: 0 <= i < |s.anyOf| && Admits(refs, s.anyOf[i], v))
      && (forall i :: 0 <= i < |s.allOf| ==> Admits(refs, s.allOf[i], v))
  }

  // Go's side.

  /** encoding/json decodes the value into a variable of the type without an error; null leaves it alone. */
  ghost predicate Decodes(named: Meaning, typ: GoType, v: Value)
    decreases typ
  {
    v.Null? ||
    match typ
    case GoString => v.Str?
    case GoBool => v.Bool?
    case GoInt64 => v.Whole? && -0x8000_0000_0000_0000 <= v.n < 0x8000_0000_0000_0000
    case GoUint64 => v.Whole? && 0 <= v.n < 0x1_0000_0000_0000_0000
    case GoFloat64 => v.Whole? || v.Fraction?
    case RawJson => true
    case Slice(elem) => v.Arr? && forall k :: 0 <= k < |v.elems| ==> Decodes(named, elem, v.elems[k])
    case MapOf(elem) => v.Obj? && forall k :: 0 <= k < |v.members| ==> Decodes(named, elem, v.members[k].value)
    case Named(name) => named(name, v)
  }

  // What a field takes, in the schema's words.

  /** The one arm that is more than null. */
  predicate SoleArm(arms: seq<Schema>, i: int) {
    && 0 <= i < |arms| && Types(arms[i]) != [NullType]
    && forall j :: 0 <= j < |arms| && j != i ==> Types(arms[j]) == [NullType]
  }

  /** The first declared type that is not null. */
  predicate Leads(types: seq<JsonType>, t: JsonType) {
    exists i :: 0 <= i < |types| && types[i] == t != NullType && forall j :: 0 <= j < i ==> types[j] == NullType
  }

  predicate StringArm(a: Schema) {
    a.enum != [] && forall k :: 0 <= k < |Types(a)| ==> Types(a)[k] in [StringType, NullType]
  }

  /** A union every arm of which lists its values, as strings; a oneOf goes before an anyOf. */
  predicate ListsStrings(s: Schema) {
    if s.oneOf != [] then forall i :: 0 <= i < |s.oneOf| ==> StringArm(s.oneOf[i])
    else s.anyOf != [] && forall i :: 0 <= i < |s.anyOf| ==> StringArm(s.anyOf[i])
  }

  /**
   The values a field of this schema takes: any strings for an enum, what the first declared
   type says for a typed one, element by element for arrays and maps, and anything where
   the schema does not say.
   */
  ghost predicate Takes(named: Meaning, s: Schema, owner: string, field: string, v: Value)
    decreases s, 2
  {
    if exists i :: SoleArm(s.anyOf, i) then exists i :: SoleArm(s.anyOf, i) && TakesBare(named, s.anyOf[i], owner, field, v)
    else if |s.allOf| == 1 && s.ref == "" && s.properties == [] then TakesBare(named, s.allOf[0], owner, field, v)
    else TakesBare(named, s, owner, field, v)
  }

  ghost predicate TakesBare(named: Meaning, b: Schema, owner: string, field: string, v: Value)
    decreases b, 1
  {
    || v.Null?
    || if b.ref != "" then named(ExportName(AfterLastSlash(b.ref)), v)
       else if |b.allOf| == 1 then Takes(named, b.allOf[0], owner, field, v)
       else if b.enum != [] then v.Str?
       else if Leads(Types(b), StringType) then v.Str?
       else if Leads(Types(b), BooleanType) then v.Bool?
       else if Leads(Types(b), NumberType) then v.Whole? || v.Fraction?
       else if Leads(Types(b), IntegerType) then
         v.Whole? && if b.format in ["uint32", "uint64"] then InFormat("uint64", v.n) else InFormat("int64", v.n)
       else if Leads(Types(b), ArrayType) then
         v.Arr? && (b.items.Some? ==> forall k :: 0 <= k < |v.elems| ==> Takes(named, b.items.value, owner, field, v.elems[k]))
       else if Leads(Types(b), ObjectType) then
         if b.properties != [] then named(ExportName(owner + "_" + field), v)
         else if b.additional.NoExtra? then true
         else v.Obj? && (b.additional.SchemaExtra? ==>
           forall k :: 0 <= k < |v.members| ==> Takes(named, b.additional.schema, owner, field, v.members[k].value))
       else ListsStrings(b) ==> v.Str?
  }

  // The two sides meet.

  lemma {:induction false} ConcreteCount(arms: seq<Schema>)
    ensures Concrete(arms) == [] <==> forall i :: 0 <= i < |arms| ==> Types(arms[i]) == [NullType]
    decreases |arms|
  {
    if arms != [] {
      ConcreteCount(arms[1..]);
    }
  }

  lemma {:induction false} ConcreteIs(arms: seq<Schema>)
    ensures |Concrete(arms)| == 1 <==> exists i :: SoleArm(arms, i)
    ensures forall i :: SoleArm(arms, i) ==> Concrete(arms) == [arms[i]]
    decreases |arms|
  {
    hide Types;
    if arms != [] {
      ConcreteCount(arms[1..]);
      ConcreteIs(arms[1..]);
      if IsNullArm(arms[0]) {
        forall i
          ensures SoleArm(arms, i) <==> SoleArm(arms[1..], i - 1)
        {
          SoleLater(arms, i);
        }
        if |Concrete(arms)| == 1 {
          var i :| SoleArm(arms[1..], i);
          assert SoleArm(arms, i + 1);
        }
      } else {
        assert SoleArm(arms, 0) <==> Concrete(arms[1..]) == [];
        assert forall i :: SoleArm(arms, i) ==> i == 0;
      }
    }
  }

  lemma SoleLater(arms: seq<Schema>, i: int)
    requires arms != [] && IsNullArm(arms[0])
    ensures SoleArm(arms, i) <==> SoleArm(arms[1..], i - 1)
  {
    hide Types;
    var rest := arms[1..];
    assert forall j :: 0 <= j < |rest| ==> rest[j] == arms[j + 1];
    if SoleArm(rest, i - 1) {
      forall j | 0 <= j < |arms| && j != i
        ensures Types(arms[j]) == [NullType]
      {
        assert j > 0 ==> arms[j] == rest[j - 1];
      }
    }
  }

  lemma {:induction false} LeadsIs(types: seq<JsonType>)
    ensures forall t :: FirstConcrete(types) == Some(t) <==> Leads(types, t)
    decreases |types|
  {
    if types != [] {
      LeadsIs(types[1..]);
      forall t
        ensures Leads(types, t) <==> if types[0] != NullType then t == types[0] else Leads(types[1..], t)
      {
        LeadsLater(types, t);
      }
    }
  }

  lemma LeadsLater(types: seq<JsonType>, t: JsonType)
    requires types != []
    ensures Leads(types, t) <==> if types[0] != NullType then t == types[0] else Leads(types[1..], t)
  {
    var rest := types[1..];
    if types[0] == NullType && Leads(rest, t) {
      var i :| 0 <= i < |rest| && rest[i] == t && forall j :: 0 <= j < i ==> rest[j] == NullType;
      assert types[i + 1] == t;
      assert forall j :: 0 < j < i + 1 ==> types[j] == rest[j - 1];
    }
    if types[0] == NullType && Leads(types, t) {
      var i :| 0 <= i < |types| && types[i] == t && forall j :: 0 <= j < i ==> types[j] == NullType;
      assert rest[i - 1] == t;
    }
  }

  lemma ListsStringsIs(s: Schema)
    ensures EnumUnion(s) <==> ListsStrings(s)
  {
    forall a
      ensures IsEnumArm(a) <==> StringArm(a)
    {
    }
    hide IsEnumArm, StringArm;
  }

  /** What base strips, in the words of Takes. */
  lemma BaseIs(s: Schema)
    ensures forall i :: SoleArm(s.anyOf, i) ==> Base(s) == s.anyOf[i]
    ensures !(exists i :: SoleArm(s.anyOf, i)) ==>
      Base(s) == if |s.allOf| == 1 && s.ref == "" && s.properties == [] then s.allOf[0] else s
  {
    ConcreteIs(s.anyOf);
    forall i | SoleArm(s.anyOf, i)
      ensures Base(s) == s.anyOf[i]
    {
    }
    assert !(exists i :: SoleArm(s.anyOf, i)) ==> |Concrete(s.anyOf)| != 1;
  }

  lemma TakesBase(named: Meaning, s: Schema, owner: string, field: string, v: Value)
    ensures Takes(named, s, owner, field, v) <==> TakesBare(named, Base(s), owner, field, v)
  {
    BaseIs(s);
    hide SoleArm, TakesBare, Base;
  }

  /** A value decodes into the Go type of a schema if and only if a field of that schema takes it. */
  lemma {:induction false} DecodesExactly(named: Meaning, s: Schema, owner: string, field: string, v: Value)
    ensures Decodes(named, MapType(s, owner, field).typ, v) <==> Takes(named, s, owner, field, v)
    decreases Size(s), 2
  {
    hide TakesBare, Takes, MapBase, Base, Decodes;
    BaseIsNoLarger(s);
    TakesBase(named, s, owner, field, v);
    DecodesBare(named, Base(s), owner, field, v);
  }

  lemma {:induction false} DecodesBare(named: Meaning, b: Schema, owner: string, field: string, v: Value)
    ensures Decodes(named, MapBase(b, owner, field).typ, v) <==> TakesBare(named, b, owner, field, v)
    decreases Size(b), 1
  {
    hide ExportName, MapType, MapByType, Takes, EnumUnion, ListsStrings, Leads, AfterLastSlash;
    LeadsIs(Types(b));
    if b.ref != "" {
    } else if |b.allOf| == 1 {
      ListSizeBounds(b.allOf, b.allOf[0]);
      DecodesExactly(named, b.allOf[0], owner, field, v);
    } else if b.enum == [] {
      DecodesTyped(named, b, FirstConcrete(Types(b)), owner, field, v);
    }
  }

  lemma {:induction false} DecodesTyped(named: Meaning, b: Schema, concrete: Option<JsonType>, owner: string, field: string, v: Value)
    requires b.ref == "" && |b.allOf| != 1 && b.enum == [] && concrete == FirstConcrete(Types(b))
    ensures Decodes(named, MapByType(b, concrete, owner, field).typ, v) <==> TakesBare(named, b, owner, field, v)
    decreases Size(b), 0
  {
    hide ExportName, MapType, Takes, EnumUnion, ListsStrings, Leads, FirstConcrete, Types;
    LeadsIs(Types(b));
    ListsStringsIs(b);
    SizeParts(b);
    hide Size;
    if concrete == Some(ArrayType) && b.items.Some? && v.Arr? {
      forall k | 0 <= k < |v.elems|
        ensures Decodes(named, MapType(b.items.value, owner, field).typ, v.elems[k]) <==> Takes(named, b.items.value, owner, field, v.elems[k])
      {
        DecodesExactly(named, b.items.value, owner, field, v.elems[k]);
      }
    } else if concrete == Some(ObjectType) && b.properties == [] && b.additional.SchemaExtra? && v.Obj? {
      forall k | 0 <= k < |v.members|
        ensures Decodes(named, MapType(b.additional.schema, owner, field).typ, v.members[k].value)
            <==> Takes(named, b.additional.schema, owner, field, v.members[k].value)
      {
        DecodesExactly(named, b.additional.schema, owner, field, v.members[k].value);
      }
    }
  }

  // When it is raw JSON.

  predicate Known(t: JsonType) {
    t != NullType && !t.OtherType?
  }

  /** The schema does not say what the value is: no reference, no enum, no type it knows, or an object it leaves open. */
  ghost predicate Undescribed(s: Schema)
    decreases s, 2
  {
    if exists i :: SoleArm(s.anyOf, i) then exists i :: SoleArm(s.anyOf, i) && UndescribedBare(s.anyOf[i])
    else if |s.allOf| == 1 && s.ref == "" && s.properties == [] then UndescribedBare(s.allOf[0])
    else UndescribedBare(s)
  }

  ghost predicate UndescribedBare(b: Schema)
    decreases b, 1
  {
    && b.ref == ""
    && if |b.allOf| == 1 then Undescribed(b.allOf[0])
       else
         && b.enum == []
         && if exists t :: Leads(Types(b), t) && Known(t) then LeavesOpen(b) else !ListsStrings(b)
  }

  /** An object of which nothing more is said. */
  predicate LeavesOpen(s: Schema) {
    Leads(Types(s), ObjectType) && s.properties == [] && s.additional.NoExtra?
  }

  lemma UndescribedBase(s: Schema)
    ensures Undescribed(s) <==> UndescribedBare(Base(s))
  {
    BaseIs(s);
    hide SoleArm, UndescribedBare, Base;
  }

  /** The Go type of a schema is raw JSON if and only if the schema does not say what the value is. */
  lemma {:induction false} RawExactly(s: Schema, owner: string, field: string)
    ensures MapType(s, owner, field).typ == RawJson <==> Undescribed(s)
    decreases Size(s), 2
  {
    hide UndescribedBare, Undescribed, MapBase, Base;
    BaseIsNoLarger(s);
    UndescribedBase(s);
    RawBare(Base(s), owner, field);
  }

  lemma {:induction false} RawBare(b: Schema, owner: string, field: string)
    ensures MapBase(b, owner, field).typ == RawJson <==> UndescribedBare(b)
    decreases Size(b), 1
  {
    hide ExportName, RefName, MapType, Undescribed, EnumUnion, ListsStrings, Leads;
    LeadsIs(Types(b));
    ListsStringsIs(b);
    if b.ref == "" && |b.allOf| == 1 {
      ListSizeBounds(b.allOf, b.allOf[0]);
      RawExactly(b.allOf[0], owner, field);
    }
  }

  // Soundness.

  const BOUNDED := ["uint8", "uint16", "uint32", "uint64", "int8", "int16", "int32", "int64", "int"]

  /** One type is declared, null aside, or integers beside numbers; and integers have a format Go has room for. */
  ghost predicate TypesAgree(s: Schema) {
    forall t :: Leads(Types(s), t) && Known(t) && !LeavesOpen(s) ==>
      && (forall u <- Types(s) :: Known(u) ==> u == t || (t == NumberType && u == IntegerType))
      && (t == IntegerType ==> s.format in BOUNDED)
  }

  predicate ListsText(values: seq<Value>) {
    forall i :: 0 <= i < |values| ==> values[i].Str? || values[i].Null?
  }

  /**
   Nothing in the schema is beyond the mapping: a $ref has no nullable union beside it, an
   enum lists strings, and declared types agree, as far down as the mapping looks.
   */
  ghost predicate Regular(s: Schema)
    decreases s
  {
    && (s.ref != "" ==> forall i :: !SoleArm(s.anyOf, i))
    && (s.ref == "" ==>
          && ListsText(s.enum)
          && (s.enum == [] ==> TypesAgree(s))
          && (ListsStrings(s) ==> forall i :: 0 <= i < |Arms(s)| ==> Arms(s)[i].ref == "" && ListsText(Arms(s)[i].enum)))
    && (forall i :: SoleArm(s.anyOf, i) ==>
          && Regular(s.anyOf[i])
          && forall j :: 0 <= j < |s.anyOf| && j != i ==> s.anyOf[j].ref == "")
    && (|s.allOf| == 1 ==> Regular(s.allOf[0]))
    && (s.items.Some? ==> Regular(s.items.value))
    && (s.additional.SchemaExtra? ==> Regular(s.additional.schema))
  }

  /** What a reference admits decodes into the type it is mapped to. */
  ghost predicate RefsDecode(refs: Meaning, named: Meaning) {
    forall ref, w: Value :: refs(ref, w) ==> w.Null? || named(ExportName(AfterLastSlash(ref)), w)
  }

  /** What an anonymous object admits decodes into the struct declared for it. */
  ghost predicate FoundDecodes(refs: Meaning, named: Meaning, found: Option<Inline>) {
    found.Some? ==> forall w: Value :: w.Obj? && Admits(refs, found.value.schema, w) ==> named(found.value.name, w)
  }

  lemma AdmittedBase(refs: Meaning, s: Schema, v: Value)
    requires Regular(s) && Admits(refs, s, v) && !v.Null?
    ensures Regular(Base(s)) && Admits(refs, Base(s), v)
  {
    BaseIs(s);
    if i :| SoleArm(s.anyOf, i) {
      var j :| 0 <= j < |s.anyOf| && Admits(refs, s.anyOf[j], v);
      if j != i {
        NullAdmitsNull(refs, s.anyOf[j], v);
      }
    }
  }

  lemma NullAdmitsNull(refs: Meaning, s: Schema, v: Value)
    requires Types(s) == [NullType] && Admits(refs, s, v) && s.ref == ""
    ensures v.Null?
  {
  }

  /**
   Where the schema is regular, every value it admits decodes into its Go type, provided
   the references it holds and the object it asks for do.
   */
  lemma {:induction false} AdmittedDecodes(refs: Meaning, named: Meaning, s: Schema, owner: string, field: string, v: Value)
    requires Regular(s) && Admits(refs, s, v)
    requires RefsDecode(refs, named) && FoundDecodes(refs, named, MapType(s, owner, field).found)
    ensures Decodes(named, MapType(s, owner, field).typ, v)
    decreases Size(s), 2
  {
    hide Regular, Admits, RefsDecode, FoundDecodes, MapBase, Base, Decodes;
    if v.Null? {
      NullDecodes(named, MapType(s, owner, field).typ);
    } else {
      BaseIsNoLarger(s);
      AdmittedBase(refs, s, v);
      AdmittedBare(refs, named, Base(s), owner, field, v);
    }
  }

  lemma NullDecodes(named: Meaning, typ: GoType)
    ensures Decodes(named, typ, Null)
  {
  }

  lemma {:induction false} AdmittedBare(refs: Meaning, named: Meaning, b: Schema, owner: string, field: string, v: Value)
    requires Regular(b) && Admits(refs, b, v) && !v.Null?
    requires RefsDecode(refs, named) && FoundDecodes(refs, named, MapBase(b, owner, field).found)
    ensures Decodes(named, MapBase(b, owner, field).typ, v)
    decreases Size(b), 1
  {
    hide ExportName, MapType, MapByType, AfterLastSlash, FoundDecodes, TypesAgree, ListsStrings, SoleArm;
    if b.ref != "" {
    } else if |b.allOf| == 1 {
      ListSizeBounds(b.allOf, b.allOf[0]);
      AdmittedDecodes(refs, named, b.allOf[0], owner, field, v);
    } else if b.enum == [] {
      AdmittedTyped(refs, named, b, owner, field, v);
    } else {
      assert v in b.enum;
    }
  }

  lemma {:induction false} AdmittedTyped(refs: Meaning, named: Meaning, b: Schema, owner: string, field: string, v: Value)
    requires Regular(b) && Admits(refs, b, v) && !v.Null? && b.ref == "" && |b.allOf| != 1 && b.enum == []
    requires RefsDecode(refs, named)
    requires FoundDecodes(refs, named, MapByType(b, FirstConcrete(Types(b)), owner, field).found)
    ensures Decodes(named, MapByType(b, FirstConcrete(Types(b)), owner, field).typ, v)
    decreases Size(b), 0
  {
    hide ExportName, RefsDecode, Leads, FirstConcrete, Admits, Regular, Size, Types, LeavesOpen, Known, EnumUnion, MapType;
    var concrete := FirstConcrete(Types(b));
    LeadsIs(Types(b));
    SizeParts(b);
    if concrete.None? || concrete.value.OtherType? {
      AdmittedUntyped(refs, b, v);
    } else if LeavesOpen(b) {
      OpenIsRaw(b, owner, field);
    } else {
      LeadIsKnown(Types(b), concrete.value);
      HasLeadingType(refs, b, concrete.value, v);
      if concrete == Some(ArrayType) && b.items.Some? {
        forall k | 0 <= k < |v.elems|
          ensures Decodes(named, MapType(b.items.value, owner, field).typ, v.elems[k])
        {
          AdmittedElement(refs, b, v, k);
          AdmittedDecodes(refs, named, b.items.value, owner, field, v.elems[k]);
        }
      } else if concrete == Some(ObjectType) && b.properties == [] && b.additional.SchemaExtra? {
        forall k | 0 <= k < |v.members|
          ensures Decodes(named, MapType(b.additional.schema, owner, field).typ, v.members[k].value)
        {
          AdmittedMember(refs, b, v, k);
          AdmittedDecodes(refs, named, b.additional.schema, owner, field, v.members[k].value);
        }
      } else if concrete == Some(ObjectType) && b.properties != [] {
        assert MapByType(b, concrete, owner, field).found == Some(Inline(ExportName(owner + "_" + field), b));
      }
    }
  }

  lemma LeadIsKnown(types: seq<JsonType>, t: JsonType)
    requires Leads(types, t) && !t.OtherType?
    ensures Known(t)
  {
  }

  lemma OpenIsRaw(b: Schema, owner: string, field: string)
    requires LeavesOpen(b)
    ensures MapByType(b, FirstConcrete(Types(b)), owner, field) == Mapped(RawJson, None)
  {
    hide Leads, FirstConcrete, Types;
    LeadsIs(Types(b));
  }

  lemma AdmittedElement(refs: Meaning, b: Schema, v: Value, k: nat)
    requires Regular(b) && Admits(refs, b, v) && b.ref == "" && b.items.Some? && v.Arr? && k < |v.elems|
    ensures Regular(b.items.value) && Admits(refs, b.items.value, v.elems[k])
  {
  }

  lemma AdmittedMember(refs: Meaning, b: Schema, v: Value, k: nat)
    requires Regular(b) && Admits(refs, b, v) && b.ref == "" && v.Obj? && k < |v.members|
    requires b.properties == [] && b.additional.SchemaExtra?
    ensures Regular(b.additional.schema) && Admits(refs, b.additional.schema, v.members[k].value)
  {
    assert !HasProperty(b.properties, v.members[k].key);
  }

  /** An admitted value has the leading type, or is an integer where that is number; and integers are in range. */
  lemma HasLeadingType(refs: Meaning, b: Schema, t: JsonType, v: Value)
    requires Regular(b) && Admits(refs, b, v) && !v.Null? && b.ref == "" && b.enum == []
    requires Leads(Types(b), t) && Known(t) && !LeavesOpen(b)
    ensures HasType(t, v)
    ensures t == IntegerType ==>
      if b.format in ["uint64", "uint32"] then 0 <= v.n < 0x1_0000_0000_0000_0000
      else -0x8000_0000_0000_0000 <= v.n < 0x8000_0000_0000_0000
  {
    assert Types(b) != [];
    assert TypesAgree(b);
    hide Regular, ListsStrings;
  }

  lemma AdmittedUntyped(refs: Meaning, b: Schema, v: Value)
    requires Regular(b) && Admits(refs, b, v) && !v.Null? && b.ref == ""
    ensures EnumUnion(b) ==> v.Str?
  {
    ListsStringsIs(b);
    if EnumUnion(b) {
      var i :| 0 <= i < |Arms(b)| && Admits(refs, Arms(b)[i], v);
      var arm := Arms(b)[i];
      assert arm.enum != [] && v in arm.enum;
    }
  }
}
