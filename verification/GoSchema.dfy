/**
 The subset of JSON Schema the binding generator reads, and the functions that only
 compute a value from one schema: its types, its base, its Go type, its discriminator.
 A Go map of sub-schemas is a list in ascending key order, the order the generator
 walks it in wherever the order can be seen.
 */
module GoSchema {
  import opened Json
  import opened Prelude
  import opened Text
  import opened GoNames

  /** A JSON type name as the schema spells it. */
  datatype JsonType =
    | NullType | StringType | BooleanType | IntegerType | NumberType | ArrayType | ObjectType
    | OtherType(name: string)

  /** `type`: absent, one name, a list of names, or something else the generator ignores. */
  datatype TypeTag = NoType | OneType(name: JsonType) | ManyTypes(names: seq<JsonType>) | OddType(raw: string)

  /** `additionalProperties`: absent, true or false, a schema, or other JSON. Kept raw, docs and all. */
  datatype Extra = NoExtra | BoolExtra(value: bool) | SchemaExtra(schema: Schema) | OddExtra(raw: string)

  datatype Prop = Prop(name: string, schema: Schema)

  datatype Schema = Schema(
    ref: string,
    typ: TypeTag,
    enum: seq<Value>,
    properties: seq<Prop>,
    required: seq<string>,
    items: Option<Schema>,
    additional: Extra,
    oneOf: seq<Schema>,
    anyOf: seq<Schema>,
    allOf: seq<Schema>,
    title: string,
    description: string,
    format: string,
    definitions: seq<Prop>)

  /** A rendered Go type expression. */
  datatype GoType =
    | GoString | GoBool | GoInt64 | GoUint64 | GoFloat64 | RawJson
    | Slice(elem: GoType) | MapOf(elem: GoType) | Named(name: string)

  /** An anonymous object met while mapping a type; it is declared later under `name`. */
  datatype Inline = Inline(name: string, schema: Schema)

  datatype Mapped = Mapped(typ: GoType, found: Option<Inline>)

  function Types(s: Schema): seq<JsonType> {
    match s.typ
    case OneType(name) => [name]
    case ManyTypes(names) => names
    case _ => []
  }

  predicate Nullable(s: Schema) {
    NullType in Types(s) || exists i :: 0 <= i < |s.anyOf| && NullType in Types(s.anyOf[i])
  }

  predicate IsNullArm(s: Schema) {
    Types(s) == [NullType]
  }

  /** The arms of an anyOf that are more than the null type. */
  function Concrete(arms: seq<Schema>): (r: seq<Schema>)
    ensures forall a <- r :: a in arms
  {
    if arms == [] then []
    else (if IsNullArm(arms[0]) then [] else [arms[0]]) + Concrete(arms[1..])
  }

  /** The schema of the value itself: past the null arm, past a one-armed allOf. */
  function Base(s: Schema): Schema {
    if |Concrete(s.anyOf)| == 1 then Concrete(s.anyOf)[0]
    else if |s.allOf| == 1 && s.ref == "" && s.properties == [] then s.allOf[0]
    else s
  }

  // How much schema there is: the measure behind the worklist.

  function Size(s: Schema): nat
    decreases s, 1
  {
    1 + PropsSize(s.properties)
    + (if s.items.Some? then Size(s.items.value) else 0)
    + (if s.additional.SchemaExtra? then Size(s.additional.schema) else 0)
    + ListSize(s.oneOf) + ListSize(s.anyOf) + ListSize(s.allOf)
  }

  function ListSize(l: seq<Schema>): nat
    decreases l, 0
  {
    if l == [] then 0 else Size(l[0]) + ListSize(l[1..])
  }

  function PropsSize(l: seq<Prop>): nat
    decreases l, 0
  {
    if l == [] then 0 else Size(l[0].schema) + PropsSize(l[1..])
  }

  lemma {:induction false} ListSizeBounds(l: seq<Schema>, x: Schema)
    requires x in l
    ensures Size(x) <= ListSize(l)
  {
    if x != l[0] {
      ListSizeBounds(l[1..], x);
    }
  }

  lemma BaseIsNoLarger(s: Schema)
    ensures Size(Base(s)) <= Size(s)
  {
    if |Concrete(s.anyOf)| == 1 {
      ListSizeBounds(s.anyOf, Concrete(s.anyOf)[0]);
    } else if |s.allOf| == 1 {
      ListSizeBounds(s.allOf, s.allOf[0]);
    }
  }

  lemma SizeParts(s: Schema)
    ensures |s.allOf| == 1 ==> Size(s.allOf[0]) < Size(s)
    ensures s.items.Some? ==> Size(s.items.value) < Size(s)
    ensures s.additional.SchemaExtra? ==> Size(s.additional.schema) < Size(s)
  {
    if |s.allOf| == 1 {
      ListSizeBounds(s.allOf, s.allOf[0]);
    }
  }

  function RefName(ref: string): string {
    if ref == "" then "" else ExportName(AfterLastSlash(ref))
  }

  function AfterLastSlash(s: string): string {
    if s == "" then ""
    else if '/' in s[1..] then AfterLastSlash(s[1..])
    else if s[0] == '/' then s[1..]
    else s
  }

  /** The first declared type that is not null, or none. */
  function FirstConcrete(types: seq<JsonType>): Option<JsonType> {
    if types == [] then None else if types[0] != NullType then Some(types[0]) else FirstConcrete(types[1..])
  }

  /** Every arm is a documented string enum: a Rust enum of unit variants. */
  predicate EnumUnion(s: Schema) {
    && Arms(s) != []
    && forall i :: 0 <= i < |Arms(s)| ==> IsEnumArm(Arms(s)[i])
  }

  function Arms(s: Schema): seq<Schema> {
    if s.oneOf == [] then s.anyOf else s.oneOf
  }

  predicate IsEnumArm(a: Schema) {
    a.enum != [] && forall i :: 0 <= i < |Types(a)| ==> Types(a)[i] in [StringType, NullType]
  }

  predicate IsStringEnum(s: Schema) {
    if StringType in Types(s) then true
    else if Types(s) != [] then false
    else s.enum != [] && forall i :: 0 <= i < |s.enum| ==> s.enum[i].Str?
  }

  /** goType: at most one anonymous object is met on the way, and it is part of the schema. */
  function MapType(s: Schema, owner: string, field: string): (m: Mapped)
    ensures m.found.Some? ==> Size(m.found.value.schema) <= Size(s)
    decreases Size(s), 2
  {
    BaseIsNoLarger(s);
    MapBase(Base(s), owner, field)
  }

  function MapBase(b: Schema, owner: string, field: string): (m: Mapped)
    ensures m.found.Some? ==> Size(m.found.value.schema) <= Size(b)
    decreases Size(b), 1
  {
    if b.ref != "" then Mapped(Named(RefName(b.ref)), None)
    else if |b.allOf| == 1 then
      ListSizeBounds(b.allOf, b.allOf[0]);
      MapType(b.allOf[0], owner, field)
    else if b.enum != [] then Mapped(GoString, None)
    else MapByType(b, FirstConcrete(Types(b)), owner, field)
  }

  function MapByType(b: Schema, concrete: Option<JsonType>, owner: string, field: string): (m: Mapped)
    ensures m.found.Some? ==> Size(m.found.value.schema) <= Size(b)
    decreases Size(b), 0
  {
    match concrete
    case Some(StringType) => Mapped(GoString, None)
    case Some(BooleanType) => Mapped(GoBool, None)
    case Some(IntegerType) => Mapped(if b.format in ["uint64", "uint32"] then GoUint64 else GoInt64, None)
    case Some(NumberType) => Mapped(GoFloat64, None)
    case Some(ArrayType) =>
      if b.items.None? then Mapped(Slice(RawJson), None)
      else
        var m := MapType(b.items.value, owner, field);
        Mapped(Slice(m.typ), m.found)
    case Some(ObjectType) =>
      if b.properties != [] then
        var name := ExportName(owner + "_" + field);
        Mapped(Named(name), Some(Inline(name, b)))
      else if b.additional.SchemaExtra? then
        var m := MapType(b.additional.schema, owner, field);
        Mapped(MapOf(m.typ), m.found)
      else if b.additional.NoExtra? then Mapped(RawJson, None)
      else Mapped(MapOf(RawJson), None)
    case _ => Mapped(if EnumUnion(b) then GoString else RawJson, None)
  }

  // Tagged unions.

  predicate IsTagIn(arm: Schema, name: string) {
    exists i :: 0 <= i < |arm.properties| && arm.properties[i].name == name && |arm.properties[i].schema.enum| == 1
  }

  predicate IsCommonTag(arms: seq<Schema>, name: string) {
    forall i :: 0 <= i < |arms| ==> IsTagIn(arms[i], name)
  }

  function FirstTag(arms: seq<Schema>, candidates: seq<Prop>): Option<string> {
    if candidates == [] then None
    else if IsCommonTag(arms, candidates[0].name) then Some(candidates[0].name)
    else FirstTag(arms, candidates[1..])
  }

  /** The discriminator: the least name that is a one-value enum in every arm of the oneOf. */
  function TaggedUnion(s: Schema): Option<string> {
    if |s.oneOf| < 2 then None else FirstTag(s.oneOf, s.oneOf[0].properties)
  }

  // Erasing documentation.

  function StripDocs(s: Schema): Schema {
    s.(title := "", description := "",
       properties := seq(|s.properties|, i requires 0 <= i < |s.properties| =>
         Prop(s.properties[i].name, StripDocs(s.properties[i].schema))),
       definitions := seq(|s.definitions|, i requires 0 <= i < |s.definitions| =>
         Prop(s.definitions[i].name, StripDocs(s.definitions[i].schema))),
       items := if s.items.Some? then Some(StripDocs(s.items.value)) else None,
       oneOf := seq(|s.oneOf|, i requires 0 <= i < |s.oneOf| => StripDocs(s.oneOf[i])),
       anyOf := seq(|s.anyOf|, i requires 0 <= i < |s.anyOf| => StripDocs(s.anyOf[i])),
       allOf := seq(|s.allOf|, i requires 0 <= i < |s.allOf| => StripDocs(s.allOf[i])))
  }

  /** What the generator compares when two files declare the same name. */
  predicate SameShape(a: Schema, b: Schema) {
    StripDocs(a) == StripDocs(b)
  }
}
