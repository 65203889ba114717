/** What sameShape compares: everything about two schemas but their documentation, at every depth. */
module GoCopies {
  import opened Prelude
  import opened GoSchema

  /** Equal but for titles and descriptions, of the schemas and of every schema in them. */
  ghost predicate SameButDocs(a: Schema, b: Schema)
    decreases a
  {
    && a.ref == b.ref && a.typ == b.typ && a.enum == b.enum && a.required == b.required
    && a.additional == b.additional && a.format == b.format
    && |a.properties| == |b.properties|
    && (forall i :: 0 <= i < |a.properties| ==>
          && a.properties[i].name == b.properties[i].name
          && SameButDocs(a.properties[i].schema, b.properties[i].schema))
    && |a.definitions| == |b.definitions|
    && (forall i :: 0 <= i < |a.definitions| ==>
          && a.definitions[i].name == b.definitions[i].name
          && SameButDocs(a.definitions[i].schema, b.definitions[i].schema))
    && a.items.Some? == b.items.Some? && (a.items.Some? ==> SameButDocs(a.items.value, b.items.value))
    && |a.oneOf| == |b.oneOf| && (forall i :: 0 <= i < |a.oneOf| ==> SameButDocs(a.oneOf[i], b.oneOf[i]))
    && |a.anyOf| == |b.anyOf| && (forall i :: 0 <= i < |a.anyOf| ==> SameButDocs(a.anyOf[i], b.anyOf[i]))
    && |a.allOf| == |b.allOf| && (forall i :: 0 <= i < |a.allOf| ==> SameButDocs(a.allOf[i], b.allOf[i]))
  }

  ghost predicate SameProps(a: seq<Prop>, b: seq<Prop>) {
    |a| == |b| && forall i :: 0 <= i < |a| ==> a[i].name == b[i].name && SameShape(a[i].schema, b[i].schema)
  }

  ghost predicate SameList(a: seq<Schema>, b: seq<Schema>) {
    |a| == |b| && forall i :: 0 <= i < |a| ==> SameShape(a[i], b[i])
  }

  lemma StrippedProps(a: seq<Prop>, b: seq<Prop>, x: seq<Prop>, y: seq<Prop>)
    requires |x| == |a| && forall i :: 0 <= i < |a| ==> x[i] == Prop(a[i].name, StripDocs(a[i].schema))
    requires |y| == |b| && forall i :: 0 <= i < |b| ==> y[i] == Prop(b[i].name, StripDocs(b[i].schema))
    ensures SameProps(a, b) <==> x == y
  {
    hide StripDocs;
  }

  lemma StrippedList(a: seq<Schema>, b: seq<Schema>, x: seq<Schema>, y: seq<Schema>)
    requires |x| == |a| && forall i :: 0 <= i < |a| ==> x[i] == StripDocs(a[i])
    requires |y| == |b| && forall i :: 0 <= i < |b| ==> y[i] == StripDocs(b[i])
    ensures SameList(a, b) <==> x == y
  {
    hide StripDocs;
  }

  /** What stripping does to one level. */
  lemma StripLevel(s: Schema)
    ensures var t := StripDocs(s);
      && t.title == t.description == ""
      && t.ref == s.ref && t.typ == s.typ && t.enum == s.enum && t.required == s.required
      && t.additional == s.additional && t.format == s.format
      && t.items == (if s.items.Some? then Some(StripDocs(s.items.value)) else None)
      && |t.properties| == |s.properties| && |t.definitions| == |s.definitions|
      && |t.oneOf| == |s.oneOf| && |t.anyOf| == |s.anyOf| && |t.allOf| == |s.allOf|
      && (forall i :: 0 <= i < |s.properties| ==> t.properties[i] == Prop(s.properties[i].name, StripDocs(s.properties[i].schema)))
      && (forall i :: 0 <= i < |s.definitions| ==> t.definitions[i] == Prop(s.definitions[i].name, StripDocs(s.definitions[i].schema)))
      && (forall i :: 0 <= i < |s.oneOf| ==> t.oneOf[i] == StripDocs(s.oneOf[i]))
      && (forall i :: 0 <= i < |s.anyOf| ==> t.anyOf[i] == StripDocs(s.anyOf[i]))
      && (forall i :: 0 <= i < |s.allOf| ==> t.allOf[i] == StripDocs(s.allOf[i]))
  {
  }

  /** One level of a comparison. */
  lemma ShapeParts(a: Schema, b: Schema)
    ensures SameShape(a, b) <==>
      && a.ref == b.ref && a.typ == b.typ && a.enum == b.enum && a.required == b.required
      && a.additional == b.additional && a.format == b.format
      && SameProps(a.properties, b.properties) && SameProps(a.definitions, b.definitions)
      && a.items.Some? == b.items.Some? && (a.items.Some? ==> SameShape(a.items.value, b.items.value))
      && SameList(a.oneOf, b.oneOf) && SameList(a.anyOf, b.anyOf) && SameList(a.allOf, b.allOf)
  {
    StripLevel(a);
    StripLevel(b);
    hide StripDocs;
    var x, y := StripDocs(a), StripDocs(b);
    StrippedProps(a.properties, b.properties, x.properties, y.properties);
    StrippedProps(a.definitions, b.definitions, x.definitions, y.definitions);
    StrippedList(a.oneOf, b.oneOf, x.oneOf, y.oneOf);
    StrippedList(a.anyOf, b.anyOf, x.anyOf, y.anyOf);
    StrippedList(a.allOf, b.allOf, x.allOf, y.allOf);
    hide SameProps, SameList;
  }

  /** Two schemas have the same shape if and only if they agree in everything but documentation. */
  lemma {:induction false} SameShapeIs(a: Schema, b: Schema)
    ensures SameShape(a, b) <==> SameButDocs(a, b)
    decreases a
  {
    ShapeParts(a, b);
    forall i | 0 <= i < |a.properties| && i < |b.properties|
      ensures SameShape(a.properties[i].schema, b.properties[i].schema)
          <==> SameButDocs(a.properties[i].schema, b.properties[i].schema)
    {
      SameShapeIs(a.properties[i].schema, b.properties[i].schema);
    }
    forall i | 0 <= i < |a.definitions| && i < |b.definitions|
      ensures SameShape(a.definitions[i].schema, b.definitions[i].schema)
          <==> SameButDocs(a.definitions[i].schema, b.definitions[i].schema)
    {
      SameShapeIs(a.definitions[i].schema, b.definitions[i].schema);
    }
    if a.items.Some? && b.items.Some? {
      SameShapeIs(a.items.value, b.items.value);
    }
    forall i | 0 <= i < |a.oneOf| && i < |b.oneOf|
      ensures SameShape(a.oneOf[i], b.oneOf[i]) <==> SameButDocs(a.oneOf[i], b.oneOf[i])
    {
      SameShapeIs(a.oneOf[i], b.oneOf[i]);
    }
    forall i | 0 <= i < |a.anyOf| && i < |b.anyOf|
      ensures SameShape(a.anyOf[i], b.anyOf[i]) <==> SameButDocs(a.anyOf[i], b.anyOf[i])
    {
      SameShapeIs(a.anyOf[i], b.anyOf[i]);
    }
    forall i | 0 <= i < |a.allOf| && i < |b.allOf|
      ensures SameShape(a.allOf[i], b.allOf[i]) <==> SameButDocs(a.allOf[i], b.allOf[i])
    {
      SameShapeIs(a.allOf[i], b.allOf[i]);
    }
    hide StripDocs, SameShape;
  }
}
