/**
 Structural shapes of JSON bodies and their comparison through serialised text.

 The comparison in the source is a string comparison; here it is proved to decide exactly whether
 two bodies have the same structure, with unordered object keys and each array reduced to its first
 element.
 */
module JsonShape {
  import opened Json
  import opened JsObjects
  import opened Ordering

  datatype Shape = Kind(name: string) | EmptyList | ListOf(element: Shape) | Record(fields: seq<Member<Shape>>)

  predicate KeyLess<V>(a: Member<V>, b: Member<V>) { LexLess(a.key, b.key) }

  /** Object.keys(value).sort() with the shapes of the values. */
  function FieldShapes(members: seq<Member<Json>>): (fields: seq<Member<Shape>>)
    ensures |fields| == |members|
    ensures forall i :: 0 <= i < |members| ==> fields[i] == Member(members[i].key, ShapeOf(members[i].value))
  {
    if members == [] then []
    else [Member(members[0].key, ShapeOf(members[0].value))] + FieldShapes(members[1..])
  }

  function ShapeOf(value: Json): Shape {
    match value
    case Null => Kind("null")
    case Bool(_) => Kind("boolean")
    case Num(_) => Kind("number")
    case Str(_) => Kind("string")
    case Arr(items) => if items == [] then EmptyList else ListOf(ShapeOf(items[0]))
    case Obj(members) => Record(FromEntries(Sort(KeyLess, FieldShapes(members))))
  }

  // ----- Serialisation

  /** The serialised shape followed by `rest`. */
  function Write(shape: Shape, rest: string): string
    decreases shape
  {
    match shape
    case Kind(name) => Quote(name) + rest
    case EmptyList => "[]" + rest
    case ListOf(element) => "[" + Write(element, "]" + rest)
    case Record(fields) =>
      if fields == [] then "{}" + rest
      else "{" + WriteField(fields[0], WriteFields(fields[1..], rest))
  }

  function WriteField(field: Member<Shape>, rest: string): string
    decreases field
  {
    Quote(field.key) + (":" + Write(field.value, rest))
  }

  function WriteFields(fields: seq<Member<Shape>>, rest: string): string
    decreases fields
  {
    if fields == [] then "}" + rest
    else "," + WriteField(fields[0], WriteFields(fields[1..], rest))
  }

  function Stringify(shape: Shape): string {
    Write(shape, "")
  }

  lemma Behind(a: string, b: string, x: string, y: string)
    requires |a| == |b| && a + x == b + y
    ensures a == b && x == y
  {
    assert a == (a + x)[..|a|] && b == (b + y)[..|b|];
    assert x == (a + x)[|a|..] && y == (b + y)[|b|..];
  }

  function FirstChar(shape: Shape): char {
    match shape case Kind(_) => '"' case EmptyList => '[' case ListOf(_) => '[' case Record(_) => '{'
  }

  lemma WriteStarts(shape: Shape, rest: string)
    ensures Write(shape, rest) != [] && Write(shape, rest)[0] == FirstChar(shape)
  {}

  /** A serialised shape can be read off the front of any text: nothing is lost and nothing overlaps. */
  lemma {:induction false} WritePrefix(a: Shape, b: Shape, x: string, y: string)
    requires Write(a, x) == Write(b, y)
    ensures a == b && x == y
    decreases a
  {
    WriteStarts(a, x);
    WriteStarts(b, y);
    match a {
      case Kind(name) => QuotePrefix(name, b.name, x, y);
      case EmptyList =>
        ListEnd(b, x, y);
        Behind("[]", "[]", x, y);
      case ListOf(element) =>
        ListEnd(a, y, x);
        Behind("[", "[", Write(element, "]" + x), Write(b.element, "]" + y));
        WritePrefix(element, b.element, "]" + x, "]" + y);
        Behind("]", "]", x, y);
      case Record(fields) =>
        RecordPrefix(fields, b.fields, x, y);
    }
  }

  /** An empty list is no beginning of a list with an element. */
  lemma ListEnd(b: Shape, x: string, y: string)
    ensures b.ListOf? ==> Write(b, y) != Write(EmptyList, x)
  {
    if b.ListOf? {
      WriteStarts(b.element, "]" + y);
      assert Write(b, y)[1] == FirstChar(b.element);
      assert Write(EmptyList, x)[1] == ']';
    }
  }

  lemma {:induction false} RecordPrefix(f: seq<Member<Shape>>, g: seq<Member<Shape>>, x: string, y: string)
    requires Write(Record(f), x) == Write(Record(g), y)
    ensures f == g && x == y
    decreases f, 1
  {
    RecordEnd(f, x, y);
    RecordEnd(g, y, x);
    if f == [] {
      Behind("{}", "{}", x, y);
    } else {
      Behind("{", "{", WriteField(f[0], WriteFields(f[1..], x)), WriteField(g[0], WriteFields(g[1..], y)));
      FieldPrefix(f[0], g[0], WriteFields(f[1..], x), WriteFields(g[1..], y));
      FieldsPrefix(f[1..], g[1..], x, y);
      assert f == [f[0]] + f[1..] && g == [g[0]] + g[1..];
    }
  }

  lemma RecordEnd(f: seq<Member<Shape>>, x: string, y: string)
    ensures f != [] ==> Write(Record(f), x) != Write(Record([]), y)
  {
    if f != [] {
      var field := WriteField(f[0], WriteFields(f[1..], x));
      assert field[0] == '"';
      assert Write(Record(f), x) == "{" + field;
      assert Write(Record([]), y)[1] == '}';
    }
  }

  lemma {:induction false} FieldPrefix(f: Member<Shape>, g: Member<Shape>, x: string, y: string)
    requires WriteField(f, x) == WriteField(g, y)
    ensures f == g && x == y
    decreases f, 0
  {
    QuotePrefix(f.key, g.key, ":" + Write(f.value, x), ":" + Write(g.value, y));
    Behind(":", ":", Write(f.value, x), Write(g.value, y));
    WritePrefix(f.value, g.value, x, y);
  }

  lemma {:induction false} FieldsPrefix(f: seq<Member<Shape>>, g: seq<Member<Shape>>, x: string, y: string)
    requires WriteFields(f, x) == WriteFields(g, y)
    ensures f == g && x == y
    decreases f, 0
  {
    assert WriteFields(f, x)[0] == if f == [] then '}' else ',';
    assert WriteFields(g, y)[0] == if g == [] then '}' else ',';
    if f == [] {
      Behind("}", "}", x, y);
    } else {
      Behind(",", ",", WriteField(f[0], WriteFields(f[1..], x)), WriteField(g[0], WriteFields(g[1..], y)));
      FieldPrefix(f[0], g[0], WriteFields(f[1..], x), WriteFields(g[1..], y));
      FieldsPrefix(f[1..], g[1..], x, y);
      assert f == [f[0]] + f[1..] && g == [g[0]] + g[1..];
    }
  }

  lemma StringifyInjective(a: Shape, b: Shape)
    ensures Stringify(a) == Stringify(b) <==> a == b
  {
    if Stringify(a) == Stringify(b) {
      WritePrefix(a, b, "", "");
    }
  }

  // ----- What equal shapes mean

  /** The same structure, declaratively. */
  ghost predicate SameStructure(a: Json, b: Json) {
    match (a, b)
    case (Null, Null) => true
    case (Bool(_), Bool(_)) => true
    case (Num(_), Num(_)) => true
    case (Str(_), Str(_)) => true
    case (Arr(xs), Arr(ys)) =>
      (xs == [] && ys == []) || (xs != [] && ys != [] && SameStructure(xs[0], ys[0]))
    case (Obj(ms), Obj(ns)) =>
      && KeysOf(ms) == KeysOf(ns)
      && forall i, j :: 0 <= i < |ms| && 0 <= j < |ns| && ms[i].key == ns[j].key ==> SameStructure(ms[i].value, ns[j].value)
    case _ => false
  }

  lemma KeyLessOrder(fields: seq<Member<Shape>>)
    requires DistinctKeys(fields)
    ensures StrictWeakOrder(KeyLess<Shape>) && TotalOn(KeyLess, fields)
  {
    LexIsStrictTotal();
    assert forall x, y: Member<Shape> :: KeyLess(x, y) <==> LexLess(x.key, y.key);
    forall x, y | x in fields && y in fields && x != y
      ensures KeyLess(x, y) || KeyLess(y, x)
    {
      var i :| 0 <= i < |fields| && fields[i] == x;
      var j :| 0 <= j < |fields| && fields[j] == y;
      LexTrichotomy(x.key, y.key);
    }
  }

  lemma DistinctRearranged<V>(xs: seq<Member<V>>, ys: seq<Member<V>>)
    requires DistinctKeys(xs) && multiset(xs) == multiset(ys)
    ensures DistinctKeys(ys)
  {
    assert NoDuplicates(xs);
    NoDuplicatesFromMultiset(xs, ys);
    forall i, j | 0 <= i < j < |ys|
      ensures ys[i].key != ys[j].key
    {
      assert ys[i] in multiset(xs) && ys[j] in multiset(xs);
    }
  }

  /** The record of an object depends on the bag of its fields only, and determines it. */
  lemma RecordIsCanonical(f: seq<Member<Shape>>, g: seq<Member<Shape>>)
    requires DistinctKeys(f) && DistinctKeys(g)
    ensures FromEntries(Sort(KeyLess, f)) == FromEntries(Sort(KeyLess, g)) <==> multiset(f) == multiset(g)
  {
    KeyLessOrder(f);
    SortBag(KeyLess, f);
    SortBag(KeyLess, g);
    DistinctRearranged(f, Sort(KeyLess, f));
    DistinctRearranged(g, Sort(KeyLess, g));
    FromEntriesKeeps(Sort(KeyLess, f));
    FromEntriesKeeps(Sort(KeyLess, g));
    if multiset(f) == multiset(g) {
      SortIgnoresOrder(KeyLess, f, g);
    }
  }

  lemma {:induction false} SameStructureIffSameShape(a: Json, b: Json)
    requires WellFormed(a) && WellFormed(b)
    ensures SameStructure(a, b) <==> ShapeOf(a) == ShapeOf(b)
    decreases a
  {
    if a.Arr? && b.Arr? && a.items != [] && b.items != [] {
      SameStructureIffSameShape(a.items[0], b.items[0]);
    } else if a.Obj? && b.Obj? {
      var ms, ns := a.members, b.members;
      forall i, j | 0 <= i < |ms| && 0 <= j < |ns|
        ensures SameStructure(ms[i].value, ns[j].value) <==> ShapeOf(ms[i].value) == ShapeOf(ns[j].value)
      {
        SameStructureIffSameShape(ms[i].value, ns[j].value);
      }
      assert SameStructure(a, b) <==> FieldsMatch(ms, ns);
      ObjectShapes(ms, ns);
    }
  }

  ghost predicate FieldsMatch(ms: seq<Member<Json>>, ns: seq<Member<Json>>) {
    && KeysOf(ms) == KeysOf(ns)
    && forall i, j :: 0 <= i < |ms| && 0 <= j < |ns| && ms[i].key == ns[j].key ==> ShapeOf(ms[i].value) == ShapeOf(ns[j].value)
  }

  lemma ObjectShapes(ms: seq<Member<Json>>, ns: seq<Member<Json>>)
    requires DistinctKeys(ms) && DistinctKeys(ns)
    ensures ShapeOf(Obj(ms)) == ShapeOf(Obj(ns)) <==> FieldsMatch(ms, ns)
  {
    RecordIsCanonical(FieldShapes(ms), FieldShapes(ns));
    if multiset(FieldShapes(ms)) == multiset(FieldShapes(ns)) {
      RearrangedFieldsMatch(ms, ns);
    }
    if FieldsMatch(ms, ns) {
      MatchingFieldsAreRearranged(ms, ns);
    }
  }

  lemma RearrangedFieldsMatch(ms: seq<Member<Json>>, ns: seq<Member<Json>>)
    requires DistinctKeys(ms) && DistinctKeys(ns)
    requires multiset(FieldShapes(ms)) == multiset(FieldShapes(ns))
    ensures FieldsMatch(ms, ns)
  {
    FieldsIncluded(ms, ns);
    FieldsIncluded(ns, ms);
    KeysIncluded(ms, ns);
    KeysIncluded(ns, ms);
    FieldsInSync(ms, ns);
  }

  /** Every member of `ms` has a counterpart in `ns` with the same key and shape. */
  ghost predicate Counterparts(ms: seq<Member<Json>>, ns: seq<Member<Json>>) {
    forall i :: 0 <= i < |ms| ==> exists k :: 0 <= k < |ns| && ns[k].key == ms[i].key && ShapeOf(ns[k].value) == ShapeOf(ms[i].value)
  }

  lemma FieldsIncluded(ms: seq<Member<Json>>, ns: seq<Member<Json>>)
    requires multiset(FieldShapes(ms)) == multiset(FieldShapes(ns))
    ensures Counterparts(ms, ns)
  {
    var f, g := FieldShapes(ms), FieldShapes(ns);
    forall i | 0 <= i < |ms|
      ensures exists k :: 0 <= k < |ns| && ns[k].key == ms[i].key && ShapeOf(ns[k].value) == ShapeOf(ms[i].value)
    {
      assert f[i] in multiset(g);
      var k :| 0 <= k < |g| && g[k] == f[i];
    }
  }

  lemma KeysIncluded(ms: seq<Member<Json>>, ns: seq<Member<Json>>)
    requires Counterparts(ms, ns)
    ensures KeysOf(ms) <= KeysOf(ns)
  {
    forall key | key in KeysOf(ms)
      ensures key in KeysOf(ns)
    {
      var i :| 0 <= i < |ms| && ms[i].key == key;
      var k :| 0 <= k < |ns| && ns[k].key == ms[i].key;
    }
  }

  lemma FieldsInSync(ms: seq<Member<Json>>, ns: seq<Member<Json>>)
    requires DistinctKeys(ns) && KeysOf(ms) == KeysOf(ns)
    requires Counterparts(ms, ns)
    ensures FieldsMatch(ms, ns)
  {
    forall i, j | 0 <= i < |ms| && 0 <= j < |ns| && ms[i].key == ns[j].key
      ensures ShapeOf(ms[i].value) == ShapeOf(ns[j].value)
    {
      var k :| 0 <= k < |ns| && ns[k].key == ms[i].key && ShapeOf(ns[k].value) == ShapeOf(ms[i].value);
      assert k == j;
    }
  }

  lemma MatchingFieldsAreRearranged(ms: seq<Member<Json>>, ns: seq<Member<Json>>)
    requires DistinctKeys(ms) && DistinctKeys(ns) && FieldsMatch(ms, ns)
    ensures multiset(FieldShapes(ms)) == multiset(FieldShapes(ns))
  {
    var f, g := FieldShapes(ms), FieldShapes(ns);
    assert NoDuplicates(f) && NoDuplicates(g);
    forall field
      ensures field in f <==> field in g
    {
      if field in f {
        var i :| 0 <= i < |f| && f[i] == field;
        assert ms[i].key in KeysOf(ns);
        var j :| 0 <= j < |ns| && ns[j].key == ms[i].key;
        assert g[j] == field;
      }
      if field in g {
        var j :| 0 <= j < |g| && g[j] == field;
        assert ns[j].key in KeysOf(ms);
        var i :| 0 <= i < |ms| && ms[i].key == ns[j].key;
        assert f[i] == field;
      }
    }
    SameMembersNoDuplicates(f, g);
  }

  /** The source's comparison: equal serialised shapes exactly for bodies of the same structure. */
  lemma ShapeTextsDecideStructure(a: Json, b: Json)
    requires WellFormed(a) && WellFormed(b)
    ensures Stringify(ShapeOf(a)) == Stringify(ShapeOf(b)) <==> SameStructure(a, b)
  {
    StringifyInjective(ShapeOf(a), ShapeOf(b));
    SameStructureIffSameShape(a, b);
  }
}
