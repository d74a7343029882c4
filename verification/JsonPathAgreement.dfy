/** When the two path checkers agree: the exact condition on a body, and what it means for each path. */
module JsonPathAgreement {
  import opened Json
  import opened JsonPaths
  import opened JsonShape
  import opened JsObjects
  import opened Options
  import opened Ordering
  import opened Text

  /** Ends at a field: a path that ends at a list marker is never listed. */
  predicate EndsAtField(p: seq<string>) { p != [] && p[|p| - 1] != "[]" }

  /** No step of the path is an inherited property. */
  ghost predicate OwnSteps(p: seq<string>, proto: map<string, Json>) {
    forall i :: 0 <= i < |p| ==> p[i] == "[]" || p[i] !in proto
  }

  /** No key of the value is the name of an inherited property. */
  ghost predicate OwnKeys(value: Json, proto: map<string, Json>) {
    match value
    case Arr(items) => forall i :: 0 <= i < |items| ==> OwnKeys(items[i], proto)
    case Obj(members) => forall i :: 0 <= i < |members| ==> members[i].key !in proto && OwnKeys(members[i].value, proto)
    case _ => true
  }

  /** A path the shape lists becomes `p` when some of its list markers are dropped. */
  ghost predicate Covers(shape: Shape, p: seq<string>)
    decreases |p|, shape
  {
    p != [] &&
    match shape
    case ListOf(element) => (p[0] == "[]" && Covers(element, p[1..])) || Covers(element, p)
    case Record(fields) =>
      var field := Lookup(fields, p[0]);
      field.Some? && (p[1..] == [] || Covers(field.value, p[1..]))
    case _ => false
  }

  /** Field names are distinct and none is the list marker. */
  ghost predicate GoodShape(shape: Shape) {
    match shape
    case ListOf(element) => GoodShape(element)
    case Record(fields) =>
      DistinctKeys(fields) && forall i :: 0 <= i < |fields| ==> fields[i].key != "[]" && GoodShape(fields[i].value)
    case _ => true
  }

  // ----- What the condition is

  /** No object in the value has a member. */
  ghost predicate Fieldless(value: Json) {
    match value
    case Arr(items) => forall i :: 0 <= i < |items| ==> Fieldless(items[i])
    case Obj(members) => members == []
    case _ => true
  }

  /**
   The value has no more structure than the shape: every element of a list fits the one element
   shape, every member of an object is a field, and an object may stand where a list of such objects
   is expected. A value without fields fits any shape.
   */
  ghost predicate Fits(value: Json, shape: Shape)
    decreases value, shape
  {
    match value
    case Arr(items) =>
      Fieldless(value) || (shape.ListOf? && forall i :: 0 <= i < |items| ==> Fits(items[i], shape.element))
    case Obj(members) =>
      members == [] ||
      (match shape
       case ListOf(element) => Fits(value, element)
       case Record(fields) =>
         forall i :: 0 <= i < |members| ==>
           Lookup(fields, members[i].key).Some? && Fits(members[i].value, Lookup(fields, members[i].key).value)
       case _ => false)
    case _ => true
  }

  // ----- What fits is covered

  lemma {:induction false} FieldlessHasNoPath(value: Json, p: seq<string>, proto: map<string, Json>)
    requires Fieldless(value) && EndsAtField(p) && OwnSteps(p, proto)
    ensures !HasPath(value, p, proto)
    decreases |p|, value
  {
    if value.Arr? && HasPath(value, p, proto) {
      if p[0] == "[]" {
        var i :| 0 <= i < |value.items| && HasPath(value.items[i], p[1..], proto);
        FieldlessHasNoPath(value.items[i], p[1..], proto);
      } else {
        var i :| 0 <= i < |value.items| && HasPath(value.items[i], p, proto);
        FieldlessHasNoPath(value.items[i], p, proto);
      }
    }
  }

  /** Every path of a value that fits is covered. */
  lemma {:induction false} FittingPathIsCovered(value: Json, shape: Shape, p: seq<string>, proto: map<string, Json>)
    requires Fits(value, shape) && EndsAtField(p) && OwnSteps(p, proto) && HasPath(value, p, proto)
    ensures Covers(shape, p)
    decreases |p|, value, shape
  {
    if value.Arr? {
      if Fieldless(value) {
        FieldlessHasNoPath(value, p, proto);
      } else if p[0] == "[]" {
        var i :| 0 <= i < |value.items| && HasPath(value.items[i], p[1..], proto);
        FittingPathIsCovered(value.items[i], shape.element, p[1..], proto);
      } else {
        var i :| 0 <= i < |value.items| && HasPath(value.items[i], p, proto);
        FittingPathIsCovered(value.items[i], shape.element, p, proto);
      }
    } else if shape.ListOf? {
      FittingPathIsCovered(value, shape.element, p, proto);
    } else {
      var i := LookupIndex(value.members, p[0]);
      if p[1..] != [] {
        FittingPathIsCovered(value.members[i].value, Lookup(shape.fields, p[0]).value, p[1..], proto);
      }
    }
  }

  // ----- What does not fit is not covered

  lemma {:induction false} SomeField(value: Json, proto: map<string, Json>) returns (p: seq<string>)
    requires WellFormed(value) && NoMarkerKeys(value) && OwnKeys(value, proto) && !Fieldless(value)
    ensures EndsAtField(p) && OwnSteps(p, proto) && HasPath(value, p, proto)
  {
    match value {
      case Arr(items) =>
        var i :| 0 <= i < |items| && !Fieldless(items[i]);
        var rest := SomeField(items[i], proto);
        p := ["[]"] + rest;
        assert p[1..] == rest;
      case Obj(members) =>
        p := [members[0].key];
        MemberPath(members, 0, [], proto);
        assert p == [members[0].key] + [];
    }
  }

  lemma NoMarkerField(fields: seq<Member<Shape>>)
    requires forall i :: 0 <= i < |fields| ==> fields[i].key != "[]"
    ensures Lookup(fields, "[]") == None
    decreases |fields|
  {
    if fields != [] {
      NoMarkerField(fields[1..]);
    }
  }

  /** A covered path stays covered when its first marker is dropped. */
  lemma {:induction false} DropFirst(shape: Shape, p: seq<string>)
    requires GoodShape(shape) && p != [] && p[0] == "[]" && Covers(shape, p)
    ensures Covers(shape, p[1..])
    decreases shape
  {
    match shape {
      case ListOf(element) =>
        if !Covers(element, p[1..]) {
          DropFirst(element, p);
        }
      case Record(fields) =>
        NoMarkerField(fields);
    }
  }

  /** A value that does not fit has a path that is not covered. */
  lemma {:induction false} UncoveredPath(value: Json, shape: Shape, proto: map<string, Json>) returns (p: seq<string>)
    requires WellFormed(value) && NoMarkerKeys(value) && OwnKeys(value, proto) && GoodShape(shape) && !Fits(value, shape)
    ensures EndsAtField(p) && OwnSteps(p, proto) && HasPath(value, p, proto) && !Covers(shape, p)
    decreases value, shape
  {
    match value {
      case Arr(items) =>
        if shape.ListOf? {
          var i :| 0 <= i < |items| && !Fits(items[i], shape.element);
          var rest := UncoveredPath(items[i], shape.element, proto);
          p := ["[]"] + rest;
          assert p[1..] == rest;
          if Covers(shape.element, p) {
            DropFirst(shape.element, p);
          }
        } else {
          p := SomeListField(items, proto);
          if shape.Record? {
            NoMarkerField(shape.fields);
          }
        }
      case Obj(members) =>
        if shape.ListOf? {
          p := UncoveredPath(value, shape.element, proto);
        } else if shape.Record? {
          var i :| 0 <= i < |members| && !(Lookup(shape.fields, members[i].key).Some?
                   && Fits(members[i].value, Lookup(shape.fields, members[i].key).value));
          p := UncoveredMember(members, i, shape.fields, proto);
        } else {
          p := SomeField(value, proto);
        }
    }
  }

  lemma SomeListField(items: seq<Json>, proto: map<string, Json>) returns (p: seq<string>)
    requires WellFormed(Arr(items)) && NoMarkerKeys(Arr(items)) && OwnKeys(Arr(items), proto) && !Fieldless(Arr(items))
    ensures EndsAtField(p) && OwnSteps(p, proto) && HasPath(Arr(items), p, proto) && p[0] == "[]"
  {
    var i :| 0 <= i < |items| && !Fieldless(items[i]);
    var rest := SomeField(items[i], proto);
    p := ["[]"] + rest;
    assert p[1..] == rest;
  }

  lemma {:induction false} UncoveredMember(members: seq<Member<Json>>, i: nat, fields: seq<Member<Shape>>, proto: map<string, Json>)
    returns (p: seq<string>)
    requires WellFormed(Obj(members)) && NoMarkerKeys(Obj(members)) && OwnKeys(Obj(members), proto)
    requires GoodShape(Record(fields)) && i < |members|
    requires Lookup(fields, members[i].key).Some? ==> !Fits(members[i].value, Lookup(fields, members[i].key).value)
    ensures EndsAtField(p) && OwnSteps(p, proto) && HasPath(Obj(members), p, proto) && !Covers(Record(fields), p)
    decreases members, 0
  {
    var key := members[i].key;
    if Lookup(fields, key).None? {
      p := [key];
      MemberPath(members, i, [], proto);
      assert p == [key] + [];
    } else {
      var k := LookupIndex(fields, key);
      var rest := UncoveredPath(members[i].value, fields[k].value, proto);
      p := [key] + rest;
      assert p[1..] == rest;
      MemberPath(members, i, rest, proto);
    }
  }

  // ----- Shapes of bodies

  lemma {:induction false} ShapeIsGood(value: Json)
    requires WellFormed(value) && NoMarkerKeys(value)
    ensures GoodShape(ShapeOf(value))
  {
    match value
    case Arr(items) =>
      if items != [] {
        ShapeIsGood(items[0]);
      }
    case Obj(members) =>
      var fields := ShapeOf(value).fields;
      RecordKeysDistinct(members);
      forall k | 0 <= k < |fields|
        ensures fields[k].key != "[]" && GoodShape(fields[k].value)
      {
        var i := RecordFieldOrigin(members, k);
        ShapeIsGood(members[i].value);
      }
    case _ =>
  }

  lemma RecordKeysDistinct(members: seq<Member<Json>>)
    requires DistinctKeys(members)
    ensures DistinctKeys(ShapeOf(Obj(members)).fields)
  {
    var f := FieldShapes(members);
    SortBag(KeyLess, f);
    DistinctRearranged(f, Sort(KeyLess, f));
    FromEntriesKeeps(Sort(KeyLess, f));
  }

  // ----- Covered and listed

  lemma {:induction false} CoveringPath(shape: Shape, p: seq<string>) returns (parts: seq<string>)
    requires Covers(shape, p)
    ensures Lists(shape, parts) && DropsMarkers(parts, p)
    decreases |p|, shape
  {
    match shape {
      case ListOf(element) =>
        var rest: seq<string>;
        if p[0] == "[]" && Covers(element, p[1..]) {
          rest := CoveringPath(element, p[1..]);
        } else {
          rest := CoveringPath(element, p);
        }
        parts := ["[]"] + rest;
        assert parts[1..] == rest;
      case Record(fields) =>
        var k := LookupIndex(fields, p[0]);
        if p[1..] == [] {
          parts := [p[0]];
        } else {
          var rest := CoveringPath(fields[k].value, p[1..]);
          parts := [p[0]] + rest;
          assert parts[1..] == rest;
        }
    }
  }

  lemma {:induction false} ListedIsCovered(shape: Shape, parts: seq<string>, p: seq<string>)
    requires GoodShape(shape) && Lists(shape, parts) && DropsMarkers(parts, p)
    ensures Covers(shape, p)
    decreases shape
  {
    match shape {
      case ListOf(element) =>
        if DropsMarkers(parts[1..], p) {
          ListedIsCovered(element, parts[1..], p);
        } else {
          ListedIsCovered(element, parts[1..], p[1..]);
        }
      case Record(fields) =>
        var k :| 0 <= k < |fields| && fields[k].key == parts[0] && (parts[1..] == [] || Lists(fields[k].value, parts[1..]));
        LookupAt(fields, k);
        if parts[1..] != [] {
          ListedIsCovered(fields[k].value, parts[1..], p[1..]);
        }
    }
  }

  // ----- Agreement

  /** shapeKeys lists the path, perhaps with more list markers. */
  ghost predicate Listed(value: Json, p: seq<string>) {
    exists key :: key in ShapeKeys(ShapeOf(value), "") && DropsMarkers(Split(key, '.'), p)
  }

  lemma ListedIffCovered(value: Json, p: seq<string>)
    requires WellFormed(value) && PlainKeys(value)
    ensures Listed(value, p) <==> Covers(ShapeOf(value), p)
  {
    PlainHasNoMarkers(value);
    ShapeIsGood(value);
    if Listed(value, p) {
      var key :| key in ShapeKeys(ShapeOf(value), "") && DropsMarkers(Split(key, '.'), p);
      var parts := KeyIsPath(ShapeOf(value), "", key);
      assert key == Join(parts, '.');
      PlainPathsAreDotFree(value, parts);
      SplitsBackIff(parts);
      ListedIsCovered(ShapeOf(value), parts, p);
    }
    if Covers(ShapeOf(value), p) {
      var parts := CoveringPath(ShapeOf(value), p);
      PathIsKey(ShapeOf(value), "", parts);
      PlainPathsAreDotFree(value, parts);
      SplitsBackIff(parts);
      var key := Join(parts, '.');
      assert "" + key == key;
    }
  }

  /** In a body that fits its own shape, a path to a field is found exactly when it is listed. */
  lemma FoundIffListed(value: Json, p: seq<string>, proto: map<string, Json>)
    requires WellFormed(value) && PlainKeys(value) && Fits(value, ShapeOf(value))
    requires EndsAtField(p) && OwnSteps(p, proto)
    ensures HasPath(value, p, proto) <==> Listed(value, p)
  {
    ListedIffCovered(value, p);
    if HasPath(value, p, proto) {
      FittingPathIsCovered(value, ShapeOf(value), p, proto);
    }
    if Listed(value, p) {
      var key :| key in ShapeKeys(ShapeOf(value), "") && DropsMarkers(Split(key, '.'), p);
      ListedPathsAreFound(value, key, proto);
      FewerMarkersStillFound(value, Split(key, '.'), p, proto);
    }
  }

  /**
   Whatever objects inherit, the checkers agree on every path to a field that names no inherited
   property exactly when the body fits its own shape.
   */
  lemma CheckersAgreeIff(value: Json, proto: map<string, Json>)
    requires WellFormed(value) && PlainKeys(value) && OwnKeys(value, proto)
    ensures (forall p :: EndsAtField(p) && OwnSteps(p, proto) ==> (HasPath(value, p, proto) <==> Listed(value, p)))
       <==> Fits(value, ShapeOf(value))
  {
    if Fits(value, ShapeOf(value)) {
      forall p | EndsAtField(p) && OwnSteps(p, proto)
        ensures HasPath(value, p, proto) <==> Listed(value, p)
      {
        FoundIffListed(value, p, proto);
      }
    } else {
      PlainHasNoMarkers(value);
      ShapeIsGood(value);
      var p := UncoveredPath(value, ShapeOf(value), proto);
      ListedIffCovered(value, p);
      assert EndsAtField(p) && OwnSteps(p, proto) && HasPath(value, p, proto) && !Listed(value, p);
    }
  }

  // ----- Inherited names

  /** An inherited name is found even in the empty object, which fits its shape and lists nothing. */
  lemma InheritedNameDiffers(name: string, proto: map<string, Json>)
    requires name in proto && name != "[]"
    ensures var empty := Obj([]);
            PlainKeys(empty) && Fits(empty, ShapeOf(empty)) && HasPath(empty, [name], proto) && !Listed(empty, [name])
  {
    assert [name][1..] == [];
    assert FieldShapes([]) == [];
    assert ShapeOf(Obj([])) == Record([]);
    ListedIffCovered(Obj([]), [name]);
  }

  /** The value holds no object at all. */
  ghost predicate Objectless(value: Json) {
    match value
    case Arr(items) => forall i :: 0 <= i < |items| ==> Objectless(items[i])
    case Obj(_) => false
    case _ => true
  }

  lemma {:induction false} ObjectlessHasNoPath(value: Json, p: seq<string>, proto: map<string, Json>)
    requires Objectless(value) && EndsAtField(p)
    ensures !HasPath(value, p, proto)
    decreases |p|, value
  {
    if value.Arr? && HasPath(value, p, proto) {
      if p[0] == "[]" {
        var i :| 0 <= i < |value.items| && HasPath(value.items[i], p[1..], proto);
        ObjectlessHasNoPath(value.items[i], p[1..], proto);
      } else {
        var i :| 0 <= i < |value.items| && HasPath(value.items[i], p, proto);
        ObjectlessHasNoPath(value.items[i], p, proto);
      }
    }
  }

  lemma {:induction false} NoMemberOfThatName(members: seq<Member<Json>>, name: string)
    requires forall i :: 0 <= i < |members| ==> members[i].key != name
    ensures Lookup(members, name) == None
  {
    if members != [] {
      NoMemberOfThatName(members[1..], name);
    }
  }

  /** An inherited name is found through any object of the value. */
  lemma {:induction false} InheritedPath(value: Json, name: string, proto: map<string, Json>) returns (p: seq<string>)
    requires !Objectless(value) && OwnKeys(value, proto) && name in proto && name != "[]"
    ensures EndsAtField(p) && p[|p| - 1] == name && HasPath(value, p, proto)
  {
    match value {
      case Arr(items) =>
        var i :| 0 <= i < |items| && !Objectless(items[i]);
        var rest := InheritedPath(items[i], name, proto);
        p := ["[]"] + rest;
        assert p[1..] == rest;
      case Obj(members) =>
        p := [name];
        assert p[1..] == [];
        NoMemberOfThatName(members, name);
    }
  }

  ghost predicate NamesField(shape: Shape, name: string) {
    match shape
    case ListOf(element) => NamesField(element, name)
    case Record(fields) => exists i :: 0 <= i < |fields| && (fields[i].key == name || NamesField(fields[i].value, name))
    case _ => false
  }

  lemma {:induction false} CoveredEndsAtNamed(shape: Shape, p: seq<string>)
    requires Covers(shape, p)
    ensures NamesField(shape, p[|p| - 1])
    decreases |p|, shape
  {
    match shape {
      case ListOf(element) =>
        if p[0] == "[]" && Covers(element, p[1..]) {
          CoveredEndsAtNamed(element, p[1..]);
        } else {
          CoveredEndsAtNamed(element, p);
        }
      case Record(fields) =>
        var i := LookupIndex(fields, p[0]);
        if p[1..] != [] {
          CoveredEndsAtNamed(fields[i].value, p[1..]);
        }
    }
  }

  lemma {:induction false} InheritedIsNotNamed(value: Json, name: string, proto: map<string, Json>)
    requires WellFormed(value) && OwnKeys(value, proto) && name in proto
    ensures !NamesField(ShapeOf(value), name)
  {
    match value
    case Arr(items) =>
      if items != [] {
        InheritedIsNotNamed(items[0], name, proto);
      }
    case Obj(members) =>
      var fields := ShapeOf(value).fields;
      forall k | 0 <= k < |fields|
        ensures fields[k].key != name && !NamesField(fields[k].value, name)
      {
        var i := RecordFieldOrigin(members, k);
        InheritedIsNotNamed(members[i].value, name, proto);
      }
    case _ =>
  }

  /**
   With an inherited property, as every parsed object has, the checkers agree on all paths to a field,
   inherited names included, exactly when the body holds no object.
   */
  lemma AgreeOnInheritedIff(value: Json, name: string, proto: map<string, Json>)
    requires WellFormed(value) && PlainKeys(value) && OwnKeys(value, proto)
    requires name in proto && name != "[]"
    ensures (forall p :: EndsAtField(p) ==> (HasPath(value, p, proto) <==> Listed(value, p))) <==> Objectless(value)
  {
    if Objectless(value) {
      forall p | EndsAtField(p)
        ensures HasPath(value, p, proto) <==> Listed(value, p)
      {
        ObjectlessHasNoPath(value, p, proto);
        NothingListed(value, p);
      }
    } else {
      var p := InheritedPath(value, name, proto);
      ListedIffCovered(value, p);
      InheritedIsNotNamed(value, name, proto);
      if Covers(ShapeOf(value), p) {
        CoveredEndsAtNamed(ShapeOf(value), p);
      }
      assert EndsAtField(p) && HasPath(value, p, proto) && !Listed(value, p);
    }
  }

  lemma NothingListed(value: Json, p: seq<string>)
    requires WellFormed(value) && PlainKeys(value) && Objectless(value) && EndsAtField(p)
    ensures !Listed(value, p)
  {
    if Listed(value, p) {
      var key :| key in ShapeKeys(ShapeOf(value), "") && DropsMarkers(Split(key, '.'), p);
      ListedPathsAreFound(value, key, map[]);
      FewerMarkersStillFound(value, Split(key, '.'), p, map[]);
      ObjectlessHasNoPath(value, p, map[]);
    }
  }

  /** Every element of every list has the structure of the first one. */
  ghost predicate Uniform(value: Json) {
    match value
    case Arr(items) => forall i :: 0 <= i < |items| ==> Uniform(items[i]) && SameStructure(items[i], items[0])
    case Obj(members) => forall i :: 0 <= i < |members| ==> Uniform(members[i].value)
    case _ => true
  }

  lemma FieldOfMember(members: seq<Member<Json>>, i: nat)
    requires DistinctKeys(members) && i < |members|
    ensures Lookup(ShapeOf(Obj(members)).fields, members[i].key) == Some(ShapeOf(members[i].value))
  {
    var f := FieldShapes(members);
    var fields := ShapeOf(Obj(members)).fields;
    SortBag(KeyLess, f);
    DistinctRearranged(f, Sort(KeyLess, f));
    FromEntriesKeeps(Sort(KeyLess, f));
    assert f[i] in multiset(f);
    assert f[i] in multiset(fields);
    var k :| 0 <= k < |fields| && fields[k] == f[i];
    LookupAt(fields, k);
  }

  /** Lists of like elements are enough. */
  lemma {:induction false} UniformFits(value: Json)
    requires WellFormed(value) && Uniform(value)
    ensures Fits(value, ShapeOf(value))
  {
    match value
    case Arr(items) =>
      forall i | 0 <= i < |items|
        ensures Fits(items[i], ShapeOf(items[0]))
      {
        UniformFits(items[i]);
        SameStructureIffSameShape(items[i], items[0]);
      }
    case Obj(members) =>
      forall i | 0 <= i < |members|
        ensures Lookup(ShapeOf(value).fields, members[i].key) == Some(ShapeOf(members[i].value))
        ensures Fits(members[i].value, ShapeOf(members[i].value))
      {
        FieldOfMember(members, i);
        UniformFits(members[i].value);
      }
    case _ =>
  }
}
