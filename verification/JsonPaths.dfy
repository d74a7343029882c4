/**
 Two independent ways to ask whether a body has a path: looking the path up in the value, and
 listing the paths of its shape.
 */
module JsonPaths {
  import opened Json
  import opened JsObjects
  import opened JsonShape
  import opened Options
  import opened Ordering
  import opened Text

  /**
   hasPath. `proto` holds the inherited properties that the `in` operator also sees on objects; the
   results below hold whatever they are.
   */
  predicate HasPath(value: Json, parts: seq<string>, proto: map<string, Json>)
    decreases |parts|, value
  {
    if parts == [] then true
    else if parts[0] == "[]" then
      value.Arr? && exists i :: 0 <= i < |value.items| && HasPath(value.items[i], parts[1..], proto)
    else
      match value
      case Arr(items) => exists i :: 0 <= i < |items| && HasPath(items[i], parts, proto)
      case Obj(members) =>
        var own := Lookup(members, parts[0]);
        if own.Some? then HasPath(own.value, parts[1..], proto)
        else parts[0] in proto && HasPath(proto[parts[0]], parts[1..], proto)
      case _ => false
  }

  /** Paths as text: the fields of a record, and "[]" for the element of a list. */
  function ShapeKeys(shape: Shape, prefix: string): set<string>
    decreases shape
  {
    match shape
    case ListOf(element) => ShapeKeys(element, prefix + "[].")
    case Record(fields) => FieldKeys(fields, prefix)
    case _ => {}
  }

  function FieldKeys(fields: seq<Member<Shape>>, prefix: string): set<string>
    decreases fields
  {
    if fields == [] then {}
    else {prefix + fields[0].key} + ShapeKeys(fields[0].value, prefix + fields[0].key + ".") + FieldKeys(fields[1..], prefix)
  }

  // ----- Every listed path is found

  predicate DotFree(part: string) { '.' !in part }

  /** No key contains a dot or is the list marker. */
  ghost predicate PlainKeys(value: Json) {
    match value
    case Arr(items) => forall i :: 0 <= i < |items| ==> PlainKeys(items[i])
    case Obj(members) =>
      forall i :: 0 <= i < |members| ==>
        DotFree(members[i].key) && members[i].key != "[]" && PlainKeys(members[i].value)
    case _ => true
  }

  lemma {:induction false} FieldKeyOrigin(fields: seq<Member<Shape>>, prefix: string, key: string) returns (i: nat)
    requires key in FieldKeys(fields, prefix)
    ensures i < |fields|
    ensures key == prefix + fields[i].key || key in ShapeKeys(fields[i].value, prefix + fields[i].key + ".")
  {
    if key == prefix + fields[0].key || key in ShapeKeys(fields[0].value, prefix + fields[0].key + ".") {
      i := 0;
    } else {
      var j := FieldKeyOrigin(fields[1..], prefix, key);
      i := j + 1;
    }
  }

  /** Each field of an object's shape is one of its members. */
  lemma RecordFieldOrigin(members: seq<Member<Json>>, k: nat) returns (i: nat)
    requires DistinctKeys(members) && k < |ShapeOf(Obj(members)).fields|
    ensures i < |members| && ShapeOf(Obj(members)).fields[k] == Member(members[i].key, ShapeOf(members[i].value))
  {
    var f := FieldShapes(members);
    var fields := ShapeOf(Obj(members)).fields;
    SortBag(KeyLess, f);
    DistinctRearranged(f, Sort(KeyLess, f));
    FromEntriesKeeps(Sort(KeyLess, f));
    assert fields[k] in multiset(f);
    i :| 0 <= i < |f| && f[i] == fields[k];
  }

  /** The path leads through the shape to a field: the paths shapeKeys lists, before they are joined. */
  ghost predicate Lists(shape: Shape, parts: seq<string>)
    decreases shape
  {
    parts != [] &&
    match shape
    case ListOf(element) => parts[0] == "[]" && Lists(element, parts[1..])
    case Record(fields) =>
      exists i :: 0 <= i < |fields| && fields[i].key == parts[0] && (parts[1..] == [] || Lists(fields[i].value, parts[1..]))
    case _ => false
  }

  /** Every listed key is a path of the shape, joined at dots. */
  lemma {:induction false} KeyIsPath(shape: Shape, prefix: string, key: string) returns (parts: seq<string>)
    requires key in ShapeKeys(shape, prefix)
    ensures Lists(shape, parts) && key == prefix + Join(parts, '.')
    decreases shape
  {
    match shape {
      case ListOf(element) =>
        var rest := KeyIsPath(element, prefix + "[].", key);
        parts := ["[]"] + rest;
        assert parts[1..] == rest;
        JoinFirst(prefix, "[]", rest);
      case Record(fields) =>
        var i := FieldKeyOrigin(fields, prefix, key);
        if key == prefix + fields[i].key {
          parts := [fields[i].key];
        } else {
          var rest := KeyIsPath(fields[i].value, prefix + fields[i].key + ".", key);
          parts := [fields[i].key] + rest;
          assert parts[1..] == rest;
          JoinFirst(prefix, fields[i].key, rest);
        }
    }
  }

  lemma {:induction false} FieldKeysAt(fields: seq<Member<Shape>>, prefix: string, i: nat)
    requires i < |fields|
    ensures prefix + fields[i].key in FieldKeys(fields, prefix)
    ensures ShapeKeys(fields[i].value, prefix + fields[i].key + ".") <= FieldKeys(fields, prefix)
  {
    if i > 0 {
      FieldKeysAt(fields[1..], prefix, i - 1);
    }
  }

  /** Every path of the shape, joined at dots, is a listed key. */
  lemma {:induction false} PathIsKey(shape: Shape, prefix: string, parts: seq<string>)
    requires Lists(shape, parts)
    ensures prefix + Join(parts, '.') in ShapeKeys(shape, prefix)
    decreases shape
  {
    assert parts == [parts[0]] + parts[1..];
    match shape {
      case ListOf(element) =>
        PathIsKey(element, prefix + "[].", parts[1..]);
        assert prefix + "[]" + "." == prefix + "[].";
        JoinFirst(prefix, "[]", parts[1..]);
      case Record(fields) =>
        var i :| 0 <= i < |fields| && fields[i].key == parts[0] && (parts[1..] == [] || Lists(fields[i].value, parts[1..]));
        FieldKeysAt(fields, prefix, i);
        if parts[1..] != [] {
          PathIsKey(fields[i].value, prefix + parts[0] + ".", parts[1..]);
          JoinFirst(prefix, parts[0], parts[1..]);
        }
    }
  }

  /** No key is the list marker. */
  ghost predicate NoMarkerKeys(value: Json) {
    match value
    case Arr(items) => forall i :: 0 <= i < |items| ==> NoMarkerKeys(items[i])
    case Obj(members) => forall i :: 0 <= i < |members| ==> members[i].key != "[]" && NoMarkerKeys(members[i].value)
    case _ => true
  }

  /** Every path of a body's shape is a path of the body, whatever its other keys look like. */
  lemma {:induction false} ShapePathsAreFound(value: Json, parts: seq<string>, proto: map<string, Json>)
    requires WellFormed(value) && NoMarkerKeys(value) && Lists(ShapeOf(value), parts)
    ensures HasPath(value, parts, proto)
    decreases value
  {
    assert parts == [parts[0]] + parts[1..];
    match value {
      case Arr(items) =>
        ShapePathsAreFound(items[0], parts[1..], proto);
      case Obj(members) =>
        var fields := ShapeOf(value).fields;
        var k :| 0 <= k < |fields| && fields[k].key == parts[0] && (parts[1..] == [] || Lists(fields[k].value, parts[1..]));
        var i := RecordFieldOrigin(members, k);
        if parts[1..] != [] {
          ShapePathsAreFound(members[i].value, parts[1..], proto);
        }
        MemberPath(members, i, parts[1..], proto);
    }
  }

  lemma MemberPath(members: seq<Member<Json>>, i: nat, rest: seq<string>, proto: map<string, Json>)
    requires DistinctKeys(members) && i < |members| && members[i].key != "[]"
    requires HasPath(members[i].value, rest, proto)
    ensures HasPath(Obj(members), [members[i].key] + rest, proto)
  {
    LookupAt(members, i);
    assert ([members[i].key] + rest)[1..] == rest;
  }

  lemma JoinFirst(prefix: string, part: string, rest: seq<string>)
    requires rest != []
    ensures prefix + part + "." + Join(rest, '.') == prefix + Join([part] + rest, '.')
  {
    assert ([part] + rest)[1..] == rest;
  }

  /** Splitting a joined path at its dots gives the path back exactly when no part contains a dot. */
  lemma SplitsBackIff(parts: seq<string>)
    requires parts != []
    ensures Split(Join(parts, '.'), '.') == parts <==> forall i :: 0 <= i < |parts| ==> DotFree(parts[i])
  {
    if forall i :: 0 <= i < |parts| ==> DotFree(parts[i]) {
      SplitJoin(parts, '.');
    }
  }

  lemma {:induction false} PlainHasNoMarkers(value: Json)
    requires PlainKeys(value)
    ensures NoMarkerKeys(value)
  {
    match value
    case Arr(items) =>
      forall i | 0 <= i < |items|
        ensures NoMarkerKeys(items[i])
      {
        PlainHasNoMarkers(items[i]);
      }
    case Obj(members) =>
      forall i | 0 <= i < |members|
        ensures NoMarkerKeys(members[i].value)
      {
        PlainHasNoMarkers(members[i].value);
      }
    case _ =>
  }

  lemma {:induction false} PlainPathsAreDotFree(value: Json, parts: seq<string>)
    requires WellFormed(value) && PlainKeys(value) && Lists(ShapeOf(value), parts)
    ensures forall i :: 0 <= i < |parts| ==> DotFree(parts[i])
    decreases value
  {
    assert parts == [parts[0]] + parts[1..];
    match value {
      case Arr(items) =>
        PlainPathsAreDotFree(items[0], parts[1..]);
      case Obj(members) =>
        var fields := ShapeOf(value).fields;
        var k :| 0 <= k < |fields| && fields[k].key == parts[0] && (parts[1..] == [] || Lists(fields[k].value, parts[1..]));
        var i := RecordFieldOrigin(members, k);
        if parts[1..] != [] {
          PlainPathsAreDotFree(members[i].value, parts[1..]);
        }
    }
  }

  /** Listed paths are found: every key of the shape, split at its dots, is a path of the value. */
  lemma ListedPathsAreFound(value: Json, key: string, proto: map<string, Json>)
    requires WellFormed(value) && PlainKeys(value)
    requires key in ShapeKeys(ShapeOf(value), "")
    ensures HasPath(value, Split(key, '.'), proto)
  {
    var parts := KeyIsPath(ShapeOf(value), "", key);
    assert key == Join(parts, '.');
    PlainHasNoMarkers(value);
    PlainPathsAreDotFree(value, parts);
    SplitsBackIff(parts);
    ShapePathsAreFound(value, parts, proto);
  }

  lemma SingleField(key: string)
    ensures ShapeOf(Obj([Member(key, Null)])) == Record([Member(key, Kind("null"))])
  {
    var f := [Member(key, Kind("null"))];
    assert FieldShapes([Member(key, Null)]) == f;
    assert Sort(KeyLess, f) == f;
    assert f[..0] == [];
    assert FromEntries(f) == f;
  }

  lemma NotAMember(key: string, parts: seq<string>)
    requires parts != [] && parts[0] != key && parts[0] != "[]"
    ensures !HasPath(Obj([Member(key, Null)]), parts, map[])
  {
    assert Lookup([Member(key, Null)], parts[0]) == None;
  }

  /** With a dotted key the listed path is not found. */
  lemma DottedKeyDiffers()
    ensures var dotted := Obj([Member("a.b", Null)]);
            "a.b" in ShapeKeys(ShapeOf(dotted), "") && !HasPath(dotted, Split("a.b", '.'), map[])
  {
    SingleField("a.b");
    assert "a.b" in FieldKeys([Member("a.b", Kind("null"))], "") by {
      assert "" + "a.b" == "a.b";
    }
    assert Split("a.b", '.') == ["a", "b"] by {
      SplitJoin(["a", "b"], '.');
      assert Join(["a", "b"], '.') == "a.b";
    }
    NotAMember("a.b", ["a", "b"]);
  }

  /** A path behind the first element of a list is not listed. */
  lemma LaterElementDiffers()
    ensures var mixed := Arr([Null, Obj([Member("a", Null)])]);
            HasPath(mixed, ["[]", "a"], map[]) && "[].a" !in ShapeKeys(ShapeOf(mixed), "")
  {
    var items := [Null, Obj([Member("a", Null)])];
    assert HasPath(items[1], ["a"], map[]) by {
      assert Lookup([Member("a", Null)], "a") == Some(Null);
      assert ["a"][1..] == [];
    }
    assert ["[]", "a"][1..] == ["a"];
    assert ShapeOf(Arr(items)) == ListOf(Kind("null"));
  }

  // ----- List markers

  /** `q` is `p` with some of its list markers removed. */
  ghost predicate DropsMarkers(p: seq<string>, q: seq<string>) {
    if p == [] then q == []
    else (p[0] == "[]" && DropsMarkers(p[1..], q)) || (q != [] && q[0] == p[0] && DropsMarkers(p[1..], q[1..]))
  }

  /** A path of an element is a path of the list. */
  lemma {:induction false} ElementPath(items: seq<Json>, i: nat, q: seq<string>, proto: map<string, Json>)
    requires i < |items| && HasPath(items[i], q, proto)
    ensures HasPath(Arr(items), q, proto)
    decreases |q|
  {
    if q != [] && q[0] == "[]" {
      var inner := items[i].items;
      var j :| 0 <= j < |inner| && HasPath(inner[j], q[1..], proto);
      ElementPath(inner, j, q[1..], proto);
      assert items[i] == Arr(inner);
    }
  }

  /** Removing list markers from a path never loses a path that was there. */
  lemma {:induction false} FewerMarkersStillFound(value: Json, p: seq<string>, q: seq<string>, proto: map<string, Json>)
    requires DropsMarkers(p, q) && HasPath(value, p, proto)
    ensures HasPath(value, q, proto)
    decreases |p|, value
  {
    if p != [] {
      if p[0] == "[]" {
        var i :| 0 <= i < |value.items| && HasPath(value.items[i], p[1..], proto);
        if DropsMarkers(p[1..], q) {
          FewerMarkersStillFound(value.items[i], p[1..], q, proto);
          ElementPath(value.items, i, q, proto);
        } else {
          FewerMarkersStillFound(value.items[i], p[1..], q[1..], proto);
        }
      } else if value.Arr? {
        var i :| 0 <= i < |value.items| && HasPath(value.items[i], p, proto);
        FewerMarkersStillFound(value.items[i], p, q, proto);
      } else {
        var own := Lookup(value.members, p[0]);
        FewerMarkersStillFound(if own.Some? then own.value else proto[p[0]], p[1..], q[1..], proto);
      }
    }
  }

  // ----- Required shapes

  datatype Reason = UpstreamMissing(key: string) | JellyrinMissing(key: string)

  lemma {:induction false} FieldKeysSnoc(fields: seq<Member<Shape>>, last: Member<Shape>, prefix: string)
    ensures FieldKeys(fields + [last], prefix)
         == FieldKeys(fields, prefix) + {prefix + last.key} + ShapeKeys(last.value, prefix + last.key + ".")
  {
    if fields == [] {
      assert fields + [last] == [last];
    } else {
      assert (fields + [last])[1..] == fields[1..] + [last];
      FieldKeysSnoc(fields[1..], last, prefix);
    }
  }

  /** shapeKeys, growing its set field by field. */
  method CollectShapeKeys(shape: Shape, prefix: string) returns (keys: set<string>)
    ensures keys == ShapeKeys(shape, prefix)
    decreases shape
  {
    keys := {};
    match shape {
      case ListOf(element) => keys := CollectShapeKeys(element, prefix + "[].");
      case Record(fields) =>
        var i := 0;
        while i < |fields|
          invariant i <= |fields|
          invariant keys == FieldKeys(fields[..i], prefix)
        {
          var fullKey := prefix + fields[i].key;
          var childKeys := CollectShapeKeys(fields[i].value, fullKey + ".");
          assert fields[..i + 1] == fields[..i] + [fields[i]];
          FieldKeysSnoc(fields[..i], fields[i], prefix);
          keys := keys + {fullKey} + childKeys;
          i := i + 1;
        }
        assert fields[..i] == fields;
      case _ =>
    }
  }

  function MissingFrom(upstreamKeys: set<string>, jellyrinKeys: set<string>): string -> seq<Reason> {
    key =>
      (if key !in upstreamKeys then [UpstreamMissing(key)] else [])
      + (if key !in jellyrinKeys then [JellyrinMissing(key)] else [])
  }

  /** For each required key in turn, however often it is listed, the side or sides that miss it. */
  method CompareRequiredShape(required: seq<string>, upstreamShape: Shape, jellyrinShape: Shape) returns (reasons: seq<Reason>)
    ensures reasons == FlatMap(MissingFrom(ShapeKeys(upstreamShape, ""), ShapeKeys(jellyrinShape, "")), required)
    ensures forall key :: UpstreamMissing(key) in reasons <==> key in required && key !in ShapeKeys(upstreamShape, "")
    ensures forall key :: JellyrinMissing(key) in reasons <==> key in required && key !in ShapeKeys(jellyrinShape, "")
  {
    reasons := [];
    var upstreamKeys := CollectShapeKeys(upstreamShape, "");
    var jellyrinKeys := CollectShapeKeys(jellyrinShape, "");
    ghost var missing := MissingFrom(upstreamKeys, jellyrinKeys);
    for i := 0 to |required|
      invariant reasons == FlatMap(missing, required[..i])
    {
      FlatMapNext(missing, required, i);
      ghost var before := reasons;
      if required[i] !in upstreamKeys {
        reasons := reasons + [UpstreamMissing(required[i])];
      }
      if required[i] !in jellyrinKeys {
        reasons := reasons + [JellyrinMissing(required[i])];
      }
      assert reasons == before + missing(required[i]);
    }
    WholePrefix(required, |required|);
    MissingExactly(required, upstreamKeys, jellyrinKeys);
  }

  /** The reasons, one required key after the other: first what the upstream shape misses, then what jellyrin's does. */
  lemma ReasonsInOrder(required: seq<string>, key: string, upstreamKeys: set<string>, jellyrinKeys: set<string>)
    ensures FlatMap(MissingFrom(upstreamKeys, jellyrinKeys), []) == []
    ensures var before, after := FlatMap(MissingFrom(upstreamKeys, jellyrinKeys), required),
                                 FlatMap(MissingFrom(upstreamKeys, jellyrinKeys), required + [key]);
            && (key in upstreamKeys && key in jellyrinKeys ==> after == before)
            && (key in upstreamKeys && key !in jellyrinKeys ==> after == before + [JellyrinMissing(key)])
            && (key !in upstreamKeys && key in jellyrinKeys ==> after == before + [UpstreamMissing(key)])
            && (key !in upstreamKeys && key !in jellyrinKeys ==> after == before + [UpstreamMissing(key), JellyrinMissing(key)])
  {
    FlatMapSnoc(MissingFrom(upstreamKeys, jellyrinKeys), required, key);
  }

  lemma {:induction false} MissingExactly(required: seq<string>, upstreamKeys: set<string>, jellyrinKeys: set<string>)
    ensures var reasons := FlatMap(MissingFrom(upstreamKeys, jellyrinKeys), required);
            && (forall key :: UpstreamMissing(key) in reasons <==> key in required && key !in upstreamKeys)
            && (forall key :: JellyrinMissing(key) in reasons <==> key in required && key !in jellyrinKeys)
  {
    if required != [] {
      MissingExactly(required[1..], upstreamKeys, jellyrinKeys);
      assert required == [required[0]] + required[1..];
    }
  }
}
