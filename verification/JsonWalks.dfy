/** The path checker as a search: a path is found exactly if some walk through the value uses up its parts. */
module JsonWalks {
  import opened Json
  import opened JsObjects
  import opened JsonPaths
  import opened Options

  /** A value reached, and how many parts of the path were used on the way. */
  datatype Place = Place(value: Json, used: nat)

  /** object[key]: an own property hides what is inherited under its name. */
  function Property(members: seq<Member<Json>>, key: string, proto: map<string, Json>): Option<Json> {
    var own := Lookup(members, key);
    if own.Some? then own else if key in proto then Some(proto[key]) else None
  }

  /**
   One step: into any element of a list, which uses up a list marker if there is one, or to the
   property of an object that the next part names.
   */
  predicate Leads(a: Place, b: Place, parts: seq<string>, proto: map<string, Json>) {
    a.used < |parts| &&
    match a.value
    case Arr(items) => b.value in items && b.used == (if parts[a.used] == "[]" then a.used + 1 else a.used)
    case Obj(members) =>
      parts[a.used] != "[]" && Property(members, parts[a.used], proto) == Some(b.value) && b.used == a.used + 1
    case _ => false
  }

  ghost predicate Walk(places: seq<Place>, from: Place, parts: seq<string>, proto: map<string, Json>) {
    && places != [] && places[0] == from && places[|places| - 1].used == |parts|
    && forall i :: 0 <= i < |places| - 1 ==> Leads(places[i], places[i + 1], parts, proto)
  }

  lemma RestOfPath(parts: seq<string>, used: nat)
    requires used < |parts|
    ensures parts[used..] != [] && parts[used..][0] == parts[used] && parts[used..][1..] == parts[used + 1..]
  {}

  /** A step from a place to one where the rest of the path is found. */
  lemma StepBack(a: Place, b: Place, parts: seq<string>, proto: map<string, Json>)
    requires b.used <= |parts| && Leads(a, b, parts, proto) && HasPath(b.value, parts[b.used..], proto)
    ensures HasPath(a.value, parts[a.used..], proto)
  {
    RestOfPath(parts, a.used);
    if a.value.Arr? {
      var i :| 0 <= i < |a.value.items| && a.value.items[i] == b.value;
      assert HasPath(a.value.items[i], parts[b.used..], proto);
    }
  }

  lemma {:induction false} WalkFinds(places: seq<Place>, from: Place, parts: seq<string>, proto: map<string, Json>)
    requires from.used <= |parts| && Walk(places, from, parts, proto)
    ensures HasPath(from.value, parts[from.used..], proto)
    decreases |places|
  {
    if |places| > 1 {
      assert Leads(places[0], places[1], parts, proto);
      forall i | 0 <= i < |places[1..]| - 1
        ensures Leads(places[1..][i], places[1..][i + 1], parts, proto)
      {
        assert Leads(places[i + 1], places[i + 2], parts, proto);
      }
      WalkFinds(places[1..], places[1], parts, proto);
      StepBack(places[0], places[1], parts, proto);
    }
  }

  /** From a place where the rest of the path is found, and not used up, some step leads to another one. */
  lemma StepForward(a: Place, parts: seq<string>, proto: map<string, Json>) returns (b: Place)
    requires a.used < |parts| && HasPath(a.value, parts[a.used..], proto)
    ensures b.used <= |parts| && Leads(a, b, parts, proto) && HasPath(b.value, parts[b.used..], proto)
    ensures b.used > a.used || (b.used == a.used && b.value < a.value)
  {
    RestOfPath(parts, a.used);
    var rest := parts[a.used..];
    if rest[0] == "[]" {
      var i :| 0 <= i < |a.value.items| && HasPath(a.value.items[i], rest[1..], proto);
      b := Place(a.value.items[i], a.used + 1);
    } else if a.value.Arr? {
      var i :| 0 <= i < |a.value.items| && HasPath(a.value.items[i], rest, proto);
      b := Place(a.value.items[i], a.used);
    } else {
      b := Place(Property(a.value.members, rest[0], proto).value, a.used + 1);
    }
  }

  lemma {:induction false} FoundWalks(from: Place, parts: seq<string>, proto: map<string, Json>) returns (places: seq<Place>)
    requires from.used <= |parts| && HasPath(from.value, parts[from.used..], proto)
    ensures Walk(places, from, parts, proto)
    decreases |parts| - from.used, from.value
  {
    if from.used == |parts| {
      places := [from];
    } else {
      var next := StepForward(from, parts, proto);
      var rest := FoundWalks(next, parts, proto);
      places := [from] + rest;
      forall i | 0 <= i < |places| - 1
        ensures Leads(places[i], places[i + 1], parts, proto)
      {
        assert i > 0 ==> Leads(rest[i - 1], rest[i], parts, proto);
      }
    }
  }

  /** A path is found exactly if some walk from the value uses up all its parts. */
  lemma FoundIffWalk(value: Json, parts: seq<string>, proto: map<string, Json>)
    ensures HasPath(value, parts, proto) <==> exists places :: Walk(places, Place(value, 0), parts, proto)
  {
    assert parts[0..] == parts;
    if HasPath(value, parts, proto) {
      var places := FoundWalks(Place(value, 0), parts, proto);
    }
    if places :| Walk(places, Place(value, 0), parts, proto) {
      WalkFinds(places, Place(value, 0), parts, proto);
    }
  }
}
