/** Normalisation of response bodies before comparison, and what exactly it forgets. */
module JsonNormalize {
  import opened Json
  import opened JsObjects
  import opened JsonShape

  predicate IsDynamic(key: string) {
    key in ["Id", "ServerId", "LocalAddress", "ServerName", "MediaSourceId"]
  }

  /** Assigning this key to an object sets its prototype and adds no property. */
  const PROTO := "__proto__"

  const DYNAMIC := Str("<dynamic>")

  const IMAGE_TAG := "<image-tag>"

  function NormalizeBody(body: Json): Json
    decreases body, 1
  {
    match body
    case Arr(items) => Arr(NormalizeItems(items))
    case Obj(members) => Obj(NormalizeMembers(members))
    case _ => body
  }

  function NormalizeItems(items: seq<Json>): (r: seq<Json>)
    ensures |r| == |items|
    ensures forall i :: 0 <= i < |items| ==> r[i] == NormalizeBody(items[i])
    decreases items, 0
  {
    if items == [] then [] else [NormalizeBody(items[0])] + NormalizeItems(items[1..])
  }

  /** The normalised value under a key; a list under "Items" is normalised like any other list. */
  function NormalizeUnder(key: string, value: Json): Json
    decreases value, 3
  {
    if IsDynamic(key) then DYNAMIC
    else if key == "ImageBlurHashes" then NormalizeBlurHashes(value)
    else NormalizeBody(value)
  }

  function NormalizeMembers(members: seq<Member<Json>>): seq<Member<Json>>
    decreases members, 0
  {
    if members == [] then []
    else
      (if members[0].key == PROTO then [] else [Member(members[0].key, NormalizeUnder(members[0].key, members[0].value))])
      + NormalizeMembers(members[1..])
  }

  function NormalizeBlurHashes(value: Json): Json
    decreases value, 2
  {
    match value
    case Obj(types) => Obj(NormalizeTypes(types))
    case _ => NormalizeBody(value)
  }

  function NormalizeTypes(types: seq<Member<Json>>): seq<Member<Json>>
    decreases types, 0
  {
    if types == [] then []
    else [Member(types[0].key, NormalizeHashes(types[0].value))] + NormalizeTypes(types[1..])
  }

  /** All hashes of one image type share one key, so the last one stays. */
  function NormalizeHashes(hashes: Json): Json
    decreases hashes, 2
  {
    match hashes
    case Obj(tags) =>
      if tags == [] then Obj([])
      else Obj([Member(IMAGE_TAG, NormalizeBody(tags[|tags| - 1].value))])
    case _ => NormalizeBody(hashes)
  }

  // ----- The loops of the source

  method NormalizeObject(members: seq<Member<Json>>) returns (normalized: seq<Member<Json>>)
    requires Enumerated(members)
    ensures normalized == NormalizeMembers(members)
  {
    normalized := [];
    var i := 0;
    while i < |members|
      invariant i <= |members|
      invariant normalized == NormalizeMembers(members[..i])
    {
      var key, value := members[i].key, members[i].value;
      assert members[..i + 1] == members[..i] + [members[i]];
      NormalizeMembersSnoc(members[..i], members[i]);
      if key != PROTO {
        var result := NormalizeUnder(key, value);
        NormalizedEnumerated(members[..i + 1]);
        PutLast(normalized, Member(key, result));
        normalized := Put(normalized, key, result);
      }
      i := i + 1;
    }
    assert members[..i] == members;
  }

  method NormalizeTags(tags: seq<Member<Json>>) returns (normalizedHashes: seq<Member<Json>>)
    ensures NormalizeHashes(Obj(tags)) == Obj(normalizedHashes)
  {
    normalizedHashes := [];
    var i := 0;
    while i < |tags|
      invariant i <= |tags|
      invariant normalizedHashes == if i == 0 then [] else [Member(IMAGE_TAG, NormalizeBody(tags[i - 1].value))]
    {
      normalizedHashes := Put(normalizedHashes, IMAGE_TAG, NormalizeBody(tags[i].value));
      i := i + 1;
    }
  }

  lemma {:induction false} NormalizeMembersSnoc(members: seq<Member<Json>>, last: Member<Json>)
    ensures NormalizeMembers(members + [last])
         == NormalizeMembers(members) + if last.key == PROTO then [] else [Member(last.key, NormalizeUnder(last.key, last.value))]
  {
    if members == [] {
      assert members + [last] == [last];
    } else {
      assert (members + [last])[1..] == members[1..] + [last];
      NormalizeMembersSnoc(members[1..], last);
    }
  }

  lemma {:induction false} NormalizedKeys(members: seq<Member<Json>>)
    ensures forall m :: m in NormalizeMembers(members) ==> exists i :: 0 <= i < |members| && members[i].key == m.key
  {
    if members != [] {
      NormalizedKeys(members[1..]);
      forall m | m in NormalizeMembers(members)
        ensures exists i :: 0 <= i < |members| && members[i].key == m.key
      {
        if m in NormalizeMembers(members[1..]) {
          var i :| 0 <= i < |members[1..]| && members[1..][i].key == m.key;
          assert members[i + 1].key == m.key;
        } else {
          assert members[0].key == m.key;
        }
      }
    }
  }

  lemma {:induction false} NormalizedEnumerated(members: seq<Member<Json>>)
    requires Enumerated(members)
    ensures Enumerated(NormalizeMembers(members))
  {
    if members != [] {
      NormalizedEnumerated(members[1..]);
      NormalizedKeys(members[1..]);
      var rest := NormalizeMembers(members[1..]);
      forall j | 0 <= j < |rest|
        ensures rest[j].key != members[0].key && !ComesBefore(rest[j].key, members[0].key)
      {
        assert rest[j] in rest;
        var i :| 0 <= i < |members[1..]| && members[1..][i].key == rest[j].key;
        assert members[i + 1].key == rest[j].key;
      }
    }
  }

  // ----- Idempotence

  lemma {:induction false} NormalizeIdempotent(body: Json)
    ensures NormalizeBody(NormalizeBody(body)) == NormalizeBody(body)
    decreases body, 1
  {
    match body
    case Arr(items) =>
      forall i | 0 <= i < |items|
        ensures NormalizeBody(NormalizeBody(items[i])) == NormalizeBody(items[i])
      {
        NormalizeIdempotent(items[i]);
      }
      assert NormalizeItems(NormalizeItems(items)) == NormalizeItems(items);
    case Obj(members) => MembersIdempotent(members);
    case _ =>
  }

  lemma {:induction false} MembersIdempotent(members: seq<Member<Json>>)
    ensures NormalizeMembers(NormalizeMembers(members)) == NormalizeMembers(members)
    decreases members, 0
  {
    if members != [] {
      MembersIdempotent(members[1..]);
      var m := members[0];
      if m.key != PROTO {
        var head, rest := Member(m.key, NormalizeUnder(m.key, m.value)), NormalizeMembers(members[1..]);
        UnderIdempotent(m.key, m.value);
        assert ([head] + rest)[0] == head && ([head] + rest)[1..] == rest;
        assert NormalizeMembers([head] + rest) == [head] + NormalizeMembers(rest);
      } else {
        assert NormalizeMembers(members) == NormalizeMembers(members[1..]);
      }
    }
  }

  lemma {:induction false} UnderIdempotent(key: string, value: Json)
    ensures NormalizeUnder(key, NormalizeUnder(key, value)) == NormalizeUnder(key, value)
    decreases value, 3
  {
    BlurHashesIdempotent(value);
    NormalizeIdempotent(value);
  }

  lemma {:induction false} BlurHashesIdempotent(value: Json)
    ensures NormalizeBlurHashes(NormalizeBlurHashes(value)) == NormalizeBlurHashes(value)
    decreases value, 2
  {
    if value.Obj? {
      TypesIdempotent(value.members);
    } else {
      NormalizeIdempotent(value);
    }
  }

  lemma {:induction false} TypesIdempotent(types: seq<Member<Json>>)
    ensures NormalizeTypes(NormalizeTypes(types)) == NormalizeTypes(types)
    decreases types, 0
  {
    if types != [] {
      TypesIdempotent(types[1..]);
      assert ([Member(types[0].key, NormalizeHashes(types[0].value))] + NormalizeTypes(types[1..]))[1..] == NormalizeTypes(types[1..]);
      HashesIdempotent(types[0].value);
    }
  }

  lemma {:induction false} HashesIdempotent(hashes: Json)
    ensures NormalizeHashes(NormalizeHashes(hashes)) == NormalizeHashes(hashes)
    decreases hashes, 2
  {
    if hashes.Obj? {
      if hashes.members != [] {
        NormalizeIdempotent(hashes.members[|hashes.members| - 1].value);
      }
    } else {
      NormalizeIdempotent(hashes);
    }
  }

  // ----- What normalisation forgets

  /** `a` and `b` differ only in what is forgotten: dynamic values, image tags, all but the last hash, __proto__. */
  ghost predicate Alike(a: Json, b: Json)
    decreases a, 1
  {
    match (a, b)
    case (Arr(xs), Arr(ys)) => |xs| == |ys| && forall i :: 0 <= i < |xs| ==> Alike(xs[i], ys[i])
    case (Obj(ms), Obj(ns)) => AlikeMembers(ms, ns)
    case (Arr(_), _) => false
    case (Obj(_), _) => false
    case _ => a == b
  }

  ghost predicate AlikeMembers(ms: seq<Member<Json>>, ns: seq<Member<Json>>)
    decreases ms, |ns|
  {
    if ms != [] && ms[0].key == PROTO then AlikeMembers(ms[1..], ns)
    else if ns != [] && ns[0].key == PROTO then AlikeMembers(ms, ns[1..])
    else if ms == [] || ns == [] then ms == [] && ns == []
    else ms[0].key == ns[0].key && AlikeUnder(ms[0].key, ms[0].value, ns[0].value) && AlikeMembers(ms[1..], ns[1..])
  }

  ghost predicate AlikeUnder(key: string, a: Json, b: Json)
    decreases a, 3
  {
    if IsDynamic(key) then true
    else if key == "ImageBlurHashes" && (a.Obj? || b.Obj?) then
      a.Obj? && b.Obj? && |a.members| == |b.members|
      && forall i :: 0 <= i < |a.members| ==>
           a.members[i].key == b.members[i].key && AlikeHashes(a.members[i].value, b.members[i].value)
    else Alike(a, b)
  }

  ghost predicate AlikeHashes(a: Json, b: Json)
    decreases a, 2
  {
    if a.Obj? && b.Obj? then
      (a.members == [] <==> b.members == [])
      && (a.members != [] && b.members != [] ==>
            Alike(a.members[|a.members| - 1].value, b.members[|b.members| - 1].value))
    else !a.Obj? && !b.Obj? && Alike(a, b)
  }

  /** Two bodies normalise to the same value exactly when they differ only in what is forgotten. */
  lemma {:induction false} NormalizeForgets(a: Json, b: Json)
    ensures NormalizeBody(a) == NormalizeBody(b) <==> Alike(a, b)
    decreases a, 1
  {
    if a.Arr? && b.Arr? {
      var xs, ys := a.items, b.items;
      forall i | 0 <= i < |xs| && i < |ys|
        ensures NormalizeBody(xs[i]) == NormalizeBody(ys[i]) <==> Alike(xs[i], ys[i])
      {
        NormalizeForgets(xs[i], ys[i]);
      }
      assert NormalizeItems(xs) == NormalizeItems(ys)
        <==> |xs| == |ys| && forall i :: 0 <= i < |xs| ==> NormalizeItems(xs)[i] == NormalizeItems(ys)[i];
    } else if a.Obj? && b.Obj? {
      MembersForget(a.members, b.members);
    }
  }

  lemma {:induction false} MembersForget(ms: seq<Member<Json>>, ns: seq<Member<Json>>)
    ensures NormalizeMembers(ms) == NormalizeMembers(ns) <==> AlikeMembers(ms, ns)
    decreases ms, 0, |ns|
  {
    if ms != [] && ms[0].key == PROTO {
      MembersForget(ms[1..], ns);
    } else if ns != [] && ns[0].key == PROTO {
      MembersForget(ms, ns[1..]);
    } else if ms != [] && ns != [] {
      var m, n := ms[0], ns[0];
      MembersForget(ms[1..], ns[1..]);
      ConsEqual(Member(m.key, NormalizeUnder(m.key, m.value)), NormalizeMembers(ms[1..]),
                Member(n.key, NormalizeUnder(n.key, n.value)), NormalizeMembers(ns[1..]));
      if m.key == n.key {
        UnderForgets(m.key, m.value, n.value);
      }
    }
  }

  lemma ConsEqual<T>(x: T, xs: seq<T>, y: T, ys: seq<T>)
    ensures [x] + xs == [y] + ys <==> x == y && xs == ys
  {
    assert ([x] + xs)[0] == x && ([x] + xs)[1..] == xs && ([y] + ys)[0] == y && ([y] + ys)[1..] == ys;
  }

  lemma {:induction false} UnderForgets(key: string, a: Json, b: Json)
    ensures NormalizeUnder(key, a) == NormalizeUnder(key, b) <==> AlikeUnder(key, a, b)
    decreases a, 3
  {
    if !IsDynamic(key) {
      if key == "ImageBlurHashes" && a.Obj? && b.Obj? {
        var s, t := a.members, b.members;
        TypesAt(s);
        TypesAt(t);
        forall i | 0 <= i < |s| && i < |t|
          ensures NormalizeHashes(s[i].value) == NormalizeHashes(t[i].value) <==> AlikeHashes(s[i].value, t[i].value)
        {
          HashesForget(s[i].value, t[i].value);
        }
        assert NormalizeTypes(s) == NormalizeTypes(t)
          <==> |s| == |t| && forall i :: 0 <= i < |s| ==> NormalizeTypes(s)[i] == NormalizeTypes(t)[i];
      } else {
        NormalizeForgets(a, b);
      }
    }
  }

  lemma {:induction false} TypesAt(types: seq<Member<Json>>)
    ensures |NormalizeTypes(types)| == |types|
    ensures forall i :: 0 <= i < |types| ==> NormalizeTypes(types)[i] == Member(types[i].key, NormalizeHashes(types[i].value))
  {
    if types != [] {
      TypesAt(types[1..]);
    }
  }

  lemma {:induction false} HashesForget(a: Json, b: Json)
    ensures NormalizeHashes(a) == NormalizeHashes(b) <==> AlikeHashes(a, b)
    decreases a, 2
  {
    if a.Obj? && b.Obj? {
      if a.members != [] && b.members != [] {
        NormalizeForgets(a.members[|a.members| - 1].value, b.members[|b.members| - 1].value);
      }
    } else {
      NormalizeForgets(a, b);
    }
  }

  lemma {:induction false} NormalizedWellFormed(body: Json)
    requires WellFormed(body)
    ensures WellFormed(NormalizeBody(body))
    decreases body, 1
  {
    match body
    case Arr(items) =>
      forall i | 0 <= i < |items|
        ensures WellFormed(NormalizeBody(items[i]))
      {
        NormalizedWellFormed(items[i]);
      }
    case Obj(members) =>
      NormalizedEnumerated(members);
      MembersWellFormed(members);
    case _ =>
  }

  lemma {:induction false} MembersWellFormed(members: seq<Member<Json>>)
    requires forall i :: 0 <= i < |members| ==> WellFormed(members[i].value)
    ensures forall m :: m in NormalizeMembers(members) ==> WellFormed(m.value)
    decreases members, 0
  {
    if members != [] {
      MembersWellFormed(members[1..]);
      UnderWellFormed(members[0].key, members[0].value);
    }
  }

  lemma {:induction false} UnderWellFormed(key: string, value: Json)
    requires WellFormed(value)
    ensures WellFormed(NormalizeUnder(key, value))
    decreases value, 3
  {
    NormalizedWellFormed(value);
    if value.Obj? {
      TypesWellFormed(value.members);
    }
  }

  lemma {:induction false} TypesWellFormed(types: seq<Member<Json>>)
    requires Enumerated(types) && forall i :: 0 <= i < |types| ==> WellFormed(types[i].value)
    ensures WellFormed(Obj(NormalizeTypes(types)))
    decreases types, 0
  {
    TypesAt(types);
    forall i | 0 <= i < |types|
      ensures WellFormed(NormalizeHashes(types[i].value))
    {
      var hashes := types[i].value;
      if hashes.Obj? && hashes.members != [] {
        NormalizedWellFormed(hashes.members[|hashes.members| - 1].value);
      } else {
        NormalizedWellFormed(hashes);
      }
    }
  }

  // ----- The comparison of two responses

  datatype Response = Response(status: nat, body: Json)

  /**
   compareResponses in the normalised golden mode, on the raw bodies that its caller normalises. A
   test case of shape mode "strict-only" compares no shapes.
   */
  predicate ResponsesMatch(strictOnly: bool, upstream: Response, jellyrin: Response) {
    upstream.status == jellyrin.status
    && (upstream.status >= 400
        || strictOnly
        || Stringify(ShapeOf(NormalizeBody(upstream.body))) == Stringify(ShapeOf(NormalizeBody(jellyrin.body))))
  }

  /**
   Two responses match exactly when the status is the same and, below 400 and unless the case is
   strict-only, the normalised bodies have the same structure.
   */
  lemma ResponsesMatchIff(strictOnly: bool, upstream: Response, jellyrin: Response)
    requires WellFormed(upstream.body) && WellFormed(jellyrin.body)
    ensures ResponsesMatch(strictOnly, upstream, jellyrin)
       <==> upstream.status == jellyrin.status
            && (upstream.status >= 400 || strictOnly || SameStructure(NormalizeBody(upstream.body), NormalizeBody(jellyrin.body)))
  {
    NormalizedWellFormed(upstream.body);
    NormalizedWellFormed(jellyrin.body);
    ShapeTextsDecideStructure(NormalizeBody(upstream.body), NormalizeBody(jellyrin.body));
  }

  /** Bodies that differ only in forgotten parts never fail the comparison. */
  lemma AlikeBodiesMatch(strictOnly: bool, upstream: Response, jellyrin: Response)
    requires upstream.status == jellyrin.status && Alike(upstream.body, jellyrin.body)
    ensures ResponsesMatch(strictOnly, upstream, jellyrin)
  {
    NormalizeForgets(upstream.body, jellyrin.body);
  }
}
