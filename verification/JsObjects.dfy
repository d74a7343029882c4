/**
 JavaScript objects as the list of their own properties in enumeration order: array indices in
 ascending order first, then the other keys in the order they were added (ECMA-262, section
 10.1.11.1).
 */
module JsObjects {
  import opened Decimal
  import opened Options
  import opened Ordering

  datatype Member<+V> = Member(key: string, value: V)

  /** A canonical numeral below 2^32 - 1. */
  predicate IsIndex(key: string) {
    key != [] && AllDigits(key) && (|key| == 1 || key[0] != '0') && Value(key) < 4_294_967_295
  }

  function KeysOf<V>(members: seq<Member<V>>): set<string> {
    set i | 0 <= i < |members| :: members[i].key
  }

  function Lookup<V>(members: seq<Member<V>>, key: string): Option<V> {
    if members == [] then None
    else if members[0].key == key then Some(members[0].value)
    else Lookup(members[1..], key)
  }

  /** A new key goes in front of `other`. */
  predicate ComesBefore(key: string, other: string) {
    IsIndex(key) && (!IsIndex(other) || Value(key) < Value(other))
  }

  /** object[key] = value, or adding one entry in Object.fromEntries. */
  function Put<V>(members: seq<Member<V>>, key: string, value: V): seq<Member<V>> {
    if members == [] then [Member(key, value)]
    else if members[0].key == key then [Member(key, value)] + members[1..]
    else if ComesBefore(key, members[0].key) && key !in KeysOf(members) then [Member(key, value)] + members
    else [members[0]] + Put(members[1..], key, value)
  }

  function FromEntries<V>(entries: seq<Member<V>>): seq<Member<V>> {
    if entries == [] then []
    else
      var n := |entries| - 1;
      Put(FromEntries(entries[..n]), entries[n].key, entries[n].value)
  }

  ghost predicate DistinctKeys<V>(members: seq<Member<V>>) {
    forall i, j :: 0 <= i < j < |members| ==> members[i].key != members[j].key
  }

  /** The property list of some object. */
  ghost predicate Enumerated<V>(members: seq<Member<V>>) {
    forall i, j :: 0 <= i < j < |members| ==>
      members[i].key != members[j].key && !ComesBefore(members[j].key, members[i].key)
  }

  lemma {:induction false} PutNewBag<V>(members: seq<Member<V>>, key: string, value: V)
    requires key !in KeysOf(members)
    ensures multiset(Put(members, key, value)) == multiset(members) + multiset{Member(key, value)}
  {
    if members != [] {
      assert members == [members[0]] + members[1..];
      assert members[0].key in KeysOf(members);
      TailKeys(members, key);
      if !ComesBefore(key, members[0].key) {
        PutNewBag(members[1..], key, value);
      }
    }
  }

  lemma TailKeys<V>(members: seq<Member<V>>, key: string)
    requires members != [] && key !in KeysOf(members)
    ensures key !in KeysOf(members[1..]) && members[0].key != key
  {
    assert members[0].key in KeysOf(members);
    forall i | 0 <= i < |members[1..]|
      ensures members[1..][i].key in KeysOf(members)
    {
      assert members[i + 1].key in KeysOf(members);
    }
  }

  lemma {:induction false} PutNewEnumerated<V>(members: seq<Member<V>>, key: string, value: V)
    requires key !in KeysOf(members) && Enumerated(members)
    ensures Enumerated(Put(members, key, value))
  {
    if members != [] {
      TailKeys(members, key);
      if ComesBefore(key, members[0].key) {
        NewHead(members, key);
      } else {
        PutNewEnumerated(members[1..], key, value);
        PutNewBag(members[1..], key, value);
        HeadStays(members, key, value, Put(members[1..], key, value));
      }
    }
  }

  lemma HeadStays<V>(members: seq<Member<V>>, key: string, value: V, rest: seq<Member<V>>)
    requires members != [] && Enumerated(members) && key !in KeysOf(members) && !ComesBefore(key, members[0].key)
    requires Enumerated(rest) && multiset(rest) == multiset(members[1..] + [Member(key, value)])
    ensures Enumerated([members[0]] + rest)
  {
    SameMembers(rest, members[1..] + [Member(key, value)]);
    forall j | 0 <= j < |rest|
      ensures rest[j].key != members[0].key && !ComesBefore(rest[j].key, members[0].key)
    {
      assert rest[j] in members[1..] + [Member(key, value)];
      if rest[j] in members[1..] {
        var i :| 0 <= i < |members[1..]| && members[1..][i] == rest[j];
        assert members[i + 1] == rest[j];
      } else {
        assert members[0].key in KeysOf(members);
      }
    }
  }

  lemma NewHead<V>(members: seq<Member<V>>, key: string)
    requires members != [] && Enumerated(members) && key !in KeysOf(members) && ComesBefore(key, members[0].key)
    ensures forall j :: 0 <= j < |members| ==> members[j].key != key && !ComesBefore(members[j].key, key)
  {
    forall j | 0 <= j < |members|
      ensures members[j].key != key && !ComesBefore(members[j].key, key)
    {
      assert members[j].key in KeysOf(members);
      if j > 0 {
        assert !ComesBefore(members[j].key, members[0].key);
      }
    }
  }

  /** Entries with distinct keys all arrive, in enumeration order. */
  lemma {:induction false} FromEntriesKeeps<V>(entries: seq<Member<V>>)
    requires DistinctKeys(entries)
    ensures multiset(FromEntries(entries)) == multiset(entries)
    ensures Enumerated(FromEntries(entries))
  {
    if entries != [] {
      var n := |entries| - 1;
      var front := entries[..n];
      var before := FromEntries(front);
      FromEntriesKeeps(front);
      assert entries == front + [entries[n]];
      forall i | 0 <= i < |before|
        ensures before[i].key != entries[n].key
      {
        assert before[i] in multiset(before);
        assert before[i] in multiset(front);
        var j :| 0 <= j < n && front[j] == before[i];
        assert entries[j].key != entries[n].key;
      }
      PutNewBag(before, entries[n].key, entries[n].value);
      PutNewEnumerated(before, entries[n].key, entries[n].value);
    }
  }

  lemma {:induction false} PutLast<V>(members: seq<Member<V>>, last: Member<V>)
    requires Enumerated(members + [last])
    ensures Put(members, last.key, last.value) == members + [last]
  {
    if members != [] {
      var all := members + [last];
      assert all[0] == members[0] && all[|members|] == last;
      assert members[0].key != last.key && !ComesBefore(last.key, members[0].key);
      assert members[1..] + [last] == all[1..];
      PutLast(members[1..], last);
      assert members == [members[0]] + members[1..];
    }
  }

  /** Rebuilding an object from its entries gives the object. */
  lemma {:induction false} Rebuild<V>(members: seq<Member<V>>)
    requires Enumerated(members)
    ensures FromEntries(members) == members
  {
    if members != [] {
      var n := |members| - 1;
      Rebuild(members[..n]);
      assert members == members[..n] + [members[n]];
      PutLast(members[..n], members[n]);
    }
  }

  /** What is looked up is a member. */
  lemma {:induction false} LookupIndex<V>(members: seq<Member<V>>, key: string) returns (i: nat)
    requires Lookup(members, key).Some?
    ensures i < |members| && members[i].key == key && Lookup(members, key) == Some(members[i].value)
  {
    if members[0].key == key {
      i := 0;
    } else {
      i := LookupIndex(members[1..], key);
      i := i + 1;
    }
  }

  lemma {:induction false} LookupAt<V>(members: seq<Member<V>>, i: nat)
    requires DistinctKeys(members) && i < |members|
    ensures Lookup(members, members[i].key) == Some(members[i].value)
  {
    if i > 0 {
      assert members[0].key != members[i].key;
      LookupAt(members[1..], i - 1);
    }
  }
}
