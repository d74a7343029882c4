/** Keeping the first element of each key, for any key function. */
module Dedup {
  import opened Ordering

  function KeySet<T(==)>(key: T -> string, xs: seq<T>): set<string> {
    set x | x in xs :: key(x)
  }

  /** The elements whose key is neither known nor the key of an earlier one. */
  function NewOnes<T>(key: T -> string, known: set<string>, xs: seq<T>): seq<T>
    decreases |xs|
  {
    if xs == [] then []
    else if key(xs[0]) in known then NewOnes(key, known, xs[1..])
    else [xs[0]] + NewOnes(key, known + {key(xs[0])}, xs[1..])
  }

  lemma KeySetCons<T>(key: T -> string, x: T, xs: seq<T>)
    ensures KeySet(key, [x] + xs) == {key(x)} + KeySet(key, xs)
  {}

  lemma KeySetConcat<T>(key: T -> string, xs: seq<T>, ys: seq<T>)
    ensures KeySet(key, xs + ys) == KeySet(key, xs) + KeySet(key, ys)
  {}

  lemma MapMembers<T>(key: T -> string, xs: seq<T>, k: string)
    ensures k in Map(key, xs) <==> k in KeySet(key, xs)
  {
    if k in KeySet(key, xs) {
      var i :| 0 <= i < |xs| && key(xs[i]) == k;
      assert Map(key, xs)[i] == k;
    }
  }

  lemma DistinctCons<T>(key: T -> string, x: T, xs: seq<T>)
    requires key(x) !in KeySet(key, xs) && NoDuplicates(Map(key, xs))
    ensures NoDuplicates(Map(key, [x] + xs))
  {
    MapMembers(key, xs, key(x));
    assert Map(key, [x] + xs) == [key(x)] + Map(key, xs);
  }

  lemma {:induction false} NewOnesKeys<T>(key: T -> string, known: set<string>, xs: seq<T>)
    ensures KeySet(key, NewOnes(key, known, xs)) == KeySet(key, xs) - known
    ensures NoDuplicates(Map(key, NewOnes(key, known, xs)))
    decreases |xs|
  {
    if xs != [] {
      assert [xs[0]] + xs[1..] == xs;
      KeySetCons(key, xs[0], xs[1..]);
      if key(xs[0]) in known {
        NewOnesKeys(key, known, xs[1..]);
      } else {
        var more := NewOnes(key, known + {key(xs[0])}, xs[1..]);
        NewOnesKeys(key, known + {key(xs[0])}, xs[1..]);
        KeySetCons(key, xs[0], more);
        DistinctCons(key, xs[0], more);
      }
    }
  }

  lemma {:induction false} NewOnesMembers<T>(key: T -> string, known: set<string>, xs: seq<T>)
    ensures forall x :: x in NewOnes(key, known, xs) ==> x in xs
    decreases |xs|
  {
    if xs != [] {
      NewOnesMembers(key, known, xs[1..]);
      NewOnesMembers(key, known + {key(xs[0])}, xs[1..]);
    }
  }

  /** Adding up to the last element, then the last element on its own. */
  lemma {:induction false} NewOnesSnoc<T>(key: T -> string, known: set<string>, xs: seq<T>, x: T)
    ensures NewOnes(key, known, xs + [x])
         == NewOnes(key, known, xs) + if key(x) in known + KeySet(key, xs) then [] else [x]
    decreases |xs|
  {
    if xs == [] {
      assert xs + [x] == [x];
    } else {
      assert (xs + [x])[1..] == xs[1..] + [x];
      assert [xs[0]] + xs[1..] == xs;
      KeySetCons(key, xs[0], xs[1..]);
      if key(xs[0]) in known {
        NewOnesSnoc(key, known, xs[1..], x);
      } else {
        NewOnesSnoc(key, known + {key(xs[0])}, xs[1..], x);
        assert known + {key(xs[0])} + KeySet(key, xs[1..]) == known + KeySet(key, xs);
      }
    }
  }

  /** The sets of all lists together. */
  function Union<T>(keys: T -> set<string>, xs: seq<T>): set<string> {
    if xs == [] then {} else Union(keys, xs[..|xs| - 1]) + keys(xs[|xs| - 1])
  }

  lemma {:induction false} UnionMembers<T>(keys: T -> set<string>, xs: seq<T>, k: string)
    ensures k in Union(keys, xs) <==> exists x :: x in xs && k in keys(x)
  {
    if xs != [] {
      var n := |xs| - 1;
      UnionMembers(keys, xs[..n], k);
      assert xs == xs[..n] + [xs[n]];
    }
  }
}
