/**
 Orders, stable sorting and lexicographic comparison.

 JavaScript's Array.prototype.sort is stable, and a query's ORDER BY sorts a bag of rows; both are
 modelled by `Sort`, which is characterised below: it permutes its argument, it is sorted, ties keep
 their order and nothing else has these properties; under a total order it is the only sorted
 arrangement.
 */
module Ordering {

  ghost predicate StrictWeakOrder<T(!new)>(lt: (T, T) -> bool) {
    && (forall x :: !lt(x, x))
    && (forall x, y, z :: lt(x, y) && lt(y, z) ==> lt(x, z))
    && (forall x, y, z :: lt(x, z) ==> lt(x, y) || lt(y, z))
  }

  /** Distinct elements of `xs` are comparable, so sorting leaves no choice. */
  ghost predicate TotalOn<T(!new)>(lt: (T, T) -> bool, xs: seq<T>) {
    forall x, y :: x in xs && y in xs && x != y ==> lt(x, y) || lt(y, x)
  }

  ghost predicate Sorted<T>(lt: (T, T) -> bool, xs: seq<T>) {
    forall i, j :: 0 <= i < j < |xs| ==> !lt(xs[j], xs[i])
  }

  /** Puts `x` in front of the first element that is not smaller than it. */
  function Insert<T>(lt: (T, T) -> bool, x: T, ys: seq<T>): seq<T> {
    if ys != [] && lt(ys[0], x) then [ys[0]] + Insert(lt, x, ys[1..]) else [x] + ys
  }

  function Sort<T>(lt: (T, T) -> bool, xs: seq<T>): seq<T> {
    if xs == [] then [] else Insert(lt, xs[0], Sort(lt, xs[1..]))
  }

  lemma {:induction false} InsertBag<T>(lt: (T, T) -> bool, x: T, ys: seq<T>)
    ensures multiset(Insert(lt, x, ys)) == multiset(ys) + multiset{x}
  {
    if ys != [] && lt(ys[0], x) {
      InsertBag(lt, x, ys[1..]);
      assert ys == [ys[0]] + ys[1..];
    }
  }

  /** Sorting rearranges. */
  lemma {:induction false} SortBag<T>(lt: (T, T) -> bool, xs: seq<T>)
    ensures multiset(Sort(lt, xs)) == multiset(xs)
    ensures |Sort(lt, xs)| == |xs|
  {
    if xs != [] {
      SortBag(lt, xs[1..]);
      InsertBag(lt, xs[0], Sort(lt, xs[1..]));
      assert xs == [xs[0]] + xs[1..];
    }
    assert |multiset(Sort(lt, xs))| == |Sort(lt, xs)|;
  }

  lemma SameMembers<T>(xs: seq<T>, ys: seq<T>)
    requires multiset(xs) == multiset(ys)
    ensures forall x :: x in xs <==> x in ys
  {
    forall x
      ensures x in xs <==> x in ys
    {
      assert x in xs <==> x in multiset(xs);
      assert x in ys <==> x in multiset(ys);
    }
  }

  lemma {:induction false} InsertKeepsSorted<T(!new)>(lt: (T, T) -> bool, x: T, ys: seq<T>)
    requires StrictWeakOrder(lt) && Sorted(lt, ys)
    ensures Sorted(lt, Insert(lt, x, ys))
  {
    if ys != [] && lt(ys[0], x) {
      InsertKeepsSorted(lt, x, ys[1..]);
      InsertBag(lt, x, ys[1..]);
      var rest := Insert(lt, x, ys[1..]);
      assert multiset([x] + ys[1..]) == multiset(ys[1..]) + multiset{x};
      SameMembers(rest, [x] + ys[1..]);
      forall j | 0 <= j < |rest|
        ensures !lt(rest[j], ys[0])
      {
        assert rest[j] in [x] + ys[1..];
      }
    }
  }

  lemma {:induction false} SortSorts<T(!new)>(lt: (T, T) -> bool, xs: seq<T>)
    requires StrictWeakOrder(lt)
    ensures Sorted(lt, Sort(lt, xs))
  {
    if xs != [] {
      SortSorts(lt, xs[1..]);
      InsertKeepsSorted(lt, xs[0], Sort(lt, xs[1..]));
    }
  }

  lemma {:induction false} SortOfSorted<T>(lt: (T, T) -> bool, xs: seq<T>)
    requires Sorted(lt, xs)
    ensures Sort(lt, xs) == xs
  {
    if xs != [] {
      SortOfSorted(lt, xs[1..]);
    }
  }

  lemma {:induction false} SortedIsUnique<T(!new)>(lt: (T, T) -> bool, xs: seq<T>, ys: seq<T>)
    requires StrictWeakOrder(lt) && TotalOn(lt, xs)
    requires Sorted(lt, xs) && Sorted(lt, ys) && multiset(xs) == multiset(ys)
    ensures xs == ys
  {
    assert |xs| == |multiset(xs)| == |multiset(ys)| == |ys|;
    if xs != [] {
      SameHead(lt, xs, ys);
      assert xs == [xs[0]] + xs[1..] && ys == [ys[0]] + ys[1..];
      assert multiset(xs[1..]) == multiset(xs) - multiset{xs[0]};
      assert multiset(ys[1..]) == multiset(ys) - multiset{ys[0]};
      TotalOnTail(lt, xs);
      SortedIsUnique(lt, xs[1..], ys[1..]);
    }
  }

  lemma TotalOnTail<T(!new)>(lt: (T, T) -> bool, xs: seq<T>)
    requires TotalOn(lt, xs) && xs != []
    ensures TotalOn(lt, xs[1..])
  {}

  /** Both lists begin with the least element. */
  lemma SameHead<T(!new)>(lt: (T, T) -> bool, xs: seq<T>, ys: seq<T>)
    requires StrictWeakOrder(lt) && TotalOn(lt, xs)
    requires Sorted(lt, xs) && Sorted(lt, ys) && multiset(xs) == multiset(ys) && xs != [] && ys != []
    ensures xs[0] == ys[0]
  {
    SameMembers(xs, ys);
    assert xs[0] in ys && ys[0] in xs;
    var i :| 0 <= i < |ys| && ys[i] == xs[0];
    var j :| 0 <= j < |xs| && xs[j] == ys[0];
    assert !lt(ys[i], ys[0]) && !lt(xs[j], xs[0]);
  }

  /** Sorting a list and sorting any rearrangement of it agree when no two elements tie. */
  lemma SortIgnoresOrder<T(!new)>(lt: (T, T) -> bool, xs: seq<T>, ys: seq<T>)
    requires StrictWeakOrder(lt) && TotalOn(lt, xs) && multiset(xs) == multiset(ys)
    ensures Sort(lt, xs) == Sort(lt, ys)
  {
    SortSorts(lt, xs);
    SortSorts(lt, ys);
    SortBag(lt, xs);
    SortBag(lt, ys);
    SameMembers(xs, Sort(lt, xs));
    SortedIsUnique(lt, Sort(lt, xs), Sort(lt, ys));
  }

  ghost predicate NoDuplicates<T>(xs: seq<T>) {
    forall i, j :: 0 <= i < j < |xs| ==> xs[i] != xs[j]
  }

  lemma ConcatNoDuplicates<T>(xs: seq<T>, ys: seq<T>)
    requires NoDuplicates(xs) && NoDuplicates(ys) && forall x :: x in xs ==> x !in ys
    ensures NoDuplicates(xs + ys)
  {
    var zs := xs + ys;
    forall i, j | 0 <= i < j < |zs|
      ensures zs[i] != zs[j]
    {
      if j < |xs| {
        assert zs[i] == xs[i] && zs[j] == xs[j];
      } else if i < |xs| {
        assert zs[i] in xs && zs[j] == ys[j - |xs|] && zs[j] in ys;
      } else {
        assert zs[i] == ys[i - |xs|] && zs[j] == ys[j - |xs|];
      }
    }
  }

  /** Two duplicate-free lists with the same members are rearrangements of each other. */
  lemma SameMembersNoDuplicates<T>(xs: seq<T>, ys: seq<T>)
    requires NoDuplicates(xs) && NoDuplicates(ys)
    requires forall x :: x in xs <==> x in ys
    ensures multiset(xs) == multiset(ys)
  {
    forall x
      ensures multiset(xs)[x] == multiset(ys)[x]
    {
      CountNoDuplicates(xs, x);
      CountNoDuplicates(ys, x);
    }
  }

  lemma {:induction false} CountNoDuplicates<T>(xs: seq<T>, x: T)
    requires NoDuplicates(xs)
    ensures multiset(xs)[x] == if x in xs then 1 else 0
  {
    if xs != [] {
      assert xs == [xs[0]] + xs[1..];
      CountNoDuplicates(xs[1..], x);
      assert xs[0] !in xs[1..];
    }
  }

  lemma NoDuplicatesFromMultiset<T>(xs: seq<T>, ys: seq<T>)
    requires multiset(xs) == multiset(ys) && NoDuplicates(xs)
    ensures NoDuplicates(ys)
  {
    forall i, j | 0 <= i < j < |ys|
      ensures ys[i] != ys[j]
    {
      if ys[i] == ys[j] {
        var x := ys[i];
        assert ys == ys[..i] + [ys[i]] + ys[i + 1..j] + [ys[j]] + ys[j + 1..];
        assert multiset(ys)[x] >= 2;
        CountNoDuplicates(xs, x);
        assert false;
      }
    }
  }

  function Map<A, B>(f: A -> B, xs: seq<A>): (r: seq<B>)
    ensures |r| == |xs|
    ensures forall i :: 0 <= i < |xs| ==> r[i] == f(xs[i])
  {
    seq(|xs|, i requires 0 <= i < |xs| => f(xs[i]))
  }

  /** Splits a list around one occurrence of a member. */
  lemma Extract<T>(xs: seq<T>, ys: seq<T>) returns (before: seq<T>, after: seq<T>)
    requires multiset(xs) == multiset(ys) && xs != []
    ensures ys == before + ([xs[0]] + after)
    ensures multiset(xs[1..]) == multiset(before + after)
  {
    assert xs == [xs[0]] + xs[1..];
    assert xs[0] in multiset(ys);
    var i :| 0 <= i < |ys| && ys[i] == xs[0];
    before, after := ys[..i], ys[i + 1..];
    assert ys == before + ([xs[0]] + after);
    assert multiset(ys) == multiset(before) + multiset([xs[0]] + after);
    assert multiset(before + after) == multiset(ys) - multiset{xs[0]} == multiset(xs[1..]);
  }

  lemma EmptyMultiset<T>(ys: seq<T>)
    requires multiset(ys) == multiset{}
    ensures ys == []
  {
    assert |ys| == |multiset(ys)|;
  }

  lemma MapConcat<A, B>(f: A -> B, xs: seq<A>, ys: seq<A>)
    ensures Map(f, xs + ys) == Map(f, xs) + Map(f, ys)
  {}

  /** Applying a function to every element respects rearrangement. */
  lemma {:induction false} MapMultiset<A, B>(f: A -> B, xs: seq<A>, ys: seq<A>)
    requires multiset(xs) == multiset(ys)
    ensures multiset(Map(f, xs)) == multiset(Map(f, ys))
  {
    if xs == [] {
      EmptyMultiset(ys);
    } else {
      var before, after := Extract(xs, ys);
      MapMultiset(f, xs[1..], before + after);
      MapConcat(f, before, [xs[0]] + after);
      MapConcat(f, before, after);
      assert Map(f, xs) == [f(xs[0])] + Map(f, xs[1..]);
      assert Map(f, [xs[0]] + after) == [f(xs[0])] + Map(f, after);
    }
  }

  /** The lists of all elements, one after the other. */
  function FlatMap<A, B>(f: A -> seq<B>, xs: seq<A>): seq<B> {
    if xs == [] then [] else f(xs[0]) + FlatMap(f, xs[1..])
  }

  lemma {:induction false} FlatMapSnoc<A, B>(f: A -> seq<B>, xs: seq<A>, x: A)
    ensures FlatMap(f, xs + [x]) == FlatMap(f, xs) + f(x)
  {
    if xs == [] {
      assert xs + [x] == [x];
    } else {
      assert (xs + [x])[1..] == xs[1..] + [x];
      FlatMapSnoc(f, xs[1..], x);
    }
  }

  lemma FlatMapNext<A, B>(f: A -> seq<B>, xs: seq<A>, i: nat)
    requires i < |xs|
    ensures FlatMap(f, xs[..i + 1]) == FlatMap(f, xs[..i]) + f(xs[i])
  {
    assert xs[..i + 1] == xs[..i] + [xs[i]];
    FlatMapSnoc(f, xs[..i], xs[i]);
  }

  lemma WholePrefix<T>(xs: seq<T>, n: nat)
    requires n == |xs|
    ensures xs[..n] == xs
  {}

  function Filter<T>(p: T -> bool, xs: seq<T>): seq<T> {
    if xs == [] then []
    else if p(xs[0]) then [xs[0]] + Filter(p, xs[1..])
    else Filter(p, xs[1..])
  }

  /** Filtering keeps exactly the members that pass. */
  lemma {:induction false} FilterMembers<T(!new)>(p: T -> bool, xs: seq<T>)
    ensures forall x :: x in Filter(p, xs) <==> x in xs && p(x)
    ensures |Filter(p, xs)| <= |xs|
  {
    if xs != [] {
      FilterMembers(p, xs[1..]);
      assert xs == [xs[0]] + xs[1..];
    }
  }

  lemma {:induction false} FilterConcat<T(!new)>(p: T -> bool, xs: seq<T>, ys: seq<T>)
    ensures Filter(p, xs + ys) == Filter(p, xs) + Filter(p, ys)
  {
    if xs == [] {
      assert xs + ys == ys;
    } else {
      FilterConcat(p, xs[1..], ys);
      assert (xs + ys)[1..] == xs[1..] + ys;
    }
  }

  lemma {:induction false} FilterNoDuplicates<T(!new)>(p: T -> bool, xs: seq<T>)
    requires NoDuplicates(xs)
    ensures NoDuplicates(Filter(p, xs))
  {
    if xs != [] {
      FilterNoDuplicates(p, xs[1..]);
      FilterMembers(p, xs[1..]);
      assert xs[0] !in xs[1..];
    }
  }

  lemma {:induction false} FilterNone<T(!new)>(p: T -> bool, xs: seq<T>)
    requires forall x :: x in xs ==> !p(x)
    ensures Filter(p, xs) == []
  {
    if xs != [] {
      FilterNone(p, xs[1..]);
    }
  }

  /** At most one element passes if any two that pass are equal. */
  lemma {:induction false} FilterAtMostOne<T(!new)>(p: T -> bool, xs: seq<T>)
    requires NoDuplicates(xs) && forall x, y :: x in xs && y in xs && p(x) && p(y) ==> x == y
    ensures |Filter(p, xs)| <= 1
  {
    if xs != [] {
      FilterAtMostOne(p, xs[1..]);
      assert xs[0] !in xs[1..];
      if p(xs[0]) {
        FilterNone(p, xs[1..]);
      }
    }
  }

  lemma {:induction false} FilterSorted<T(!new)>(lt: (T, T) -> bool, p: T -> bool, xs: seq<T>)
    requires Sorted(lt, xs)
    ensures Sorted(lt, Filter(p, xs))
  {
    if xs != [] {
      FilterSorted(lt, p, xs[1..]);
      FilterMembers(p, xs[1..]);
      forall y | y in Filter(p, xs[1..])
        ensures !lt(y, xs[0])
      {
        assert y in xs[1..];
      }
    }
  }

  lemma {:induction false} FilterMultiset<T(!new)>(p: T -> bool, xs: seq<T>, ys: seq<T>)
    requires multiset(xs) == multiset(ys)
    ensures multiset(Filter(p, xs)) == multiset(Filter(p, ys))
  {
    if xs == [] {
      EmptyMultiset(ys);
    } else {
      var before, after := Extract(xs, ys);
      FilterMultiset(p, xs[1..], before + after);
      FilterConcat(p, before, [xs[0]] + after);
      FilterConcat(p, before, after);
      assert ([xs[0]] + after)[1..] == after;
    }
  }

  // ----- Stability

  /** Neither comes before the other. */
  function Ties<T>(lt: (T, T) -> bool, x: T): T -> bool { y => !lt(x, y) && !lt(y, x) }

  /** Elements that tie keep their order. */
  ghost predicate KeepsTies<T(!new)>(lt: (T, T) -> bool, xs: seq<T>, ys: seq<T>) {
    forall x :: Filter(Ties(lt, x), ys) == Filter(Ties(lt, x), xs)
  }

  lemma {:induction false} InsertStable<T(!new)>(lt: (T, T) -> bool, p: T -> bool, x: T, ys: seq<T>)
    requires forall a, b :: p(a) && p(b) ==> !lt(a, b)
    ensures Filter(p, Insert(lt, x, ys)) == Filter(p, [x] + ys)
  {
    assert ([x] + ys)[1..] == ys;
    if ys != [] && lt(ys[0], x) {
      InsertStable(lt, p, x, ys[1..]);
      assert ([x] + ys[1..])[1..] == ys[1..];
      assert ([ys[0]] + Insert(lt, x, ys[1..]))[1..] == Insert(lt, x, ys[1..]);
    }
  }

  /** Sorting is stable: the elements of any class whose members tie stay in their order. */
  lemma {:induction false} SortStable<T(!new)>(lt: (T, T) -> bool, p: T -> bool, xs: seq<T>)
    requires forall a, b :: p(a) && p(b) ==> !lt(a, b)
    ensures Filter(p, Sort(lt, xs)) == Filter(p, xs)
  {
    if xs != [] {
      var sorted := Sort(lt, xs[1..]);
      SortStable(lt, p, xs[1..]);
      InsertStable(lt, p, xs[0], sorted);
      assert ([xs[0]] + sorted)[1..] == sorted;
    }
  }

  lemma SortKeepsTies<T(!new)>(lt: (T, T) -> bool, xs: seq<T>)
    requires StrictWeakOrder(lt)
    ensures KeepsTies(lt, xs, Sort(lt, xs))
  {
    forall x: T
      ensures Filter(Ties(lt, x), Sort(lt, xs)) == Filter(Ties(lt, x), xs)
    {
      TiesTie(lt, x);
      SortStable(lt, Ties(lt, x), xs);
    }
  }

  lemma TiesTie<T(!new)>(lt: (T, T) -> bool, x: T)
    requires StrictWeakOrder(lt)
    ensures forall a, b :: Ties(lt, x)(a) && Ties(lt, x)(b) ==> !lt(a, b)
  {
    forall a, b | Ties(lt, x)(a) && Ties(lt, x)(b)
      ensures !lt(a, b)
    {
      assert lt(a, b) ==> lt(a, x) || lt(x, b);
    }
  }

  lemma SameFirst<T(!new)>(lt: (T, T) -> bool, xs: seq<T>, ys: seq<T>)
    requires StrictWeakOrder(lt) && Sorted(lt, xs) && Sorted(lt, ys) && KeepsTies(lt, xs, ys) && xs != []
    ensures ys != [] && xs[0] == ys[0]
  {
    var x := xs[0];
    var p := Ties(lt, x);
    FilterMembers(p, xs);
    FilterMembers(p, ys);
    assert p(x) && x in Filter(p, xs);
    assert x in Filter(p, ys);
    var i :| 0 <= i < |ys| && ys[i] == x;
    var y := ys[0];
    var q := Ties(lt, y);
    FilterMembers(q, xs);
    FilterMembers(q, ys);
    assert q(y) && y in Filter(q, ys);
    var j :| 0 <= j < |xs| && xs[j] == y;
    assert !lt(ys[i], y) && !lt(xs[j], x);
    assert p(y);
    assert Filter(p, xs)[0] == x && Filter(p, ys)[0] == y;
  }

  lemma TiesOfTail<T(!new)>(lt: (T, T) -> bool, xs: seq<T>, ys: seq<T>)
    requires KeepsTies(lt, xs, ys) && xs != [] && ys != [] && xs[0] == ys[0]
    ensures KeepsTies(lt, xs[1..], ys[1..])
  {
    forall x: T
      ensures Filter(Ties(lt, x), ys[1..]) == Filter(Ties(lt, x), xs[1..])
    {
      var p := Ties(lt, x);
      assert Filter(p, ys) == Filter(p, xs);
      if p(xs[0]) {
        assert Filter(p, xs)[1..] == Filter(p, xs[1..]) && Filter(p, ys)[1..] == Filter(p, ys[1..]);
      }
    }
  }

  /** Sorted lists with the same elements of every tie class in the same order are equal. */
  lemma {:induction false} StableIsUnique<T(!new)>(lt: (T, T) -> bool, xs: seq<T>, ys: seq<T>)
    requires StrictWeakOrder(lt) && Sorted(lt, xs) && Sorted(lt, ys) && KeepsTies(lt, xs, ys)
    ensures xs == ys
  {
    if xs != [] {
      SameFirst(lt, xs, ys);
      TiesOfTail(lt, xs, ys);
      StableIsUnique(lt, xs[1..], ys[1..]);
      assert xs == [xs[0]] + xs[1..] && ys == [ys[0]] + ys[1..];
    } else if ys != [] {
      TiesSymmetric(lt, xs, ys);
      SameFirst(lt, ys, xs);
    }
  }

  lemma TiesSymmetric<T(!new)>(lt: (T, T) -> bool, xs: seq<T>, ys: seq<T>)
    requires KeepsTies(lt, xs, ys)
    ensures KeepsTies(lt, ys, xs)
  {}

  /** `Sort` is the one stable sort: any sorted list that keeps the order of ties is its result. */
  lemma StableSortIsSort<T(!new)>(lt: (T, T) -> bool, xs: seq<T>, ys: seq<T>)
    requires StrictWeakOrder(lt)
    ensures ys == Sort(lt, xs) <==> Sorted(lt, ys) && KeepsTies(lt, xs, ys)
  {
    SortSorts(lt, xs);
    SortKeepsTies(lt, xs);
    if Sorted(lt, ys) && KeepsTies(lt, xs, ys) {
      TiesThrough(lt, xs, Sort(lt, xs), ys);
      StableIsUnique(lt, Sort(lt, xs), ys);
    }
  }

  lemma TiesThrough<T(!new)>(lt: (T, T) -> bool, xs: seq<T>, ys: seq<T>, zs: seq<T>)
    requires KeepsTies(lt, xs, ys) && KeepsTies(lt, xs, zs)
    ensures KeepsTies(lt, ys, zs)
  {}

  /** String comparison character by character, a proper prefix coming first. */
  predicate LexLess(a: string, b: string) {
    b != [] && (a == [] || a[0] < b[0] || (a[0] == b[0] && LexLess(a[1..], b[1..])))
  }

  lemma {:induction false} LexTransitive(a: string, b: string, c: string)
    requires LexLess(a, b) && LexLess(b, c)
    ensures LexLess(a, c)
  {
    if a != [] && a[0] == b[0] == c[0] {
      LexTransitive(a[1..], b[1..], c[1..]);
    }
  }

  lemma {:induction false} LexTrichotomy(a: string, b: string)
    ensures !(LexLess(a, b) && LexLess(b, a))
    ensures a == b || LexLess(a, b) || LexLess(b, a)
    ensures !LexLess(a, a)
  {
    if a != [] {
      if b != [] {
        LexTrichotomy(a[1..], b[1..]);
        if a[0] == b[0] && a[1..] == b[1..] {
          assert a == [a[0]] + a[1..] == b;
        }
      } else {
        LexTrichotomy(a[1..], a[1..]);
      }
    }
  }

  lemma LexIsStrictTotal()
    ensures StrictWeakOrder(LexLess)
    ensures forall xs: seq<string> :: TotalOn(LexLess, xs)
  {
    forall x, y: string
      ensures !LexLess(x, x) && (x == y || LexLess(x, y) || LexLess(y, x))
    {
      LexTrichotomy(x, y);
    }
    forall x, y, z: string | LexLess(x, y) && LexLess(y, z)
      ensures LexLess(x, z)
    {
      LexTransitive(x, y, z);
    }
    forall x, y, z: string | LexLess(x, z)
      ensures LexLess(x, y) || LexLess(y, z)
    {
      if !LexLess(x, y) && x != y {
        LexTransitive(y, x, z);
      }
    }
  }

  /** On strings of equal length the comparison is decided by the last character only in a tie. */
  lemma {:induction false} LexSnoc(a: string, c: char, b: string, d: char)
    requires |a| == |b|
    ensures LexLess(a + [c], b + [d]) <==> LexLess(a, b) || (a == b && c < d)
  {
    if a == [] {
      assert a + [c] == [c] && b + [d] == [d];
    } else {
      assert (a + [c])[1..] == a[1..] + [c] && (b + [d])[1..] == b[1..] + [d];
      LexSnoc(a[1..], c, b[1..], d);
      assert a == [a[0]] + a[1..] && b == [b[0]] + b[1..];
    }
  }

  lemma {:induction false} LexCommonPrefix(p: string, a: string, b: string)
    ensures LexLess(p + a, p + b) <==> LexLess(a, b)
  {
    if p == [] {
      assert p + a == a && p + b == b;
    } else {
      assert (p + a)[1..] == p[1..] + a && (p + b)[1..] == p[1..] + b;
      LexCommonPrefix(p[1..], a, b);
    }
  }
}
