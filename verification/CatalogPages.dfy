/** The pages the benchmark measures: what rows they hold and that they are never short. */
module CatalogPages {
  import opened Catalog
  import opened CatalogCounts
  import opened CatalogSeed
  import opened Decimal
  import opened Ordering

  // ----- Names in the order of their numbers

  lemma LowerConcat(a: string, b: string)
    ensures Lower(a + b) == Lower(a) + Lower(b)
  {
    MapConcat((c: char) => if 'A' <= c <= 'Z' then (c as int + 32) as char else c, a, b);
  }

  lemma LowerDigits(s: string)
    requires AllDigits(s)
    ensures Lower(s) == s
  {}

  /** Seeded names compare, in lower case, as their numbers. */
  lemma NameOrderIsNumeric(m: nat, n: nat)
    requires m < 1_000_000_000 && n < 1_000_000_000
    ensures LexLess(Lower(SeedItem(m).name), Lower(SeedItem(n).name)) <==> m < n
    ensures Lower(SeedItem(m).name) == Lower(SeedItem(n).name) ==> m == n
  {
    var a, b := PadLeft(9, Render(m)), PadLeft(9, Render(n));
    assert Pow10(9) == 1_000_000_000 by { PowersOfTen(); }
    PaddedOrder(9, m, n);
    PaddedValue(9, m);
    PaddedValue(9, n);
    LowerConcat("Catalog Item ", a);
    LowerConcat("Catalog Item ", b);
    LowerDigits(a);
    LowerDigits(b);
    LexCommonPrefix(Lower("Catalog Item "), a, b);
    SamePrefix(Lower("Catalog Item "), a, b);
  }

  lemma SamePrefix(p: string, a: string, b: string)
    ensures p + a == p + b ==> a == b
  {
    assert (p + a)[|p|..] == a && (p + b)[|p|..] == b;
  }

  lemma PowersOfTen()
    ensures Pow10(9) == 1_000_000_000
  {
    assert Pow10(1) == 10 && Pow10(2) == 100 && Pow10(3) == 1000;
    assert Pow10(5) == 100_000 && Pow10(7) == 10_000_000;
  }

  lemma SeedItemsSorted(size: nat, idLess: (ItemId, ItemId) -> bool)
    requires size < 1_000_000_000
    ensures Sorted(NameOrder(idLess), SeedItems(size))
  {
    var items := SeedItems(size);
    SeededKeysHold(size);
    forall i, j | 0 <= i < j < |items|
      ensures !NameOrder(idLess)(items[j], items[i])
    {
      SeriesAt(size, SeedItem, i);
      SeriesAt(size, SeedItem, j);
      NameOrderIsNumeric(j + 1, i + 1);
    }
  }

  function Then<A, B>(row: nat -> A, f: A -> B): nat -> B {
    (value: nat) => f(row(value))
  }

  lemma ThenAt<A, B>(row: nat -> A, f: A -> B, value: nat)
    ensures Then(row, f)(value) == f(row(value))
  {}

  lemma {:induction false} FilteredSeries<A(!new), B>(size: nat, p: A -> bool, row: nat -> A, f: A -> B)
    ensures Map(f, Filter(p, Series(size, EVERY, row))) == Series(size, After(p, row), Then(row, f))
  {
    if size > 0 {
      FilteredSeries(size - 1, p, row, f);
      var before := Series(size - 1, EVERY, row);
      FilterConcat(p, before, [row(size)]);
      var last := Filter(p, [row(size)]);
      assert last == if p(row(size)) then [row(size)] else [];
      MapConcat(f, Filter(p, before), last);
      assert Map(f, last) == if p(row(size)) then [f(row(size))] else [];
    }
  }

  function IdOf(item: MediaItem): ItemId { item.id }

  lemma {:induction false} SameSeries<T>(size: nat, keep: nat -> bool, row: nat -> T, other: nat -> T)
    requires forall value: nat :: row(value) == other(value)
    ensures Series(size, keep, row) == Series(size, keep, other)
  {
    if size > 0 {
      SameSeries(size - 1, keep, row, other);
    }
  }

  lemma SliceOfMap<A, B>(f: A -> B, rows: seq<A>, offset: nat, limit: nat)
    ensures Map(f, Slice(rows, offset, limit)) == Slice(Map(f, rows), offset, limit)
  {}

  /**
   A page of seeded rows is the slice it claims of the matching numbers in ascending order,
   whatever the order of uuids, because zero-padded names sort as their numbers.
   */
  lemma PageIsNumericSlice(size: nat, p: MediaItem -> bool, idLess: (ItemId, ItemId) -> bool, offset: nat)
    requires size < 1_000_000_000
    ensures Page(Filter(p, SeedItems(size)), idLess, offset)
         == Slice(Series(size, After(p, SeedItem), (value: nat) => ItemId(value)), offset, 100)
  {
    var rows := Filter(p, SeedItems(size));
    SeedItemsSorted(size, idLess);
    FilterSorted(NameOrder(idLess), p, SeedItems(size));
    SortOfSorted(NameOrder(idLess), rows);
    SliceOfMap(IdOf, rows, offset, 100);
    FilteredSeries(size, p, SeedItem, IdOf);
    forall value: nat
      ensures Then(SeedItem, IdOf)(value) == ItemId(value)
    {
      ThenAt(SeedItem, IdOf, value);
      assert IdOf(SeedItem(value)) == ItemId(value);
    }
    SameSeries(size, After(p, SeedItem), Then(SeedItem, IdOf), (value: nat) => ItemId(value));
    assert Page(rows, idLess, offset) == Map(IdOf, Slice(rows, offset, 100));
  }

  // ----- Movies that the user has not played

  predicate PlaybackOf(row: Playback, id: ItemId) { row.item == id && row.user == USER }

  /** The joined rows of one item: its coalesced `played` per match, one false without a match. */
  function JoinPlayback(item: MediaItem, playback: seq<Playback>): seq<bool> {
    var matches := Filter((row: Playback) => PlaybackOf(row, item.id), playback);
    if matches == [] then [false] else Map((row: Playback) => row.played, matches)
  }

  function Copies(item: MediaItem, played: seq<bool>): seq<MediaItem> {
    if played == [] then [] else (if played[0] then [] else [item]) + Copies(item, played[1..])
  }

  /** item LEFT JOIN playback ... WHERE visible movie AND coalesce(played, false) = false. */
  function UnplayedMovies(items: seq<MediaItem>, playback: seq<Playback>): seq<MediaItem> {
    if items == [] then []
    else
      (if VisibleMovie(items[0]) then Copies(items[0], JoinPlayback(items[0], playback)) else [])
      + UnplayedMovies(items[1..], playback)
  }

  ghost predicate PlaybackKey(playback: seq<Playback>) {
    forall i, j :: 0 <= i < j < |playback| ==> !(playback[i].user == playback[j].user && playback[i].item == playback[j].item)
  }

  predicate Played(playback: seq<Playback>, id: ItemId) {
    exists i :: 0 <= i < |playback| && PlaybackOf(playback[i], id) && playback[i].played
  }

  predicate Unplayed(playback: seq<Playback>, item: MediaItem) {
    VisibleMovie(item) && !Played(playback, item.id)
  }

  lemma AtMostOneMatch(id: ItemId, playback: seq<Playback>)
    requires PlaybackKey(playback)
    ensures |Filter((row: Playback) => PlaybackOf(row, id), playback)| <= 1
  {
    assert NoDuplicates(playback);
    FilterAtMostOne((row: Playback) => PlaybackOf(row, id), playback);
  }

  lemma JoinIsSingle(item: MediaItem, playback: seq<Playback>)
    requires PlaybackKey(playback)
    ensures JoinPlayback(item, playback) == [Played(playback, item.id)]
  {
    var matches := Filter((row: Playback) => PlaybackOf(row, item.id), playback);
    AtMostOneMatch(item.id, playback);
    FilterMembers((row: Playback) => PlaybackOf(row, item.id), playback);
    if Played(playback, item.id) {
      var i :| 0 <= i < |playback| && PlaybackOf(playback[i], item.id) && playback[i].played;
      assert playback[i] in matches;
    }
    if matches != [] {
      assert matches[0] in playback;
      var i :| 0 <= i < |playback| && playback[i] == matches[0];
    }
  }

  /** Under the declared keys the outer join neither loses nor repeats a movie. */
  lemma {:induction false} UnplayedIsFilter(items: seq<MediaItem>, playback: seq<Playback>)
    requires PlaybackKey(playback)
    ensures UnplayedMovies(items, playback) == Filter(item => Unplayed(playback, item), items)
  {
    if items != [] {
      JoinIsSingle(items[0], playback);
      UnplayedIsFilter(items[1..], playback);
      FilterAgrees(item => Unplayed(playback, item), item => Unplayed(playback, item), items[1..]);
      assert Copies(items[0], [Played(playback, items[0].id)]) == if Played(playback, items[0].id) then [] else [items[0]];
    }
  }

  lemma {:induction false} FilterTwice<T(!new)>(p: T -> bool, q: T -> bool, both: T -> bool, xs: seq<T>)
    requires forall x :: both(x) <==> p(x) && q(x)
    ensures Filter(both, xs) == Filter(q, Filter(p, xs))
  {
    if xs != [] {
      FilterTwice(p, q, both, xs[1..]);
      FilterConcat(q, if p(xs[0]) then [xs[0]] else [], Filter(p, xs[1..]));
    }
  }

  lemma {:induction false} FilterByPosition<T(!new)>(xs: seq<T>, p: T -> bool, keep: nat -> bool)
    requires forall i :: 0 <= i < |xs| ==> p(xs[i]) == keep(i + 1)
    ensures |Filter(p, xs)| == Count(|xs|, keep)
  {
    if xs != [] {
      var n := |xs| - 1;
      FilterByPosition(xs[..n], p, keep);
      FilterConcat(p, xs[..n], [xs[n]]);
      assert xs == xs[..n] + [xs[n]];
      assert Filter(p, [xs[n]]) == if p(xs[n]) then [xs[n]] else [];
    }
  }

  lemma NumberedKeyHolds(movies: seq<MediaItem>)
    requires ItemKey(movies)
    ensures PlaybackKey(NumberedPlayback(movies))
    ensures forall i :: 0 <= i < |movies| ==> (Played(NumberedPlayback(movies), movies[i].id) <==> (i + 1) % 4 == 0)
  {
    var playback := NumberedPlayback(movies);
    forall i | 0 <= i < |movies|
      ensures Played(playback, movies[i].id) <==> (i + 1) % 4 == 0
    {
      assert playback[i] == PlaybackRow(movies[i], i + 1);
    }
  }

  lemma RearrangedKey(items: seq<MediaItem>, rows: seq<MediaItem>, scanned: seq<MediaItem>)
    requires ItemKey(items) && NoDuplicates(rows) && (forall row :: row in rows ==> row in items)
    requires multiset(scanned) == multiset(rows)
    ensures ItemKey(scanned)
  {
    SameMembers(scanned, rows);
    NoDuplicatesFromMultiset(rows, scanned);
    forall i, j | 0 <= i < j < |scanned|
      ensures scanned[i].id != scanned[j].id
    {
      assert scanned[i] in rows && scanned[j] in rows;
    }
  }

  lemma SeededPlayback(size: nat, scan: seq<MediaItem> -> seq<MediaItem>)
    requires Rearranges(scan)
    ensures var scanned := scan(Filter(VisibleMovie, SeedItems(size)));
            ItemKey(scanned) && multiset(scanned) == multiset(Filter(VisibleMovie, SeedItems(size)))
  {
    SeededKeysHold(size);
    ItemKeyNoDuplicates(SeedItems(size));
    FilterNoDuplicates(VisibleMovie, SeedItems(size));
    FilterMembers(VisibleMovie, SeedItems(size));
    var movies := Filter(VisibleMovie, SeedItems(size));
    RearrangedKey(SeedItems(size), movies, scan(movies));
  }

  lemma UnplayedOfNumbered(scanned: seq<MediaItem>, notPlayed: MediaItem -> bool)
    requires ItemKey(scanned)
    requires forall item :: notPlayed(item) <==> !Played(NumberedPlayback(scanned), item.id)
    ensures |Filter(notPlayed, scanned)| == |scanned| - |scanned| / 4
  {
    NumberedKeyHolds(scanned);
    var keep := (k: nat) => k % 4 != 0;
    FilterByPosition(scanned, notPlayed, keep);
    CountSplits(|scanned|, keep, EVERY, Divisible(4));
    CountEvery(|scanned|);
    CountDivisible(|scanned|, 4);
  }

  /** Three quarters of the visible movies are unplayed, in whatever order row_number() saw them. */
  lemma UnplayedCount(size: nat, scan: seq<MediaItem> -> seq<MediaItem>)
    requires Rearranges(scan)
    ensures var t := Seeded(size, scan);
            && UnplayedMovies(t.items, t.playback) == Filter(item => Unplayed(t.playback, item), t.items)
            && |UnplayedMovies(t.items, t.playback)| == |Filter(VisibleMovie, t.items)| - |Filter(VisibleMovie, t.items)| / 4
  {
    var t := Seeded(size, scan);
    var movies := Filter(VisibleMovie, t.items);
    var scanned := scan(movies);
    SeededPlayback(size, scan);
    NumberedKeyHolds(scanned);
    UnplayedIsFilter(t.items, t.playback);
    var notPlayed := (item: MediaItem) => !Played(t.playback, item.id);
    FilterTwice(VisibleMovie, notPlayed, item => Unplayed(t.playback, item), t.items);
    FilterMultiset(notPlayed, scanned, movies);
    UnplayedOfNumbered(scanned, notPlayed);
    assert |scanned| == |multiset(scanned)| == |movies|;
    assert |Filter(notPlayed, movies)| == |multiset(Filter(notPlayed, movies))| == |Filter(notPlayed, scanned)|;
  }

  lemma {:induction false} CountEvery(size: nat)
    ensures Count(size, EVERY) == size
  {
    if size > 0 {
      CountEvery(size - 1);
    }
  }

  // ----- Page lengths

  function Offset(size: nat): nat {
    if size / 10 < 10000 then size / 10 else 10000
  }

  predicate FirstFolder(item: MediaItem) { !item.missing && item.folder == 1 }

  lemma VisibleCounts(size: nat)
    ensures |Filter(Visible, SeedItems(size))| == size - size / 100
    ensures |Filter(VisibleMovie, SeedItems(size))| == size / 3 - size / 300
    ensures |Filter(FirstFolder, SeedItems(size))| == size / 8 - size / 200
  {
    forall value: nat
      ensures Visible(SeedItem(value)) <==> value % 100 != 0
      ensures VisibleMovie(SeedItem(value)) <==> value % 3 == 0 && value % 100 != 0
      ensures FirstFolder(SeedItem(value)) <==> value % 8 == 0 && value % 100 != 0
      ensures (value % 300 == 0 <==> value % 3 == 0 && value % 100 == 0) && (value % 200 == 0 <==> value % 8 == 0 && value % 100 == 0)
    {
      Residues3And100(value, 0);
      Multiples8And100(value);
    }
    CountEvery(size);
    CountDivisible(size, 100);
    CountDivisible(size, 3);
    CountDivisible(size, 300);
    CountDivisible(size, 8);
    CountDivisible(size, 200);
    CountOfItems(size, Visible, EVERY, Divisible(100));
    CountOfItems(size, VisibleMovie, Divisible(3), Divisible(300));
    CountOfItems(size, FirstFolder, Divisible(8), Divisible(200));
  }

  lemma Multiples8And100(n: int)
    ensures n % 200 == 0 <==> n % 8 == 0 && n % 100 == 0
  {
    if n % 200 == 0 {
      MultipleOf(n, 25 * (n / 200), 8);
      MultipleOf(n, 2 * (n / 200), 100);
    }
    if n % 8 == 0 && n % 100 == 0 {
      var a, b := n / 8, n / 100;
      assert n == 8 * a == 100 * b;
      MultipleOf(n, 13 * b - a, 200);
    }
  }

  lemma Enough(size: nat)
    requires 1000 <= size <= 500000
    ensures size - size / 100 >= Offset(size) + 100
    ensures var movies := size / 3 - size / 300; movies - movies / 4 >= Offset(size) + 100
    ensures size / 8 - size / 200 >= Offset(size) + 20
  {}

  lemma PageLength(rows: seq<MediaItem>, idLess: (ItemId, ItemId) -> bool, offset: nat, least: nat)
    requires |rows| >= offset + least && least <= 100
    ensures least <= |Page(rows, idLess, offset)| <= 100
  {
    SortBag(NameOrder(idLess), rows);
  }

  /**
   For every accepted size the visible, movie and unplayed-movie pages hold a full 100 rows and the
   folder page at least 20, for any order of uuids and any scan order behind row_number().
   */
  lemma PagesAreFull(size: nat, scan: seq<MediaItem> -> seq<MediaItem>, idLess: (ItemId, ItemId) -> bool)
    requires 1000 <= size <= 500000 && Rearranges(scan)
    ensures var t := Seeded(size, scan);
            && |Page(Filter(Visible, t.items), idLess, Offset(size))| == 100
            && |Page(Filter(VisibleMovie, t.items), idLess, Offset(size))| == 100
            && |Page(UnplayedMovies(t.items, t.playback), idLess, Offset(size))| == 100
            && |Page(Filter(FirstFolder, t.items), idLess, Offset(size))| >= 20
  {
    VisibleCounts(size);
    UnplayedCount(size, scan);
    Enough(size);
    var t := Seeded(size, scan);
    PageLength(Filter(Visible, t.items), idLess, Offset(size), 100);
    PageLength(Filter(VisibleMovie, t.items), idLess, Offset(size), 100);
    PageLength(UnplayedMovies(t.items, t.playback), idLess, Offset(size), 100);
    PageLength(Filter(FirstFolder, t.items), idLess, Offset(size), 20);
  }
}
