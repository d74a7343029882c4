/**
 The benchmark's queries, pages and seeded rows told column by column: which rows come back, in which
 order, and what the seeding writes, in the columns and constants of the SQL.
 */
module CatalogRows {
  import opened Catalog
  import opened CatalogPages
  import opened CatalogSeed
  import opened Decimal
  import opened Ordering

  // ----- Query results

  /** The result holds each wanted item once, as its id and metadata, and nothing else. */
  ghost predicate ReturnsExactly(rows: seq<Row>, items: seq<MediaItem>, wanted: MediaItem -> bool) {
    && NoDuplicates(rows)
    && (forall row :: row in rows <==> exists i :: 0 <= i < |items| && wanted(items[i]) && row.id == items[i].id && row.metadata == items[i].metadata)
  }

  lemma RowsOfFilter(items: seq<MediaItem>, wanted: MediaItem -> bool)
    requires ItemKey(items)
    ensures ReturnsExactly(Map(RowOf, Filter(wanted, items)), items, wanted)
  {
    var chosen := Filter(wanted, items);
    var rows := Map(RowOf, chosen);
    ItemKeyNoDuplicates(items);
    FilterNoDuplicates(wanted, items);
    FilterMembers(wanted, items);
    forall i, j | 0 <= i < j < |rows|
      ensures rows[i] != rows[j]
    {
      assert chosen[i] in chosen && chosen[j] in chosen && chosen[i] != chosen[j];
      SameIdSameItem(items, chosen[i], chosen[j]);
    }
    forall row: Row
      ensures row in rows <==> exists i :: 0 <= i < |items| && wanted(items[i]) && row.id == items[i].id && row.metadata == items[i].metadata
    {
      if row in rows {
        var k :| 0 <= k < |rows| && rows[k] == row;
        assert chosen[k] in chosen;
        var i :| 0 <= i < |items| && items[i] == chosen[k];
      }
      if i :| 0 <= i < |items| && wanted(items[i]) && row.id == items[i].id && row.metadata == items[i].metadata {
        assert items[i] in chosen;
        var k :| 0 <= k < |chosen| && chosen[k] == items[i];
        assert rows[k] == row;
      }
    }
  }

  lemma SameIdSameItem(items: seq<MediaItem>, a: MediaItem, b: MediaItem)
    requires ItemKey(items) && a in items && b in items
    ensures a.id == b.id ==> a == b
  {
    var i :| 0 <= i < |items| && items[i] == a;
    var j :| 0 <= j < |items| && items[j] == b;
  }

  lemma ReturnsRearranged(rows: seq<Row>, others: seq<Row>, items: seq<MediaItem>, wanted: MediaItem -> bool)
    requires ReturnsExactly(rows, items, wanted) && multiset(rows) == multiset(others)
    ensures ReturnsExactly(others, items, wanted)
  {
    SameMembers(rows, others);
    NoDuplicatesFromMultiset(rows, others);
  }

  lemma SameWish(rows: seq<Row>, items: seq<MediaItem>, p: MediaItem -> bool, q: MediaItem -> bool)
    requires ReturnsExactly(rows, items, p) && forall i :: 0 <= i < |items| ==> p(items[i]) == q(items[i])
    ensures ReturnsExactly(rows, items, q)
  {}

  /** missing_since IS NULL AND media_type = 'Video' AND collection_type = 'tvshows' */
  function PresentTv(): MediaItem -> bool {
    (item: MediaItem) => !item.missing && item.mediaType == "Video" && item.collectionType == "tvshows"
  }

  /** Such an item with an upcoming date after (1700000000, 0). */
  function PresentTvSoon(upcoming: seq<UpcomingDate>): MediaItem -> bool {
    (item: MediaItem) =>
      !item.missing && item.mediaType == "Video" && item.collectionType == "tvshows"
      && exists d :: 0 <= d < |upcoming| && upcoming[d].item == item.id
           && (upcoming[d].unixSeconds > 1700000000 || (upcoming[d].unixSeconds == 1700000000 && upcoming[d].nanosecond > 0))
  }

  lemma UpcomingScanExactly(t: Tables)
    requires ItemKey(t.items)
    ensures ReturnsExactly(UpcomingScan(t), t.items, PresentTv())
  {
    RowsOfFilter(t.items, VisibleTv);
    SameWish(UpcomingScan(t), t.items, VisibleTv, PresentTv());
  }

  lemma UpcomingProjectionExactly(t: Tables)
    requires ItemKey(t.items) && UpcomingKey(t.upcoming)
    ensures ReturnsExactly(UpcomingProjection(t), t.items, PresentTvSoon(t.upcoming))
  {
    var wanted := (item: MediaItem) => FutureTv(t, item);
    var rows := Map(RowOf, Filter(wanted, t.items));
    UpcomingProjectionIsFilteredScan(t);
    RowsOfFilter(t.items, wanted);
    ReturnsRearranged(rows, UpcomingProjection(t), t.items, wanted);
    forall item: MediaItem
      ensures wanted(item) == PresentTvSoon(t.upcoming)(item)
    {
      DatesAgree(t.upcoming, item.id);
    }
    SameWish(UpcomingProjection(t), t.items, wanted, PresentTvSoon(t.upcoming));
  }

  lemma DatesAgree(upcoming: seq<UpcomingDate>, id: ItemId)
    ensures HasFutureDate(upcoming, id) <==>
            exists d :: 0 <= d < |upcoming| && upcoming[d].item == id
              && (upcoming[d].unixSeconds > 1700000000 || (upcoming[d].unixSeconds == 1700000000 && upcoming[d].nanosecond > 0))
  {}

  /** Present, with the common person, the common studio and the common tag. */
  function PresentWithAll(filters: seq<FilterSelector>): MediaItem -> bool {
    (item: MediaItem) =>
      !item.missing
      && FilterSelector(item.id, Person, "person-common") in filters
      && FilterSelector(item.id, Studio, "studio-common") in filters
      && FilterSelector(item.id, Tag, "tag-common") in filters
  }

  lemma FilterProjectionExactly(t: Tables)
    requires ItemKey(t.items)
    ensures ReturnsExactly(FilterProjection(t), t.items, PresentWithAll(t.filters))
  {
    var wanted := (item: MediaItem) => MatchesAllKinds(t, item);
    FilterProjectionIsFilteredScan(t);
    RowsOfFilter(t.items, wanted);
    ReturnsRearranged(Map(RowOf, Filter(wanted, t.items)), FilterProjection(t), t.items, wanted);
    SameWish(FilterProjection(t), t.items, wanted, PresentWithAll(t.filters));
  }

  /** Both genre forms select the present items with a selector row, each once. */
  lemma GenreItemsExactly(t: Tables, selector: string, idLess: (ItemId, ItemId) -> bool)
    requires ItemKey(t.items)
    ensures NoDuplicates(GenreExistsItems(t, selector)) && GenreInItems(t, selector) == GenreExistsItems(t, selector)
    ensures forall item :: item in GenreExistsItems(t, selector)
              <==> item in t.items && !item.missing && GenreSelector(item.id, selector) in t.genres
  {
    var ids := GenreItems(t.genres, [selector]);
    var correlated, listed := (item: MediaItem) => Visible(item) && GenreExists(t.genres, item.id, [selector]), (item: MediaItem) => Visible(item) && item.id in ids;
    forall item: MediaItem
      ensures correlated(item) == listed(item)
      ensures listed(item) <==> !item.missing && GenreSelector(item.id, selector) in t.genres
    {
      GenreExistsIffListed(t.genres, item.id, [selector]);
      GenreRowIff(t.genres, item.id, selector);
    }
    FilterAgrees(correlated, listed, t.items);
    FilterMembers(correlated, t.items);
    ItemKeyNoDuplicates(t.items);
    FilterNoDuplicates(correlated, t.items);
  }

  lemma GenreRowIff(genres: seq<GenreSelector>, id: ItemId, selector: string)
    ensures GenreSelector(id, selector) in genres <==>
            exists i :: 0 <= i < |genres| && genres[i].item == id && genres[i].selector in [selector]
  {
    if i :| 0 <= i < |genres| && genres[i].item == id && genres[i].selector in [selector] {
      assert genres[i] == GenreSelector(id, selector);
    }
  }

  // ----- Pages of arbitrary rows

  /** lower(): the letters A to Z become small, nothing else changes. */
  lemma LowerExact(s: string)
    ensures |Lower(s)| == |s|
    ensures forall i :: 0 <= i < |s| ==>
              if 'A' <= s[i] <= 'Z' then Lower(s)[i] as int == s[i] as int + 32 else Lower(s)[i] == s[i]
  {}

  /** The part of a sorted list that LIMIT 100 OFFSET leaves. */
  ghost predicate IsPage(page: seq<ItemId>, sorted: seq<MediaItem>, offset: nat) {
    && |page| == (if |sorted| <= offset then 0 else if |sorted| - offset < 100 then |sorted| - offset else 100)
    && forall i :: 0 <= i < |page| ==> page[i] == sorted[offset + i].id
  }

  /** ORDER BY lower(name), id. */
  ghost predicate ByName(rows: seq<MediaItem>, idLess: (ItemId, ItemId) -> bool) {
    forall i, j :: 0 <= i < j < |rows| ==>
      LexLess(Lower(rows[i].name), Lower(rows[j].name))
      || (Lower(rows[i].name) == Lower(rows[j].name) && !idLess(rows[j].id, rows[i].id))
  }

  lemma NameOrderIsOrder(idLess: (ItemId, ItemId) -> bool)
    requires StrictWeakOrder(idLess)
    ensures StrictWeakOrder(NameOrder(idLess))
  {
    var lt := NameOrder(idLess);
    forall x: MediaItem
      ensures !lt(x, x)
    {
      LexTrichotomy(Lower(x.name), Lower(x.name));
    }
    forall x, y, z: MediaItem | lt(x, y) && lt(y, z)
      ensures lt(x, z)
    {
      NamesTransitive(Lower(x.name), Lower(y.name), Lower(z.name));
    }
    forall x, y, z: MediaItem | lt(x, z)
      ensures lt(x, y) || lt(y, z)
    {
      NamesWeak(Lower(x.name), Lower(y.name), Lower(z.name));
    }
  }

  lemma NamesTransitive(x: string, y: string, z: string)
    ensures LexLess(x, y) && LexLess(y, z) ==> LexLess(x, z)
  {
    if LexLess(x, y) && LexLess(y, z) {
      LexTransitive(x, y, z);
    }
  }

  lemma NamesWeak(x: string, y: string, z: string)
    ensures LexLess(x, z) ==> LexLess(x, y) || LexLess(y, z)
    ensures x == y || LexLess(x, y) || LexLess(y, x)
    ensures x == z ==> x == y || LexLess(x, y) || LexLess(y, z)
  {
    LexTrichotomy(x, y);
    LexTrichotomy(y, z);
    LexTrichotomy(x, z);
    if LexLess(x, z) && LexLess(y, x) {
      LexTransitive(y, x, z);
    }
  }

  /** A page is the promised part of the rows in the promised order. */
  lemma PageExactly(rows: seq<MediaItem>, idLess: (ItemId, ItemId) -> bool, offset: nat)
    returns (sorted: seq<MediaItem>)
    requires StrictWeakOrder(idLess)
    ensures multiset(sorted) == multiset(rows) && ByName(sorted, idLess)
    ensures IsPage(Page(rows, idLess, offset), sorted, offset)
  {
    sorted := Sort(NameOrder(idLess), rows);
    SortBag(NameOrder(idLess), rows);
    NameOrderIsOrder(idLess);
    SortSorts(NameOrder(idLess), rows);
    SortedIsByName(sorted, idLess);
  }

  lemma SortedIsByName(rows: seq<MediaItem>, idLess: (ItemId, ItemId) -> bool)
    requires Sorted(NameOrder(idLess), rows)
    ensures ByName(rows, idLess)
  {
    forall i, j | 0 <= i < j < |rows|
      ensures LexLess(Lower(rows[i].name), Lower(rows[j].name))
              || (Lower(rows[i].name) == Lower(rows[j].name) && !idLess(rows[j].id, rows[i].id))
    {
      assert !NameOrder(idLess)(rows[j], rows[i]);
      LexTrichotomy(Lower(rows[i].name), Lower(rows[j].name));
    }
  }

  /** The first page of both genre forms: the present items with a selector row, by name. */
  lemma GenrePageExactly(t: Tables, selector: string, idLess: (ItemId, ItemId) -> bool) returns (sorted: seq<MediaItem>)
    requires ItemKey(t.items) && StrictWeakOrder(idLess)
    ensures NoDuplicates(sorted) && ByName(sorted, idLess)
    ensures forall item :: item in sorted <==> item in t.items && !item.missing && GenreSelector(item.id, selector) in t.genres
    ensures IsPage(Page(GenreExistsItems(t, selector), idLess, 0), sorted, 0)
    ensures IsPage(Page(GenreInItems(t, selector), idLess, 0), sorted, 0)
  {
    GenreItemsExactly(t, selector, idLess);
    sorted := PageExactly(GenreExistsItems(t, selector), idLess, 0);
    SameMembers(GenreExistsItems(t, selector), sorted);
    NoDuplicatesFromMultiset(GenreExistsItems(t, selector), sorted);
  }

  // ----- Pages of seeded rows

  /** The numbers from 1 to size that qualify. */
  ghost function Kept(size: nat, keep: nat -> bool): set<nat> { set v: nat | 1 <= v <= size && keep(v) }

  lemma {:induction false} CountIsSize(size: nat, keep: nat -> bool)
    ensures Count(size, keep) == |Kept(size, keep)|
  {
    if size > 0 {
      CountIsSize(size - 1, keep);
      assert Kept(size, keep) == Kept(size - 1, keep) + if keep(size) then {size} else {};
    } else {
      assert Kept(0, keep) == {};
    }
  }

  lemma {:induction false} SeriesLength<T>(size: nat, keep: nat -> bool, row: nat -> T)
    ensures |Series(size, keep, row)| == Count(size, keep)
  {
    if size > 0 {
      SeriesLength(size - 1, keep, row);
    }
  }

  lemma {:induction false} SeriesElement<T>(size: nat, keep: nat -> bool, row: nat -> T, k: nat) returns (v: nat)
    requires k < |Series(size, keep, row)|
    ensures 1 <= v <= size && keep(v) && Series(size, keep, row)[k] == row(v) && Count(v - 1, keep) == k
  {
    if k < |Series(size - 1, keep, row)| {
      v := SeriesElement(size - 1, keep, row, k);
    } else {
      v := size;
      SeriesLength(size - 1, keep, row);
    }
  }

  /** The rank-th qualifying number is the value's id: just so many smaller numbers qualify. */
  ghost predicate RankedId(id: ItemId, size: nat, keep: nat -> bool, rank: nat) {
    exists v: nat :: 1 <= v <= size && keep(v) && id == ItemId(v) && |Kept(v - 1, keep)| == rank
  }

  /** LIMIT 100 OFFSET of the ids of the qualifying numbers in ascending order. */
  ghost predicate NumericPage(page: seq<ItemId>, size: nat, keep: nat -> bool, offset: nat) {
    && |page| == (if |Kept(size, keep)| <= offset then 0
                  else if |Kept(size, keep)| - offset < 100 then |Kept(size, keep)| - offset else 100)
    && forall i :: 0 <= i < |page| ==> RankedId(page[i], size, keep, offset + i)
  }

  lemma SliceIsNumeric(size: nat, keep: nat -> bool, offset: nat)
    ensures NumericPage(Slice(Series(size, keep, (value: nat) => ItemId(value)), offset, 100), size, keep, offset)
  {
    var ids := Series(size, keep, (value: nat) => ItemId(value));
    var page := Slice(ids, offset, 100);
    SeriesLength(size, keep, (value: nat) => ItemId(value));
    CountIsSize(size, keep);
    forall i | 0 <= i < |page|
      ensures RankedId(page[i], size, keep, offset + i)
    {
      var v := SeriesElement(size, keep, (value: nat) => ItemId(value), offset + i);
      CountIsSize(v - 1, keep);
      assert page[i] == ids[offset + i];
    }
  }

  lemma {:induction false} SameSeriesKept<T>(size: nat, p: nat -> bool, q: nat -> bool, row: nat -> T)
    requires forall v: nat :: 1 <= v <= size ==> p(v) == q(v)
    ensures Series(size, p, row) == Series(size, q, row)
  {
    if size > 0 {
      SameSeriesKept(size - 1, p, q, row);
    }
  }

  /** The page of seeded rows that pass `p`, where `p` amounts to a condition on the seed value. */
  lemma SeededPageExactly(size: nat, p: MediaItem -> bool, keep: nat -> bool, idLess: (ItemId, ItemId) -> bool, offset: nat)
    requires size < 1_000_000_000 && forall v: nat :: 1 <= v <= size ==> p(SeedItem(v)) == keep(v)
    ensures NumericPage(Page(Filter(p, SeedItems(size)), idLess, offset), size, keep, offset)
  {
    PageIsNumericSlice(size, p, idLess, offset);
    SameSeriesKept(size, After(p, SeedItem), keep, (value: nat) => ItemId(value));
    SliceIsNumeric(size, keep, offset);
  }

  /** Math.min(Math.floor(size / 10), 10000) */
  lemma OffsetExact(size: nat)
    ensures Offset(size) <= 10000 && 10 * Offset(size) <= size
    ensures Offset(size) < 10000 ==> size < 10 * Offset(size) + 10
  {}

  /** The first three measured pages and the folder page, by residues of the seed value. */
  lemma MeasuredPages(size: nat, scan: seq<MediaItem> -> seq<MediaItem>, idLess: (ItemId, ItemId) -> bool)
    requires size < 1_000_000_000
    ensures var items, offset := Seeded(size, scan).items, Offset(size);
            && NumericPage(Page(Filter(Visible, items), idLess, offset), size, v => v % 100 != 0, offset)
            && NumericPage(Page(Filter(VisibleMovie, items), idLess, offset), size, v => v % 3 == 0 && v % 100 != 0, offset)
            && NumericPage(Page(Filter(FirstFolder, items), idLess, offset), size, v => v % 8 == 0 && v % 100 != 0, offset)
  {
    SeededPageExactly(size, Visible, v => v % 100 != 0, idLess, Offset(size));
    SeededPageExactly(size, VisibleMovie, v => v % 3 == 0 && v % 100 != 0, idLess, Offset(size));
    SeededPageExactly(size, FirstFolder, v => v % 8 == 0 && v % 100 != 0, idLess, Offset(size));
  }

  /** The user has a playback row for the item that says it was played. */
  ghost predicate HasPlayed(playback: seq<Playback>, v: nat) {
    exists i :: 0 <= i < |playback| && playback[i].user == 1 && playback[i].item == ItemId(v) && playback[i].played
  }

  lemma UnplayedPage(size: nat, scan: seq<MediaItem> -> seq<MediaItem>, idLess: (ItemId, ItemId) -> bool, keep: nat -> bool)
    requires size < 1_000_000_000 && Rearranges(scan)
    requires forall v: nat :: keep(v) <==> v % 3 == 0 && v % 100 != 0 && !HasPlayed(Seeded(size, scan).playback, v)
    ensures var t := Seeded(size, scan);
            NumericPage(Page(UnplayedMovies(t.items, t.playback), idLess, Offset(size)), size, keep, Offset(size))
  {
    var t := Seeded(size, scan);
    UnplayedCount(size, scan);
    SeededPageExactly(size, item => Unplayed(t.playback, item), keep, idLess, Offset(size));
  }

  // ----- Seeded tables

  /** Every column of the item of one value. */
  ghost predicate SeededColumns(item: MediaItem, v: nat) {
    && item.id == ItemId(v)
    && item.folder == v % 8 + 1
    && |item.name| == 22 && item.name[..13] == "Catalog Item " && AllDigits(item.name[13..]) && Value(item.name[13..]) == v
    && item.mediaType == "Video"
    && item.collectionType == (if v % 3 == 0 then "movies" else if v % 3 == 1 then "tvshows" else "music")
    && item.metadata == (if v % 100 == 1 then "2033-05-18T03:33:20.000000001Z" else "2001-09-09T01:46:40Z")
    && (item.missing <==> v % 100 == 0)
  }

  lemma ItemColumns(v: nat)
    requires v < 1_000_000_000
    ensures SeededColumns(SeedItem(v), v)
  {
    PowersOfTen();
    PaddedValue(9, v);
    var digits := PadLeft(9, Render(v));
    assert ("Catalog Item " + digits)[13..] == digits;
  }

  lemma SeededItemAt(size: nat, v: nat)
    requires 1 <= v <= size < 1_000_000_000
    ensures |SeedItems(size)| == size && SeededColumns(SeedItems(size)[v - 1], v)
  {
    SeriesAt(size, SeedItem, v - 1);
    ItemColumns(v);
  }

  lemma SeededDateAt(size: nat, v: nat)
    requires 1 <= v <= size
    ensures |SeedDates(size)| == size
    ensures SeedDates(size)[v - 1] == UpcomingDate(ItemId(v), if v % 100 == 1 then 2000000000 else 1000000000, if v % 100 == 1 then 1 else 0)
  {
    SeriesAt(size, SeedDate, v - 1);
  }

  /** The seeded items and dates, value by value. */
  lemma SeededItemsExactly(size: nat, scan: seq<MediaItem> -> seq<MediaItem>, v: nat)
    requires 1 <= v <= size < 1_000_000_000
    ensures var t := Seeded(size, scan);
            && |t.items| == size && SeededColumns(t.items[v - 1], v)
            && |t.upcoming| == size
            && t.upcoming[v - 1] == UpcomingDate(ItemId(v), if v % 100 == 1 then 2000000000 else 1000000000, if v % 100 == 1 then 1 else 0)
  {
    SeededItemAt(size, v);
    SeededDateAt(size, v);
  }

  /** A common row for every multiple of 5, a rare one for every value 1 more than a multiple of 1000. */
  predicate SeededGenreRow(row: GenreSelector, size: nat) {
    1 <= row.item.seed <= size
    && ((row.selector == "genre-common" && row.item.seed % 5 == 0) || (row.selector == "genre-rare" && row.item.seed % 1000 == 1))
  }

  /** A person row for every multiple of 5, a studio row for every multiple of 7, a tag row for every multiple of 11. */
  predicate SeededFilterRow(row: FilterSelector, size: nat) {
    1 <= row.item.seed <= size
    && ((row.kind == Person && row.selector == "person-common" && row.item.seed % 5 == 0)
        || (row.kind == Studio && row.selector == "studio-common" && row.item.seed % 7 == 0)
        || (row.kind == Tag && row.selector == "tag-common" && row.item.seed % 11 == 0))
  }

  /** The selector rows. */
  lemma SeededSelectorsExactly(size: nat, scan: seq<MediaItem> -> seq<MediaItem>, genre: GenreSelector, filter: FilterSelector)
    ensures genre in Seeded(size, scan).genres <==> SeededGenreRow(genre, size)
    ensures filter in Seeded(size, scan).filters <==> SeededFilterRow(filter, size)
  {
    GenreSeries(size, Divisible(5), "genre-common", genre);
    GenreSeries(size, RARE_GENRE, "genre-rare", genre);
    FilterSeries(size, 5, Person, "person-common", filter);
    FilterSeries(size, 7, Studio, "studio-common", filter);
    FilterSeries(size, 11, Tag, "tag-common", filter);
  }

  /** No selector row is seeded twice. */
  lemma SeededSelectorsOnce(size: nat, scan: seq<MediaItem> -> seq<MediaItem>)
    ensures NoDuplicates(Seeded(size, scan).genres) && NoDuplicates(Seeded(size, scan).filters)
  {
    GenresOnce(size, Divisible(5), "genre-common");
    GenresOnce(size, RARE_GENRE, "genre-rare");
    GenresApart(size);
    FiltersOnce(size, 5, Person, "person-common");
    FiltersOnce(size, 7, Studio, "studio-common");
    FiltersOnce(size, 11, Tag, "tag-common");
    FiltersApart(size);
  }

  lemma GenresOnce(size: nat, keep: nat -> bool, selector: string)
    ensures NoDuplicates(Series(size, keep, GenreRow(selector)))
  {
    forall v, w | 1 <= v < w <= size
      ensures GenreRow(selector)(v) != GenreRow(selector)(w)
    {
      assert GenreRow(selector)(v).item == ItemId(v) && GenreRow(selector)(w).item == ItemId(w);
    }
    SeriesNoDuplicates(size, keep, GenreRow(selector));
  }

  lemma FiltersOnce(size: nat, divisor: nat, kind: Kind, selector: string)
    requires divisor > 0
    ensures NoDuplicates(Series(size, Divisible(divisor), FilterRow(kind, selector)))
  {
    forall v, w | 1 <= v < w <= size
      ensures FilterRow(kind, selector)(v) != FilterRow(kind, selector)(w)
    {
      assert FilterRow(kind, selector)(v).item == ItemId(v) && FilterRow(kind, selector)(w).item == ItemId(w);
    }
    SeriesNoDuplicates(size, Divisible(divisor), FilterRow(kind, selector));
  }

  lemma GenresApart(size: nat)
    requires NoDuplicates(Series(size, Divisible(5), GenreRow("genre-common")))
    requires NoDuplicates(Series(size, RARE_GENRE, GenreRow("genre-rare")))
    ensures NoDuplicates(SeedGenres(size))
  {
    var common, rare := Series(size, Divisible(5), GenreRow("genre-common")), Series(size, RARE_GENRE, GenreRow("genre-rare"));
    assert "genre-common"[6] != "genre-rare"[6];
    forall genre | genre in common
      ensures genre !in rare
    {
      GenreSeries(size, Divisible(5), "genre-common", genre);
      GenreSeries(size, RARE_GENRE, "genre-rare", genre);
    }
    ConcatNoDuplicates(common, rare);
  }

  lemma FiltersApart(size: nat)
    requires NoDuplicates(Series(size, Divisible(5), FilterRow(Person, "person-common")))
    requires NoDuplicates(Series(size, Divisible(7), FilterRow(Studio, "studio-common")))
    requires NoDuplicates(Series(size, Divisible(11), FilterRow(Tag, "tag-common")))
    ensures NoDuplicates(SeedFilters(size))
  {
    var persons := Series(size, Divisible(5), FilterRow(Person, "person-common"));
    var studios := Series(size, Divisible(7), FilterRow(Studio, "studio-common"));
    var tags := Series(size, Divisible(11), FilterRow(Tag, "tag-common"));
    forall row: FilterSelector
      ensures row in persons ==> row.kind == Person
      ensures row in studios ==> row.kind == Studio
      ensures row in tags ==> row.kind == Tag
    {
      FilterSeries(size, 5, Person, "person-common", row);
      FilterSeries(size, 7, Studio, "studio-common", row);
      FilterSeries(size, 11, Tag, "tag-common", row);
    }
    ConcatNoDuplicates(persons, studios);
    ConcatNoDuplicates(persons + studios, tags);
  }

  lemma GenreSeries(size: nat, keep: nat -> bool, selector: string, genre: GenreSelector)
    ensures genre in Series(size, keep, GenreRow(selector)) <==>
            1 <= genre.item.seed <= size && genre.selector == selector && keep(genre.item.seed)
  {
    SeriesMembers(size, keep, GenreRow(selector), genre);
    assert GenreRow(selector)(genre.item.seed) == GenreSelector(genre.item, selector);
  }

  lemma FilterSeries(size: nat, divisor: nat, kind: Kind, selector: string, row: FilterSelector)
    requires divisor > 0
    ensures row in Series(size, Divisible(divisor), FilterRow(kind, selector)) <==>
            1 <= row.item.seed <= size && row.kind == kind && row.selector == selector && row.item.seed % divisor == 0
  {
    SeriesMembers(size, Divisible(divisor), FilterRow(kind, selector), row);
    assert FilterRow(kind, selector)(row.item.seed) == FilterSelector(row.item, kind, selector);
  }

  lemma MoviesAgree(items: seq<MediaItem>)
    ensures Filter(VisibleMovie, items) == Filter((item: MediaItem) => !item.missing && item.collectionType == "movies", items)
  {
    FilterAgrees(VisibleMovie, (item: MediaItem) => !item.missing && item.collectionType == "movies", items);
  }

  /** Rows numbered from one in the given order. */
  ghost predicate Numbered(playback: seq<Playback>, movies: seq<MediaItem>) {
    |playback| == |movies| && forall k :: 0 <= k < |movies| ==>
      playback[k] == Playback(1, movies[k].id, (k + 1) % 4 == 0, (k + 1) % 17 == 0, if (k + 1) % 5 == 0 then 900000000 else 0)
  }

  lemma NumberedExactly(movies: seq<MediaItem>)
    ensures Numbered(NumberedPlayback(movies), movies)
  {}

  /** The playback rows: one for each present movie, in whatever order the scan brings them. */
  lemma SeededPlaybackExactly(size: nat, scan: seq<MediaItem> -> seq<MediaItem>) returns (movies: seq<MediaItem>)
    requires Rearranges(scan)
    ensures multiset(movies) == multiset(Filter((item: MediaItem) => !item.missing && item.collectionType == "movies", SeedItems(size)))
    ensures Numbered(Seeded(size, scan).playback, movies)
  {
    movies := scan(Filter(VisibleMovie, SeedItems(size)));
    MoviesAgree(SeedItems(size));
    NumberedExactly(movies);
  }
}
