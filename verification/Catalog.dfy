/**
 The benchmark's catalogue tables and the queries it compares, as relational evaluation.

 A table is a list of rows in unspecified order, so two query results agree when they are the same
 bag of rows. The theorems of this module hold for arbitrary tables with the declared primary keys.
 */
module Catalog {
  import opened Ordering

  /** The uuid derived from 'item-' and a number; distinct numbers give distinct uuids. */
  datatype ItemId = ItemId(seed: nat)

  datatype MediaItem = MediaItem(
    id: ItemId,
    folder: nat,
    name: string,
    mediaType: string,
    collectionType: string,
    metadata: string,
    missing: bool)

  datatype Playback = Playback(user: nat, item: ItemId, played: bool, isFavorite: bool, positionTicks: nat)

  datatype GenreSelector = GenreSelector(item: ItemId, selector: string)

  datatype UpcomingDate = UpcomingDate(item: ItemId, unixSeconds: int, nanosecond: int)

  datatype Kind = Person | Studio | Tag

  datatype FilterSelector = FilterSelector(item: ItemId, kind: Kind, selector: string)

  datatype Tables = Tables(
    items: seq<MediaItem>,
    playback: seq<Playback>,
    genres: seq<GenreSelector>,
    upcoming: seq<UpcomingDate>,
    filters: seq<FilterSelector>)

  /** The two columns the compared queries return. */
  datatype Row = Row(id: ItemId, metadata: string)

  function RowOf(item: MediaItem): Row { Row(item.id, item.metadata) }

  ghost predicate ItemKey(items: seq<MediaItem>) {
    forall i, j :: 0 <= i < j < |items| ==> items[i].id != items[j].id
  }

  ghost predicate UpcomingKey(upcoming: seq<UpcomingDate>) {
    forall i, j :: 0 <= i < j < |upcoming| ==> upcoming[i].item != upcoming[j].item
  }

  lemma ItemKeyNoDuplicates(items: seq<MediaItem>)
    requires ItemKey(items)
    ensures NoDuplicates(items)
  {}

  // ----- Upcoming dates

  predicate VisibleTv(item: MediaItem) {
    !item.missing && item.mediaType == "Video" && item.collectionType == "tvshows"
  }

  function UpcomingScan(t: Tables): seq<Row> {
    Map(RowOf, Filter(VisibleTv, t.items))
  }

  /** The row comparison (unix_seconds, nanosecond) > (1700000000, 0). */
  predicate AfterCutoff(date: UpcomingDate) {
    date.unixSeconds > 1_700_000_000 || (date.unixSeconds == 1_700_000_000 && date.nanosecond > 0)
  }

  /** The lateral subquery: the visible TV items with this id. */
  function TvCandidates(items: seq<MediaItem>, id: ItemId): seq<MediaItem> {
    Filter((candidate: MediaItem) => candidate.id == id && VisibleTv(candidate), items)
  }

  function JoinUpcoming(upcoming: seq<UpcomingDate>, items: seq<MediaItem>): seq<MediaItem> {
    if upcoming == [] then []
    else
      (if AfterCutoff(upcoming[0]) then TvCandidates(items, upcoming[0].item) else [])
      + JoinUpcoming(upcoming[1..], items)
  }

  function UpcomingProjection(t: Tables): seq<Row> {
    Map(RowOf, JoinUpcoming(t.upcoming, t.items))
  }

  /** Some projected date of the item lies after the cutoff. */
  predicate HasFutureDate(upcoming: seq<UpcomingDate>, id: ItemId) {
    exists i :: 0 <= i < |upcoming| && upcoming[i].item == id && AfterCutoff(upcoming[i])
  }

  predicate FutureTv(t: Tables, item: MediaItem) {
    VisibleTv(item) && HasFutureDate(t.upcoming, item.id)
  }

  lemma {:induction false} JoinUpcomingMembers(upcoming: seq<UpcomingDate>, items: seq<MediaItem>, item: MediaItem)
    ensures item in JoinUpcoming(upcoming, items) <==> item in items && VisibleTv(item) && HasFutureDate(upcoming, item.id)
  {
    if upcoming != [] {
      JoinUpcomingMembers(upcoming[1..], items, item);
      FilterMembers((candidate: MediaItem) => candidate.id == upcoming[0].item && VisibleTv(candidate), items);
      if HasFutureDate(upcoming[1..], item.id) {
        var i :| 0 <= i < |upcoming[1..]| && upcoming[1..][i].item == item.id && AfterCutoff(upcoming[1..][i]);
        assert upcoming[i + 1].item == item.id;
      }
      if HasFutureDate(upcoming, item.id) && !(upcoming[0].item == item.id && AfterCutoff(upcoming[0])) {
        var i :| 0 <= i < |upcoming| && upcoming[i].item == item.id && AfterCutoff(upcoming[i]);
        assert upcoming[1..][i - 1] == upcoming[i];
      }
    }
  }

  lemma {:induction false} JoinUpcomingNoDuplicates(upcoming: seq<UpcomingDate>, items: seq<MediaItem>)
    requires UpcomingKey(upcoming) && ItemKey(items)
    ensures NoDuplicates(JoinUpcoming(upcoming, items))
  {
    if upcoming != [] {
      var rest := JoinUpcoming(upcoming[1..], items);
      var head := if AfterCutoff(upcoming[0]) then TvCandidates(items, upcoming[0].item) else [];
      JoinUpcomingNoDuplicates(upcoming[1..], items);
      ItemKeyNoDuplicates(items);
      FilterNoDuplicates((candidate: MediaItem) => candidate.id == upcoming[0].item && VisibleTv(candidate), items);
      FilterMembers((candidate: MediaItem) => candidate.id == upcoming[0].item && VisibleTv(candidate), items);
      forall item | item in head
        ensures item !in rest
      {
        JoinUpcomingMembers(upcoming[1..], items, item);
        assert !HasFutureDate(upcoming[1..], upcoming[0].item);
      }
      ConcatNoDuplicates(head, rest);
    }
  }

  /**
   For any tables with the declared keys, the projection returns each visible TV item with a date
   after the cutoff exactly once: it is the scan restricted to those items.
   */
  lemma UpcomingProjectionIsFilteredScan(t: Tables)
    requires ItemKey(t.items) && UpcomingKey(t.upcoming)
    ensures multiset(JoinUpcoming(t.upcoming, t.items)) == multiset(Filter(item => FutureTv(t, item), t.items))
    ensures multiset(UpcomingProjection(t)) == multiset(Map(RowOf, Filter(item => FutureTv(t, item), t.items)))
  {
    var wanted := (item: MediaItem) => FutureTv(t, item);
    var joined := JoinUpcoming(t.upcoming, t.items);
    JoinUpcomingNoDuplicates(t.upcoming, t.items);
    ItemKeyNoDuplicates(t.items);
    FilterNoDuplicates(wanted, t.items);
    FilterMembers(wanted, t.items);
    forall item
      ensures item in joined <==> item in Filter(wanted, t.items)
    {
      JoinUpcomingMembers(t.upcoming, t.items, item);
    }
    SameMembersNoDuplicates(joined, Filter(wanted, t.items));
    MapMultiset(RowOf, joined, Filter(wanted, t.items));
  }

  // ----- Filter selectors

  predicate Visible(item: MediaItem) { !item.missing }

  /** item_id of the rows of one kind with one of the selectors. */
  function SelectorItems(filters: seq<FilterSelector>, kind: Kind, selectors: seq<string>): seq<ItemId> {
    Map((row: FilterSelector) => row.item,
        Filter((row: FilterSelector) => row.kind == kind && row.selector in selectors, filters))
  }

  /** INTERSECT: the distinct rows of `a` that also occur in `b`. */
  function Intersect(a: seq<ItemId>, b: seq<ItemId>): seq<ItemId> {
    if a == [] then []
    else if a[0] in b && a[0] !in a[1..] then [a[0]] + Intersect(a[1..], b)
    else Intersect(a[1..], b)
  }

  lemma {:induction false} IntersectMembers(a: seq<ItemId>, b: seq<ItemId>)
    ensures forall id :: id in Intersect(a, b) <==> id in a && id in b
    ensures NoDuplicates(Intersect(a, b))
  {
    if a != [] {
      IntersectMembers(a[1..], b);
      assert a == [a[0]] + a[1..];
    }
  }

  function JoinItems(ids: seq<ItemId>, items: seq<MediaItem>): seq<MediaItem> {
    if ids == [] then []
    else Filter((candidate: MediaItem) => candidate.id == ids[0], items) + JoinItems(ids[1..], items)
  }

  function MatchingItems(filters: seq<FilterSelector>): seq<ItemId> {
    Intersect(
      Intersect(SelectorItems(filters, Person, ["person-common"]), SelectorItems(filters, Studio, ["studio-common"])),
      SelectorItems(filters, Tag, ["tag-common"]))
  }

  function FilterProjection(t: Tables): seq<Row> {
    Map(RowOf, Filter(Visible, JoinItems(MatchingItems(t.filters), t.items)))
  }

  predicate HasSelector(filters: seq<FilterSelector>, id: ItemId, kind: Kind, selector: string) {
    FilterSelector(id, kind, selector) in filters
  }

  predicate MatchesAllKinds(t: Tables, item: MediaItem) {
    && Visible(item)
    && HasSelector(t.filters, item.id, Person, "person-common")
    && HasSelector(t.filters, item.id, Studio, "studio-common")
    && HasSelector(t.filters, item.id, Tag, "tag-common")
  }

  lemma SelectorItemsMembers(filters: seq<FilterSelector>, kind: Kind, selector: string, id: ItemId)
    ensures id in SelectorItems(filters, kind, [selector]) <==> HasSelector(filters, id, kind, selector)
  {
    var rows := Filter((row: FilterSelector) => row.kind == kind && row.selector in [selector], filters);
    var ids := SelectorItems(filters, kind, [selector]);
    FilterMembers((row: FilterSelector) => row.kind == kind && row.selector in [selector], filters);
    if id in ids {
      var i :| 0 <= i < |ids| && ids[i] == id;
      assert rows[i] in filters && rows[i] == FilterSelector(id, kind, selector);
    }
    if HasSelector(filters, id, kind, selector) {
      var i :| 0 <= i < |rows| && rows[i] == FilterSelector(id, kind, selector);
      assert ids[i] == id;
    }
  }

  lemma {:induction false} JoinItemsMembers(ids: seq<ItemId>, items: seq<MediaItem>)
    requires ItemKey(items) && NoDuplicates(ids)
    ensures forall item :: item in JoinItems(ids, items) <==> item in items && item.id in ids
    ensures NoDuplicates(JoinItems(ids, items))
  {
    if ids != [] {
      JoinItemsMembers(ids[1..], items);
      ItemKeyNoDuplicates(items);
      FilterNoDuplicates((candidate: MediaItem) => candidate.id == ids[0], items);
      FilterMembers((candidate: MediaItem) => candidate.id == ids[0], items);
      assert ids == [ids[0]] + ids[1..];
    }
  }

  /**
   For any tables with the declared item key, the three-way INTERSECT returns each visible item
   that has the person, the studio and the tag exactly once, even if selector rows repeat.
   */
  lemma FilterProjectionIsFilteredScan(t: Tables)
    requires ItemKey(t.items)
    ensures multiset(Filter(Visible, JoinItems(MatchingItems(t.filters), t.items)))
         == multiset(Filter(item => MatchesAllKinds(t, item), t.items))
    ensures multiset(FilterProjection(t)) == multiset(Map(RowOf, Filter(item => MatchesAllKinds(t, item), t.items)))
  {
    var wanted := (item: MediaItem) => MatchesAllKinds(t, item);
    var persons := SelectorItems(t.filters, Person, ["person-common"]);
    var studios := SelectorItems(t.filters, Studio, ["studio-common"]);
    var tags := SelectorItems(t.filters, Tag, ["tag-common"]);
    var ids := MatchingItems(t.filters);
    IntersectMembers(persons, studios);
    IntersectMembers(Intersect(persons, studios), tags);
    JoinItemsMembers(ids, t.items);
    var joined := Filter(Visible, JoinItems(ids, t.items));
    FilterNoDuplicates(Visible, JoinItems(ids, t.items));
    FilterMembers(Visible, JoinItems(ids, t.items));
    ItemKeyNoDuplicates(t.items);
    FilterNoDuplicates(wanted, t.items);
    FilterMembers(wanted, t.items);
    forall item
      ensures item in joined <==> item in Filter(wanted, t.items)
    {
      SelectorItemsMembers(t.filters, Person, "person-common", item.id);
      SelectorItemsMembers(t.filters, Studio, "studio-common", item.id);
      SelectorItemsMembers(t.filters, Tag, "tag-common", item.id);
    }
    SameMembersNoDuplicates(joined, Filter(wanted, t.items));
    MapMultiset(RowOf, joined, Filter(wanted, t.items));
  }

  // ----- Genres

  /** The correlated subquery, evaluated again for each item. */
  predicate GenreExists(genres: seq<GenreSelector>, id: ItemId, selectors: seq<string>) {
    genres != [] && ((genres[0].item == id && genres[0].selector in selectors) || GenreExists(genres[1..], id, selectors))
  }

  /** The uncorrelated subquery, evaluated once. */
  function GenreItems(genres: seq<GenreSelector>, selectors: seq<string>): seq<ItemId> {
    Map((genre: GenreSelector) => genre.item, Filter((genre: GenreSelector) => genre.selector in selectors, genres))
  }

  function GenreExistsItems(t: Tables, selector: string): seq<MediaItem> {
    Filter((item: MediaItem) => Visible(item) && GenreExists(t.genres, item.id, [selector]), t.items)
  }

  function GenreInItems(t: Tables, selector: string): seq<MediaItem> {
    var ids := GenreItems(t.genres, [selector]);
    Filter((item: MediaItem) => Visible(item) && item.id in ids, t.items)
  }

  lemma {:induction false} GenreExistsIffListed(genres: seq<GenreSelector>, id: ItemId, selectors: seq<string>)
    ensures GenreExists(genres, id, selectors) <==> exists i :: 0 <= i < |genres| && genres[i].item == id && genres[i].selector in selectors
    ensures GenreExists(genres, id, selectors) <==> id in GenreItems(genres, selectors)
  {
    if genres != [] {
      GenreExistsIffListed(genres[1..], id, selectors);
      assert genres == [genres[0]] + genres[1..];
      var wanted := (genre: GenreSelector) => genre.selector in selectors;
      var itemOf := (genre: GenreSelector) => genre.item;
      var head := if wanted(genres[0]) then [genres[0]] else [];
      MapConcat(itemOf, head, Filter(wanted, genres[1..]));
      assert GenreItems(genres, selectors) == Map(itemOf, head) + GenreItems(genres[1..], selectors);
    }
  }

  lemma {:induction false} FilterAgrees<T(!new)>(p: T -> bool, q: T -> bool, xs: seq<T>)
    requires forall x :: x in xs ==> p(x) == q(x)
    ensures Filter(p, xs) == Filter(q, xs)
  {
    if xs != [] {
      FilterAgrees(p, q, xs[1..]);
    }
  }

  // ----- Ordered pages

  function Lower(s: string): string {
    Map((c: char) => if 'A' <= c <= 'Z' then (c as int + 32) as char else c, s)
  }

  /** ORDER BY lower(name), id: names by character, ties by an order on ids. */
  function NameOrder(idLess: (ItemId, ItemId) -> bool): (MediaItem, MediaItem) -> bool {
    (a: MediaItem, b: MediaItem) =>
      LexLess(Lower(a.name), Lower(b.name)) || (Lower(a.name) == Lower(b.name) && idLess(a.id, b.id))
  }

  /** LIMIT limit OFFSET offset. */
  function Slice<T>(rows: seq<T>, offset: nat, limit: nat): seq<T> {
    var from := if offset < |rows| then offset else |rows|;
    var to := if offset + limit < |rows| then offset + limit else |rows|;
    rows[from..to]
  }

  function Page(rows: seq<MediaItem>, idLess: (ItemId, ItemId) -> bool, offset: nat): seq<ItemId> {
    Map((item: MediaItem) => item.id, Slice(Sort(NameOrder(idLess), rows), offset, 100))
  }

  /** For any tables, the EXISTS and the IN form have the same count and the same ordered page. */
  lemma GenreFormsAgree(t: Tables, selector: string, idLess: (ItemId, ItemId) -> bool)
    ensures |GenreExistsItems(t, selector)| == |GenreInItems(t, selector)|
    ensures Page(GenreExistsItems(t, selector), idLess, 0) == Page(GenreInItems(t, selector), idLess, 0)
    ensures forall item :: item in GenreInItems(t, selector)
              <==> item in t.items && Visible(item) && GenreSelector(item.id, selector) in t.genres
  {
    var ids := GenreItems(t.genres, [selector]);
    forall item: MediaItem
      ensures GenreExists(t.genres, item.id, [selector]) == (item.id in ids)
      ensures item.id in ids <==> GenreSelector(item.id, selector) in t.genres
    {
      GenreExistsIffListed(t.genres, item.id, [selector]);
    }
    FilterMembers((item: MediaItem) => Visible(item) && item.id in ids, t.items);
    FilterAgrees(
      (item: MediaItem) => Visible(item) && GenreExists(t.genres, item.id, [selector]),
      (item: MediaItem) => Visible(item) && item.id in ids,
      t.items);
  }
}
