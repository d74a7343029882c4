/** The row counts the benchmark reports in closed form, proved of the query results. */
module CatalogCounts {
  import opened Catalog
  import opened CatalogSeed
  import opened Ordering

  // Math.floor of a quotient by a positive divisor is Dafny's integer division.

  function VisibleTvRows(size: int): int {
    var tvRows := (size - 1) / 3 + 1;
    var missingTvRows := if size < 100 then 0 else (size - 100) / 300 + 1;
    tvRows - missingTvRows
  }

  function FutureTvRows(size: int): int { (size - 1) / 300 + 1 }

  function CombinedFilterSelectorRows(size: int): int { size / 385 - size / 7700 }

  function SelectiveVisibleRows(size: int): int { (size - 1) / 1000 + 1 }

  function CommonVisibleRows(size: int): int { size / 5 - size / 100 }

  function InClass(modulus: nat, residue: nat): nat -> bool
    requires 1 <= residue <= modulus
  {
    (value: nat) => value % modulus == residue % modulus
  }

  lemma CountClass(size: nat, modulus: nat, residue: nat)
    requires 1 <= residue <= modulus
    ensures Count(size, InClass(modulus, residue)) == (size - residue) / modulus + 1
  {
    CountResidue(size, modulus, residue);
    CountAgrees(size, InClass(modulus, residue), value => value % modulus == residue % modulus);
  }

  lemma CountDivisible(size: nat, modulus: nat)
    requires modulus > 0
    ensures Count(size, Divisible(modulus)) == size / modulus
  {
    CountMultiples(size, modulus);
    CountAgrees(size, Divisible(modulus), value => value % modulus == 0);
  }

  /** Counting the rows that satisfy `p`, given which values they come from. */
  lemma CountOfItems(size: nat, p: MediaItem -> bool, first: nat -> bool, second: nat -> bool)
    requires forall value :: 1 <= value <= size ==>
               (first(value) <==> p(SeedItem(value)) || second(value)) && !(p(SeedItem(value)) && second(value))
    ensures |Filter(p, SeedItems(size))| == Count(size, first) - Count(size, second)
  {
    FilteredCount(size, p, SeedItem);
    CountSplits(size, After(p, SeedItem), first, second);
  }

  /** Being a multiple of two coprime numbers is being a multiple of their product. */
  lemma Multiples3And100(n: int)
    ensures n % 300 == 0 <==> n % 3 == 0 && n % 100 == 0
  {
    if n % 3 == 0 && n % 100 == 0 {
      assert n == 300 * (n / 3 - 33 * (n / 100));
    }
  }

  lemma Multiples5And7And11(n: int)
    ensures n % 385 == 0 <==> n % 5 == 0 && n % 7 == 0 && n % 11 == 0
  {
    if n % 5 == 0 && n % 7 == 0 && n % 11 == 0 {
      var a, b, c := n / 5, n / 7, n / 11;
      assert n == 5 * a == 7 * b == 11 * c;
      MultipleOf(n, 16 * (3 * b - 2 * a) - 5 * c, 385);
    }
    if n % 385 == 0 {
      var k := n / 385;
      assert n == 385 * k;
      MultipleOf(n, 77 * k, 5);
      MultipleOf(n, 55 * k, 7);
      MultipleOf(n, 35 * k, 11);
    }
  }

  lemma Multiples385And100(n: int)
    ensures n % 7700 == 0 <==> n % 385 == 0 && n % 100 == 0
  {
    if n % 7700 == 0 {
      MultipleOf(n, 20 * (n / 7700), 385);
      MultipleOf(n, 77 * (n / 7700), 100);
    }
    if n % 385 == 0 && n % 100 == 0 {
      var a, b := n / 385, n / 100;
      assert n == 385 * a == 100 * b;
      MultipleOf(n, 27 * a - 7 * b, 7700);
    }
  }

  lemma MultipleOf(n: int, q: int, m: nat)
    requires m > 0 && n == q * m
    ensures n % m == 0
  {
    FloorAt(n, m, q);
  }

  lemma Residues3And100(value: nat, residue: nat)
    requires residue < 300
    ensures value % 300 == residue <==> value % 3 == residue % 3 && value % 100 == residue % 100
  {
    Multiples3And100(value - residue);
    SameResidue(value, residue, 300);
    SameResidue(value, residue, 3);
    SameResidue(value, residue, 100);
  }

  lemma SeededTv(value: nat)
    ensures VisibleTv(SeedItem(value)) <==> value % 3 == 1 && value % 100 != 0
  {}

  lemma TvClasses(value: nat)
    ensures VisibleTv(SeedItem(value)) <==> value % 3 == 1 && value % 100 != 0
    ensures value % 3 == 1 && value % 100 == 0 <==> value % 300 == 100
    ensures value % 3 == 1 && value % 100 == 1 <==> value % 300 == 1
  {
    SeededTv(value);
    Residues3And100(value, 100);
    Residues3And100(value, 1);
  }

  lemma UpcomingScanRows(size: nat, scan: seq<MediaItem> -> seq<MediaItem>)
    ensures |UpcomingScan(Seeded(size, scan))| == VisibleTvRows(size)
  {
    forall value: nat | 1 <= value <= size
      ensures (InClass(3, 1)(value) <==> VisibleTv(SeedItem(value)) || InClass(300, 100)(value))
              && !(VisibleTv(SeedItem(value)) && InClass(300, 100)(value))
    {
      TvClasses(value);
    }
    CountOfItems(size, VisibleTv, InClass(3, 1), InClass(300, 100));
    CountClass(size, 3, 1);
    CountClass(size, 300, 100);
  }

  lemma SeededFutureDate(size: nat, value: nat)
    requires 1 <= value <= size
    ensures HasFutureDate(SeedDates(size), ItemId(value)) <==> value % 100 == 1
  {
    SeriesAt(size, SeedDate, value - 1);
    var dates := SeedDates(size);
    assert dates[value - 1] == SeedDate(value);
    if HasFutureDate(dates, ItemId(value)) {
      var i :| 0 <= i < |dates| && dates[i].item == ItemId(value) && AfterCutoff(dates[i]);
      SeriesAt(size, SeedDate, i);
    }
  }

  lemma UpcomingProjectionRows(size: nat, scan: seq<MediaItem> -> seq<MediaItem>)
    ensures |UpcomingProjection(Seeded(size, scan))| == FutureTvRows(size)
  {
    var t := Seeded(size, scan);
    var wanted := (item: MediaItem) => FutureTv(t, item);
    SeededKeysHold(size);
    UpcomingProjectionIsFilteredScan(t);
    assert |UpcomingProjection(t)| == |multiset(UpcomingProjection(t))| == |Filter(wanted, t.items)|;
    forall value: nat | 1 <= value <= size
      ensures wanted(SeedItem(value)) <==> value % 300 == 1
    {
      SeededFutureDate(size, value);
      TvClasses(value);
    }
    CountOfItems(size, wanted, InClass(300, 1), value => false);
    CountNone(size);
    CountClass(size, 300, 1);
  }

  lemma {:induction false} CountNone(size: nat)
    ensures Count(size, value => false) == 0
  {
    if size > 0 {
      CountNone(size - 1);
      CountAgrees(size - 1, value => false, value => false);
    }
  }

  lemma SeededSelector(size: nat, value: nat, kind: Kind)
    requires 1 <= value <= size
    ensures HasSelector(SeedFilters(size), ItemId(value), kind,
                        match kind case Person => "person-common" case Studio => "studio-common" case Tag => "tag-common")
       <==> value % (match kind case Person => 5 case Studio => 7 case Tag => 11) == 0
  {
    var selector := match kind case Person => "person-common" case Studio => "studio-common" case Tag => "tag-common";
    var row := FilterSelector(ItemId(value), kind, selector);
    SeriesMembers(size, Divisible(5), FilterRow(Person, "person-common"), row);
    SeriesMembers(size, Divisible(7), FilterRow(Studio, "studio-common"), row);
    SeriesMembers(size, Divisible(11), FilterRow(Tag, "tag-common"), row);
    assert FilterRow(kind, selector)(value) == row;
  }

  lemma FilterProjectionRows(size: nat, scan: seq<MediaItem> -> seq<MediaItem>)
    ensures |FilterProjection(Seeded(size, scan))| == CombinedFilterSelectorRows(size)
  {
    var t := Seeded(size, scan);
    var wanted := (item: MediaItem) => MatchesAllKinds(t, item);
    SeededKeysHold(size);
    FilterProjectionIsFilteredScan(t);
    assert |FilterProjection(t)| == |multiset(FilterProjection(t))| == |Filter(wanted, t.items)|;
    forall value: nat | 1 <= value <= size
      ensures wanted(SeedItem(value)) <==> value % 385 == 0 && value % 7700 != 0
      ensures value % 7700 == 0 ==> value % 385 == 0
    {
      SeededSelector(size, value, Person);
      SeededSelector(size, value, Studio);
      SeededSelector(size, value, Tag);
      Multiples5And7And11(value);
      Multiples385And100(value);
    }
    CountOfItems(size, wanted, Divisible(385), Divisible(7700));
    CountDivisible(size, 385);
    CountDivisible(size, 7700);
  }

  lemma SeededGenre(size: nat, value: nat)
    requires 1 <= value <= size
    ensures GenreSelector(ItemId(value), "genre-common") in SeedGenres(size) <==> value % 5 == 0
    ensures GenreSelector(ItemId(value), "genre-rare") in SeedGenres(size) <==> value % 1000 == 1
  {
    var common, rare := GenreSelector(ItemId(value), "genre-common"), GenreSelector(ItemId(value), "genre-rare");
    SeriesMembers(size, Divisible(5), GenreRow("genre-common"), common);
    SeriesMembers(size, RARE_GENRE, GenreRow("genre-rare"), common);
    SeriesMembers(size, Divisible(5), GenreRow("genre-common"), rare);
    SeriesMembers(size, RARE_GENRE, GenreRow("genre-rare"), rare);
    assert GenreRow("genre-common")(value) == common && GenreRow("genre-rare")(value) == rare;
    assert "genre-common"[6] != "genre-rare"[6];
  }

  /** Both genre forms, for both selectors. */
  lemma GenreRows(size: nat, scan: seq<MediaItem> -> seq<MediaItem>)
    ensures |GenreExistsItems(Seeded(size, scan), "genre-rare")| == |GenreInItems(Seeded(size, scan), "genre-rare")| == SelectiveVisibleRows(size)
    ensures |GenreExistsItems(Seeded(size, scan), "genre-common")| == |GenreInItems(Seeded(size, scan), "genre-common")| == CommonVisibleRows(size)
  {
    var t := Seeded(size, scan);
    var idLess := (a: ItemId, b: ItemId) => a.seed < b.seed;
    GenreFormsAgree(t, "genre-rare", idLess);
    GenreFormsAgree(t, "genre-common", idLess);
    GenreCount(size, scan, "genre-rare", InClass(1000, 1), value => false);
    GenreCount(size, scan, "genre-common", Divisible(5), Divisible(100));
    CountNone(size);
    CountClass(size, 1000, 1);
    CountDivisible(size, 5);
    CountDivisible(size, 100);
  }

  lemma HundredsAreFives(value: nat)
    ensures value % 100 == 0 ==> value % 5 == 0
    ensures SeedItem(value).missing <==> value % 100 == 0
    ensures value % 1000 == 1 ==> value % 100 != 0
  {
    if value % 100 == 0 {
      MultipleOf(value, 20 * (value / 100), 5);
    }
  }

  lemma GenreCount(size: nat, scan: seq<MediaItem> -> seq<MediaItem>, selector: string, first: nat -> bool, second: nat -> bool)
    requires selector == "genre-rare" || selector == "genre-common"
    requires forall value: nat :: first(value) <==> if selector == "genre-rare" then value % 1000 == 1 else value % 5 == 0
    requires forall value: nat :: second(value) <==> selector != "genre-rare" && value % 100 == 0
    ensures |GenreInItems(Seeded(size, scan), selector)| == Count(size, first) - Count(size, second)
  {
    var t := Seeded(size, scan);
    var ids := GenreItems(t.genres, [selector]);
    var wanted := (item: MediaItem) => Visible(item) && item.id in ids;
    forall value: nat | 1 <= value <= size
      ensures (first(value) <==> wanted(SeedItem(value)) || second(value)) && !(wanted(SeedItem(value)) && second(value))
    {
      SeededGenre(size, value);
      GenreExistsIffListed(t.genres, ItemId(value), [selector]);
      GenreListedIffRow(t.genres, ItemId(value), selector);
      HundredsAreFives(value);
    }
    CountOfItems(size, wanted, first, second);
    FilterAgrees(wanted, (item: MediaItem) => Visible(item) && item.id in ids, t.items);
  }

  lemma GenreListedIffRow(genres: seq<GenreSelector>, id: ItemId, selector: string)
    ensures id in GenreItems(genres, [selector]) <==> GenreSelector(id, selector) in genres
  {
    GenreExistsIffListed(genres, id, [selector]);
  }
}
