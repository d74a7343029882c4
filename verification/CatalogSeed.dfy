/**
 The seeding routine, the closed-form row counts the benchmark reports, and the proof that the
 queries return exactly that many rows from the seeded tables, for every size.
 */
module CatalogSeed {
  import opened Catalog
  import opened Decimal
  import opened Ordering

  // ----- Seeded rows

  function FolderOf(value: nat): nat { value % 8 + 1 }

  function CollectionOf(value: nat): string {
    if value % 3 == 0 then "movies" else if value % 3 == 1 then "tvshows" else "music"
  }

  function SeedItem(value: nat): MediaItem {
    MediaItem(
      ItemId(value),
      FolderOf(value),
      "Catalog Item " + PadLeft(9, Render(value)),
      "Video",
      CollectionOf(value),
      if value % 100 == 1 then "2033-05-18T03:33:20.000000001Z" else "2001-09-09T01:46:40Z",
      value % 100 == 0)
  }

  function SeedDate(value: nat): UpcomingDate {
    UpcomingDate(ItemId(value), if value % 100 == 1 then 2_000_000_000 else 1_000_000_000, if value % 100 == 1 then 1 else 0)
  }

  /** SELECT row FROM generate_series(1, size) AS value WHERE keep(value). */
  function Series<T>(size: nat, keep: nat -> bool, row: nat -> T): seq<T> {
    if size == 0 then []
    else Series(size - 1, keep, row) + if keep(size) then [row(size)] else []
  }

  const EVERY: nat -> bool := value => true

  function Divisible(divisor: nat): nat -> bool
    requires divisor > 0
  {
    value => value % divisor == 0
  }

  const RARE_GENRE: nat -> bool := value => value % 1000 == 1

  function SeedItems(size: nat): seq<MediaItem> {
    Series(size, EVERY, SeedItem)
  }

  function SeedDates(size: nat): seq<UpcomingDate> {
    Series(size, EVERY, SeedDate)
  }

  function GenreRow(selector: string): nat -> GenreSelector {
    (value: nat) => GenreSelector(ItemId(value), selector)
  }

  function FilterRow(kind: Kind, selector: string): nat -> FilterSelector {
    (value: nat) => FilterSelector(ItemId(value), kind, selector)
  }

  function SeedGenres(size: nat): seq<GenreSelector> {
    Series(size, Divisible(5), GenreRow("genre-common")) + Series(size, RARE_GENRE, GenreRow("genre-rare"))
  }

  function SeedFilters(size: nat): seq<FilterSelector> {
    Series(size, Divisible(5), FilterRow(Person, "person-common"))
    + Series(size, Divisible(7), FilterRow(Studio, "studio-common"))
    + Series(size, Divisible(11), FilterRow(Tag, "tag-common"))
  }

  const USER := 1

  predicate VisibleMovie(item: MediaItem) {
    !item.missing && item.collectionType == "movies"
  }

  /** row_number() counts from one, in whatever order the rows arrive. */
  function PlaybackRow(item: MediaItem, rowNumber: nat): Playback {
    Playback(USER, item.id, rowNumber % 4 == 0, rowNumber % 17 == 0, if rowNumber % 5 == 0 then 900_000_000 else 0)
  }

  function NumberedPlayback(movies: seq<MediaItem>): seq<Playback> {
    seq(|movies|, i requires 0 <= i < |movies| => PlaybackRow(movies[i], i + 1))
  }

  /** The scan order of an unordered query: some rearrangement of the rows. */
  ghost predicate Rearranges(scan: seq<MediaItem> -> seq<MediaItem>) {
    forall rows :: multiset(scan(rows)) == multiset(rows)
  }

  function Seeded(size: nat, scan: seq<MediaItem> -> seq<MediaItem>): Tables {
    Tables(SeedItems(size), NumberedPlayback(scan(Filter(VisibleMovie, SeedItems(size)))),
           SeedGenres(size), SeedDates(size), SeedFilters(size))
  }

  /** The benchmark schema; seeding truncates it first, whatever an earlier size left behind. */
  class Schema {
    var mediaItems: seq<MediaItem>
    var playbackStates: seq<Playback>
    var genreSelectors: seq<GenreSelector>
    var upcomingDates: seq<UpcomingDate>
    var filterSelectors: seq<FilterSelector>

    function Contents(): Tables
      reads this
    {
      Tables(mediaItems, playbackStates, genreSelectors, upcomingDates, filterSelectors)
    }

    method Seed(size: nat, scan: seq<MediaItem> -> seq<MediaItem>)
      modifies this
      ensures Contents() == Seeded(size, scan)
    {
      mediaItems, upcomingDates := [], [];
      for value := 1 to size + 1
        invariant mediaItems == SeedItems(value - 1) && upcomingDates == SeedDates(value - 1)
      {
        mediaItems := mediaItems + [SeedItem(value)];
        upcomingDates := upcomingDates + [SeedDate(value)];
      }
      NumberMovies(scan(Filter(VisibleMovie, mediaItems)));
      var common := InsertSeries(size, Divisible(5), GenreRow("genre-common"));
      var rare := InsertSeries(size, RARE_GENRE, GenreRow("genre-rare"));
      genreSelectors := common + rare;
      var persons := InsertSeries(size, Divisible(5), FilterRow(Person, "person-common"));
      var studios := InsertSeries(size, Divisible(7), FilterRow(Studio, "studio-common"));
      var tags := InsertSeries(size, Divisible(11), FilterRow(Tag, "tag-common"));
      filterSelectors := persons + studios + tags;
    }

    method NumberMovies(movies: seq<MediaItem>)
      modifies this`playbackStates
      ensures playbackStates == NumberedPlayback(movies)
    {
      playbackStates := [];
      for i := 0 to |movies|
        invariant playbackStates == NumberedPlayback(movies)[..i]
      {
        playbackStates := playbackStates + [PlaybackRow(movies[i], i + 1)];
      }
    }

    static method InsertSeries<T>(size: nat, keep: nat -> bool, row: nat -> T) returns (rows: seq<T>)
      ensures rows == Series(size, keep, row)
    {
      rows := [];
      for value := 1 to size + 1
        invariant rows == Series(value - 1, keep, row)
      {
        if keep(value) {
          rows := rows + [row(value)];
        }
      }
    }
  }

  // ----- Membership and order of seeded rows

  lemma {:induction false} SeriesMembers<T(!new)>(size: nat, keep: nat -> bool, row: nat -> T, x: T)
    ensures x in Series(size, keep, row) <==> exists value :: 1 <= value <= size && keep(value) && row(value) == x
  {
    if size > 0 {
      SeriesMembers(size - 1, keep, row, x);
    }
  }

  lemma {:induction false} SeriesAt<T>(size: nat, row: nat -> T, i: nat)
    requires i < size
    ensures |Series(size, EVERY, row)| == size && Series(size, EVERY, row)[i] == row(i + 1)
  {
    if size > 1 {
      SeriesAt(size - 1, row, if i < size - 1 then i else 0);
    }
  }

  lemma {:induction false} SeriesNoDuplicates<T(!new)>(size: nat, keep: nat -> bool, row: nat -> T)
    requires forall v, w :: 1 <= v < w <= size ==> row(v) != row(w)
    ensures NoDuplicates(Series(size, keep, row))
  {
    if size > 0 {
      SeriesNoDuplicates(size - 1, keep, row);
      SeriesMembers(size - 1, keep, row, row(size));
    }
  }

  lemma SeededKeysHold(size: nat)
    ensures ItemKey(SeedItems(size)) && UpcomingKey(SeedDates(size))
    ensures |SeedItems(size)| == size
  {
    if size > 0 {
      SeriesAt(size, SeedItem, 0);
      SeriesAt(size, SeedDate, 0);
      forall i | 0 <= i < size
        ensures SeedItems(size)[i].id == ItemId(i + 1) && SeedDates(size)[i].item == ItemId(i + 1)
      {
        SeriesAt(size, SeedItem, i);
        SeriesAt(size, SeedDate, i);
      }
    }
  }

  // ----- Counting

  function Count(size: nat, keep: nat -> bool): nat {
    if size == 0 then 0 else Count(size - 1, keep) + if keep(size) then 1 else 0
  }

  lemma {:induction false} CountAgrees(size: nat, p: nat -> bool, q: nat -> bool)
    requires forall value :: 1 <= value <= size ==> p(value) == q(value)
    ensures Count(size, p) == Count(size, q)
  {
    if size > 0 {
      CountAgrees(size - 1, p, q);
    }
  }

  function After<T>(p: T -> bool, row: nat -> T): nat -> bool {
    (value: nat) => p(row(value))
  }

  lemma {:induction false} FilteredCount<T(!new)>(size: nat, p: T -> bool, row: nat -> T)
    ensures |Filter(p, Series(size, EVERY, row))| == Count(size, After(p, row))
  {
    if size > 0 {
      FilteredCount(size - 1, p, row);
      FilterConcat(p, Series(size - 1, EVERY, row), [row(size)]);
      assert Filter(p, [row(size)]) == if p(row(size)) then [row(size)] else [];
    }
  }

  /** Two predicates that never hold together. */
  lemma {:induction false} CountSplits(size: nat, both: nat -> bool, first: nat -> bool, second: nat -> bool)
    requires forall value :: 1 <= value <= size ==> (first(value) <==> both(value) || second(value)) && !(both(value) && second(value))
    ensures Count(size, both) == Count(size, first) - Count(size, second)
  {
    if size > 0 {
      CountSplits(size - 1, both, first, second);
    }
  }

  /** A residue class in 1..size, by Math.floor division: also right for size below the residue. */
  lemma {:induction false} CountResidue(size: nat, modulus: nat, residue: nat)
    requires 1 <= residue <= modulus
    ensures Count(size, value => value % modulus == residue % modulus) == (size - residue) / modulus + 1
  {
    var keep := (value: nat) => value % modulus == residue % modulus;
    if size == 0 {
      FloorAt(0 - residue, modulus, -1);
    } else {
      CountResidue(size - 1, modulus, residue);
      CountAgrees(size - 1, keep, value => value % modulus == residue % modulus);
      FloorStep(size - residue, modulus);
      SameResidue(size, residue, modulus);
    }
  }

  lemma FloorAt(a: int, m: nat, q: int)
    requires m > 0 && q * m <= a < q * m + m
    ensures a / m == q
  {
    var d := a / m;
    assert a == d * m + a % m;
    assert d < q ==> (d + 1) * m <= q * m;
    assert q < d ==> (q + 1) * m <= d * m;
  }

  /** Floor division grows by one exactly at multiples. */
  lemma FloorStep(a: int, m: nat)
    requires m > 0
    ensures a / m == (a - 1) / m + if a % m == 0 then 1 else 0
  {
    var q := a / m;
    assert a == q * m + a % m;
    if a % m == 0 {
      assert (q - 1) * m == q * m - m;
      FloorAt(a - 1, m, q - 1);
    } else {
      FloorAt(a - 1, m, q);
    }
  }

  lemma SameResidue(a: nat, b: nat, m: nat)
    requires m > 0
    ensures (a - b) % m == 0 <==> a % m == b % m
  {
    var qa, qb := a / m, b / m;
    assert a == qa * m + a % m && b == qb * m + b % m;
    if a % m == b % m {
      assert a - b == (qa - qb) * m by { assert (qa - qb) * m == qa * m - qb * m; }
      FloorAt(a - b, m, qa - qb);
      assert a - b == ((a - b) / m) * m + (a - b) % m;
    } else if (a - b) % m == 0 {
      var k := (a - b) / m;
      assert a - b == k * m;
      assert a == (qb + k) * m + b % m by { assert (qb + k) * m == qb * m + k * m; }
      FloorAt(a, m, qb + k);
    }
  }

  lemma CountMultiples(size: nat, modulus: nat)
    requires modulus > 0
    ensures Count(size, value => value % modulus == 0) == size / modulus
  {
    CountResidue(size, modulus, modulus);
    CountAgrees(size, value => value % modulus == 0, value => value % modulus == modulus % modulus);
    assert modulus % modulus == 0 by { FloorAt(modulus, modulus, 1); }
    var q := size / modulus;
    assert size == q * modulus + size % modulus;
    assert (q - 1) * modulus == q * modulus - modulus;
    FloorAt(size - modulus, modulus, q - 1);
  }
}
