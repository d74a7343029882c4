/** The scanner ignore lists rendered from the exception policy. */
module IgnoreRenderer {
  import opened Calendar
  import opened ExceptionAcceptance
  import opened ExceptionPolicy
  import opened Json
  import opened Options
  import opened Ordering
  import opened Text

  /** String(value), where rendering gets as far as printing it. */
  function Printed(field: Option<Json>): string {
    match FieldText(field)
    case None => ""
    case Some(text) => text
  }

  function ScannerText(entry: Entry): string { if entry.Entry? then Printed(entry.scanner) else "" }

  function IdText(entry: Entry): string { if entry.Entry? then Printed(entry.id) else "" }

  /** The comparison the renderer sorts by; `before` is localeCompare's "comes first". */
  function Comparison(before: (string, string) -> bool): (Entry, Entry) -> bool {
    (a, b) =>
      before(ScannerText(a), ScannerText(b))
      || (!before(ScannerText(b), ScannerText(a)) && before(IdText(a), IdText(b)))
  }

  predicate RustsecEntry(entry: Entry) { entry.Entry? && IsRustsec(entry.scanner) }

  predicate TrivyEntry(entry: Entry) { entry.Entry? && IsTrivy(entry.scanner) }

  function Lines(ids: seq<string>): string {
    if ids == [] then "" else ids[0] + ['\n'] + Lines(ids[1..])
  }

  /** The ids the rustsec-ids mode prints, in order. */
  function RustsecIds(entries: seq<Entry>, before: (string, string) -> bool): seq<string> {
    Map(IdText, Filter(RustsecEntry, Sort(Comparison(before), entries)))
  }

  /** One rendered vulnerability. */
  datatype Record = Record(id: string, purls: seq<string>, expiredAt: string, statement: string)

  function ComponentTexts(entry: Entry): seq<string> {
    if entry.Entry? && entry.components.Some? && entry.components.value.Arr?
    then Map(ItemText, entry.components.value.items)
    else []
  }

  function ItemText(item: Json): string { Printed(Some(item)) }

  function RecordOf(entry: Entry): Record {
    if entry.NoObject? then Record("", [], "", "")
    else
      Record(
        IdText(entry), ComponentTexts(entry), TrivyExpiration(Printed(entry.expiresOn)),
        Printed(entry.reason) + " Owner: " + Printed(entry.owner) + ". Tracking: " + Printed(entry.trackingIssue))
  }

  function TrivyRecords(entries: seq<Entry>, before: (string, string) -> bool): seq<Record> {
    Map(RecordOf, Filter(TrivyEntry, Sort(Comparison(before), entries)))
  }

  function PurlLines(purls: seq<string>, rest: string): string {
    if purls == [] then rest else "      - " + (Quote(purls[0]) + ("\n" + PurlLines(purls[1..], rest)))
  }

  /** One record followed by the rest of the file. */
  function RecordText(record: Record, rest: string): string {
    "  - id: " + (Quote(record.id) + ("\n    purls:\n" + PurlLines(record.purls,
      "    expired_at: " + (Quote(record.expiredAt) + ("\n    statement: " + (Quote(record.statement) + ("\n" + rest)))))))
  }

  function RecordsText(records: seq<Record>): string {
    if records == [] then "" else RecordText(records[0], RecordsText(records[1..]))
  }

  function TrivyYaml(records: seq<Record>): string {
    if records == [] then "vulnerabilities: []\n" else "vulnerabilities:\n" + RecordsText(records)
  }

  // ----- The loops

  lemma {:induction false} LinesSnoc(ids: seq<string>, id: string)
    ensures Lines(ids + [id]) == Lines(ids) + (id + ['\n'])
  {
    if ids != [] {
      assert (ids + [id])[1..] == ids[1..] + [id];
      LinesSnoc(ids[1..], id);
    }
  }

  /** The mode rustsec-ids; `before` is the order of localeCompare. */
  method PrintRustsecIds(entries: seq<Entry>, before: (string, string) -> bool) returns (out: string)
    ensures out == Lines(RustsecIds(entries, before))
  {
    var chosen := Filter(RustsecEntry, Sort(Comparison(before), entries));
    ghost var ids := Map(IdText, chosen);
    out := "";
    for k := 0 to |chosen|
      invariant out == Lines(ids[..k])
    {
      out := out + (IdText(chosen[k]) + ['\n']);
      LinesSnoc(ids[..k], ids[k]);
      assert ids[..k + 1] == ids[..k] + [ids[k]];
    }
    assert ids[..|chosen|] == ids;
  }

  lemma {:induction false} PurlSnoc(purls: seq<string>, purl: string, rest: string)
    ensures PurlLines(purls + [purl], rest) == PurlLines(purls, "      - " + (Quote(purl) + ("\n" + rest)))
  {
    if purls == [] {
      assert ([] + [purl])[1..] == [];
    } else {
      assert (purls + [purl])[1..] == purls[1..] + [purl];
      PurlSnoc(purls[1..], purl, rest);
    }
  }

  lemma LineFirst(p: string, x: string, n: string, y: string, z: string)
    ensures p + (x + (n + (y + z))) == p + (x + (n + y)) + z
  {}

  lemma {:induction false} PurlAppend(purls: seq<string>, rest: string)
    ensures PurlLines(purls, rest) == PurlLines(purls, "") + rest
  {
    if purls != [] {
      PurlAppend(purls[1..], rest);
      LineFirst("      - ", Quote(purls[0]), "\n", PurlLines(purls[1..], ""), rest);
    }
  }

  method PrintPurls(purls: seq<string>) returns (out: string)
    ensures out == PurlLines(purls, "")
  {
    out := "";
    for k := 0 to |purls|
      invariant out == PurlLines(purls[..k], "")
    {
      var line := "      - " + (Quote(purls[k]) + ("\n" + ""));
      out := out + line;
      assert purls[..k + 1] == purls[..k] + [purls[k]];
      PurlSnoc(purls[..k], purls[k], "");
      PurlAppend(purls[..k], line);
    }
    assert purls[..|purls|] == purls;
  }

  lemma RecordAppend(record: Record, rest: string)
    ensures RecordText(record, rest) == RecordText(record, "") + rest
  {
    var tail := "    expired_at: " + (Quote(record.expiredAt) + ("\n    statement: " + (Quote(record.statement) + "\n")));
    var head := "  - id: " + (Quote(record.id) + "\n    purls:\n");
    RecordShape(record, rest);
    RecordShape(record, "");
    PurlAppend(record.purls, tail + rest);
    PurlAppend(record.purls, tail + "");
    AtTheEnd(head, PurlLines(record.purls, ""), tail, rest);
    AtTheEnd(head, PurlLines(record.purls, ""), tail, "");
  }

  lemma AtTheEnd(head: string, middle: string, tail: string, rest: string)
    ensures head + (middle + (tail + rest)) == head + (middle + tail) + rest
  {}

  lemma RecordShape(record: Record, rest: string)
    ensures var tail := "    expired_at: " + (Quote(record.expiredAt) + ("\n    statement: " + (Quote(record.statement) + "\n")));
            var head := "  - id: " + (Quote(record.id) + "\n    purls:\n");
            RecordText(record, rest) == head + PurlLines(record.purls, tail + rest)
  {
    var tail := "    expired_at: " + (Quote(record.expiredAt) + ("\n    statement: " + (Quote(record.statement) + "\n")));
    assert tail + rest ==
      "    expired_at: " + (Quote(record.expiredAt) + ("\n    statement: " + (Quote(record.statement) + ("\n" + rest))));
  }

  lemma {:induction false} RecordsSnoc(records: seq<Record>, record: Record)
    ensures RecordsText(records + [record]) == RecordsText(records) + RecordText(record, "")
  {
    if records == [] {
      assert ([] + [record])[1..] == [];
    } else {
      assert (records + [record])[1..] == records[1..] + [record];
      RecordsSnoc(records[1..], record);
      RecordAppend(records[0], RecordsText(records[1..] + [record]));
      RecordAppend(records[0], RecordsText(records[1..]));
    }
  }

  method PrintRecord(record: Record) returns (out: string)
    ensures out == RecordText(record, "")
  {
    var head := "  - id: " + (Quote(record.id) + "\n    purls:\n");
    var purls := PrintPurls(record.purls);
    var tail := "    expired_at: " + (Quote(record.expiredAt) + ("\n    statement: " + (Quote(record.statement) + "\n")));
    RecordShape(record, "");
    PurlAppend(record.purls, tail);
    assert tail + "" == tail;
    out := head + (purls + tail);
  }

  method PrintRecords(records: seq<Record>) returns (body: string)
    ensures body == RecordsText(records)
  {
    body := "";
    for k := 0 to |records|
      invariant body == RecordsText(records[..k])
    {
      var text := PrintRecord(records[k]);
      body := body + text;
      RecordsSnoc(records[..k], records[k]);
      assert records[..k + 1] == records[..k] + [records[k]];
    }
    assert records[..|records|] == records;
  }

  /** The mode trivy-yaml. */
  method PrintTrivyYaml(entries: seq<Entry>, before: (string, string) -> bool) returns (out: string)
    ensures out == TrivyYaml(TrivyRecords(entries, before))
  {
    var records := TrivyRecords(entries, before);
    if |records| == 0 {
      out := "vulnerabilities: []\n";
    } else {
      var body := PrintRecords(records);
      out := "vulnerabilities:\n" + body;
    }
  }

  // ----- The output does not depend on the order of the policy

  /** localeCompare tells any two of the texts apart. */
  ghost predicate TellsApart(before: (string, string) -> bool, entries: seq<Entry>) {
    && StrictWeakOrder(before)
    && TotalOn(before, Map(ScannerText, entries))
    && TotalOn(before, Map(IdText, entries))
  }

  lemma ComparisonIsOrder(before: (string, string) -> bool)
    requires StrictWeakOrder(before)
    ensures StrictWeakOrder(Comparison(before))
  {
    var lt := Comparison(before);
    forall x: Entry
      ensures !lt(x, x)
    {
      assert !before(ScannerText(x), ScannerText(x)) && !before(IdText(x), IdText(x));
    }
    forall x, y, z | lt(x, y) && lt(y, z)
      ensures lt(x, z)
    {
      PairTransitive(before, (ScannerText(x), IdText(x)), (ScannerText(y), IdText(y)), (ScannerText(z), IdText(z)));
    }
    forall x, y, z | lt(x, z)
      ensures lt(x, y) || lt(y, z)
    {
      PairWeak(before, (ScannerText(x), IdText(x)), (ScannerText(y), IdText(y)), (ScannerText(z), IdText(z)));
    }
  }

  predicate PairBefore(before: (string, string) -> bool, a: (string, string), b: (string, string)) {
    before(a.0, b.0) || (!before(b.0, a.0) && before(a.1, b.1))
  }

  lemma PairTransitive(before: (string, string) -> bool, x: (string, string), y: (string, string), z: (string, string))
    requires StrictWeakOrder(before) && PairBefore(before, x, y) && PairBefore(before, y, z)
    ensures PairBefore(before, x, z)
  {
    assert before(z.0, x.0) ==> before(z.0, y.0) || before(y.0, x.0);
    assert before(x.0, y.0) ==> before(x.0, z.0) || before(z.0, y.0);
    assert before(y.0, z.0) ==> before(y.0, x.0) || before(x.0, z.0);
  }

  lemma PairWeak(before: (string, string) -> bool, x: (string, string), y: (string, string), z: (string, string))
    requires StrictWeakOrder(before) && PairBefore(before, x, z)
    ensures PairBefore(before, x, y) || PairBefore(before, y, z)
  {
    if before(x.0, z.0) {
      assert before(x.0, y.0) || before(y.0, z.0);
    } else {
      assert before(x.1, y.1) || before(y.1, z.1);
      assert before(y.0, x.0) ==> before(y.0, z.0) || before(z.0, x.0);
      assert before(z.0, y.0) ==> before(z.0, x.0) || before(x.0, y.0);
    }
  }

  lemma AcceptedTexts(entry: Entry, today: int)
    requires EntryAccepted(entry, today)
    ensures EntryIdentity(entry) == Some(ScannerText(entry) + ":" + IdText(entry))
  {
    PrintedIdentity(entry);
  }

  lemma TwoApart(x: Entry, y: Entry, before: (string, string) -> bool)
    requires ScannerText(x) + ":" + IdText(x) != ScannerText(y) + ":" + IdText(y)
    requires ScannerText(x) == ScannerText(y) || before(ScannerText(x), ScannerText(y)) || before(ScannerText(y), ScannerText(x))
    requires IdText(x) == IdText(y) || before(IdText(x), IdText(y)) || before(IdText(y), IdText(x))
    ensures Comparison(before)(x, y) || Comparison(before)(y, x)
  {}

  lemma AcceptedDiffer(entries: seq<Entry>, today: int, i: nat, j: nat)
    requires AllAccepted(entries, today) && i < |entries| && j < |entries| && i != j
    ensures ScannerText(entries[i]) + ":" + IdText(entries[i]) != ScannerText(entries[j]) + ":" + IdText(entries[j])
  {
    var identities := Map(EntryIdentity, entries);
    AcceptedTexts(entries[i], today);
    AcceptedTexts(entries[j], today);
    assert identities[i] != identities[j];
  }

  lemma TextsApart(text: Entry -> string, entries: seq<Entry>, before: (string, string) -> bool, i: nat, j: nat)
    requires TotalOn(before, Map(text, entries)) && i < |entries| && j < |entries|
    ensures text(entries[i]) == text(entries[j]) || before(text(entries[i]), text(entries[j])) || before(text(entries[j]), text(entries[i]))
  {
    var texts := Map(text, entries);
    assert texts[i] in texts && texts[j] in texts;
  }

  lemma AcceptedApart(entries: seq<Entry>, today: int, before: (string, string) -> bool)
    requires AllAccepted(entries, today) && TellsApart(before, entries)
    ensures TotalOn(Comparison(before), entries)
  {
    forall x, y | x in entries && y in entries && x != y
      ensures Comparison(before)(x, y) || Comparison(before)(y, x)
    {
      var i :| 0 <= i < |entries| && entries[i] == x;
      var j :| 0 <= j < |entries| && entries[j] == y;
      AcceptedDiffer(entries, today, i, j);
      TextsApart(ScannerText, entries, before, i, j);
      TextsApart(IdText, entries, before, i, j);
      TwoApart(x, y, before);
    }
  }

  /** For an accepted policy both renderings are the same whatever the order of its exceptions. */
  lemma RenderingIgnoresOrder(policy: Json, other: Json, today: int, before: (string, string) -> bool)
    requires Acceptable(policy, today) && TellsApart(before, EntriesOf(policy))
    requires multiset(ExceptionsOf(policy)) == multiset(ExceptionsOf(other))
    ensures RustsecIds(EntriesOf(policy), before) == RustsecIds(EntriesOf(other), before)
    ensures TrivyRecords(EntriesOf(policy), before) == TrivyRecords(EntriesOf(other), before)
  {
    MapMultiset(ReadEntry, ExceptionsOf(policy), ExceptionsOf(other));
    ComparisonIsOrder(before);
    AcceptedApart(EntriesOf(policy), today, before);
    SortIgnoresOrder(Comparison(before), EntriesOf(policy), EntriesOf(other));
  }

  // ----- What the outputs say

  lemma Sorting(entries: seq<Entry>, before: (string, string) -> bool, p: Entry -> bool)
    requires StrictWeakOrder(before)
    ensures Sorted(Comparison(before), Filter(p, Sort(Comparison(before), entries)))
    ensures forall e :: e in Filter(p, Sort(Comparison(before), entries)) <==> e in entries && p(e)
  {
    ComparisonIsOrder(before);
    SortSorts(Comparison(before), entries);
    FilterSorted(Comparison(before), p, Sort(Comparison(before), entries));
    FilterMembers(p, Sort(Comparison(before), entries));
    SortBag(Comparison(before), entries);
    SameMembers(entries, Sort(Comparison(before), entries));
  }

  lemma EntriesDistinct(entries: seq<Entry>, today: int, before: (string, string) -> bool, p: Entry -> bool)
    requires AllAccepted(entries, today)
    ensures NoDuplicates(Filter(p, Sort(Comparison(before), entries)))
  {
    var identities := Map(EntryIdentity, entries);
    forall i, j | 0 <= i < j < |entries|
      ensures entries[i] != entries[j]
    {
      assert identities[i] != identities[j];
    }
    SortBag(Comparison(before), entries);
    NoDuplicatesFromMultiset(entries, Sort(Comparison(before), entries));
    FilterNoDuplicates(p, Sort(Comparison(before), entries));
  }

  ghost predicate OfScanner(p: Entry -> bool, scanner: string) { forall x :: p(x) ==> ScannerText(x) == scanner }

  ghost predicate IdsIncrease(chosen: seq<Entry>, before: (string, string) -> bool) {
    forall i, j :: 0 <= i < j < |chosen| ==> before(IdText(chosen[i]), IdText(chosen[j]))
  }

  lemma IncreasingIds(chosen: seq<Entry>, before: (string, string) -> bool)
    requires IdsIncrease(chosen, before)
    ensures var ids := Map(IdText, chosen); forall i, j :: 0 <= i < j < |ids| ==> before(ids[i], ids[j])
  {}

  lemma RustsecScanner()
    ensures OfScanner(RustsecEntry, "rustsec")
  {}

  /** The chosen exceptions of one scanner come in strictly increasing order of their ids. */
  lemma ChosenIncrease(entries: seq<Entry>, today: int, before: (string, string) -> bool, p: Entry -> bool, scanner: string,
                       chosen: seq<Entry>)
    requires AllAccepted(entries, today) && TellsApart(before, entries) && OfScanner(p, scanner)
    requires chosen == Filter(p, Sort(Comparison(before), entries))
    ensures IdsIncrease(chosen, before)
  {
    Sorting(entries, before, p);
    EntriesDistinct(entries, today, before, p);
    AcceptedApart(entries, today, before);
    forall i, j | 0 <= i < j < |chosen|
      ensures before(IdText(chosen[i]), IdText(chosen[j]))
    {
      assert chosen[i] in chosen && chosen[j] in chosen && chosen[i] != chosen[j];
      assert Comparison(before)(chosen[i], chosen[j]);
      assert !before(ScannerText(chosen[i]), ScannerText(chosen[i]));
    }
  }

  lemma RustsecIdsIncrease(entries: seq<Entry>, today: int, before: (string, string) -> bool)
    requires AllAccepted(entries, today) && TellsApart(before, entries)
    ensures var ids := RustsecIds(entries, before); forall i, j :: 0 <= i < j < |ids| ==> before(ids[i], ids[j])
  {
    var chosen := Filter(RustsecEntry, Sort(Comparison(before), entries));
    RustsecScanner();
    ChosenIncrease(entries, today, before, RustsecEntry, "rustsec", chosen);
    IncreasingIds(chosen, before);
  }

  lemma RustsecIdsMembers(entries: seq<Entry>, before: (string, string) -> bool, id: string)
    requires StrictWeakOrder(before)
    ensures id in RustsecIds(entries, before) <==> exists e :: e in entries && RustsecEntry(e) && IdText(e) == id
  {
    var chosen, ids := Filter(RustsecEntry, Sort(Comparison(before), entries)), RustsecIds(entries, before);
    Sorting(entries, before, RustsecEntry);
    if id in ids {
      var i :| 0 <= i < |ids| && ids[i] == id;
      assert chosen[i] in chosen;
    }
    if e :| e in entries && RustsecEntry(e) && IdText(e) == id {
      assert e in chosen;
      var i :| 0 <= i < |chosen| && chosen[i] == e;
      assert ids[i] == id;
    }
  }

  /** rustsec-ids prints exactly the ids of the rustsec exceptions, in strictly increasing order. */
  lemma RustsecIdsExact(policy: Json, today: int, before: (string, string) -> bool)
    requires Acceptable(policy, today) && TellsApart(before, EntriesOf(policy))
    ensures var ids := RustsecIds(EntriesOf(policy), before);
            && (forall i, j :: 0 <= i < j < |ids| ==> before(ids[i], ids[j]))
            && (forall id :: id in ids <==> exists e :: e in EntriesOf(policy) && RustsecEntry(e) && IdText(e) == id)
  {
    RustsecIdsIncrease(EntriesOf(policy), today, before);
    forall id: string
      ensures id in RustsecIds(EntriesOf(policy), before) <==>
              exists e :: e in EntriesOf(policy) && RustsecEntry(e) && IdText(e) == id
    {
      RustsecIdsMembers(EntriesOf(policy), before, id);
    }
  }

  /** trivy-yaml renders every trivy exception once, whatever the policy, and nothing else. */
  lemma TrivyRecordsExact(entries: seq<Entry>, before: (string, string) -> bool)
    ensures multiset(TrivyRecords(entries, before)) == multiset(Map(RecordOf, Filter(TrivyEntry, entries)))
  {
    var sorted := Sort(Comparison(before), entries);
    SortBag(Comparison(before), entries);
    FilterMultiset(TrivyEntry, sorted, entries);
    MapMultiset(RecordOf, Filter(TrivyEntry, sorted), Filter(TrivyEntry, entries));
  }

  /** The instant lies after all of today, and at most 30 days and 86399 seconds after the start of the approval day. */
  predicate InTime(approved: Option<int>, expiredAt: string, today: int) {
    var instant := Instant(expiredAt);
    approved.Some? && approved.value <= today && instant.Some?
    && 86400 * (today + 1) <= instant.value <= 86400 * (approved.value + 30) + 86399
  }

  lemma ExpiryRendered(entry: Entry)
    requires entry.Entry? && entry.expiresOn.Some? && entry.expiresOn.value.Str?
    ensures RecordOf(entry).expiredAt == TrivyExpiration(entry.expiresOn.value.s)
  {}

  lemma RecordInTime(entry: Entry, today: int)
    requires EntryAccepted(entry, today)
    ensures InTime(FieldDay(entry.approvedOn), RecordOf(entry).expiredAt, today)
  {
    AcceptedExpiry(entry, today);
    ExpiryRendered(entry);
  }

  lemma RecordOrigin(entries: seq<Entry>, before: (string, string) -> bool, record: Record) returns (i: nat)
    requires record in TrivyRecords(entries, before)
    ensures i < |entries| && TrivyEntry(entries[i]) && record == RecordOf(entries[i])
  {
    var chosen := Filter(TrivyEntry, entries);
    var records := Map(RecordOf, chosen);
    TrivyRecordsExact(entries, before);
    SameMembers(TrivyRecords(entries, before), records);
    var k :| 0 <= k < |records| && records[k] == record;
    FilterMembers(TrivyEntry, entries);
    assert chosen[k] in chosen;
    i :| 0 <= i < |entries| && entries[i] == chosen[k];
  }

  /** Every record rendered from an accepted policy is that of an exception whose approval and expiry frame today. */
  lemma TrivyRecordsExpire(policy: Json, today: int, before: (string, string) -> bool, record: Record)
    requires Acceptable(policy, today) && record in TrivyRecords(EntriesOf(policy), before)
    ensures exists e :: e in EntriesOf(policy) && record == RecordOf(e) && InTime(FieldDay(e.approvedOn), record.expiredAt, today)
  {
    var i := RecordOrigin(EntriesOf(policy), before, record);
    RecordInTime(EntriesOf(policy)[i], today);
  }

  /** The printed lines can be read back. */
  lemma {:induction false} LinesReadBack(ids: seq<string>)
    requires forall i :: 0 <= i < |ids| ==> '\n' !in ids[i]
    ensures Split(Lines(ids), '\n') == ids + [""]
  {
    if ids != [] {
      assert ids + [""] == [ids[0]] + (ids[1..] + [""]);
      LinesReadBack(ids[1..]);
      SplitFirst(ids[0], '\n', Lines(ids[1..]));
    }
  }

  lemma RustsecIdOneLine(id: string)
    requires RustsecId(id)
    ensures '\n' !in id
  {
    forall i | 0 <= i < |id|
      ensures id[i] != '\n'
    {
      if i < 8 {
        assert id[i] == id[..8][i];
      } else if i < 12 {
        assert id[i] == id[8..12][i - 8];
      } else if i > 12 {
        assert id[i] == id[13..][i - 13];
      }
    }
  }

  /** Each printed line is one id: splitting the output at line ends gives the ids back. */
  lemma RustsecOutputReadsBack(policy: Json, today: int, before: (string, string) -> bool)
    requires Acceptable(policy, today) && TellsApart(before, EntriesOf(policy))
    ensures Split(Lines(RustsecIds(EntriesOf(policy), before)), '\n') == RustsecIds(EntriesOf(policy), before) + [""]
  {
    var ids := RustsecIds(EntriesOf(policy), before);
    RustsecIdsExact(policy, today, before);
    forall i | 0 <= i < |ids|
      ensures '\n' !in ids[i]
    {
      assert ids[i] in ids;
      var e :| e in EntriesOf(policy) && RustsecEntry(e) && IdText(e) == ids[i];
      assert EntryAccepted(e, today);
      PrintedIdentity(e);
      RustsecIdOneLine(ids[i]);
    }
    LinesReadBack(ids);
  }

  // ----- The file determines the records

  lemma Strip(prefix: string, x: string, y: string)
    requires prefix + x == prefix + y
    ensures x == y
  {
    assert (prefix + x)[|prefix|..] == x && (prefix + y)[|prefix|..] == y;
  }

  /** The purl list ends where the next key begins. */
  lemma {:induction false} PurlsPrefix(xs: seq<string>, ys: seq<string>, a: string, b: string)
    requires PurlLines(xs, "    expired_at: " + a) == PurlLines(ys, "    expired_at: " + b)
    ensures xs == ys && a == b
  {
    var x, y := PurlLines(xs, "    expired_at: " + a), PurlLines(ys, "    expired_at: " + b);
    assert xs == [] ==> x[4] == 'e';
    assert ys == [] ==> y[4] == 'e';
    assert xs != [] ==> x[4] == ' ';
    assert ys != [] ==> y[4] == ' ';
    if xs == [] {
      Strip("    expired_at: ", a, b);
    } else {
      var x1, y1 := PurlLines(xs[1..], "    expired_at: " + a), PurlLines(ys[1..], "    expired_at: " + b);
      Strip("      - ", Quote(xs[0]) + ("\n" + x1), Quote(ys[0]) + ("\n" + y1));
      QuotePrefix(xs[0], ys[0], "\n" + x1, "\n" + y1);
      Strip("\n", x1, y1);
      PurlsPrefix(xs[1..], ys[1..], a, b);
      assert xs == [xs[0]] + xs[1..] && ys == [ys[0]] + ys[1..];
    }
  }

  lemma EndPrefix(x: Record, y: Record, a: string, b: string)
    requires Quote(x.expiredAt) + ("\n    statement: " + (Quote(x.statement) + ("\n" + a))) ==
             Quote(y.expiredAt) + ("\n    statement: " + (Quote(y.statement) + ("\n" + b)))
    ensures x.expiredAt == y.expiredAt && x.statement == y.statement && a == b
  {
    QuotePrefix(x.expiredAt, y.expiredAt,
      "\n    statement: " + (Quote(x.statement) + ("\n" + a)), "\n    statement: " + (Quote(y.statement) + ("\n" + b)));
    Strip("\n    statement: ", Quote(x.statement) + ("\n" + a), Quote(y.statement) + ("\n" + b));
    QuotePrefix(x.statement, y.statement, "\n" + a, "\n" + b);
    Strip("\n", a, b);
  }

  function RecordEnd(record: Record, rest: string): string {
    Quote(record.expiredAt) + ("\n    statement: " + (Quote(record.statement) + ("\n" + rest)))
  }

  lemma RecordPrefix(x: Record, y: Record, a: string, b: string)
    requires RecordText(x, a) == RecordText(y, b)
    ensures x == y && a == b
  {
    var p, q := "    expired_at: " + RecordEnd(x, a), "    expired_at: " + RecordEnd(y, b);
    Strip("  - id: ", Quote(x.id) + ("\n    purls:\n" + PurlLines(x.purls, p)), Quote(y.id) + ("\n    purls:\n" + PurlLines(y.purls, q)));
    QuotePrefix(x.id, y.id, "\n    purls:\n" + PurlLines(x.purls, p), "\n    purls:\n" + PurlLines(y.purls, q));
    Strip("\n    purls:\n", PurlLines(x.purls, p), PurlLines(y.purls, q));
    PurlsPrefix(x.purls, y.purls, RecordEnd(x, a), RecordEnd(y, b));
    EndPrefix(x, y, a, b);
  }

  lemma {:induction false} RecordsDetermined(xs: seq<Record>, ys: seq<Record>)
    requires RecordsText(xs) == RecordsText(ys)
    ensures xs == ys
  {
    if xs != [] && ys != [] {
      RecordPrefix(xs[0], ys[0], RecordsText(xs[1..]), RecordsText(ys[1..]));
      RecordsDetermined(xs[1..], ys[1..]);
      assert xs == [xs[0]] + xs[1..] && ys == [ys[0]] + ys[1..];
    }
  }

  /**
   Nothing a policy field contains can be mistaken for the structure around it: equal files come
   from equal lists of records.
   */
  lemma TrivyYamlDeterminesRecords(xs: seq<Record>, ys: seq<Record>)
    requires TrivyYaml(xs) == TrivyYaml(ys)
    ensures xs == ys
  {
    var x, y := TrivyYaml(xs), TrivyYaml(ys);
    assert xs == [] ==> x[16] == ' ';
    assert ys == [] ==> y[16] == ' ';
    assert xs != [] ==> x[16] == '\n';
    assert ys != [] ==> y[16] == '\n';
    if xs != [] {
      Strip("vulnerabilities:\n", RecordsText(xs), RecordsText(ys));
      RecordsDetermined(xs, ys);
    }
  }
}
