/** What the renderer writes for an accepted policy, on the members of its JSON and line by line. */
module RenderedPolicy {
  import opened ExceptionAcceptance
  import opened ExceptionPolicy
  import opened IgnoreRenderer
  import opened Json
  import opened JsObjects
  import opened Options
  import opened Ordering

  // ----- Records

  /** The member is this string. */
  predicate Says(members: seq<Member<Json>>, key: string, s: string) { Lookup(members, key) == Some(Str(s)) }

  /** The member is the array of these strings. */
  predicate Lists(members: seq<Member<Json>>, key: string, texts: seq<string>) {
    Lookup(members, key) == Some(Arr(Map((s: string) => Str(s), texts)))
  }

  /** The member prints as this text. */
  predicate PrintsAs(members: seq<Member<Json>>, key: string, text: string) {
    var field := Lookup(members, key); field.Some? && ToText(field.value) == Some(text)
  }

  ghost predicate StatementOf(members: seq<Member<Json>>, statement: string) {
    exists reason, owner, issue ::
      && Says(members, "reason", reason) && Says(members, "owner", owner) && Says(members, "tracking_issue", issue)
      && statement == reason + " Owner: " + owner + ". Tracking: " + issue
  }

  ghost predicate ExpiryOf(members: seq<Member<Json>>, expiredAt: string) {
    exists date :: Says(members, "expires_on", date) && expiredAt == date + "T23:59:59Z"
  }

  /** The record is what the exception says. */
  ghost predicate Renders(exception: Json, record: Record) {
    && exception.Obj? && Says(exception.members, "scanner", "trivy") && PrintsAs(exception.members, "id", record.id)
    && Lists(exception.members, "components", record.purls)
    && ExpiryOf(exception.members, record.expiredAt) && StatementOf(exception.members, record.statement)
  }

  lemma AcceptedMembers(members: seq<Member<Json>>, today: int)
    requires EntryAccepted(ReadEntry(Obj(members)), today)
    ensures Lookup(members, "reason").Some? && Lookup(members, "reason").value.Str?
    ensures Lookup(members, "owner").Some? && Lookup(members, "owner").value.Str?
    ensures Lookup(members, "tracking_issue").Some? && Lookup(members, "tracking_issue").value.Str?
    ensures Lookup(members, "expires_on").Some? && Lookup(members, "expires_on").value.Str?
    ensures ComponentsRight(Lookup(members, "components"))
    ensures PrintsAs(members, "id", IdText(ReadEntry(Obj(members))))
  {
    PrintedIdentity(ReadEntry(Obj(members)));
    IdentityFields(ReadEntry(Obj(members)));
  }

  lemma ComponentsListed(members: seq<Member<Json>>)
    requires ComponentsRight(Lookup(members, "components"))
    ensures Lists(members, "components", ComponentTexts(ReadEntry(Obj(members))))
  {
    var items, texts := Lookup(members, "components").value.items, ComponentTexts(ReadEntry(Obj(members)));
    assert items == Map((s: string) => Str(s), texts);
  }

  lemma RecordParts(members: seq<Member<Json>>, reason: string, owner: string, issue: string, date: string)
    requires Says(members, "reason", reason) && Says(members, "owner", owner) && Says(members, "tracking_issue", issue)
    requires Says(members, "expires_on", date)
    ensures var record := RecordOf(ReadEntry(Obj(members)));
            && record.statement == reason + " Owner: " + owner + ". Tracking: " + issue
            && record.expiredAt == date + "T23:59:59Z"
            && record.id == IdText(ReadEntry(Obj(members))) && record.purls == ComponentTexts(ReadEntry(Obj(members)))
  {}

  lemma RendersIs(exception: Json, record: Record, reason: string, owner: string, issue: string, date: string)
    requires exception.Obj? && Says(exception.members, "scanner", "trivy") && PrintsAs(exception.members, "id", record.id)
    requires Lists(exception.members, "components", record.purls)
    requires Says(exception.members, "reason", reason) && Says(exception.members, "owner", owner)
    requires Says(exception.members, "tracking_issue", issue) && Says(exception.members, "expires_on", date)
    requires record.statement == reason + " Owner: " + owner + ". Tracking: " + issue
    requires record.expiredAt == date + "T23:59:59Z"
    ensures Renders(exception, record)
  {}

  lemma RecordRenders(exception: Json, record: Record)
    requires exception.Obj? && record == RecordOf(ReadEntry(exception)) && Says(exception.members, "scanner", "trivy")
    requires PrintsAs(exception.members, "id", IdText(ReadEntry(exception)))
    requires Lists(exception.members, "components", ComponentTexts(ReadEntry(exception)))
    requires Lookup(exception.members, "reason").Some? && Lookup(exception.members, "reason").value.Str?
    requires Lookup(exception.members, "owner").Some? && Lookup(exception.members, "owner").value.Str?
    requires Lookup(exception.members, "tracking_issue").Some? && Lookup(exception.members, "tracking_issue").value.Str?
    requires Lookup(exception.members, "expires_on").Some? && Lookup(exception.members, "expires_on").value.Str?
    ensures Renders(exception, record)
  {
    var members := exception.members;
    var reason, owner := Lookup(members, "reason").value.s, Lookup(members, "owner").value.s;
    var issue, date := Lookup(members, "tracking_issue").value.s, Lookup(members, "expires_on").value.s;
    RecordParts(members, reason, owner, issue, date);
    RendersIs(exception, record, reason, owner, issue, date);
  }

  lemma AcceptedRenders(exception: Json, today: int)
    requires EntryAccepted(ReadEntry(exception), today) && TrivyEntry(ReadEntry(exception))
    ensures Renders(exception, RecordOf(ReadEntry(exception)))
  {
    AcceptedMembers(exception.members, today);
    ComponentsListed(exception.members);
    RecordRenders(exception, RecordOf(ReadEntry(exception)));
  }

  /** Every record says what some trivy exception says. */
  lemma RecordsMean(policy: Json, today: int, before: (string, string) -> bool, record: Record) returns (exception: Json)
    requires Acceptable(policy, today) && record in TrivyRecords(EntriesOf(policy), before)
    ensures exception in ExceptionsOf(policy) && Renders(exception, record)
  {
    var i := RecordOrigin(EntriesOf(policy), before, record);
    exception := ExceptionsOf(policy)[i];
    AcceptedRenders(exception, today);
  }

  /** Every trivy exception has its record. */
  lemma ExceptionsRendered(policy: Json, today: int, before: (string, string) -> bool, exception: Json) returns (record: Record)
    requires Acceptable(policy, today) && exception in ExceptionsOf(policy)
    requires exception.Obj? && Says(exception.members, "scanner", "trivy")
    ensures record in TrivyRecords(EntriesOf(policy), before) && Renders(exception, record)
  {
    var entries := EntriesOf(policy);
    var i :| 0 <= i < |ExceptionsOf(policy)| && ExceptionsOf(policy)[i] == exception;
    assert entries[i] == ReadEntry(exception);
    record := RecordOf(entries[i]);
    AcceptedRenders(exception, today);
    RecordKept(entries, before, entries[i]);
  }

  lemma RecordKept(entries: seq<Entry>, before: (string, string) -> bool, entry: Entry)
    requires entry in entries && TrivyEntry(entry)
    ensures RecordOf(entry) in TrivyRecords(entries, before)
  {
    TrivyRecordsExact(entries, before);
    FilterMembers(TrivyEntry, entries);
    InMap(RecordOf, Filter(TrivyEntry, entries), entry);
    SameMembers(TrivyRecords(entries, before), Map(RecordOf, Filter(TrivyEntry, entries)));
  }

  lemma InMap<A, B>(f: A -> B, xs: seq<A>, x: A)
    requires x in xs
    ensures f(x) in Map(f, xs)
  {
    var i :| 0 <= i < |xs| && xs[i] == x;
    assert Map(f, xs)[i] == f(x);
  }

  lemma TrivyScanner()
    ensures OfScanner(TrivyEntry, "trivy")
  {}

  lemma RecordIds(chosen: seq<Entry>, before: (string, string) -> bool)
    requires IdsIncrease(chosen, before) && forall e :: e in chosen ==> TrivyEntry(e)
    ensures var records := Map(RecordOf, chosen); forall i, j :: 0 <= i < j < |records| ==> before(records[i].id, records[j].id)
  {
    forall i | 0 <= i < |chosen|
      ensures RecordOf(chosen[i]).id == IdText(chosen[i])
    {
      assert chosen[i] in chosen;
    }
  }

  /** The ids of the records strictly increase, so no exception is rendered twice. */
  lemma RecordIdsIncrease(policy: Json, today: int, before: (string, string) -> bool)
    requires Acceptable(policy, today) && TellsApart(before, EntriesOf(policy))
    ensures var records := TrivyRecords(EntriesOf(policy), before);
            forall i, j :: 0 <= i < j < |records| ==> before(records[i].id, records[j].id)
  {
    var entries := EntriesOf(policy);
    var chosen := Filter(TrivyEntry, Sort(Comparison(before), entries));
    TrivyScanner();
    ChosenIncrease(entries, today, before, TrivyEntry, "trivy", chosen);
    Sorting(entries, before, TrivyEntry);
    RecordIds(chosen, before);
  }

  predicate IsRustsecWithId(exception: Json, id: string) {
    exception.Obj? && Says(exception.members, "scanner", "rustsec") && PrintsAs(exception.members, "id", id)
  }

  ghost predicate SomeRustsec(exceptions: seq<Json>, id: string) {
    exists exception :: exception in exceptions && IsRustsecWithId(exception, id)
  }

  ghost predicate SomeRustsecEntry(entries: seq<Entry>, id: string) {
    exists e :: e in entries && RustsecEntry(e) && IdText(e) == id
  }

  lemma FromMap<A, B>(f: A -> B, xs: seq<A>, y: B) returns (x: A)
    requires y in Map(f, xs)
    ensures x in xs && f(x) == y
  {
    var i :| 0 <= i < |Map(f, xs)| && Map(f, xs)[i] == y;
    x := xs[i];
  }

  /** Reading the exception tells whether it is a rustsec one with this id. */
  ghost predicate ReadsRight(exception: Json, id: string) {
    RustsecEntry(ReadEntry(exception)) && IdText(ReadEntry(exception)) == id <==> IsRustsecWithId(exception, id)
  }

  lemma SameRustsec(exceptions: seq<Json>, id: string)
    requires forall exception :: exception in exceptions ==> ReadsRight(exception, id)
    ensures SomeRustsecEntry(Map(ReadEntry, exceptions), id) <==> SomeRustsec(exceptions, id)
  {
    if e :| e in Map(ReadEntry, exceptions) && RustsecEntry(e) && IdText(e) == id {
      var exception := FromMap(ReadEntry, exceptions, e);
      assert ReadsRight(exception, id);
    }
    if exception :| exception in exceptions && IsRustsecWithId(exception, id) {
      InMap(ReadEntry, exceptions, exception);
      assert ReadsRight(exception, id);
    }
  }

  lemma AcceptedReadsRight(exception: Json, today: int, id: string)
    requires EntryAccepted(ReadEntry(exception), today)
    ensures ReadsRight(exception, id)
  {
    AcceptedMembers(exception.members, today);
  }

  lemma AllReadRight(policy: Json, today: int, id: string)
    requires Acceptable(policy, today)
    ensures forall exception :: exception in ExceptionsOf(policy) ==> ReadsRight(exception, id)
  {
    var exceptions, entries := ExceptionsOf(policy), EntriesOf(policy);
    forall i | 0 <= i < |exceptions|
      ensures ReadsRight(exceptions[i], id)
    {
      assert entries[i] == ReadEntry(exceptions[i]);
      AcceptedReadsRight(exceptions[i], today, id);
    }
  }

  /** rustsec-ids prints the text of "id" of every exception with the scanner "rustsec", and nothing else. */
  lemma RustsecIdsMean(policy: Json, today: int, before: (string, string) -> bool, id: string)
    requires Acceptable(policy, today) && StrictWeakOrder(before)
    ensures id in RustsecIds(EntriesOf(policy), before) <==> SomeRustsec(ExceptionsOf(policy), id)
  {
    RustsecIdsMembers(EntriesOf(policy), before, id);
    AllReadRight(policy, today, id);
    SameRustsec(ExceptionsOf(policy), id);
  }

  // ----- The file

  function PurlLine(purl: string): string { "      - " + Quote(purl) }

  /** The lines of one record. */
  function RecordLines(record: Record): seq<string> {
    ["  - id: " + Quote(record.id), "    purls:"] + Map(PurlLine, record.purls)
    + ["    expired_at: " + Quote(record.expiredAt), "    statement: " + Quote(record.statement)]
  }

  function FileLines(records: seq<Record>): seq<string> {
    if records == [] then [] else RecordLines(records[0]) + FileLines(records[1..])
  }

  lemma {:induction false} LinesConcat(xs: seq<string>, ys: seq<string>)
    ensures Lines(xs + ys) == Lines(xs) + Lines(ys)
  {
    if xs == [] {
      assert xs + ys == ys;
    } else {
      assert (xs + ys)[1..] == xs[1..] + ys;
      LinesConcat(xs[1..], ys);
    }
  }

  lemma TwoLines(a: string, b: string)
    ensures Lines([a, b]) == a + ['\n'] + (b + ['\n'])
  {
    assert [a, b][1..] == [b] && [b][1..] == [];
    assert Lines([]) == "" && b + ['\n'] + "" == b + ['\n'];
    assert Lines([b]) == b + ['\n'];
  }

  lemma {:induction false} PurlsAreLines(purls: seq<string>)
    ensures PurlLines(purls, "") == Lines(Map(PurlLine, purls))
  {
    if purls != [] {
      PurlsAreLines(purls[1..]);
      assert Map(PurlLine, purls)[1..] == Map(PurlLine, purls[1..]);
      assert PurlLine(purls[0]) + ['\n'] + PurlLines(purls[1..], "") == "      - " + (Quote(purls[0]) + ("\n" + PurlLines(purls[1..], "")));
    }
  }

  lemma RecordIsLines(record: Record)
    ensures RecordText(record, "") == Lines(RecordLines(record))
  {
    RecordShape(record, "");
    HeadLines(record.id);
    EndLines(record.expiredAt, record.statement);
    PurlsAreLines(record.purls);
    ThreeParts(
      ["  - id: " + Quote(record.id), "    purls:"], record.purls,
      ["    expired_at: " + Quote(record.expiredAt), "    statement: " + Quote(record.statement)]);
  }

  lemma ThreeParts(head: seq<string>, purls: seq<string>, end: seq<string>)
    ensures Lines(head + Map(PurlLine, purls) + end) == Lines(head) + PurlLines(purls, Lines(end) + "")
  {
    assert Lines(end) + "" == Lines(end);
    PurlAppend(purls, Lines(end));
    PurlsAreLines(purls);
    LinesConcat(head, Map(PurlLine, purls));
    LinesConcat(head + Map(PurlLine, purls), end);
  }

  lemma HeadLines(id: string)
    ensures Lines(["  - id: " + Quote(id), "    purls:"]) == "  - id: " + (Quote(id) + "\n    purls:\n")
  {
    TwoLines("  - id: " + Quote(id), "    purls:");
  }

  lemma Regrouped(p: string, x: string, q: string, y: string)
    ensures p + x + ['\n'] + (q + y + ['\n']) == p + (x + (['\n'] + q + (y + ['\n'])))
  {}

  lemma EndLines(expiredAt: string, statement: string)
    ensures Lines(["    expired_at: " + Quote(expiredAt), "    statement: " + Quote(statement)]) ==
            "    expired_at: " + (Quote(expiredAt) + ("\n    statement: " + (Quote(statement) + "\n")))
  {
    TwoLines("    expired_at: " + Quote(expiredAt), "    statement: " + Quote(statement));
    Regrouped("    expired_at: ", Quote(expiredAt), "    statement: ", Quote(statement));
    assert ['\n'] + "    statement: " == "\n    statement: ";
  }

  lemma {:induction false} RecordsAreLines(records: seq<Record>)
    ensures RecordsText(records) == Lines(FileLines(records))
  {
    if records != [] {
      RecordsAreLines(records[1..]);
      RecordIsLines(records[0]);
      RecordAppend(records[0], RecordsText(records[1..]));
      LinesConcat(RecordLines(records[0]), FileLines(records[1..]));
    }
  }

  /** The file is a heading and the lines of its records, or the empty list. */
  lemma TrivyYamlLines(records: seq<Record>)
    ensures records == [] ==> TrivyYaml(records) == Lines(["vulnerabilities: []"])
    ensures records != [] ==> TrivyYaml(records) == Lines(["vulnerabilities:"] + FileLines(records))
  {
    assert ["vulnerabilities: []"][1..] == [] && (["vulnerabilities:"] + FileLines(records))[1..] == FileLines(records);
    RecordsAreLines(records);
  }
}
