/** What a policy without complaints looks like, stated without the validator. */
module ExceptionAcceptance {
  import opened Calendar
  import opened ExceptionPolicy
  import opened Json
  import opened JsObjects
  import opened Options
  import opened Ordering
  import opened Text

  /** Both dates name real days, at most 30 days apart, and `today` lies in between. */
  predicate DaysAccepted(approved: Option<int>, expires: Option<int>, today: int) {
    approved.Some? && expires.Some? && 1 <= expires.value - approved.value <= 30 && approved.value <= today < expires.value
  }

  predicate ComponentsAccepted(entry: Entry)
    requires entry.Entry?
  {
    EveryComponent(entry.components, if IsRustsec(entry.scanner) then CrateComponent else PackageUrl)
  }

  predicate TextsAccepted(entry: Entry)
    requires entry.Entry?
  {
    ReasonLong(entry) && OwnerRight(entry) && TrackingIssueRight(entry)
  }

  ghost predicate FieldsAccepted(entry: Entry)
    requires entry.Entry?
  {
    forall name :: name in entry.names <==> name in FIELD_NAMES
  }

  /** What one exception has to be, apart from differing from the others. */
  ghost predicate EntryAccepted(entry: Entry, today: int) {
    entry.Entry? && FieldsAccepted(entry) && ScannerKnown(entry) && IdRight(entry) && ComponentsAccepted(entry)
    && TextsAccepted(entry) && DaysAccepted(FieldDay(entry.approvedOn), FieldDay(entry.expiresOn), today)
  }

  function EntryIdentity(entry: Entry): Option<string> {
    if entry.Entry? then Identity(entry.scanner, entry.id) else None
  }

  ghost predicate AllAccepted(entries: seq<Entry>, today: int) {
    && (forall i :: 0 <= i < |entries| ==> EntryAccepted(entries[i], today))
    && NoDuplicates(Map(EntryIdentity, entries))
  }

  ghost predicate Acceptable(policy: Json, today: int) {
    VersionRight(policy) && ListsExceptions(policy) && AllAccepted(EntriesOf(policy), today)
  }

  // ----- The field check

  /** A joined text holds a separator between any two pieces, and no more exactly when no piece holds one. */
  lemma {:induction false} JoinCount(pieces: seq<string>, c: char)
    requires pieces != []
    ensures multiset(Join(pieces, c))[c] >= |pieces| - 1
    ensures multiset(Join(pieces, c))[c] == |pieces| - 1 <==> forall i :: 0 <= i < |pieces| ==> c !in pieces[i]
  {
    assert c in pieces[0] <==> c in multiset(pieces[0]);
    if |pieces| > 1 {
      var rest := pieces[1..];
      JoinCount(rest, c);
      assert pieces == [pieces[0]] + rest;
      assert multiset(Join(pieces, c))[c] == multiset(pieces[0])[c] + 1 + multiset(Join(rest, c))[c];
    }
  }

  lemma FieldNamesFacts()
    ensures |FIELD_NAMES| == 8 && NoDuplicates(FIELD_NAMES) && Sorted(LexLess, FIELD_NAMES)
    ensures forall i :: 0 <= i < |FIELD_NAMES| ==> '\0' !in FIELD_NAMES[i]
  {
    forall i, j | 0 <= i < j < |FIELD_NAMES|
      ensures FIELD_NAMES[i] != FIELD_NAMES[j] && !LexLess(FIELD_NAMES[j], FIELD_NAMES[i])
    {
      assert FIELD_NAMES[i][0] < FIELD_NAMES[j][0];
    }
  }

  lemma Smaller<T>(xs: seq<T>, ys: seq<T>)
    requires NoDuplicates(xs) && forall x :: x in xs ==> x in ys
    ensures |xs| <= |ys|
  {
    forall x
      ensures multiset(xs)[x] <= multiset(ys)[x]
    {
      CountNoDuplicates(xs, x);
      assert x in xs ==> x in multiset(ys);
    }
    assert multiset(ys) == multiset(xs) + (multiset(ys) - multiset(xs));
    assert |multiset(ys)| == |multiset(xs)| + |multiset(ys) - multiset(xs)|;
  }

  lemma KeyList(members: seq<Member<Json>>)
    requires DistinctKeys(members)
    ensures NoDuplicates(Map(NameOf, members))
    ensures forall name :: name in Map(NameOf, members) <==> name in KeysOf(members)
  {
    var keys := Map(NameOf, members);
    forall name
      ensures name in keys <==> name in KeysOf(members)
    {
      if name in keys {
        var i :| 0 <= i < |keys| && keys[i] == name;
        assert members[i].key == name;
      }
      if name in KeysOf(members) {
        var i :| 0 <= i < |members| && members[i].key == name;
        assert keys[i] == name;
      }
    }
  }

  lemma SameNamesSort(keys: seq<string>, names: seq<string>)
    requires NoDuplicates(keys) && NoDuplicates(names) && Sorted(LexLess, names)
    requires forall name :: name in keys <==> name in names
    ensures Sort(LexLess, keys) == names
  {
    SameMembersNoDuplicates(keys, names);
    SortOfSorted(LexLess, names);
    LexIsStrictTotal();
    assert StrictWeakOrder(LexLess);
    assert TotalOn(LexLess, names);
    SortIgnoresOrder(LexLess, names, keys);
  }

  lemma SameJoin(pieces: seq<string>, names: seq<string>, c: char)
    requires names != [] && |names| <= |pieces| && Join(pieces, c) == Join(names, c)
    requires forall i :: 0 <= i < |names| ==> c !in names[i]
    ensures pieces == names
  {
    JoinCount(names, c);
    JoinCount(pieces, c);
    SplitJoin(names, c);
    SplitJoin(pieces, c);
  }

  /** Comparing sorted names by their joined text compares the names, separators inside them or not. */
  lemma JoinedNames(keys: seq<string>, names: seq<string>, c: char)
    requires NoDuplicates(keys) && NoDuplicates(names) && Sorted(LexLess, names) && names != []
    requires forall i :: 0 <= i < |names| ==> c !in names[i]
    requires forall name :: name in names ==> name in keys
    ensures Join(Sort(LexLess, keys), c) == Join(names, c) <==> forall name :: name in keys <==> name in names
  {
    Smaller(names, keys);
    SortBag(LexLess, keys);
    if Join(Sort(LexLess, keys), c) == Join(names, c) {
      SameJoin(Sort(LexLess, keys), names, c);
      SameMembers(keys, Sort(LexLess, keys));
    }
    if forall name :: name in keys <==> name in names {
      SameNamesSort(keys, names);
    }
  }

  // ----- One entry

  /** A field is there exactly when its name is listed, and no name is listed twice: true of anything read. */
  ghost predicate Consistent(entry: Entry) {
    entry.Entry? ==>
      && NoDuplicates(entry.names)
      && ("approved_on" in entry.names <==> entry.approvedOn.Some?)
      && ("components" in entry.names <==> entry.components.Some?)
      && ("expires_on" in entry.names <==> entry.expiresOn.Some?)
      && ("id" in entry.names <==> entry.id.Some?)
      && ("owner" in entry.names <==> entry.owner.Some?)
      && ("reason" in entry.names <==> entry.reason.Some?)
      && ("scanner" in entry.names <==> entry.scanner.Some?)
      && ("tracking_issue" in entry.names <==> entry.trackingIssue.Some?)
  }

  lemma {:induction false} LookupKey<V>(members: seq<Member<V>>, key: string)
    ensures Lookup(members, key).Some? <==> key in KeysOf(members)
  {
    if members != [] {
      LookupKey(members[1..], key);
      assert forall i :: 0 <= i < |members[1..]| ==> members[1..][i] == members[i + 1];
      if members[0].key == key {
        assert members[0].key in KeysOf(members);
      } else if key in KeysOf(members) {
        var i :| 0 <= i < |members| && members[i].key == key;
        assert members[1..][i - 1].key == key;
      }
    }
  }

  lemma NamePresent(value: Json, name: string)
    requires value.Obj? && DistinctKeys(value.members)
    ensures name in Map(NameOf, value.members) <==> Lookup(value.members, name).Some?
  {
    KeyList(value.members);
    LookupKey(value.members, name);
  }

  lemma ReadConsistently(value: Json)
    requires value.Obj? ==> DistinctKeys(value.members)
    ensures Consistent(ReadEntry(value))
  {
    if value.Obj? {
      KeyList(value.members);
      forall name: string
        ensures name in Map(NameOf, value.members) <==> Lookup(value.members, name).Some?
      {
        NamePresent(value, name);
      }
    }
  }

  /**
   The joined-text comparison. Separators inside names can satisfy it, but not when all eight fields
   are there: then it holds exactly when there is no other field.
   */
  lemma FieldsRightIff(entry: Entry)
    requires entry.Entry? && NoDuplicates(entry.names) && forall name :: name in FIELD_NAMES ==> name in entry.names
    ensures FieldsRight(entry) <==> FieldsAccepted(entry)
  {
    FieldNamesFacts();
    JoinedNames(entry.names, FIELD_NAMES, '\0');
  }

  lemma IdentityFields(entry: Entry)
    requires entry.Entry? && ScannerKnown(entry) && IdRight(entry)
    ensures entry.scanner.Some? && entry.id.Some?
  {
    assert TextOrBlank(None) == Some("") && !RustsecId("") && !TrivyId("");
  }

  lemma EightFields(entry: Entry)
    requires entry.Entry? && Consistent(entry)
    requires entry.approvedOn.Some? && entry.components.Some? && entry.expiresOn.Some? && entry.id.Some?
    requires entry.owner.Some? && entry.reason.Some? && entry.scanner.Some? && entry.trackingIssue.Some?
    ensures forall name :: name in FIELD_NAMES ==> name in entry.names
  {}

  /** The fields an entry needs to satisfy the other rules are all eight. */
  lemma PresentFields(entry: Entry)
    requires entry.Entry? && Consistent(entry) && ScannerKnown(entry) && IdRight(entry)
    requires ComponentsAccepted(entry) && TextsAccepted(entry)
    requires FieldDay(entry.approvedOn).Some? && FieldDay(entry.expiresOn).Some?
    ensures forall name :: name in FIELD_NAMES ==> name in entry.names
  {
    IdentityFields(entry);
    EightFields(entry);
  }

  ghost predicate Faultless(j: Judgement, repeated: bool, today: int) {
    forall rule :: !Breaks(j, repeated, today, rule)
  }

  lemma IdentityFaultless(fieldsRight: bool, scannerKnown: bool, idRight: bool, repeated: bool)
    ensures (forall rule :: !BreaksIdentity(fieldsRight, scannerKnown, idRight, repeated, rule)) <==>
            fieldsRight && scannerKnown && idRight && !repeated
  {
    assert BreaksIdentity(fieldsRight, scannerKnown, idRight, repeated, WrongFields) == !fieldsRight;
    assert BreaksIdentity(fieldsRight, scannerKnown, idRight, repeated, WrongScanner) == !scannerKnown;
    assert BreaksIdentity(fieldsRight, scannerKnown, idRight, repeated, InvalidId) == !idRight;
    assert BreaksIdentity(fieldsRight, scannerKnown, idRight, repeated, Duplicate) == repeated;
  }

  lemma ComponentsFaultless(facts: ComponentFacts)
    ensures (forall rule :: !BreaksComponents(facts, rule)) <==>
            facts.right && (facts.rustsec ==> facts.crates) && (facts.trivy ==> facts.packages)
  {
    assert BreaksComponents(facts, InvalidComponents) == !facts.right;
    assert facts.right ==> BreaksComponents(facts, InvalidCrates) == (facts.rustsec && !facts.crates);
    assert facts.right && (facts.rustsec ==> facts.crates) ==>
        BreaksComponents(facts, InvalidPackages) == (facts.trivy && !facts.packages);
  }

  lemma TextsFaultless(reasonLong: bool, ownerRight: bool, trackingIssueRight: bool)
    ensures (forall rule :: !BreaksTexts(reasonLong, ownerRight, trackingIssueRight, rule)) <==>
            reasonLong && ownerRight && trackingIssueRight
  {
    assert BreaksTexts(reasonLong, ownerRight, trackingIssueRight, ShortReason) == !reasonLong;
    assert BreaksTexts(reasonLong, ownerRight, trackingIssueRight, InvalidOwner) == !ownerRight;
    assert BreaksTexts(reasonLong, ownerRight, trackingIssueRight, InvalidTrackingIssue) == !trackingIssueRight;
  }

  lemma DaysFaultless(approved: Option<int>, expires: Option<int>, today: int)
    ensures (forall rule :: !BreaksDays(approved, expires, today, rule)) <==> DaysAccepted(approved, expires, today)
  {
    if forall rule :: !BreaksDays(approved, expires, today, rule) {
      assert !BreaksDays(approved, expires, today, InvalidApproval) && !BreaksDays(approved, expires, today, InvalidExpiry);
      assert !BreaksDays(approved, expires, today, WrongLifetime);
      assert !BreaksDays(approved, expires, today, ApprovedLater) && !BreaksDays(approved, expires, today, Expired);
    }
  }

  lemma ComponentFactsAccepted(entry: Entry)
    requires entry.Entry? && ScannerKnown(entry)
    ensures var facts := ComponentFactsOf(entry.scanner, entry.components);
            facts.right && (facts.rustsec ==> facts.crates) && (facts.trivy ==> facts.packages) <==>
            ComponentsAccepted(entry)
  {
    assert "rustsec"[0] != "trivy"[0];
  }

  lemma FaultlessGroups(j: Judgement, repeated: bool, today: int)
    requires j.Judged?
    ensures Faultless(j, repeated, today) <==>
            && (forall rule :: !BreaksIdentity(j.fieldsRight, j.scannerKnown, j.idRight, repeated, rule))
            && (forall rule :: !BreaksComponents(j.components, rule))
            && (forall rule :: !BreaksTexts(j.reasonLong, j.ownerRight, j.trackingIssueRight, rule))
            && (forall rule :: !BreaksDays(j.approved, j.expires, today, rule))
  {
    if Faultless(j, repeated, today) {
      forall rule
        ensures !BreaksIdentity(j.fieldsRight, j.scannerKnown, j.idRight, repeated, rule)
        ensures !BreaksComponents(j.components, rule)
        ensures !BreaksTexts(j.reasonLong, j.ownerRight, j.trackingIssueRight, rule)
        ensures !BreaksDays(j.approved, j.expires, today, rule)
      {
        assert !Breaks(j, repeated, today, rule);
      }
    }
  }

  lemma FaultlessParts(j: Judgement, repeated: bool, today: int)
    requires j.Judged?
    ensures Faultless(j, repeated, today) <==>
            && j.fieldsRight && j.scannerKnown && j.idRight && !repeated
            && j.components.right && (j.components.rustsec ==> j.components.crates) && (j.components.trivy ==> j.components.packages)
            && j.reasonLong && j.ownerRight && j.trackingIssueRight
            && DaysAccepted(j.approved, j.expires, today)
  {
    IdentityFaultless(j.fieldsRight, j.scannerKnown, j.idRight, repeated);
    ComponentsFaultless(j.components);
    TextsFaultless(j.reasonLong, j.ownerRight, j.trackingIssueRight);
    DaysFaultless(j.approved, j.expires, today);
    FaultlessGroups(j, repeated, today);
  }

  lemma BrokenEmpty(j: Judgement, repeated: bool, today: int)
    ensures Broken(j, repeated, today) == [] <==> Faultless(j, repeated, today)
  {
    var broken := Broken(j, repeated, today);
    forall rule
      ensures rule in broken <==> Breaks(j, repeated, today, rule)
    {
      BrokenExactly(j, repeated, today, rule);
    }
    assert broken != [] ==> broken[0] in broken;
  }

  /** An entry draws no complaint exactly when it is accepted and no earlier entry has its identity. */
  lemma FaultlessIff(entry: Entry, repeated: bool, today: int)
    requires Consistent(entry)
    ensures Broken(Judge(entry), repeated, today) == [] <==> EntryAccepted(entry, today) && !repeated
  {
    BrokenEmpty(Judge(entry), repeated, today);
    if entry.NoObject? {
      assert Breaks(NotJudged, repeated, today, NotAnObject);
    } else {
      FaultlessParts(Judge(entry), repeated, today);
      if ScannerKnown(entry) {
        ComponentFactsAccepted(entry);
        if IdRight(entry) && ComponentsAccepted(entry) && TextsAccepted(entry)
           && DaysAccepted(FieldDay(entry.approvedOn), FieldDay(entry.expiresOn), today) {
          PresentFields(entry);
          FieldsRightIff(entry);
        }
      }
    }
  }

  // ----- The whole policy

  lemma {:induction false} ReportEmpty(lists: seq<seq<Rule>>, n: nat)
    requires n <= |lists|
    ensures Report(lists, n) == [] <==> forall i :: 0 <= i < n ==> lists[i] == []
  {
    if n > 0 {
      ReportEmpty(lists, n - 1);
    }
  }

  /** The identity of an entry with a known scanner and a valid id prints as the two texts. */
  lemma PrintedIdentity(entry: Entry)
    requires entry.Entry? && ScannerKnown(entry) && IdRight(entry)
    ensures EntryIdentity(entry).Some? && FieldText(entry.id).Some?
    ensures EntryIdentity(entry).value == entry.scanner.value.s + ":" + FieldText(entry.id).value
    ensures FieldText(entry.id) == TextOrBlank(entry.id)
  {
    assert !RustsecId("") && !TrivyId("");
  }

  lemma NothingRepeated(identities: seq<Option<string>>)
    requires forall i :: 0 <= i < |identities| ==> identities[i].Some?
    ensures NoDuplicates(identities) <==> forall i :: 0 <= i < |identities| ==> !Repeated(identities, i)
  {
    if !NoDuplicates(identities) {
      var i, j :| 0 <= i < j < |identities| && identities[i] == identities[j];
      assert Repeated(identities, j);
    }
  }

  lemma IdentitiesOf(entries: seq<Entry>)
    ensures Identities(Map(Judge, entries)) == Map(EntryIdentity, entries)
  {}

  lemma EntryIff(entries: seq<Entry>, today: int, i: nat)
    requires i < |entries| && Consistent(entries[i])
    ensures BrokenLists(Map(Judge, entries), today)[i] == [] <==>
            EntryAccepted(entries[i], today) && !Repeated(Map(EntryIdentity, entries), i)
  {
    IdentitiesOf(entries);
    BrokenListAt(Map(Judge, entries), today, i);
    FaultlessIff(entries[i], Repeated(Map(EntryIdentity, entries), i), today);
  }

  lemma FaultlessEntries(entries: seq<Entry>, today: int)
    requires forall i :: 0 <= i < |entries| ==> Consistent(entries[i])
    requires Verdict(Map(Judge, entries), today) == Errors([])
    ensures AllAccepted(entries, today)
  {
    var identities := Map(EntryIdentity, entries);
    ReportEmpty(BrokenLists(Map(Judge, entries), today), |entries|);
    forall i | 0 <= i < |entries|
      ensures EntryAccepted(entries[i], today) && !Repeated(identities, i) && identities[i].Some?
    {
      EntryIff(entries, today, i);
      PrintedIdentity(entries[i]);
    }
    NothingRepeated(identities);
  }

  lemma AcceptedIdentities(entries: seq<Entry>, today: int)
    requires AllAccepted(entries, today)
    ensures forall i :: 0 <= i < |entries| ==> EntryIdentity(entries[i]).Some?
    ensures forall i :: 0 <= i < |entries| ==> !Repeated(Map(EntryIdentity, entries), i)
  {
    forall i | 0 <= i < |entries|
      ensures EntryIdentity(entries[i]).Some?
    {
      PrintedIdentity(entries[i]);
    }
    NothingRepeated(Map(EntryIdentity, entries));
  }

  lemma NoThrow(entries: seq<Entry>)
    requires forall i :: 0 <= i < |entries| ==> EntryIdentity(entries[i]).Some?
    ensures !AnyThrows(Map(Judge, entries))
  {
    forall i | 0 <= i < |entries|
      ensures !Throws(Map(Judge, entries)[i])
    {
      assert EntryIdentity(entries[i]).Some?;
    }
  }

  lemma AcceptedEntries(entries: seq<Entry>, today: int)
    requires forall i :: 0 <= i < |entries| ==> Consistent(entries[i])
    requires AllAccepted(entries, today)
    ensures Verdict(Map(Judge, entries), today) == Errors([])
  {
    AcceptedIdentities(entries, today);
    NoThrow(entries);
    forall i | 0 <= i < |entries|
      ensures BrokenLists(Map(Judge, entries), today)[i] == []
    {
      EntryIff(entries, today, i);
    }
    ReportEmpty(BrokenLists(Map(Judge, entries), today), |entries|);
  }

  lemma EntriesConsistent(policy: Json)
    requires WellFormed(policy)
    ensures forall i :: 0 <= i < |EntriesOf(policy)| ==> Consistent(EntriesOf(policy)[i])
  {
    if ListsExceptions(policy) {
      var k := LookupIndex(policy.members, "exceptions");
      assert WellFormed(policy.members[k].value);
      forall i | 0 <= i < |EntriesOf(policy)|
        ensures Consistent(EntriesOf(policy)[i])
      {
        ReadConsistently(ExceptionsOf(policy)[i]);
      }
    }
  }

  /** The validator returns no complaint exactly when the policy meets the declarative predicate. */
  lemma AcceptedIff(policy: Json, today: int)
    requires WellFormed(policy)
    ensures Validation(policy, today) == Errors([]) <==> Acceptable(policy, today)
  {
    EntriesConsistent(policy);
    if Validation(policy, today) == Errors([]) {
      FaultlessEntries(EntriesOf(policy), today);
    }
    if Acceptable(policy, today) {
      AcceptedEntries(EntriesOf(policy), today);
    }
  }

  /** Reordering the exceptions does not change whether the policy is accepted. */
  lemma AcceptanceIgnoresOrder(policy: Json, other: Json, today: int)
    requires Acceptable(policy, today) && VersionRight(other) && ListsExceptions(other)
    requires multiset(ExceptionsOf(policy)) == multiset(ExceptionsOf(other))
    ensures Acceptable(other, today)
  {
    var entries, others := EntriesOf(policy), EntriesOf(other);
    MapMultiset(ReadEntry, ExceptionsOf(policy), ExceptionsOf(other));
    SameMembers(entries, others);
    forall i | 0 <= i < |others|
      ensures EntryAccepted(others[i], today)
    {
      assert others[i] in entries;
    }
    MapMultiset(EntryIdentity, entries, others);
    NoDuplicatesFromMultiset(Map(EntryIdentity, entries), Map(EntryIdentity, others));
  }

  lemma MapMember(rules: seq<Rule>, index: nat, error: Error)
    ensures error in Map(AtIndex(index), rules) <==> error.InEntry? && error.index == index && error.rule in rules
  {
    var errors := Map(AtIndex(index), rules);
    if error in errors {
      var i :| 0 <= i < |errors| && errors[i] == error;
      assert rules[i] == error.rule;
    }
    if error.InEntry? && error.index == index && error.rule in rules {
      var i :| 0 <= i < |rules| && rules[i] == error.rule;
      assert errors[i] == error;
    }
  }

  lemma {:induction false} ReportMember(lists: seq<seq<Rule>>, n: nat, error: Error)
    requires n <= |lists|
    ensures error in Report(lists, n) <==> error.InEntry? && error.index < n && error.rule in lists[error.index]
  {
    if n > 0 {
      ReportMember(lists, n - 1, error);
      MapMember(lists[n - 1], n - 1, error);
    }
  }

  /** Position in the fixed order of the checks. */
  function Rank(rule: Rule): (n: nat)
    ensures n < 16
  {
    match rule
    case NotAnObject => 0
    case WrongFields => 1
    case WrongScanner => 2
    case InvalidId => 3
    case Duplicate => 4
    case InvalidComponents => 5
    case InvalidCrates => 6
    case InvalidPackages => 7
    case ShortReason => 8
    case InvalidOwner => 9
    case InvalidTrackingIssue => 10
    case InvalidApproval => 11
    case InvalidExpiry => 12
    case WrongLifetime => 13
    case ApprovedLater => 14
    case Expired => 15
  }

  ghost predicate Ascending(rules: seq<Rule>, bound: nat) {
    && (forall i, k :: 0 <= i < k < |rules| ==> Rank(rules[i]) < Rank(rules[k]))
    && (forall i :: 0 <= i < |rules| ==> Rank(rules[i]) < bound)
  }

  lemma AlsoAscends(before: seq<Rule>, broken: bool, rule: Rule)
    requires Ascending(before, Rank(rule))
    ensures Ascending(Also(before, broken, rule), Rank(rule) + 1)
  {}

  lemma TwoAscend(before: seq<Rule>, first: bool, a: Rule, second: bool, b: Rule)
    requires Rank(a) < Rank(b) && Ascending(before, Rank(a))
    ensures Ascending(Also(Also(before, first, a), second, b), Rank(b) + 1)
  {
    AlsoAscends(before, first, a);
    AlsoAscends(Also(before, first, a), second, b);
  }

  lemma IdentityAscends(fieldsRight: bool, scannerKnown: bool, idRight: bool, repeated: bool)
    ensures Ascending(IdentityFaults([], fieldsRight, scannerKnown, idRight, repeated), 5)
  {
    TwoAscend([], !fieldsRight, WrongFields, !scannerKnown, WrongScanner);
    var e2 := Also(Also([], !fieldsRight, WrongFields), !scannerKnown, WrongScanner);
    TwoAscend(e2, !idRight, InvalidId, repeated, Duplicate);
  }

  lemma ComponentsAscend(before: seq<Rule>, facts: ComponentFacts)
    requires Ascending(before, 5)
    ensures Ascending(ComponentFaults(before, facts), 8)
  {
    AlsoAscends(before, BreaksComponents(facts, InvalidComponents), InvalidComponents);
    var e1 := Also(before, BreaksComponents(facts, InvalidComponents), InvalidComponents);
    AlsoAscends(e1, BreaksComponents(facts, InvalidCrates), InvalidCrates);
    var e2 := Also(e1, BreaksComponents(facts, InvalidCrates), InvalidCrates);
    AlsoAscends(e2, BreaksComponents(facts, InvalidPackages), InvalidPackages);
  }

  lemma TextsAscend(before: seq<Rule>, reasonLong: bool, ownerRight: bool, trackingIssueRight: bool)
    requires Ascending(before, 8)
    ensures Ascending(TextFaults(before, reasonLong, ownerRight, trackingIssueRight), 11)
  {
    AlsoAscends(before, BreaksTexts(reasonLong, ownerRight, trackingIssueRight, ShortReason), ShortReason);
    var e1 := Also(before, BreaksTexts(reasonLong, ownerRight, trackingIssueRight, ShortReason), ShortReason);
    AlsoAscends(e1, BreaksTexts(reasonLong, ownerRight, trackingIssueRight, InvalidOwner), InvalidOwner);
    var e2 := Also(e1, BreaksTexts(reasonLong, ownerRight, trackingIssueRight, InvalidOwner), InvalidOwner);
    AlsoAscends(e2, BreaksTexts(reasonLong, ownerRight, trackingIssueRight, InvalidTrackingIssue), InvalidTrackingIssue);
  }

  lemma LastAscend(before: seq<Rule>, lifetime: bool, later: bool, expired: bool)
    requires Ascending(before, 13)
    ensures Ascending(Also(Also(Also(before, lifetime, WrongLifetime), later, ApprovedLater), expired, Expired), 16)
  {
    AlsoAscends(before, lifetime, WrongLifetime);
    var e1 := Also(before, lifetime, WrongLifetime);
    AlsoAscends(e1, later, ApprovedLater);
    AlsoAscends(Also(e1, later, ApprovedLater), expired, Expired);
  }

  lemma DaysAscend(before: seq<Rule>, approved: Option<int>, expires: Option<int>, today: int)
    requires Ascending(before, 11)
    ensures Ascending(DayFaults(before, approved, expires, today), 16)
  {
    TwoAscend(before, approved.None?, InvalidApproval, expires.None?, InvalidExpiry);
    LastAscend(
      Also(Also(before, approved.None?, InvalidApproval), expires.None?, InvalidExpiry),
      BreaksDays(approved, expires, today, WrongLifetime),
      BreaksDays(approved, expires, today, ApprovedLater), BreaksDays(approved, expires, today, Expired));
  }

  /** Each broken rule is reported once, in the order of the checks. */
  lemma BrokenAscends(j: Judgement, repeated: bool, today: int)
    ensures Ascending(Broken(j, repeated, today), 16)
  {
    if j.Judged? {
      var e1 := IdentityFaults([], j.fieldsRight, j.scannerKnown, j.idRight, repeated);
      var e2 := ComponentFaults(e1, j.components);
      var e3 := TextFaults(e2, j.reasonLong, j.ownerRight, j.trackingIssueRight);
      IdentityAscends(j.fieldsRight, j.scannerKnown, j.idRight, repeated);
      ComponentsAscend(e1, j.components);
      TextsAscend(e2, j.reasonLong, j.ownerRight, j.trackingIssueRight);
      DaysAscend(e3, j.approved, j.expires, today);
    }
  }

  predicate Precedes(a: Error, b: Error) {
    a.InEntry? && b.InEntry? && (a.index < b.index || (a.index == b.index && Rank(a.rule) < Rank(b.rule)))
  }

  /** The complaints come entry by entry, and within an entry in the order of the checks; none comes twice. */
  lemma {:induction false} ReportAscends(lists: seq<seq<Rule>>, n: nat)
    requires n <= |lists| && forall i :: 0 <= i < n ==> Ascending(lists[i], 16)
    ensures forall i, k :: 0 <= i < k < |Report(lists, n)| ==> Precedes(Report(lists, n)[i], Report(lists, n)[k])
  {
    if n > 0 {
      ReportAscends(lists, n - 1);
      var front, last := Report(lists, n - 1), Map(AtIndex(n - 1), lists[n - 1]);
      forall i, k | 0 <= i < k < |front + last|
        ensures Precedes((front + last)[i], (front + last)[k])
      {
        if i < |front| {
          ReportMember(lists, n - 1, front[i]);
          assert front[i] in front;
        }
      }
    }
  }

  /** The complaints about the entries are exactly the broken rules, in order, each once. */
  lemma ReportExactly(judgements: seq<Judgement>, today: int)
    ensures var report := Report(BrokenLists(judgements, today), |judgements|);
            && (forall error :: error in report <==>
                  error.InEntry? && error.index < |judgements|
                  && Breaks(judgements[error.index], Repeated(Identities(judgements), error.index), today, error.rule))
            && (forall i, k :: 0 <= i < k < |report| ==> Precedes(report[i], report[k]))
  {
    var lists := BrokenLists(judgements, today);
    forall i | 0 <= i < |lists|
      ensures Ascending(lists[i], 16)
    {
      BrokenListAt(judgements, today, i);
      BrokenAscends(judgements[i], Repeated(Identities(judgements), i), today);
    }
    ReportAscends(lists, |lists|);
    forall error: Error
      ensures error in Report(lists, |lists|) <==>
              error.InEntry? && error.index < |judgements|
              && Breaks(judgements[error.index], Repeated(Identities(judgements), error.index), today, error.rule)
    {
      ReportMember(lists, |lists|, error);
      if error.InEntry? && error.index < |judgements| {
        BrokenListAt(judgements, today, error.index);
        BrokenExactly(judgements[error.index], Repeated(Identities(judgements), error.index), today, error.rule);
      }
    }
  }

  /**
   An accepted entry lives 1 to 30 days, and the instant rendered for the scanner lies after all of
   `today` and at most 30 days and 86399 seconds after the start of its approval day.
   */
  lemma AcceptedExpiry(entry: Entry, today: int)
    requires EntryAccepted(entry, today)
    ensures entry.expiresOn.Some? && entry.expiresOn.value.Str? && FieldDay(entry.approvedOn).Some?
    ensures var approved := FieldDay(entry.approvedOn).value;
            var instant := Instant(TrivyExpiration(entry.expiresOn.value.s));
            instant.Some? && approved <= today
            && 86400 * (today + 1) <= instant.value <= 86400 * (approved + 30) + 86399
            && 86400 * (approved + 1) <= instant.value
  {
    TrivyExpirationIsEndOfDay(entry.expiresOn.value.s);
  }
}
