/** Each complaint of the validator, in terms of the members of the JSON policy. */
module ExceptionMeaning {
  import opened Calendar
  import opened ExceptionAcceptance
  import opened ExceptionPolicy
  import opened Json
  import opened JsObjects
  import opened Options
  import opened Ordering
  import opened Patterns
  import opened Text

  // ----- The policy as a whole

  /** A policy that is no object draws the one complaint, and nothing more is looked at. */
  lemma NoPolicy(policy: Json, today: int)
    requires !policy.Obj?
    ensures Validation(policy, today) == Errors([NotObject])
  {}

  /** The version must be the number that prints as 1. */
  lemma VersionComplaint(policy: Json, today: int)
    requires policy.Obj? && Validation(policy, today).Errors?
    ensures SchemaVersion in Validation(policy, today).errors <==> Lookup(policy.members, "schema_version") != Some(Num("1"))
  {
    if ListsExceptions(policy) {
      var judgements := JudgementsOf(policy);
      ReportExactly(judgements, today);
      assert Validation(policy, today).errors ==
        (if VersionRight(policy) then [] else [SchemaVersion]) + Report(BrokenLists(judgements, today), |judgements|);
    }
  }

  /** Without an array of exceptions, the version and this are all that is complained about. */
  lemma NoExceptions(policy: Json, today: int)
    requires policy.Obj?
    requires Lookup(policy.members, "exceptions").None? || !Lookup(policy.members, "exceptions").value.Arr?
    ensures Validation(policy, today) == Errors(
              (if Lookup(policy.members, "schema_version") == Some(Num("1")) then [] else [SchemaVersion]) + [ExceptionsNotArray])
  {}

  // ----- One exception

  /** The validator ends with a list of complaints about a policy with these exceptions. */
  ghost predicate Examined(policy: Json, items: seq<Json>, today: int) {
    policy.Obj? && Lookup(policy.members, "exceptions") == Some(Arr(items)) && Validation(policy, today).Errors?
  }

  ghost predicate Complains(policy: Json, today: int, i: nat, rule: Rule) {
    Validation(policy, today).Errors? && InEntry(i, rule) in Validation(policy, today).errors
  }

  /** What the validator finds out about element i. */
  function JudgementAt(policy: Json, i: nat): Judgement
    requires i < |JudgementsOf(policy)|
  {
    JudgementsOf(policy)[i]
  }

  lemma JudgementIs(policy: Json, items: seq<Json>, i: nat)
    requires policy.Obj? && Lookup(policy.members, "exceptions") == Some(Arr(items)) && i < |items|
    ensures |JudgementsOf(policy)| == |items| && JudgementAt(policy, i) == Judge(ReadEntry(items[i]))
  {}

  lemma ErrorsAre(policy: Json, items: seq<Json>, today: int)
    requires Examined(policy, items, today)
    ensures !AnyThrows(JudgementsOf(policy))
    ensures Validation(policy, today).errors ==
            (if VersionRight(policy) then [] else [SchemaVersion]) + Report(BrokenLists(JudgementsOf(policy), today), |JudgementsOf(policy)|)
  {}

  /** An element draws the complaints of the rules it breaks. */
  lemma ComplaintIsBreak(policy: Json, items: seq<Json>, today: int, i: nat, rule: Rule)
    requires Examined(policy, items, today) && i < |items|
    ensures |JudgementsOf(policy)| == |items| && JudgementAt(policy, i) == Judge(ReadEntry(items[i]))
    ensures Complains(policy, today, i, rule) <==>
            Breaks(JudgementAt(policy, i), Repeated(Identities(JudgementsOf(policy)), i), today, rule)
  {
    JudgementIs(policy, items, i);
    ErrorsAre(policy, items, today);
    ReportedIsBreak(JudgementsOf(policy), today, i, rule);
    BehindVersion(if VersionRight(policy) then [] else [SchemaVersion],
      Report(BrokenLists(JudgementsOf(policy), today), |JudgementsOf(policy)|), i, rule);
  }

  lemma ReportedIsBreak(judgements: seq<Judgement>, today: int, i: nat, rule: Rule)
    requires i < |judgements|
    ensures InEntry(i, rule) in Report(BrokenLists(judgements, today), |judgements|) <==>
            Breaks(judgements[i], Repeated(Identities(judgements), i), today, rule)
  {
    var repeated := Repeated(Identities(judgements), i);
    ReportMember(BrokenLists(judgements, today), |judgements|, InEntry(i, rule));
    BrokenListAt(judgements, today, i);
    BrokenIsBreak(judgements[i], repeated, today, rule, BrokenLists(judgements, today)[i]);
  }

  lemma BrokenIsBreak(j: Judgement, repeated: bool, today: int, rule: Rule, broken: seq<Rule>)
    requires broken == Broken(j, repeated, today)
    ensures rule in broken <==> Breaks(j, repeated, today, rule)
  {
    BrokenExactly(j, repeated, today, rule);
  }

  /** The complaint about the version is about no entry. */
  lemma BehindVersion(front: seq<Error>, report: seq<Error>, i: nat, rule: Rule)
    requires front == [] || front == [SchemaVersion]
    ensures InEntry(i, rule) in front + report <==> InEntry(i, rule) in report
  {}

  /** An object with these members, whose scanner and id have or have not come before, draws the complaint. */
  ghost predicate Draws(members: seq<Member<Json>>, repeated: bool, today: int, rule: Rule) {
    Breaks(Judge(ReadEntry(Obj(members))), repeated, today, rule)
  }

  /** For each rule, the part of the judgement that decides it. */
  lemma IdentityBreaks(j: Judgement, repeated: bool, today: int)
    requires j.Judged?
    ensures Breaks(j, repeated, today, WrongFields) <==> !j.fieldsRight
    ensures Breaks(j, repeated, today, WrongScanner) <==> !j.scannerKnown
    ensures Breaks(j, repeated, today, InvalidId) <==> !j.idRight
    ensures Breaks(j, repeated, today, Duplicate) <==> repeated
  {}

  lemma ComponentBreaks(j: Judgement, repeated: bool, today: int)
    requires j.Judged?
    ensures Breaks(j, repeated, today, InvalidComponents) <==> !j.components.right
    ensures !j.components.right ==>
              !Breaks(j, repeated, today, InvalidCrates) && !Breaks(j, repeated, today, InvalidPackages)
    ensures j.components.right ==>
              (Breaks(j, repeated, today, InvalidCrates) <==> j.components.rustsec && !j.components.crates)
    ensures j.components.right && !j.components.rustsec ==>
              (Breaks(j, repeated, today, InvalidPackages) <==> j.components.trivy && !j.components.packages)
    ensures !j.components.trivy ==> !Breaks(j, repeated, today, InvalidPackages)
  {}

  lemma TextBreaks(j: Judgement, repeated: bool, today: int)
    requires j.Judged?
    ensures Breaks(j, repeated, today, ShortReason) <==> !j.reasonLong
    ensures Breaks(j, repeated, today, InvalidOwner) <==> !j.ownerRight
    ensures Breaks(j, repeated, today, InvalidTrackingIssue) <==> !j.trackingIssueRight
  {}

  /** The two days are too far apart, or not in their order. */
  predicate WrongSpan(approved: Option<int>, expires: Option<int>) {
    approved.Some? && expires.Some? && (expires.value - approved.value < 1 || expires.value - approved.value > 30)
  }

  /** Both dates are given, and the approval lies in the future. */
  predicate Future(approved: Option<int>, expires: Option<int>, today: int) {
    approved.Some? && expires.Some? && today < approved.value
  }

  /** Both dates are given, and today is the day of expiry or a later one. */
  predicate Past(approved: Option<int>, expires: Option<int>, today: int) {
    approved.Some? && expires.Some? && expires.value <= today
  }

  lemma DayBreaks(j: Judgement, repeated: bool, today: int)
    requires j.Judged?
    ensures Breaks(j, repeated, today, InvalidApproval) <==> j.approved.None?
    ensures Breaks(j, repeated, today, InvalidExpiry) <==> j.expires.None?
    ensures Breaks(j, repeated, today, WrongLifetime) <==> WrongSpan(j.approved, j.expires)
    ensures Breaks(j, repeated, today, ApprovedLater) <==> Future(j.approved, j.expires, today)
    ensures Breaks(j, repeated, today, Expired) <==> Past(j.approved, j.expires, today)
  {}

  /** The member is a string with the property. */
  predicate StringWith(members: seq<Member<Json>>, key: string, p: string -> bool) {
    var field := Lookup(members, key);
    field.Some? && field.value.Str? && p(field.value.s)
  }

  ghost predicate StringMatching(members: seq<Member<Json>>, key: string, pieces: seq<Piece>) {
    var field := Lookup(members, key);
    field.Some? && field.value.Str? && Matches(pieces, field.value.s)
  }

  /** The names, sorted and joined with NUL, must be the eight. */
  lemma FieldsRule(members: seq<Member<Json>>, repeated: bool, today: int)
    ensures Draws(members, repeated, today, WrongFields) <==>
            Join(Sort(LexLess, Map(NameOf, members)), '\0') != Join(
              ["approved_on", "components", "expires_on", "id", "owner", "reason", "scanner", "tracking_issue"], '\0')
  {
    IdentityBreaks(Judge(ReadEntry(Obj(members))), repeated, today);
  }

  lemma ScannerRule(members: seq<Member<Json>>, repeated: bool, today: int)
    ensures var scanner := Lookup(members, "scanner");
            Draws(members, repeated, today, WrongScanner) <==> scanner != Some(Str("rustsec")) && scanner != Some(Str("trivy"))
  {
    IdentityBreaks(Judge(ReadEntry(Obj(members))), repeated, today);
  }

  /** The id, as text, must match the pattern of its scanner; a missing or empty one does not. */
  lemma IdRule(members: seq<Member<Json>>, repeated: bool, today: int)
    ensures var id := TextOrBlank(Lookup(members, "id"));
            Draws(members, repeated, today, InvalidId) <==>
            !(id.Some? && if Lookup(members, "scanner") == Some(Str("rustsec")) then Matches(RustsecPattern(), id.value)
                          else Matches(TrivyPattern(), id.value))
  {
    IdentityBreaks(Judge(ReadEntry(Obj(members))), repeated, today);
    var id := TextOrBlank(Lookup(members, "id"));
    if id.Some? {
      RustsecIsPattern(id.value);
      TrivyIsPattern(id.value);
    }
  }

  /** Strings and numbers are taken as they print; what JavaScript counts as false becomes empty. */
  lemma IdTexts(s: string, n: string)
    ensures TextOrBlank(None) == Some("") && TextOrBlank(Some(Null)) == Some("") && TextOrBlank(Some(Bool(false))) == Some("")
    ensures TextOrBlank(Some(Bool(true))) == Some("true")
    ensures TextOrBlank(Some(Str(s))) == Some(s) && FieldText(Some(Str(s))) == Some(s)
    ensures TextOrBlank(Some(Num(n))) == Some(if n == "0" then "" else n) && FieldText(Some(Num(n))) == Some(n)
    ensures FieldText(None) == Some("undefined") && FieldText(Some(Null)) == Some("null")
    ensures FieldText(Some(Bool(true))) == Some("true") && FieldText(Some(Bool(false))) == Some("false")
  {}

  /** What an element of a list prints as: null prints as nothing. */
  function ElementText(item: Json): Option<string> { if item.Null? then Some("") else ToText(item) }

  /** A list prints as its elements joined with commas; it throws if one of them does. */
  lemma {:induction false} ListText(items: seq<Json>, texts: seq<string>)
    requires |texts| == |items| && forall i :: 0 <= i < |items| ==> ElementText(items[i]) == Some(texts[i])
    ensures ItemsText(items) == Some(Join(texts, ','))
    ensures ToText(Arr(items)) == Some(Join(texts, ','))
    decreases |items|
  {
    if items != [] {
      assert ElementText(items[0]) == Some(texts[0]);
      if |items| == 1 {
        assert ItemsText(items[1..]) == Some("");
        assert texts[0] + "" == texts[0];
      } else {
        ListText(items[1..], texts[1..]);
        assert Join(texts, ',') == texts[0] + [','] + Join(texts[1..], ',');
        assert texts[0] + ([','] + Join(texts[1..], ',')) == texts[0] + [','] + Join(texts[1..], ',');
      }
    }
  }

  /** An object prints unless it brings a member of its own that is not callable. */
  lemma ObjectText(members: seq<Member<Json>>)
    ensures ToText(Obj(members)) == if Lookup(members, "toString").Some? then None else Some("[object Object]")
  {}

  /** scanner:id as it prints, for members that print. */
  function PrintedPair(members: seq<Member<Json>>): string {
    var scanner, id := FieldText(Lookup(members, "scanner")), FieldText(Lookup(members, "id"));
    if scanner.Some? && id.Some? then scanner.value + ":" + id.value else ""
  }

  predicate SameIdentity(a: seq<Member<Json>>, b: seq<Member<Json>>) { PrintedPair(a) == PrintedPair(b) }

  /** An earlier object has the same scanner and id, as they print. */
  ghost predicate EarlierTwin(items: seq<Json>, i: nat)
    requires i < |items| && items[i].Obj?
  {
    exists j :: 0 <= j < i && items[j].Obj? && SameIdentity(items[j].members, items[i].members)
  }

  /** A list of identities in which every object has its printed pair, and nothing else has one. */
  ghost predicate PrintedPairs(identities: seq<Option<string>>, items: seq<Json>) {
    |identities| == |items| && forall j :: 0 <= j < |items| ==>
      identities[j] == if items[j].Obj? then Some(PrintedPair(items[j].members)) else None
  }

  lemma RepeatedIsTwin(identities: seq<Option<string>>, items: seq<Json>, i: nat)
    requires PrintedPairs(identities, items) && i < |items| && items[i].Obj?
    ensures Repeated(identities, i) <==> EarlierTwin(items, i)
  {
    if EarlierTwin(items, i) {
      var j :| 0 <= j < i && items[j].Obj? && SameIdentity(items[j].members, items[i].members);
      assert identities[j] == identities[i];
    }
  }

  lemma IdentityPrints(item: Json)
    requires !Throws(Judge(ReadEntry(item)))
    ensures Remembered(Judge(ReadEntry(item))) == if item.Obj? then Some(PrintedPair(item.members)) else None
  {}

  lemma IdentitiesPrint(policy: Json, items: seq<Json>)
    requires policy.Obj? && Lookup(policy.members, "exceptions") == Some(Arr(items)) && !AnyThrows(JudgementsOf(policy))
    ensures PrintedPairs(Identities(JudgementsOf(policy)), items)
  {
    forall j | 0 <= j < |items|
      ensures Identities(JudgementsOf(policy))[j] == if items[j].Obj? then Some(PrintedPair(items[j].members)) else None
    {
      JudgementIs(policy, items, j);
      assert !Throws(JudgementsOf(policy)[j]);
      IdentityPrints(items[j]);
    }
    assert |JudgementsOf(policy)| == |items|;
  }

  /** What is no object draws just that complaint; an object draws those of its members. */
  lemma Complaints(policy: Json, items: seq<Json>, today: int, i: nat, rule: Rule)
    requires Examined(policy, items, today) && i < |items|
    ensures Complains(policy, today, i, rule) <==>
            if items[i].Obj? then Draws(items[i].members, EarlierTwin(items, i), today, rule) else rule == NotAnObject
  {
    ComplaintIsBreak(policy, items, today, i, rule);
    if items[i].Obj? {
      ErrorsAre(policy, items, today);
      IdentitiesPrint(policy, items);
      RepeatedIsTwin(Identities(JudgementsOf(policy)), items, i);
    }
  }

  /** Coming second is a complaint of its own. */
  lemma DuplicateRule(members: seq<Member<Json>>, repeated: bool, today: int)
    ensures Draws(members, repeated, today, Duplicate) <==> repeated
  {
    IdentityBreaks(Judge(ReadEntry(Obj(members))), repeated, today);
  }

  /** The scanner or the id of the object does not print. */
  predicate Unprintable(item: Json) {
    item.Obj? && (FieldText(Lookup(item.members, "scanner")).None? || FieldText(Lookup(item.members, "id")).None?)
  }

  /** The validator throws exactly if some object among the exceptions is unprintable. */
  lemma ThrowsIff(policy: Json, items: seq<Json>, today: int)
    requires policy.Obj? && Lookup(policy.members, "exceptions") == Some(Arr(items))
    ensures Validation(policy, today) == Threw <==> exists item :: item in items && Unprintable(item)
  {
    var judgements := JudgementsOf(policy);
    forall j | 0 <= j < |items|
      ensures Throws(judgements[j]) <==> Unprintable(items[j])
    {
      assert judgements[j] == Judge(ReadEntry(items[j]));
    }
    assert |judgements| == |items|;
    if item :| item in items && Unprintable(item) {
      var j :| 0 <= j < |items| && items[j] == item;
      assert Throws(judgements[j]);
    }
  }

  /** A non-empty array of distinct non-empty strings. */
  ghost predicate GoodComponents(members: seq<Member<Json>>, texts: seq<string>) {
    && Lookup(members, "components") == Some(Arr(Map((s: string) => Str(s), texts)))
    && texts != [] && "" !in texts && NoDuplicates(texts)
  }

  lemma ComponentsAreTexts(members: seq<Member<Json>>)
    ensures ComponentsRight(Lookup(members, "components")) <==> exists texts :: GoodComponents(members, texts)
  {
    var field := Lookup(members, "components");
    if ComponentsRight(field) {
      var items := field.value.items;
      var texts := Map((item: Json) => if item.Str? then item.s else "", items);
      assert items == Map((s: string) => Str(s), texts);
      assert GoodComponents(members, texts);
    }
    if texts :| GoodComponents(members, texts) {
      GoodAreRight(members, texts);
    }
  }

  lemma GoodAreRight(members: seq<Member<Json>>, texts: seq<string>)
    requires GoodComponents(members, texts)
    ensures ComponentsRight(Lookup(members, "components"))
    ensures forall p: string -> bool :: EveryComponent(Lookup(members, "components"), p) <==> forall k :: 0 <= k < |texts| ==> p(texts[k])
  {
    var items := Lookup(members, "components").value.items;
    forall k | 0 <= k < |items|
      ensures items[k] == Str(texts[k]) && texts[k] != ""
    {
      assert texts[k] in texts;
    }
  }

  lemma ComponentsRule(members: seq<Member<Json>>, repeated: bool, today: int)
    ensures Draws(members, repeated, today, InvalidComponents) <==> !exists texts :: GoodComponents(members, texts)
    ensures Draws(members, repeated, today, InvalidComponents) ==>
              !Draws(members, repeated, today, InvalidCrates) && !Draws(members, repeated, today, InvalidPackages)
  {
    ComponentBreaks(Judge(ReadEntry(Obj(members))), repeated, today);
    ComponentsAreTexts(members);
  }

  ghost predicate AllMatch(pieces: seq<Piece>, texts: seq<string>) { forall k :: 0 <= k < |texts| ==> Matches(pieces, texts[k]) }

  lemma CratesMatch(members: seq<Member<Json>>, texts: seq<string>)
    requires GoodComponents(members, texts)
    ensures EveryComponent(Lookup(members, "components"), CrateComponent) <==> AllMatch(CratePattern(), texts)
  {
    GoodAreRight(members, texts);
    forall k | 0 <= k < |texts|
      ensures CrateComponent(texts[k]) <==> Matches(CratePattern(), texts[k])
    {
      CrateIsPattern(texts[k]);
    }
  }

  lemma PackagesMatch(members: seq<Member<Json>>, texts: seq<string>)
    requires GoodComponents(members, texts)
    ensures EveryComponent(Lookup(members, "components"), PackageUrl) <==> AllMatch(PurlPattern(), texts)
  {
    GoodAreRight(members, texts);
    forall k | 0 <= k < |texts|
      ensures PackageUrl(texts[k]) <==> Matches(PurlPattern(), texts[k])
    {
      PurlIsPattern(texts[k]);
    }
  }

  /** For rustsec, components name crates with a version. */
  lemma CratesRule(members: seq<Member<Json>>, repeated: bool, today: int, texts: seq<string>)
    requires GoodComponents(members, texts)
    ensures Draws(members, repeated, today, InvalidCrates) <==>
            Lookup(members, "scanner") == Some(Str("rustsec")) && !AllMatch(CratePattern(), texts)
  {
    ComponentBreaks(Judge(ReadEntry(Obj(members))), repeated, today);
    GoodAreRight(members, texts);
    CratesMatch(members, texts);
  }

  /** For trivy, components are package URLs. */
  lemma PackagesRule(members: seq<Member<Json>>, repeated: bool, today: int, texts: seq<string>)
    requires GoodComponents(members, texts)
    ensures Draws(members, repeated, today, InvalidPackages) <==>
            Lookup(members, "scanner") == Some(Str("trivy")) && !AllMatch(PurlPattern(), texts)
  {
    ComponentBreaks(Judge(ReadEntry(Obj(members))), repeated, today);
    GoodAreRight(members, texts);
    PackagesMatch(members, texts);
    assert "rustsec"[0] != "trivy"[0];
  }

  lemma ReasonRule(members: seq<Member<Json>>, repeated: bool, today: int)
    ensures Draws(members, repeated, today, ShortReason) <==> !StringWith(members, "reason", LongReason)
  {
    TextBreaks(Judge(ReadEntry(Obj(members))), repeated, today);
  }

  lemma OwnerRule(members: seq<Member<Json>>, repeated: bool, today: int)
    ensures Draws(members, repeated, today, InvalidOwner) <==>
            !(StringMatching(members, "owner", UserPattern()) || StringMatching(members, "owner", TeamPattern()))
  {
    TextBreaks(Judge(ReadEntry(Obj(members))), repeated, today);
    var field := Lookup(members, "owner");
    if field.Some? && field.value.Str? {
      OwnerIsPattern(field.value.s);
    }
  }

  lemma TrackingIssueRule(members: seq<Member<Json>>, repeated: bool, today: int)
    ensures Draws(members, repeated, today, InvalidTrackingIssue) <==> !StringMatching(members, "tracking_issue", HttpsPattern())
  {
    TextBreaks(Judge(ReadEntry(Obj(members))), repeated, today);
    var field := Lookup(members, "tracking_issue");
    if field.Some? && field.value.Str? {
      HttpsIsPattern(field.value.s);
    }
  }

  /** The day a member names, if it is a string that names one. */
  function DayAt(members: seq<Member<Json>>, key: string): Option<int> {
    var field := Lookup(members, key);
    if field.Some? && field.value.Str? then ParseIsoDate(field.value.s) else None
  }

  lemma DateRules(members: seq<Member<Json>>, repeated: bool, today: int)
    ensures Draws(members, repeated, today, InvalidApproval) <==> DayAt(members, "approved_on").None?
    ensures Draws(members, repeated, today, InvalidExpiry) <==> DayAt(members, "expires_on").None?
  {
    DayBreaks(Judge(ReadEntry(Obj(members))), repeated, today);
  }

  /** From approval to expiry there are 1 to 30 days, and today is neither before the one nor on or after the other. */
  lemma LifetimeRules(members: seq<Member<Json>>, repeated: bool, today: int)
    ensures var approved, expires := DayAt(members, "approved_on"), DayAt(members, "expires_on");
            && (Draws(members, repeated, today, WrongLifetime) <==> WrongSpan(approved, expires))
            && (Draws(members, repeated, today, ApprovedLater) <==> Future(approved, expires, today))
            && (Draws(members, repeated, today, Expired) <==> Past(approved, expires, today))
  {
    DayBreaks(Judge(ReadEntry(Obj(members))), repeated, today);
  }
}
