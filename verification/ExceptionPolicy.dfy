/** The vulnerability-exception policy: JavaScript's coercions, the validator, and what it accepts. */
module ExceptionPolicy {
  import opened Calendar
  import opened Decimal
  import opened Json
  import opened JsObjects
  import opened Options
  import opened Ordering
  import opened Text

  // ----- Coercion to string

  /** String(value); None when the conversion throws, as it does for an object with its own "toString". */
  function ToText(value: Json): Option<string> {
    match value
    case Null => Some("null")
    case Bool(b) => Some(if b then "true" else "false")
    case Num(text) => Some(text)
    case Str(s) => Some(s)
    case Arr(items) => ItemsText(items)
    case Obj(members) => if Lookup(members, "toString").Some? then None else Some("[object Object]")
  }

  /** Array.prototype.join with commas; null elements print as nothing. */
  function ItemsText(items: seq<Json>): Option<string> {
    if items == [] then Some("")
    else
      var first := if items[0].Null? then Some("") else ToText(items[0]);
      var rest := ItemsText(items[1..]);
      if first.None? || rest.None? then None
      else Some(first.value + (if |items| == 1 then "" else "," + rest.value))
  }

  function FieldText(field: Option<Json>): Option<string> {
    match field
    case None => Some("undefined")
    case Some(value) => ToText(value)
  }

  /** String(value || ''); numbers count as false only when they print as 0. */
  function TextOrBlank(field: Option<Json>): Option<string> {
    match field
    case None => Some("")
    case Some(Null) => Some("")
    case Some(Bool(false)) => Some("")
    case Some(Num("0")) => Some("")
    case Some(value) => ToText(value)
  }

  // ----- The regular expressions

  predicate LetterOrDigit(c: char) { IsDigit(c) || 'a' <= c <= 'z' || 'A' <= c <= 'Z' }

  predicate IsWord(c: char) { LetterOrDigit(c) || c == '_' || c == '-' }

  predicate IsName(c: char) { IsWord(c) || c == '.' }

  predicate IsPurlType(c: char) { IsDigit(c) || 'a' <= c <= 'z' || c == '.' || c == '+' || c == '-' }

  predicate AllOf(p: char -> bool, s: string) { s != [] && forall i :: 0 <= i < |s| ==> p(s[i]) }

  predicate NoSpaces(s: string) { s != [] && forall i :: 0 <= i < |s| ==> !IsSpace(s[i]) }

  predicate StartsWith(s: string, prefix: string) { |prefix| <= |s| && s[..|prefix|] == prefix }

  predicate RustsecId(s: string) {
    |s| == 17 && s[..8] == "RUSTSEC-" && AllDigits(s[8..12]) && s[12] == '-' && AllDigits(s[13..])
  }

  predicate TrivyId(s: string) { 6 <= |s| <= 128 && LetterOrDigit(s[0]) && AllOf(IsName, s) }

  /** A part made of `p` characters, the separator, and a second part; `p` excludes the separator. */
  predicate TwoParts(s: string, separator: char, p: char -> bool, second: string -> bool) {
    var k := FirstOf(s, separator);
    k < |s| && AllOf(p, s[..k]) && second(s[k + 1..])
  }

  predicate CrateComponent(s: string) { StartsWith(s, "crate:") && TwoParts(s[6..], '@', IsWord, NoSpaces) }

  predicate PackageUrl(s: string) { StartsWith(s, "pkg:") && TwoParts(s[4..], '/', IsPurlType, NoSpaces) }

  predicate IsPlainName(s: string) { AllOf(IsName, s) }

  predicate OwnerHandle(s: string) {
    StartsWith(s, "@") && (IsPlainName(s[1..]) || TwoParts(s[1..], '/', IsName, IsPlainName))
  }

  predicate HttpsUrl(s: string) { StartsWith(s, "https://") && NoSpaces(s[8..]) }

  /** String length in UTF-16 code units. */
  function Units(s: string): nat {
    if s == [] then 0 else (if s[0] as int >= 0x10000 then 2 else 1) + Units(s[1..])
  }

  // ----- One entry

  /** The complaints about one entry, in the order the validator makes them. */
  datatype Rule =
    | NotAnObject | WrongFields | WrongScanner | InvalidId | Duplicate
    | InvalidComponents | InvalidCrates | InvalidPackages
    | ShortReason | InvalidOwner | InvalidTrackingIssue
    | InvalidApproval | InvalidExpiry | WrongLifetime | ApprovedLater | Expired

  const FIELD_NAMES: seq<string> :=
    ["approved_on", "components", "expires_on", "id", "owner", "reason", "scanner", "tracking_issue"]

  /** An element of the exceptions array as the validator reads it: its field names, and the fields it asks for. */
  datatype Entry = NoObject | Entry(
    names: seq<string>, scanner: Option<Json>, id: Option<Json>, components: Option<Json>, reason: Option<Json>,
    owner: Option<Json>, trackingIssue: Option<Json>, approvedOn: Option<Json>, expiresOn: Option<Json>)

  function NameOf(member: Member<Json>): string { member.key }

  function ReadEntry(value: Json): Entry {
    if !value.Obj? then NoObject
    else
      Entry(
        Map(NameOf, value.members), Lookup(value.members, "scanner"), Lookup(value.members, "id"),
        Lookup(value.members, "components"), Lookup(value.members, "reason"), Lookup(value.members, "owner"),
        Lookup(value.members, "tracking_issue"), Lookup(value.members, "approved_on"), Lookup(value.members, "expires_on"))
  }

  predicate FieldsJoinRight(names: seq<string>, allowed: seq<string>) {
    Join(Sort(LexLess, names), '\0') == Join(allowed, '\0')
  }

  /** scanner:id, the text duplicates are found by. */
  function Identity(scanner: Option<Json>, id: Option<Json>): Option<string> {
    var left, right := FieldText(scanner), FieldText(id);
    if left.Some? && right.Some? then Some(left.value + ":" + right.value) else None
  }

  predicate IsRustsec(scanner: Option<Json>) { scanner == Some(Str("rustsec")) }

  predicate IsTrivy(scanner: Option<Json>) { scanner == Some(Str("trivy")) }

  predicate FieldsRight(entry: Entry)
    requires entry.Entry?
  {
    FieldsJoinRight(entry.names, FIELD_NAMES)
  }

  predicate ScannerKnown(entry: Entry)
    requires entry.Entry?
  {
    IsRustsec(entry.scanner) || IsTrivy(entry.scanner)
  }

  predicate IdRight(entry: Entry)
    requires entry.Entry?
  {
    var text := TextOrBlank(entry.id);
    text.Some? && if IsRustsec(entry.scanner) then RustsecId(text.value) else TrivyId(text.value)
  }

  /** A non-empty array of distinct non-empty strings. */
  predicate ComponentsRight(components: Option<Json>) {
    && components.Some? && components.value.Arr? && components.value.items != []
    && (forall i :: 0 <= i < |components.value.items| ==>
          components.value.items[i].Str? && components.value.items[i].s != [])
    && (forall i, j :: 0 <= i < j < |components.value.items| ==> components.value.items[i] != components.value.items[j])
  }

  predicate EveryComponent(components: Option<Json>, p: string -> bool) {
    ComponentsRight(components) &&
    forall i :: 0 <= i < |components.value.items| ==> p(components.value.items[i].s)
  }

  /** A string with the property. */
  predicate TextWith(field: Option<Json>, p: string -> bool) { field.Some? && field.value.Str? && p(field.value.s) }

  predicate LongReason(s: string) { Units(Trim(s)) >= 32 }

  predicate ReasonLong(entry: Entry)
    requires entry.Entry?
  {
    TextWith(entry.reason, LongReason)
  }

  predicate OwnerRight(entry: Entry)
    requires entry.Entry?
  {
    TextWith(entry.owner, OwnerHandle)
  }

  predicate TrackingIssueRight(entry: Entry)
    requires entry.Entry?
  {
    TextWith(entry.trackingIssue, HttpsUrl)
  }

  /** parseIsoDate of a field: anything but a string is no date. */
  function FieldDay(field: Option<Json>): Option<int> {
    if field.Some? && field.value.Str? then ParseIsoDate(field.value.s) else None
  }

  /** What the validator finds out about one element of the array before it reports anything. */
  datatype Judgement = NotJudged | Judged(
    identity: Option<string>, fieldsRight: bool, scannerKnown: bool, idRight: bool, components: ComponentFacts,
    reasonLong: bool, ownerRight: bool, trackingIssueRight: bool, approved: Option<int>, expires: Option<int>)

  function Judge(entry: Entry): Judgement {
    if entry.NoObject? then NotJudged
    else
      Judged(
        Identity(entry.scanner, entry.id), FieldsRight(entry), ScannerKnown(entry), IdRight(entry),
        ComponentFactsOf(entry.scanner, entry.components),
        ReasonLong(entry), OwnerRight(entry), TrackingIssueRight(entry),
        FieldDay(entry.approvedOn), FieldDay(entry.expiresOn))
  }

  predicate BreaksIdentity(fieldsRight: bool, scannerKnown: bool, idRight: bool, repeated: bool, rule: Rule) {
    match rule
    case WrongFields => !fieldsRight
    case WrongScanner => !scannerKnown
    case InvalidId => !idRight
    case Duplicate => repeated
    case _ => false
  }

  datatype ComponentFacts = ComponentFacts(right: bool, rustsec: bool, trivy: bool, crates: bool, packages: bool)

  function ComponentFactsOf(scanner: Option<Json>, components: Option<Json>): ComponentFacts {
    ComponentFacts(
      ComponentsRight(components), IsRustsec(scanner), IsTrivy(scanner),
      EveryComponent(components, CrateComponent), EveryComponent(components, PackageUrl))
  }

  predicate BreaksComponents(facts: ComponentFacts, rule: Rule) {
    match rule
    case InvalidComponents => !facts.right
    case InvalidCrates => facts.right && facts.rustsec && !facts.crates
    case InvalidPackages => facts.right && !(facts.rustsec && !facts.crates) && facts.trivy && !facts.packages
    case _ => false
  }

  predicate BreaksTexts(reasonLong: bool, ownerRight: bool, trackingIssueRight: bool, rule: Rule) {
    match rule
    case ShortReason => !reasonLong
    case InvalidOwner => !ownerRight
    case InvalidTrackingIssue => !trackingIssueRight
    case _ => false
  }

  /** The rules about the two days, None standing for a date that does not parse. */
  predicate BreaksDays(approved: Option<int>, expires: Option<int>, today: int, rule: Rule) {
    match rule
    case InvalidApproval => approved.None?
    case InvalidExpiry => expires.None?
    case WrongLifetime => approved.Some? && expires.Some? && !(1 <= expires.value - approved.value <= 30)
    case ApprovedLater => approved.Some? && expires.Some? && approved.value > today
    case Expired => approved.Some? && expires.Some? && expires.value <= today
    case _ => false
  }

  /** Whether an entry so judged breaks a rule; `repeated` says that an earlier entry has its identity. */
  predicate Breaks(j: Judgement, repeated: bool, today: int, rule: Rule) {
    if j.NotJudged? then rule == NotAnObject
    else
      BreaksIdentity(j.fieldsRight, j.scannerKnown, j.idRight, repeated, rule)
      || BreaksComponents(j.components, rule)
      || BreaksTexts(j.reasonLong, j.ownerRight, j.trackingIssueRight, rule)
      || BreaksDays(j.approved, j.expires, today, rule)
  }

  function Also(before: seq<Rule>, broken: bool, rule: Rule): (r: seq<Rule>)
    ensures forall other :: other in r <==> other in before || (broken && other == rule)
  {
    if broken then before + [rule] else before
  }

  function IdentityFaults(before: seq<Rule>, fieldsRight: bool, scannerKnown: bool, idRight: bool, repeated: bool): seq<Rule> {
    var e1 := Also(before, BreaksIdentity(fieldsRight, scannerKnown, idRight, repeated, WrongFields), WrongFields);
    var e2 := Also(e1, BreaksIdentity(fieldsRight, scannerKnown, idRight, repeated, WrongScanner), WrongScanner);
    var e3 := Also(e2, BreaksIdentity(fieldsRight, scannerKnown, idRight, repeated, InvalidId), InvalidId);
    Also(e3, BreaksIdentity(fieldsRight, scannerKnown, idRight, repeated, Duplicate), Duplicate)
  }

  function ComponentFaults(before: seq<Rule>, facts: ComponentFacts): seq<Rule> {
    var e1 := Also(before, BreaksComponents(facts, InvalidComponents), InvalidComponents);
    var e2 := Also(e1, BreaksComponents(facts, InvalidCrates), InvalidCrates);
    Also(e2, BreaksComponents(facts, InvalidPackages), InvalidPackages)
  }

  function TextFaults(before: seq<Rule>, reasonLong: bool, ownerRight: bool, trackingIssueRight: bool): seq<Rule> {
    var e1 := Also(before, BreaksTexts(reasonLong, ownerRight, trackingIssueRight, ShortReason), ShortReason);
    var e2 := Also(e1, BreaksTexts(reasonLong, ownerRight, trackingIssueRight, InvalidOwner), InvalidOwner);
    Also(e2, BreaksTexts(reasonLong, ownerRight, trackingIssueRight, InvalidTrackingIssue), InvalidTrackingIssue)
  }

  function DayFaults(before: seq<Rule>, approved: Option<int>, expires: Option<int>, today: int): seq<Rule> {
    var e1 := Also(before, BreaksDays(approved, expires, today, InvalidApproval), InvalidApproval);
    var e2 := Also(e1, BreaksDays(approved, expires, today, InvalidExpiry), InvalidExpiry);
    var e3 := Also(e2, BreaksDays(approved, expires, today, WrongLifetime), WrongLifetime);
    var e4 := Also(e3, BreaksDays(approved, expires, today, ApprovedLater), ApprovedLater);
    Also(e4, BreaksDays(approved, expires, today, Expired), Expired)
  }

  /** The complaints about one entry, in order. */
  function Broken(j: Judgement, repeated: bool, today: int): seq<Rule> {
    if j.NotJudged? then [NotAnObject]
    else
      var e1 := IdentityFaults([], j.fieldsRight, j.scannerKnown, j.idRight, repeated);
      var e2 := ComponentFaults(e1, j.components);
      var e3 := TextFaults(e2, j.reasonLong, j.ownerRight, j.trackingIssueRight);
      DayFaults(e3, j.approved, j.expires, today)
  }

  lemma IdentityFaultsExactly(before: seq<Rule>, fieldsRight: bool, scannerKnown: bool, idRight: bool, repeated: bool, rule: Rule)
    ensures rule in IdentityFaults(before, fieldsRight, scannerKnown, idRight, repeated) <==>
            rule in before || BreaksIdentity(fieldsRight, scannerKnown, idRight, repeated, rule)
  {}

  lemma ComponentFaultsExactly(before: seq<Rule>, facts: ComponentFacts, rule: Rule)
    ensures rule in ComponentFaults(before, facts) <==> rule in before || BreaksComponents(facts, rule)
  {}

  lemma TextFaultsExactly(before: seq<Rule>, reasonLong: bool, ownerRight: bool, trackingIssueRight: bool, rule: Rule)
    ensures rule in TextFaults(before, reasonLong, ownerRight, trackingIssueRight) <==>
            rule in before || BreaksTexts(reasonLong, ownerRight, trackingIssueRight, rule)
  {}

  lemma DayFaultsExactly(before: seq<Rule>, approved: Option<int>, expires: Option<int>, today: int, rule: Rule)
    ensures rule in DayFaults(before, approved, expires, today) <==>
            rule in before || BreaksDays(approved, expires, today, rule)
  {}

  /** The list of complaints is exactly the broken rules. */
  lemma BrokenExactly(j: Judgement, repeated: bool, today: int, rule: Rule)
    ensures rule in Broken(j, repeated, today) <==> Breaks(j, repeated, today, rule)
  {
    if j.Judged? {
      var e1 := IdentityFaults([], j.fieldsRight, j.scannerKnown, j.idRight, repeated);
      var e2 := ComponentFaults(e1, j.components);
      var e3 := TextFaults(e2, j.reasonLong, j.ownerRight, j.trackingIssueRight);
      IdentityFaultsExactly([], j.fieldsRight, j.scannerKnown, j.idRight, repeated, rule);
      ComponentFaultsExactly(e1, j.components, rule);
      TextFaultsExactly(e2, j.reasonLong, j.ownerRight, j.trackingIssueRight, rule);
      DayFaultsExactly(e3, j.approved, j.expires, today, rule);
    }
  }

  // ----- The validator

  datatype Error = NotObject | SchemaVersion | ExceptionsNotArray | InEntry(index: nat, rule: Rule)

  datatype Outcome = Threw | Errors(errors: seq<Error>)

  function AtIndex(index: nat): Rule -> Error { rule => InEntry(index, rule) }

  /** What an entry is remembered by; None for what is not an object, which is not remembered. */
  function Remembered(j: Judgement): Option<string> { if j.Judged? then j.identity else None }

  function Identities(judgements: seq<Judgement>): (r: seq<Option<string>>)
    ensures |r| == |judgements|
  {
    Map(Remembered, judgements)
  }

  /** An earlier entry has the same identity. */
  ghost predicate Repeated(identities: seq<Option<string>>, i: nat)
    requires i < |identities|
  {
    identities[i].Some? && exists j :: 0 <= j < i && identities[j] == identities[i]
  }

  /** For each entry, what is wrong with it. */
  ghost function BrokenLists(judgements: seq<Judgement>, today: int): (r: seq<seq<Rule>>)
    ensures |r| == |judgements|
  {
    seq(|judgements|, i requires 0 <= i < |judgements| => Broken(judgements[i], Repeated(Identities(judgements), i), today))
  }

  lemma BrokenListAt(judgements: seq<Judgement>, today: int, i: nat)
    requires i < |judgements|
    ensures BrokenLists(judgements, today)[i] == Broken(judgements[i], Repeated(Identities(judgements), i), today)
  {}

  /** The complaints about the first `n` judgements, entry by entry. */
  ghost function Report(lists: seq<seq<Rule>>, n: nat): seq<Error>
    requires n <= |lists|
  {
    if n == 0 then [] else Report(lists, n - 1) + Map(AtIndex(n - 1), lists[n - 1])
  }

  /** Printing the identity throws. */
  predicate Throws(j: Judgement) { j.Judged? && j.identity.None? }

  predicate AnyThrows(judgements: seq<Judgement>) { exists i :: 0 <= i < |judgements| && Throws(judgements[i]) }

  predicate VersionRight(policy: Json) { policy.Obj? && Lookup(policy.members, "schema_version") == Some(Num("1")) }

  predicate ListsExceptions(policy: Json) {
    policy.Obj? && var exceptions := Lookup(policy.members, "exceptions"); exceptions.Some? && exceptions.value.Arr?
  }

  /** The exceptions of a policy; none when there is no such array. */
  function ExceptionsOf(policy: Json): seq<Json> {
    if ListsExceptions(policy) then Lookup(policy.members, "exceptions").value.items else []
  }

  function EntriesOf(policy: Json): seq<Entry> { Map(ReadEntry, ExceptionsOf(policy)) }

  function JudgementsOf(policy: Json): seq<Judgement> { Map(Judge, EntriesOf(policy)) }

  ghost function Verdict(judgements: seq<Judgement>, today: int): Outcome {
    if AnyThrows(judgements) then Threw else Errors(Report(BrokenLists(judgements, today), |judgements|))
  }

  ghost function Validation(policy: Json, today: int): Outcome {
    if !policy.Obj? then Errors([NotObject])
    else
      var version := if VersionRight(policy) then [] else [SchemaVersion];
      if !ListsExceptions(policy) then Errors(version + [ExceptionsNotArray])
      else
        match Verdict(JudgementsOf(policy), today)
        case Threw => Threw
        case Errors(errors) => Errors(version + errors)
  }

  method CheckIdentity(fieldsRight: bool, scannerKnown: bool, idRight: bool, repeated: bool) returns (broken: seq<Rule>)
    ensures broken == IdentityFaults([], fieldsRight, scannerKnown, idRight, repeated)
  {
    broken := [];
    if !fieldsRight {
      broken := broken + [WrongFields];
    }
    if !scannerKnown {
      broken := broken + [WrongScanner];
    }
    if !idRight {
      broken := broken + [InvalidId];
    }
    if repeated {
      broken := broken + [Duplicate];
    }
  }

  method CheckComponents(before: seq<Rule>, facts: ComponentFacts) returns (broken: seq<Rule>)
    ensures broken == ComponentFaults(before, facts)
  {
    broken := before;
    if !facts.right {
      broken := broken + [InvalidComponents];
    } else if facts.rustsec && !facts.crates {
      broken := broken + [InvalidCrates];
    } else if facts.trivy && !facts.packages {
      broken := broken + [InvalidPackages];
    }
  }

  method CheckTexts(before: seq<Rule>, reasonLong: bool, ownerRight: bool, trackingIssueRight: bool) returns (broken: seq<Rule>)
    ensures broken == TextFaults(before, reasonLong, ownerRight, trackingIssueRight)
  {
    broken := before;
    if !reasonLong {
      broken := broken + [ShortReason];
    }
    if !ownerRight {
      broken := broken + [InvalidOwner];
    }
    if !trackingIssueRight {
      broken := broken + [InvalidTrackingIssue];
    }
  }

  method CheckDays(before: seq<Rule>, approved: Option<int>, expires: Option<int>, today: int) returns (broken: seq<Rule>)
    ensures broken == DayFaults(before, approved, expires, today)
  {
    broken := before;
    if approved.None? {
      broken := broken + [InvalidApproval];
    }
    if expires.None? {
      broken := broken + [InvalidExpiry];
    }
    if approved.Some? && expires.Some? {
      var lifetime := expires.value - approved.value;
      if lifetime <= 0 || lifetime > 30 {
        broken := broken + [WrongLifetime];
      }
      if approved.value > today {
        broken := broken + [ApprovedLater];
      }
      if expires.value <= today {
        broken := broken + [Expired];
      }
    }
  }

  method CheckEntry(j: Judgement, repeated: bool, today: int) returns (broken: seq<Rule>)
    ensures broken == Broken(j, repeated, today)
  {
    if j.NotJudged? {
      return [NotAnObject];
    }
    broken := CheckIdentity(j.fieldsRight, j.scannerKnown, j.idRight, repeated);
    broken := CheckComponents(broken, j.components);
    broken := CheckTexts(broken, j.reasonLong, j.ownerRight, j.trackingIssueRight);
    broken := CheckDays(broken, j.approved, j.expires, today);
  }

  /** The identities recorded after the first `n` judgements. */
  ghost predicate SeenUpTo(identities: seq<Option<string>>, n: nat, seen: set<string>)
    requires n <= |identities|
  {
    forall identity :: identity in seen <==> Some(identity) in identities[..n]
  }

  lemma SeenNext(identities: seq<Option<string>>, n: nat, seen: set<string>)
    requires n < |identities| && SeenUpTo(identities, n, seen)
    ensures identities[n].None? ==> SeenUpTo(identities, n + 1, seen)
    ensures identities[n].Some? ==> SeenUpTo(identities, n + 1, seen + {identities[n].value})
    ensures identities[n].Some? ==> (identities[n].value in seen <==> Repeated(identities, n))
    ensures identities[n].None? ==> !Repeated(identities, n)
  {
    assert identities[..n + 1] == identities[..n] + [identities[n]];
    assert Some(identities[n]) == Some(identities[n]);
  }

  method CheckItem(judgements: seq<Judgement>, index: nat, seen: set<string>, before: seq<Error>, today: int)
    returns (recorded: set<string>, errors: seq<Error>)
    requires index < |judgements| && !Throws(judgements[index])
    requires SeenUpTo(Identities(judgements), index, seen) && before == Report(BrokenLists(judgements, today), index)
    ensures SeenUpTo(Identities(judgements), index + 1, recorded) && errors == Report(BrokenLists(judgements, today), index + 1)
  {
    ghost var identities := Identities(judgements);
    SeenNext(identities, index, seen);
    BrokenListAt(judgements, today, index);
    var repeated := false;
    recorded := seen;
    var identity := Remembered(judgements[index]);
    assert identity == identities[index];
    if identity.Some? {
      repeated := identity.value in seen;
      recorded := seen + {identity.value};
    }
    var broken := CheckEntry(judgements[index], repeated, today);
    errors := before + Map(AtIndex(index), broken);
  }

  /** The loop of validateVulnerabilityExceptions. */
  method CheckEntries(judgements: seq<Judgement>, today: int) returns (outcome: Outcome)
    ensures outcome == Verdict(judgements, today)
  {
    var errors: seq<Error> := [];
    var seen: set<string> := {};
    for index := 0 to |judgements|
      invariant SeenUpTo(Identities(judgements), index, seen)
      invariant forall i :: 0 <= i < index ==> !Throws(judgements[i])
      invariant errors == Report(BrokenLists(judgements, today), index)
    {
      if Throws(judgements[index]) {
        return Threw;
      }
      seen, errors := CheckItem(judgements, index, seen, errors, today);
    }
    return Errors(errors);
  }

  /** validateVulnerabilityExceptions, on the day `today`. */
  method ValidateVulnerabilityExceptions(policy: Json, today: int) returns (outcome: Outcome)
    ensures outcome == Validation(policy, today)
  {
    if !policy.Obj? {
      return Errors([NotObject]);
    }
    var errors := [];
    if !VersionRight(policy) {
      errors := [SchemaVersion];
    }
    if !ListsExceptions(policy) {
      return Errors(errors + [ExceptionsNotArray]);
    }
    outcome := CheckEntries(JudgementsOf(policy), today);
    if outcome.Errors? {
      outcome := Errors(errors + outcome.errors);
    }
  }
}
