/**
 The policy's regular expressions as they are written, and what it means to match them: a sequence of
 character classes, each repeated so many times. The validator's tests are proved to be these matches.
 */
module Patterns {
  import opened Decimal
  import opened ExceptionPolicy
  import opened Options
  import opened Text

  /** The characters in some of the ranges, or in none of them. */
  datatype Class = OneOf(ranges: seq<(char, char)>) | NoneOf(ranges: seq<(char, char)>)

  predicate InRanges(c: char, ranges: seq<(char, char)>) { exists i :: 0 <= i < |ranges| && ranges[i].0 <= c <= ranges[i].1 }

  predicate InClass(c: char, class_: Class) {
    match class_
    case OneOf(ranges) => InRanges(c, ranges)
    case NoneOf(ranges) => !InRanges(c, ranges)
  }

  /** A class repeated at least `least` times, and at most `most` times if there is a limit. */
  datatype Piece = Piece(class_: Class, least: nat, most: Option<nat>)

  predicate AllIn(s: string, class_: Class) { forall i :: 0 <= i < |s| ==> InClass(s[i], class_) }

  /** The whole text matches the pieces in turn. */
  ghost predicate Matches(pieces: seq<Piece>, s: string) {
    if pieces == [] then s == []
    else
      exists n ::
        && 0 <= n <= |s| && n >= pieces[0].least && (pieces[0].most.Some? ==> n <= pieces[0].most.value)
        && AllIn(s[..n], pieces[0].class_) && Matches(pieces[1..], s[n..])
  }

  function Exactly(c: char): Piece { Piece(OneOf([(c, c)]), 1, Some(1)) }

  function Literal(text: string): seq<Piece> {
    if text == [] then [] else [Exactly(text[0])] + Literal(text[1..])
  }

  function Many(class_: Class): Piece { Piece(class_, 1, None) }

  // ----- The classes and expressions of the source

  /** \d */
  const DIGIT := OneOf([('0', '9')])

  /** [A-Za-z0-9] */
  const ALPHANUMERIC := OneOf([('A', 'Z'), ('a', 'z'), ('0', '9')])

  /** [A-Za-z0-9._-] and [A-Za-z0-9_.-] */
  const NAME_CHARACTER := OneOf([('A', 'Z'), ('a', 'z'), ('0', '9'), ('.', '.'), ('_', '_'), ('-', '-')])

  /** [A-Za-z0-9_-] */
  const WORD_CHARACTER := OneOf([('A', 'Z'), ('a', 'z'), ('0', '9'), ('_', '_'), ('-', '-')])

  /** [a-z0-9.+-] */
  const PURL_CHARACTER := OneOf([('a', 'z'), ('0', '9'), ('.', '.'), ('+', '+'), ('-', '-')])

  /** \S: neither white space nor a line terminator (section 22.2.2 of ECMA-262). */
  const NON_SPACE := NoneOf([
    ('\t', '\r'), (' ', ' '), ('\U{A0}', '\U{A0}'), ('\U{1680}', '\U{1680}'), ('\U{2000}', '\U{200A}'), ('\U{2028}', '\U{2029}'),
    ('\U{202F}', '\U{202F}'), ('\U{205F}', '\U{205F}'), ('\U{3000}', '\U{3000}'), ('\U{FEFF}', '\U{FEFF}')])

  /** ^RUSTSEC-\d{4}-\d{4}$ */
  function RustsecPattern(): seq<Piece> {
    Literal("RUSTSEC-") + ([Piece(DIGIT, 4, Some(4))] + ([Exactly('-')] + [Piece(DIGIT, 4, Some(4))]))
  }

  /** ^[A-Za-z0-9][A-Za-z0-9._-]{5,127}$ */
  function TrivyPattern(): seq<Piece> {
    [Piece(ALPHANUMERIC, 1, Some(1))] + [Piece(NAME_CHARACTER, 5, Some(127))]
  }

  /** ^crate:[A-Za-z0-9_-]+@\S+$ */
  function CratePattern(): seq<Piece> {
    Literal("crate:") + ([Many(WORD_CHARACTER)] + ([Exactly('@')] + [Many(NON_SPACE)]))
  }

  /** ^pkg:[a-z0-9.+-]+\/\S+$ */
  function PurlPattern(): seq<Piece> {
    Literal("pkg:") + ([Many(PURL_CHARACTER)] + ([Exactly('/')] + [Many(NON_SPACE)]))
  }

  /** ^@[A-Za-z0-9_.-]+$, the owner without the optional group. */
  function UserPattern(): seq<Piece> { Literal("@") + [Many(NAME_CHARACTER)] }

  /** The owner with the group: ^@[A-Za-z0-9_.-]+\/[A-Za-z0-9_.-]+$ */
  function TeamPattern(): seq<Piece> {
    Literal("@") + ([Many(NAME_CHARACTER)] + ([Exactly('/')] + [Many(NAME_CHARACTER)]))
  }

  /** ^https:\/\/\S+$ */
  function HttpsPattern(): seq<Piece> { Literal("https://") + [Many(NON_SPACE)] }

  // ----- Matching piece by piece

  lemma MatchFixed(class_: Class, n: nat, rest: seq<Piece>, s: string)
    ensures Matches([Piece(class_, n, Some(n))] + rest, s) <==> n <= |s| && AllIn(s[..n], class_) && Matches(rest, s[n..])
  {
    assert ([Piece(class_, n, Some(n))] + rest)[1..] == rest;
  }

  lemma MatchOne(c: char, rest: seq<Piece>, s: string)
    ensures Matches([Exactly(c)] + rest, s) <==> s != [] && s[0] == c && Matches(rest, s[1..])
  {
    MatchFixed(OneOf([(c, c)]), 1, rest, s);
    assert s != [] ==> s[..1] == [s[0]];
    assert [(c, c)][0] == (c, c);
  }

  lemma {:induction false} MatchLiteral(text: string, rest: seq<Piece>, s: string)
    ensures Matches(Literal(text) + rest, s) <==> StartsWith(s, text) && Matches(rest, s[|text|..])
    decreases |text|
  {
    if text == [] {
      assert Literal(text) + rest == rest && s[..0] == "" && s[0..] == s;
    } else {
      assert Literal(text) + rest == [Exactly(text[0])] + (Literal(text[1..]) + rest);
      MatchOne(text[0], Literal(text[1..]) + rest, s);
      if s != [] {
        MatchLiteral(text[1..], rest, s[1..]);
        StartsCons(s, text);
      }
    }
  }

  lemma StartsCons(s: string, text: string)
    requires s != [] && text != []
    ensures StartsWith(s, text) <==> s[0] == text[0] && StartsWith(s[1..], text[1..])
    ensures |text| <= |s| ==> s[1..][|text| - 1..] == s[|text|..]
  {
    if |text| <= |s| {
      assert s[..|text|] == [s[0]] + s[1..][..|text| - 1];
      assert text == [text[0]] + text[1..];
    }
  }

  lemma MatchMany(class_: Class, s: string)
    ensures Matches([Many(class_)], s) <==> s != [] && AllIn(s, class_)
  {
    assert [Many(class_)][1..] == [];
    assert s[..|s|] == s && s[|s|..] == [];
  }

  /** A repeated class that excludes the separator ends at the first separator. */
  lemma MatchManyThen(class_: Class, separator: char, rest: seq<Piece>, s: string)
    requires !InClass(separator, class_)
    ensures Matches([Many(class_)] + ([Exactly(separator)] + rest), s) <==>
            var k := FirstOf(s, separator); 0 < k < |s| && AllIn(s[..k], class_) && Matches(rest, s[k + 1..])
  {
    var tail := [Exactly(separator)] + rest;
    var k := FirstOf(s, separator);
    assert ([Many(class_)] + tail)[1..] == tail;
    if n :| 0 < n <= |s| && AllIn(s[..n], class_) && Matches(tail, s[n..]) {
      MatchOne(separator, rest, s[n..]);
      EndsAtSeparator(class_, separator, s, n);
      assert s[n..][1..] == s[n + 1..];
    }
    if 0 < k < |s| && AllIn(s[..k], class_) && Matches(rest, s[k + 1..]) {
      MatchOne(separator, rest, s[k..]);
      assert s[k..][1..] == s[k + 1..];
    }
  }

  lemma EndsAtSeparator(class_: Class, separator: char, s: string, n: nat)
    requires n < |s| && s[n] == separator && AllIn(s[..n], class_) && !InClass(separator, class_)
    ensures FirstOf(s, separator) == n
  {
    forall i | 0 <= i < n
      ensures s[..n][i] != separator
    {}
    FirstOfIs(s, separator, n);
  }

  // ----- The classes

  lemma Classes(c: char)
    ensures InClass(c, DIGIT) <==> IsDigit(c)
    ensures InClass(c, ALPHANUMERIC) <==> LetterOrDigit(c)
    ensures InClass(c, WORD_CHARACTER) <==> IsWord(c)
  {
    assert DIGIT.ranges[0] == ('0', '9');
    assert ALPHANUMERIC.ranges[0] == ('A', 'Z') && ALPHANUMERIC.ranges[1] == ('a', 'z') && ALPHANUMERIC.ranges[2] == ('0', '9');
    assert WORD_CHARACTER.ranges[0] == ('A', 'Z') && WORD_CHARACTER.ranges[1] == ('a', 'z') && WORD_CHARACTER.ranges[2] == ('0', '9');
    assert WORD_CHARACTER.ranges[3] == ('_', '_') && WORD_CHARACTER.ranges[4] == ('-', '-');
  }

  lemma NameClass(c: char)
    ensures InClass(c, NAME_CHARACTER) <==> IsName(c)
  {
    var r := NAME_CHARACTER.ranges;
    assert r[0] == ('A', 'Z') && r[1] == ('a', 'z') && r[2] == ('0', '9') && r[3] == ('.', '.') && r[4] == ('_', '_') && r[5] == ('-', '-');
  }

  lemma PurlClass(c: char)
    ensures InClass(c, PURL_CHARACTER) <==> IsPurlType(c)
  {
    var r := PURL_CHARACTER.ranges;
    assert r[0] == ('a', 'z') && r[1] == ('0', '9') && r[2] == ('.', '.') && r[3] == ('+', '+') && r[4] == ('-', '-');
  }

  lemma SpaceClass(c: char)
    ensures InClass(c, NON_SPACE) <==> !IsSpace(c)
  {
    var r := NON_SPACE.ranges;
    assert r[0] == ('\t', '\r') && r[1] == (' ', ' ') && r[2] == ('\U{A0}', '\U{A0}') && r[3] == ('\U{1680}', '\U{1680}');
    assert r[4] == ('\U{2000}', '\U{200A}') && r[5] == ('\U{2028}', '\U{2029}') && r[6] == ('\U{202F}', '\U{202F}');
    assert r[7] == ('\U{205F}', '\U{205F}') && r[8] == ('\U{3000}', '\U{3000}') && r[9] == ('\U{FEFF}', '\U{FEFF}');
  }

  lemma AllInSame(s: string, class_: Class, p: char -> bool)
    requires forall c: char :: InClass(c, class_) <==> p(c)
    ensures AllIn(s, class_) <==> forall i :: 0 <= i < |s| ==> p(s[i])
  {}

  // ----- The tests of the validator are these matches

  lemma DigitsMatch(s: string)
    ensures Matches([Piece(DIGIT, 4, Some(4))], s) <==> |s| == 4 && AllDigits(s)
  {
    assert [Piece(DIGIT, 4, Some(4))] + [] == [Piece(DIGIT, 4, Some(4))];
    MatchFixed(DIGIT, 4, [], s);
    forall c: char
      ensures InClass(c, DIGIT) <==> IsDigit(c)
    {
      Classes(c);
    }
    assert |s| == 4 ==> s[..4] == s;
    assert |s| >= 4 ==> (s[4..] == [] <==> |s| == 4);
  }

  /** Four digits, a hyphen and four digits. */
  lemma NumberMatch(s: string)
    ensures Matches([Piece(DIGIT, 4, Some(4))] + ([Exactly('-')] + [Piece(DIGIT, 4, Some(4))]), s)
       <==> |s| == 9 && AllDigits(s[..4]) && s[4] == '-' && AllDigits(s[5..])
  {
    var last := [Piece(DIGIT, 4, Some(4))];
    MatchFixed(DIGIT, 4, [Exactly('-')] + last, s);
    forall c: char
      ensures InClass(c, DIGIT) <==> IsDigit(c)
    {
      Classes(c);
    }
    if |s| >= 4 {
      MatchOne('-', last, s[4..]);
      if |s| > 4 {
        assert s[4..][1..] == s[5..];
        DigitsMatch(s[5..]);
      }
    }
  }

  lemma RustsecIsPattern(s: string)
    ensures RustsecId(s) <==> Matches(RustsecPattern(), s)
  {
    MatchLiteral("RUSTSEC-", [Piece(DIGIT, 4, Some(4))] + ([Exactly('-')] + [Piece(DIGIT, 4, Some(4))]), s);
    if |s| >= 8 {
      NumberMatch(s[8..]);
      if |s| == 17 {
        RustsecParts(s);
      }
    }
  }

  lemma RustsecParts(s: string)
    requires |s| == 17
    ensures s[8..][..4] == s[8..12] && s[8..][4] == s[12] && s[8..][5..] == s[13..]
  {}

  lemma NameAll(s: string)
    ensures AllIn(s, NAME_CHARACTER) <==> forall i :: 0 <= i < |s| ==> IsName(s[i])
  {
    forall i | 0 <= i < |s|
      ensures InClass(s[i], NAME_CHARACTER) <==> IsName(s[i])
    {
      NameClass(s[i]);
    }
  }

  lemma SpacesAll(s: string)
    ensures s != [] && AllIn(s, NON_SPACE) <==> NoSpaces(s)
  {
    forall i | 0 <= i < |s|
      ensures InClass(s[i], NON_SPACE) <==> !IsSpace(s[i])
    {
      SpaceClass(s[i]);
    }
  }

  lemma RestOfNames(s: string)
    ensures Matches([Piece(NAME_CHARACTER, 5, Some(127))], s) <==> 5 <= |s| <= 127 && AllIn(s, NAME_CHARACTER)
  {
    assert [Piece(NAME_CHARACTER, 5, Some(127))][1..] == [];
    assert s[..|s|] == s && s[|s|..] == [];
  }

  lemma TrivyIsPattern(s: string)
    ensures TrivyId(s) <==> Matches(TrivyPattern(), s)
  {
    MatchFixed(ALPHANUMERIC, 1, [Piece(NAME_CHARACTER, 5, Some(127))], s);
    if s != [] {
      RestOfNames(s[1..]);
      NameAll(s[1..]);
      FirstAlphanumeric(s);
      if LetterOrDigit(s[0]) {
        TrivyParts(s);
      }
    }
  }

  lemma FirstAlphanumeric(s: string)
    requires s != []
    ensures AllIn(s[..1], ALPHANUMERIC) <==> LetterOrDigit(s[0])
  {
    Classes(s[0]);
    assert s[..1] == [s[0]];
  }

  lemma TrivyParts(s: string)
    requires s != [] && LetterOrDigit(s[0])
    ensures AllOf(IsName, s) <==> forall i :: 0 <= i < |s[1..]| ==> IsName(s[1..][i])
  {
    assert s == [s[0]] + s[1..];
  }

  lemma WordsAll(s: string)
    ensures s != [] && AllIn(s, WORD_CHARACTER) <==> AllOf(IsWord, s)
  {
    forall i | 0 <= i < |s|
      ensures InClass(s[i], WORD_CHARACTER) <==> IsWord(s[i])
    {
      Classes(s[i]);
    }
  }

  lemma PurlsAll(s: string)
    ensures s != [] && AllIn(s, PURL_CHARACTER) <==> AllOf(IsPurlType, s)
  {
    forall i | 0 <= i < |s|
      ensures InClass(s[i], PURL_CHARACTER) <==> IsPurlType(s[i])
    {
      PurlClass(s[i]);
    }
  }

  lemma CrateIsPattern(s: string)
    ensures CrateComponent(s) <==> Matches(CratePattern(), s)
  {
    MatchLiteral("crate:", [Many(WORD_CHARACTER)] + ([Exactly('@')] + [Many(NON_SPACE)]), s);
    if |s| >= 6 {
      var t := s[6..];
      Classes('@');
      MatchManyThen(WORD_CHARACTER, '@', [Many(NON_SPACE)], t);
      var k := FirstOf(t, '@');
      WordsAll(t[..k]);
      if k < |t| {
        MatchMany(NON_SPACE, t[k + 1..]);
        SpacesAll(t[k + 1..]);
      }
    }
  }

  lemma PurlIsPattern(s: string)
    ensures PackageUrl(s) <==> Matches(PurlPattern(), s)
  {
    MatchLiteral("pkg:", [Many(PURL_CHARACTER)] + ([Exactly('/')] + [Many(NON_SPACE)]), s);
    if |s| >= 4 {
      var t := s[4..];
      PurlClass('/');
      MatchManyThen(PURL_CHARACTER, '/', [Many(NON_SPACE)], t);
      var k := FirstOf(t, '/');
      PurlsAll(t[..k]);
      if k < |t| {
        MatchMany(NON_SPACE, t[k + 1..]);
        SpacesAll(t[k + 1..]);
      }
    }
  }

  lemma UserIsPattern(s: string)
    ensures Matches(UserPattern(), s) <==> StartsWith(s, "@") && IsPlainName(s[1..])
  {
    MatchLiteral("@", [Many(NAME_CHARACTER)], s);
    if |s| >= 1 {
      MatchMany(NAME_CHARACTER, s[1..]);
      NameAll(s[1..]);
    }
  }

  lemma TeamIsPattern(s: string)
    ensures Matches(TeamPattern(), s) <==> StartsWith(s, "@") && TwoParts(s[1..], '/', IsName, IsPlainName)
  {
    MatchLiteral("@", [Many(NAME_CHARACTER)] + ([Exactly('/')] + [Many(NAME_CHARACTER)]), s);
    if |s| >= 1 {
      var t := s[1..];
      NameClass('/');
      MatchManyThen(NAME_CHARACTER, '/', [Many(NAME_CHARACTER)], t);
      var k := FirstOf(t, '/');
      NameAll(t[..k]);
      if k < |t| {
        MatchMany(NAME_CHARACTER, t[k + 1..]);
        NameAll(t[k + 1..]);
      }
    }
  }

  lemma OwnerIsPattern(s: string)
    ensures OwnerHandle(s) <==> Matches(UserPattern(), s) || Matches(TeamPattern(), s)
  {
    UserIsPattern(s);
    TeamIsPattern(s);
  }

  lemma HttpsIsPattern(s: string)
    ensures HttpsUrl(s) <==> Matches(HttpsPattern(), s)
  {
    MatchLiteral("https://", [Many(NON_SPACE)], s);
    if |s| >= 8 {
      MatchMany(NON_SPACE, s[8..]);
      SpacesAll(s[8..]);
    }
  }

  // ----- The length of the trimmed reason

  lemma {:induction false} UnitsOfPlain(s: string)
    requires forall i :: 0 <= i < |s| ==> s[i] as int < 0x10000
    ensures Units(s) == |s|
  {
    if s != [] {
      UnitsOfPlain(s[1..]);
    }
  }

  lemma {:induction false} UnitsConcat(s: string, t: string)
    ensures Units(s + t) == Units(s) + Units(t)
  {
    if s == [] {
      assert s + t == t;
    } else {
      UnitsConcat(s[1..], t);
      assert (s + t)[1..] == s[1..] + t;
    }
  }

  /** A length in UTF-16 code units is additive and counts a character above U+FFFF twice. */
  lemma UnitsExact(s: string, t: string, c: char)
    ensures Units(s + t) == Units(s) + Units(t)
    ensures Units([c]) == if c as int <= 0xFFFF then 1 else 2
  {
    UnitsConcat(s, t);
    assert [c][1..] == [];
  }

  /** A reason of white space alone is too short. */
  lemma {:induction false} BlankReason(s: string)
    requires forall i :: 0 <= i < |s| ==> !InClass(s[i], NON_SPACE)
    ensures TrimStart(s) == "" && !LongReason(s)
  {
    if s != [] {
      SpaceClass(s[0]);
      BlankReason(s[1..]);
    }
  }

  lemma {:induction false} TrimStartDrops(before: string, core: string)
    requires (forall i :: 0 <= i < |before| ==> !InClass(before[i], NON_SPACE)) && core != [] && InClass(core[0], NON_SPACE)
    ensures TrimStart(before + core) == core
  {
    if before == [] {
      SpaceClass(core[0]);
      assert before + core == core;
    } else {
      SpaceClass(before[0]);
      TrimStartDrops(before[1..], core);
      assert (before + core)[1..] == before[1..] + core;
    }
  }

  lemma {:induction false} TrimEndDrops(core: string, after: string)
    requires (forall i :: 0 <= i < |after| ==> !InClass(after[i], NON_SPACE)) && core != [] && InClass(core[|core| - 1], NON_SPACE)
    ensures TrimEnd(core + after) == core
  {
    if after == [] {
      SpaceClass(core[|core| - 1]);
      assert core + after == core;
    } else {
      SpaceClass(after[|after| - 1]);
      TrimEndDrops(core, after[..|after| - 1]);
      assert (core + after)[..|core + after| - 1] == core + after[..|after| - 1];
    }
  }

  /** trim() drops the white space around the text, and nothing else. */
  lemma TrimExact(before: string, core: string, after: string)
    requires forall i :: 0 <= i < |before| ==> !InClass(before[i], NON_SPACE)
    requires forall i :: 0 <= i < |after| ==> !InClass(after[i], NON_SPACE)
    requires core != [] && InClass(core[0], NON_SPACE) && InClass(core[|core| - 1], NON_SPACE)
    ensures Trim(before + core + after) == core
  {
    assert before + core + after == before + (core + after);
    assert (core + after)[0] == core[0];
    TrimStartDrops(before, core + after);
    TrimEndDrops(core, after);
  }

  /** A reason of characters below U+10000 is long enough with 32 of them, white space around it aside. */
  lemma ReasonLength(before: string, core: string, after: string)
    requires forall i :: 0 <= i < |before| ==> !InClass(before[i], NON_SPACE)
    requires forall i :: 0 <= i < |after| ==> !InClass(after[i], NON_SPACE)
    requires core != [] && InClass(core[0], NON_SPACE) && InClass(core[|core| - 1], NON_SPACE)
    ensures LongReason(before + core + after) <==> Units(core) >= 32
    ensures (forall i :: 0 <= i < |core| ==> core[i] as int < 0x10000) ==> (LongReason(before + core + after) <==> |core| >= 32)
  {
    TrimExact(before, core, after);
    if forall i :: 0 <= i < |core| ==> core[i] as int < 0x10000 {
      UnitsOfPlain(core);
    }
  }
}
