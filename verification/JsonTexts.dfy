/** What the JSON texts and normal forms look like: read back by the grammar, and member by member. */
module JsonTexts {
  import opened Decimal
  import opened Json
  import opened JsonNormalize
  import opened JsonShape
  import opened JsObjects
  import opened Options
  import opened Ordering
  import opened Text

  // ----- Strings, read by section 7 of RFC 8259

  function HexValue(c: char): Option<nat> {
    if '0' <= c <= '9' then Some(c as int - '0' as int)
    else if 'a' <= c <= 'f' then Some(c as int - 'a' as int + 10)
    else if 'A' <= c <= 'F' then Some(c as int - 'A' as int + 10)
    else None
  }

  /** The character of a short escape. */
  function ShortEscape(c: char): Option<char> {
    if c == '"' || c == '\\' || c == '/' then Some(c)
    else if c == 'b' then Some(8 as char)
    else if c == 'f' then Some(12 as char)
    else if c == 'n' then Some(10 as char)
    else if c == 'r' then Some(13 as char)
    else if c == 't' then Some(9 as char)
    else None
  }

  /** One character of a string and what follows it; characters beyond the surrogates aside. */
  function ReadChar(t: string): Option<(char, string)> {
    if t == [] || t[0] == '"' || t[0] as int < 32 then None
    else if t[0] != '\\' then Some((t[0], t[1..]))
    else if |t| < 2 then None
    else if t[1] == 'u' then
      if |t| < 6 then None
      else
        var a, b, c, d := HexValue(t[2]), HexValue(t[3]), HexValue(t[4]), HexValue(t[5]);
        if a.None? || b.None? || c.None? || d.None? then None
        else
          var code := 4096 * a.value + 256 * b.value + 16 * c.value + d.value;
          if 0xD800 <= code < 0xE000 then None else Some((code as char, t[6..]))
    else
      match ShortEscape(t[1])
      case None => None
      case Some(c) => Some((c, t[2..]))
  }

  /** The string up to its closing quote, and what follows. */
  function ReadChars(t: string): Option<(string, string)>
    decreases |t|
  {
    if t != [] && t[0] == '"' then Some(([], t[1..]))
    else
      match ReadChar(t)
      case None => None
      case Some((c, rest)) =>
        if |rest| >= |t| then None
        else
          match ReadChars(rest)
          case None => None
          case Some((s, after)) => Some(([c] + s, after))
  }

  function ReadString(t: string): Option<(string, string)> {
    if t != [] && t[0] == '"' then ReadChars(t[1..]) else None
  }

  lemma ReadEscape(c: char, rest: string)
    ensures ReadChar(Escape(c) + rest) == Some((c, rest))
  {
    var t := Escape(c) + rest;
    assert t[|Escape(c)|..] == rest;
    if |Escape(c)| == 6 {
      ReadHex(c, rest);
    }
  }

  lemma ReadHex(c: char, rest: string)
    requires |Escape(c)| == 6
    ensures ReadChar(Escape(c) + rest) == Some((c, rest))
  {
    var t := Escape(c) + rest;
    assert t[..6] == Escape(c) && t[6..] == rest;
    assert t[2] == '0' && t[3] == '0' && t[4] == HexDigit(c as int / 16) && t[5] == HexDigit(c as int % 16);
    HexRead(c as int / 16);
    HexRead(c as int % 16);
  }

  lemma HexRead(n: nat)
    requires n < 16
    ensures HexValue(HexDigit(n)) == Some(n)
  {}

  lemma {:induction false} ReadQuotedRest(s: string, rest: string)
    ensures ReadChars(QuotedRest(s) + rest) == Some((s, rest))
  {
    var t := QuotedRest(s) + rest;
    if s == [] {
      assert t[1..] == rest;
    } else {
      var more := QuotedRest(s[1..]) + rest;
      QuotedStep(s, rest);
      ReadEscape(s[0], more);
      ReadQuotedRest(s[1..], rest);
      assert s == [s[0]] + s[1..];
    }
  }

  /** What JSON.stringify prints for a string reads back as the string, and ends where it ends. */
  lemma QuoteReadsBack(s: string, rest: string)
    ensures ReadString(Quote(s) + rest) == Some((s, rest))
  {
    assert (Quote(s) + rest)[1..] == QuotedRest(s) + rest;
    ReadQuotedRest(s, rest);
  }

  // ----- Array indices

  /** The keys that come first, in numeric order, are the decimal numerals of 0 to 2^32 - 2. */
  lemma IsIndexIff(key: string)
    ensures IsIndex(key) <==> exists n: nat :: n < 4294967295 && key == Render(n)
  {
    if IsIndex(key) {
      CanonicalNumeral(key);
      assert key == Render(Value(key));
    }
    if n: nat :| n < 4294967295 && key == Render(n) {
      RenderValue(n);
    }
  }

  lemma {:induction false} CanonicalNumeral(key: string)
    requires key != [] && AllDigits(key) && (|key| == 1 || key[0] != '0')
    ensures Render(Value(key)) == key
  {
    var front, last := key[..|key| - 1], key[|key| - 1];
    if |key| == 1 {
      assert front == [];
    } else {
      CanonicalNumeral(front);
      NotZero(front);
      assert key == front + [last];
      assert Value(key) / 10 == Value(front) && Value(key) % 10 == DigitValue(last);
    }
  }

  lemma {:induction false} NotZero(key: string)
    requires key != [] && AllDigits(key) && key[0] != '0'
    ensures Value(key) > 0
  {
    if |key| > 1 {
      NotZero(key[..|key| - 1]);
    } else {
      assert key[..0] == [];
    }
  }

  // ----- Texts of shapes

  function FieldText(field: Member<Shape>): string { Quote(field.key) + ":" + Stringify(field.value) }

  /** The fields of a shape's object: those of the body, array indices first, the others in ascending order. */
  ghost predicate ShapeFields(members: seq<Member<Json>>, fields: seq<Member<Shape>>) {
    && multiset(fields) == multiset(FieldShapes(members))
    && Enumerated(fields)
    && Sorted(KeyLess, Filter(NoIndex, fields))
  }

  predicate NoIndex(field: Member<Shape>) { !IsIndex(field.key) }

  lemma {:induction false} PutKeepsOrder(members: seq<Member<Shape>>, key: string, value: Shape)
    requires key !in KeysOf(members)
    ensures Filter(NoIndex, Put(members, key, value))
         == Filter(NoIndex, members) + if NoIndex(Member(key, value)) then [Member(key, value)] else []
  {
    if members != [] {
      TailKeys(members, key);
      if ComesBefore(key, members[0].key) {
        assert Put(members, key, value) == [Member(key, value)] + members;
        assert ([Member(key, value)] + members)[1..] == members;
      } else {
        PutKeepsOrder(members[1..], key, value);
        assert ([members[0]] + Put(members[1..], key, value))[1..] == Put(members[1..], key, value);
      }
    } else {
      assert [Member(key, value)][1..] == [];
    }
  }

  lemma {:induction false} EntriesKeepOrder(entries: seq<Member<Shape>>)
    requires DistinctKeys(entries)
    ensures Filter(NoIndex, FromEntries(entries)) == Filter(NoIndex, entries)
  {
    if entries != [] {
      var front, last := entries[..|entries| - 1], entries[|entries| - 1];
      EntriesKeepOrder(front);
      LastKeyIsNew(entries);
      PutKeepsOrder(FromEntries(front), last.key, last.value);
      assert entries == front + [last];
      FilterConcat(NoIndex, front, [last]);
    }
  }

  lemma LastKeyIsNew(entries: seq<Member<Shape>>)
    requires entries != [] && DistinctKeys(entries)
    ensures entries[|entries| - 1].key !in KeysOf(FromEntries(entries[..|entries| - 1]))
  {
    var front := entries[..|entries| - 1];
    var before := FromEntries(front);
    FromEntriesKeeps(front);
    forall i | 0 <= i < |before|
      ensures before[i].key != entries[|entries| - 1].key
    {
      assert before[i] in multiset(before);
      assert before[i] in multiset(front);
      var j :| 0 <= j < |front| && front[j] == before[i];
      assert entries[j].key != entries[|entries| - 1].key;
    }
  }

  lemma ShapeFieldsOf(members: seq<Member<Json>>)
    requires DistinctKeys(members)
    ensures ShapeFields(members, ShapeOf(Obj(members)).fields)
  {
    var f := FieldShapes(members);
    var sorted := Sort(KeyLess, f);
    SortBag(KeyLess, f);
    DistinctRearranged(f, sorted);
    FromEntriesKeeps(sorted);
    EntriesKeepOrder(sorted);
    KeyLessOrder(f);
    SortSorts(KeyLess, f);
    FilterSorted(KeyLess, NoIndex, sorted);
  }

  lemma {:induction false} WriteThen(shape: Shape, rest: string)
    ensures Write(shape, rest) == Write(shape, "") + rest
    decreases shape
  {
    match shape
    case Kind(name) =>
    case EmptyList =>
    case ListOf(element) =>
      WriteThen(element, "]" + rest);
      WriteThen(element, "]" + "");
    case Record(fields) =>
      if fields != [] {
        FieldThen(fields[0], WriteFields(fields[1..], rest));
        FieldThen(fields[0], WriteFields(fields[1..], ""));
        FieldsThen(fields[1..], rest);
      }
  }

  lemma {:induction false} FieldThen(field: Member<Shape>, rest: string)
    ensures WriteField(field, rest) == FieldText(field) + rest
    decreases field
  {
    WriteThen(field.value, rest);
  }

  lemma {:induction false} FieldsThen(fields: seq<Member<Shape>>, rest: string)
    ensures WriteFields(fields, rest) == WriteFields(fields, "") + rest
    decreases fields
  {
    if fields != [] {
      FieldThen(fields[0], WriteFields(fields[1..], rest));
      FieldThen(fields[0], WriteFields(fields[1..], ""));
      FieldsThen(fields[1..], rest);
    }
  }

  lemma {:induction false} FieldsJoined(first: Member<Shape>, fields: seq<Member<Shape>>)
    ensures WriteField(first, WriteFields(fields, "")) == Join(Map(FieldText, [first] + fields), ',') + "}"
    decreases |fields|
  {
    FieldThen(first, WriteFields(fields, ""));
    TextsCons(first, fields);
    if fields != [] {
      FieldsJoined(fields[0], fields[1..]);
      assert [fields[0]] + fields[1..] == fields;
      JoinCons(FieldText(first), Map(FieldText, fields), ',');
      JoinedTexts(FieldText(first), Join(Map(FieldText, fields), ','));
    }
  }

  lemma TextsCons(first: Member<Shape>, fields: seq<Member<Shape>>)
    ensures Map(FieldText, [first] + fields) == [FieldText(first)] + Map(FieldText, fields)
    ensures fields == [] ==> Map(FieldText, [first] + fields) == [FieldText(first)]
  {}

  lemma JoinCons(first: string, pieces: seq<string>, c: char)
    requires pieces != []
    ensures Join([first] + pieces, c) == first + [c] + Join(pieces, c)
  {
    assert ([first] + pieces)[1..] == pieces;
  }

  lemma JoinedTexts(first: string, joined: string)
    ensures first + ("," + (joined + "}")) == first + [','] + joined + "}"
  {}

  lemma RecordText(fields: seq<Member<Shape>>)
    ensures Stringify(Record(fields)) == "{" + Join(Map(FieldText, fields), ',') + "}"
  {
    if fields != [] {
      FieldsJoined(fields[0], fields[1..]);
      assert [fields[0]] + fields[1..] == fields;
    } else {
      assert Map(FieldText, fields) == [];
    }
  }

  predicate InQuotes(text: string, word: string) { text == "\"" + word + "\"" }

  predicate SmallLetters(s: string) { forall i :: 0 <= i < |s| ==> 'a' <= s[i] <= 'z' }

  lemma PlainQuote(s: string)
    requires SmallLetters(s)
    ensures Quote(s) == "\"" + s + "\""
  {
    PlainRest(s);
  }

  lemma {:induction false} PlainRest(s: string)
    requires SmallLetters(s)
    ensures QuotedRest(s) == s + "\""
  {
    if s != [] {
      PlainRest(s[1..]);
      assert s == [s[0]] + s[1..];
    }
  }

  lemma KindText(name: string)
    requires SmallLetters(name)
    ensures InQuotes(Stringify(Kind(name)), name)
  {
    PlainQuote(name);
    assert Quote(name) + "" == Quote(name);
  }

  /** The text that is compared, for scalars: the name of the kind in quotes. */
  lemma ScalarText(value: Json)
    ensures value.Null? ==> InQuotes(Stringify(ShapeOf(value)), "null")
    ensures value.Bool? ==> InQuotes(Stringify(ShapeOf(value)), "boolean")
    ensures value.Num? ==> InQuotes(Stringify(ShapeOf(value)), "number")
    ensures value.Str? ==> InQuotes(Stringify(ShapeOf(value)), "string")
  {
    match value
    case Null => KindText("null");
    case Bool(_) => KindText("boolean");
    case Num(_) => KindText("number");
    case Str(_) => KindText("string");
    case _ =>
  }

  /** For lists and objects: the text of the first element, and the texts of the fields. */
  lemma ShapeText(value: Json)
    requires WellFormed(value)
    ensures value.Arr? && value.items == [] ==> Stringify(ShapeOf(value)) == "[]"
    ensures value.Arr? && value.items != [] ==> Stringify(ShapeOf(value)) == "[" + Stringify(ShapeOf(value.items[0])) + "]"
    ensures value.Obj? ==> exists fields ::
              ShapeFields(value.members, fields) && Stringify(ShapeOf(value)) == "{" + Join(Map(FieldText, fields), ',') + "}"
  {
    match value
    case Arr(items) =>
      if items != [] {
        WriteThen(ShapeOf(items[0]), "]" + "");
      }
    case Obj(members) =>
      ShapeFieldsOf(members);
      RecordText(ShapeOf(value).fields);
    case _ =>
  }

  // ----- Normal forms, member by member

  /** The value under a key after normalisation. */
  ghost predicate NormalUnder(key: string, before: Json, after: Json) {
    if key == "Id" || key == "ServerId" || key == "LocalAddress" || key == "ServerName" || key == "MediaSourceId"
    then after == Str("<dynamic>")
    else if key == "ImageBlurHashes" && before.Obj? then
      after.Obj? && |after.members| == |before.members|
      && forall i :: 0 <= i < |before.members| ==>
           after.members[i].key == before.members[i].key && NormalHashes(before.members[i].value, after.members[i].value)
    else after == NormalizeBody(before)
  }

  /** The hashes of one image type: the last one, under the shared tag. */
  ghost predicate NormalHashes(before: Json, after: Json) {
    if before.Obj? then
      if before.members == [] then after == Obj([])
      else after == Obj([Member("<image-tag>", NormalizeBody(before.members[|before.members| - 1].value))])
    else after == NormalizeBody(before)
  }

  /** The members apart from __proto__. */
  function WithoutProto(members: seq<Member<Json>>): seq<Member<Json>> {
    Filter((m: Member<Json>) => m.key != "__proto__", members)
  }

  ghost predicate Paired(kept: seq<Member<Json>>, normal: seq<Member<Json>>) {
    |normal| == |kept|
    && forall i :: 0 <= i < |kept| ==> normal[i].key == kept[i].key && NormalUnder(kept[i].key, kept[i].value, normal[i].value)
  }

  lemma PairedCons(m: Member<Json>, n: Member<Json>, kept: seq<Member<Json>>, normal: seq<Member<Json>>)
    requires Paired(kept, normal) && n.key == m.key && NormalUnder(m.key, m.value, n.value)
    ensures Paired([m] + kept, [n] + normal)
  {}

  lemma {:induction false} MembersNormal(members: seq<Member<Json>>)
    ensures Paired(WithoutProto(members), NormalizeMembers(members))
  {
    if members != [] {
      var m := members[0];
      MembersNormal(members[1..]);
      UnderNormal(m.key, m.value);
      FirstNormal(members);
      PairedCons(m, Member(m.key, NormalizeUnder(m.key, m.value)), WithoutProto(members[1..]), NormalizeMembers(members[1..]));
      assert [] + WithoutProto(members[1..]) == WithoutProto(members[1..]);
      assert [] + NormalizeMembers(members[1..]) == NormalizeMembers(members[1..]);
    }
  }

  lemma FirstNormal(members: seq<Member<Json>>)
    requires members != []
    ensures WithoutProto(members) == (if members[0].key == "__proto__" then [] else [members[0]]) + WithoutProto(members[1..])
    ensures NormalizeMembers(members) ==
            (if members[0].key == "__proto__" then [] else [Member(members[0].key, NormalizeUnder(members[0].key, members[0].value))])
            + NormalizeMembers(members[1..])
  {}

  lemma UnderNormal(key: string, value: Json)
    ensures NormalUnder(key, value, NormalizeUnder(key, value))
  {
    if value.Obj? {
      TypesNormal(value.members);
    }
  }

  lemma {:induction false} TypesNormal(types: seq<Member<Json>>)
    ensures |NormalizeTypes(types)| == |types|
    ensures forall i :: 0 <= i < |types| ==>
              NormalizeTypes(types)[i].key == types[i].key && NormalHashes(types[i].value, NormalizeTypes(types)[i].value)
  {
    if types != [] {
      TypesNormal(types[1..]);
    }
  }

  /** What normalisation does to each kind of value. */
  lemma NormalForm(body: Json)
    ensures match body
            case Arr(items) =>
              NormalizeBody(body).Arr? && |NormalizeBody(body).items| == |items|
              && forall i :: 0 <= i < |items| ==> NormalizeBody(body).items[i] == NormalizeBody(items[i])
            case Obj(members) => NormalizeBody(body).Obj? && Paired(WithoutProto(members), NormalizeBody(body).members)
            case _ => NormalizeBody(body) == body
  {
    if body.Obj? {
      MembersNormal(body.members);
    }
  }
}
