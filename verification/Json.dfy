/** JSON values and JSON.stringify of strings. */
module Json {
  import opened JsObjects

  /** `Num` holds the text JavaScript prints for the number; object members are in enumeration order. */
  datatype Json =
    | Null
    | Bool(b: bool)
    | Num(text: string)
    | Str(s: string)
    | Arr(items: seq<Json>)
    | Obj(members: seq<Member<Json>>)

  /** Every object in the value lists its keys as JavaScript enumerates them; so does anything parsed. */
  ghost predicate WellFormed(value: Json) {
    match value
    case Arr(items) => forall i :: 0 <= i < |items| ==> WellFormed(items[i])
    case Obj(members) => Enumerated(members) && forall i :: 0 <= i < |members| ==> WellFormed(members[i].value)
    case _ => true
  }

  function HexDigit(n: nat): char
    requires n < 16
  {
    if n < 10 then ('0' as int + n) as char else ('a' as int + n - 10) as char
  }

  /** One character inside a JSON string (sections 7 and 8 of RFC 8259, as JSON.stringify writes it). */
  function Escape(c: char): (s: string)
    ensures s != [] && s[0] != '"'
  {
    if c == '"' then ['\\', '"']
    else if c == '\\' then ['\\', '\\']
    else if c as int == 8 then ['\\', 'b']
    else if c as int == 9 then ['\\', 't']
    else if c as int == 10 then ['\\', 'n']
    else if c as int == 12 then ['\\', 'f']
    else if c as int == 13 then ['\\', 'r']
    else if c as int < 32 then ['\\', 'u', '0', '0', HexDigit(c as int / 16), HexDigit(c as int % 16)]
    else [c]
  }

  /** The characters after the opening quote, with the closing quote. */
  function QuotedRest(s: string): string {
    if s == [] then ['"'] else Escape(s[0]) + QuotedRest(s[1..])
  }

  function Quote(s: string): string {
    ['"'] + QuotedRest(s)
  }

  lemma HexInjective(m: nat, n: nat)
    requires m < 16 && n < 16 && HexDigit(m) == HexDigit(n)
    ensures m == n
  {}

  /** No escape is the beginning of another one. */
  lemma EscapePrefix(c: char, d: char, x: string, y: string)
    requires Escape(c) + x == Escape(d) + y
    ensures c == d && x == y
  {
    var s, t := Escape(c), Escape(d);
    assert s[0] == (s + x)[0] == (t + y)[0] == t[0];
    if |s| > 1 && |t| > 1 {
      assert s[1] == (s + x)[1] == (t + y)[1] == t[1];
      if |s| == 6 && |t| == 6 {
        assert s[4] == (s + x)[4] == (t + y)[4] == t[4];
        assert s[5] == (s + x)[5] == (t + y)[5] == t[5];
        HexInjective(c as int / 16, d as int / 16);
        HexInjective(c as int % 16, d as int % 16);
      }
    }
    assert c == d;
    assert x == (s + x)[|s|..] && y == (t + y)[|t|..];
  }

  lemma BothEnd(a: string, b: string, x: string, y: string)
    requires QuotedRest(a) + x == QuotedRest(b) + y
    ensures a == [] <==> b == []
    ensures a == [] ==> x == y
  {
    var s, t := QuotedRest(a), QuotedRest(b);
    assert s[0] == (s + x)[0] == (t + y)[0] == t[0];
    assert x == (s + x)[|s|..] && y == (t + y)[|t|..];
  }

  lemma QuotedStep(a: string, x: string)
    requires a != []
    ensures QuotedRest(a) + x == Escape(a[0]) + (QuotedRest(a[1..]) + x)
  {}

  /** A quoted string ends at its own closing quote, so it can be read off the front of any text. */
  lemma {:induction false} QuotedPrefix(a: string, b: string, x: string, y: string)
    requires QuotedRest(a) + x == QuotedRest(b) + y
    ensures a == b && x == y
  {
    BothEnd(a, b, x, y);
    if a != [] {
      QuotedStep(a, x);
      QuotedStep(b, y);
      EscapePrefix(a[0], b[0], QuotedRest(a[1..]) + x, QuotedRest(b[1..]) + y);
      QuotedPrefix(a[1..], b[1..], x, y);
      assert a == [a[0]] + a[1..] && b == [b[0]] + b[1..];
    }
  }

  lemma QuotePrefix(a: string, b: string, x: string, y: string)
    requires Quote(a) + x == Quote(b) + y
    ensures a == b && x == y
  {
    assert (Quote(a) + x)[1..] == QuotedRest(a) + x;
    assert (Quote(b) + y)[1..] == QuotedRest(b) + y;
    QuotedPrefix(a, b, x, y);
  }
}
