/** JavaScript string operations: white space, trimming, splitting and joining. */
module Text {

  /** What String.prototype.trim removes and the regular expression \s matches. */
  predicate IsSpace(c: char) {
    var n := c as int;
    9 <= n <= 13 || n == 0x20 || n == 0xA0 || n == 0x1680 || 0x2000 <= n <= 0x200A
    || n == 0x2028 || n == 0x2029 || n == 0x202F || n == 0x205F || n == 0x3000 || n == 0xFEFF
  }

  function TrimStart(s: string): (r: string)
    ensures |r| <= |s| && r == s[|s| - |r|..]
    ensures r != [] ==> !IsSpace(r[0]) && r[|r| - 1] == s[|s| - 1]
    ensures s != [] && !IsSpace(s[0]) ==> r == s
  {
    if s != [] && IsSpace(s[0]) then TrimStart(s[1..]) else s
  }

  function TrimEnd(s: string): (r: string)
    ensures |r| <= |s| && r == s[..|r|]
    ensures r != [] ==> !IsSpace(r[|r| - 1]) && r[0] == s[0]
    ensures s != [] && !IsSpace(s[|s| - 1]) ==> r == s
  {
    if s != [] && IsSpace(s[|s| - 1]) then TrimEnd(s[..|s| - 1]) else s
  }

  function Trim(s: string): (r: string) {
    TrimEnd(TrimStart(s))
  }

  /** Neither end of the text is white space. */
  predicate Tight(s: string) {
    s == [] || (!IsSpace(s[0]) && !IsSpace(s[|s| - 1]))
  }

  lemma TrimIsTight(s: string)
    ensures Tight(Trim(s))
    ensures forall c :: c in Trim(s) ==> c in s
  {
    var t := TrimStart(s);
    forall c | c in Trim(s)
      ensures c in s
    {
      assert c in t;
      var i :| 0 <= i < |t| && t[i] == c;
      assert s[|s| - |t| + i] == c;
    }
  }

  lemma TrimOfTight(s: string)
    requires Tight(s)
    ensures Trim(s) == s
  {}

  /** indexOf of one character: its first position, or the length when there is none. */
  function FirstOf(s: string, c: char): (k: nat)
    ensures k <= |s| && c !in s[..k] && (k < |s| ==> s[k] == c)
  {
    if s == [] || s[0] == c then 0
    else
      var k := 1 + FirstOf(s[1..], c);
      assert s[..k] == [s[0]] + s[1..][..k - 1];
      k
  }

  lemma {:induction false} FirstOfIs(s: string, c: char, k: nat)
    requires k <= |s| && c !in s[..k] && (k < |s| ==> s[k] == c)
    ensures FirstOf(s, c) == k
  {
    if k > 0 {
      assert s[..k] == [s[0]] + s[1..][..k - 1];
      FirstOfIs(s[1..], c, k - 1);
    }
  }

  /** s.split(c); at least one piece. */
  function Split(s: string, c: char): (r: seq<string>)
    ensures |r| > 0 && forall i :: 0 <= i < |r| ==> c !in r[i]
    decreases |s|
  {
    var k := FirstOf(s, c);
    if k == |s| then
      assert s[..k] == s;
      [s]
    else [s[..k]] + Split(s[k + 1..], c)
  }

  lemma SplitFirst(piece: string, c: char, rest: string)
    requires c !in piece
    ensures Split(piece + [c] + rest, c) == [piece] + Split(rest, c)
  {
    var text, k := piece + [c] + rest, |piece|;
    assert text[..k] == piece && text[k + 1..] == rest;
    FirstOfIs(text, c, k);
  }

  /** pieces.join(c) */
  function Join(pieces: seq<string>, c: char): string {
    if pieces == [] then ""
    else if |pieces| == 1 then pieces[0]
    else pieces[0] + [c] + Join(pieces[1..], c)
  }

  lemma {:induction false} SplitJoin(pieces: seq<string>, c: char)
    requires pieces != [] && forall i :: 0 <= i < |pieces| ==> c !in pieces[i]
    ensures Split(Join(pieces, c), c) == pieces
  {
    var text := Join(pieces, c);
    if |pieces| == 1 {
      assert text[..|text|] == text;
      FirstOfIs(text, c, |text|);
    } else {
      SplitFirst(pieces[0], c, Join(pieces[1..], c));
      SplitJoin(pieces[1..], c);
    }
  }
}
