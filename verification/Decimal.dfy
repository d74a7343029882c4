/** Decimal numerals as the source prints and compares them. */
module Decimal {
  import opened Ordering

  predicate IsDigit(c: char) { '0' <= c <= '9' }

  predicate AllDigits(s: string) { forall i :: 0 <= i < |s| ==> IsDigit(s[i]) }

  function DigitValue(c: char): nat
    requires IsDigit(c)
  {
    c as int - '0' as int
  }

  function Digit(d: nat): (c: char)
    requires d < 10
    ensures IsDigit(c) && DigitValue(c) == d
  {
    ('0' as int + d) as char
  }

  /** The number a digit string denotes; the empty string denotes zero. */
  function Value(s: string): nat
    requires AllDigits(s)
  {
    if s == [] then 0 else 10 * Value(s[..|s| - 1]) + DigitValue(s[|s| - 1])
  }

  /** Decimal digits of `n`, most significant first, without leading zeros. */
  function Render(n: nat): string {
    if n < 10 then [Digit(n)] else Render(n / 10) + [Digit(n % 10)]
  }

  lemma {:induction false} RenderValue(n: nat)
    ensures Render(n) != [] && AllDigits(Render(n)) && Value(Render(n)) == n
    ensures |Render(n)| > 1 ==> Render(n)[0] != '0'
  {
    var s := Render(n);
    if n < 10 {
      assert s[..0] == [];
    } else {
      var front := Render(n / 10);
      RenderValue(n / 10);
      assert s[..|s| - 1] == front;
      assert |front| == 1 ==> Value(front) == DigitValue(front[0]);
    }
  }

  function RenderInt(n: int): string {
    if n < 0 then "-" + Render(-n) else Render(n)
  }

  /** Reads back what `RenderInt` prints. */
  function ParseInt(s: string): int {
    if s != [] && s[0] == '-' && AllDigits(s[1..]) then 0 - Value(s[1..])
    else if AllDigits(s) then Value(s)
    else 0
  }

  lemma IntRoundTrip(n: int)
    ensures ParseInt(RenderInt(n)) == n
    ensures ':' !in RenderInt(n)
  {
    RenderValue(if n < 0 then -n else n);
    if n < 0 {
      assert RenderInt(n)[1..] == Render(-n);
    }
  }

  /** Digit strings of one width compare as strings exactly as they compare as numbers. */
  lemma {:induction false} FixedWidthOrder(a: string, b: string)
    requires AllDigits(a) && AllDigits(b) && |a| == |b|
    ensures LexLess(a, b) <==> Value(a) < Value(b)
    ensures Value(a) == Value(b) ==> a == b
  {
    if a != [] {
      var n := |a| - 1;
      FixedWidthOrder(a[..n], b[..n]);
      assert a == a[..n] + [a[n]] && b == b[..n] + [b[n]];
      LexSnoc(a[..n], a[n], b[..n], b[n]);
    }
  }

  function Zeros(n: nat): (s: string)
    ensures |s| == n && AllDigits(s)
  {
    seq(n, i => '0')
  }

  lemma {:induction false} LeadingZeros(n: nat, s: string)
    requires AllDigits(s)
    ensures AllDigits(Zeros(n) + s) && Value(Zeros(n) + s) == Value(s)
    decreases |s| + n
  {
    var t := Zeros(n) + s;
    if s != [] {
      LeadingZeros(n, s[..|s| - 1]);
      assert t[..|t| - 1] == Zeros(n) + s[..|s| - 1];
    } else if n > 0 {
      LeadingZeros(n - 1, s);
      assert t[..|t| - 1] == Zeros(n - 1) + s;
    }
  }

  /** The SQL function lpad(text, width, '0'): longer text is cut to the width. */
  function PadLeft(width: nat, s: string): (r: string)
    ensures |r| == width
  {
    if |s| >= width then s[..width] else Zeros(width - |s|) + s
  }

  lemma {:induction false} RenderLength(n: nat, width: nat)
    requires width > 0 && n < Pow10(width)
    ensures |Render(n)| <= width
  {
    if n >= 10 {
      assert Pow10(1) == 10 * Pow10(0);
      RenderLength(n / 10, width - 1);
    }
  }

  function Pow10(k: nat): (p: nat)
    ensures p > 0
  {
    if k == 0 then 1 else 10 * Pow10(k - 1)
  }

  /** Zero-padded numerals that fit their width compare as strings exactly as their numbers. */
  lemma PaddedOrder(width: nat, m: nat, n: nat)
    requires width > 0 && m < Pow10(width) && n < Pow10(width)
    ensures LexLess(PadLeft(width, Render(m)), PadLeft(width, Render(n))) <==> m < n
    ensures PadLeft(width, Render(m)) == PadLeft(width, Render(n)) ==> m == n
  {
    PaddedValue(width, m);
    PaddedValue(width, n);
    FixedWidthOrder(PadLeft(width, Render(m)), PadLeft(width, Render(n)));
  }

  lemma PadShort(width: nat, s: string)
    requires |s| <= width
    ensures PadLeft(width, s) == Zeros(width - |s|) + s
  {
    if |s| == width {
      assert Zeros(0) + s == s;
    }
  }

  lemma PaddedValue(width: nat, n: nat)
    requires width > 0 && n < Pow10(width)
    ensures AllDigits(PadLeft(width, Render(n))) && Value(PadLeft(width, Render(n))) == n
  {
    RenderLength(n, width);
    RenderValue(n);
    PadShort(width, Render(n));
    LeadingZeros(width - |Render(n)|, Render(n));
  }
}
