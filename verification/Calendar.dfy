/** Calendar days as JavaScript dates count them, and the policy's YYYY-MM-DD strings. */
module Calendar {
  import opened Decimal
  import opened Options
  import opened Ordering

  // ----- Day numbers (ECMA-262, section 21.4.1)

  predicate LeapYear(y: int) { y % 4 == 0 && (y % 100 != 0 || y % 400 == 0) }

  function DaysInYear(y: int): int { if LeapYear(y) then 366 else 365 }

  function DaysInMonth(y: int, m: int): int {
    if m == 2 then if LeapYear(y) then 29 else 28
    else if m == 4 || m == 6 || m == 9 || m == 11 then 30
    else 31
  }

  /** Day number of the first day of a year, counted from 1 January 1970. */
  function DayFromYear(y: int): int {
    365 * (y - 1970) + (y - 1969) / 4 - (y - 1901) / 100 + (y - 1601) / 400
  }

  /** Days of the year before the first of month `m`; month 13 is the whole year. */
  function DaysBeforeMonth(y: int, m: int): (n: nat)
    requires 1 <= m <= 13
  {
    var leap := if LeapYear(y) then 1 else 0;
    match m
    case 1 => 0
    case 2 => 31
    case 3 => 59 + leap
    case 4 => 90 + leap
    case 5 => 120 + leap
    case 6 => 151 + leap
    case 7 => 181 + leap
    case 8 => 212 + leap
    case 9 => 243 + leap
    case 10 => 273 + leap
    case 11 => 304 + leap
    case 12 => 334 + leap
    case _ => 365 + leap
  }

  /** MakeDay: a day past the end of its month counts on into the next one. */
  function MakeDay(y: int, m: int, d: int): int
    requires 1 <= m <= 12
  {
    DayFromYear(y) + DaysBeforeMonth(y, m) + d - 1
  }

  /** The largest year, at most `y`, that begins on or before the day. */
  function YearUpTo(day: int, y: int): (r: int)
    ensures DayFromYear(r) <= day && r <= y && (r == y || day < DayFromYear(r + 1))
    decreases if DayFromYear(y) > day then DayFromYear(y) - day else 0
  {
    if DayFromYear(y) <= day then y
    else
      YearLength(y - 1);
      YearUpTo(day, y - 1)
  }

  /** The last month, at most `m`, that begins on or before day `n` of the year. */
  function MonthUpTo(y: int, n: nat, m: int): (r: int)
    requires 1 <= m <= 12
    ensures 1 <= r <= m && DaysBeforeMonth(y, r) <= n && (r == m || n < DaysBeforeMonth(y, r + 1))
  {
    if DaysBeforeMonth(y, m) <= n then m else MonthUpTo(y, n, m - 1)
  }

  datatype Date = Date(year: int, month: int, day: int)

  /** The calendar date of a day before the year 10000. */
  function DateOf(day: int): Date {
    var y := YearUpTo(day, 9999);
    var n := day - DayFromYear(y);
    var m := MonthUpTo(y, n, 12);
    Date(y, m, n - DaysBeforeMonth(y, m) + 1)
  }

  /** The date names a day of the Gregorian calendar. */
  predicate RealDay(date: Date) {
    1 <= date.month <= 12 && 1 <= date.day <= DaysInMonth(date.year, date.month)
  }

  lemma Step4(n: int)
    ensures (n + 1) / 4 == n / 4 + (if (n + 1) % 4 == 0 then 1 else 0)
  {}

  lemma Step100(n: int)
    ensures (n + 1) / 100 == n / 100 + (if (n + 1) % 100 == 0 then 1 else 0)
  {}

  lemma Step400(n: int)
    ensures (n + 1) / 400 == n / 400 + (if (n + 1) % 400 == 0 then 1 else 0)
  {}

  lemma Remainder400(n: int, q: int, r: int)
    requires n == 400 * q + r && 0 <= r < 400
    ensures n % 400 == r
  {}

  lemma Remainder100(n: int, q: int, r: int)
    requires n == 100 * q + r && 0 <= r < 100
    ensures n % 100 == r
  {}

  lemma Remainder4(n: int, q: int, r: int)
    requires n == 4 * q + r && 0 <= r < 4
    ensures n % 4 == r
  {}

  lemma Shift4(y: int)
    ensures (y - 1968) % 4 == y % 4
  {
    Remainder4(y - 1968, y / 4 - 492, y % 4);
  }

  lemma Shift100(y: int)
    ensures (y - 1900) % 100 == y % 100
  {
    Remainder100(y - 1900, y / 100 - 19, y % 100);
  }

  lemma Shift400(y: int)
    ensures (y - 1600) % 400 == y % 400
  {
    Remainder400(y - 1600, y / 400 - 4, y % 400);
  }

  lemma CenturiesAreFours(y: int)
    ensures y % 100 == 0 ==> y % 4 == 0
    ensures y % 400 == 0 ==> y % 100 == 0
  {
    if y % 400 == 0 {
      Remainder100(y, 4 * (y / 400), 0);
    }
    if y % 100 == 0 {
      Remainder4(y, 25 * (y / 100), 0);
    }
  }

  /** Consecutive year starts are one calendar year apart. */
  lemma YearLength(y: int)
    ensures DayFromYear(y + 1) == DayFromYear(y) + DaysInYear(y)
  {
    Step4(y - 1969);
    Step100(y - 1901);
    Step400(y - 1601);
    Shift4(y);
    Shift100(y);
    Shift400(y);
    CenturiesAreFours(y);
  }

  /** Days are numbered one after the other from 1 January 1970 on, through 30 days, 31, or 28 and in a leap year 29. */
  lemma DayAfterDay(y: int, m: int, d: int)
    requires 1 <= m <= 12
    ensures MakeDay(1970, 1, 1) == 0
    ensures MakeDay(y, m, d + 1) == MakeDay(y, m, d) + 1
    ensures m == 4 || m == 6 || m == 9 || m == 11 ==> MakeDay(y, m + 1, 1) == MakeDay(y, m, 30) + 1
    ensures m == 1 || m == 3 || m == 5 || m == 7 || m == 8 || m == 10 ==> MakeDay(y, m + 1, 1) == MakeDay(y, m, 31) + 1
    ensures MakeDay(y + 1, 1, 1) == MakeDay(y, 12, 31) + 1
    ensures y % 400 == 0 || (y % 4 == 0 && y % 100 != 0) ==> MakeDay(y, 3, 1) == MakeDay(y, 2, 29) + 1
    ensures y % 4 != 0 || (y % 100 == 0 && y % 400 != 0) ==> MakeDay(y, 3, 1) == MakeDay(y, 2, 28) + 1
  {
    YearLength(y);
    CenturiesAreFours(y);
  }

  lemma {:induction false} YearsAscend(a: int, b: int)
    requires a <= b
    ensures DayFromYear(a) + 365 * (b - a) <= DayFromYear(b)
    decreases b - a
  {
    if a < b {
      YearsAscend(a, b - 1);
      YearLength(b - 1);
    }
  }

  lemma {:induction false} MonthsAscend(y: int, a: int, b: int)
    requires 1 <= a <= b <= 13
    ensures DaysBeforeMonth(y, a) <= DaysBeforeMonth(y, b)
    decreases b - a
  {
    if a < b {
      MonthsAscend(y, a, b - 1);
    }
  }

  lemma YearWithin(day: int)
    requires day < DayFromYear(10000)
    ensures 0 <= day - DayFromYear(YearUpTo(day, 9999)) < DaysInYear(YearUpTo(day, 9999))
  {
    YearLength(YearUpTo(day, 9999));
  }

  lemma MonthWithin(y: int, n: nat)
    requires n < DaysInYear(y)
    ensures var m := MonthUpTo(y, n, 12); 0 <= n - DaysBeforeMonth(y, m) < DaysInMonth(y, m)
  {
    var m := MonthUpTo(y, n, 12);
    assert DaysBeforeMonth(y, m + 1) == DaysBeforeMonth(y, m) + DaysInMonth(y, m);
    assert DaysBeforeMonth(y, 13) == DaysInYear(y);
  }

  /** Counting days and naming them are inverse: every day number has exactly one calendar date. */
  lemma DateOfIsReal(day: int)
    requires day < DayFromYear(10000)
    ensures RealDay(DateOf(day)) && DateOf(day).year <= 9999
    ensures MakeDay(DateOf(day).year, DateOf(day).month, DateOf(day).day) == day
  {
    YearWithin(day);
    var y := YearUpTo(day, 9999);
    MonthWithin(y, day - DayFromYear(y));
  }

  lemma DateOfMakeDay(date: Date)
    requires RealDay(date) && date.year <= 9999
    ensures MakeDay(date.year, date.month, date.day) < DayFromYear(10000)
    ensures DateOf(MakeDay(date.year, date.month, date.day)) == date
  {
    var day := MakeDay(date.year, date.month, date.day);
    DayInYear(date);
    YearsAscend(date.year + 1, 10000);
    DateOfIsReal(day);
    DayInYear(DateOf(day));
    SameDaySameDate(date, DateOf(day));
  }

  lemma DayInYear(date: Date)
    requires RealDay(date)
    ensures DayFromYear(date.year) <= MakeDay(date.year, date.month, date.day) < DayFromYear(date.year + 1)
  {
    YearLength(date.year);
    MonthsAscend(date.year, date.month + 1, 13);
  }

  /** Later dates have larger day numbers. */
  predicate Earlier(a: Date, b: Date) {
    a.year < b.year || (a.year == b.year && (a.month < b.month || (a.month == b.month && a.day < b.day)))
  }

  lemma EarlierIsSmaller(a: Date, b: Date)
    requires RealDay(a) && RealDay(b) && Earlier(a, b)
    ensures MakeDay(a.year, a.month, a.day) < MakeDay(b.year, b.month, b.day)
  {
    if a.year < b.year {
      DayInYear(a);
      DayInYear(b);
      YearsAscend(a.year + 1, b.year);
    } else if a.month < b.month {
      MonthsAscend(a.year, a.month + 1, b.month);
    }
  }

  lemma SameDaySameDate(a: Date, b: Date)
    requires RealDay(a) && RealDay(b)
    requires MakeDay(a.year, a.month, a.day) == MakeDay(b.year, b.month, b.day)
    ensures a == b
  {
    if Earlier(a, b) {
      EarlierIsSmaller(a, b);
    } else if Earlier(b, a) {
      EarlierIsSmaller(b, a);
    }
  }

  // ----- Date strings

  /** The regular expression for four, two and two digits with hyphens between. */
  predicate DateShaped(s: string) {
    |s| == 10 && AllDigits(s[..4]) && s[4] == '-' && AllDigits(s[5..7]) && s[7] == '-' && AllDigits(s[8..])
  }

  /** The numbers a date-shaped string spells out, whether or not there is such a day. */
  function Spelled(s: string): Date
    requires DateShaped(s)
  {
    Date(Value(s[..4]), Value(s[5..7]), Value(s[8..]))
  }

  /** toISOString().slice(0, 10) for a day in the years 0 to 9999. */
  function IsoDate(date: Date): string
    requires date.year >= 0 && date.month >= 0 && date.day >= 0
  {
    PadLeft(4, Render(date.year)) + "-" + PadLeft(2, Render(date.month)) + "-" + PadLeft(2, Render(date.day))
  }

  /**
   The Date constructor on a date-shaped string at midnight UTC (section 21.4.1.32 of ECMA-262):
   months run from 01 to 12 and days from 01 to 31, and a day its month lacks counts on.
   */
  function DateTimeValue(s: string): Option<int>
    requires DateShaped(s)
  {
    var date := Spelled(s);
    if 1 <= date.month <= 12 && 1 <= date.day <= 31 then Some(MakeDay(date.year, date.month, date.day)) else None
  }

  /** parseIsoDate on strings; the day number stands for the Date at its midnight. */
  function ParseIsoDate(s: string): Option<int> {
    if !DateShaped(s) then None
    else
      match DateTimeValue(s)
      case None => None
      case Some(day) =>
        var date := DateOf(day);
        if date.year < 0 || date.month < 0 || date.day < 0 || IsoDate(date) != s then None else Some(day)
  }

  lemma {:induction false} ValueBound(s: string)
    requires AllDigits(s)
    ensures Value(s) < Pow10(|s|)
  {
    if s != [] {
      ValueBound(s[..|s| - 1]);
    }
  }

  lemma PadOfValue(s: string)
    requires AllDigits(s) && s != []
    ensures PadLeft(|s|, Render(Value(s))) == s
  {
    ValueBound(s);
    PaddedValue(|s|, Value(s));
    FixedWidthOrder(PadLeft(|s|, Render(Value(s))), s);
  }

  lemma SpelledBounds(s: string)
    requires DateShaped(s)
    ensures 0 <= Spelled(s).year <= 9999 && 0 <= Spelled(s).month <= 99 && 0 <= Spelled(s).day <= 99
  {
    ValueBound(s[..4]);
    ValueBound(s[5..7]);
    ValueBound(s[8..]);
    assert Pow10(2) == 10 * Pow10(1) == 100 * Pow10(0);
    assert Pow10(4) == 10 * Pow10(3) == 100 * Pow10(2);
  }

  /** Printing what a date-shaped string spells gives the string back. */
  lemma IsoOfSpelled(s: string)
    requires DateShaped(s)
    ensures Spelled(s).year >= 0 && Spelled(s).month >= 0 && Spelled(s).day >= 0
    ensures IsoDate(Spelled(s)) == s
  {
    PadOfValue(s[..4]);
    PadOfValue(s[5..7]);
    PadOfValue(s[8..]);
    assert s == s[..4] + "-" + s[5..7] + "-" + s[8..];
  }

  /** Printed dates of four-digit years are date-shaped and spell the date. */
  lemma SpelledOfIso(date: Date)
    requires RealDay(date) && 0 <= date.year <= 9999
    ensures DateShaped(IsoDate(date)) && Spelled(IsoDate(date)) == date
  {
    assert Pow10(2) == 10 * Pow10(1) == 100 * Pow10(0);
    assert Pow10(4) == 10 * Pow10(3) == 100 * Pow10(2);
    PaddedValue(4, date.year);
    PaddedValue(2, date.month);
    PaddedValue(2, date.day);
    var s := IsoDate(date);
    assert s[..4] == PadLeft(4, Render(date.year));
    assert s[5..7] == PadLeft(2, Render(date.month));
    assert s[8..] == PadLeft(2, Render(date.day));
  }

  lemma RolledDay(date: Date)
    requires 1 <= date.month <= 12 && 1 <= date.day <= 31 && 0 <= date.year <= 9999
    ensures DayFromYear(0) <= MakeDay(date.year, date.month, date.day) < DayFromYear(10000)
  {
    YearLength(date.year);
    YearsAscend(0, date.year);
    YearsAscend(date.year + 1, 10000);
    MonthsAscend(date.year, date.month, 12);
  }

  lemma DateOfYear(day: int)
    requires DayFromYear(0) <= day < DayFromYear(10000)
    ensures 0 <= DateOf(day).year
  {
    DateOfIsReal(day);
    var y := DateOf(day).year;
    if y < 0 {
      YearsAscend(y + 1, 0);
      DayInYear(DateOf(day));
    }
  }

  lemma DateOfRolled(s: string, day: int)
    requires DateShaped(s) && DateTimeValue(s) == Some(day)
    ensures RealDay(DateOf(day)) && 0 <= DateOf(day).year <= 9999
    ensures RealDay(Spelled(s)) <==> DateOf(day) == Spelled(s)
  {
    SpelledBounds(s);
    RolledDay(Spelled(s));
    DateOfIsReal(day);
    DateOfYear(day);
    if RealDay(Spelled(s)) {
      DateOfMakeDay(Spelled(s));
    }
  }

  /** Two real dates that print alike are the same; so are a real date and what its string spells. */
  lemma IsoMatches(date: Date, s: string)
    requires RealDay(date) && 0 <= date.year <= 9999 && DateShaped(s)
    ensures IsoDate(date) == s <==> date == Spelled(s)
  {
    SpelledOfIso(date);
    IsoOfSpelled(s);
  }

  /** parseIsoDate accepts exactly the strings that name a real day, and yields that day. */
  lemma ParseIsoDateExact(s: string)
    ensures ParseIsoDate(s).Some? <==> DateShaped(s) && RealDay(Spelled(s))
    ensures ParseIsoDate(s).Some? ==>
              ParseIsoDate(s).value == MakeDay(Spelled(s).year, Spelled(s).month, Spelled(s).day)
  {
    if DateShaped(s) && DateTimeValue(s).Some? {
      var day := DateTimeValue(s).value;
      DateOfRolled(s, day);
      IsoMatches(DateOf(day), s);
    }
  }

  /** Every day of the years 0 to 9999 has exactly one accepted string, the one toISOString prints. */
  lemma IsoDateRoundTrip(day: int)
    requires DayFromYear(0) <= day < DayFromYear(10000)
    ensures var date := DateOf(day);
            date.year >= 0 && date.month >= 0 && date.day >= 0 && ParseIsoDate(IsoDate(date)) == Some(day)
    ensures forall s :: ParseIsoDate(s) == Some(day) ==> s == IsoDate(DateOf(day))
  {
    var date := DateOf(day);
    DateOfIsReal(day);
    DateOfYear(day);
    SpelledOfIso(date);
    ParseIsoDateExact(IsoDate(date));
  }

  // ----- String order

  lemma {:induction false} LexConcat(p: string, a: string, q: string, b: string)
    requires |p| == |q|
    ensures LexLess(p + a, q + b) <==> LexLess(p, q) || (p == q && LexLess(a, b))
  {
    if p == [] {
      assert p + a == a && q + b == b;
    } else {
      assert (p + a)[1..] == p[1..] + a && (q + b)[1..] == q[1..] + b;
      LexConcat(p[1..], a, q[1..], b);
      assert p == [p[0]] + p[1..] && q == [q[0]] + q[1..];
    }
  }

  lemma SpelledOrder(s: string, t: string)
    requires DateShaped(s) && DateShaped(t)
    ensures LexLess(s, t) <==> Earlier(Spelled(s), Spelled(t))
  {
    FixedWidthOrder(s[..4], t[..4]);
    FixedWidthOrder(s[5..7], t[5..7]);
    FixedWidthOrder(s[8..], t[8..]);
    assert s == s[..4] + ("-" + (s[5..7] + ("-" + s[8..]))) && t == t[..4] + ("-" + (t[5..7] + ("-" + t[8..])));
    LexConcat(s[..4], "-" + (s[5..7] + ("-" + s[8..])), t[..4], "-" + (t[5..7] + ("-" + t[8..])));
    LexCommonPrefix("-", s[5..7] + ("-" + s[8..]), t[5..7] + ("-" + t[8..]));
    LexConcat(s[5..7], "-" + s[8..], t[5..7], "-" + t[8..]);
    LexCommonPrefix("-", s[8..], t[8..]);
  }

  /** Accepted date strings compare as strings exactly as their days do. */
  lemma StringOrderIsDayOrder(s: string, t: string)
    requires ParseIsoDate(s).Some? && ParseIsoDate(t).Some?
    ensures LexLess(s, t) <==> ParseIsoDate(s).value < ParseIsoDate(t).value
    ensures s == t <==> ParseIsoDate(s) == ParseIsoDate(t)
  {
    ParseIsoDateExact(s);
    ParseIsoDateExact(t);
    SpelledOrder(s, t);
    var a, b := Spelled(s), Spelled(t);
    if Earlier(a, b) {
      EarlierIsSmaller(a, b);
    } else if Earlier(b, a) {
      EarlierIsSmaller(b, a);
    } else {
      assert a == b;
      IsoOfSpelled(s);
      IsoOfSpelled(t);
    }
  }

  // ----- RFC 3339 instants

  predicate InstantShaped(s: string) {
    |s| == 20 && DateShaped(s[..10]) && s[10] == 'T' && AllDigits(s[11..13]) && s[13] == ':'
    && AllDigits(s[14..16]) && s[16] == ':' && AllDigits(s[17..19]) && s[19] == 'Z'
  }

  /** Seconds since the epoch of a UTC date-time without fraction (section 5.6 of RFC 3339; leap seconds aside). */
  function Instant(s: string): Option<int> {
    if !InstantShaped(s) then None
    else
      var date := Spelled(s[..10]);
      var h, m, sec := Value(s[11..13]), Value(s[14..16]), Value(s[17..19]);
      if RealDay(date) && h <= 23 && m <= 59 && sec <= 59
      then Some(86400 * MakeDay(date.year, date.month, date.day) + 3600 * h + 60 * m + sec)
      else None
  }

  /** trivyExpiration */
  function TrivyExpiration(date: string): string { date + "T23:59:59Z" }

  lemma TwoDigits(s: string)
    requires |s| == 2 && AllDigits(s)
    ensures Value(s) == 10 * DigitValue(s[0]) + DigitValue(s[1])
  {
    assert s[..1][..0] == [];
    assert Value(s[..1]) == DigitValue(s[0]);
  }

  lemma EndOfDayParts(date: string)
    requires DateShaped(date)
    ensures var s := TrivyExpiration(date);
            InstantShaped(s) && s[..10] == date && s[11..13] == "23" && s[14..16] == "59" && s[17..19] == "59"
  {
    var s := TrivyExpiration(date);
    assert s[..10] == date;
    assert s[10..] == "T23:59:59Z";
    assert s[11..13] == s[10..][1..3] && s[14..16] == s[10..][4..6] && s[17..19] == s[10..][7..9];
  }

  lemma EndOfDayValues()
    ensures AllDigits("23") && AllDigits("59") && Value("23") == 23 && Value("59") == 59
  {
    TwoDigits("23");
    TwoDigits("59");
  }

  lemma EndOfRealDay(date: string)
    requires DateShaped(date) && RealDay(Spelled(date))
    ensures Instant(TrivyExpiration(date)) ==
            Some(86400 * MakeDay(Spelled(date).year, Spelled(date).month, Spelled(date).day) + 86399)
  {
    EndOfDayParts(date);
    EndOfDayValues();
  }

  /** The rendered instant is the last whole second of the day. */
  lemma TrivyExpirationIsEndOfDay(date: string)
    requires ParseIsoDate(date).Some?
    ensures Instant(TrivyExpiration(date)) == Some(86400 * ParseIsoDate(date).value + 86399)
  {
    ParseIsoDateExact(date);
    EndOfRealDay(date);
  }
}
