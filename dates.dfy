/** Calendar dates as the blog extension uses them: `datetime.strptime(s, "%Y-%m-%d")`
    to read a post's date and `strftime("%Y-%m-%d")` to print it back. Every date
    is taken at midnight in one fixed time zone, so comparing the timestamps
    is comparing (year, month, day) lexicographically. */
module Dates {
  import opened Wrappers
  import Text

  datatype Date = Date(year: int, month: int, day: int)

  /** Gregorian leap years, as Python's `calendar.isleap`. */
  predicate IsLeapYear(y: int) {
    y % 4 == 0 && (y % 100 != 0 || y % 400 == 0)
  }

  function DaysInMonth(y: int, m: int): (n: int)
    requires 1 <= m <= 12
    ensures 28 <= n <= 31
    ensures m == 2 ==> (n == 29 <==> IsLeapYear(y))
  {
    if m == 2 then (if IsLeapYear(y) then 29 else 28)
    else if m == 4 || m == 6 || m == 9 || m == 11 then 30
    else 31
  }

  /** A date Python's `datetime` accepts: years 1 to 9999, a real day of a real month. */
  predicate Valid(d: Date) {
    1 <= d.year <= 9999 && 1 <= d.month <= 12 && 1 <= d.day <= DaysInMonth(d.year, d.month)
  }

  /** The dates a `datetime` can hold. */
  type CalendarDate = d: Date | Valid(d) witness Date(1, 1, 1)

  /** `a < b` on two midnight timestamps of the same zone. */
  predicate Before(a: Date, b: Date) {
    a.year < b.year
    || (a.year == b.year && a.month < b.month)
    || (a.year == b.year && a.month == b.month && a.day < b.day)
  }

  /** `Before` is a strict total order: irreflexive, transitive and total on distinct dates. */
  lemma BeforeIsStrictTotalOrder(a: Date, b: Date, c: Date)
    ensures !Before(a, a)
    ensures Before(a, b) && Before(b, c) ==> Before(a, c)
    ensures a != b ==> (Before(a, b) <==> !Before(b, a))
  {
  }

  /** A later date never belongs to an earlier year. */
  lemma BeforeYear(a: Date, b: Date)
    requires !Before(b, a)
    ensures a.year <= b.year
  {
  }

  predicate IsDigit(c: char) {
    '0' <= c <= '9'
  }

  function DigitValue(c: char): (n: nat)
    requires IsDigit(c)
    ensures n < 10
  {
    c as int - '0' as int
  }

  /** The month field, as the regular expression `1[0-2]|0[1-9]|[1-9]` matches it at
      position `p`: its value and the number of characters it takes. An earlier
      alternative is only given up for a later one when what follows is not the
      `-` separator, and the shorter alternative then fails at that separator too,
      so the first alternative that matches is the only one that can succeed. */
  function MonthField(s: string, p: nat): (r: Option<(int, nat)>)
    ensures r.Some? ==> 1 <= r.value.0 <= 12 && 1 <= r.value.1 <= 2 && p + r.value.1 <= |s|
  {
    if p + 1 < |s| && s[p] == '1' && '0' <= s[p + 1] <= '2' then Some((10 + DigitValue(s[p + 1]), 2))
    else if p + 1 < |s| && s[p] == '0' && '1' <= s[p + 1] <= '9' then Some((DigitValue(s[p + 1]), 2))
    else if p < |s| && '1' <= s[p] <= '9' then Some((DigitValue(s[p]), 1))
    else None
  }

  /** The day field, as `3[01]|[12]\d|0[1-9]|[1-9]| [1-9]` matches it at position `p`:
      the first alternative that matches is taken, since nothing follows it in the pattern. */
  function DayField(s: string, p: nat): (r: Option<(int, nat)>)
    ensures r.Some? ==> 1 <= r.value.0 <= 31 && 1 <= r.value.1 <= 2 && p + r.value.1 <= |s|
  {
    if p + 1 < |s| && s[p] == '3' && '0' <= s[p + 1] <= '1' then Some((30 + DigitValue(s[p + 1]), 2))
    else if p + 1 < |s| && '1' <= s[p] <= '2' && IsDigit(s[p + 1]) then Some((10 * DigitValue(s[p]) + DigitValue(s[p + 1]), 2))
    else if p + 1 < |s| && s[p] == '0' && '1' <= s[p + 1] <= '9' then Some((DigitValue(s[p + 1]), 2))
    else if p < |s| && '1' <= s[p] <= '9' then Some((DigitValue(s[p]), 1))
    else if p + 1 < |s| && s[p] == ' ' && '1' <= s[p + 1] <= '9' then Some((DigitValue(s[p + 1]), 2))
    else None
  }

  /** The year field `\d\d\d\d` at the start of `s`. */
  function YearValue(s: string): (y: nat)
    requires |s| >= 4 && IsDigit(s[0]) && IsDigit(s[1]) && IsDigit(s[2]) && IsDigit(s[3])
    ensures y <= 9999
  {
    1000 * DigitValue(s[0]) + 100 * DigitValue(s[1]) + 10 * DigitValue(s[2]) + DigitValue(s[3])
  }

  /** `datetime.strptime(s, "%Y-%m-%d")`: `None` where Python raises `ValueError`,
      because the text does not match, has characters left over, or names a day
      that does not exist (month 13, 30 February, 29 February of a common year, year 0). */
  function ParseDate(s: string): (r: Option<Date>)
    ensures r.Some? ==> Valid(r.value)
    ensures r.Some? ==> 8 <= |s| <= 10 && s[4] == '-'
  {
    if |s| < 4 || !(IsDigit(s[0]) && IsDigit(s[1]) && IsDigit(s[2]) && IsDigit(s[3]))
       || |s| < 5 || s[4] != '-' then None
    else
      match MonthField(s, 5)
      case None => None
      case Some((m, ml)) =>
        if 5 + ml >= |s| || s[5 + ml] != '-' then None
        else
          match DayField(s, 6 + ml)
          case None => None
          case Some((d, dl)) =>
            var y := YearValue(s);
            if 6 + ml + dl != |s| then None
            else if y < 1 || d > DaysInMonth(y, m) then None
            else Some(Date(y, m, d))
  }

  /** The two-digit, zero-padded rendering of `%m` and `%d`. */
  function Pad2(n: nat): (r: string)
    requires n < 100
  {
    [Text.DigitChar(n / 10), Text.DigitChar(n % 10)]
  }

  /** The four-digit, zero-padded rendering of `%Y`: the two-digit renderings of
      its hundreds and of its remainder. */
  function Pad4(n: nat): (r: string)
    requires n < 10000
  {
    Pad2(n / 100) + Pad2(n % 100)
  }

  /** `d.strftime("%Y-%m-%d")`. */
  function Format(d: Date): (r: string)
    requires Valid(d)
    ensures |r| == 10 && r[4] == '-' && r[7] == '-'
    ensures forall i :: 0 <= i < 10 && i != 4 && i != 7 ==> IsDigit(r[i])
  {
    Pad4(d.year) + "-" + Pad2(d.month) + "-" + Pad2(d.day)
  }

  lemma DigitRoundTrip(n: nat)
    requires n < 10
    ensures IsDigit(Text.DigitChar(n)) && DigitValue(Text.DigitChar(n)) == n
  {
  }

  lemma {:induction false} TwoDigits(n: nat, s: string)
    requires n < 100 && |s| >= 2 && s[..2] == Pad2(n)
    ensures IsDigit(s[0]) && IsDigit(s[1]) && 10 * DigitValue(s[0]) + DigitValue(s[1]) == n
  {
    assert s[0] == Pad2(n)[0] && s[1] == Pad2(n)[1];
    DigitRoundTrip(n / 10);
    DigitRoundTrip(n % 10);
  }

  lemma {:induction false} YearOfPad4(y: nat, t: string)
    requires y < 10000
    ensures YearValue(Pad4(y) + t) == y
  {
    var s := Pad4(y) + t;
    TwoDigits(y / 100, s);
    TwoDigits(y % 100, s[2..]);
  }

  lemma {:induction false} MonthOfPad2(m: nat, s: string)
    requires 1 <= m <= 12
    requires |s| > 6 && s[5..7] == Pad2(m)
    ensures MonthField(s, 5) == Some((m, 2))
  {
    assert s[5] == Pad2(m)[0] && s[6] == Pad2(m)[1];
    DigitRoundTrip(m / 10);
    DigitRoundTrip(m % 10);
  }

  lemma {:induction false} DayOfPad2(d: nat, s: string)
    requires 1 <= d <= 31
    requires |s| > 9 && s[8..10] == Pad2(d)
    ensures DayField(s, 8) == Some((d, 2))
  {
    assert s[8] == Pad2(d)[0] && s[9] == Pad2(d)[1];
    DigitRoundTrip(d / 10);
    DigitRoundTrip(d % 10);
  }

  /** A date printed with `%Y-%m-%d` parses back to itself. */
  lemma {:induction false} ParseFormat(d: Date)
    requires Valid(d)
    ensures ParseDate(Format(d)) == Some(d)
  {
    var s := Format(d);
    YearOfPad4(d.year, "-" + Pad2(d.month) + "-" + Pad2(d.day));
    assert s == Pad4(d.year) + ("-" + Pad2(d.month) + "-" + Pad2(d.day));
    assert s[5..7] == Pad2(d.month) && s[8..10] == Pad2(d.day);
    MonthOfPad2(d.month, s);
    DayOfPad2(d.day, s);
  }

  lemma {:induction false} PadDigits(a: char, b: char)
    requires IsDigit(a) && IsDigit(b)
    ensures Pad2(10 * DigitValue(a) + DigitValue(b)) == [a, b]
  {
  }

  lemma {:induction false} YearDigits(s: string)
    requires |s| >= 4 && IsDigit(s[0]) && IsDigit(s[1]) && IsDigit(s[2]) && IsDigit(s[3])
    ensures Pad4(YearValue(s)) == s[..4]
  {
    var y, hi, lo := YearValue(s), 10 * DigitValue(s[0]) + DigitValue(s[1]), 10 * DigitValue(s[2]) + DigitValue(s[3]);
    assert y == 100 * hi + lo && lo < 100;
    assert y / 100 == hi && y % 100 == lo;
    PadDigits(s[0], s[1]);
    PadDigits(s[2], s[3]);
  }

  /** Python's leniency: a date with unpadded fields still parses, but the canonical
      zero-padded text is the only one `Format` gives back. A ten-character text
      made of digits and the two separators is returned unchanged by the round trip. */
  lemma {:induction false} FormatParse(s: string)
    requires ParseDate(s).Some?
    requires |s| == 10 && forall i :: 0 <= i < 10 && i != 4 && i != 7 ==> IsDigit(s[i])
    ensures Format(ParseDate(s).value) == s
  {
    var d := ParseDate(s).value;
    assert MonthField(s, 5).Some? && MonthField(s, 5).value.1 == 2;
    assert d.month == 10 * DigitValue(s[5]) + DigitValue(s[6]);
    assert DayField(s, 8).Some? && DayField(s, 8).value.1 == 2;
    assert d.day == 10 * DigitValue(s[8]) + DigitValue(s[9]);
    PadDigits(s[5], s[6]);
    PadDigits(s[8], s[9]);
    assert Pad4(d.year) == s[..4] by {
      assert d.year == YearValue(s);
      YearDigits(s);
    }
    assert s == s[..4] + "-" + s[5..7] + "-" + s[8..10];
  }

  /** Dates the build rejects: a month or day out of range, a day the month does
      not have, year 0, characters left over. */
  lemma RejectedExamples()
    ensures ParseDate("2025-13-40") == None
    ensures ParseDate("2023-02-29") == None
  {
  }

  lemma RejectedEdgeExamples()
    ensures ParseDate("0000-01-01") == None
    ensures ParseDate("2025-01-310") == None
  {
  }

  /** Dates the build accepts: a leap day, and unpadded fields. */
  lemma AcceptedExamples()
    ensures ParseDate("2024-02-29") == Some(Date(2024, 2, 29))
    ensures ParseDate("2025-3-1") == Some(Date(2025, 3, 1))
  {
  }

  lemma SpacePaddedDayExample()
    ensures ParseDate("2025-03- 1") == Some(Date(2025, 3, 1))
  {
  }
}
