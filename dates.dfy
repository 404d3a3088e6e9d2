/** Calendar dates as Go's `time.Parse("2006-01-02", ...)` accepts them, and
    the instants they stand for. */
module Dates {
  import opened Common
  import opened Text

  /** A point in time: nanoseconds since Go's zero time, 0001-01-01 00:00:00 UTC.
      `time.Time.IsZero` holds exactly of 0 and `After` is `>`. */
  type Instant = int

  const ZeroInstant: Instant := 0
  const NanosPerDay: int := 86_400_000_000_000

  datatype Date = Date(year: int, month: int, day: int)

  predicate IsLeap(year: int) {
    year % 4 == 0 && (year % 100 != 0 || year % 400 == 0)
  }

  function DaysIn(month: int, year: int): int {
    if month == 2 then (if IsLeap(year) then 29 else 28)
    else if month == 4 || month == 6 || month == 9 || month == 11 then 30
    else 31
  }

  function YearLength(year: int): int {
    if IsLeap(year) then 366 else 365
  }

  /** A date `time.Parse` accepts from four year digits, month 1-12 and a day
      that exists in that month of that (proleptic Gregorian) year. */
  predicate Valid(d: Date) {
    0 <= d.year <= 9999 && 1 <= d.month <= 12 && 1 <= d.day <= DaysIn(d.month, d.year)
  }

  /** Days from 0001-01-01 to January 1 of `year`. */
  function DaysBeforeYear(year: nat): int {
    if year == 0 then -YearLength(0) else DaysBeforeYear(year - 1) + YearLength(year - 1)
  }

  /** Days from January 1 to the first of `month` (13 stands for the next year). */
  function DaysBeforeMonth(month: int, year: int): int
    requires 1 <= month <= 13
  {
    var leap := if IsLeap(year) && month > 2 then 1 else 0;
    leap + (
      if month == 1 then 0 else if month == 2 then 31 else if month == 3 then 59
      else if month == 4 then 90 else if month == 5 then 120 else if month == 6 then 151
      else if month == 7 then 181 else if month == 8 then 212 else if month == 9 then 243
      else if month == 10 then 273 else if month == 11 then 304 else if month == 12 then 334
      else 365)
  }

  /** Days from 0001-01-01 to `d`. */
  function DayNumber(d: Date): int
    requires Valid(d)
  {
    DaysBeforeYear(d.year) + DaysBeforeMonth(d.month, d.year) + d.day - 1
  }

  /** The instant `time.Parse` returns for a date: its midnight in UTC. */
  function Midnight(d: Date): Instant
    requires Valid(d)
  {
    DayNumber(d) * NanosPerDay
  }

  /** Calendar order. */
  predicate Precedes(a: Date, b: Date) {
    a.year < b.year
    || (a.year == b.year && a.month < b.month)
    || (a.year == b.year && a.month == b.month && a.day < b.day)
  }

  lemma DayWithinYear(d: Date)
    requires Valid(d)
    ensures DaysBeforeYear(d.year) <= DayNumber(d) < DaysBeforeYear(d.year) + YearLength(d.year)
  {
  }

  lemma {:induction false} YearsAscend(y1: nat, y2: nat)
    requires y1 < y2
    ensures DaysBeforeYear(y1) + YearLength(y1) <= DaysBeforeYear(y2)
    decreases y2
  {
    if y1 + 1 < y2 {
      YearsAscend(y1, y2 - 1);
    }
  }

  /** Calendar order and instant order agree on valid dates. */
  lemma DayNumberAscends(a: Date, b: Date)
    requires Valid(a) && Valid(b) && Precedes(a, b)
    ensures DayNumber(a) < DayNumber(b)
  {
    if a.year < b.year {
      DayWithinYear(a);
      YearsAscend(a.year, b.year);
    }
  }

  /** Comparing two parsed dates as instants is comparing them as dates. */
  lemma MidnightOrder(a: Date, b: Date)
    requires Valid(a) && Valid(b)
    ensures Precedes(a, b) <==> Midnight(a) < Midnight(b)
    ensures a == b <==> Midnight(a) == Midnight(b)
  {
    if Precedes(a, b) {
      DayNumberAscends(a, b);
    } else if Precedes(b, a) {
      DayNumberAscends(b, a);
    }
  }

  /** The only valid date whose midnight is Go's zero time is 0001-01-01. */
  lemma ZeroMidnight(d: Date)
    requires Valid(d)
    ensures Midnight(d) == ZeroInstant <==> d == Date(1, 1, 1)
  {
    assert DaysBeforeYear(1) == 0;
    assert Midnight(Date(1, 1, 1)) == 0;
    MidnightOrder(d, Date(1, 1, 1));
  }

  predicate IsDigit(c: char) {
    '0' <= c <= '9'
  }

  function DigitValue(c: char): int
    requires IsDigit(c)
  {
    c as int - '0' as int
  }

  function DigitChar(n: int): char
    requires 0 <= n <= 9
  {
    ('0' as int + n) as char
  }

  /** The regular expression `^\d{4}-\d{2}-\d{2}` (ASCII digits). */
  predicate HasDatePrefix(s: string) {
    |s| >= 10
    && IsDigit(s[0]) && IsDigit(s[1]) && IsDigit(s[2]) && IsDigit(s[3]) && s[4] == '-'
    && IsDigit(s[5]) && IsDigit(s[6]) && s[7] == '-' && IsDigit(s[8]) && IsDigit(s[9])
  }

  /** `time.Parse("2006-01-02", s)`: exactly four year digits, two month digits
      and two day digits separated by '-', nothing else, and a valid date. */
  function ParseDate(s: string): (r: Option<Date>)
    ensures r.Some? ==> Valid(r.value)
  {
    if |s| == 10 && HasDatePrefix(s) then
      var d := Date(
        1000 * DigitValue(s[0]) + 100 * DigitValue(s[1]) + 10 * DigitValue(s[2]) + DigitValue(s[3]),
        10 * DigitValue(s[5]) + DigitValue(s[6]),
        10 * DigitValue(s[8]) + DigitValue(s[9]));
      if Valid(d) then Some(d) else None
    else None
  }

  /** The `YYYY-MM-DD` text of a valid date. */
  function Format(d: Date): (r: string)
    requires Valid(d)
    ensures |r| == 10
  {
    [DigitChar(d.year / 10 / 10 / 10), DigitChar(d.year / 10 / 10 % 10), DigitChar(d.year / 10 % 10),
     DigitChar(d.year % 10), '-', DigitChar(d.month / 10), DigitChar(d.month % 10), '-',
     DigitChar(d.day / 10), DigitChar(d.day % 10)]
  }

  lemma DigitRoundTrip(n: int, c: char)
    ensures 0 <= n <= 9 ==> IsDigit(DigitChar(n)) && DigitValue(DigitChar(n)) == n
    ensures IsDigit(c) ==> 0 <= DigitValue(c) <= 9 && DigitChar(DigitValue(c)) == c
  {
  }

  lemma FourDigits(a: int, b: int, c: int, e: int)
    requires 0 <= a <= 9 && 0 <= b <= 9 && 0 <= c <= 9 && 0 <= e <= 9
    ensures var y := 1000 * a + 100 * b + 10 * c + e;
      y / 10 / 10 / 10 == a && y / 10 / 10 % 10 == b && y / 10 % 10 == c && y % 10 == e
  {
    var y := 1000 * a + 100 * b + 10 * c + e;
    assert y / 10 == 100 * a + 10 * b + c;
    assert y / 10 / 10 == 10 * a + b;
  }

  lemma DecimalYear(y: int)
    requires 0 <= y <= 9999
    ensures 0 <= y / 10 / 10 / 10 <= 9
    ensures y == 1000 * (y / 10 / 10 / 10) + 100 * (y / 10 / 10 % 10) + 10 * (y / 10 % 10) + y % 10
  {
    var q1 := y / 10;
    var q2 := q1 / 10;
    assert y == 10 * q1 + y % 10;
    assert q1 == 10 * q2 + q1 % 10;
    assert q2 == 10 * (q2 / 10) + q2 % 10;
  }

  lemma TwoDigits(a: int, b: int)
    requires 0 <= a <= 9 && 0 <= b <= 9
    ensures (10 * a + b) / 10 == a && (10 * a + b) % 10 == b
  {
  }

  lemma FormatDigits(d: Date)
    requires Valid(d)
    ensures var s := Format(d);
      && HasDatePrefix(s)
      && DigitValue(s[0]) == d.year / 10 / 10 / 10 && DigitValue(s[1]) == d.year / 10 / 10 % 10
      && DigitValue(s[2]) == d.year / 10 % 10 && DigitValue(s[3]) == d.year % 10
      && DigitValue(s[5]) == d.month / 10 && DigitValue(s[6]) == d.month % 10
      && DigitValue(s[8]) == d.day / 10 && DigitValue(s[9]) == d.day % 10
  {
    var y := d.year;
    DecimalYear(y);
    DigitRoundTrip(y / 10 / 10 / 10, ' ');
    DigitRoundTrip(y / 10 / 10 % 10, ' ');
    DigitRoundTrip(y / 10 % 10, ' ');
    DigitRoundTrip(y % 10, ' ');
    DigitRoundTrip(d.month / 10, ' ');
    DigitRoundTrip(d.month % 10, ' ');
    DigitRoundTrip(d.day / 10, ' ');
    DigitRoundTrip(d.day % 10, ' ');
  }

  lemma ParseOfFormat(d: Date)
    requires Valid(d)
    ensures ParseDate(Format(d)) == Some(d)
  {
    FormatDigits(d);
    DecimalYear(d.year);
  }

  lemma FormatOfParse(s: string)
    requires ParseDate(s).Some?
    ensures Format(ParseDate(s).value) == s
  {
    var d := ParseDate(s).value;
    var f := Format(d);
    FourDigits(DigitValue(s[0]), DigitValue(s[1]), DigitValue(s[2]), DigitValue(s[3]));
    TwoDigits(DigitValue(s[5]), DigitValue(s[6]));
    TwoDigits(DigitValue(s[8]), DigitValue(s[9]));
    DigitRoundTrip(0, s[0]);
    DigitRoundTrip(0, s[1]);
    DigitRoundTrip(0, s[2]);
    DigitRoundTrip(0, s[3]);
    DigitRoundTrip(0, s[5]);
    DigitRoundTrip(0, s[6]);
    DigitRoundTrip(0, s[8]);
    DigitRoundTrip(0, s[9]);
    assert f[0] == s[0] && f[1] == s[1] && f[2] == s[2] && f[3] == s[3] && f[4] == s[4];
    assert f[5] == s[5] && f[6] == s[6] && f[7] == s[7] && f[8] == s[8] && f[9] == s[9];
  }

  /** A text parses as a date exactly when it is that date's canonical form. */
  lemma ParseFormat(s: string, d: Date)
    ensures ParseDate(s) == Some(d) <==> Valid(d) && s == Format(d)
  {
    if Valid(d) && s == Format(d) {
      ParseOfFormat(d);
    }
    if ParseDate(s) == Some(d) {
      FormatOfParse(s);
    }
  }

  /** A line that carries a publish date: it starts like a date and its
      white-space-trimmed text parses as one. */
  predicate IsDateLine(line: string) {
    HasDatePrefix(line) && ParseDate(TrimSpace(line)).Some?
  }

  lemma DateLineStartsWithDigit(line: string)
    requires IsDateLine(line)
    ensures IsDigit(line[0])
  {
  }

  /** The instant a date line stands for. */
  function DateLineInstant(line: string): Instant
    requires IsDateLine(line)
  {
    Midnight(ParseDate(TrimSpace(line)).value)
  }

  lemma DigitIsNotSpace(c: char)
    requires IsDigit(c)
    ensures !IsSpace(c)
  {
  }

  /** Trimming a line with a date prefix keeps at least the ten date
      characters and removes only trailing white space. */
  lemma TrimDatePrefixed(line: string)
    requires HasDatePrefix(line)
    ensures TrimSpace(line) == TrimRightSpace(line)
    ensures 10 <= |TrimRightSpace(line)| && TrimRightSpace(line)[..10] == line[..10]
  {
    DigitIsNotSpace(line[0]);
    DigitIsNotSpace(line[9]);
    assert TrimLeftSpace(line) == line;
    var t := TrimRightSpace(line);
    assert t == line[..|t|];
  }

  /** A date-prefixed line trims to exactly its ten date characters when
      and only when the rest is white space. */
  lemma TrimToTen(line: string)
    requires HasDatePrefix(line)
    ensures |TrimRightSpace(line)| == 10 <==> forall k :: 10 <= k < |line| ==> IsSpace(line[k])
  {
    TrimDatePrefixed(line);
    var t := TrimRightSpace(line);
    if forall k :: 10 <= k < |line| ==> IsSpace(line[k]) {
      assert |t| <= 10;
    }
  }

  /** A date line is ten date characters followed only by white space:
      "2024-01-01 x" and "2024-02-30" are not date lines. */
  lemma DateLineShape(line: string)
    ensures IsDateLine(line) <==>
      HasDatePrefix(line) && ParseDate(line[..10]).Some?
      && forall k :: 10 <= k < |line| ==> IsSpace(line[k])
  {
    if HasDatePrefix(line) {
      TrimDatePrefixed(line);
      TrimToTen(line);
      var t := TrimRightSpace(line);
      if |t| == 10 {
        assert t == line[..10];
      }
    }
  }
}
