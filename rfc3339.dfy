/**
 * The time values the scheduled-post check works with: the civil date-time that Go's
 * `time.Parse` yields for the layout "2006-01-02 15:04" (no zone, so UTC, whole minutes),
 * its position on the Unix time line, and its rendering with `time.RFC3339`, together with
 * the date-time grammar of section 5.6 of RFC 3339 that the rendering must satisfy.
 */
module Rfc3339 {

  /** A civil date and time of day, to the minute, in UTC. */
  datatype DateTime = DateTime(year: int, month: int, day: int, hour: int, minute: int)

  /** Gregorian leap years. */
  predicate IsLeapYear(y: int) {
    y % 4 == 0 && (y % 100 != 0 || y % 400 == 0)
  }

  /** The length of a month (section 5.7 of RFC 3339 gives the same table). */
  function DaysInMonth(y: int, m: int): (n: int)
    requires 1 <= m <= 12
    ensures 28 <= n <= 31
    ensures n == 29 <==> m == 2 && IsLeapYear(y)
  {
    if m == 2 then (if IsLeapYear(y) then 29 else 28)
    else if m == 4 || m == 6 || m == 9 || m == 11 then 30
    else 31
  }

  /** The date-times the layout can produce: a four-digit year and in-range fields. */
  predicate Valid(t: DateTime) {
    && 0 <= t.year <= 9999
    && 1 <= t.month <= 12
    && 1 <= t.day <= DaysInMonth(t.year, t.month)
    && 0 <= t.hour < 24
    && 0 <= t.minute < 60
  }

  /** What a successful `time.Parse("2006-01-02 15:04", input)` returns. */
  type ParsedTime = t: DateTime | Valid(t) witness DateTime(1970, 1, 1, 0, 0)

  const NanosPerMinute := 60 * 1_000_000_000

  /** Days from 1970-01-01 to the given civil date in the proleptic Gregorian calendar. */
  function DaysFromCivil(y: int, m: int, d: int): int
    requires 1 <= m <= 12
  {
    var yp := if m <= 2 then y - 1 else y;   // years start in March, so leap days fall last
    var era := yp / 400;                     // Dafny's division floors for a positive divisor
    var yoe := yp - era * 400;
    var mp := if m > 2 then m - 3 else m + 9;
    var doy := (153 * mp + 2) / 5 + d - 1;
    var doe := yoe * 365 + yoe / 4 - yoe / 100 + doy;
    era * 146097 + doe - 719468
  }

  /** The civil date that follows a valid one. */
  function NextDay(t: DateTime): (n: DateTime)
    requires Valid(t)
  {
    if t.day < DaysInMonth(t.year, t.month) then t.(day := t.day + 1)
    else if t.month < 12 then t.(month := t.month + 1, day := 1)
    else t.(year := t.year + 1, month := 1, day := 1)
  }

  lemma ShiftMod4(a: int, j: int)
    ensures (4 * a + j) % 4 == j % 4
  {
    assert 4 * a + j == 4 * (a + j / 4) + j % 4;
  }

  lemma ShiftMod100(a: int, j: int)
    ensures (100 * a + j) % 100 == j % 100
  {
    assert 100 * a + j == 100 * (a + j / 100) + j % 100;
  }

  lemma ShiftMod400(a: int, j: int)
    ensures (400 * a + j) % 400 == j % 400
  {
    assert 400 * a + j == 400 * (a + j / 400) + j % 400;
  }

  /** Leap years repeat with a period of 400 years. */
  lemma LeapYearPeriod(era: int, j: int)
    ensures IsLeapYear(era * 400 + j) == IsLeapYear(j)
  {
    ShiftMod4(era * 100, j);
    ShiftMod100(era * 4, j);
    ShiftMod400(era, j);
  }

  /** Moving from year-of-era k to k + 1 adds the leap days the algorithm counts. */
  lemma LeapDaysStep(k: int)
    requires 0 <= k < 399
    ensures (k + 1) / 4 - k / 4 - ((k + 1) / 100 - k / 100) == if IsLeapYear(k + 1) then 1 else 0
  {
  }

  /** The last day of February and the first of March are consecutive, in leap and common years. */
  lemma {:induction false} FebruaryToMarch(y: int)
    ensures DaysFromCivil(y, 3, 1) == DaysFromCivil(y, 2, DaysInMonth(y, 2)) + 1
  {
    var era := (y - 1) / 400;
    var k := (y - 1) - era * 400;
    assert 0 <= k < 400;
    var last := DaysInMonth(y, 2);
    assert DaysFromCivil(y, 2, last) == era * 146097 + (k * 365 + k / 4 - k / 100 + 336 + last) - 719468;
    if k == 399 {
      assert y == (era + 1) * 400 + 0;
      LeapYearPeriod(era + 1, 0);
      assert y / 400 == era + 1;
      assert DaysFromCivil(y, 3, 1) == (era + 1) * 146097 - 719468;
    } else {
      assert y == era * 400 + (k + 1);
      LeapYearPeriod(era, k + 1);
      LeapDaysStep(k);
      assert y / 400 == era;
      assert DaysFromCivil(y, 3, 1) == era * 146097 + ((k + 1) * 365 + (k + 1) / 4 - (k + 1) / 100) - 719468;
    }
  }

  /** The day count starts at the Unix epoch and advances by one from each date to the next. */
  lemma {:induction false} DaysFromCivilCounts(t: DateTime)
    requires Valid(t)
    ensures DaysFromCivil(1970, 1, 1) == 0
    ensures DaysFromCivil(NextDay(t).year, NextDay(t).month, NextDay(t).day)
         == DaysFromCivil(t.year, t.month, t.day) + 1
  {
    if t.day < DaysInMonth(t.year, t.month) {
    } else if t.month == 2 {
      FebruaryToMarch(t.year);
    } else if t.month < 12 {
      assert t.month == 1 || 3 <= t.month <= 11;
    } else {
      assert (t.year + 1) - 1 == t.year;
    }
  }

  /** The exact distance of a parsed time from the Unix epoch, in nanoseconds. */
  function UnixNanos(t: ParsedTime): int {
    ((DaysFromCivil(t.year, t.month, t.day) * 24 + t.hour) * 60 + t.minute) * NanosPerMinute
  }

  // ---- Digits ----

  predicate IsDigit(c: char) {
    '0' <= c <= '9'
  }

  predicate AllDigits(s: string) {
    forall i :: 0 <= i < |s| ==> IsDigit(s[i])
  }

  function DigitChar(d: int): (c: char)
    requires 0 <= d <= 9
    ensures IsDigit(c) && c as int - '0' as int == d
  {
    ('0' as int + d) as char
  }

  /** The decimal value of a string of digits. */
  function Number(s: string): nat
    requires AllDigits(s)
  {
    if s == [] then 0 else Number(s[..|s| - 1]) * 10 + (s[|s| - 1] as int - '0' as int)
  }

  /** `n` in two digits with a leading zero. */
  function Pad2(n: int): string
    requires 0 <= n < 100
  {
    [DigitChar(n / 10), DigitChar(n % 10)]
  }

  /** `n` in four digits with leading zeros. */
  function Pad4(n: int): string
    requires 0 <= n < 10000
  {
    [DigitChar(n / 1000), DigitChar(n / 100 % 10), DigitChar(n / 10 % 10), DigitChar(n % 10)]
  }

  lemma Pad2Reads(n: int)
    requires 0 <= n < 100
    ensures AllDigits(Pad2(n)) && |Pad2(n)| == 2 && Number(Pad2(n)) == n
  {
    var s := Pad2(n);
    assert s[..1] == [DigitChar(n / 10)];
    assert s[..1][..0] == [];
    assert Number(s[..1]) == n / 10;
    assert n == n / 10 * 10 + n % 10;
  }

  lemma Pad4Reads(n: int)
    requires 0 <= n < 10000
    ensures AllDigits(Pad4(n)) && |Pad4(n)| == 4 && Number(Pad4(n)) == n
  {
    var s := Pad4(n);
    assert s[..3] == [DigitChar(n / 1000), DigitChar(n / 100 % 10), DigitChar(n / 10 % 10)];
    assert s[..3][..2] == [DigitChar(n / 1000), DigitChar(n / 100 % 10)];
    assert s[..3][..2][..1] == [DigitChar(n / 1000)];
    assert s[..3][..2][..1][..0] == [];
    assert Number(s[..3][..2][..1]) == n / 1000;
    assert Number(s[..3][..2]) == n / 1000 * 10 + n / 100 % 10;
    assert Number(s[..3]) == (n / 1000 * 10 + n / 100 % 10) * 10 + n / 10 % 10;
    assert n / 100 == n / 1000 * 10 + n / 100 % 10;
    assert n / 10 == n / 100 * 10 + n / 10 % 10;
    assert n == n / 10 * 10 + n % 10;
  }

  // ---- Rendering ----

  /**
   * `t.Format(time.RFC3339)` for a parsed time: the layout "2006-01-02T15:04:05Z07:00"
   * with a zero second and, the zone being UTC, the offset written "Z".
   */
  function Format(t: ParsedTime): string {
    DatePart(t) + "T" + TimePart(t) + "Z"
  }

  /** "2006-01-02" */
  function DatePart(t: ParsedTime): string {
    Pad4(t.year) + "-" + Pad2(t.month) + "-" + Pad2(t.day)
  }

  /** "15:04:05", the second always zero. */
  function TimePart(t: ParsedTime): string {
    Pad2(t.hour) + ":" + Pad2(t.minute) + ":" + Pad2(0)
  }

  // ---- The date-time grammar of section 5.6 of RFC 3339 ----

  /** Two digits whose value lies in `lo..hi`. */
  predicate IsTwoDigitsIn(s: string, lo: int, hi: int) {
    |s| == 2 && AllDigits(s) && lo <= Number(s) <= hi
  }

  /** full-date = date-fullyear "-" date-month "-" date-mday, the day within its month (section 5.7). */
  predicate IsFullDate(s: string) {
    && |s| == 10
    && AllDigits(s[..4]) && s[4] == '-'
    && IsTwoDigitsIn(s[5..7], 1, 12) && s[7] == '-'
    && IsTwoDigitsIn(s[8..10], 1, 31)
    && Number(s[8..10]) <= DaysInMonth(Number(s[..4]), Number(s[5..7]))
  }

  /** partial-time without fraction = time-hour ":" time-minute ":" time-second (60 allows a leap second). */
  predicate IsPartialTime(s: string) {
    && |s| == 8
    && IsTwoDigitsIn(s[..2], 0, 23) && s[2] == ':'
    && IsTwoDigitsIn(s[3..5], 0, 59) && s[5] == ':'
    && IsTwoDigitsIn(s[6..8], 0, 60)
  }

  /** time-offset = "Z" / time-numoffset; "z" is allowed too. */
  predicate IsOffset(s: string) {
    || s == "Z" || s == "z"
    || (|s| == 6 && (s[0] == '+' || s[0] == '-') && IsTwoDigitsIn(s[1..3], 0, 23) && s[3] == ':' && IsTwoDigitsIn(s[4..6], 0, 59))
  }

  /** time-secfrac = "." 1*DIGIT; it is optional in a date-time, hence the empty case. */
  predicate IsSecFrac(s: string) {
    s == [] || (|s| >= 2 && s[0] == '.' && AllDigits(s[1..]))
  }

  /** How long the time-offset ending s is: a numeric offset ends in a digit, "Z" does not. */
  function OffsetLength(s: string): nat {
    if s != [] && (s[|s| - 1] == 'Z' || s[|s| - 1] == 'z') then 1 else 6
  }

  /**
   * date-time = full-date "T" partial-time [time-secfrac] time-offset; "t" is allowed
   * for the separator too.
   */
  predicate IsDateTime(s: string) {
    && |s| >= 19 + OffsetLength(s)
    && IsFullDate(s[..10])
    && (s[10] == 'T' || s[10] == 't')
    && IsPartialTime(s[11..19])
    && IsSecFrac(s[19..|s| - OffsetLength(s)])
    && IsOffset(s[|s| - OffsetLength(s)..])
  }

  /** The civil date and the hour and minute a date-time names. */
  function FieldsOf(s: string): DateTime
    requires IsDateTime(s)
  {
    var date, time := s[..10], s[11..19];
    DateTime(Number(date[..4]), Number(date[5..7]), Number(date[8..10]), Number(time[..2]), Number(time[3..5]))
  }

  function Pow10(k: nat): nat {
    if k == 0 then 1 else 10 * Pow10(k - 1)
  }

  /** The nanoseconds a time-secfrac adds: its first nine digits, the rest dropped as Go does. */
  function FracNanos(f: string): nat
    requires IsSecFrac(f)
  {
    if f == [] then 0
    else
      var digits := f[1..];
      var k := if |digits| < 9 then |digits| else 9;
      Number(digits[..k]) * Pow10(9 - k)
  }

  /** The minutes a time-offset puts local time ahead of UTC. */
  function OffsetMinutes(o: string): int
    requires IsOffset(o)
  {
    if |o| == 1 then 0
    else (if o[0] == '+' then 1 else -1) * (Number(o[1..3]) * 60 + Number(o[4..6]))
  }

  /**
   * The instant a date-time names, in nanoseconds since the Unix epoch: its local date,
   * time and fraction of a second, less its offset from UTC.
   */
  function InstantOf(s: string): int
    requires IsDateTime(s)
  {
    var date, time, n := s[..10], s[11..19], |s| - OffsetLength(s);
    var minutes := (DaysFromCivil(Number(date[..4]), Number(date[5..7]), Number(date[8..10])) * 24
                    + Number(time[..2])) * 60 + Number(time[3..5]);
    (minutes - OffsetMinutes(s[n..])) * NanosPerMinute + Number(time[6..8]) * 1_000_000_000 + FracNanos(s[19..n])
  }

  lemma DatePartReads(t: ParsedTime)
    ensures IsFullDate(DatePart(t))
    ensures Number(DatePart(t)[..4]) == t.year
    ensures Number(DatePart(t)[5..7]) == t.month
    ensures Number(DatePart(t)[8..10]) == t.day
  {
    var d := DatePart(t);
    Pad4Reads(t.year);
    Pad2Reads(t.month);
    Pad2Reads(t.day);
    assert d[..4] == Pad4(t.year);
    assert d[5..7] == Pad2(t.month);
    assert d[8..10] == Pad2(t.day);
  }

  lemma TimePartReads(t: ParsedTime)
    ensures IsPartialTime(TimePart(t))
    ensures Number(TimePart(t)[..2]) == t.hour
    ensures Number(TimePart(t)[3..5]) == t.minute
    ensures TimePart(t)[6..8] == "00" && Number(TimePart(t)[6..8]) == 0
  {
    var p := TimePart(t);
    Pad2Reads(t.hour);
    Pad2Reads(t.minute);
    Pad2Reads(0);
    assert p[..2] == Pad2(t.hour);
    assert p[3..5] == Pad2(t.minute);
    assert p[6..8] == Pad2(0);
  }

  /** Where the parts of the rendering sit. */
  lemma FormatLayout(t: ParsedTime)
    ensures |Format(t)| == 20
    ensures Format(t)[..10] == DatePart(t) && Format(t)[10] == 'T'
    ensures Format(t)[11..19] == TimePart(t) && Format(t)[19..] == "Z"
  {
    var s := Format(t);
    assert |Pad4(t.year)| == 4 && |Pad2(t.month)| == 2 && |Pad2(t.day)| == 2;
    assert |Pad2(t.hour)| == 2 && |Pad2(t.minute)| == 2 && |Pad2(0)| == 2;
    assert s == DatePart(t) + ("T" + TimePart(t) + "Z");
    assert s[..10] == DatePart(t);
    assert s[11..19] == TimePart(t);
  }

  lemma FormatParses(t: ParsedTime)
    ensures IsDateTime(Format(t)) && FieldsOf(Format(t)) == t
  {
    var s := Format(t);
    FormatLayout(t);
    DatePartReads(t);
    TimePartReads(t);
    assert OffsetLength(s) == 1;
    assert s[19..|s| - 1] == [] && s[|s| - 1..] == "Z";
  }

  lemma FormatInstant(t: ParsedTime)
    ensures IsDateTime(Format(t)) && InstantOf(Format(t)) == UnixNanos(t)
  {
    var s := Format(t);
    FormatParses(t);
    FormatLayout(t);
    TimePartReads(t);
    assert OffsetLength(s) == 1 && s[|s| - 1..] == "Z" && s[19..|s| - 1] == [];
    assert OffsetMinutes(s[|s| - 1..]) == 0 && FracNanos(s[19..|s| - 1]) == 0;
    assert Number(s[11..19][6..8]) == 0;
  }

  /**
   * The rendering is an RFC 3339 date-time whose separator is 'T', whose seconds are zero
   * and whose offset is "Z", which names exactly the parsed date, hour and minute, and so
   * the same instant.
   */
  lemma FormatIsDateTime(t: ParsedTime)
    ensures IsDateTime(Format(t))
    ensures Format(t)[10] == 'T' && 'T' in Format(t)
    ensures Format(t)[17..] == "00Z"
    ensures FieldsOf(Format(t)) == t
    ensures InstantOf(Format(t)) == UnixNanos(t)
  {
    var s := Format(t);
    FormatLayout(t);
    TimePartReads(t);
    FormatParses(t);
    FormatInstant(t);
    assert s[17..] == s[11..19][6..8] + s[19..];
  }
}
