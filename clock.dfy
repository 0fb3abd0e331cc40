/** Instants as milliseconds since the epoch, the day arithmetic the
    controllers perform on JavaScript `Date` objects, and the
    `yyyy-mm-ddT00:00:00.000Z` day string. The server's local time zone is
    taken to be UTC, so local midnight is UTC midnight and `getDay()` is the
    UTC weekday. */
module Clock {
  import opened Common
  import opened Text

  /** `1000 * 60 * 60 * 24` */
  const MS_PER_DAY := 86400000

  /** The day number of an instant (day 0 is 1970-01-01); Dafny's division
      floors for a positive divisor, so instants before 1970 land on the right day. */
  function DayOf(t: int): int
  {
    t / MS_PER_DAY
  }

  /** `setHours(0, 0, 0, 0)`: midnight of the instant's day. */
  function StartOfDay(t: int): (r: int)
    ensures r <= t < r + MS_PER_DAY && DayOf(r) == DayOf(t)
    ensures r == DayOf(t) * MS_PER_DAY
  {
    DayOf(t) * MS_PER_DAY
  }

  /** `setHours(23, 59, 59, 999)`: the last millisecond of the instant's day. */
  function EndOfDay(t: int): (r: int)
    ensures r - MS_PER_DAY < t <= r && DayOf(r) == DayOf(t)
    ensures r == StartOfDay(t) + MS_PER_DAY - 1
  {
    DayOf(t) * MS_PER_DAY + MS_PER_DAY - 1
  }

  /** `getDay()`: 0 is Sunday and 6 is Saturday; 1970-01-01 was a Thursday. */
  function Weekday(t: int): (d: int)
    ensures 0 <= d < 7
  {
    (DayOf(t) + 4) % 7
  }

  predicate IsWeekend(t: int)
  {
    Weekday(t) == 0 || Weekday(t) == 6
  }

  /** `Math.ceil(a / b)` for a positive divisor and an integral quotient. */
  function CeilDiv(a: int, b: int): (q: int)
    requires b > 0
    ensures (q - 1) * b < a <= q * b
  {
    -((-a) / b)
  }

  /** A JavaScript `Date`, whose `setHours` changes the object in place. */
  class JsDate {
    var time: int

    constructor (t: int)
      ensures time == t
    {
      time := t;
    }

    /** `date.setHours(0, 0, 0, 0)`, which also returns the new time. */
    method SetStartOfDay() returns (t: int)
      modifies this
      ensures time == StartOfDay(old(time)) && t == time
    {
      time := StartOfDay(time);
      t := time;
    }

    /** `date.setHours(23, 59, 59, 999)`, which also returns the new time. */
    method SetEndOfDay() returns (t: int)
      modifies this
      ensures time == EndOfDay(old(time)) && t == time
    {
      time := EndOfDay(time);
      t := time;
    }
  }

  /** `String(n).padStart(2, '0')` for n below 100. */
  function Pad2(n: nat): (r: string)
    requires n < 100
    ensures |r| == 2 && AllDigits(r)
  {
    DecimalLength(n);
    if n < 10 then "0" + Decimal(n) else Decimal(n)
  }

  /** The fixed time-of-day part of the day string. */
  const MIDNIGHT_SUFFIX := "T00:00:00.000Z"

  /** The string built from `getFullYear()`, `getMonth() + 1` (padded) and
      `getDate()` (padded), followed by `T00:00:00.000Z`. */
  function DayString(year: nat, month: int, date: int): string
    requires 0 <= month < 12 && 1 <= date <= 31
  {
    Decimal(year) + "-" + Pad2(month + 1) + "-" + Pad2(date) + MIDNIGHT_SUFFIX
  }

  datatype CivilDay = CivilDay(year: nat, month: nat, day: nat)

  /** Reads a `yyyy-mm-ddT00:00:00.000Z` string (the year of any length)
      back into its year, month (1-12) and day of the month. */
  function ParseDayString(s: string): Option<CivilDay>
  {
    if |s| < 21 then None
    else
      var n := |s| - 20;
      var y, mm, dd := s[..n], s[n + 1..n + 3], s[n + 4..n + 6];
      if AllDigits(y) && s[n] == '-' && AllDigits(mm) && s[n + 3] == '-' && AllDigits(dd)
         && s[n + 6..] == MIDNIGHT_SUFFIX
      then Some(CivilDay(DigitsValue(y), DigitsValue(mm), DigitsValue(dd)))
      else None
  }

  lemma Pad2Value(n: nat)
    requires n < 100
    ensures DigitsValue(Pad2(n)) == n
  {
    DecimalRoundTrip(n);
    DecimalLength(n);
    if n < 10 {
      var r := Pad2(n);
      assert r[..1] == "0";
    }
  }

  /** Any digits in the day-string shape parse back to the numbers they spell. */
  lemma ParseDayShape(y: string, mm: string, dd: string)
    requires 1 <= |y| && AllDigits(y) && |mm| == 2 && AllDigits(mm) && |dd| == 2 && AllDigits(dd)
    ensures ParseDayString(y + "-" + mm + "-" + dd + MIDNIGHT_SUFFIX)
         == Some(CivilDay(DigitsValue(y), DigitsValue(mm), DigitsValue(dd)))
  {
    var s1 := y + "-";
    var s2 := s1 + mm;
    var s3 := s2 + "-";
    var s4 := s3 + dd;
    var s := s4 + MIDNIGHT_SUFFIX;
    var n := |y|;
    assert |s| == n + 20;
    assert s[..n] == y by { assert s1[..n] == y; assert s[..n] == s1[..n]; }
    assert s[n] == '-' && s[n + 3] == '-';
    assert s[n + 1..n + 3] == mm by { assert s[n + 1..n + 3] == s2[n + 1..]; }
    assert s[n + 4..n + 6] == dd by { assert s[n + 4..n + 6] == s4[n + 4..]; }
    assert s[n + 6..] == MIDNIGHT_SUFFIX;
  }

  /** The day string of a four-digit year is 24 characters long, and parsing
      it back yields the same year, month and day. */
  lemma DayStringRoundTrip(year: nat, month: int, date: int)
    requires 0 <= month < 12 && 1 <= date <= 31
    ensures |DayString(year, month, date)| == |Decimal(year)| + 20
    ensures 1000 <= year <= 9999 ==> |DayString(year, month, date)| == 24
    ensures ParseDayString(DayString(year, month, date)) == Some(CivilDay(year, month + 1, date))
  {
    DecimalLength(year);
    DecimalRoundTrip(year);
    Pad2Value(month + 1);
    Pad2Value(date);
    ParseDayShape(Decimal(year), Pad2(month + 1), Pad2(date));
  }
}
