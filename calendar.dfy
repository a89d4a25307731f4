/**
 * Python's proleptic Gregorian calendar as the merge core uses it.
 *
 * A naive `datetime` is an integer number of microseconds since
 * 0001-01-01T00:00:00 (the start of Python's `datetime` range); an aware
 * one pairs that wall-clock reading with a fixed UTC offset in minutes.
 * `strptime`/`strftime` are modelled only for the formats the HRM file
 * uses: '%Y%m%d', '%H:%M:%S.%f' (read) and '%H:%M:%S.0' (written).
 */
module Calendar {
  import opened Wrappers
  import opened Py

  datatype Date = Date(year: int, month: int, day: int)
  datatype TimeOfDay = TimeOfDay(hour: int, minute: int, second: int, micro: int)

  predicate IsLeap(y: int)
  {
    y % 4 == 0 && (y % 100 != 0 || y % 400 == 0)
  }

  function DaysInYear(y: int): int
  {
    if IsLeap(y) then 366 else 365
  }

  function DaysInMonth(y: int, m: int): int
    requires 1 <= m <= 12
  {
    if m == 2 then (if IsLeap(y) then 29 else 28)
    else if m == 4 || m == 6 || m == 9 || m == 11 then 30
    else 31
  }

  /** Days in the months of year `y` before month `m`. */
  function DaysBeforeMonth(y: int, m: int): int
    requires 1 <= m <= 12
  {
    [0, 31, 59, 90, 120, 151, 181, 212, 243, 273, 304, 334][m - 1]
      + (if m > 2 && IsLeap(y) then 1 else 0)
  }

  lemma DaysBeforeNextMonth(y: int, m: int)
    requires 1 <= m < 12
    ensures DaysBeforeMonth(y, m + 1) == DaysBeforeMonth(y, m) + DaysInMonth(y, m)
  {
  }

  lemma DaysBeforeLastMonth(y: int)
    ensures DaysBeforeMonth(y, 12) + DaysInMonth(y, 12) == DaysInYear(y)
  {
  }

  /** Days in the years from 0001 up to, not including, `y`. */
  function DaysBeforeYear(y: int): nat
  {
    if y <= 1 then 0 else DaysBeforeYear(y - 1) + DaysInYear(y - 1)
  }

  predicate ValidDate(d: Date)
  {
    1 <= d.year <= 9999 && 1 <= d.month <= 12 && 1 <= d.day <= DaysInMonth(d.year, d.month)
  }

  predicate ValidTime(t: TimeOfDay)
  {
    0 <= t.hour < 24 && 0 <= t.minute < 60 && 0 <= t.second < 60 && 0 <= t.micro < 1000000
  }

  /** Days since 0001-01-01 (which is day 0). */
  function Ordinal(d: Date): int
    requires 1 <= d.month <= 12
  {
    DaysBeforeYear(d.year) + DaysBeforeMonth(d.year, d.month) + d.day - 1
  }

  const MicrosPerSecond: int := 1000000
  const MicrosPerMinute: int := 60 * MicrosPerSecond
  const MicrosPerDay: int := 86400 * MicrosPerSecond

  /** `datetime.combine(d, t)`, as microseconds since 0001-01-01T00:00. */
  function Combine(d: Date, t: TimeOfDay): int
    requires 1 <= d.month <= 12
  {
    Ordinal(d) * MicrosPerDay
      + ((t.hour * 60 + t.minute) * 60 + t.second) * MicrosPerSecond + t.micro
  }

  /** The naive datetimes Python can represent (years 1 to 9999). */
  predicate ValidStamp(n: int)
  {
    0 <= n < DaysBeforeYear(10000) * MicrosPerDay
  }

  // ---------------------------------------------------------------------
  // From a day number back to a calendar date
  // ---------------------------------------------------------------------

  /** The date `n` days after the first of month `m` of year `y`. */
  function MonthFrom(y: int, m: int, n: nat): (d: Date)
    requires 1 <= m <= 12
    requires n < DaysInYear(y) - DaysBeforeMonth(y, m)
    decreases 12 - m
  {
    if n < DaysInMonth(y, m) || m == 12 then Date(y, m, n + 1)
    else MonthFrom(y, m + 1, n - DaysInMonth(y, m))
  }

  /** The date `n` days after the first of January of year `y`. */
  function DateFrom(y: int, n: nat): Date
    decreases n
  {
    if n < DaysInYear(y) then MonthFrom(y, 1, n)
    else DateFrom(y + 1, n - DaysInYear(y))
  }

  lemma {:induction false} MonthFromCorrect(y: int, m: int, n: nat)
    requires 1 <= m <= 12
    requires n < DaysInYear(y) - DaysBeforeMonth(y, m)
    ensures var d := MonthFrom(y, m, n);
      d.year == y && m <= d.month <= 12 && 1 <= d.day <= DaysInMonth(y, d.month) &&
      DaysBeforeMonth(y, d.month) + d.day - 1 == DaysBeforeMonth(y, m) + n
    decreases 12 - m
  {
    if n < DaysInMonth(y, m) {
    } else if m == 12 {
      DaysBeforeLastMonth(y);
    } else {
      DaysBeforeNextMonth(y, m);
      MonthFromCorrect(y, m + 1, n - DaysInMonth(y, m));
    }
  }

  lemma {:induction false} DateFromCorrect(y: int, n: nat)
    requires 1 <= y <= 9999
    requires n < DaysBeforeYear(10000) - DaysBeforeYear(y)
    ensures ValidDate(DateFrom(y, n))
    ensures Ordinal(DateFrom(y, n)) == DaysBeforeYear(y) + n
    decreases n
  {
    if n < DaysInYear(y) {
      MonthFromCorrect(y, 1, n);
    } else {
      assert DaysBeforeYear(y + 1) == DaysBeforeYear(y) + DaysInYear(y);
      DateFromCorrect(y + 1, n - DaysInYear(y));
    }
  }

  /** `stamp.date()` for a naive datetime. */
  function DateOf(stamp: int): Date
    requires stamp >= 0
  {
    DateFrom(1, stamp / MicrosPerDay)
  }

  /** `stamp.time()` for a naive datetime. */
  function TimeOf(stamp: int): TimeOfDay
    requires stamp >= 0
  {
    var r := stamp % MicrosPerDay;
    var secs := r / MicrosPerSecond;
    var mins := secs / 60;
    TimeOfDay(mins / 60, mins % 60, secs % 60, r % MicrosPerSecond)
  }

  /** `datetime.combine(stamp.date(), stamp.time()) == stamp`, and both parts are valid. */
  lemma DateTimeOf(stamp: int)
    requires ValidStamp(stamp)
    ensures ValidDate(DateOf(stamp)) && ValidTime(TimeOf(stamp))
    ensures Combine(DateOf(stamp), TimeOf(stamp)) == stamp
  {
    var k := stamp / MicrosPerDay;
    var r := stamp % MicrosPerDay;
    assert stamp == k * MicrosPerDay + r;
    assert k < DaysBeforeYear(10000);
    DateFromCorrect(1, k);
    var secs := r / MicrosPerSecond;
    var mins := secs / 60;
    assert r == secs * MicrosPerSecond + r % MicrosPerSecond;
    assert secs == mins * 60 + secs % 60;
    assert mins == (mins / 60) * 60 + mins % 60;
    assert secs < 86400 && mins < 1440;
  }

  // ---------------------------------------------------------------------
  // strftime / strptime for the HRM header
  // ---------------------------------------------------------------------

  /** Two zero-padded decimal digits. */
  function Pad2(n: int): (s: string)
    requires 0 <= n < 100
    ensures |s| == 2 && AllDigits(s)
  {
    [DigitChar(n / 10), DigitChar(n % 10)]
  }

  /** Four zero-padded decimal digits. */
  function Pad4(n: int): (s: string)
    requires 0 <= n < 10000
    ensures |s| == 4 && AllDigits(s)
  {
    Pad2(n / 100) + Pad2(n % 100)
  }

  lemma DigitsValue2(s: string)
    requires |s| == 2 && AllDigits(s)
    ensures DigitsValue(s) == 10 * DigitOf(s[0]) + DigitOf(s[1])
  {
    var s1 := s[..1];
    assert s1[..0] == [] && s1[0] == s[0];
    assert DigitsValue(s1) == DigitOf(s[0]);
  }

  lemma DigitsValue4(s: string)
    requires |s| == 4 && AllDigits(s)
    ensures DigitsValue(s) == 100 * DigitsValue(s[..2]) + DigitsValue(s[2..])
  {
    assert s[..3][..2] == s[..2];
    assert s[..2][..1][..0] == [];
    DigitsValue2(s[..2]);
    DigitsValue2(s[2..]);
  }

  lemma Pad2Value(n: int)
    requires 0 <= n < 100
    ensures DigitsValue(Pad2(n)) == n
  {
    DigitsValue2(Pad2(n));
    DigitRoundTrip(n / 10);
    DigitRoundTrip(n % 10);
  }

  lemma Pad4Value(n: int)
    requires 0 <= n < 10000
    ensures DigitsValue(Pad4(n)) == n
  {
    var s := Pad4(n);
    assert s[..2] == Pad2(n / 100) && s[2..] == Pad2(n % 100);
    DigitsValue4(s);
    Pad2Value(n / 100);
    Pad2Value(n % 100);
  }

  /** Two digits are the padding of their own value. */
  lemma Pad2OfValue(s: string)
    requires |s| == 2 && AllDigits(s)
    ensures DigitsValue(s) < 100 && Pad2(DigitsValue(s)) == s
  {
    DigitsValue2(s);
    var v := DigitsValue(s);
    assert v / 10 == DigitOf(s[0]) && v % 10 == DigitOf(s[1]);
    assert DigitChar(DigitOf(s[0])) == s[0];
    assert DigitChar(DigitOf(s[1])) == s[1];
  }

  lemma Pad4OfValue(s: string)
    requires |s| == 4 && AllDigits(s)
    ensures DigitsValue(s) < 10000 && Pad4(DigitsValue(s)) == s
  {
    DigitsValue4(s);
    Pad2OfValue(s[..2]);
    Pad2OfValue(s[2..]);
    var v := DigitsValue(s);
    assert v / 100 == DigitsValue(s[..2]) && v % 100 == DigitsValue(s[2..]);
    assert s[..2] + s[2..] == s;
  }

  /** `date.strftime('%Y%m%d')`. */
  function FormatDate(d: Date): (s: string)
    requires ValidDate(d)
    ensures |s| == 8 && AllDigits(s)
  {
    Pad4(d.year) + Pad2(d.month) + Pad2(d.day)
  }

  /** `datetime.strptime(s, '%Y%m%d').date()`, read strictly as eight digits; None is a ValueError. */
  function ParseDate(s: string): (r: Option<Date>)
    ensures r.Some? ==> ValidDate(r.value)
  {
    if |s| == 8 && AllDigits(s) then
      var d := Date(DigitsValue(s[..4]), DigitsValue(s[4..6]), DigitsValue(s[6..]));
      if ValidDate(d) then Some(d) else None
    else None
  }

  /** A written date reads back as itself. */
  lemma ParseFormatDate(d: Date)
    requires ValidDate(d)
    ensures ParseDate(FormatDate(d)) == Some(d)
  {
    var s := FormatDate(d);
    assert s[..4] == Pad4(d.year) && s[4..6] == Pad2(d.month) && s[6..] == Pad2(d.day);
    Pad4Value(d.year);
    Pad2Value(d.month);
    Pad2Value(d.day);
  }

  /** The date reader accepts only the canonical spelling of a date. */
  lemma FormatParseDate(s: string)
    requires ParseDate(s).Some?
    ensures FormatDate(ParseDate(s).value) == s
  {
    Pad4OfValue(s[..4]);
    Pad2OfValue(s[4..6]);
    Pad2OfValue(s[6..]);
    assert s[..4] + s[4..6] + s[6..] == s;
  }

  function Pow10(k: nat): nat
  {
    if k == 0 then 1 else 10 * Pow10(k - 1)
  }

  /**
   * `datetime.strptime(s, '%H:%M:%S.%f').time()`, read strictly: two digits
   * each for hours, minutes and seconds and one to six fraction digits,
   * which are scaled to microseconds as `%f` does. None is a ValueError.
   */
  function ParseTime(s: string): (r: Option<TimeOfDay>)
    ensures r.Some? ==> ValidTime(r.value)
  {
    if 10 <= |s| <= 15 && s[2] == ':' && s[5] == ':' && s[8] == '.'
       && AllDigits(s[..2]) && AllDigits(s[3..5]) && AllDigits(s[6..8]) && AllDigits(s[9..])
    then
      var frac := s[9..];
      var t := TimeOfDay(DigitsValue(s[..2]), DigitsValue(s[3..5]), DigitsValue(s[6..8]),
                         DigitsValue(frac) * Pow10(6 - |frac|));
      if t.hour < 24 && t.minute < 60 && t.second < 60 && t.micro < 1000000 then Some(t) else None
    else None
  }

  /** `t.strftime('%H:%M:%S.0')`: the fraction is written as a literal zero. */
  function FormatStartTime(t: TimeOfDay): (s: string)
    requires ValidTime(t)
    ensures |s| == 10
  {
    Pad2(t.hour) + ":" + Pad2(t.minute) + ":" + Pad2(t.second) + ".0"
  }

  /** A written start time reads back as itself with the microseconds dropped. */
  lemma ParseFormatStartTime(t: TimeOfDay)
    requires ValidTime(t)
    ensures ParseTime(FormatStartTime(t)) == Some(t.(micro := 0))
  {
    var s := FormatStartTime(t);
    assert s[..2] == Pad2(t.hour) && s[3..5] == Pad2(t.minute) && s[6..8] == Pad2(t.second);
    assert s[9..] == "0";
    assert DigitsValue("0") == 0 by {
      assert "0"[..0] == [];
    }
    Pad2Value(t.hour);
    Pad2Value(t.minute);
    Pad2Value(t.second);
  }

  // ---------------------------------------------------------------------
  // Aware datetimes and time differences
  // ---------------------------------------------------------------------

  /** An aware datetime: a wall-clock reading and the UTC offset it is labelled with. */
  datatype AwareTime = AwareTime(wall: int, offsetMinutes: int)

  /** The absolute instant, in microseconds on the UTC scale. */
  function Instant(t: AwareTime): int
  {
    t.wall - t.offsetMinutes * MicrosPerMinute
  }

  /** `t.replace(tzinfo=tz)`: same wall clock, new offset label. */
  function Relabel(t: AwareTime, tzMinutes: int): (r: AwareTime)
    ensures r.wall == t.wall && r.offsetMinutes == tzMinutes
    ensures Instant(r) == Instant(t) + (t.offsetMinutes - tzMinutes) * MicrosPerMinute
  {
    AwareTime(t.wall, tzMinutes)
  }

  /** `int(timedelta(microseconds=us).total_seconds())`: whole seconds, truncated towards zero. */
  function WholeSeconds(us: int): (q: int)
    ensures 0 <= us ==> 0 <= q && q * MicrosPerSecond <= us < q * MicrosPerSecond + MicrosPerSecond
    ensures us < 0 ==> q <= 0 && q * MicrosPerSecond - MicrosPerSecond < us <= q * MicrosPerSecond
  {
    if us >= 0 then us / MicrosPerSecond else -((-us) / MicrosPerSecond)
  }
}
