/**
 * The proleptic Gregorian calendar on epoch days and epoch milliseconds.
 *
 * This replaces the JavaScript `Date` operations the source uses: `new Date(ms)`,
 * `getFullYear()` (in UTC), `toISOString()` and the field-to-instant conversion of
 * `new Date(isoString)`. Day 0 is 1970-01-01; an instant is a whole number of
 * milliseconds since 1970-01-01T00:00:00.000Z, and its day is the floor of the
 * milliseconds over the length of a day, as in the ECMAScript time-value model.
 */
module Civil {
  import opened Chars

  const MsPerSecond: nat := 1000
  const MsPerMinute: nat := 60000
  const MsPerHour: nat := 3600000
  const MsPerDay: nat := 86400000

  /** Days from 0000-03-01 to 1970-01-01. */
  const EpochShift: nat := 719468

  datatype Date = Date(year: int, month: int, day: int)

  predicate IsLeapYear(y: int) {
    y % 4 == 0 && (y % 100 != 0 || y % 400 == 0)
  }

  function DaysInMonth(y: int, m: int): (n: nat)
    requires 1 <= m <= 12
    ensures 28 <= n <= 31
  {
    if m == 2 then (if IsLeapYear(y) then 29 else 28)
    else if m == 4 || m == 6 || m == 9 || m == 11 then 30
    else 31
  }

  predicate IsValidDate(d: Date) {
    1 <= d.month <= 12 && 1 <= d.day <= DaysInMonth(d.year, d.month)
  }

  function YearLength(y: int): nat {
    if IsLeapYear(y) then 366 else 365
  }

  /** The reference count: days of the year y that come before month m. */
  function DaysBeforeMonth(y: int, m: int): nat
    requires 1 <= m <= 12
  {
    if m == 1 then 0 else DaysBeforeMonth(y, m - 1) + DaysInMonth(y, m - 1)
  }

  /** Days from 0000-03-01 to the first of March of year y (a year that runs March to February). */
  function MarchYearStart(y: int): int {
    365 * y + y / 4 - y / 100 + y / 400
  }

  /** Days from the first of March to the first of the month mp months later (mp = 0 is March). */
  function MonthOffset(mp: int): int {
    (153 * mp + 2) / 5
  }

  /** The epoch day of a civil date. */
  function DaysFromCivil(d: Date): int
    requires 1 <= d.month <= 12
  {
    var y := if d.month <= 2 then d.year - 1 else d.year;
    var mp := if d.month > 2 then d.month - 3 else d.month + 9;
    MarchYearStart(y) + MonthOffset(mp) + d.day - 1 - EpochShift
  }

  /** The epoch day of the first of January of year y. */
  function NewYear(y: int): int {
    DaysFromCivil(Date(y, 1, 1))
  }

  // ---------------------------------------------------------------------
  // Days from a civil date, against the reference count

  lemma MarchYearStep(y: int)
    ensures MarchYearStart(y + 1) - MarchYearStart(y) == YearLength(y + 1)
  {
    DivStep(y, 4);
    DivStep(y, 100);
    DivStep(y, 400);
  }

  lemma DivStep(y: int, k: nat)
    requires k == 4 || k == 100 || k == 400
    ensures (y + 1) / k - y / k == if (y + 1) % k == 0 then 1 else 0
  {
  }

  lemma NewYearStep(y: int)
    ensures NewYear(y + 1) - NewYear(y) == YearLength(y)
  {
    MarchYearStep(y - 1);
  }

  lemma NewYearEpoch()
    ensures NewYear(1970) == 0
  {
  }

  lemma {:induction false} DaysBeforeMonthValue(y: int, m: int)
    requires 1 <= m <= 12
    ensures DaysBeforeMonth(y, m) ==
      if m <= 2 then 31 * (m - 1)
      else 59 + (if IsLeapYear(y) then 1 else 0) + MonthOffset(m - 3)
  {
    if m > 1 {
      DaysBeforeMonthValue(y, m - 1);
    }
  }

  /**
   * The arithmetic formula agrees with counting: the epoch day of y-m-d is the
   * first of January of y, plus the lengths of the months before m, plus d - 1.
   */
  lemma DaysFromCivilCounts(d: Date)
    requires 1 <= d.month <= 12
    ensures DaysFromCivil(d) == NewYear(d.year) + DaysBeforeMonth(d.year, d.month) + d.day - 1
  {
    DaysBeforeMonthValue(d.year, d.month);
    MarchYearStep(d.year - 1);
  }

  lemma {:induction false} DaysBeforeMonthBound(y: int, m: int)
    requires 1 <= m <= 12
    ensures DaysBeforeMonth(y, m) + DaysInMonth(y, m) <= YearLength(y)
    ensures m < 12 ==> DaysBeforeMonth(y, m) + DaysInMonth(y, m) == DaysBeforeMonth(y, m + 1)
  {
    DaysBeforeMonthValue(y, m);
  }

  /** A valid date lies in its year: after the first of January, before the next one. */
  lemma DateInYear(d: Date)
    requires IsValidDate(d)
    ensures NewYear(d.year) <= DaysFromCivil(d) < NewYear(d.year + 1)
  {
    DaysFromCivilCounts(d);
    DaysBeforeMonthBound(d.year, d.month);
    NewYearStep(d.year);
  }

  lemma {:induction false} NewYearMonotone(a: int, b: int)
    requires a <= b
    ensures NewYear(a) + 365 * (b - a) <= NewYear(b)
    decreases b - a
  {
    if a < b {
      NewYearMonotone(a, b - 1);
      NewYearStep(b - 1);
    }
  }

  /** Valid dates of different years are ordered by year. */
  lemma YearOrder(d: Date, e: Date)
    requires IsValidDate(d) && IsValidDate(e) && d.year < e.year
    ensures DaysFromCivil(d) < DaysFromCivil(e)
  {
    DateInYear(d);
    DateInYear(e);
    NewYearMonotone(d.year + 1, e.year);
  }

  lemma {:induction false} MonthOrder(y: int, m: int, n: int)
    requires 1 <= m < n <= 12
    ensures DaysBeforeMonth(y, m) + DaysInMonth(y, m) <= DaysBeforeMonth(y, n)
    decreases n - m
  {
    DaysBeforeMonthBound(y, m);
    if m + 1 < n {
      MonthOrder(y, m + 1, n);
    }
  }

  /** Distinct valid dates have distinct epoch days. */
  lemma DaysFromCivilInjective(d: Date, e: Date)
    requires IsValidDate(d) && IsValidDate(e) && DaysFromCivil(d) == DaysFromCivil(e)
    ensures d == e
  {
    if d.year < e.year {
      YearOrder(d, e);
    } else if e.year < d.year {
      YearOrder(e, d);
    } else {
      DaysFromCivilCounts(d);
      DaysFromCivilCounts(e);
      if d.month < e.month {
        MonthOrder(d.year, d.month, e.month);
      } else if e.month < d.month {
        MonthOrder(d.year, e.month, d.month);
      }
    }
  }

  // ---------------------------------------------------------------------
  // Civil date of an epoch day

  /**
   * The civil date of epoch day z: 400-year eras of 146097 days, split into
   * centuries of 36524 days (the last one a day longer), four-year cycles of 1461
   * days (the last one of a short century a day shorter) and years of 365 days
   * (the last one of a cycle a day longer), each year running from March.
   */
  function CivilFromDays(z: int): (d: Date)
    ensures IsValidDate(d)
    ensures DaysFromCivil(d) == z
  {
    var zz := z + EpochShift;
    var era := zz / 146097;
    var doe := zz % 146097;
    var c := if doe / 36524 < 3 then doe / 36524 else 3;
    var doc := doe - 36524 * c;
    var q := doc / 1461;
    var doq := doc % 1461;
    var r := if doq / 365 < 3 then doq / 365 else 3;
    var doy := doq - 365 * r;
    var y := 400 * era + 100 * c + 4 * q + r;
    var mp := (5 * doy + 2) / 153;
    var m := if mp < 10 then mp + 3 else mp - 9;
    var d := Date(if m <= 2 then y + 1 else y, m, doy - MonthOffset(mp) + 1);
    EraSplit(doe);
    MarchYearOfEra(era, c, q, r);
    LeapYearEndsCycle(era, c, q);
    MonthOfDay(y, doy);
    d
  }

  /** The year after the last year of a four-year cycle is a leap year, unless the century is short. */
  lemma LeapYearEndsCycle(era: int, c: int, q: int)
    requires 0 <= c <= 3 && 0 <= q <= 24
    ensures q < 24 || c == 3 ==> IsLeapYear(400 * era + 100 * c + 4 * q + 4)
  {
    var y := 400 * era + 100 * c + 4 * q + 4;
    assert y == 4 * (100 * era + 25 * c + q + 1);
    if q < 24 {
      assert y == 100 * (4 * era + c) + (4 * q + 4);
    } else if c == 3 {
      assert y == 400 * (era + 1);
    }
  }

  /** The pieces of a day of a 400-year era, and when the last day of a year is a leap day. */
  lemma EraSplit(doe: int)
    requires 0 <= doe < 146097
    ensures
      var c := if doe / 36524 < 3 then doe / 36524 else 3;
      var doc := doe - 36524 * c;
      var q := doc / 1461;
      var doq := doc % 1461;
      var r := if doq / 365 < 3 then doq / 365 else 3;
      var doy := doq - 365 * r;
      && 0 <= c <= 3 && 0 <= q <= 24 && 0 <= r <= 3
      && 0 <= doy <= 365
      && doe == 36524 * c + 1461 * q + 365 * r + doy
      && (doy == 365 ==> r == 3 && (q < 24 || c == 3))
  {
  }

  lemma MarchYearOfEra(era: int, c: int, q: int, r: int)
    requires 0 <= c <= 3 && 0 <= q <= 24 && 0 <= r <= 3
    ensures MarchYearStart(400 * era + 100 * c + 4 * q + r) == 146097 * era + 36524 * c + 1461 * q + 365 * r
  {
    var y := 400 * era + 100 * c + 4 * q + r;
    assert y / 4 == 100 * era + 25 * c + q;
    assert y / 100 == 4 * era + c;
    assert y / 400 == era;
  }

  /** The month and day of a day of a March-based year. */
  lemma MonthOfDay(y: int, doy: int)
    requires 0 <= doy <= 365
    requires doy == 365 ==> IsLeapYear(y + 1)
    ensures
      var mp := (5 * doy + 2) / 153;
      var m := if mp < 10 then mp + 3 else mp - 9;
      && 0 <= mp <= 11
      && MonthOffset(mp) <= doy
      && doy - MonthOffset(mp) < DaysInMonth(if m <= 2 then y + 1 else y, m)
  {
  }

  /** Civil dates and epoch days are in one-to-one correspondence. */
  lemma CivilRoundTrip(d: Date)
    requires IsValidDate(d)
    ensures CivilFromDays(DaysFromCivil(d)) == d
  {
    DaysFromCivilInjective(CivilFromDays(DaysFromCivil(d)), d);
  }

  // ---------------------------------------------------------------------
  // Instants: milliseconds since the epoch

  /** The UTC fields of an instant, as the `getUTC...` accessors of a `Date` give them. */
  datatype DateTime = DateTime(date: Date, hour: int, minute: int, second: int, millisecond: int)

  predicate IsValidDateTime(t: DateTime) {
    && IsValidDate(t.date)
    && 0 <= t.hour < 24 && 0 <= t.minute < 60 && 0 <= t.second < 60
    && 0 <= t.millisecond < 1000
  }

  /** The instant of UTC fields: what `Date.UTC` computes from them. */
  function EpochMs(t: DateTime): int
    requires 1 <= t.date.month <= 12
  {
    DaysFromCivil(t.date) * MsPerDay + t.hour * MsPerHour + t.minute * MsPerMinute
      + t.second * MsPerSecond + t.millisecond
  }

  /** The UTC fields of an instant: `new Date(ms)` read in UTC. */
  function FromEpochMs(ms: int): (t: DateTime)
    ensures IsValidDateTime(t)
    ensures EpochMs(t) == ms
  {
    var rest := ms % MsPerDay;
    var inHour := rest % MsPerHour;
    var inMinute := inHour % MsPerMinute;
    DateTime(CivilFromDays(ms / MsPerDay), rest / MsPerHour, inHour / MsPerMinute,
             inMinute / MsPerSecond, inMinute % MsPerSecond)
  }

  /** Valid UTC fields and instants are in one-to-one correspondence. */
  lemma EpochMsRoundTrip(t: DateTime)
    requires IsValidDateTime(t)
    ensures FromEpochMs(EpochMs(t)) == t
  {
    var ms := EpochMs(t);
    var inDay := t.hour * MsPerHour + t.minute * MsPerMinute + t.second * MsPerSecond + t.millisecond;
    assert 0 <= inDay < MsPerDay;
    assert ms / MsPerDay == DaysFromCivil(t.date) && ms % MsPerDay == inDay;
    CivilRoundTrip(t.date);
  }

  /** `getUTCFullYear()`. */
  function YearOf(ms: int): int {
    FromEpochMs(ms).date.year
  }

  /** The year of an instant is at least y exactly when the instant is not before y-01-01T00:00Z. */
  lemma YearAtLeast(ms: int, y: int)
    ensures YearOf(ms) >= y <==> ms >= NewYear(y) * MsPerDay
  {
    var day := ms / MsPerDay;
    var d := CivilFromDays(day);
    assert day * MsPerDay <= ms < (day + 1) * MsPerDay;
    DateInYear(d);
    if d.year >= y {
      NewYearMonotone(y, d.year);
      assert NewYear(y) <= day;
    } else {
      NewYearMonotone(d.year + 1, y);
      assert day + 1 <= NewYear(y);
    }
  }

  /** The first year of the window of the source holds exactly the instants from the epoch on. */
  lemma YearFrom1970(ms: int)
    ensures YearOf(ms) >= 1970 <==> ms >= 0
  {
    YearAtLeast(ms, 1970);
    NewYearEpoch();
  }

  /** The year 2100 ends at 4133980800000 milliseconds, that is 4133980800 seconds. */
  lemma YearTo2100(ms: int)
    ensures YearOf(ms) <= 2100 <==> ms < 4133980800000
  {
    YearAtLeast(ms, 2101);
    NewYear2101();
  }

  lemma NewYear1971()
    ensures NewYear(1971) == 365
  {
  }

  lemma NewYear1972()
    ensures NewYear(1972) == 730
  {
  }

  lemma NewYear2099()
    ensures NewYear(2099) == 47117
  {
  }

  lemma NewYear2100()
    ensures NewYear(2100) == 47482
  {
  }

  lemma NewYear2101()
    ensures NewYear(2101) == 47847
  {
  }

  /** A date-time whose year lies in lo..hi-1 falls between the new years of lo and hi. */
  lemma YearWindow(t: DateTime, lo: int, hi: int)
    requires IsValidDateTime(t) && lo <= t.date.year < hi
    ensures NewYear(lo) * MsPerDay <= EpochMs(t) < NewYear(hi) * MsPerDay
  {
    var m := EpochMs(t);
    EpochMsRoundTrip(t);
    assert YearOf(m) == t.date.year;
    YearAtLeast(m, lo);
    YearAtLeast(m, hi);
  }

  /** The year 1970 ends at 31536000000 milliseconds. */
  lemma YearAfter1970(ms: int)
    ensures YearOf(ms) > 1970 <==> ms >= 31536000000
  {
    YearAtLeast(ms, 1971);
    NewYear1971();
  }

  /** The year 2100 starts at 4102444800000 milliseconds. */
  lemma YearBefore2100(ms: int)
    ensures YearOf(ms) < 2100 <==> ms < 4102444800000
  {
    YearAtLeast(ms, 2100);
    NewYear2100();
  }

  // ---------------------------------------------------------------------
  // Rendering

  /** A number written with at least `width` decimal digits: `String(n).padStart(width, '0')`. */
  function Padded(n: nat, width: nat): (s: string)
    ensures AllDigits(s) && DecimalValue(s) == n
    ensures n < Pow(10, width) && width >= 1 ==> |s| == width
  {
    PaddedNumeral(n, 10, width);
    DecimalDigits(PadLeft(ToNumeral(n, 10), width, '0'));
    PadLeft(DecimalString(n), width, '0')
  }

  lemma PaddedFixed(n: nat, width: nat)
    requires width >= 1 && n < Pow(10, width)
    ensures Padded(n, width) == FixedDecimal(n, width)
  {
    PadLeftDecimal(n, width);
  }

  /** The year as `toISOString` writes it: four digits, or a sign and six digits outside 0..9999. */
  function YearString(y: int): string {
    if 0 <= y <= 9999 then Padded(y, 4)
    else (if y < 0 then "-" else "+") + Padded(if y < 0 then -y else y, 6)
  }

  /** `YYYY-MM-DDTHH:mm:ss.sss`, the wall-clock part of an instant's ISO string. */
  function IsoWallClock(t: DateTime): string
    requires IsValidDateTime(t)
  {
    YearString(t.date.year) + "-" + Padded(t.date.month, 2) + "-" + Padded(t.date.day, 2)
      + "T" + Padded(t.hour, 2) + ":" + Padded(t.minute, 2) + ":" + Padded(t.second, 2)
      + "." + Padded(t.millisecond, 3)
  }

  /** For years 0..9999 every field of the ISO string is a fixed-width decimal. */
  lemma IsoWallClockFixed(t: DateTime)
    requires IsValidDateTime(t) && 0 <= t.date.year <= 9999
    ensures IsoWallClock(t) ==
      FixedDecimal(t.date.year, 4) + "-" + FixedDecimal(t.date.month, 2) + "-" + FixedDecimal(t.date.day, 2)
        + "T" + FixedDecimal(t.hour, 2) + ":" + FixedDecimal(t.minute, 2) + ":" + FixedDecimal(t.second, 2)
        + "." + FixedDecimal(t.millisecond, 3)
  {
    var y, mo, d := YearString(t.date.year), Padded(t.date.month, 2), Padded(t.date.day, 2);
    var h, mi, s, ms := Padded(t.hour, 2), Padded(t.minute, 2), Padded(t.second, 2), Padded(t.millisecond, 3);
    assert y == FixedDecimal(t.date.year, 4) by { assert Pow(10, 4) == 10000; PaddedFixed(t.date.year, 4); }
    assert mo == FixedDecimal(t.date.month, 2) by { assert Pow(10, 2) == 100; PaddedFixed(t.date.month, 2); }
    assert d == FixedDecimal(t.date.day, 2) by { assert Pow(10, 2) == 100; PaddedFixed(t.date.day, 2); }
    assert h == FixedDecimal(t.hour, 2) by { assert Pow(10, 2) == 100; PaddedFixed(t.hour, 2); }
    assert mi == FixedDecimal(t.minute, 2) by { assert Pow(10, 2) == 100; PaddedFixed(t.minute, 2); }
    assert s == FixedDecimal(t.second, 2) by { assert Pow(10, 2) == 100; PaddedFixed(t.second, 2); }
    assert ms == FixedDecimal(t.millisecond, 3) by { assert Pow(10, 3) == 1000; PaddedFixed(t.millisecond, 3); }
    assert IsoWallClock(t) == y + "-" + mo + "-" + d + "T" + h + ":" + mi + ":" + s + "." + ms;
  }

  /** `new Date(ms).toISOString()`: the UTC rendering `YYYY-MM-DDTHH:mm:ss.sssZ`. */
  function IsoString(ms: int): string {
    IsoWallClock(FromEpochMs(ms)) + "Z"
  }
}
