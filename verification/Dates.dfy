/**
 date.go: times and serial numbers. A time is a count of nanoseconds of UTC on the day-number scale
 of Calendar; serials are reals. The 1900 and 1904 systems are those of ECMA-376 Part 1, section
 18.17.4.1.
 */
module Dates {
  import opened Wrappers
  import opened Calendar

  const DAY := 86_400_000_000_000
  const DAY_REAL := 86400000000000.0

  /** Go's time.Duration: a 64-bit count of nanoseconds. Arithmetic on it is checked for overflow. */
  newtype Duration = x: int | -0x8000_0000_0000_0000 <= x < 0x8000_0000_0000_0000

  const HOUR: Duration := 3_600_000_000_000
  const DAY_NANOSECONDS: Duration := 24 * HOUR
  const MAX_DURATION: Duration := 290 * 364 * DAY_NANOSECONDS

  /** Midnight of a date. */
  function Midnight(date: Date): (t: int) { DayNumber(date) * DAY }

  /** time.Date: a day and a time of day; hours may run over into the next day. */
  function TimeOf(date: Date, hours: int, minutes: int, seconds: int, nanoseconds: int): (t: int) {
    Midnight(date) + ((hours * 60 + minutes) * 60 + seconds) * 1_000_000_000 + nanoseconds
  }

  const EXCEL_MIN_TIME_1900 := Midnight(Date(1899, 12, 31))
  const EXCEL_BUGGY_PERIOD_START := Midnight(Date(1900, 3, 1)) - 1

  /** time.Time.Sub: the difference, or the nearest Duration when it does not fit. */
  function Sub(t: int, u: int): (d: Duration) {
    if t - u < -0x8000_0000_0000_0000 then -0x8000_0000_0000_0000
    else if t - u >= 0x8000_0000_0000_0000 then 0x7fff_ffff_ffff_ffff
    else (t - u) as Duration
  }

  // ---------- time to serial

  /** The serial of a time, computed without chunks. */
  function ExcelTime(t: int): (serial: real) {
    if t < EXCEL_MIN_TIME_1900 then 0.0
    else (t - EXCEL_MIN_TIME_1900) as real / DAY_REAL + (if t > EXCEL_BUGGY_PERIOD_START then 1.0 else 0.0)
  }

  /** The loop works off 290 years at a time because a Duration cannot hold more. */
  method TimeToExcelTime(utc: bool, t: int) returns (r: Option<real>)
    ensures r == if utc then Some(ExcelTime(t)) else None
  {
    if !utc {
      return None;
    }
    if t < EXCEL_MIN_TIME_1900 {
      return Some(0.0);
    }
    var tt := t;
    var diff := Sub(t, EXCEL_MIN_TIME_1900);
    var result := 0.0;
    while diff >= MAX_DURATION
      invariant tt >= EXCEL_MIN_TIME_1900 && diff == Sub(tt, EXCEL_MIN_TIME_1900)
      invariant result + (tt - EXCEL_MIN_TIME_1900) as real / DAY_REAL == (t - EXCEL_MIN_TIME_1900) as real / DAY_REAL
      decreases tt
    {
      result := result + (MAX_DURATION / DAY_NANOSECONDS) as int as real;
      tt := tt - MAX_DURATION as int;
      diff := Sub(tt, EXCEL_MIN_TIME_1900);
    }
    var rem := diff % DAY_NANOSECONDS;
    result := result + (diff - rem) as int as real / DAY_REAL + rem as int as real / DAY_REAL;
    if t > EXCEL_BUGGY_PERIOD_START {
      result := result + 1.0;
    }
    return Some(result);
  }

  /** The two fixed times, by day number. */
  lemma FixedTimes()
    ensures EXCEL_MIN_TIME_1900 == 2415020 * DAY && EXCEL_BUGGY_PERIOD_START == 2415080 * DAY - 1
  {
  }

  lemma FirstDays()
    ensures DayNumber(Date(1899, 12, 31)) == 2415020 && DayNumber(Date(1900, 1, 1)) == 2415021
    ensures DayNumber(Date(1900, 2, 28)) == 2415079 && DayNumber(Date(1900, 3, 1)) == 2415080
  {
    hide DayNumber;
    FixedTimes();
    NextDayNumber(Date(1899, 12, 31));
    NextDayNumber(Date(1900, 2, 28));
  }

  /** The first day has serial 0, the first of March 1900 serial 61, and every time before the first day serial 0. */
  lemma FirstSerials(t: int)
    ensures ExcelTime(Midnight(Date(1899, 12, 31))) == 0.0 && ExcelTime(Midnight(Date(1900, 1, 1))) == 1.0
    ensures ExcelTime(Midnight(Date(1900, 2, 28))) == 59.0 && ExcelTime(Midnight(Date(1900, 3, 1))) == 61.0
    ensures t < Midnight(Date(1899, 12, 31)) ==> ExcelTime(t) == 0.0
  {
    hide DayNumber;
    FirstDays();
  }

  /** Serials grow strictly with time from the first day on, and none falls on the day that never was. */
  lemma ExcelTimeIncreases(t: int, u: int)
    requires EXCEL_MIN_TIME_1900 <= t < u
    ensures 0.0 <= ExcelTime(t) < ExcelTime(u)
    ensures !(60.0 <= ExcelTime(t) < 61.0)
  {
    FixedTimes();
  }

  // ---------- serial to time

  /** Go's conversion of a float to an integer: truncation toward zero. */
  function Trunc(x: real): (n: int) {
    if x >= 0.0 then x.Floor else -((-x).Floor)
  }

  function ShiftJulianToNoon(days: int, fraction: real): (shifted: (int, real)) {
    if -0.5 < fraction < 0.5 then (days, fraction + 0.5)
    else if fraction >= 0.5 then (days + 1, fraction - 0.5)
    else (days - 1, fraction + 1.5)
  }

  /** Hours, minutes, seconds and nanoseconds of a fraction of a day, rounded to microseconds. */
  function FractionOfADay(fraction: real): (clock: (int, int, int, int)) {
    var frac := Trunc(DAY_REAL * fraction + 500.0);
    var nanoseconds := Quo(frac - 1_000_000_000 * Quo(frac, 1_000_000_000), 1000) * 1000;
    var s := Quo(frac, 1_000_000_000);
    var seconds := s - 60 * Quo(s, 60);
    var m := Quo(s, 60);
    (Quo(m, 60), m - 60 * Quo(m, 60), seconds, nanoseconds)
  }

  function JulianDateToGregorianTime(part1: real, part2: real): (t: int) {
    var days := Trunc(part1) + Trunc(part2);
    var fraction := (part1 - Trunc(part1) as real) + (part2 - Trunc(part2) as real);
    var (d, f) := ShiftJulianToNoon(days, fraction);
    var (hours, minutes, seconds, nanoseconds) := FractionOfADay(f);
    TimeOf(FliegelVanFlandern(d), hours, minutes, seconds, nanoseconds)
  }

  const OFFSET_1900 := 15018.0
  const OFFSET_1904 := 16480.0
  const MJD_0 := 2400000.5
  const MDD := 106750

  function Base(date1904: bool): (date: Date) {
    if date1904 then Date(1904, 1, 1) else Date(1899, 12, 30)
  }

  /** The time of a serial: by the Julian date up to 61, by durations after that. */
  function FromExcelTime(x: real, date1904: bool): (t: int) {
    if Trunc(x) <= 61 then
      JulianDateToGregorianTime(MJD_0, x + if date1904 then OFFSET_1904 else OFFSET_1900)
    else
      Midnight(Base(date1904)) + Trunc(x) * DAY + Trunc(DAY_REAL * (x - Trunc(x) as real))
  }

  /** Every product and sum on Durations below is checked to fit in 64 bits. */
  method TimeFromExcelTime(x: real, date1904: bool) returns (t: int)
    ensures t == FromExcelTime(x, date1904)
  {
    var intPart := Trunc(x);
    if intPart <= 61 {
      if date1904 {
        return JulianDateToGregorianTime(MJD_0, x + OFFSET_1904);
      } else {
        return JulianDateToGregorianTime(MJD_0, x + OFFSET_1900);
      }
    }
    var floatPart := x - intPart as real;
    var date := Midnight(Base(date1904));
    while intPart > MDD
      invariant intPart >= 1 && date + intPart * DAY == Midnight(Base(date1904)) + Trunc(x) * DAY
    {
      var durationDays: Duration := MDD as Duration * HOUR * 24;
      date := date + durationDays as int;
      intPart := intPart - MDD;
    }
    var durationDays: Duration := intPart as Duration * HOUR * 24;
    FractionFits(x);
    var durationPart: Duration := Trunc(DAY_REAL * floatPart) as Duration;
    return date + durationDays as int + durationPart as int;
  }

  lemma FractionFits(x: real)
    requires x >= 0.0
    ensures 0 <= Trunc(DAY_REAL * (x - Trunc(x) as real)) < DAY
  {
    var f := x - Trunc(x) as real;
    assert 0.0 <= f < 1.0;
    assert 0.0 <= DAY_REAL * f < DAY_REAL;
  }

  // ---------- the time of day

  /** The parts name a time within half a microsecond of the fraction, with minutes and seconds below 60. */
  lemma FractionRounds(fraction: real)
    requires 0.0 <= fraction < 1.0
    ensures var (h, m, s, ns) := FractionOfADay(fraction);
            var total := ((h * 60 + m) * 60 + s) * 1_000_000_000 + ns;
            && 0 <= h <= 24 && 0 <= m < 60 && 0 <= s < 60 && 0 <= ns < 1_000_000_000
            && -500.0 < total as real - DAY_REAL * fraction <= 500.0
            && (fraction == 0.0 ==> total == 0)
  {
    var y := DAY_REAL * fraction + 500.0;
    assert 0.0 <= DAY_REAL * fraction < DAY_REAL;
    var frac := y.Floor;
    assert frac as real <= y < frac as real + 1.0;
    Clock(frac);
  }

  /** Splitting a count of nanoseconds into a clock reading drops what is below a microsecond. */
  lemma Clock(frac: int)
    requires 0 <= frac <= DAY + 500
    ensures var s := frac / 1_000_000_000;
            var ns := frac % 1_000_000_000 / 1000 * 1000;
            var m := s / 60;
            && 0 <= m / 60 <= 24
            && ((m / 60 * 60 + m % 60) * 60 + s % 60) * 1_000_000_000 + ns == frac - frac % 1000
  {
    var s, r := frac / 1_000_000_000, frac % 1_000_000_000;
    Mod1000(frac, 1_000_000 * s + r / 1000, r % 1000);
    var m := s / 60;
    assert (m / 60 * 60 + m % 60) * 60 + s % 60 == s;
  }

  lemma Mod1000(y: int, q: int, r: int)
    requires y == 1000 * q + r && 0 <= r < 1000
    ensures y % 1000 == r
  {
  }

  // ---------- both branches compute base plus x days

  /** The moment x days after the base of the date system. */
  function Exact(x: real, date1904: bool): (t: real) {
    Midnight(Base(date1904)) as real + x * DAY_REAL
  }

  lemma BaseDays()
    ensures DayNumber(Base(false)) == 2415019 && DayNumber(Base(true)) == 2416481
  {
  }

  /** Splitting a Julian date at noon and shifting it to midnight: whole days and the rest of the day. */
  lemma ShiftedJulian(y: real)
    ensures var (d, f) := ShiftJulianToNoon(2400000 + Trunc(y), 0.5 + (y - Trunc(y) as real));
            0.0 <= f < 1.0 && d as real + f == 2400001.0 + y
  {
  }

  /** The earliest serial whose day the calendar algorithm numbers. */
  const FIRST_SERIAL := -2483588.0

  lemma ModfOfMJD()
    ensures Trunc(MJD_0) == 2400000
  {
  }

  lemma JulianBranch(x: real, date1904: bool)
    requires x >= FIRST_SERIAL
    ensures var t := JulianDateToGregorianTime(MJD_0, x + if date1904 then OFFSET_1904 else OFFSET_1900);
            && -500.0 < t as real - Exact(x, date1904) <= 500.0
            && (x == x.Floor as real ==> t == Midnight(Base(date1904)) + x.Floor * DAY)
  {
    hide FliegelVanFlandern, DayNumber, FractionOfADay, Valid;
    var y := x + if date1904 then OFFSET_1904 else OFFSET_1900;
    ModfOfMJD();
    ShiftedJulian(y);
    BaseDays();
    var (d, f) := ShiftJulianToNoon(2400000 + Trunc(y), 0.5 + (y - Trunc(y) as real));
    assert d >= FIRST_DAY;
    FliegelIsValid(d);
    FractionRounds(f);
    var (h, m, s, ns) := FractionOfADay(f);
    assert JulianDateToGregorianTime(MJD_0, y) == d * DAY + ((h * 60 + m) * 60 + s) * 1_000_000_000 + ns;
    if x == x.Floor as real {
      var n := 2400001 + (if date1904 then 16480 else 15018) + x.Floor;
      assert n as real == 2400001.0 + y;
      WholeDays(n, d, f);
    }
  }

  lemma WholeDays(n: int, d: int, f: real)
    requires 0.0 <= f < 1.0 && d as real + f == n as real
    ensures f == 0.0 && d == n
  {
    var k := n - d;
    assert k as real == n as real - d as real == f;
    assert k < 1 && k > -1;
  }

  /**
   In both date systems and on both branches a serial means that many days after the base: within
   half a microsecond for any serial, and exactly for whole ones.
   */
  lemma FromExcelIsBasePlusDays(x: real, date1904: bool)
    requires x >= FIRST_SERIAL
    ensures -500.0 < FromExcelTime(x, date1904) as real - Exact(x, date1904) <= 500.0
    ensures x == x.Floor as real ==> FromExcelTime(x, date1904) == Midnight(Base(date1904)) + x.Floor * DAY
  {
    hide JulianDateToGregorianTime, Midnight;
    if Trunc(x) <= 61 {
      JulianBranch(x, date1904);
    } else {
      var f := x - Trunc(x) as real;
      assert 0.0 <= f < 1.0;
      assert x * DAY_REAL == Trunc(x) as real * DAY_REAL + f * DAY_REAL;
      var part := Trunc(DAY_REAL * f);
      assert part as real <= DAY_REAL * f < part as real + 1.0;
      if x == x.Floor as real { assert f == 0.0; }
    }
  }

  lemma WholeMicroseconds(part1: real, part2: real)
    ensures JulianDateToGregorianTime(part1, part2) % 1000 == 0
  {
    hide FliegelVanFlandern, DayNumber, ShiftJulianToNoon, Quo;
    var days := Trunc(part1) + Trunc(part2);
    var (d, f) := ShiftJulianToNoon(days, (part1 - Trunc(part1) as real) + (part2 - Trunc(part2) as real));
    var (h, m, s, ns) := FractionOfADay(f);
    var frac := Trunc(DAY_REAL * f + 500.0);
    var micros := Quo(frac - 1_000_000_000 * Quo(frac, 1_000_000_000), 1000);
    var n := DayNumber(FliegelVanFlandern(d));
    assert ns == micros * 1000;
    Mod1000(JulianDateToGregorianTime(part1, part2), n * 86_400_000_000 + ((h * 60 + m) * 60 + s) * 1_000_000 + micros, 0);
  }

  /** Serials below 62 are rounded to the nearest microsecond, halves up; all others are cut to the nanosecond. */
  lemma BranchPrecision(x: real, date1904: bool)
    requires x >= FIRST_SERIAL
    ensures x < 62.0 ==>
              && FromExcelTime(x, date1904) % 1000 == 0
              && -500.0 < FromExcelTime(x, date1904) as real - Exact(x, date1904) <= 500.0
    ensures x >= 62.0 ==> FromExcelTime(x, date1904) as real <= Exact(x, date1904) < FromExcelTime(x, date1904) as real + 1.0
  {
    hide JulianDateToGregorianTime, Midnight;
    if x < 62.0 {
      JulianBranch(x, date1904);
      WholeMicroseconds(MJD_0, x + if date1904 then OFFSET_1904 else OFFSET_1900);
    } else {
      var f := x - Trunc(x) as real;
      assert 0.0 <= f < 1.0;
      assert x * DAY_REAL == Trunc(x) as real * DAY_REAL + f * DAY_REAL;
      var part := Trunc(DAY_REAL * f);
      assert part as real <= DAY_REAL * f < part as real + 1.0;
    }
  }

  /** What a round trip through serials should give: the time itself, or the day before it in early 1900. */
  function RoundTripTarget(t: int): (t': int) {
    if t > EXCEL_BUGGY_PERIOD_START then t else t - DAY
  }

  lemma ExactOfExcelTime(t: int)
    requires t >= EXCEL_MIN_TIME_1900
    ensures Exact(ExcelTime(t), false) == RoundTripTarget(t) as real
  {
    FixedTimes();
    BaseDays();
  }

  /**
   timeFromExcelTime after timeToExcelTime gives the time back from March 1900 on and the day before
   from 1899-12-31 to February 1900: within half a microsecond, exactly for midnights, and exactly
   for every time from 2 March 1900 on.
   */
  lemma RoundTrip(t: int)
    requires t >= EXCEL_MIN_TIME_1900
    ensures -500 < FromExcelTime(ExcelTime(t), false) - RoundTripTarget(t) <= 500
    ensures t % DAY == 0 || t >= Midnight(Date(1900, 3, 2)) ==>
              FromExcelTime(ExcelTime(t), false) == RoundTripTarget(t)
  {
    hide FromExcelTime;
    var x := ExcelTime(t);
    ExactOfExcelTime(t);
    ExcelTimeNonNegative(t);
    FromExcelIsBasePlusDays(x, false);
    if t % DAY == 0 {
      MidnightIsWhole(t);
    } else if t >= Midnight(Date(1900, 3, 2)) {
      LateTimesExact(t);
    }
  }

  lemma ExcelTimeNonNegative(t: int)
    requires t >= EXCEL_MIN_TIME_1900
    ensures ExcelTime(t) >= 0.0
  {
  }

  lemma MidnightIsWhole(t: int)
    requires t >= EXCEL_MIN_TIME_1900 && t % DAY == 0
    ensures ExcelTime(t) == ExcelTime(t).Floor as real
    ensures Midnight(Base(false)) + ExcelTime(t).Floor * DAY == RoundTripTarget(t)
  {
    FixedTimes();
    BaseDays();
    var k := t / DAY;
    assert t == k * DAY;
    var n := k - 2415020 + (if t > EXCEL_BUGGY_PERIOD_START then 1 else 0);
    assert ExcelTime(t) == n as real;
  }

  lemma LateTimesExact(t: int)
    requires t >= Midnight(Date(1900, 3, 2))
    ensures FromExcelTime(ExcelTime(t), false) == t
  {
    FixedTimes();
    BaseDays();
    assert DayNumber(Date(1900, 3, 2)) == 2415081;
    hide DayNumber, JulianDateToGregorianTime;
    var x := ExcelTime(t);
    assert x >= 62.0;
    var n := Trunc(x);
    var rest := t - 2415020 * DAY + DAY - n * DAY;
    assert DAY_REAL * (x - n as real) == rest as real;
  }
}
