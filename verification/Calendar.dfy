/**
 date.go, the Fliegel and Van Flandern algorithm (CACM 11(10), October 1968, p. 657): from a Julian
 day number to a date of the proleptic Gregorian calendar, proved against the calendar rules.
 */
module Calendar {

  datatype Date = Date(year: int, month: int, day: int)

  // ---------- the calendar

  predicate Leap(year: int) { year % 4 == 0 && (year % 100 != 0 || year % 400 == 0) }

  function DaysIn(year: int, month: int): (days: int) {
    if month == 2 then (if Leap(year) then 29 else 28)
    else if month == 4 || month == 6 || month == 9 || month == 11 then 30
    else 31
  }

  predicate Valid(date: Date) {
    1 <= date.month <= 12 && 1 <= date.day <= DaysIn(date.year, date.month)
  }

  /** The next day, by the calendar. */
  function NextDay(date: Date): (next: Date) {
    if date.day < DaysIn(date.year, date.month) then date.(day := date.day + 1)
    else if date.month < 12 then Date(date.year, date.month + 1, 1)
    else Date(date.year + 1, 1, 1)
  }

  // ---------- the algorithm

  /** Go's integer division by a positive number, which truncates toward zero. */
  function Quo(a: int, b: int): (q: int)
    requires b > 0
  {
    if a >= 0 then a / b else -((-a) / b)
  }

  function FliegelVanFlandern(jd: int): (date: Date) {
    var l0 := jd + 68569;
    var n := Quo(4 * l0, 146097);
    var l1 := l0 - Quo(146097 * n + 3, 4);
    var i := Quo(4000 * (l1 + 1), 1461001);
    var l2 := l1 - Quo(1461 * i, 4) + 31;
    var j := Quo(80 * l2, 2447);
    var d := l2 - Quo(2447 * j, 80);
    var l3 := Quo(j, 11);
    var m := j + 2 - 12 * l3;
    var y := 100 * (n - 49) + i + l3;
    Date(y, m, d)
  }

  /** The first day the algorithm numbers: 1 March of the year -4900. */
  const FIRST_DAY := -68569

  // ---------- day numbers

  /** Days before century n, year i of a century and month j of a year, years starting on 1 March. */
  function CenturyStart(n: int): (day: int) { (146097 * n + 3) / 4 }

  function YearStart(i: int): (day: int) { 1461 * i / 4 }

  function MonthStart(j: int): (day: int) { 2447 * j / 80 }

  /** The century, year and month counts of a date whose year starts in March. */
  function MarchYear(date: Date): (year: int) { if date.month <= 2 then date.year - 1 else date.year }

  function MarchMonth(date: Date): (month: int) { if date.month <= 2 then date.month + 10 else date.month - 2 }

  /** The Julian day number of a date. */
  function DayNumber(date: Date): (jd: int) {
    var y := MarchYear(date);
    CenturyStart(y / 100 + 49) + YearStart(y % 100) + MonthStart(MarchMonth(date)) + date.day - 31 + FIRST_DAY
  }

  // ---------- the three divisions

  lemma CenturyOf(l: int, n: int)
    ensures CenturyStart(n) <= l < CenturyStart(n + 1) <==> n == 4 * l / 146097
  {
  }

  lemma YearOf(t: int, i: int)
    requires 0 <= t <= 36524 && 0 <= i <= 99
    ensures YearStart(i) <= t < YearStart(i + 1) <==> i == 4000 * (t + 1) / 1461001
  {
  }

  lemma YearInRange(t: int)
    requires 0 <= t <= 36524
    ensures 0 <= 4000 * (t + 1) / 1461001 <= 99
  {
  }

  lemma MonthOf(u: int, j: int)
    requires 31 <= u <= 396 && 1 <= j <= 12
    ensures MonthStart(j) < u <= MonthStart(j + 1) <==> j == 80 * u / 2447
  {
  }

  lemma MonthInRange(u: int)
    requires 31 <= u <= 396
    ensures 1 <= 80 * u / 2447 <= 12
  {
  }

  lemma CenturyLength(n: int)
    ensures CenturyStart(n + 1) - CenturyStart(n) == if n % 4 == 0 then 36525 else 36524
  {
  }

  lemma YearLength(i: int)
    ensures YearStart(i + 1) - YearStart(i) == if i % 4 == 3 then 366 else 365
  {
  }

  /** February 29 exists exactly when the March year has 366 days and is not cut by its century. */
  lemma LeapMeans(n: int, i: int)
    requires 0 <= i <= 99
    ensures Leap(100 * (n - 49) + i + 1) <==> i % 4 == 3 && (i == 99 ==> n % 4 == 0)
  {
    hide Leap;
    var y := 100 * (n - 49) + i + 1;
    if i < 99 {
      MidCentury(y, n - 49, i + 1);
    } else {
      assert y == 100 * (n - 48);
      HundredYears(y, n - 48);
      assert (n - 48) % 4 == n % 4;
    }
  }

  lemma Mod100(y: int, q: int, r: int)
    requires y == 100 * q + r && 0 <= r < 100
    ensures y % 100 == r
  {
  }

  lemma Mod4(y: int, q: int, r: int)
    requires y == 4 * q + r && 0 <= r < 4
    ensures y % 4 == r
  {
  }

  lemma MidCentury(y: int, k: int, r: int)
    requires 0 < r < 100 && y == 100 * k + r
    ensures Leap(y) <==> r % 4 == 0
  {
    Mod100(y, k, r);
    Mod4(y, 25 * k + r / 4, r % 4);
  }

  lemma HundredYears(y: int, k: int)
    requires y == 100 * k
    ensures Leap(y) <==> k % 4 == 0
  {
    assert y % 100 == 0;
    assert y == 4 * (25 * k);
    assert y == 400 * (k / 4) + 100 * (k % 4);
  }

  /** Months March to January have the calendar's lengths. */
  lemma MonthLength(date: Date)
    requires 1 <= date.month <= 12 && date.month != 2
    ensures MonthStart(MarchMonth(date) + 1) - MonthStart(MarchMonth(date)) == DaysIn(date.year, date.month)
  {
  }

  // ---------- decoding and encoding

  /** Century, March year of the century, March month, and day, as the algorithm separates them. */
  datatype Parts = Parts(n: int, i: int, j: int, d: int)

  function Assemble(p: Parts): (date: Date) {
    var l := if p.j >= 11 then 1 else 0;
    Date(100 * (p.n - 49) + p.i + l, p.j + 2 - 12 * l, p.d)
  }

  /** The parts number a day that lies inside its century, its year and its month. */
  predicate Proper(p: Parts) {
    var u := MonthStart(p.j) + p.d;
    var t := YearStart(p.i) + u - 31;
    && 0 <= p.n && 0 <= p.i <= 99 && 1 <= p.j <= 12
    && 31 <= u <= 396 && MonthStart(p.j) < u <= MonthStart(p.j + 1)
    && t < YearStart(p.i + 1)
    && CenturyStart(p.n) + t < CenturyStart(p.n + 1)
  }

  function PartsNumber(p: Parts): (jd: int) {
    CenturyStart(p.n) + YearStart(p.i) + MonthStart(p.j) + p.d - 31 + FIRST_DAY
  }

  /** The algorithm recovers proper parts from their number. */
  lemma DecodeParts(p: Parts)
    requires Proper(p)
    ensures PartsNumber(p) >= FIRST_DAY && FliegelVanFlandern(PartsNumber(p)) == Assemble(p)
  {
    var u := MonthStart(p.j) + p.d;
    var t := YearStart(p.i) + u - 31;
    CenturyLength(p.n);
    CenturyOf(CenturyStart(p.n) + t, p.n);
    YearOf(t, p.i);
    MonthOf(u, p.j);
    StartsAreQuotients(p);
    hide CenturyStart, YearStart, MonthStart, Quo, FliegelVanFlandern;
    QuoIsFloor(4 * (CenturyStart(p.n) + t), 146097);
    QuoIsFloor(4000 * (t + 1), 1461001);
    QuoIsFloor(80 * u, 2447);
    QuoIsFloor(p.j, 11);
    FliegelUnfolds(PartsNumber(p), CenturyStart(p.n) + t, t, u, p);
  }

  lemma FliegelUnfolds(jd: int, l0: int, l1: int, l2: int, p: Parts)
    requires jd + 68569 == l0 && Quo(4 * l0, 146097) == p.n
    requires l1 == l0 - Quo(146097 * p.n + 3, 4) && Quo(4000 * (l1 + 1), 1461001) == p.i
    requires l2 == l1 - Quo(1461 * p.i, 4) + 31 && Quo(80 * l2, 2447) == p.j
    requires p.d == l2 - Quo(2447 * p.j, 80) && Quo(p.j, 11) == if p.j >= 11 then 1 else 0
    ensures FliegelVanFlandern(jd) == Assemble(p)
  {
    hide Quo;
  }

  lemma QuoIsFloor(a: int, b: int)
    requires a >= 0 && b > 0
    ensures Quo(a, b) == a / b
  {
  }

  lemma StartsAreQuotients(p: Parts)
    requires Proper(p)
    ensures CenturyStart(p.n) == Quo(146097 * p.n + 3, 4) >= 0
    ensures YearStart(p.i) == Quo(1461 * p.i, 4) >= 0
    ensures MonthStart(p.j) == Quo(2447 * p.j, 80) >= 30
  {
  }

  /** Every day number from the first on is the number of proper parts. */
  lemma EncodeParts(jd: int) returns (p: Parts)
    requires jd >= FIRST_DAY
    ensures Proper(p) && PartsNumber(p) == jd
  {
    var l := jd - FIRST_DAY;
    var n := 4 * l / 146097;
    CenturyOf(l, n);
    CenturyLength(n);
    var t := l - CenturyStart(n);
    var i := 4000 * (t + 1) / 1461001;
    YearInRange(t);
    YearOf(t, i);
    YearLength(i);
    var u := t - YearStart(i) + 31;
    var j := 80 * u / 2447;
    MonthInRange(u);
    MonthOf(u, j);
    p := Parts(n, i, j, u - MonthStart(j));
  }

  lemma ProperIsValid(p: Parts)
    requires Proper(p)
    ensures Valid(Assemble(p)) && DayNumber(Assemble(p)) == PartsNumber(p)
  {
    var date := Assemble(p);
    assert MarchYear(date) == 100 * (p.n - 49) + p.i && MarchMonth(date) == p.j;
    CenturyAndYear(p.n, p.i);
    if p.j == 12 {
      LeapMeans(p.n, p.i);
      YearLength(p.i);
      CenturyLength(p.n);
    } else {
      MonthLength(date);
    }
  }

  lemma CenturyAndYear(n: int, i: int)
    requires 0 <= i <= 99
    ensures (100 * (n - 49) + i) / 100 + 49 == n && (100 * (n - 49) + i) % 100 == i
  {
  }

  lemma ValidIsProper(date: Date) returns (p: Parts)
    requires Valid(date) && DayNumber(date) >= FIRST_DAY
    ensures Proper(p) && Assemble(p) == date && PartsNumber(p) == DayNumber(date)
  {
    var y := MarchYear(date);
    p := Parts(y / 100 + 49, y % 100, MarchMonth(date), date.day);
    assert y == 100 * (p.n - 49) + p.i;
    YearLength(p.i);
    CenturyLength(p.n);
    if p.j == 12 {
      LeapMeans(p.n, p.i);
    } else {
      MonthLength(date);
    }
    PositiveCentury(p);
  }

  lemma PositiveCentury(p: Parts)
    requires 0 <= p.i <= 99 && 1 <= p.j <= 12 && 1 <= p.d <= 31 && PartsNumber(p) >= FIRST_DAY
    requires YearStart(p.i) + MonthStart(p.j) + p.d - 31 < CenturyStart(p.n + 1) - CenturyStart(p.n)
    ensures p.n >= 0
  {
  }

  // ---------- the theorems

  /** From the first day on, the algorithm yields a valid date, and the date's number is the day given. */
  lemma FliegelIsValid(jd: int)
    requires jd >= FIRST_DAY
    ensures Valid(FliegelVanFlandern(jd)) && DayNumber(FliegelVanFlandern(jd)) == jd
  {
    var p := EncodeParts(jd);
    DecodeParts(p);
    ProperIsValid(p);
  }

  /** It inverts day numbers. */
  lemma FliegelInverts(date: Date)
    requires Valid(date) && DayNumber(date) >= FIRST_DAY
    ensures FliegelVanFlandern(DayNumber(date)) == date
  {
    var p := ValidIsProper(date);
    DecodeParts(p);
  }

  /** Day numbers count calendar days. */
  lemma NextDayNumber(date: Date)
    requires Valid(date)
    ensures Valid(NextDay(date)) && DayNumber(NextDay(date)) == DayNumber(date) + 1
  {
    hide Leap, CenturyStart, YearStart, MonthStart;
    if date.day == DaysIn(date.year, date.month) {
      if date.month == 2 { AfterFebruary(date); } else { AfterMonth(date); }
    }
  }

  lemma AfterMonth(date: Date)
    requires Valid(date) && date.month != 2 && date.day == DaysIn(date.year, date.month)
    ensures DayNumber(NextDay(date)) == DayNumber(date) + 1
  {
    hide Leap, MonthStart, YearStart, CenturyStart;
    MonthLength(date);
    var next := NextDay(date);
    assert MarchYear(next) == MarchYear(date) && MarchMonth(next) == MarchMonth(date) + 1;
  }

  lemma AfterFebruary(date: Date)
    requires Valid(date) && date.month == 2 && date.day == DaysIn(date.year, 2)
    ensures DayNumber(NextDay(date)) == DayNumber(date) + 1
  {
    hide Leap;
    var y := date.year - 1;
    var n, i := y / 100 + 49, y % 100;
    assert date.year == 100 * (n - 49) + i + 1;
    LeapMeans(n, i);
    YearLength(i);
    CenturyLength(n);
    NextMarchYear(y);
  }

  lemma NextMarchYear(y: int)
    ensures (y + 1) % 100 == if y % 100 == 99 then 0 else y % 100 + 1
    ensures (y + 1) / 100 == if y % 100 == 99 then y / 100 + 1 else y / 100
  {
  }

  /** The next day number is the next calendar day. */
  lemma FliegelSteps(jd: int)
    requires jd >= FIRST_DAY
    ensures FliegelVanFlandern(jd + 1) == NextDay(FliegelVanFlandern(jd))
  {
    hide FliegelVanFlandern, DayNumber, NextDay, Valid;
    FliegelIsValid(jd);
    NextDayNumber(FliegelVanFlandern(jd));
    FliegelInverts(NextDay(FliegelVanFlandern(jd)));
  }
}
