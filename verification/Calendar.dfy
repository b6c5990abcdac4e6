/** The civil calendar of the logger: `Chrono::calDate` computes a date from a day count by
    integer division only.  It is compared here with an independent definition of the proleptic
    Gregorian calendar (section 3.2.1 of ISO 8601:2004). */
module Calendar {

  // ----- the independent calendar -----

  datatype Date = Date(year: int, month: int, day: int)

  const EPOCH := Date(1970, 1, 1)

  predicate IsLeap(y: int) {
    y % 4 == 0 && (y % 100 != 0 || y % 400 == 0)
  }

  function DaysInMonth(y: int, m: int): int
    requires 1 <= m <= 12
  {
    if m == 2 then (if IsLeap(y) then 29 else 28)
    else if m == 4 || m == 6 || m == 9 || m == 11 then 30
    else 31
  }

  predicate IsDate(d: Date) {
    1 <= d.month <= 12 && 1 <= d.day <= DaysInMonth(d.year, d.month)
  }

  /** The day after a date. */
  function NextDay(d: Date): Date
    requires IsDate(d)
  {
    if d.day < DaysInMonth(d.year, d.month) then Date(d.year, d.month, d.day + 1)
    else if d.month < 12 then Date(d.year, d.month + 1, 1)
    else Date(d.year + 1, 1, 1)
  }

  /** Days of year `y` before the first of month `m`. */
  function DaysBeforeMonth(y: int, m: int): int
    requires 1 <= m <= 12
  {
    if m == 1 then 0 else DaysBeforeMonth(y, m - 1) + DaysInMonth(y, m - 1)
  }

  /** Days from the first of January of year 1 to the first of January of year `y`. */
  function DaysBeforeYear(y: int): int {
    var p := y - 1;
    365 * p + p / 4 - p / 100 + p / 400
  }

  /** The number of days from 1970-01-01 to a date. */
  function DaysFromCivil(d: Date): int
    requires IsDate(d)
  {
    DaysBeforeYear(d.year) + DaysBeforeMonth(d.year, d.month) + (d.day - 1) - 719162
  }

  // ----- the code -----

  /** Division of C++: it truncates toward zero. */
  function TruncDiv(a: int, b: int): int
    requires b > 0
  {
    if a >= 0 then a / b else -((-a) / b)
  }

  function YearOfEra(doe: int): int {
    (doe - doe / 1460 + doe / 36524 - doe / 146096) / 365
  }

  function FromMarch(year: int, doy: int): Date {
    var mp := (5 * doy + 2) / 153;
    var d := doy - (153 * mp + 2) / 5 + 1;
    var m := mp + (if mp < 10 then 3 else -9);
    Date(year + (if m <= 2 then 1 else 0), m, d)
  }

  /** `Chrono::calDate`: `z` counts days since 1970-01-01. */
  function CalDate(z: int): Date {
    var shifted := z + 719468;
    var era := TruncDiv(if shifted >= 0 then shifted else shifted - 146096, 146097);
    var doe := shifted - era * 146097;
    var yoe := YearOfEra(doe);
    FromMarch(yoe + era * 400, doe - (365 * yoe + yoe / 4 - yoe / 100))
  }

  // ----- years inside a 400-year era -----

  /** Days of an era before its year `y`, years starting on the first of March. */
  function YearStart(y: int): int {
    365 * y + y / 4 - y / 100 + (if y == 400 then 1 else 0)
  }

  lemma YearDigits(c: int, q: int, a: int)
    requires 0 <= c <= 3 && 0 <= q <= 24 && 0 <= a <= 3
    ensures YearStart(100 * c + 4 * q + a) == 36524 * c + 1461 * q + 365 * a
    ensures YearStart(100 * c + 4 * q + a + 1) - YearStart(100 * c + 4 * q + a)
         == (if a == 3 && (q < 24 || c == 3) then 366 else 365)
  {
    var y := 100 * c + 4 * q + a;
    assert y / 4 == 25 * c + q && y / 100 == c;
    if a < 3 {
      assert (y + 1) / 4 == 25 * c + q && (y + 1) / 100 == c;
    } else if q < 24 {
      assert (y + 1) / 4 == 25 * c + q + 1 && (y + 1) / 100 == c;
    } else {
      assert y + 1 == 100 * (c + 1);
    }
  }

  lemma YearOfEraDigits(c: int, q: int, a: int, s: int)
    requires 0 <= c <= 3 && 0 <= q <= 24 && 0 <= a <= 3
    requires 0 <= s < (if a == 3 && (q < 24 || c == 3) then 366 else 365)
    ensures YearOfEra(36524 * c + 1461 * q + 365 * a + s) == 100 * c + 4 * q + a
  {
    var doe := 36524 * c + 1461 * q + 365 * a + s;
    var g := 24 * c + q + 365 * a + s;
    var i := if g >= 1460 then 1 else 0;
    assert doe == 1460 * (25 * c + q) + g;
    assert doe / 1460 == 25 * c + q + i;
    if c == 3 && q == 24 && a == 3 && s == 365 {
      assert doe == 146096;
    } else {
      assert doe / 36524 == c;
      assert doe - doe / 1460 + doe / 36524 == 365 * (100 * c + 4 * q + a) + s - i;
    }
  }

  /** The year formula finds the year the day lies in, and that year's length is the civil one. */
  lemma YearOfEraFindsYear(doe: int)
    requires 0 <= doe <= 146096
    ensures var y := YearOfEra(doe);
            && 0 <= y <= 399
            && YearStart(y) <= doe < YearStart(y + 1)
            && YearStart(y + 1) - YearStart(y) == (if IsLeap(y + 1) then 366 else 365)
  {
    var c := if doe == 146096 then 3 else doe / 36524;
    var r := doe - 36524 * c;
    var q := if r == 36524 then 24 else r / 1461;
    var t := r - 1461 * q;
    var a := if t >= 1095 then 3 else t / 365;
    YearDigits(c, q, a);
    YearOfEraDigits(c, q, a, t - 365 * a);
    LeapDigits(c, q, a);
  }

  lemma LeapDigits(c: int, q: int, a: int)
    requires 0 <= c <= 3 && 0 <= q <= 24 && 0 <= a <= 3
    ensures IsLeap(100 * c + 4 * q + a + 1) == (a == 3 && (q < 24 || c == 3))
  {
    var y := 100 * c + 4 * q + a + 1;
    if a < 3 {
      assert y == 4 * (25 * c + q) + (a + 1);
    } else {
      assert y == 4 * (25 * c + q + 1);
      if q < 24 {
        assert y == 100 * c + 4 * (q + 1);
      } else {
        assert y == 100 * (c + 1);
      }
    }
  }

  lemma {:induction false} YearStartGrows(x: int, y: int)
    requires 0 <= x <= y <= 400
    ensures YearStart(x) <= YearStart(y)
    decreases y - x
  {
    if x < y {
      YearDigits(x / 100, x % 100 / 4, x % 4);
      YearStartGrows(x + 1, y);
    }
  }

  lemma YearOfEraUnique(doe: int, y: int)
    requires 0 <= doe <= 146096 && 0 <= y <= 399
    requires YearStart(y) <= doe < YearStart(y + 1)
    ensures YearOfEra(doe) == y
  {
    YearOfEraFindsYear(doe);
    var x := YearOfEra(doe);
    if x < y {
      YearStartGrows(x + 1, y);
    } else if y < x {
      YearStartGrows(y + 1, x);
    }
  }

  // ----- months inside a year that starts in March -----

  lemma IsLeapPeriodic(y: int, era: int)
    ensures IsLeap(y + 400 * era) == IsLeap(y)
  {
    assert (y + 400 * era) / 4 == y / 4 + 100 * era;
    assert (y + 400 * era) / 100 == y / 100 + 4 * era;
    assert (y + 400 * era) / 400 == y / 400 + era;
  }

  /** First day of month `mp` of a year that starts in March. */
  function MonthStart(mp: int): int {
    (153 * mp + 2) / 5
  }

  lemma MonthOfDay(doy: int)
    requires 0 <= doy <= 365
    ensures var mp := (5 * doy + 2) / 153;
            && 0 <= mp <= 11 && MonthStart(mp) <= doy < MonthStart(mp + 1)
            && (5 * (doy + 1) + 2) / 153 == (if doy + 1 < MonthStart(mp + 1) then mp else mp + 1)
  {
  }

  /** Month lengths in March order, February excepted. */
  lemma MonthLength(year: int, mp: int)
    requires 0 <= mp <= 10
    ensures MonthStart(mp + 1) - MonthStart(mp)
         == DaysInMonth(year, if mp < 10 then mp + 3 else mp - 9)
  {
  }

  /** Day `doy` of a March-based year is a date, and its successor is day `doy + 1` or the first
      of the next March. */
  lemma FromMarchSteps(year: int, doy: int, length: int)
    requires length == if IsLeap(year + 1) then 366 else 365
    requires 0 <= doy < length
    ensures IsDate(FromMarch(year, doy))
    ensures NextDay(FromMarch(year, doy))
         == if doy + 1 < length then FromMarch(year, doy + 1) else FromMarch(year + 1, 0)
  {
    MonthOfDay(doy);
    var mp := (5 * doy + 2) / 153;
    if mp < 11 {
      MonthLength(if mp < 10 then year else year + 1, mp);
      assert MonthStart(mp + 1) <= 337;
    } else {
      assert MonthStart(11) == 337 && MonthStart(12) == 367;
      assert FromMarch(year, doy) == Date(year + 1, 2, doy - 336);
      assert DaysInMonth(year + 1, 2) == length - 337;
    }
  }

  // ----- main results -----

  lemma EraIsFloor(z: int)
    ensures TruncDiv(if z >= 0 then z else z - 146096, 146097) == z / 146097
  {
  }

  /** Day `z` is day `doy` of year `y` of era `era`. */
  ghost predicate At(z: int, era: int, y: int, doy: int) {
    && 0 <= y <= 399
    && 0 <= doy < YearStart(y + 1) - YearStart(y)
    && z + 719468 == 146097 * era + YearStart(y) + doy
  }

  /** `f` reads dates off era, year of the era and day of the year. */
  ghost predicate ReadsPositions(f: int -> Date) {
    forall z, era, y, doy :: At(z, era, y, doy) ==> f(z) == FromMarch(y + 400 * era, doy)
  }

  lemma CalDateAt(z: int, era: int, y: int, doy: int)
    requires At(z, era, y, doy)
    ensures CalDate(z) == FromMarch(y + 400 * era, doy)
  {
    EraIsFloor(z + 719468);
    YearStartGrows(0, y);
    YearStartGrows(y + 1, 400);
    assert (z + 719468) / 146097 == era;
    YearOfEraUnique(YearStart(y) + doy, y);
    CalDateByYear(z, era, y);
  }

  lemma CalDateByYear(z: int, era: int, y: int)
    requires TruncDiv(if z + 719468 >= 0 then z + 719468 else z + 719468 - 146096, 146097) == era
    requires 0 <= y <= 399 && YearOfEra(z + 719468 - era * 146097) == y
    ensures CalDate(z) == FromMarch(y + era * 400, z + 719468 - era * 146097 - YearStart(y))
  {
  }

  lemma CalDateReadsPositions()
    ensures ReadsPositions(CalDate)
  {
    forall z, era, y, doy | At(z, era, y, doy) ensures CalDate(z) == FromMarch(y + 400 * era, doy) {
      CalDateAt(z, era, y, doy);
    }
  }

  /** Every day has a position, and March-based years have the civil lengths. */
  lemma Locate(z: int) returns (era: int, y: int, doy: int)
    ensures At(z, era, y, doy)
    ensures YearStart(y + 1) - YearStart(y) == if IsLeap(y + 400 * era + 1) then 366 else 365
  {
    era := (z + 719468) / 146097;
    var doe := (z + 719468) % 146097;
    YearOfEraFindsYear(doe);
    y := YearOfEra(doe);
    doy := doe - YearStart(y);
    IsLeapPeriodic(y + 1, era);
  }

  /** The position of the day after. */
  lemma NextPosition(z: int, era: int, y: int, doy: int) returns (e: int, x: int, n: int)
    requires At(z, era, y, doy)
    ensures At(z + 1, e, x, n)
    ensures (x + 400 * e, n)
         == if doy + 1 < YearStart(y + 1) - YearStart(y) then (y + 400 * era, doy + 1)
            else (y + 400 * era + 1, 0)
  {
    if doy + 1 < YearStart(y + 1) - YearStart(y) {
      e, x, n := era, y, doy + 1;
    } else if y < 399 {
      e, x, n := era, y + 1, 0;
      YearDigits(x / 100, x % 100 / 4, x % 4);
    } else {
      e, x, n := era + 1, 0, 0;
    }
  }

  lemma PositionsStep(f: int -> Date, z: int)
    requires ReadsPositions(f)
    ensures IsDate(f(z)) && f(z + 1) == NextDay(f(z))
  {
    var era, y, doy := Locate(z);
    var e, x, n := NextPosition(z, era, y, doy);
    FromMarchSteps(y + 400 * era, doy, YearStart(y + 1) - YearStart(y));
  }

  /** A numbering of days by dates that starts at 1970-01-01 and never skips or repeats a date. */
  ghost predicate FollowsCalendar(f: int -> Date) {
    && f(0) == EPOCH
    && (forall z :: IsDate(f(z)))
    && (forall z :: f(z + 1) == NextDay(f(z)))
  }

  /** `calDate` is such a numbering. */
  lemma CalDateFollowsCalendar()
    ensures FollowsCalendar(CalDate)
  {
    CalDateReadsPositions();
    assert At(0, 4, 369, 306);
    forall z ensures IsDate(CalDate(z)) && CalDate(z + 1) == NextDay(CalDate(z)) {
      PositionsStep(CalDate, z);
    }
  }

  lemma NextDayCountsOne(d: Date)
    requires IsDate(d)
    ensures IsDate(NextDay(d))
    ensures DaysFromCivil(NextDay(d)) == DaysFromCivil(d) + 1
  {
    if d.month == 12 && d.day == 31 {
      YearLength(d.year);
      MonthSums(d.year);
    }
  }

  lemma QuotientStep(p: int, k: int)
    requires k == 4 || k == 100 || k == 400
    ensures (p + 1) / k - p / k == (if (p + 1) % k == 0 then 1 else 0)
  {
  }

  lemma MultiplesNest(q: int)
    ensures 400 * q / 100 == 4 * q && 400 * q % 100 == 0
    ensures 100 * q / 4 == 25 * q && 100 * q % 4 == 0
  {
  }

  lemma YearLength(y: int)
    ensures DaysBeforeYear(y + 1) - DaysBeforeYear(y) == (if IsLeap(y) then 366 else 365)
  {
    QuotientStep(y - 1, 4);
    QuotientStep(y - 1, 100);
    QuotientStep(y - 1, 400);
    MultiplesNest(y / 400);
    MultiplesNest(y / 100);
  }

  lemma MonthSums(y: int)
    ensures DaysBeforeMonth(y, 12) == 306 + DaysInMonth(y, 2)
  {
    assert DaysBeforeMonth(y, 1) == 0;
    assert DaysBeforeMonth(y, 3) == 31 + DaysInMonth(y, 2);
    assert DaysBeforeMonth(y, 5) == DaysBeforeMonth(y, 3) + 61;
    assert DaysBeforeMonth(y, 7) == DaysBeforeMonth(y, 5) + 61;
    assert DaysBeforeMonth(y, 9) == DaysBeforeMonth(y, 7) + 62;
    assert DaysBeforeMonth(y, 11) == DaysBeforeMonth(y, 9) + 61;
  }

  /** Counting days inverts every numbering that follows the calendar; so there is only one. */
  lemma {:induction false} DaysInvertNumbering(f: int -> Date, z: int)
    requires FollowsCalendar(f)
    ensures IsDate(f(z)) && DaysFromCivil(f(z)) == z
    decreases if z >= 0 then z else -z
  {
    if z > 0 {
      DaysInvertNumbering(f, z - 1);
      assert f(z - 1 + 1) == NextDay(f(z - 1));
      NextDayCountsOne(f(z - 1));
    } else if z < 0 {
      DaysInvertNumbering(f, z + 1);
      assert f(z + 1) == NextDay(f(z));
      NextDayCountsOne(f(z));
    } else {
      EpochIsDayZero();
    }
  }

  lemma EpochIsDayZero()
    ensures DaysFromCivil(EPOCH) == 0
  {
    assert DaysBeforeMonth(1970, 1) == 0;
  }

  /** Dates are ordered by their day counts, so the count determines the date. */
  lemma {:induction false} MonthsGrow(y: int, m: int, n: int)
    requires 1 <= m < n <= 12
    ensures DaysBeforeMonth(y, m) + DaysInMonth(y, m) <= DaysBeforeMonth(y, n)
    decreases n - m
  {
    if m + 1 < n {
      MonthsGrow(y, m + 1, n);
    }
  }

  lemma DayOfYearBounded(d: Date)
    requires IsDate(d)
    ensures 0 <= DaysBeforeMonth(d.year, d.month) + d.day - 1
              < DaysBeforeYear(d.year + 1) - DaysBeforeYear(d.year)
  {
    YearLength(d.year);
    MonthSums(d.year);
    if d.month < 12 {
      MonthsGrow(d.year, d.month, 12);
    }
    if d.month > 1 {
      MonthsGrow(d.year, 1, d.month);
    }
  }

  lemma DaysFromCivilInjective(d: Date, e: Date)
    requires IsDate(d) && IsDate(e)
    requires DaysFromCivil(d) == DaysFromCivil(e)
    ensures d == e
  {
    DayOfYearBounded(d);
    DayOfYearBounded(e);
    if d.year == e.year {
      if d.month < e.month {
        MonthsGrow(d.year, d.month, e.month);
      } else if e.month < d.month {
        MonthsGrow(d.year, e.month, d.month);
      }
    }
  }

  /** `calDate` and counting days undo each other, on every day and on every calendar date. */
  lemma CalDateInvertsDays(z: int, d: Date)
    requires IsDate(d)
    ensures IsDate(CalDate(z)) && DaysFromCivil(CalDate(z)) == z
    ensures CalDate(DaysFromCivil(d)) == d
  {
    CalDateFollowsCalendar();
    DaysInvertNumbering(CalDate, z);
    DaysInvertNumbering(CalDate, DaysFromCivil(d));
    DaysFromCivilInjective(CalDate(DaysFromCivil(d)), d);
  }
}
