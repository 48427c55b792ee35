/**
 * UTC months as JavaScript's `Date` computes them: the day and month functions of section 21.4.1
 * of ECMA-262, with the range of a `Date` and the two-digit years of `Date.UTC`.
 */
module CivilCalendar {
  import opened Arith
  import opened Wrappers

  const SECONDS_PER_DAY: int := 86_400

  // A `Date` reaches 100,000,000 days either side of 1970; beyond, it is not a number.
  const DATE_RANGE: int := 100_000_000 * SECONDS_PER_DAY

  /** The day number of 1 January of year `y`, counted from 1 January 1970. */
  function DayFromYear(y: int): int {
    365 * (y - 1970) + (y - 1969) / 4 - (y - 1901) / 100 + (y - 1601) / 400
  }

  predicate Leap(y: int) {
    y % 4 == 0 && (y % 100 != 0 || y % 400 == 0)
  }

  function DaysInYear(y: int): int {
    if Leap(y) then 366 else 365
  }

  /** Days of the year before month `m`, counted from 0; month 12 stands for the whole year. */
  function DaysBeforeMonth(m: nat, leap: bool): nat
    requires m <= 12
  {
    var common := [0, 31, 59, 90, 120, 151, 181, 212, 243, 273, 304, 334, 365][m];
    if m >= 2 && leap then common + 1 else common
  }

  function YearFrom(day: int, y: int): (r: int)
    requires DayFromYear(y) <= day
    ensures y <= r && DayFromYear(r) <= day < DayFromYear(r + 1)
    decreases Max(day - DayFromYear(y), 0)
  {
    YearStep(y);
    if DayFromYear(y + 1) <= day then YearFrom(day, y + 1) else y
  }

  function MonthFrom(dayInYear: int, leap: bool, m: nat): (r: nat)
    requires m <= 11 && DaysBeforeMonth(m, leap) <= dayInYear < DaysBeforeMonth(12, leap)
    ensures r <= 11 && DaysBeforeMonth(r, leap) <= dayInYear < DaysBeforeMonth(r + 1, leap)
    decreases 12 - m
  {
    if m + 1 <= 11 && DaysBeforeMonth(m + 1, leap) <= dayInYear then MonthFrom(dayInYear, leap, m + 1) else m
  }

  /** The first day of month `m` of year `y`; the month past December is January of the next year. */
  function MakeDay(y: int, m: nat): int
    requires m <= 12
  {
    if m == 12 then DayFromYear(y + 1) else DayFromYear(y) + DaysBeforeMonth(m, Leap(y))
  }

  /** Counting up from a year that started early enough: no year is shorter than a day. */
  function YearOf(day: int): (y: int)
    ensures DayFromYear(y) <= day < DayFromYear(y) + DaysInYear(y)
  {
    var y := YearFrom(day, if day < 0 then 1970 + day else 1970);
    YearStep(y);
    y
  }

  function MonthOf(day: int): (m: nat)
    ensures var y := YearOf(day);
            m <= 11 && DaysBeforeMonth(m, Leap(y)) <= day - DayFromYear(y) < DaysBeforeMonth(m + 1, Leap(y))
  {
    var y := YearOf(day);
    MonthFrom(day - DayFromYear(y), Leap(y), 0)
  }

  /** The year a time lies in. */
  function YearAt(ts: int): int {
    YearOf(ts / SECONDS_PER_DAY)
  }

  predicate InDateRange(ts: int) {
    -DATE_RANGE <= ts <= DATE_RANGE
  }

  /** `Date.UTC` of the first of a month, in seconds: it takes the years 0 to 99 for 1900 to 1999. */
  function FirstOfMonth(y: int, m: nat): Option<int>
    requires m <= 12
  {
    var first := SECONDS_PER_DAY * MakeDay(if 0 <= y <= 99 then 1900 + y else y, m);
    if InDateRange(first) then Some(first) else None
  }

  /** 00:00:00 UTC on the first day of the month containing `ts`, or nothing where the conversion throws. */
  function MonthStart(ts: int): Option<int> {
    var day := ts / SECONDS_PER_DAY;
    if InDateRange(ts) then FirstOfMonth(YearOf(day), MonthOf(day)) else None
  }

  function NextMonthStart(ts: int): Option<int> {
    var day := ts / SECONDS_PER_DAY;
    if InDateRange(ts) then FirstOfMonth(YearOf(day), MonthOf(day) + 1) else None
  }

  lemma YearStep(y: int)
    ensures DayFromYear(y + 1) == DayFromYear(y) + DaysInYear(y)
  {
    MultipleStep(y - 1969, 4);
    MultipleStep(y - 1901, 100);
    MultipleStep(y - 1601, 400);
  }

  /** Counting multiples of `n`: one more exactly when the next number is one. */
  lemma MultipleStep(z: int, n: int)
    requires n > 0
    ensures (z + 1) / n == z / n + if (z + 1) % n == 0 then 1 else 0
  {
    var q, r := z / n, z % n;
    assert z == q * n + r;
    if r + 1 < n {
      assert z + 1 == q * n + (r + 1);
      DivModUnique((z + 1) / n, (z + 1) % n, q, r + 1, n);
    } else {
      assert z + 1 == (q + 1) * n + 0;
      DivModUnique((z + 1) / n, (z + 1) % n, q + 1, 0, n);
    }
  }

  /** December is followed by January of the next year, every other month by the next column of the table. */
  lemma MonthDay(y: int, m: nat)
    requires m <= 12
    ensures MakeDay(y, m) == DayFromYear(y) + DaysBeforeMonth(m, Leap(y))
  {
    if m == 12 {
      YearStep(y);
    }
  }

  lemma {:induction false} YearsAscend(y: int, y': int)
    requires y <= y'
    ensures DayFromYear(y) <= DayFromYear(y')
    decreases y' - y
  {
    if y < y' {
      YearStep(y);
      YearsAscend(y + 1, y');
    }
  }

  lemma DayWithinMonth(day: int)
    ensures var y, m := YearOf(day), MonthOf(day);
            MakeDay(y, m) <= day < MakeDay(y, m + 1) <= MakeDay(y, m) + 31
  {
    var y, m := YearOf(day), MonthOf(day);
    MonthDay(y, m);
    MonthDay(y, m + 1);
    MonthLength(m, Leap(y));
  }

  lemma MonthLength(m: nat, leap: bool)
    requires m <= 11
    ensures DaysBeforeMonth(m + 1, leap) <= DaysBeforeMonth(m, leap) + 31
  {
  }

  /** Months of the calendar are ordered as (year, month) pairs are. */
  lemma MonthsAscend(y: int, m: nat, y': int, m': nat)
    requires m <= 11 && m' <= 12 && (y < y' || (y == y' && m < m'))
    ensures MakeDay(y, m + 1) <= MakeDay(y', m')
  {
    MonthDay(y, m + 1);
    MonthDay(y', m');
    if y < y' {
      YearStep(y);
      YearsAscend(y + 1, y');
    }
  }

  lemma FirstsAscend(y: int, m: nat)
    requires m <= 11
    ensures MakeDay(y, m) < MakeDay(y, m + 1)
  {
    MonthDay(y, m);
    MonthDay(y, m + 1);
  }

  lemma StartOfDay(ts: int, day: int)
    ensures day <= ts / SECONDS_PER_DAY <==> SECONDS_PER_DAY * day <= ts
  {
    FloorLe(ts, SECONDS_PER_DAY, day);
  }

  /** The month a time lies in, in seconds. */
  lemma TimeWithinMonth(ts: int)
    ensures var day := ts / SECONDS_PER_DAY;
            var first, next := SECONDS_PER_DAY * MakeDay(YearOf(day), MonthOf(day)), SECONDS_PER_DAY * MakeDay(YearOf(day), MonthOf(day) + 1);
            && first <= ts < next <= first + 31 * SECONDS_PER_DAY
            && (0 <= ts ==> 0 <= first)
  {
    var day := ts / SECONDS_PER_DAY;
    DayWithinMonth(day);
    StartOfDay(ts, MakeDay(YearOf(day), MonthOf(day)));
    StartOfDay(ts, MakeDay(YearOf(day), MonthOf(day) + 1));
    if 0 <= ts {
      StartOfDay(ts, 0);
      MonthsFromEpoch(day);
    }
  }

  /** In the years 0 to 99 both boundaries are those of a month centuries later. */
  lemma TwoDigitMonth(ts: int)
    requires 0 <= YearAt(ts) <= 99 && InDateRange(ts)
    ensures MonthStart(ts).Some? && NextMonthStart(ts).Some? && ts < MonthStart(ts).value
  {
    TimeWithinMonth(ts);
    TwoDigitFirsts(YearOf(ts / SECONDS_PER_DAY), MonthOf(ts / SECONDS_PER_DAY));
  }

  lemma TwoDigitFirsts(y: int, m: nat)
    requires 0 <= y <= 99 && m <= 11
    ensures FirstOfMonth(y, m).Some? && FirstOfMonth(y, m + 1).Some?
    ensures SECONDS_PER_DAY * MakeDay(y, m + 1) <= FirstOfMonth(y, m).value
  {
    TwoDigitYear(y, m);
    FirstsAscend(1900 + y, m);
    LaterWithin(MakeDay(y, m + 1), MakeDay(1900 + y, m), MakeDay(1900 + y, m + 1));
  }

  lemma LaterWithin(day: int, first: int, next: int)
    requires day <= first <= next && -40_000 <= first && next <= 40_000
    ensures SECONDS_PER_DAY * day <= SECONDS_PER_DAY * first
    ensures InDateRange(SECONDS_PER_DAY * first) && InDateRange(SECONDS_PER_DAY * next)
  {
  }

  /**
   * Where neither conversion throws, the boundaries bracket the time exactly when its year is not
   * one of 0 to 99; they throw only outside the range of a `Date` or within a month of its ends.
   */
  lemma MonthBoundaries(ts: int)
    ensures MonthStart(ts).Some? && NextMonthStart(ts).Some? ==>
              (MonthStart(ts).value <= ts < NextMonthStart(ts).value <==> !(0 <= YearAt(ts) <= 99))
    ensures -DATE_RANGE + 31 * SECONDS_PER_DAY <= ts <= DATE_RANGE - 31 * SECONDS_PER_DAY ==>
              MonthStart(ts).Some? && NextMonthStart(ts).Some?
    ensures 0 <= ts <= DATE_RANGE ==> MonthStart(ts).Some?
    ensures !InDateRange(ts) ==> MonthStart(ts).None? && NextMonthStart(ts).None?
  {
    if InDateRange(ts) {
      TimeWithinMonth(ts);
      if 0 <= YearAt(ts) <= 99 {
        TwoDigitMonth(ts);
      }
    }
  }

  lemma MonthsFromEpoch(day: nat)
    ensures 0 <= MakeDay(YearOf(day), MonthOf(day))
  {
    var y, m := YearOf(day), MonthOf(day);
    MonthDay(y, m);
    if y < 1970 {
      YearStep(y);
      YearsAscend(y + 1, 1970);
    } else {
      YearsAscend(1970, y);
    }
  }

  /** A year read with two digits starts centuries late, well within the range of a `Date`. */
  lemma TwoDigitYear(y: int, m: nat)
    requires 0 <= y <= 99 && m <= 11
    ensures MakeDay(y, m + 1) < MakeDay(1900 + y, m)
    ensures 0 <= MakeDay(1900 + y, m) + 40_000 && MakeDay(1900 + y, m + 1) <= 40_000
  {
    MonthDay(y, m + 1);
    MonthDay(1900 + y, m);
    MonthDay(1900 + y, m + 1);
  }

  /** No other first of a month lies between a time's boundaries. */
  lemma NoBoundaryBetween(ts: int, y: int, m: nat)
    requires m <= 11 && MonthStart(ts).Some? && NextMonthStart(ts).Some? && !(0 <= YearAt(ts) <= 99)
    ensures var first := SECONDS_PER_DAY * MakeDay(y, m);
            first <= MonthStart(ts).value || NextMonthStart(ts).value <= first
  {
    var day := ts / SECONDS_PER_DAY;
    var year, month := YearOf(day), MonthOf(day);
    if y < year || (y == year && m < month) {
      MonthsAscend(y, m, year, month);
      FirstsAscend(y, m);
    } else if y > year || m > month {
      MonthsAscend(year, month, y, m);
    }
  }

  /** The months have the calendar's lengths. */
  lemma MonthLengths(m: nat, leap: bool)
    requires m <= 11
    ensures DaysBeforeMonth(0, leap) == 0
    ensures DaysBeforeMonth(m + 1, leap) - DaysBeforeMonth(m, leap)
            == if m == 1 then (if leap then 29 else 28) else if m in {3, 5, 8, 10} then 30 else 31
  {
  }

  /** Days are counted from 1 January 1970, and every later date with them. */
  lemma CountedFrom1970()
    ensures MakeDay(1970, 0) == 0 && MakeDay(2000, 2) == 11_017
    ensures MakeDay(2023, 10) == 19_662 && MakeDay(2023, 11) == 19_692
  {
  }

  lemma KnownMonth()
    ensures MonthStart(1_700_000_000) == Some(1_698_796_800) && NextMonthStart(1_700_000_000) == Some(1_701_388_800)
  {
    assert 1_700_000_000 / SECONDS_PER_DAY == 19_675;
    NovemberFirsts();
    InNovember();
  }

  lemma NovemberFirsts()
    ensures FirstOfMonth(2023, 10) == Some(1_698_796_800) && FirstOfMonth(2023, 11) == Some(1_701_388_800)
  {
    CountedFrom1970();
  }

  lemma InNovember()
    ensures YearOf(19_675) == 2023 && MonthOf(19_675) == 10
  {
    CountedFrom1970();
    InMonth(19_675, 2023, 10);
  }

  lemma InMonth(day: int, y: int, m: nat)
    requires m <= 11 && MakeDay(y, m) <= day < MakeDay(y, m + 1)
    ensures YearOf(day) == y && MonthOf(day) == m
  {
    DayWithinMonth(day);
    var year, month := YearOf(day), MonthOf(day);
    if y < year || (y == year && m < month) {
      MonthsAscend(y, m, year, month);
    } else if year < y || month < m {
      MonthsAscend(year, month, y, m);
    }
  }
}
