/** Proleptic Gregorian calendar arithmetic on day and month indices.
    Day 0 is 1970-01-01 and month 0 is January 1970; both indices may be
    negative. Every timestamp of the model is reduced to these indices. */
module Calendar {

  /** The calendar year that month index m falls in. */
  function YearOf(m: int): int
  {
    1970 + m / 12
  }

  /** The month of the year of month index m: 1 is January, 12 is December. */
  function MonthOfYear(m: int): (mo: int)
    ensures 1 <= mo <= 12
  {
    m % 12 + 1
  }

  predicate IsLeapYear(y: int)
  {
    y % 4 == 0 && (y % 100 != 0 || y % 400 == 0)
  }

  /** Number of days of month index m. */
  function DaysInMonth(m: int): (n: int)
    ensures 28 <= n <= 31
    ensures n == 29 <==> MonthOfYear(m) == 2 && IsLeapYear(YearOf(m))
  {
    var mo := MonthOfYear(m);
    if mo == 2 then (if IsLeapYear(YearOf(m)) then 29 else 28)
    else if mo == 4 || mo == 6 || mo == 9 || mo == 11 then 30
    else 31
  }

  /** Day index of the first day of month m, by adding up month lengths from January 1970. */
  function MonthStart(m: int): int
    decreases if m < 0 then -m else m
  {
    if m == 0 then 0
    else if m > 0 then MonthStart(m - 1) + DaysInMonth(m - 1)
    else MonthStart(m + 1) - DaysInMonth(m)
  }

  /** Consecutive months are adjacent: month m + 1 starts the day after month m ends. */
  lemma MonthStep(m: int)
    ensures MonthStart(m + 1) == MonthStart(m) + DaysInMonth(m)
  {
  }

  lemma {:induction false} MonthStartIncreasing(m1: int, m2: int)
    requires m1 < m2
    ensures MonthStart(m1) < MonthStart(m2)
    decreases m2 - m1
  {
    MonthStep(m2 - 1);
    if m1 < m2 - 1 {
      MonthStartIncreasing(m1, m2 - 1);
    }
  }

  /** The month whose days include d, searching upwards from month m. */
  function MonthAtOrAfter(d: int, m: int): int
    requires MonthStart(m) <= d
    decreases d - MonthStart(m)
  {
    MonthStep(m);
    if d < MonthStart(m + 1) then m else MonthAtOrAfter(d, m + 1)
  }

  lemma {:induction false} MonthAtOrAfterFinds(d: int, m: int)
    requires MonthStart(m) <= d
    ensures var found := MonthAtOrAfter(d, m); MonthStart(found) <= d < MonthStart(found + 1)
    decreases d - MonthStart(m)
  {
    MonthStep(m);
    if MonthStart(m + 1) <= d {
      MonthAtOrAfterFinds(d, m + 1);
    }
  }

  /** The month whose days include d, searching downwards from month m. */
  function MonthAtOrBefore(d: int, m: int): int
    requires d < MonthStart(m + 1)
    decreases MonthStart(m + 1) - d
  {
    MonthStep(m);
    if MonthStart(m) <= d then m else MonthAtOrBefore(d, m - 1)
  }

  lemma {:induction false} MonthAtOrBeforeFinds(d: int, m: int)
    requires d < MonthStart(m + 1)
    ensures var found := MonthAtOrBefore(d, m); MonthStart(found) <= d < MonthStart(found + 1)
    decreases MonthStart(m + 1) - d
  {
    MonthStep(m);
    if d < MonthStart(m) {
      MonthAtOrBeforeFinds(d, m - 1);
    }
  }

  /** No day lies in two months. */
  lemma MonthsDisjoint(d: int, m1: int, m2: int)
    requires MonthStart(m1) <= d < MonthStart(m1 + 1)
    requires MonthStart(m2) <= d < MonthStart(m2 + 1)
    ensures m1 == m2
  {
    if m1 + 1 < m2 + 1 {
      if m1 + 1 < m2 {
        MonthStartIncreasing(m1 + 1, m2);
      }
    } else if m2 + 1 < m1 + 1 {
      if m2 + 1 < m1 {
        MonthStartIncreasing(m2 + 1, m1);
      }
    }
  }

  /** The calendar month (as a month index) that day d lies in. */
  function MonthOf(d: int): int
  {
    assert MonthStart(0) == 0;
    if d >= 0 then MonthAtOrAfter(d, 0) else MonthAtOrBefore(d, -1)
  }

  /** Day d lies between the first day of its month and the first day of the next. */
  lemma MonthOfBounds(d: int)
    ensures MonthStart(MonthOf(d)) <= d < MonthStart(MonthOf(d) + 1)
  {
    assert MonthStart(0) == 0;
    if d >= 0 {
      MonthAtOrAfterFinds(d, 0);
    } else {
      MonthAtOrBeforeFinds(d, -1);
    }
  }

  /** A day belongs to exactly one month. */
  lemma MonthOfUnique(d: int, m: int)
    requires MonthStart(m) <= d < MonthStart(m + 1)
    ensures MonthOf(d) == m
  {
    MonthOfBounds(d);
    MonthsDisjoint(d, m, MonthOf(d));
  }

  /** Later days never fall in earlier months. */
  lemma MonthOfMonotone(d1: int, d2: int)
    requires d1 <= d2
    ensures MonthOf(d1) <= MonthOf(d2)
  {
    var m1, m2 := MonthOf(d1), MonthOf(d2);
    MonthOfBounds(d1);
    MonthOfBounds(d2);
    if m2 < m1 {
      if m2 + 1 < m1 {
        MonthStartIncreasing(m2 + 1, m1);
      }
    }
  }

  /** Day index of the last day of month m: the label a month-end resample gives that month. */
  function MonthEnd(m: int): int
  {
    MonthStart(m + 1) - 1
  }

  /** The label of month m lies in month m, is its DaysInMonth(m)-th day, and
      the day after it starts month m + 1. */
  lemma MonthEndIsLastDay(m: int)
    ensures MonthOf(MonthEnd(m)) == m && MonthOf(MonthEnd(m) + 1) == m + 1
    ensures MonthEnd(m) - MonthStart(m) + 1 == DaysInMonth(m)
  {
    MonthStep(m);
    MonthStep(m + 1);
    MonthOfUnique(MonthStart(m + 1) - 1, m);
    MonthOfUnique(MonthStart(m + 1), m + 1);
  }

  lemma {:induction false} MonthEndIncreasing(m1: int, m2: int)
    requires m1 < m2
    ensures MonthEnd(m1) < MonthEnd(m2)
  {
    MonthStartIncreasing(m1 + 1, m2 + 1);
  }
}
