/** The monthly trend: the filtered table resampled into calendar months,
    each month labelled by its last day and carrying the mean PM2.5 of the
    month's present readings. */
module Trend {
  import opened Wrappers
  import Calendar
  import opened Observations
  import opened Stats

  /** One bin of the resample: its calendar month and the mean of its readings. */
  datatype MonthPoint = MonthPoint(month: int, mean: Option<real>)

  /** The timestamp a month-end resample gives a bin: the day index of the
      last day of its month. */
  function Label(p: MonthPoint): int
  {
    Calendar.MonthEnd(p.month)
  }

  /** The earliest month of the table. */
  function FirstMonth(rows: seq<Row>): (m: int)
    requires rows != []
    ensures forall i :: 0 <= i < |rows| ==> m <= MonthOfRow(rows[i])
  {
    if |rows| == 1 then MonthOfRow(rows[0])
    else
      var rest := FirstMonth(rows[1..]);
      assert forall i :: 1 <= i < |rows| ==> rows[i] == rows[1..][i - 1];
      if MonthOfRow(rows[0]) <= rest then MonthOfRow(rows[0]) else rest
  }

  /** The latest month of the table. */
  function LastMonth(rows: seq<Row>): (m: int)
    requires rows != []
    ensures forall i :: 0 <= i < |rows| ==> MonthOfRow(rows[i]) <= m
  {
    if |rows| == 1 then MonthOfRow(rows[0])
    else
      var rest := LastMonth(rows[1..]);
      assert forall i :: 1 <= i < |rows| ==> rows[i] == rows[1..][i - 1];
      if MonthOfRow(rows[0]) >= rest then MonthOfRow(rows[0]) else rest
  }

  /** The earliest month is the month of some row. */
  lemma {:induction false} FirstMonthAttained(rows: seq<Row>) returns (i: int)
    requires rows != []
    ensures 0 <= i < |rows| && MonthOfRow(rows[i]) == FirstMonth(rows)
  {
    if |rows| == 1 || MonthOfRow(rows[0]) <= FirstMonth(rows[1..]) {
      i := 0;
    } else {
      var j := FirstMonthAttained(rows[1..]);
      i := j + 1;
    }
  }

  /** The latest month is the month of some row. */
  lemma {:induction false} LastMonthAttained(rows: seq<Row>) returns (i: int)
    requires rows != []
    ensures 0 <= i < |rows| && MonthOfRow(rows[i]) == LastMonth(rows)
  {
    if |rows| == 1 || MonthOfRow(rows[0]) >= LastMonth(rows[1..]) {
      i := 0;
    } else {
      var j := LastMonthAttained(rows[1..]);
      i := j + 1;
    }
  }

  /** Running sum and number of the present readings of one month. */
  datatype Totals = Totals(sum: real, count: nat)

  /** The sum and the number of the present readings among the rows of month m. */
  function MonthTotals(rows: seq<Row>, m: int): Totals
  {
    if rows == [] then Totals(0.0, 0)
    else
      var rest := MonthTotals(rows[1..], m);
      if MonthOfRow(rows[0]) == m && rows[0].pm.Some? then
        Totals(rows[0].pm.value + rest.sum, rest.count + 1)
      else rest
  }

  /** The value of the bin of month m: the mean of its present readings,
      absent when it has none (pandas gives NaN there). */
  function MonthMean(rows: seq<Row>, m: int): Option<real>
  {
    var t := MonthTotals(rows, m);
    if t.count == 0 then None else Some(t.sum / (t.count as real))
  }

  /** No row of month m has a PM2.5 reading. */
  predicate NoReadingIn(rows: seq<Row>, m: int)
  {
    forall i :: 0 <= i < |rows| && MonthOfRow(rows[i]) == m ==> rows[i].pm.None?
  }

  /** The mean of month m is absent exactly when no row of that month has a reading. */
  lemma {:induction false} MonthMeanAbsent(rows: seq<Row>, m: int)
    ensures MonthMean(rows, m).None? <==> NoReadingIn(rows, m)
  {
    if rows != [] {
      MonthMeanAbsent(rows[1..], m);
      assert forall i :: 1 <= i < |rows| ==> rows[1..][i - 1] == rows[i];
    }
  }

  /** The rows whose timestamp lies in month m, in their original order. */
  function RowsInMonth(rows: seq<Row>, m: int): (out: seq<Row>)
    ensures |out| <= |rows|
  {
    if rows == [] then []
    else (if MonthOfRow(rows[0]) == m then [rows[0]] else []) + RowsInMonth(rows[1..], m)
  }

  /** Only rows of month m are among the rows of month m. */
  lemma {:induction false} RowsInMonthSound(rows: seq<Row>, m: int)
    ensures forall j :: 0 <= j < |RowsInMonth(rows, m)| ==>
      RowsInMonth(rows, m)[j] in rows && MonthOfRow(RowsInMonth(rows, m)[j]) == m
  {
    if rows != [] {
      RowsInMonthSound(rows[1..], m);
      assert forall r :: r in rows[1..] ==> r in rows;
    }
  }

  /** Every row of month m is among the rows of month m. */
  lemma {:induction false} RowsInMonthComplete(rows: seq<Row>, m: int, i: int)
    requires 0 <= i < |rows| && MonthOfRow(rows[i]) == m
    ensures rows[i] in RowsInMonth(rows, m)
  {
    if i > 0 {
      assert rows[i] == rows[1..][i - 1];
      RowsInMonthComplete(rows[1..], m, i - 1);
    }
  }

  /** The running totals of month m are the sum and the number of the present
      readings of the rows of month m. */
  lemma {:induction false} MonthTotalsOfRows(rows: seq<Row>, m: int)
    ensures MonthTotals(rows, m).sum == Sum(PresentValues(RowsInMonth(rows, m)))
    ensures MonthTotals(rows, m).count == |PresentValues(RowsInMonth(rows, m))|
  {
    if rows != [] {
      MonthTotalsOfRows(rows[1..], m);
      var head := if MonthOfRow(rows[0]) == m then [rows[0]] else [];
      var rest := PresentValues(RowsInMonth(rows[1..], m));
      PresentValuesConcat(head, RowsInMonth(rows[1..], m));
      if head != [] {
        assert head[1..] == [];
      }
      if MonthOfRow(rows[0]) == m && rows[0].pm.Some? {
        assert PresentValues(head) == [rows[0].pm.value];
        assert ([rows[0].pm.value] + rest)[1..] == rest;
      } else {
        assert PresentValues(head) == [];
        assert [] + rest == rest;
      }
    }
  }

  /** The value of each month is what the headline mean gives on the rows of
      that month alone. */
  lemma MonthMeanIsHeadlineMean(rows: seq<Row>, m: int)
    ensures MonthMean(rows, m) == Summarize(RowsInMonth(rows, m)).mean
  {
    MonthTotalsOfRows(rows, m);
  }

  /** The bins of count consecutive months starting at month from. */
  function Bins(rows: seq<Row>, from: int, count: nat): (bins: seq<MonthPoint>)
    decreases count
    ensures |bins| == count
    ensures forall k :: 0 <= k < count ==> bins[k].month == from + k && bins[k].mean == MonthMean(rows, from + k)
  {
    if count == 0 then [] else [MonthPoint(from, MonthMean(rows, from))] + Bins(rows, from + 1, count - 1)
  }

  /** Month-end resample with a mean aggregate: one bin for every month from
      the first month of the table to its last, with no gaps. */
  function MonthlyTrend(rows: seq<Row>): (trend: seq<MonthPoint>)
    ensures rows == [] <==> trend == []
    ensures rows != [] ==> |trend| == LastMonth(rows) - FirstMonth(rows) + 1
  {
    if rows == [] then []
    else
      var first, last := FirstMonth(rows), LastMonth(rows);
      assert first <= MonthOfRow(rows[0]) <= last;
      Bins(rows, first, last - first + 1)
  }

  /** The bins run through consecutive months, from the first month of the
      table to its last. */
  lemma TrendMonths(rows: seq<Row>)
    requires rows != []
    ensures MonthlyTrend(rows)[0].month == FirstMonth(rows)
    ensures MonthlyTrend(rows)[|MonthlyTrend(rows)| - 1].month == LastMonth(rows)
    ensures forall k :: 0 <= k < |MonthlyTrend(rows)| - 1 ==>
      MonthlyTrend(rows)[k + 1].month == MonthlyTrend(rows)[k].month + 1
  {
    var first, last := FirstMonth(rows), LastMonth(rows);
    assert first <= MonthOfRow(rows[0]) <= last;
  }

  /** Each bin is labelled by the last day of its month: the label lies in the
      month, the next day starts the following month, and the label is the
      month's DaysInMonth-th day. */
  lemma TrendLabels(rows: seq<Row>, k: int)
    requires 0 <= k < |MonthlyTrend(rows)|
    ensures Calendar.MonthOf(Label(MonthlyTrend(rows)[k])) == MonthlyTrend(rows)[k].month
    ensures Calendar.MonthOf(Label(MonthlyTrend(rows)[k]) + 1) == MonthlyTrend(rows)[k].month + 1
    ensures Label(MonthlyTrend(rows)[k]) - Calendar.MonthStart(MonthlyTrend(rows)[k].month) + 1 ==
      Calendar.DaysInMonth(MonthlyTrend(rows)[k].month)
  {
    Calendar.MonthEndIsLastDay(MonthlyTrend(rows)[k].month);
  }

  /** The labels of the trend are strictly increasing. */
  lemma TrendAscending(rows: seq<Row>, k: int, l: int)
    requires 0 <= k < l < |MonthlyTrend(rows)|
    ensures Label(MonthlyTrend(rows)[k]) < Label(MonthlyTrend(rows)[l])
  {
    TrendMonths(rows);
    Calendar.MonthEndIncreasing(MonthlyTrend(rows)[k].month, MonthlyTrend(rows)[l].month);
  }

  /** Every row lies in exactly one bin: the bin of its own month, whose label
      is on or after the row's day. */
  lemma TrendCoversRows(rows: seq<Row>, i: int) returns (k: int)
    requires 0 <= i < |rows|
    ensures 0 <= k < |MonthlyTrend(rows)|
    ensures MonthlyTrend(rows)[k].month == MonthOfRow(rows[i])
    ensures DayOf(rows[i].t) <= Label(MonthlyTrend(rows)[k])
    ensures forall l :: 0 <= l < |MonthlyTrend(rows)| && l != k ==>
      MonthlyTrend(rows)[l].month != MonthOfRow(rows[i])
  {
    var first, last := FirstMonth(rows), LastMonth(rows);
    var m := MonthOfRow(rows[i]);
    assert first <= m <= last;
    k := m - first;
    assert MonthlyTrend(rows)[k].month == m;
    Calendar.MonthOfBounds(DayOf(rows[i].t));
  }

  /** The first and the last bin each hold at least one row. */
  lemma TrendEndsOccupied(rows: seq<Row>)
    requires rows != []
    ensures exists i :: 0 <= i < |rows| && MonthOfRow(rows[i]) == MonthlyTrend(rows)[0].month
    ensures exists i :: 0 <= i < |rows| && MonthOfRow(rows[i]) == MonthlyTrend(rows)[|MonthlyTrend(rows)| - 1].month
  {
    TrendMonths(rows);
    var i := FirstMonthAttained(rows);
    var j := LastMonthAttained(rows);
  }

  /** Each bin's value is the mean of the present readings of its month, the
      same value the headline mean gives on that month's rows, and it is absent
      exactly when no row of that month has a reading. */
  lemma TrendMean(rows: seq<Row>, k: int)
    requires 0 <= k < |MonthlyTrend(rows)|
    ensures MonthlyTrend(rows)[k].mean == Summarize(RowsInMonth(rows, MonthlyTrend(rows)[k].month)).mean
    ensures MonthlyTrend(rows)[k].mean.None? <==> NoReadingIn(rows, MonthlyTrend(rows)[k].month)
  {
    var m := MonthlyTrend(rows)[k].month;
    assert MonthlyTrend(rows)[k].mean == MonthMean(rows, m);
    MonthMeanIsHeadlineMean(rows, m);
    MonthMeanAbsent(rows, m);
  }
}
