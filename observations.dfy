/** The hourly observation table and the dashboard's row filter. */
module Observations {
  import opened Wrappers
  import Calendar

  /** One hourly observation of one station. The timestamp t counts hours from
      1970-01-01 00:00, so day d begins at hour 24 * d. A NaN cell is None.
      Rain and temperature only feed the scatter plots and pass through. */
  datatype Row = Row(station: string, t: int, pm: Option<real>, rain: Option<real>, temp: Option<real>)

  /** The day index of hour t (floor division). */
  function DayOf(t: int): int
  {
    t / 24
  }

  /** The first hour of day d: what converting a picked date to a timestamp gives. */
  function Midnight(d: int): int
  {
    24 * d
  }

  /** The calendar month (month index) of a row's timestamp. */
  function MonthOfRow(r: Row): int
  {
    Calendar.MonthOf(DayOf(r.t))
  }

  /** What the sidebar supplies: the picked start and end days and the picked stations. */
  datatype Criteria = Criteria(start: int, end: int, stations: set<string>)

  /** The boolean mask: timestamp at or after midnight of the start day, at or
      before midnight of the end day, and station among the picked ones. */
  predicate Selected(r: Row, c: Criteria)
  {
    Midnight(c.start) <= r.t && r.t <= Midnight(c.end) && r.station in c.stations
  }

  /** The filtered table: the rows the mask keeps, in their original order. */
  function Filter(rows: seq<Row>, c: Criteria): (out: seq<Row>)
    ensures |out| <= |rows|
  {
    if rows == [] then []
    else (if Selected(rows[0], c) then [rows[0]] else []) + Filter(rows[1..], c)
  }

  /** Every row of the filtered table is a row of the table that the mask keeps. */
  lemma {:induction false} FilterSound(rows: seq<Row>, c: Criteria)
    ensures forall k :: 0 <= k < |Filter(rows, c)| ==> Filter(rows, c)[k] in rows && Selected(Filter(rows, c)[k], c)
  {
    if rows != [] {
      FilterSound(rows[1..], c);
      assert forall r :: r in rows[1..] ==> r in rows;
    }
  }

  /** Every row the mask keeps is in the filtered table. */
  lemma {:induction false} FilterComplete(rows: seq<Row>, c: Criteria, i: int)
    requires 0 <= i < |rows| && Selected(rows[i], c)
    ensures rows[i] in Filter(rows, c)
  {
    if i > 0 {
      FilterComplete(rows[1..], c, i - 1);
    }
  }

  /** Filtering distributes over concatenation, so it never reorders or merges rows. */
  lemma {:induction false} FilterConcat(a: seq<Row>, b: seq<Row>, c: Criteria)
    ensures Filter(a + b, c) == Filter(a, c) + Filter(b, c)
  {
    if a != [] {
      assert (a + b)[1..] == a[1..] + b;
      FilterConcat(a[1..], b, c);
    } else {
      assert a + b == b;
    }
  }

  /** Every position of s moved one place to the right. */
  function Shift(s: seq<int>): (r: seq<int>)
    ensures |r| == |s| && forall k :: 0 <= k < |s| ==> r[k] == s[k] + 1
  {
    if s == [] then [] else [s[0] + 1] + Shift(s[1..])
  }

  /** The positions, in increasing order, of the rows the mask keeps. */
  function KeptPositions(rows: seq<Row>, c: Criteria): (idx: seq<int>)
    ensures |idx| == |Filter(rows, c)|
    ensures forall k :: 0 <= k < |idx| ==> 0 <= idx[k] < |rows|
  {
    if rows == [] then []
    else (if Selected(rows[0], c) then [0] else []) + Shift(KeptPositions(rows[1..], c))
  }

  lemma {:induction false} KeptPositionsIncreasing(rows: seq<Row>, c: Criteria)
    ensures forall k, l :: 0 <= k < l < |KeptPositions(rows, c)| ==>
      KeptPositions(rows, c)[k] < KeptPositions(rows, c)[l]
  {
    if rows != [] {
      KeptPositionsIncreasing(rows[1..], c);
    }
  }

  lemma {:induction false} KeptPositionsPick(rows: seq<Row>, c: Criteria)
    ensures forall k :: 0 <= k < |KeptPositions(rows, c)| ==>
      Filter(rows, c)[k] == rows[KeptPositions(rows, c)[k]]
  {
    if rows != [] {
      KeptPositionsPick(rows[1..], c);
      var rest := KeptPositions(rows[1..], c);
      forall k | 0 <= k < |rest|
        ensures Filter(rows[1..], c)[k] == rows[rest[k] + 1]
      {
        assert rows[1..][rest[k]] == rows[rest[k] + 1];
      }
    }
  }

  lemma {:induction false} KeptPositionsExact(rows: seq<Row>, c: Criteria)
    ensures forall i :: 0 <= i < |rows| ==> (i in KeptPositions(rows, c) <==> Selected(rows[i], c))
  {
    if rows != [] {
      KeptPositionsExact(rows[1..], c);
      var rest := KeptPositions(rows[1..], c);
      var shifted := Shift(rest);
      forall i | 1 <= i < |rows|
        ensures i in shifted <==> Selected(rows[i], c)
      {
        assert rows[1..][i - 1] == rows[i];
        if i - 1 in rest {
          var k :| 0 <= k < |rest| && rest[k] == i - 1;
          assert shifted[k] == i;
        }
      }
    }
  }

  /** The filtered table is exactly the subsequence of the rows the mask keeps:
      idx lists, in increasing order, the positions of the kept rows, every
      kept position is listed, and out[k] is the row at position idx[k]. */
  lemma FilterPositions(rows: seq<Row>, c: Criteria) returns (idx: seq<int>)
    ensures |idx| == |Filter(rows, c)|
    ensures forall k :: 0 <= k < |idx| ==> 0 <= idx[k] < |rows| && Filter(rows, c)[k] == rows[idx[k]]
    ensures forall k, l :: 0 <= k < l < |idx| ==> idx[k] < idx[l]
    ensures forall i :: 0 <= i < |rows| ==> (i in idx <==> Selected(rows[i], c))
  {
    idx := KeptPositions(rows, c);
    KeptPositionsIncreasing(rows, c);
    KeptPositionsPick(rows, c);
    KeptPositionsExact(rows, c);
  }

  /** With no station picked the filtered table is empty, whatever the dates. */
  lemma {:induction false} FilterNoStations(rows: seq<Row>, c: Criteria)
    requires c.stations == {}
    ensures Filter(rows, c) == []
  {
    if rows != [] {
      FilterNoStations(rows[1..], c);
    }
  }

  /** A start later than the end is not rejected: it simply keeps nothing. */
  lemma {:induction false} FilterEmptyRange(rows: seq<Row>, c: Criteria)
    requires c.start > c.end
    ensures Filter(rows, c) == []
  {
    if rows != [] {
      FilterEmptyRange(rows[1..], c);
    }
  }

  /** Of the hours of the end day, only its midnight passes the mask. */
  lemma EndDayCutoff(r: Row, c: Criteria)
    requires c.start <= c.end && r.station in c.stations && DayOf(r.t) == c.end
    ensures Selected(r, c) <==> r.t == Midnight(c.end)
  {
  }

  /** Filtering the filtered table again changes nothing. */
  lemma {:induction false} FilterIdempotent(rows: seq<Row>, c: Criteria)
    ensures Filter(Filter(rows, c), c) == Filter(rows, c)
  {
    if rows != [] {
      FilterIdempotent(rows[1..], c);
      var head := if Selected(rows[0], c) then [rows[0]] else [];
      FilterConcat(head, Filter(rows[1..], c), c);
    }
  }
}
