/** The station ranking: the mean PM2.5 of every station of the filtered
    table, listed from the most polluted station to the least. */
module Ranking {
  import opened Wrappers
  import opened Observations
  import opened Stats

  /** One line of the ranking: a station and the mean of its present readings. */
  datatype Ranked = Ranked(station: string, mean: Option<real>)

  /** The distinct stations of the table. */
  function Stations(rows: seq<Row>): (ss: seq<string>)
    ensures |ss| <= |rows|
  {
    if rows == [] then []
    else
      var rest := Stations(rows[1..]);
      if rows[0].station in rest then rest else [rows[0].station] + rest
  }

  /** A station is listed exactly when some row belongs to it. */
  lemma {:induction false} StationsMembers(rows: seq<Row>)
    ensures forall i :: 0 <= i < |rows| ==> rows[i].station in Stations(rows)
    ensures forall s :: s in Stations(rows) ==> exists i :: 0 <= i < |rows| && rows[i].station == s
  {
    if rows != [] {
      StationsMembers(rows[1..]);
      assert forall i :: 1 <= i < |rows| ==> rows[1..][i - 1] == rows[i];
    }
  }

  /** No station is listed twice. */
  lemma {:induction false} StationsDistinct(rows: seq<Row>)
    ensures forall i, j :: 0 <= i < j < |Stations(rows)| ==> Stations(rows)[i] != Stations(rows)[j]
  {
    if rows != [] {
      StationsDistinct(rows[1..]);
    }
  }

  /** The rows of station s, in their original order: the group pandas forms for s. */
  function StationRows(rows: seq<Row>, s: string): (out: seq<Row>)
    ensures |out| <= |rows|
  {
    if rows == [] then []
    else (if rows[0].station == s then [rows[0]] else []) + StationRows(rows[1..], s)
  }

  /** A row has a reading in the group of station s exactly when some row of
      station s has one. */
  lemma {:induction false} StationRowsReadings(rows: seq<Row>, s: string)
    ensures PresentValues(StationRows(rows, s)) == [] <==>
      forall i :: 0 <= i < |rows| && rows[i].station == s ==> rows[i].pm.None?
  {
    if rows != [] {
      StationRowsReadings(rows[1..], s);
      var head := if rows[0].station == s then [rows[0]] else [];
      PresentValuesConcat(head, StationRows(rows[1..], s));
      if head != [] {
        assert head[1..] == [];
      }
      assert forall i :: 1 <= i < |rows| ==> rows[1..][i - 1] == rows[i];
    }
  }

  /** The mean PM2.5 of station s: the mean of the present readings of its group. */
  function StationMean(rows: seq<Row>, s: string): Option<real>
  {
    Mean(PresentValues(StationRows(rows, s)))
  }

  /** A station's mean is absent (NaN in pandas) exactly when none of its rows has a reading. */
  lemma StationMeanAbsent(rows: seq<Row>, s: string)
    ensures StationMean(rows, s).None? <==>
      forall i :: 0 <= i < |rows| && rows[i].station == s ==> rows[i].pm.None?
  {
    StationRowsReadings(rows, s);
  }

  /** The grouped means, one line per station, before sorting. */
  function Averages(rows: seq<Row>, ss: seq<string>): (avg: seq<Ranked>)
    ensures |avg| == |ss|
  {
    if ss == [] then [] else [Ranked(ss[0], StationMean(rows, ss[0]))] + Averages(rows, ss[1..])
  }

  /** Line k of the grouped means is for station ss[k]. */
  lemma {:induction false} AveragesStations(rows: seq<Row>, ss: seq<string>)
    ensures forall k :: 0 <= k < |ss| ==> Averages(rows, ss)[k].station == ss[k]
  {
    if ss != [] {
      AveragesStations(rows, ss[1..]);
    }
  }

  /** Every line of the grouped means carries its station's mean. */
  lemma {:induction false} AveragesMeans(rows: seq<Row>, ss: seq<string>)
    ensures forall k :: 0 <= k < |ss| ==> Averages(rows, ss)[k].mean == StationMean(rows, Averages(rows, ss)[k].station)
  {
    if ss != [] {
      AveragesMeans(rows, ss[1..]);
    }
  }

  /** Descending order of means with absent means last: a belongs no later than b. */
  predicate Precedes(a: Ranked, b: Ranked)
  {
    b.mean.None? || (a.mean.Some? && a.mean.value >= b.mean.value)
  }

  /** Means never increase along the list, and every absent mean comes after every present one. */
  predicate Descending(s: seq<Ranked>)
  {
    forall i, j :: 0 <= i < j < |s| ==> Precedes(s[i], s[j])
  }

  /** Places x before the first line it precedes. */
  function Insert(x: Ranked, s: seq<Ranked>): (out: seq<Ranked>)
    ensures |out| == |s| + 1
  {
    if s == [] then [x]
    else if Precedes(x, s[0]) then [x] + s
    else [s[0]] + Insert(x, s[1..])
  }

  /** Insertion puts x among the lines and loses none. */
  lemma {:induction false} InsertPermutes(x: Ranked, s: seq<Ranked>)
    ensures multiset(Insert(x, s)) == multiset{x} + multiset(s)
  {
    if s != [] && !Precedes(x, s[0]) {
      var tail := Insert(x, s[1..]);
      InsertPermutes(x, s[1..]);
      assert multiset([s[0]] + tail) == multiset{s[0]} + multiset(tail);
      assert multiset(s) == multiset{s[0]} + multiset(s[1..]) by {
        assert s == [s[0]] + s[1..];
      }
    }
  }

  /** A line that precedes every line of a descending list can head it. */
  lemma ConsDescending(h: Ranked, t: seq<Ranked>)
    requires Descending(t)
    requires forall j :: 0 <= j < |t| ==> Precedes(h, t[j])
    ensures Descending([h] + t)
  {
    var l := [h] + t;
    forall i, j | 0 <= i < j < |l|
      ensures Precedes(l[i], l[j])
    {
      assert l[j] == t[j - 1];
      if i > 0 {
        assert l[i] == t[i - 1];
      }
    }
  }

  /** Inserting into a descending list keeps it descending. */
  lemma {:induction false} InsertDescending(x: Ranked, s: seq<Ranked>)
    requires Descending(s)
    ensures Descending(Insert(x, s))
  {
    if s == [] {
    } else if Precedes(x, s[0]) {
      ConsDescending(x, s);
    } else {
      var rest := s[1..];
      InsertDescending(x, rest);
      InsertPermutes(x, rest);
      var tail := Insert(x, rest);
      forall j | 0 <= j < |tail|
        ensures Precedes(s[0], tail[j])
      {
        assert tail[j] in multiset(tail);
        if tail[j] != x {
          assert tail[j] in multiset(rest);
          var k :| 0 <= k < |rest| && rest[k] == tail[j];
          assert s[k + 1] == tail[j];
        }
      }
      ConsDescending(s[0], tail);
    }
  }

  /** Sorts the lines by mean, descending, with absent means last. */
  function Sort(s: seq<Ranked>): (out: seq<Ranked>)
    ensures |out| == |s|
  {
    if s == [] then [] else Insert(s[0], Sort(s[1..]))
  }

  /** Sorting returns a descending rearrangement of its input. */
  lemma {:induction false} SortCorrect(s: seq<Ranked>)
    ensures Descending(Sort(s))
    ensures multiset(Sort(s)) == multiset(s)
  {
    if s != [] {
      SortCorrect(s[1..]);
      InsertDescending(s[0], Sort(s[1..]));
      InsertPermutes(s[0], Sort(s[1..]));
      assert s == [s[0]] + s[1..];
    }
  }

  /** The ranking: group by station, take each group's mean, sort descending. */
  function StationRanking(rows: seq<Row>): seq<Ranked>
  {
    Sort(Averages(rows, Stations(rows)))
  }

  /** A list without repeated elements holds each of its elements once. */
  lemma {:induction false} CountOfDistinct(b: seq<Ranked>, x: Ranked)
    requires forall i, j :: 0 <= i < j < |b| ==> b[i] != b[j]
    ensures multiset(b)[x] <= 1
  {
    if b != [] {
      CountOfDistinct(b[1..], x);
      assert b == [b[0]] + b[1..];
      if b[0] == x {
        assert x !in b[1..];
      }
    }
  }

  /** A list holding x at two positions holds it at least twice. */
  lemma Twice(a: seq<Ranked>, i: int, j: int)
    requires 0 <= i < j < |a| && a[i] == a[j]
    ensures multiset(a)[a[i]] >= 2
  {
    assert a == a[..j] + [a[j]] + a[j + 1..];
    assert a[..j][i] == a[i];
  }

  /** A rearrangement of a list without repeated elements has none either. */
  lemma DistinctPermutation(a: seq<Ranked>, b: seq<Ranked>)
    requires multiset(a) == multiset(b)
    requires forall i, j :: 0 <= i < j < |b| ==> b[i] != b[j]
    ensures forall i, j :: 0 <= i < j < |a| ==> a[i] != a[j]
  {
    forall i, j | 0 <= i < j < |a|
      ensures a[i] != a[j]
    {
      CountOfDistinct(b, a[i]);
      if a[i] == a[j] {
        Twice(a, i, j);
      }
    }
  }

  /** The ranking runs from the highest station mean to the lowest, with the
      stations whose mean is absent at the end. */
  lemma RankingDescending(rows: seq<Row>)
    ensures Descending(StationRanking(rows))
  {
    SortCorrect(Averages(rows, Stations(rows)));
  }

  /** The stations that have rows in the table. */
  function StationSet(rows: seq<Row>): set<string>
  {
    set i | 0 <= i < |rows| :: rows[i].station
  }

  /** The stations that have lines in a ranking. */
  function RankedStations(ranking: seq<Ranked>): set<string>
  {
    set k | 0 <= k < |ranking| :: ranking[k].station
  }

  /** Every element of a rearrangement of b is an element of b, and conversely. */
  lemma PermutationMembers(a: seq<Ranked>, b: seq<Ranked>)
    requires multiset(a) == multiset(b)
    ensures forall k :: 0 <= k < |a| ==> a[k] in b
    ensures forall n :: 0 <= n < |b| ==> b[n] in a
  {
    forall k | 0 <= k < |a|
      ensures a[k] in b
    {
      assert a[k] in multiset(a);
    }
    forall n | 0 <= n < |b|
      ensures b[n] in a
    {
      assert b[n] in multiset(b);
    }
  }

  /** Every line of the ranking carries its station's mean. */
  lemma RankingMeans(rows: seq<Row>)
    ensures forall k :: 0 <= k < |StationRanking(rows)| ==>
      StationRanking(rows)[k].mean == StationMean(rows, StationRanking(rows)[k].station)
  {
    var avg := Averages(rows, Stations(rows));
    SortCorrect(avg);
    PermutationMembers(StationRanking(rows), avg);
    AveragesMeans(rows, Stations(rows));
  }

  /** Every station of the ranking has rows in the table. */
  lemma RankedStationsSound(rows: seq<Row>)
    ensures RankedStations(StationRanking(rows)) <= StationSet(rows)
  {
    var ss := Stations(rows);
    var avg := Averages(rows, ss);
    var ranking := StationRanking(rows);
    forall s | s in RankedStations(ranking)
      ensures s in StationSet(rows)
    {
      var k :| 0 <= k < |ranking| && ranking[k].station == s;
      assert ranking[k] in avg by {
        SortCorrect(avg);
        PermutationMembers(ranking, avg);
      }
      var n :| 0 <= n < |avg| && avg[n] == ranking[k];
      assert s in ss by {
        AveragesStations(rows, ss);
      }
      StationsMembers(rows);
      var i :| 0 <= i < |rows| && rows[i].station == s;
    }
  }

  /** Every station with rows in the table has a line in the ranking. */
  lemma RankedStationsComplete(rows: seq<Row>)
    ensures StationSet(rows) <= RankedStations(StationRanking(rows))
  {
    var ss := Stations(rows);
    var avg := Averages(rows, ss);
    var ranking := StationRanking(rows);
    forall s | s in StationSet(rows)
      ensures s in RankedStations(ranking)
    {
      var i :| 0 <= i < |rows| && rows[i].station == s;
      StationsMembers(rows);
      var n :| 0 <= n < |ss| && ss[n] == s;
      assert avg[n] in ranking by {
        SortCorrect(avg);
        PermutationMembers(ranking, avg);
      }
      var k :| 0 <= k < |ranking| && ranking[k] == avg[n];
      AveragesStations(rows, ss);
    }
  }

  /** A station has a line in the ranking exactly when some row of the table belongs to it. */
  lemma RankingStations(rows: seq<Row>)
    ensures RankedStations(StationRanking(rows)) == StationSet(rows)
  {
    RankedStationsSound(rows);
    RankedStationsComplete(rows);
  }

  /** Each station has one line of the ranking. */
  lemma RankingDistinct(rows: seq<Row>)
    ensures forall k, l :: 0 <= k < l < |StationRanking(rows)| ==>
      StationRanking(rows)[k].station != StationRanking(rows)[l].station
  {
    var ss := Stations(rows);
    var avg := Averages(rows, ss);
    var ranking := StationRanking(rows);
    StationsDistinct(rows);
    SortCorrect(avg);
    AveragesStations(rows, ss);
    AveragesMeans(rows, ss);
    DistinctPermutation(ranking, avg);
    RankingMeans(rows);
  }
}
