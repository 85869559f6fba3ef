/** The dashboard's pipeline: every figure on the page is computed from the
    same filtered table. */
module Dashboard {
  import opened Wrappers
  import opened Observations
  import opened Stats
  import opened Trend
  import opened Ranking
  import opened Categories

  /** Everything the page shows, before formatting and plotting. */
  datatype Report = Report(
    filtered: seq<Row>,
    summary: Summary,
    trend: seq<MonthPoint>,
    ranking: seq<Ranked>,
    counts: map<Category, nat>,
    barOrder: seq<Category>)

  /** Filters the table by the sidebar's criteria and computes every figure from the result. */
  function BuildReport(rows: seq<Row>, c: Criteria): Report
  {
    var filtered := Filter(rows, c);
    var counts := Tally(filtered);
    Report(filtered, Summarize(filtered), MonthlyTrend(filtered), StationRanking(filtered), counts, ExistingOrder(counts))
  }

  /** With no station picked every figure is empty: no metric, no month, no
      station, no band. */
  lemma ReportWithoutStations(rows: seq<Row>, c: Criteria)
    requires c.stations == {}
    ensures BuildReport(rows, c).filtered == []
    ensures BuildReport(rows, c).summary == Summary(None, None, None)
    ensures BuildReport(rows, c).trend == []
    ensures BuildReport(rows, c).ranking == []
    ensures BuildReport(rows, c).counts == map[]
    ensures BuildReport(rows, c).barOrder == []
  {
    FilterNoStations(rows, c);
    ExistingOrderSubsequence(map[]);
  }

  /** The bars of the distribution add up to the number of filtered rows, and
      the ranking has one line per station among the filtered rows. */
  lemma ReportConsistent(rows: seq<Row>, c: Criteria)
    ensures Total(BuildReport(rows, c).barOrder, BuildReport(rows, c).counts) == |BuildReport(rows, c).filtered|
    ensures RankedStations(BuildReport(rows, c).ranking) == StationSet(BuildReport(rows, c).filtered)
    ensures RankedStations(BuildReport(rows, c).ranking) <= c.stations
  {
    var filtered := Filter(rows, c);
    CountsSum(filtered);
    RankingStations(filtered);
    FilterSound(rows, c);
    forall s | s in StationSet(filtered)
      ensures s in c.stations
    {
      var i :| 0 <= i < |filtered| && filtered[i].station == s;
      assert Selected(filtered[i], c);
    }
  }

  /** A worked example in January and February 1970: station A has readings
      of 30 on day 14 and 80 on day 40, station B a reading of 200 on day 19.
      A reading of 80 is above the Moderate bound of 75, so it counts as
      Unhealthy for Sensitive Groups. */
  function ExampleRows(): seq<Row>
  {
    [Row("A", 24 * 14, Some(30.0), None, None),
     Row("A", 24 * 40, Some(80.0), None, None),
     Row("B", 24 * 19, Some(200.0), None, None)]
  }

  /** Picking station A over days 0 to 58 keeps A's two rows and gives the
      metrics, the two monthly bins and the distribution they imply. */
  lemma ExampleStationA()
    ensures BuildReport(ExampleRows(), Criteria(0, 58, {"A"})).filtered == ExampleRows()[..2]
    ensures BuildReport(ExampleRows(), Criteria(0, 58, {"A"})).summary == Summary(Some(55.0), Some(80.0), Some(30.0))
    ensures BuildReport(ExampleRows(), Criteria(0, 58, {"A"})).trend == [MonthPoint(0, Some(30.0)), MonthPoint(1, Some(80.0))]
    ensures BuildReport(ExampleRows(), Criteria(0, 58, {"A"})).counts == map[Good := 1, UnhealthyForSensitiveGroups := 1]
    ensures BuildReport(ExampleRows(), Criteria(0, 58, {"A"})).barOrder == [Good, UnhealthyForSensitiveGroups]
  {
    var rows := ExampleRows();
    var a, b, c := rows[0], rows[1], rows[2];
    var crit := Criteria(0, 58, {"A"});
    assert rows[1..] == [b, c] && rows[1..][1..] == [c] && rows[1..][1..][1..] == [];
    assert Filter([c], crit) == [];
    assert Filter([b, c], crit) == [b];
    var f := Filter(rows, crit);
    assert f == [a, b];
    assert f[1..] == [b] && f[1..][1..] == [];
    ExampleSummary(f);
    ExampleTrend(f);
    ExampleCounts(f);
  }

  lemma ExampleSummary(f: seq<Row>)
    requires f == ExampleRows()[..2]
    ensures Summarize(f) == Summary(Some(55.0), Some(80.0), Some(30.0))
  {
    assert f[1..] == [f[1]] && f[1..][1..] == [];
    assert PresentValues([f[1]]) == [80.0];
    var xs := PresentValues(f);
    assert xs == [30.0, 80.0];
    assert xs[1..] == [80.0] && xs[1..][1..] == [];
    assert Sum([80.0]) == 80.0;
    assert Sum(xs) == 110.0;
    assert Max(xs) == 80.0 && Min(xs) == 30.0;
  }

  lemma ExampleTrend(f: seq<Row>)
    requires f == ExampleRows()[..2]
    ensures MonthlyTrend(f) == [MonthPoint(0, Some(30.0)), MonthPoint(1, Some(80.0))]
  {
    assert Calendar.MonthStart(1) == 31;
    assert Calendar.MonthStart(2) == 59;
    Calendar.MonthOfUnique(14, 0);
    Calendar.MonthOfUnique(40, 1);
    assert MonthOfRow(f[0]) == 0 && MonthOfRow(f[1]) == 1;
    assert f[1..] == [f[1]] && f[1..][1..] == [];
    assert FirstMonth(f[1..]) == 1 && LastMonth(f[1..]) == 1;
    assert FirstMonth(f) == 0 && LastMonth(f) == 1;
    assert MonthTotals([f[1]], 0) == Totals(0.0, 0);
    assert MonthTotals([f[1]], 1) == Totals(80.0, 1);
    assert MonthMean(f, 0) == Some(30.0);
    assert MonthMean(f, 1) == Some(80.0);
    var bins := Bins(f, 0, 2);
    assert bins[0] == MonthPoint(0, Some(30.0)) && bins[1] == MonthPoint(1, Some(80.0));
  }

  lemma ExampleCounts(f: seq<Row>)
    requires f == ExampleRows()[..2]
    ensures Tally(f) == map[Good := 1, UnhealthyForSensitiveGroups := 1]
    ensures ExistingOrder(Tally(f)) == [Good, UnhealthyForSensitiveGroups]
  {
    assert f[1..] == [f[1]] && f[1..][1..] == [];
    assert f[0].pm == Some(30.0) && f[1].pm == Some(80.0);
    assert Categorize(f[0].pm) == Good && Categorize(f[1].pm) == UnhealthyForSensitiveGroups;
    assert Tally([f[1]]) == map[UnhealthyForSensitiveGroups := 1];
    var counts := Tally(f);
    assert counts == map[Good := 1, UnhealthyForSensitiveGroups := 1];
    var o := Order;
    assert o[1..] == [Moderate, UnhealthyForSensitiveGroups, Unhealthy, VeryUnhealthy, Hazardous];
    assert Keep([Hazardous], counts) == [] by {
      assert [Hazardous][1..] == [];
    }
    assert Keep([VeryUnhealthy, Hazardous], counts) == [];
    assert Keep([Unhealthy, VeryUnhealthy, Hazardous], counts) == [];
    assert Keep([UnhealthyForSensitiveGroups, Unhealthy, VeryUnhealthy, Hazardous], counts) == [UnhealthyForSensitiveGroups];
    assert Keep(o[1..], counts) == [UnhealthyForSensitiveGroups];
  }

  /** Over the whole range with both stations picked, station B's mean of 200
      ranks above station A's mean of 55. */
  lemma ExampleRanking()
    ensures StationRanking(ExampleRows()) == [Ranked("B", Some(200.0)), Ranked("A", Some(55.0))]
  {
    var rows := ExampleRows();
    var ss := Stations(rows);
    ExampleStations();
    ExampleMeanA();
    ExampleMeanB();
    var ra, rb := Ranked("A", Some(55.0)), Ranked("B", Some(200.0));
    assert ss[1..] == ["B"] && ["B"][1..] == [];
    var avg := Averages(rows, ss);
    assert avg == [ra, rb];
    assert avg[1..] == [rb] && [rb][1..] == [];
    assert Sort([rb]) == [rb];
    assert Insert(ra, [rb]) == [rb, ra];
  }

  lemma ExampleStations()
    ensures Stations(ExampleRows()) == ["A", "B"]
  {
    var rows := ExampleRows();
    var b, c := rows[1], rows[2];
    assert rows[1..] == [b, c] && rows[1..][1..] == [c] && rows[1..][1..][1..] == [];
    assert Stations([c]) == ["B"];
    assert Stations([b, c]) == ["A", "B"];
  }

  lemma ExampleMeanA()
    ensures StationMean(ExampleRows(), "A") == Some(55.0)
  {
    var rows := ExampleRows();
    var a, b, c := rows[0], rows[1], rows[2];
    assert rows[1..] == [b, c] && rows[1..][1..] == [c] && rows[1..][1..][1..] == [];
    assert StationRows([c], "A") == [];
    assert StationRows([b, c], "A") == [b];
    assert StationRows(rows, "A") == [a, b];
    assert [a, b][1..] == [b] && [b][1..] == [];
    assert PresentValues([a, b]) == [30.0, 80.0];
    assert [30.0, 80.0][1..] == [80.0] && [80.0][1..] == [];
    assert Sum([30.0, 80.0]) == 110.0;
  }

  lemma ExampleMeanB()
    ensures StationMean(ExampleRows(), "B") == Some(200.0)
  {
    var rows := ExampleRows();
    var b, c := rows[1], rows[2];
    assert rows[1..] == [b, c] && rows[1..][1..] == [c] && rows[1..][1..][1..] == [];
    assert StationRows([c], "B") == [c];
    assert StationRows([b, c], "B") == [c];
    assert StationRows(rows, "B") == [c];
    assert [c][1..] == [];
    assert PresentValues([c]) == [200.0];
  }
}
