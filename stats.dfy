/** The three headline metrics: mean, maximum and minimum PM2.5 of the
    filtered table, each taken over the present readings only. */
module Stats {
  import opened Wrappers
  import opened Observations

  /** The PM2.5 readings that are present, in row order; NaN cells are skipped. */
  function PresentValues(rows: seq<Row>): (xs: seq<real>)
    ensures |xs| <= |rows|
  {
    if rows == [] then []
    else
      var rest := PresentValues(rows[1..]);
      match rows[0].pm
      case Some(x) => [x] + rest
      case None => rest
  }

  /** A value is a present reading exactly when some row carries it. */
  lemma {:induction false} PresentValuesMembers(rows: seq<Row>)
    ensures forall i :: 0 <= i < |rows| && rows[i].pm.Some? ==> rows[i].pm.value in PresentValues(rows)
    ensures forall x :: x in PresentValues(rows) ==> exists i :: 0 <= i < |rows| && rows[i].pm == Some(x)
  {
    if rows != [] {
      PresentValuesMembers(rows[1..]);
      assert forall i :: 1 <= i < |rows| ==> rows[1..][i - 1] == rows[i];
    }
  }

  /** No reading is present exactly when every row's reading is absent. */
  lemma {:induction false} PresentValuesEmpty(rows: seq<Row>)
    ensures PresentValues(rows) == [] <==> forall i :: 0 <= i < |rows| ==> rows[i].pm.None?
  {
    if rows != [] {
      PresentValuesEmpty(rows[1..]);
      assert forall i :: 1 <= i < |rows| ==> rows[1..][i - 1] == rows[i];
    }
  }

  lemma {:induction false} PresentValuesConcat(a: seq<Row>, b: seq<Row>)
    ensures PresentValues(a + b) == PresentValues(a) + PresentValues(b)
  {
    if a == [] {
      assert a + b == b;
    } else {
      assert (a + b)[1..] == a[1..] + b;
      PresentValuesConcat(a[1..], b);
    }
  }

  function Sum(xs: seq<real>): real
  {
    if xs == [] then 0.0 else xs[0] + Sum(xs[1..])
  }

  /** Arithmetic mean, absent for no values (pandas returns NaN there). */
  function Mean(xs: seq<real>): (m: Option<real>)
    ensures m.None? <==> xs == []
  {
    if xs == [] then None else Some(Sum(xs) / (|xs| as real))
  }

  function Max(xs: seq<real>): (m: real)
    requires xs != []
    ensures m in xs
    ensures forall i :: 0 <= i < |xs| ==> xs[i] <= m
  {
    if |xs| == 1 then xs[0]
    else
      var rest := Max(xs[1..]);
      assert forall i :: 1 <= i < |xs| ==> xs[i] == xs[1..][i - 1];
      if xs[0] >= rest then xs[0] else rest
  }

  function Min(xs: seq<real>): (m: real)
    requires xs != []
    ensures m in xs
    ensures forall i :: 0 <= i < |xs| ==> m <= xs[i]
  {
    if |xs| == 1 then xs[0]
    else
      var rest := Min(xs[1..]);
      assert forall i :: 1 <= i < |xs| ==> xs[i] == xs[1..][i - 1];
      if xs[0] <= rest then xs[0] else rest
  }

  lemma Scale(m: real, n: real, x: real)
    requires m == n + 1.0
    ensures m * x == n * x + x
  {
  }

  /** A sum of values that lie between lo and hi lies between n * lo and n * hi. */
  lemma {:induction false} SumBetween(xs: seq<real>, lo: real, hi: real)
    requires forall i :: 0 <= i < |xs| ==> lo <= xs[i] <= hi
    ensures (|xs| as real) * lo <= Sum(xs) <= (|xs| as real) * hi
  {
    if xs != [] {
      assert forall i :: 1 <= i < |xs| ==> xs[i] == xs[1..][i - 1];
      SumBetween(xs[1..], lo, hi);
      Scale(|xs| as real, |xs[1..]| as real, lo);
      Scale(|xs| as real, |xs[1..]| as real, hi);
    }
  }

  lemma QuotientBetween(s: real, n: real, lo: real, hi: real)
    requires n > 0.0 && n * lo <= s <= n * hi
    ensures lo <= s / n <= hi
  {
    var q := s / n;
    assert q * n == s;
    assert (q - lo) * n == s - n * lo;
    assert (hi - q) * n == n * hi - s;
  }

  /** The mean of values that lie between lo and hi lies between lo and hi. */
  lemma MeanBounds(xs: seq<real>, lo: real, hi: real)
    requires xs != []
    requires forall i :: 0 <= i < |xs| ==> lo <= xs[i] <= hi
    ensures lo <= Mean(xs).value <= hi
  {
    SumBetween(xs, lo, hi);
    QuotientBetween(Sum(xs), |xs| as real, lo, hi);
  }

  /** The mean of a non-empty list lies between its minimum and its maximum. */
  lemma MeanBetween(xs: seq<real>)
    requires xs != []
    ensures Min(xs) <= Mean(xs).value <= Max(xs)
  {
    MeanBounds(xs, Min(xs), Max(xs));
  }

  /** The three metrics; each is absent when no reading is present. */
  datatype Summary = Summary(mean: Option<real>, max: Option<real>, min: Option<real>)

  /** The metrics of a list of present readings. */
  function SummaryOf(xs: seq<real>): (s: Summary)
    ensures s.mean.None? <==> xs == []
    ensures s.max.None? == s.mean.None? && s.min.None? == s.mean.None?
    ensures s.max.Some? ==> s.max.value in xs && forall i :: 0 <= i < |xs| ==> xs[i] <= s.max.value
    ensures s.min.Some? ==> s.min.value in xs && forall i :: 0 <= i < |xs| ==> s.min.value <= xs[i]
    ensures s.mean.Some? ==> s.min.value <= s.mean.value <= s.max.value
  {
    if xs == [] then Summary(None, None, None)
    else
      MeanBetween(xs);
      Summary(Mean(xs), Some(Max(xs)), Some(Min(xs)))
  }

  /** The metrics of the filtered table: absent readings count in neither
      the sum nor the number of readings. */
  function Summarize(rows: seq<Row>): (s: Summary)
    ensures s.mean.None? <==> (forall i :: 0 <= i < |rows| ==> rows[i].pm.None?)
    ensures s.max.None? == s.mean.None? && s.min.None? == s.mean.None?
    ensures s.max.Some? ==>
      (exists i :: 0 <= i < |rows| && rows[i].pm == s.max) &&
      (forall i :: 0 <= i < |rows| && rows[i].pm.Some? ==> rows[i].pm.value <= s.max.value)
    ensures s.min.Some? ==>
      (exists i :: 0 <= i < |rows| && rows[i].pm == s.min) &&
      (forall i :: 0 <= i < |rows| && rows[i].pm.Some? ==> s.min.value <= rows[i].pm.value)
    ensures s.mean.Some? ==> s.min.value <= s.mean.value <= s.max.value
    ensures s.mean == Mean(PresentValues(rows))
  {
    var xs := PresentValues(rows);
    PresentValuesMembers(rows);
    assert forall i :: 0 <= i < |rows| && rows[i].pm.Some? ==> rows[i].pm.value in xs;
    SummaryOf(xs)
  }

  /** A row without a reading changes none of the three metrics, wherever it sits. */
  lemma AbsentReadingIgnored(a: seq<Row>, r: Row, b: seq<Row>)
    requires r.pm.None?
    ensures Summarize(a + [r] + b) == Summarize(a + b)
  {
    assert PresentValues(a + [r] + b) == PresentValues(a + b) by {
      PresentValuesConcat(a + [r], b);
      PresentValuesConcat(a, [r]);
      PresentValuesConcat(a, b);
      assert PresentValues([r]) == [] by {
        assert [r][1..] == [];
      }
    }
  }
}
