/** The air-quality category of each reading and the distribution of the
    filtered table over the six categories. */
module Categories {
  import opened Wrappers
  import opened Observations

  /** The six bands, from cleanest to most polluted. */
  datatype Category = Good | Moderate | UnhealthyForSensitiveGroups | Unhealthy | VeryUnhealthy | Hazardous

  /** The label the dashboard shows for a band. */
  function Name(c: Category): string
  {
    match c
    case Good => "Good"
    case Moderate => "Moderate"
    case UnhealthyForSensitiveGroups => "Unhealthy for Sensitive Groups"
    case Unhealthy => "Unhealthy"
    case VeryUnhealthy => "Very Unhealthy"
    case Hazardous => "Hazardous"
  }

  /** The canonical order of the bars. */
  const Order: seq<Category> := [Good, Moderate, UnhealthyForSensitiveGroups, Unhealthy, VeryUnhealthy, Hazardous]

  /** The position of a band in the canonical order. */
  function Rank(c: Category): (k: nat)
    ensures k < |Order| && Order[k] == c
  {
    match c
    case Good => 0
    case Moderate => 1
    case UnhealthyForSensitiveGroups => 2
    case Unhealthy => 3
    case VeryUnhealthy => 4
    case Hazardous => 5
  }

  /** The inclusive upper bounds of the first five bands, in micrograms per cubic metre. */
  const Thresholds: seq<real> := [35.0, 75.0, 115.0, 150.0, 250.0]

  /** The band of one reading. An absent reading (NaN) fails every comparison
      and so falls through to Hazardous. */
  function Categorize(pm: Option<real>): Category
  {
    match pm
    case None => Hazardous
    case Some(x) =>
      if x <= 35.0 then Good
      else if x <= 75.0 then Moderate
      else if x <= 115.0 then UnhealthyForSensitiveGroups
      else if x <= 150.0 then Unhealthy
      else if x <= 250.0 then VeryUnhealthy
      else Hazardous
  }

  /** Each band is the interval between the bound below it (exclusive) and its
      own bound (inclusive); a reading of exactly 35 is Good and one of exactly
      75 is Moderate. */
  lemma CategorizeBands(x: real)
    ensures Categorize(Some(x)) == Good <==> x <= 35.0
    ensures Categorize(Some(x)) == Moderate <==> 35.0 < x <= 75.0
    ensures Categorize(Some(x)) == UnhealthyForSensitiveGroups <==> 75.0 < x <= 115.0
    ensures Categorize(Some(x)) == Unhealthy <==> 115.0 < x <= 150.0
    ensures Categorize(Some(x)) == VeryUnhealthy <==> 150.0 < x <= 250.0
    ensures Categorize(Some(x)) == Hazardous <==> 250.0 < x
  {
  }

  /** The number of bounds a reading exceeds. */
  function Exceeded(x: real, bounds: seq<real>): (n: nat)
    ensures n <= |bounds|
  {
    if bounds == [] then 0
    else (if bounds[0] < x then 1 else 0) + Exceeded(x, bounds[1..])
  }

  /** Exceeding is monotone: a larger reading exceeds at least as many bounds. */
  lemma {:induction false} ExceededMonotone(p: real, q: real, bounds: seq<real>)
    requires p <= q
    ensures Exceeded(p, bounds) <= Exceeded(q, bounds)
  {
    if bounds != [] {
      ExceededMonotone(p, q, bounds[1..]);
    }
  }

  /** A present reading's band is the one whose position is the number of
      bounds the reading exceeds. */
  lemma CategorizeByThresholds(x: real)
    ensures Rank(Categorize(Some(x))) == Exceeded(x, Thresholds)
  {
    var t5: seq<real> := [250.0];
    var t4, t3, t2 := [150.0] + t5, [115.0] + [150.0] + t5, [75.0] + [115.0] + [150.0] + t5;
    assert t5[1..] == [] && t4[1..] == t5 && t3[1..] == t4 && t2[1..] == t3 && Thresholds[1..] == t2;
    assert Exceeded(x, t5) == if 250.0 < x then 1 else 0;
    assert Exceeded(x, t4) == (if 150.0 < x then 1 else 0) + Exceeded(x, t5);
    assert Exceeded(x, t3) == (if 115.0 < x then 1 else 0) + Exceeded(x, t4);
    assert Exceeded(x, t2) == (if 75.0 < x then 1 else 0) + Exceeded(x, t3);
    assert Exceeded(x, Thresholds) == (if 35.0 < x then 1 else 0) + Exceeded(x, t2);
  }

  /** The classifier is monotone: a higher reading never gets a cleaner band,
      and an absent reading gets the last band. */
  lemma CategorizeMonotone(p: real, q: real)
    requires p <= q
    ensures Rank(Categorize(Some(p))) <= Rank(Categorize(Some(q)))
  {
    CategorizeByThresholds(p);
    CategorizeByThresholds(q);
    ExceededMonotone(p, q, Thresholds);
  }

  /** The absent reading is ranked last of all. */
  lemma AbsentLast(pm: Option<real>)
    ensures Rank(Categorize(pm)) <= Rank(Categorize(None))
  {
  }

  /** The number of rows whose reading falls in band c. */
  function Count(rows: seq<Row>, c: Category): (n: nat)
    ensures n <= |rows|
  {
    if rows == [] then 0
    else (if Categorize(rows[0].pm) == c then 1 else 0) + Count(rows[1..], c)
  }

  /** The category column's value counts: each band that occurs, with its number of rows. */
  function Tally(rows: seq<Row>): map<Category, nat>
  {
    if rows == [] then map[]
    else
      var counts := Tally(rows[1..]);
      var c := Categorize(rows[0].pm);
      counts[c := (if c in counts then counts[c] else 0) + 1]
  }

  /** The value counts list exactly the bands that occur, each with its number of rows. */
  lemma {:induction false} TallyCounts(rows: seq<Row>)
    ensures forall c :: c in Tally(rows) <==> Count(rows, c) > 0
    ensures forall c :: c in Tally(rows) ==> Tally(rows)[c] == Count(rows, c)
  {
    if rows != [] {
      TallyCounts(rows[1..]);
    }
  }

  /** Every count reported is positive. */
  lemma TallyPositive(rows: seq<Row>)
    ensures forall c :: c in Tally(rows) ==> Tally(rows)[c] > 0
  {
    TallyCounts(rows);
  }

  /** A row without a reading is not dropped: it is counted as Hazardous. */
  lemma AbsentCountedHazardous(rows: seq<Row>, i: int)
    requires 0 <= i < |rows| && rows[i].pm.None?
    ensures Hazardous in Tally(rows)
  {
    TallyCounts(rows);
    CountPositive(rows, Hazardous, i);
  }

  /** A band that some row falls in has a positive count. */
  lemma {:induction false} CountPositive(rows: seq<Row>, c: Category, i: int)
    requires 0 <= i < |rows| && Categorize(rows[i].pm) == c
    ensures Count(rows, c) > 0
  {
    if i > 0 {
      CountPositive(rows[1..], c, i - 1);
    }
  }

  /** The bands of cs that have a count, in the order of cs. */
  function Keep(cs: seq<Category>, counts: map<Category, nat>): (out: seq<Category>)
    ensures |out| <= |cs|
  {
    if cs == [] then []
    else (if cs[0] in counts then [cs[0]] else []) + Keep(cs[1..], counts)
  }

  /** The order of the bars: the canonical order restricted to the bands that occur. */
  function ExistingOrder(counts: map<Category, nat>): seq<Category>
  {
    Keep(Order, counts)
  }

  /** The kept bands are exactly the bands of cs that have a count. */
  lemma {:induction false} KeepMembers(cs: seq<Category>, counts: map<Category, nat>)
    ensures forall c :: c in Keep(cs, counts) <==> c in cs && c in counts
  {
    if cs != [] {
      KeepMembers(cs[1..], counts);
    }
  }

  /** Keeping some bands of a list in increasing canonical order leaves a list in increasing canonical order. */
  lemma {:induction false} KeepIncreasing(cs: seq<Category>, counts: map<Category, nat>)
    requires forall i, j :: 0 <= i < j < |cs| ==> Rank(cs[i]) < Rank(cs[j])
    ensures forall i, j :: 0 <= i < j < |Keep(cs, counts)| ==> Rank(Keep(cs, counts)[i]) < Rank(Keep(cs, counts)[j])
  {
    if cs != [] {
      var rest := Keep(cs[1..], counts);
      KeepIncreasing(cs[1..], counts);
      KeepMembers(cs[1..], counts);
      if cs[0] in counts {
        var out := [cs[0]] + rest;
        forall i, j | 0 <= i < j < |out|
          ensures Rank(out[i]) < Rank(out[j])
        {
          assert out[j] == rest[j - 1];
          if i == 0 {
            assert rest[j - 1] in cs[1..];
            var k :| 0 <= k < |cs[1..]| && cs[1..][k] == rest[j - 1];
            assert cs[k + 1] == rest[j - 1];
          } else {
            assert out[i] == rest[i - 1];
          }
        }
      }
    }
  }

  /** The bar order is a subsequence of the canonical order (ranks strictly
      increase along it) holding exactly the bands that have a count. */
  lemma ExistingOrderSubsequence(counts: map<Category, nat>)
    ensures forall i, j :: 0 <= i < j < |ExistingOrder(counts)| ==>
      Rank(ExistingOrder(counts)[i]) < Rank(ExistingOrder(counts)[j])
    ensures forall c :: c in ExistingOrder(counts) <==> c in counts
  {
    KeepIncreasing(Order, counts);
    KeepMembers(Order, counts);
    forall c
      ensures c in Order
    {
      assert Order[Rank(c)] == c;
    }
  }

  /** The total of the counts listed for the bands of cs. */
  function Total(cs: seq<Category>, counts: map<Category, nat>): nat
  {
    if cs == [] then 0
    else (if cs[0] in counts then counts[cs[0]] else 0) + Total(cs[1..], counts)
  }

  /** Dropping the bands without a count does not change the total. */
  lemma {:induction false} TotalKeep(cs: seq<Category>, counts: map<Category, nat>)
    ensures Total(Keep(cs, counts), counts) == Total(cs, counts)
  {
    if cs != [] {
      TotalKeep(cs[1..], counts);
      if cs[0] in counts {
        assert ([cs[0]] + Keep(cs[1..], counts))[1..] == Keep(cs[1..], counts);
      } else {
        assert [] + Keep(cs[1..], counts) == Keep(cs[1..], counts);
      }
    }
  }

  /** The total of the rows counted in the bands of cs. */
  function CountAll(rows: seq<Row>, cs: seq<Category>): nat
  {
    if cs == [] then 0 else Count(rows, cs[0]) + CountAll(rows, cs[1..])
  }

  /** Totalling the value counts over cs adds up the rows of the bands of cs. */
  lemma {:induction false} TotalOfTally(rows: seq<Row>, cs: seq<Category>)
    ensures Total(cs, Tally(rows)) == CountAll(rows, cs)
  {
    TallyCounts(rows);
    if cs != [] {
      TotalOfTally(rows, cs[1..]);
    }
  }

  /** Removing the first row takes one from the bands of cs exactly when its band is in cs. */
  lemma {:induction false} CountAllStep(rows: seq<Row>, cs: seq<Category>)
    requires rows != []
    requires forall i, j :: 0 <= i < j < |cs| ==> cs[i] != cs[j]
    ensures CountAll(rows, cs) == (if Categorize(rows[0].pm) in cs then 1 else 0) + CountAll(rows[1..], cs)
  {
    if cs != [] {
      CountAllStep(rows, cs[1..]);
      if cs[0] == Categorize(rows[0].pm) {
        assert Categorize(rows[0].pm) !in cs[1..];
      }
    }
  }

  /** Each band appears once in the canonical order, at its own position. */
  lemma OrderPositions()
    ensures forall k :: 0 <= k < |Order| ==> Rank(Order[k]) == k
    ensures forall i, j :: 0 <= i < j < |Order| ==> Order[i] != Order[j]
  {
    forall k | 0 <= k < |Order|
      ensures Rank(Order[k]) == k
    {
      if k == 0 {} else if k == 1 {} else if k == 2 {} else if k == 3 {} else if k == 4 {} else {}
    }
  }

  /** An empty table has no rows in any band. */
  lemma {:induction false} CountAllEmpty(rows: seq<Row>, cs: seq<Category>)
    requires rows == []
    ensures CountAll(rows, cs) == 0
  {
    if cs != [] {
      CountAllEmpty(rows, cs[1..]);
    }
  }

  /** Every row falls in exactly one of the six bands. */
  lemma {:induction false} CountOrder(rows: seq<Row>)
    ensures CountAll(rows, Order) == |rows|
  {
    if rows == [] {
      CountAllEmpty(rows, Order);
    } else {
      CountOrder(rows[1..]);
      OrderPositions();
      CountAllStep(rows, Order);
      assert Order[Rank(Categorize(rows[0].pm))] == Categorize(rows[0].pm);
      assert Categorize(rows[0].pm) in Order;
    }
  }

  /** The counts shown in the bars add up to the number of rows: nothing is
      dropped, not even the rows without a reading. */
  lemma CountsSum(rows: seq<Row>)
    ensures Total(ExistingOrder(Tally(rows)), Tally(rows)) == |rows|
  {
    TotalKeep(Order, Tally(rows));
    TotalOfTally(rows, Order);
    CountOrder(rows);
  }
}
