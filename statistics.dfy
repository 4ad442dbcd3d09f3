/** calculate_stats: choosing and reporting a rank test across the groups of one
    column. The tests themselves (scipy) are parameters of the model. */
module Statistics {
  import opened Wrappers
  import opened Frames

  /** .dropna().unique(): the distinct present values in order of first appearance. */
  function Groups(col: seq<Value>): (gs: seq<Value>)
    ensures Distinct(gs)
    ensures forall v :: v in gs <==> v in col && !v.Null?
    decreases |col|
  {
    if col == [] then []
    else
      var init := Groups(col[..|col| - 1]);
      var last := col[|col| - 1];
      assert forall v :: v in col <==> v in col[..|col| - 1] || v == last by {
        assert col == col[..|col| - 1] + [last];
      }
      if last.Null? || last in init then init else init + [last]
  }

  /** A sequence without repeats is as long as the set of its elements. */
  lemma {:induction false} DistinctCardinality(s: seq<Value>)
    requires Distinct(s)
    ensures |set v | v in s| == |s|
  {
    if s != [] {
      var init := s[..|s| - 1];
      assert Distinct(init);
      DistinctCardinality(init);
      assert (set v | v in s) == (set v | v in init) + {s[|s| - 1]} by {
        assert s == init + [s[|s| - 1]];
      }
      assert s[|s| - 1] !in init;
    }
  }

  /** The number of groups is the number of distinct present values in the column. */
  lemma GroupCount(col: seq<Value>)
    ensures |Groups(col)| == |set v | v in col && !v.Null?|
  {
    var gs := Groups(col);
    DistinctCardinality(gs);
    assert (set v | v in gs) == (set v | v in col && !v.Null?);
  }

  /** A row feeds group g: its group cell is g and its target cell is present. */
  predicate Selected(r: Row, groupCol: string, targetCol: string, g: Value) {
    Get(r, groupCol) == g && !Get(r, targetCol).Null?
  }

  /** The positions of the rows that feed group g, in row order. */
  function GroupRows(rows: seq<Row>, groupCol: string, targetCol: string, g: Value): (ks: seq<nat>)
    ensures forall a, b :: 0 <= a < b < |ks| ==> ks[a] < ks[b]
    ensures forall k :: 0 <= k < |ks| ==> ks[k] < |rows| && Selected(rows[ks[k]], groupCol, targetCol, g)
  {
    if rows == [] then []
    else
      var init := rows[..|rows| - 1];
      var ks := GroupRows(init, groupCol, targetCol, g);
      assert forall k :: 0 <= k < |ks| ==> rows[ks[k]] == init[ks[k]];
      if Selected(rows[|rows| - 1], groupCol, targetCol, g) then ks + [|rows| - 1] else ks
  }

  /** Every row that feeds group g is listed. */
  lemma {:induction false} GroupRowsMember(rows: seq<Row>, groupCol: string, targetCol: string, g: Value, i: nat)
    requires i < |rows|
    ensures i in GroupRows(rows, groupCol, targetCol, g) <==> Selected(rows[i], groupCol, targetCol, g)
  {
    var init := rows[..|rows| - 1];
    var ks := GroupRows(init, groupCol, targetCol, g);
    if i < |rows| - 1 {
      GroupRowsMember(init, groupCol, targetCol, g, i);
      assert init[i] == rows[i];
    } else {
      assert forall k :: 0 <= k < |ks| ==> ks[k] < i;
    }
  }

  /** df[df[group_col] == g][target_col].dropna(): the target values of the rows that feed
      group g, one per such row and in row order. */
  function GroupData(rows: seq<Row>, groupCol: string, targetCol: string, g: Value): (data: seq<Value>)
    ensures |data| == |GroupRows(rows, groupCol, targetCol, g)|
    ensures forall k :: 0 <= k < |data| ==> data[k] == Get(rows[GroupRows(rows, groupCol, targetCol, g)[k]], targetCol)
  {
    if rows == [] then []
    else
      var init := rows[..|rows| - 1];
      var last := rows[|rows| - 1];
      var ks := GroupRows(init, groupCol, targetCol, g);
      assert forall k :: 0 <= k < |ks| ==> rows[ks[k]] == init[ks[k]];
      GroupData(init, groupCol, targetCol, g) + (if Selected(last, groupCol, targetCol, g) then [Get(last, targetCol)] else [])
  }

  /** The values of group g are the present target values of its rows, and nothing else. */
  lemma GroupDataValues(rows: seq<Row>, groupCol: string, targetCol: string, g: Value)
    ensures forall v :: v in GroupData(rows, groupCol, targetCol, g) ==> !v.Null?
    ensures forall v :: v in GroupData(rows, groupCol, targetCol, g) <==>
      (exists i :: 0 <= i < |rows| && Get(rows[i], groupCol) == g && Get(rows[i], targetCol) == v && !v.Null?)
  {
    var data := GroupData(rows, groupCol, targetCol, g);
    var ks := GroupRows(rows, groupCol, targetCol, g);
    forall v | exists i :: 0 <= i < |rows| && Get(rows[i], groupCol) == g && Get(rows[i], targetCol) == v && !v.Null?
      ensures v in data
    {
      var i :| 0 <= i < |rows| && Get(rows[i], groupCol) == g && Get(rows[i], targetCol) == v && !v.Null?;
      GroupRowsMember(rows, groupCol, targetCol, g, i);
      var k :| 0 <= k < |ks| && ks[k] == i;
      assert data[k] == v;
    }
    forall v | v in data
      ensures exists i :: 0 <= i < |rows| && Get(rows[i], groupCol) == g && Get(rows[i], targetCol) == v && !v.Null?
    {
      var k :| 0 <= k < |data| && data[k] == v;
      assert Selected(rows[ks[k]], groupCol, targetCol, g);
    }
  }

  /** What calculate_stats returns: no test (with a reason), or a test with its p-value. */
  datatype StatsResult =
    | NoTest(msg: string)
    | WithPValue(test: string, pValue: real, significant: bool, message: string)

  const InsufficientGroups := "Insufficient groups"
  const CalculationError := "Error calculating stats"

  const SignificanceLevel: real := 0.05

  function Report(test: string, p: real): (r: StatsResult)
    ensures r.WithPValue? && r.test == test && r.pValue == p
    ensures r.significant <==> p < SignificanceLevel
    ensures r.message == if p < SignificanceLevel then "Statistically Significant Difference" else "No Significant Difference"
  {
    var sig := p < SignificanceLevel;
    WithPValue(test, p, sig, if sig then "Statistically Significant Difference" else "No Significant Difference")
  }

  /** calculate_stats. mannWhitney and kruskal stand for scipy's tests and give None when the
      test raises (too few observations, a non-numeric value, ...). */
  function CalculateStats(f: Frame, groupCol: string, targetCol: string,
                          mannWhitney: (seq<Value>, seq<Value>) -> Option<real>,
                          kruskal: seq<seq<Value>> -> Option<real>): (r: StatsResult)
    // a missing grouping column raises a KeyError, reported as an error
    ensures groupCol !in f.columns ==> r == NoTest(CalculationError)
    ensures groupCol in f.columns ==>
      var groups := Groups(Column(f, groupCol));
      && (|groups| > 0 && targetCol !in f.columns ==> r == NoTest(CalculationError))
      && (|groups| < 2 && (|groups| == 0 || targetCol in f.columns) ==> r == NoTest(InsufficientGroups))
      && (|groups| >= 2 && targetCol in f.columns ==>
            var data := seq(|groups|, k requires 0 <= k < |groups| => GroupData(f.rows, groupCol, targetCol, groups[k]));
            var p := if |groups| == 2 then mannWhitney(data[0], data[1]) else kruskal(data);
            && (p.None? ==> r == NoTest(CalculationError))
            && (p.Some? ==> r == Report(if |groups| == 2 then "Mann-Whitney U" else "Kruskal-Wallis", p.value)))
  {
    if groupCol !in f.columns then NoTest(CalculationError)
    else
      var groups := Groups(Column(f, groupCol));
      // the group data are gathered before the number of groups is looked at
      if |groups| > 0 && targetCol !in f.columns then NoTest(CalculationError)
      else
        var data := seq(|groups|, k requires 0 <= k < |groups| => GroupData(f.rows, groupCol, targetCol, groups[k]));
        if |groups| < 2 then NoTest(InsufficientGroups)
        else
          var p := if |groups| == 2 then mannWhitney(data[0], data[1]) else kruskal(data);
          match p
          case None => NoTest(CalculationError)
          case Some(pv) => Report(if |groups| == 2 then "Mann-Whitney U" else "Kruskal-Wallis", pv)
  }

  /** The test chosen depends only on the number of distinct present group values. */
  lemma TestChoice(f: Frame, groupCol: string, targetCol: string,
                   mannWhitney: (seq<Value>, seq<Value>) -> Option<real>,
                   kruskal: seq<seq<Value>> -> Option<real>)
    requires groupCol in f.columns && targetCol in f.columns
    ensures var n := |set v | v in Column(f, groupCol) && !v.Null?|;
      var r := CalculateStats(f, groupCol, targetCol, mannWhitney, kruskal);
      && (n < 2 ==> r == NoTest(InsufficientGroups))
      && (n == 2 && r.WithPValue? ==> r.test == "Mann-Whitney U")
      && (n > 2 && r.WithPValue? ==> r.test == "Kruskal-Wallis")
  {
    GroupCount(Column(f, groupCol));
  }

  /** A column whose present values are all equal never reaches a test. */
  lemma SingleGroupIsInsufficient(f: Frame, groupCol: string, targetCol: string, g: Value,
                                  mannWhitney: (seq<Value>, seq<Value>) -> Option<real>,
                                  kruskal: seq<seq<Value>> -> Option<real>)
    requires groupCol in f.columns && targetCol in f.columns
    requires forall i :: 0 <= i < |f.rows| ==> Get(f.rows[i], groupCol) in {g, Null}
    ensures CalculateStats(f, groupCol, targetCol, mannWhitney, kruskal) == NoTest(InsufficientGroups)
  {
    var col := Column(f, groupCol);
    var present := set v | v in col && !v.Null?;
    assert present == {} || present == {g} by {
      assert forall v :: v in present ==> v == g;
    }
    GroupCount(col);
  }
}
