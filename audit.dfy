/** The pipeline as the source runs it: one DataFrame object whose columns the stages
    assign in place, one statement at a time. Every method is proved to leave the object
    in the state the corresponding function of the value model computes. */
module Audit {
  import opened Wrappers
  import opened Frames
  import Ingestion
  import Deprivation
  import Derivations
  import Compliance
  import Pipeline

  class DataFrame {
    var columns: seq<string>
    var rows: seq<Row>

    /** The table the object holds, as a value. */
    function Snapshot(): Frame
      reads this
    {
      Frame(columns, rows)
    }

    constructor (f: Frame)
      ensures Snapshot() == f
    {
      columns := f.columns;
      rows := f.rows;
    }

    /** df[name] = vals: overwrites the column if it exists, otherwise appends it. */
    method SetColumn(name: string, vals: seq<Value>)
      requires |vals| == |rows|
      modifies this
      ensures Snapshot() == Assign(old(Snapshot()), name, vals)
    {
      var i := 0;
      while i < |rows|
        invariant 0 <= i <= |rows| == |vals| == |old(rows)| && columns == old(columns)
        invariant forall k :: 0 <= k < i ==> rows[k] == old(rows)[k][name := vals[k]]
        invariant forall k :: i <= k < |rows| ==> rows[k] == old(rows)[k]
      {
        rows := rows[i := rows[i][name := vals[i]]];
        i := i + 1;
      }
      if name !in columns {
        columns := columns + [name];
      }
      assert columns == Assign(old(Snapshot()), name, vals).columns;
      assert rows == Assign(old(Snapshot()), name, vals).rows;
    }

    /** df.drop(columns=names, errors='ignore'), rebound to df. */
    method DropColumns(names: set<string>)
      modifies this
      ensures Snapshot() == Drop(old(Snapshot()), names)
    {
      var i := 0;
      while i < |rows|
        invariant 0 <= i <= |rows| == |old(rows)| && columns == old(columns)
        invariant forall k :: 0 <= k < i ==> rows[k] == old(rows)[k] - names
        invariant forall k :: i <= k < |rows| ==> rows[k] == old(rows)[k]
      {
        rows := rows[i := rows[i] - names];
        i := i + 1;
      }
      columns := Without(columns, names);
      assert columns == Drop(old(Snapshot()), names).columns;
      assert rows == Drop(old(Snapshot()), names).rows;
    }
  }

  /** What a stage that can raise reports: nothing, or the error it raised. */
  function Outcome(r: Result<Frame, Error>): Option<Error> {
    if r.Ok? then None else Some(r.error)
  }

  /** create_join_keys(df). */
  method CreateJoinKeys(df: DataFrame) returns (err: Option<Error>)
    modifies df
    ensures err == Outcome(Deprivation.CreateJoinKeys(old(df.Snapshot())))
    ensures err.None? ==> df.Snapshot() == Deprivation.CreateJoinKeys(old(df.Snapshot())).value
    ensures err.Some? ==> df.Snapshot() == old(df.Snapshot())
  {
    if "Postcode" !in df.columns {
      return Some(MissingColumn("Postcode"));
    }
    df.SetColumn("Join_Key", Deprivation.KeyColumn(df.Snapshot()));
    return None;
  }

  /** merge_with_imd_data(df, imd_df). With a reference table the merge builds a new object
      and df itself is left alone; without one the quintile is assigned on df, which is returned. */
  method MergeWithImdData(df: DataFrame, imd: Option<seq<Deprivation.ImdEntry>>) returns (out: DataFrame, err: Option<Error>)
    requires WellFormed(df.Snapshot())
    modifies df
    ensures err == Outcome(Deprivation.MergeWithImdData(old(df.Snapshot()), imd))
    ensures err.None? ==> out.Snapshot() == Deprivation.MergeWithImdData(old(df.Snapshot()), imd).value
    ensures imd.Some? && imd.value != [] ==> df.Snapshot() == old(df.Snapshot())
    ensures imd.Some? && imd.value != [] && err.None? ==> fresh(out)
    ensures (imd.None? || imd.value == []) ==> out == df
  {
    if imd.Some? && |imd.value| > 0 {
      var f := df.Snapshot();
      if "Join_Key" !in df.columns {
        return df, Some(MissingColumn("Join_Key"));
      }
      if "IMD_Decile" in df.columns {
        return df, Some(MissingColumn("IMD_Decile"));
      }
      out := new DataFrame(Deprivation.Joined(f, imd.value));
      out.SetColumn("IMD_Quintile", Deprivation.QuintileColumn(out.Snapshot()));
      out.DropColumns(Deprivation.ScaffoldColumns);
      err := None;
    } else {
      df.SetColumn("IMD_Quintile", Filled(df.Snapshot(), Text("Unknown")));
      out, err := df, None;
    }
  }

  /** convert_date_columns(df, date_cols): the loop over the names. */
  method ConvertDateColumns(df: DataFrame, cols: seq<string>)
    modifies df
    ensures df.Snapshot() == Derivations.ConvertDateColumns(old(df.Snapshot()), cols)
  {
    for i := 0 to |cols|
      invariant df.Snapshot() == Derivations.ConvertDateColumns(old(df.Snapshot()), cols[..i])
    {
      assert cols[..i + 1][..i] == cols[..i];
      if cols[i] in df.columns {
        df.SetColumn(cols[i], Derivations.ParsedColumn(df.Snapshot(), cols[i]));
      }
    }
    assert cols[..|cols|] == cols;
  }

  /** df['Report_Month'] = df['Arrival DTTM'].dt.to_period('M').astype(str). */
  method AddReportMonth(df: DataFrame) returns (err: Option<Error>)
    modifies df
    ensures err == Outcome(Derivations.AddReportMonth(old(df.Snapshot())))
    ensures err.None? ==> df.Snapshot() == Derivations.AddReportMonth(old(df.Snapshot())).value
    ensures err.Some? ==> df.Snapshot() == old(df.Snapshot())
  {
    if "Arrival DTTM" !in df.columns {
      return Some(MissingColumn("Arrival DTTM"));
    }
    df.SetColumn("Report_Month", Derivations.MonthColumn(df.Snapshot()));
    return None;
  }

  /** One interval assignment, df[iv.name] = (df[iv.later] - df[iv.earlier]) in minutes. */
  method AddInterval(df: DataFrame, iv: Derivations.Interval)
    modifies df
    ensures df.Snapshot() == Assign(old(df.Snapshot()), iv.name, Derivations.IntervalColumn(old(df.Snapshot()), iv))
  {
    df.SetColumn(iv.name, Derivations.IntervalColumn(df.Snapshot(), iv));
  }

  /** calculate_time_intervals(df): the six assignments one after another, or nothing at all
      when an event column is missing. */
  method CalculateTimeIntervals(df: DataFrame)
    modifies df
    ensures df.Snapshot() == Derivations.CalculateTimeIntervals(old(df.Snapshot()))
  {
    if MissingColumns(Derivations.DateCols, df.columns) != [] {
      return;
    }
    ghost var f := df.Snapshot();
    var ivs := Derivations.Intervals;
    Derivations.IntervalsIndependent();
    // the six assignments, in the source's order
    for k := 0 to |ivs|
      invariant Derivations.IndependentIntervals(ivs[..k])
      invariant df.Snapshot() == Derivations.AddIntervals(f, ivs[..k])
    {
      IntervalsSoFar(f, ivs, k);
      AddInterval(df, ivs[k]);
    }
    assert ivs[..|ivs|] == ivs;
  }

  /** Adding the next interval to the first n extends the prefix by one. */
  lemma IntervalsSoFar(f: Frame, ivs: seq<Derivations.Interval>, n: nat)
    requires Derivations.IndependentIntervals(ivs) && n < |ivs|
    ensures Derivations.IndependentIntervals(ivs[..n]) && Derivations.IndependentIntervals(ivs[..n + 1])
    ensures var h := Derivations.AddIntervals(f, ivs[..n]);
      Derivations.AddIntervals(f, ivs[..n + 1]) == Assign(h, ivs[n].name, Derivations.IntervalColumn(h, ivs[n]))
  {
    var p := ivs[..n + 1];
    assert p[..n] == ivs[..n];
    Derivations.IntervalsPrefix(p);
    assert Derivations.IndependentIntervals(ivs[..n]) by {
      Derivations.IntervalsPrefix(ivs[..n + 1]);
    }
  }

  /** calculate_pain_scores(df). A missing second label column raises after the first score
      column has been written. */
  method CalculatePainScores(df: DataFrame) returns (err: Option<Error>)
    modifies df
    ensures err == Outcome(Derivations.CalculatePainScores(old(df.Snapshot())))
    ensures err.None? ==> df.Snapshot() == Derivations.CalculatePainScores(old(df.Snapshot())).value
    ensures "First Pain Score" !in old(df.Snapshot()).columns ==> df.Snapshot() == old(df.Snapshot())
    ensures "First Pain Score" in old(df.Snapshot()).columns && "Second Pain Score" !in old(df.Snapshot()).columns ==>
      df.Snapshot() == Assign(old(df.Snapshot()), "First_Score_Num", Derivations.ScoreColumn(old(df.Snapshot()), "First Pain Score"))
  {
    if "First Pain Score" !in df.columns {
      return Some(MissingColumn("First Pain Score"));
    }
    df.SetColumn("First_Score_Num", Derivations.ScoreColumn(df.Snapshot(), "First Pain Score"));
    if "Second Pain Score" !in df.columns {
      return Some(MissingColumn("Second Pain Score"));
    }
    df.SetColumn("Second_Score_Num", Derivations.ScoreColumn(df.Snapshot(), "Second Pain Score"));
    df.SetColumn("Pain_Score_Improvement", Derivations.DifferenceColumn(df.Snapshot(), "Second_Score_Num", "First_Score_Num"));
    return None;
  }

  /** create_age_groups(df): Age made numeric in place, then Age_Group from it. */
  method CreateAgeGroups(df: DataFrame) returns (err: Option<Error>)
    modifies df
    ensures err == Outcome(Derivations.CreateAgeGroups(old(df.Snapshot())))
    ensures err.None? ==> df.Snapshot() == Derivations.CreateAgeGroups(old(df.Snapshot())).value
    ensures err.Some? ==> df.Snapshot() == old(df.Snapshot())
  {
    if "Age" !in df.columns {
      return Some(MissingColumn("Age"));
    }
    df.SetColumn("Age", Derivations.NumericColumn(df.Snapshot(), "Age"));
    df.SetColumn("Age_Group", Derivations.AgeGroupColumn(df.Snapshot()));
    return None;
  }

  /** calculate_best_practice(df): Best_Practice written on df, and the funnel computed from it. */
  method CalculateBestPractice(df: DataFrame) returns (r: Result<Compliance.Funnel, Error>)
    modifies df
    ensures var expected := Compliance.CalculateBestPractice(old(df.Snapshot()));
      && (r.Ok? <==> expected.Ok?)
      && (r.Ok? ==> df.Snapshot() == expected.value.0 && r.value == expected.value.1)
      && (r.Err? ==> r.error == expected.error && df.Snapshot() == old(df.Snapshot()))
  {
    var missing := MissingColumns(Compliance.VerdictInputs, df.columns);
    if missing != [] {
      return Err(MissingColumn(missing[0]));
    }
    df.SetColumn("Best_Practice", Compliance.VerdictColumn(df.Snapshot()));
    return Ok(Compliance.FunnelOf(df.rows));
  }

  /** Steps 1 to 4 of process_monthly_data: a new object holding the prepared table. */
  method Prepare(sheet: Option<Ingestion.Sheet>, imd: Option<seq<Deprivation.ImdEntry>>) returns (r: Option<DataFrame>)
    requires sheet.Some? ==> Ingestion.Rectangular(sheet.value)
    ensures r.None? <==> Pipeline.Prepare(sheet, imd).Err?
    ensures r.Some? ==> fresh(r.value) && r.value.Snapshot() == Pipeline.Prepare(sheet, imd).value
  {
    if sheet.None? {
      return None;
    }
    var loaded := Ingestion.LoadAndCleanPainData(sheet.value);
    if loaded.Err? {
      return None;
    }
    var df := new DataFrame(loaded.value);
    var err := CreateJoinKeys(df);
    if err.Some? {
      return None;
    }
    ghost var keyed := df.Snapshot();
    df, err := MergeWithImdData(df, imd);
    if err.Some? {
      return None;
    }
    ghost var merged := df.Snapshot();
    assert merged == Deprivation.MergeWithImdData(keyed, imd).value;
    ConvertDateColumns(df, Derivations.DateCols);
    return Some(df);
  }

  /** Step 5 of process_monthly_data, run on the object when it has an arrival column. */
  method Derive(df: DataFrame) returns (r: Result<Compliance.Funnel, Error>)
    requires WellFormed(df.Snapshot())
    modifies df
    ensures var expected := Pipeline.Derive(old(df.Snapshot()));
      && (r.Ok? <==> expected.Ok?)
      && (r.Ok? ==> df.Snapshot() == expected.value.0 && r.value == expected.value.1)
  {
    var err := AddReportMonth(df);
    if err.Some? {
      return Err(err.value);
    }
    CalculateTimeIntervals(df);
    err := CalculatePainScores(df);
    if err.Some? {
      return Err(err.value);
    }
    err := CreateAgeGroups(df);
    if err.Some? {
      return Err(err.value);
    }
    r := CalculateBestPractice(df);
  }

  /** process_monthly_data(pain_data_file, imd_df): the stages on one object, None on any error. */
  method ProcessMonthlyData(sheet: Option<Ingestion.Sheet>, imd: Option<seq<Deprivation.ImdEntry>>) returns (r: Option<Pipeline.Output>)
    requires sheet.Some? ==> Ingestion.Rectangular(sheet.value)
    ensures r == Pipeline.ProcessMonthlyData(sheet, imd)
  {
    var prepared := Prepare(sheet, imd);
    if prepared.None? {
      return None;
    }
    var df := prepared.value;
    if "Arrival DTTM" !in df.columns {
      return Some(Pipeline.Bare(df.Snapshot()));
    }
    var funnel := Derive(df);
    if funnel.Err? {
      return None;
    }
    return Some(Pipeline.WithFunnel(df.Snapshot(), funnel.value));
  }
}
