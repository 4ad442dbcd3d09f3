/** process_monthly_data (the second definition, which is the one in effect): the stages
    in order, with every raised error collapsed into a missing result. */
module Pipeline {
  import opened Wrappers
  import opened Frames
  import opened Ingestion
  import opened Deprivation
  import opened Derivations
  import opened Compliance

  /** What a successful run returns: the bare table when there is no arrival column,
      otherwise the pair built by calculate_best_practice. */
  datatype Output = Bare(frame: Frame) | WithFunnel(frame: Frame, funnel: Funnel)

  /** Steps 1 to 4: load and clean, join keys, deprivation, date conversion. */
  function Prepare(sheet: Option<Sheet>, imd: Option<seq<ImdEntry>>): (r: Result<Frame, Error>)
    requires sheet.Some? ==> Rectangular(sheet.value)
    ensures r.Ok? ==> WellFormed(r.value)
  {
    if sheet.None? then Err(ReadFailure)
    else
      var loaded :- LoadAndCleanPainData(sheet.value);
      var keyed :- CreateJoinKeys(loaded);
      var merged :- MergeWithImdData(keyed, imd);
      Ok(ConvertDateColumns(merged, DateCols))
  }

  /** Step 5, run when the arrival column is present. */
  function Derive(f: Frame): (r: Result<(Frame, Funnel), Error>)
    requires WellFormed(f)
  {
    var withMonth :- AddReportMonth(f);
    var withIntervals := CalculateTimeIntervals(withMonth);
    var withScores :- CalculatePainScores(withIntervals);
    var withAges :- CreateAgeGroups(withScores);
    CalculateBestPractice(withAges)
  }

  function Run(sheet: Option<Sheet>, imd: Option<seq<ImdEntry>>): Result<Output, Error>
    requires sheet.Some? ==> Rectangular(sheet.value)
  {
    var f :- Prepare(sheet, imd);
    if "Arrival DTTM" in f.columns then
      var (g, funnel) :- Derive(f);
      Ok(WithFunnel(g, funnel))
    else Ok(Bare(f))
  }

  /** process_monthly_data: None when any stage raises. Whatever it returns carries no patient
      names; its shape is decided by the arrival column of the export; a funnel it returns is
      the funnel of the table beside it, conserving the patients. */
  function ProcessMonthlyData(sheet: Option<Sheet>, imd: Option<seq<ImdEntry>>): (r: Option<Output>)
    requires sheet.Some? ==> Rectangular(sheet.value)
    ensures sheet.None? ==> r.None?
    ensures r.Some? ==> "Surname" !in r.value.frame.columns && "Forename" !in r.value.frame.columns
    ensures r.Some? ==> sheet.Some? && (r.value.Bare? <==> "Arrival DTTM" !in CleanHeader(sheet.value).header)
    ensures r.Some? && r.value.WithFunnel? ==>
      && r.value.funnel == FunnelOf(r.value.frame.rows)
      && r.value.funnel.totalPatients == |r.value.frame.rows|
      && r.value.funnel.bestPracticeYes + r.value.funnel.bestPracticeNo == |r.value.frame.rows|
  {
    match Run(sheet, imd)
    case Ok(out) =>
      assert sheet.Some?;
      NamesNeverLeave(sheet.value, imd);
      ArrivalDecidesShape(sheet.value, imd);
      FunnelOfOutput(sheet.value, imd);
      Some(out)
    case Err(_) => None
  }

  // ---------------------------------------------------------------------------
  // Which columns a run can produce
  // ---------------------------------------------------------------------------

  /** Every column name a stage of the pipeline writes. */
  const DerivedColumns: set<string> := {
    "Join_Key", "IMD_Decile", "IMD_Quintile", "Report_Month",
    "First_Score_Num", "Second_Score_Num", "Pain_Score_Improvement", "Age_Group", "Best_Practice"
  } + IntervalNames(Intervals)

  /** The names of the stages' columns differ from the names the stages test for. */
  lemma DerivedNames()
    ensures "Surname" !in DerivedColumns && "Forename" !in DerivedColumns
    ensures "Arrival DTTM" !in DerivedColumns && "Arrival DTTM" !in ScaffoldColumns
    ensures "Time_to_A1_Mins" !in {"Join_Key", "IMD_Decile", "IMD_Quintile", "Report_Month", "First_Score_Num",
                                   "Second_Score_Num", "Pain_Score_Improvement", "Age_Group"}
  {
    assert "Forename"[0] == 'F' && "Join_Key"[0] == 'J' && "First_Score_Num"[0] == 'F';
    assert "Arrival DTTM"[0] == 'A' && "IMD_Quintile"[0] == 'I' && "Report_Month"[0] == 'R' && "Postcode_Gov"[0] == 'P';
    assert "Time_to_A1_Mins"[0] == 'T';
  }

  /** Columns after the preparation steps: the cleaned header's columns, less the scaffolding
      when the reference table is used, plus the deprivation columns. */
  lemma PrepareColumns(s: Sheet, imd: Option<seq<ImdEntry>>)
    requires Rectangular(s) && Prepare(Some(s), imd).Ok?
    ensures var cols := Prepare(Some(s), imd).value.columns;
      && (forall c :: c in cols ==> c in CleanHeader(s).header || c == "Join_Key" || c == "IMD_Decile" || c == "IMD_Quintile")
      && (forall c :: c in CleanHeader(s).header && c !in ScaffoldColumns ==> c in cols)
  {
    var h := CleanHeader(s).header;
    var loaded := LoadAndCleanPainData(s).value;
    assert loaded.columns == h;
    var keyed := CreateJoinKeys(loaded).value;
    assert forall c :: c in keyed.columns <==> c in h || c == "Join_Key";
    MergeColumns(keyed, imd);
    var merged := MergeWithImdData(keyed, imd).value;
    assert Prepare(Some(s), imd).value.columns == merged.columns;
  }

  /** A successful step 5 is the verdict stage applied after the four stages before it, each
      of which succeeded. */
  lemma DeriveCases(f: Frame)
    requires WellFormed(f) && Derive(f).Ok?
    ensures var m := AddReportMonth(f);
      m.Ok? && (var p := CalculatePainScores(CalculateTimeIntervals(m.value));
        p.Ok? && (var a := CreateAgeGroups(p.value);
          a.Ok? && CalculateBestPractice(a.value) == Derive(f)))
  {
  }

  /** Step 5 keeps every column and adds only derived ones. */
  lemma DeriveColumns(f: Frame)
    requires WellFormed(f) && Derive(f).Ok?
    ensures forall c :: c in f.columns ==> c in Derive(f).value.0.columns
    ensures forall c :: c in Derive(f).value.0.columns ==> c in f.columns || c in DerivedColumns
  {
    DeriveCases(f);
    var withMonth := AddReportMonth(f).value;
    var withIntervals := CalculateTimeIntervals(withMonth);
    var withScores := CalculatePainScores(withIntervals).value;
    var withAges := CreateAgeGroups(withScores).value;
    var out := CalculateBestPractice(withAges).value.0;
    IntervalsMissingOrAdded(withMonth);
    forall c | c in out.columns
      ensures c in f.columns || c in DerivedColumns
    {
      if c != "Best_Practice" && c != "Age_Group" && c !in {"First_Score_Num", "Second_Score_Num", "Pain_Score_Improvement"} {
        assert c in withScores.columns;
        if c !in IntervalNames(Intervals) {
          assert c in withMonth.columns;
        }
      }
    }
  }

  lemma IntervalsMissingOrAdded(f: Frame)
    ensures forall c :: c in CalculateTimeIntervals(f).columns ==> c in f.columns || c in IntervalNames(Intervals)
    ensures forall c :: c in f.columns ==> c in CalculateTimeIntervals(f).columns
  {
  }

  /** How a run ends, stage by stage. */
  lemma RunCases(s: Sheet, imd: Option<seq<ImdEntry>>)
    requires Rectangular(s)
    ensures var p := Prepare(Some(s), imd); var r := Run(Some(s), imd);
      && (p.Err? ==> r.Err?)
      && (p.Ok? && "Arrival DTTM" !in p.value.columns ==> r == Ok(Bare(p.value)))
      && (p.Ok? && "Arrival DTTM" in p.value.columns ==>
            && (r.Err? <==> Derive(p.value).Err?)
            && (r.Ok? ==> r.value == WithFunnel(Derive(p.value).value.0, Derive(p.value).value.1)))
  {
  }

  // ---------------------------------------------------------------------------
  // Properties of a run
  // ---------------------------------------------------------------------------

  /** An unreadable export, repeated column names, or no Postcode column: the run gives None. */
  lemma FailureCases(s: Sheet, imd: Option<seq<ImdEntry>>)
    requires Rectangular(s)
    ensures ProcessMonthlyData(None, imd).None?
    ensures !Distinct(CleanHeader(s).header) ==> ProcessMonthlyData(Some(s), imd).None?
    ensures "Postcode" !in CleanHeader(s).header ==> ProcessMonthlyData(Some(s), imd).None?
  {
  }

  /** Without an arrival column the run stops after date conversion and returns the bare table;
      with one, a successful run returns the table with its funnel. */
  lemma ArrivalDecidesShape(s: Sheet, imd: Option<seq<ImdEntry>>)
    requires Rectangular(s) && Run(Some(s), imd).Ok?
    ensures Run(Some(s), imd).value.Bare? <==> "Arrival DTTM" !in CleanHeader(s).header
  {
    RunCases(s, imd);
    DerivedNames();
    PrepareColumns(s, imd);
  }

  /** The event columns and the verdict's Time_to_A1_Mins input are not written by the
      stages that run before the verdict. */
  lemma EventNames()
    ensures forall c :: c in DateCols ==>
      c != "Join_Key" && c != "IMD_Decile" && c != "IMD_Quintile" && c != "Report_Month"
    ensures "Time_to_A1_Mins" !in {"Join_Key", "IMD_Decile", "IMD_Quintile", "Report_Month"}
    ensures "Time_to_A1_Mins" !in {"First_Score_Num", "Second_Score_Num", "Pain_Score_Improvement", "Age_Group"}
    ensures VerdictInputs[1] == "Time_to_A1_Mins"
  {
    assert |DateCols[0]| == 12 && |DateCols[1]| == 11 && |DateCols[2]| == 21;
    assert |DateCols[3]| == 20 && |DateCols[4]| == 22 && DateCols[0][0] == 'A';
    assert "Report_Month"[0] == 'R' && |"Report_Month"| == 12;
    assert "Time_to_A1_Mins"[0] == 'T' && "Join_Key"[0] == 'J' && "IMD_Quintile"[0] == 'I' && "IMD_Decile"[0] == 'I';
    assert "First_Score_Num"[0] == 'F' && "Second_Score_Num"[0] == 'S';
    assert "Pain_Score_Improvement"[0] == 'P' && "Age_Group"[0] == 'A';
  }

  /** With an arrival column but another event column missing, the intervals are skipped, so
      the verdict's Time_to_A1_Mins input is absent and the run gives None (unless the export
      itself carries a Time_to_A1_Mins column). */
  lemma MissingEventColumnFails(s: Sheet, imd: Option<seq<ImdEntry>>, c: string)
    requires Rectangular(s) && "Arrival DTTM" in CleanHeader(s).header
    requires c in DateCols && c !in CleanHeader(s).header && "Time_to_A1_Mins" !in CleanHeader(s).header
    ensures ProcessMonthlyData(Some(s), imd).None?
  {
    RunCases(s, imd);
    var p := Prepare(Some(s), imd);
    if p.Ok? {
      PrepareColumns(s, imd);
      EventNames();
      DeriveNeedsEvents(p.value, c);
    }
  }

  /** Step 5 on a table with a date column missing and no Time_to_A1_Mins column fails. */
  lemma DeriveNeedsEvents(f: Frame, c: string)
    requires WellFormed(f) && c in DateCols && c !in f.columns && "Time_to_A1_Mins" !in f.columns
    ensures Derive(f).Err?
  {
    var withMonth := AddReportMonth(f);
    if withMonth.Ok? {
      IntervalsSkipped(f, c);
      EventNames();
      var withScores := CalculatePainScores(CalculateTimeIntervals(withMonth.value));
      if withScores.Ok? {
        var withAges := CreateAgeGroups(withScores.value);
        if withAges.Ok? {
          assert "Time_to_A1_Mins" !in withAges.value.columns;
        }
      }
    }
  }

  /** A missing event column, which Report_Month does not supply, makes the interval step
      a no-op, so no Time_to_A1_Mins column appears. */
  lemma IntervalsSkipped(f: Frame, c: string)
    requires c in DateCols && c !in f.columns && "Time_to_A1_Mins" !in f.columns && AddReportMonth(f).Ok?
    ensures CalculateTimeIntervals(AddReportMonth(f).value) == AddReportMonth(f).value
    ensures "Time_to_A1_Mins" !in AddReportMonth(f).value.columns
  {
    EventNames();
    assert c in MissingColumns(DateCols, AddReportMonth(f).value.columns);
  }

  /** No successful run carries the patients' names. */
  lemma NamesNeverLeave(s: Sheet, imd: Option<seq<ImdEntry>>)
    requires Rectangular(s) && Run(Some(s), imd).Ok?
    ensures "Surname" !in Run(Some(s), imd).value.frame.columns
    ensures "Forename" !in Run(Some(s), imd).value.frame.columns
  {
    RunCases(s, imd);
    DerivedNames();
    CleanHeaderDropsIdentifiers(s);
    PrepareColumns(s, imd);
    var f := Prepare(Some(s), imd).value;
    if "Arrival DTTM" in f.columns {
      DeriveColumns(f);
    }
  }

  /** A run with a funnel returns the funnel of its own table, which is marked row by row, so
      every flow of it is non-negative and Yes and No add up to the rows returned. */
  lemma FunnelOfOutput(s: Sheet, imd: Option<seq<ImdEntry>>)
    requires Rectangular(s) && Run(Some(s), imd).Ok?
    ensures var out := Run(Some(s), imd).value;
      out.WithFunnel? ==>
      && out.funnel == FunnelOf(out.frame.rows)
      && out.funnel.totalPatients == |out.frame.rows|
      && out.funnel.bestPracticeYes + out.funnel.bestPracticeNo == |out.frame.rows|
      && forall k :: 0 <= k < 12 ==> out.funnel.value[k] >= 0
  {
    RunCases(s, imd);
    var f := Prepare(Some(s), imd).value;
    if "Arrival DTTM" in f.columns {
      DeriveFunnel(f);
      FunnelConservation(Derive(f).value.0.rows);
    }
  }

  /** Step 5's funnel is the funnel of its own table, whose Best_Practice column is the verdict. */
  lemma DeriveFunnel(f: Frame)
    requires WellFormed(f) && Derive(f).Ok?
    ensures Marked(Derive(f).value.0.rows) && Derive(f).value.1 == FunnelOf(Derive(f).value.0.rows)
  {
    DeriveCases(f);
  }
}
