/** The derived columns: parsed event timestamps, the report month, the five
    intervals from arrival (and the two between analgesia and the second pain
    score), numeric pain scores and their change, and age bands. */
module Derivations {
  import opened Wrappers
  import opened Text
  import opened Timestamps
  import opened Frames

  /** The five event columns, in the order the pipeline converts them. */
  const DateCols: seq<string> :=
    ["Arrival DTTM", "Triage DTTM", "First Pain Score DTTM", "First Analgesia DTTM", "Second Pain Score DTTM"]

  // ---------------------------------------------------------------------------
  // convert_date_columns
  // ---------------------------------------------------------------------------

  /** pd.to_datetime(..., format='%d-%b-%y %H:%M', errors='coerce') of one cell: text is parsed
      (unparseable text is NaT), a date-time is kept, anything else is NaT. */
  function ParseCell(v: Value): (w: Value)
    ensures w.Null? || w.Stamp?
    ensures v.Text? ==> w == (match Parse(v.s) case Some(t) => Stamp(t) case None => Null)
    ensures v.Stamp? ==> w == v
    // a number is read as its text, which never fits the layout; a missing cell stays missing
    ensures v.Num? || v.Null? ==> w.Null?
  {
    match v
    case Text(s) => (match Parse(s) case Some(t) => Stamp(t) case None => Null)
    case Stamp(_) => v
    case _ => Null
  }

  /** Converting twice is converting once. */
  lemma ParseCellIdempotent(v: Value)
    ensures ParseCell(ParseCell(v)) == ParseCell(v)
  {
  }

  /** A timestamp written in the sheet's layout is read back as itself. */
  lemma ParseCellOfFormat(t: DateTime)
    requires ValidDateTime(t) && 1969 <= t.year <= 2068
    ensures ParseCell(Text(Format(t))) == Stamp(t)
  {
    ParseFormat(t);
  }

  /** pd.to_datetime(df[c], format=..., errors='coerce') as a series. */
  function ParsedColumn(f: Frame, c: string): (col: seq<Value>)
    ensures |col| == |f.rows|
    ensures forall i :: 0 <= i < |f.rows| ==> col[i] == ParseCell(Get(f.rows[i], c))
  {
    seq(|f.rows|, i requires 0 <= i < |f.rows| => ParseCell(Get(f.rows[i], c)))
  }

  /** One iteration of the loop: convert column c when it is present. */
  function ConvertColumn(f: Frame, c: string): (g: Frame)
    ensures WellFormed(f) ==> WellFormed(g)
    ensures g.columns == f.columns && |g.rows| == |f.rows|
    ensures forall i, d :: 0 <= i < |g.rows| ==>
      Get(g.rows[i], d) == if d == c && c in f.columns then ParseCell(Get(f.rows[i], d)) else Get(f.rows[i], d)
  {
    if c in f.columns then Assign(f, c, ParsedColumn(f, c))
    else f
  }

  /** convert_date_columns: the columns of cols, in order, each converted when present. */
  function ConvertDateColumns(f: Frame, cols: seq<string>): (g: Frame)
    ensures WellFormed(f) ==> WellFormed(g)
    ensures g.columns == f.columns && |g.rows| == |f.rows|
    ensures forall i, d :: 0 <= i < |g.rows| ==>
      Get(g.rows[i], d) == if d in cols && d in f.columns then ParseCell(Get(f.rows[i], d)) else Get(f.rows[i], d)
    decreases |cols|
  {
    if cols == [] then f
    else
      var h := ConvertDateColumns(f, cols[..|cols| - 1]);
      ConvertStep(f, h, cols, cols[..|cols| - 1]);
      ConvertColumn(h, cols[|cols| - 1])
  }

  /** Converting the last column after the others gives every column of cols converted once. */
  lemma ConvertStep(f: Frame, h: Frame, cols: seq<string>, init: seq<string>)
    requires cols != [] && init == cols[..|cols| - 1]
    requires h.columns == f.columns && |h.rows| == |f.rows|
    requires forall i, d :: 0 <= i < |h.rows| ==>
      Get(h.rows[i], d) == if d in init && d in f.columns then ParseCell(Get(f.rows[i], d)) else Get(f.rows[i], d)
    ensures var g := ConvertColumn(h, cols[|cols| - 1]);
      forall i, d :: 0 <= i < |g.rows| ==>
        Get(g.rows[i], d) == if d in cols && d in f.columns then ParseCell(Get(f.rows[i], d)) else Get(f.rows[i], d)
  {
    var g := ConvertColumn(h, cols[|cols| - 1]);
    assert forall d :: d in cols <==> d in init || d == cols[|cols| - 1] by {
      assert cols == init + [cols[|cols| - 1]];
    }
    forall i, d | 0 <= i < |g.rows|
      ensures Get(g.rows[i], d) == if d in cols && d in f.columns then ParseCell(Get(f.rows[i], d)) else Get(f.rows[i], d)
    {
      ParseCellIdempotent(Get(f.rows[i], d));
    }
  }

  /** After conversion every present event column holds only date-times and missing cells. */
  lemma ConvertedColumnsAreDates(f: Frame, i: nat, c: string)
    requires i < |f.rows| && c in DateCols && c in f.columns
    ensures var v := Get(ConvertDateColumns(f, DateCols).rows[i], c); v.Null? || v.Stamp?
  {
    var g := ConvertDateColumns(f, DateCols);
    assert Get(g.rows[i], c) == ParseCell(Get(f.rows[i], c));
  }

  // ---------------------------------------------------------------------------
  // Report_Month
  // ---------------------------------------------------------------------------

  /** .dt.to_period('M').astype(str) of one cell: 'YYYY-MM', or 'NaT' for a missing date. */
  function MonthCell(v: Value): (w: Value)
    ensures v.Stamp? ==> w == Text(MonthString(v.t))
    ensures !v.Stamp? ==> w == Text("NaT")
  {
    if v.Stamp? then Text(MonthString(v.t)) else Text("NaT")
  }

  /** df['Report_Month'] from df['Arrival DTTM']; a KeyError without that column. */
  function MonthColumn(f: Frame): (col: seq<Value>)
    ensures |col| == |f.rows|
    ensures forall i :: 0 <= i < |f.rows| ==> col[i] == MonthCell(Get(f.rows[i], "Arrival DTTM"))
  {
    seq(|f.rows|, i requires 0 <= i < |f.rows| => MonthCell(Get(f.rows[i], "Arrival DTTM")))
  }

  function AddReportMonth(f: Frame): (r: Result<Frame, Error>)
    ensures r.Err? <==> "Arrival DTTM" !in f.columns
    ensures r.Ok? ==> (WellFormed(f) ==> WellFormed(r.value))
    ensures r.Ok? ==> forall c :: c in r.value.columns <==> c in f.columns || c == "Report_Month"
    ensures r.Ok? ==> |r.value.rows| == |f.rows|
    ensures r.Ok? ==> forall i :: 0 <= i < |f.rows| ==>
      Get(r.value.rows[i], "Report_Month") == MonthCell(Get(f.rows[i], "Arrival DTTM"))
    ensures r.Ok? ==> forall i, c :: 0 <= i < |f.rows| && c != "Report_Month" ==>
      Get(r.value.rows[i], c) == Get(f.rows[i], c)
  {
    if "Arrival DTTM" !in f.columns then Err(MissingColumn("Arrival DTTM"))
    else Ok(Assign(f, "Report_Month", MonthColumn(f)))
  }

  /** Two arrivals get the same report month exactly when they fall in the same calendar month. */
  lemma SameReportMonth(a: DateTime, b: DateTime)
    requires 0 <= a.year <= 9999 && 0 <= b.year <= 9999 && 1 <= a.month <= 12 && 1 <= b.month <= 12
    ensures MonthCell(Stamp(a)) == MonthCell(Stamp(b)) <==> a.year == b.year && a.month == b.month
  {
    assert Pow10(4) == 10000 && Pow10(2) == 100;
    PadValue(a.year, 4);
    PadValue(b.year, 4);
    PadValue(a.month, 2);
    PadValue(b.month, 2);
    var sa, sb := MonthString(a), MonthString(b);
    assert sa[..4] == Pad(a.year, 4) && sa[5..] == Pad(a.month, 2);
    assert sb[..4] == Pad(b.year, 4) && sb[5..] == Pad(b.month, 2);
  }

  // ---------------------------------------------------------------------------
  // calculate_time_intervals
  // ---------------------------------------------------------------------------

  /** A derived interval column: later event minus earlier event, in minutes. */
  datatype Interval = Interval(name: string, later: string, earlier: string)

  const Intervals: seq<Interval> := [
    Interval("Time_to_Triage_Mins", "Triage DTTM", "Arrival DTTM"),
    Interval("Time_to_PS1_Mins", "First Pain Score DTTM", "Arrival DTTM"),
    Interval("Time_to_A1_Mins", "First Analgesia DTTM", "Arrival DTTM"),
    Interval("Time_to_PS2_Mins", "Second Pain Score DTTM", "Arrival DTTM"),
    Interval("A1_to_PS2_Mins", "Second Pain Score DTTM", "First Analgesia DTTM"),
    Interval("PS2_to_A1_Mins", "First Analgesia DTTM", "Second Pain Score DTTM")
  ]

  /** (later - earlier).dt.total_seconds() / 60 of one row; NaT on either side gives NaN. */
  function Minutes(later: Value, earlier: Value): (w: Value)
    ensures w.Null? <==> !(later.Stamp? && earlier.Stamp?)
  {
    if later.Stamp? && earlier.Stamp? then Num(ToMinutes(later.t) - ToMinutes(earlier.t)) else Null
  }

  function IntervalNames(ivs: seq<Interval>): set<string> {
    set k | 0 <= k < |ivs| :: ivs[k].name
  }

  /** No interval overwrites a column that an interval reads, and no two share a name. */
  predicate IndependentIntervals(ivs: seq<Interval>) {
    && (forall k, l :: 0 <= k < |ivs| && 0 <= l < |ivs| ==> ivs[k].name != ivs[l].later && ivs[k].name != ivs[l].earlier)
    && (forall k, l :: 0 <= k < l < |ivs| ==> ivs[k].name != ivs[l].name)
  }

  function IntervalColumn(f: Frame, iv: Interval): (col: seq<Value>)
    ensures |col| == |f.rows|
    ensures forall i :: 0 <= i < |f.rows| ==> col[i] == Minutes(Get(f.rows[i], iv.later), Get(f.rows[i], iv.earlier))
  {
    seq(|f.rows|, i requires 0 <= i < |f.rows| => Minutes(Get(f.rows[i], iv.later), Get(f.rows[i], iv.earlier)))
  }

  /** The interval assignments, one after another. */
  function AddIntervals(f: Frame, ivs: seq<Interval>): (g: Frame)
    requires IndependentIntervals(ivs)
    ensures WellFormed(f) ==> WellFormed(g)
    ensures forall c :: c in g.columns <==> c in f.columns || c in IntervalNames(ivs)
    ensures |g.rows| == |f.rows|
    ensures forall i, k :: 0 <= i < |g.rows| && 0 <= k < |ivs| ==>
      Get(g.rows[i], ivs[k].name) == Minutes(Get(f.rows[i], ivs[k].later), Get(f.rows[i], ivs[k].earlier))
    ensures forall i, c :: 0 <= i < |g.rows| && c !in IntervalNames(ivs) ==> Get(g.rows[i], c) == Get(f.rows[i], c)
    decreases |ivs|
  {
    if ivs == [] then f
    else
      var n := |ivs| - 1;
      IntervalsPrefix(ivs);
      var h := AddIntervals(f, ivs[..n]);
      var g := Assign(h, ivs[n].name, IntervalColumn(h, ivs[n]));
      IntervalStep(f, h, ivs, ivs[..n]);
      g
  }

  lemma IntervalsPrefix(ivs: seq<Interval>)
    requires IndependentIntervals(ivs) && ivs != []
    ensures IndependentIntervals(ivs[..|ivs| - 1])
    ensures IntervalNames(ivs) == IntervalNames(ivs[..|ivs| - 1]) + {ivs[|ivs| - 1].name}
    ensures ivs[|ivs| - 1].later !in IntervalNames(ivs[..|ivs| - 1])
    ensures ivs[|ivs| - 1].earlier !in IntervalNames(ivs[..|ivs| - 1])
  {
    var init := ivs[..|ivs| - 1];
    assert forall k :: 0 <= k < |init| ==> init[k] == ivs[k];
  }

  /** Adding the last interval keeps the earlier ones and the inputs intact. */
  lemma IntervalStep(f: Frame, h: Frame, ivs: seq<Interval>, init: seq<Interval>)
    requires IndependentIntervals(ivs) && ivs != [] && |h.rows| == |f.rows| && init == ivs[..|ivs| - 1]
    requires forall i, k :: 0 <= i < |h.rows| && 0 <= k < |init| ==>
      Get(h.rows[i], init[k].name) == Minutes(Get(f.rows[i], init[k].later), Get(f.rows[i], init[k].earlier))
    requires forall i, c :: 0 <= i < |h.rows| && c !in IntervalNames(init) ==> Get(h.rows[i], c) == Get(f.rows[i], c)
    ensures var n := |ivs| - 1; var g := Assign(h, ivs[n].name, IntervalColumn(h, ivs[n]));
      forall i, k :: 0 <= i < |g.rows| && 0 <= k < |ivs| ==>
        Get(g.rows[i], ivs[k].name) == Minutes(Get(f.rows[i], ivs[k].later), Get(f.rows[i], ivs[k].earlier))
  {
    var n := |ivs| - 1;
    IntervalsPrefix(ivs);
    var g := Assign(h, ivs[n].name, IntervalColumn(h, ivs[n]));
    forall i, k | 0 <= i < |g.rows| && 0 <= k < |ivs|
      ensures Get(g.rows[i], ivs[k].name) == Minutes(Get(f.rows[i], ivs[k].later), Get(f.rows[i], ivs[k].earlier))
    {
      if k < n {
        assert init[k] == ivs[k];
        assert ivs[k].name != ivs[n].name;
      }
    }
  }

  /** Every interval name ends in "_Mins", every event column in "DTTM". */
  lemma NameSuffixes()
    ensures forall k :: 0 <= k < |Intervals| ==> |Intervals[k].name| > 0 && Intervals[k].name[|Intervals[k].name| - 1] == 's'
    ensures forall c :: c in DateCols ==> |c| > 0 && c[|c| - 1] == 'M'
  {
    var I := Intervals;
    assert |I[0].name| == 19 && |I[1].name| == 16 && |I[2].name| == 15;
    assert |I[3].name| == 16 && |I[4].name| == 14 && |I[5].name| == 14;
    assert |DateCols[0]| == 12 && |DateCols[1]| == 11 && |DateCols[2]| == 21;
    assert |DateCols[3]| == 20 && |DateCols[4]| == 22;
  }

  lemma IntervalNamesDistinct()
    ensures forall k, l :: 0 <= k < l < |Intervals| ==> Intervals[k].name != Intervals[l].name
  {
    var I := Intervals;
    assert |I[0].name| == 19 && |I[1].name| == 16 && |I[2].name| == 15;
    assert |I[3].name| == 16 && |I[4].name| == 14 && |I[5].name| == 14;
    assert I[1].name[10] == '1' && I[3].name[10] == '2';
    assert I[4].name[0] == 'A' && I[5].name[0] == 'P';
  }

  lemma IntervalInputs()
    ensures forall k :: 0 <= k < |Intervals| ==> Intervals[k].later in DateCols && Intervals[k].earlier in DateCols
  {
    var I := Intervals;
    assert I[0].later == DateCols[1] && I[1].later == DateCols[2] && I[2].later == DateCols[3];
    assert I[3].later == DateCols[4] && I[4].later == DateCols[4] && I[5].later == DateCols[3];
    assert I[0].earlier == DateCols[0] && I[1].earlier == DateCols[0] && I[2].earlier == DateCols[0];
    assert I[3].earlier == DateCols[0] && I[4].earlier == DateCols[3] && I[5].earlier == DateCols[4];
  }

  lemma IntervalsIndependent()
    ensures IndependentIntervals(Intervals)
    ensures forall k :: 0 <= k < |Intervals| ==> Intervals[k].later in DateCols && Intervals[k].earlier in DateCols
  {
    IntervalInputs();
    IntervalNamesDistinct();
    forall k, l | 0 <= k < |Intervals| && 0 <= l < |Intervals|
      ensures Intervals[k].name != Intervals[l].later && Intervals[k].name != Intervals[l].earlier
    {
      NameSuffixes();
      LastDiffers(Intervals[k].name, Intervals[l].later);
      LastDiffers(Intervals[k].name, Intervals[l].earlier);
    }
  }

  lemma LastDiffers(a: string, b: string)
    requires |a| > 0 && |b| > 0 && a[|a| - 1] != b[|b| - 1]
    ensures a != b
  {
  }

  /** calculate_time_intervals: with any event column missing the table comes back as it was
      (after a printed warning); otherwise the six interval columns are added. */
  function CalculateTimeIntervals(f: Frame): (g: Frame)
    ensures MissingColumns(DateCols, f.columns) != [] ==> g == f
    ensures WellFormed(f) ==> WellFormed(g)
    ensures |g.rows| == |f.rows|
    ensures MissingColumns(DateCols, f.columns) == [] ==>
      forall c :: c in g.columns <==> c in f.columns || c in IntervalNames(Intervals)
    ensures MissingColumns(DateCols, f.columns) == [] ==>
      forall i, k :: 0 <= i < |g.rows| && 0 <= k < |Intervals| ==>
        Get(g.rows[i], Intervals[k].name) == Minutes(Get(f.rows[i], Intervals[k].later), Get(f.rows[i], Intervals[k].earlier))
    ensures forall i, c :: 0 <= i < |g.rows| && c !in IntervalNames(Intervals) ==> Get(g.rows[i], c) == Get(f.rows[i], c)
  {
    IntervalsIndependent();
    if MissingColumns(DateCols, f.columns) != [] then f
    // the source's second test, 'Arrival DTTM' in df.columns, always holds here
    else AddIntervals(f, Intervals)
  }

  /** An interval is negative exactly when the later event is recorded before the earlier one,
      and zero exactly when both are recorded at the same minute. */
  lemma MinutesSign(a: DateTime, b: DateTime)
    requires ValidDateTime(a) && ValidDateTime(b)
    ensures Minutes(Stamp(a), Stamp(b)).Num?
    ensures Minutes(Stamp(a), Stamp(b)).n < 0 <==> Before(a, b)
    ensures Minutes(Stamp(a), Stamp(b)).n == 0 <==> a == b
  {
    if Before(a, b) {
      ToMinutesMonotone(a, b);
    } else if a != b {
      ToMinutesMonotone(b, a);
    }
  }

  /** PS2_to_A1_Mins is the negation of A1_to_PS2_Mins, and each is missing when the other is. */
  lemma OppositeIntervals(f: Frame, i: nat)
    requires MissingColumns(DateCols, f.columns) == [] && i < |f.rows|
    ensures var g := CalculateTimeIntervals(f);
      var x, y := Get(g.rows[i], "A1_to_PS2_Mins"), Get(g.rows[i], "PS2_to_A1_Mins");
      (x.Null? <==> y.Null?) && (x.Num? ==> y.Num? && y.n == -x.n)
  {
    assert Intervals[4].name == "A1_to_PS2_Mins" && Intervals[5].name == "PS2_to_A1_Mins";
  }

  /** Arrival at 10:00 and analgesia at 10:12 the same day give Time_to_A1_Mins = 12. */
  lemma IntervalExample()
    ensures Minutes(Stamp(DateTime(2024, 1, 15, 10, 12)), Stamp(DateTime(2024, 1, 15, 10, 0))) == Num(12)
  {
  }

  /** The clock-minute after an event is one minute later. */
  lemma MinutesOfSuccessor(t: DateTime)
    requires ValidDateTime(t)
    ensures Minutes(Stamp(Succ(t)), Stamp(t)) == Num(1)
  {
    SuccMinutes(t);
  }

  // ---------------------------------------------------------------------------
  // calculate_pain_scores
  // ---------------------------------------------------------------------------

  const PainLabels: seq<string> := ["No Pain", "Mild Pain", "Mod Pain", "Sev Pain"]

  /** score_map: exact labels only; anything else (misspelt, missing) maps to NaN. */
  function ScoreOf(v: Value): (o: Option<int>)
    ensures o.Some? <==> v.Text? && v.s in PainLabels
    ensures o.Some? ==> 0 <= o.value <= 3 && PainLabels[o.value] == v.s
  {
    if v == Text("No Pain") then Some(0)
    else if v == Text("Mild Pain") then Some(1)
    else if v == Text("Mod Pain") then Some(2)
    else if v == Text("Sev Pain") then Some(3)
    else None
  }

  /** Series subtraction on one row: NaN on either side gives NaN. */
  function Difference(a: Value, b: Value): (w: Value)
    ensures w.Num? <==> a.Num? && b.Num?
    ensures w.Num? ==> w.n == a.n - b.n
  {
    if a.Num? && b.Num? then Num(a.n - b.n) else Null
  }

  function ScoreColumn(f: Frame, c: string): (col: seq<Value>)
    ensures |col| == |f.rows|
    ensures forall i :: 0 <= i < |f.rows| ==> col[i] == NumCell(ScoreOf(Get(f.rows[i], c)))
  {
    seq(|f.rows|, i requires 0 <= i < |f.rows| => NumCell(ScoreOf(Get(f.rows[i], c))))
  }

  function DifferenceColumn(f: Frame, a: string, b: string): (col: seq<Value>)
    ensures |col| == |f.rows|
    ensures forall i :: 0 <= i < |f.rows| ==> col[i] == Difference(Get(f.rows[i], a), Get(f.rows[i], b))
  {
    seq(|f.rows|, i requires 0 <= i < |f.rows| => Difference(Get(f.rows[i], a), Get(f.rows[i], b)))
  }

  lemma PainColumnNames()
    ensures "First_Score_Num" != "Second_Score_Num" && "First_Score_Num" != "Pain_Score_Improvement"
    ensures "Second_Score_Num" != "Pain_Score_Improvement"
    ensures "Second Pain Score" != "First_Score_Num"
    ensures "First Pain Score" !in {"First_Score_Num", "Second_Score_Num", "Pain_Score_Improvement"}
    ensures "Second Pain Score" !in {"First_Score_Num", "Second_Score_Num", "Pain_Score_Improvement"}
  {
    assert "First_Score_Num"[0] == 'F' && "Second_Score_Num"[0] == 'S' && "Pain_Score_Improvement"[0] == 'P';
    assert "First Pain Score"[5] == ' ' && "First_Score_Num"[5] == '_' && "Second_Score_Num"[6] == '_';
    assert "Second Pain Score"[6] == ' ';
  }

  /** calculate_pain_scores: First_Score_Num, Second_Score_Num and Pain_Score_Improvement
      (second minus first); a KeyError when either label column is absent. */
  function CalculatePainScores(f: Frame): (r: Result<Frame, Error>)
    ensures r.Err? <==> "First Pain Score" !in f.columns || "Second Pain Score" !in f.columns
    ensures r.Ok? ==> (WellFormed(f) ==> WellFormed(r.value))
    ensures r.Ok? ==> |r.value.rows| == |f.rows|
    ensures r.Ok? ==> forall c :: c in r.value.columns <==>
      c in f.columns || c in {"First_Score_Num", "Second_Score_Num", "Pain_Score_Improvement"}
    ensures r.Ok? ==> forall i :: 0 <= i < |f.rows| ==>
      && Get(r.value.rows[i], "First_Score_Num") == NumCell(ScoreOf(Get(f.rows[i], "First Pain Score")))
      && Get(r.value.rows[i], "Second_Score_Num") == NumCell(ScoreOf(Get(f.rows[i], "Second Pain Score")))
      && Get(r.value.rows[i], "Pain_Score_Improvement")
           == Difference(NumCell(ScoreOf(Get(f.rows[i], "Second Pain Score"))), NumCell(ScoreOf(Get(f.rows[i], "First Pain Score"))))
    ensures r.Ok? ==> forall i, c :: 0 <= i < |f.rows| && c !in {"First_Score_Num", "Second_Score_Num", "Pain_Score_Improvement"} ==>
      Get(r.value.rows[i], c) == Get(f.rows[i], c)
  {
    if "First Pain Score" !in f.columns then Err(MissingColumn("First Pain Score"))
    else if "Second Pain Score" !in f.columns then Err(MissingColumn("Second Pain Score"))
    else
      PainColumnNames();
      var g1 := Assign(f, "First_Score_Num", ScoreColumn(f, "First Pain Score"));
      var g2 := Assign(g1, "Second_Score_Num", ScoreColumn(g1, "Second Pain Score"));
      Ok(Assign(g2, "Pain_Score_Improvement", DifferenceColumn(g2, "Second_Score_Num", "First_Score_Num")))
  }

  /** The change in pain is between -3 and 3; it is missing exactly when either label is unknown,
      and it is negative exactly when the second score is lower. */
  lemma ImprovementRange(first: Value, second: Value)
    ensures var d := Difference(NumCell(ScoreOf(second)), NumCell(ScoreOf(first)));
      && (d.Null? <==> ScoreOf(first).None? || ScoreOf(second).None?)
      && (d.Num? ==> -3 <= d.n <= 3 && (d.n < 0 <==> ScoreOf(second).value < ScoreOf(first).value))
  {
  }

  lemma ImprovementExample()
    ensures Difference(NumCell(ScoreOf(Text("Mild Pain"))), NumCell(ScoreOf(Text("Sev Pain")))) == Num(-2)
    ensures Difference(NumCell(ScoreOf(Text("Sev Pain"))), NumCell(ScoreOf(Text("sev pain")))) == Null
  {
  }

  // ---------------------------------------------------------------------------
  // create_age_groups
  // ---------------------------------------------------------------------------

  const AgeBins: seq<int> := [0, 15, 25, 35, 45, 55, 65, 75, 85, 95, 150]
  const AgeLabels: seq<string> := ["0-15", "15-25", "25-35", "35-45", "45-55", "55-65", "65-75", "75-85", "85-95", "95+"]

  predicate StrictlyIncreasing(s: seq<int>) {
    forall i, j :: 0 <= i < j < |s| ==> s[i] < s[j]
  }

  /** pd.cut(..., right=False): the index k of the bin [bins[k], bins[k+1]) holding a, if any. */
  function BinIndex(bins: seq<int>, a: int): (k: Option<nat>)
    ensures k.Some? ==> k.value + 1 < |bins| && bins[k.value] <= a < bins[k.value + 1]
    ensures StrictlyIncreasing(bins) && |bins| >= 2 ==> (k.None? <==> a < bins[0] || bins[|bins| - 1] <= a)
    decreases |bins|
  {
    if |bins| < 2 then None
    else if bins[0] <= a < bins[1] then Some(0)
    else
      var rest := BinIndex(bins[1..], a);
      if rest.Some? then Some(rest.value + 1) else None
  }

  /** Text pd.to_numeric reads as a whole number: an optional sign and at least one digit. */
  predicate IntegerText(s: string) {
    || (|s| >= 1 && AllDigits(s))
    || (|s| >= 2 && (s[0] == '-' || s[0] == '+') && AllDigits(s[1..]))
  }

  function IntegerValue(s: string): int
    requires IntegerText(s)
  {
    if AllDigits(s) then DigitsValue(s)
    else if s[0] == '-' then -(DigitsValue(s[1..]) as int) else DigitsValue(s[1..])
  }

  /** pd.to_numeric(..., errors='coerce') of one cell. */
  function ToNumeric(v: Value): (w: Value)
    ensures w.Null? || w.Num?
    ensures v.Num? ==> w == v
    ensures v.Text? ==> (w.Num? <==> IntegerText(v.s))
  {
    match v
    case Num(_) => v
    case Text(s) => if IntegerText(s) then Num(IntegerValue(s)) else Null
    case _ => Null
  }

  /** A rendered whole number reads back as itself. */
  lemma ToNumericOfNumber(n: int)
    ensures ToNumeric(Text(IntToString(n))) == Num(n)
  {
    NatToStringValue(if n < 0 then -n else n);
    if n < 0 {
      assert IntToString(n)[1..] == NatToString(-n);
      assert !AllDigits(IntToString(n)) by {
        assert !IsDigit(IntToString(n)[0]);
      }
    }
  }

  /** The Age_Group cell of an Age cell. */
  function AgeGroupCell(age: Value): (w: Value)
    ensures w.Null? || w.Text?
  {
    if age.Num? then
      match BinIndex(AgeBins, age.n)
      case Some(k) => Text(AgeLabels[k])
      case None => Null
    else Null
  }

  /** With increasing bins, a value inside [bins[k], bins[k+1]) lands in bin k. */
  lemma {:induction false} BinIndexOf(bins: seq<int>, a: int, k: nat)
    requires StrictlyIncreasing(bins) && k + 1 < |bins| && bins[k] <= a < bins[k + 1]
    ensures BinIndex(bins, a) == Some(k)
  {
    if k > 0 {
      assert bins[1] <= bins[k];
      assert StrictlyIncreasing(bins[1..]);
      BinIndexOf(bins[1..], a, k - 1);
    }
  }

  /** An age gets a band exactly when 0 <= age < 150, and the band is the one whose
      half-open interval [lower, upper) holds the age. */
  lemma AgeBand(a: int)
    ensures AgeGroupCell(Num(a)).Text? <==> 0 <= a < 150
    ensures forall k :: 0 <= k < |AgeLabels| && AgeBins[k] <= a < AgeBins[k + 1] ==>
      AgeGroupCell(Num(a)) == Text(AgeLabels[k])
  {
    AgeBinsIncreasing();
    forall k | 0 <= k < |AgeLabels| && AgeBins[k] <= a < AgeBins[k + 1]
      ensures AgeGroupCell(Num(a)) == Text(AgeLabels[k])
    {
      BinIndexOf(AgeBins, a, k);
    }
  }

  lemma AgeBinsIncreasing()
    ensures StrictlyIncreasing(AgeBins)
  {
  }

  /** The lower bound of a band belongs to it (right=False). */
  lemma AgeBandExamples()
    ensures AgeGroupCell(Num(15)) == Text("15-25")
    ensures AgeGroupCell(Num(95)) == Text("95+")
    ensures AgeGroupCell(Num(149)) == Text("95+")
  {
    AgeBinsIncreasing();
    BinIndexOf(AgeBins, 15, 1);
    assert AgeLabels[1] == "15-25";
    BinIndexOf(AgeBins, 95, 9);
    BinIndexOf(AgeBins, 149, 9);
    assert AgeLabels[9] == "95+";
  }

  /** 150 and over, negative ages and non-numeric ages get no band (pd.cut gives NaN). */
  lemma NoAgeBandExamples()
    ensures AgeGroupCell(Num(150)) == Null
    ensures AgeGroupCell(Num(-1)) == Null
    ensures AgeGroupCell(Text("n/a")) == Null
  {
    AgeBinsIncreasing();
  }

  /** pd.to_numeric(df[c], errors='coerce') as a series. */
  function NumericColumn(f: Frame, c: string): (col: seq<Value>)
    ensures |col| == |f.rows|
    ensures forall i :: 0 <= i < |f.rows| ==> col[i] == ToNumeric(Get(f.rows[i], c))
  {
    seq(|f.rows|, i requires 0 <= i < |f.rows| => ToNumeric(Get(f.rows[i], c)))
  }

  /** pd.cut(df['Age'], ...) as a series. */
  function AgeGroupColumn(f: Frame): (col: seq<Value>)
    ensures |col| == |f.rows|
    ensures forall i :: 0 <= i < |f.rows| ==> col[i] == AgeGroupCell(Get(f.rows[i], "Age"))
  {
    seq(|f.rows|, i requires 0 <= i < |f.rows| => AgeGroupCell(Get(f.rows[i], "Age")))
  }

  /** create_age_groups: Age made numeric in place, then Age_Group from it; a KeyError without Age. */
  function CreateAgeGroups(f: Frame): (r: Result<Frame, Error>)
    ensures r.Err? <==> "Age" !in f.columns
    ensures r.Ok? ==> (WellFormed(f) ==> WellFormed(r.value))
    ensures r.Ok? ==> |r.value.rows| == |f.rows|
    ensures r.Ok? ==> forall c :: c in r.value.columns <==> c in f.columns || c == "Age_Group"
    ensures r.Ok? ==> forall i :: 0 <= i < |f.rows| ==>
      && Get(r.value.rows[i], "Age") == ToNumeric(Get(f.rows[i], "Age"))
      && Get(r.value.rows[i], "Age_Group") == AgeGroupCell(ToNumeric(Get(f.rows[i], "Age")))
    ensures r.Ok? ==> forall i, c :: 0 <= i < |f.rows| && c != "Age" && c != "Age_Group" ==>
      Get(r.value.rows[i], c) == Get(f.rows[i], c)
  {
    if "Age" !in f.columns then Err(MissingColumn("Age"))
    else
      var g := Assign(f, "Age", NumericColumn(f, "Age"));
      Ok(Assign(g, "Age_Group", AgeGroupColumn(g)))
  }
}
