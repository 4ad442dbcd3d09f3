/** Best-practice compliance (calculate_best_practice): the per-patient verdict and
    the thirteen-node Sankey funnel built from row counts. */
module Compliance {
  import opened Wrappers
  import opened Text
  import opened Frames

  // ---------------------------------------------------------------------------
  // The verdict
  // ---------------------------------------------------------------------------

  /** cell <= n on a numeric series: a missing interval compares False. */
  predicate AtMost(v: Value, n: int) {
    v.Num? && v.n <= n
  }

  /** cell > 0: a missing interval compares False. */
  predicate Positive(v: Value) {
    v.Num? && v.n > 0
  }

  function PS1InTime(r: Row): bool {
    AtMost(Get(r, "Time_to_PS1_Mins"), 15)
  }

  function A1InTime(r: Row): bool {
    AtMost(Get(r, "Time_to_A1_Mins"), 15)
  }

  function IsSevere(r: Row): bool {
    Get(r, "First Pain Score") == Text("Sev Pain")
  }

  function IsModerate(r: Row): bool {
    Get(r, "First Pain Score") == Text("Mod Pain")
  }

  /** condition_mod: moderate pain, analgesia within 15 minutes, reassessed within (0, 30]. */
  predicate ModerateCondition(r: Row) {
    IsModerate(r) && A1InTime(r) && AtMost(Get(r, "A1_to_PS2_Mins"), 30) && Positive(Get(r, "A1_to_PS2_Mins"))
  }

  /** condition_sev: severe pain, analgesia within 15 minutes, reassessed within (0, 15]. */
  predicate SevereCondition(r: Row) {
    IsSevere(r) && A1InTime(r) && AtMost(Get(r, "A1_to_PS2_Mins"), 15) && Positive(Get(r, "A1_to_PS2_Mins"))
  }

  /** The Best_Practice test: first pain score within 15 minutes and one of the two conditions. */
  function MeetsBestPractice(r: Row): bool {
    PS1InTime(r) && (ModerateCondition(r) || SevereCondition(r))
  }

  /** The reassessment window per first pain score: 30 minutes for moderate, 15 for severe,
      no window (never best practice) for any other label. */
  function ReassessmentLimit(score: Value): Option<int> {
    if score == Text("Mod Pain") then Some(30)
    else if score == Text("Sev Pain") then Some(15)
    else None
  }

  /** The verdict as the clinical rule reads: moderate or severe pain, first pain score and
      analgesia both within 15 minutes of arrival, and the second score strictly after
      analgesia and within the window of that severity. */
  lemma BestPracticeRule(r: Row)
    ensures MeetsBestPractice(r) <==>
      var limit := ReassessmentLimit(Get(r, "First Pain Score"));
      && limit.Some?
      && AtMost(Get(r, "Time_to_PS1_Mins"), 15)
      && AtMost(Get(r, "Time_to_A1_Mins"), 15)
      && Positive(Get(r, "A1_to_PS2_Mins"))
      && AtMost(Get(r, "A1_to_PS2_Mins"), limit.value)
  {
  }

  /** Only the four inputs decide the verdict. */
  lemma VerdictReadsFourColumns(r: Row, r': Row)
    requires forall c :: c in {"First Pain Score", "Time_to_PS1_Mins", "Time_to_A1_Mins", "A1_to_PS2_Mins"} ==> Get(r, c) == Get(r', c)
    ensures MeetsBestPractice(r) == MeetsBestPractice(r')
  {
    assert Get(r, "First Pain Score") == Get(r', "First Pain Score");
    assert Get(r, "Time_to_PS1_Mins") == Get(r', "Time_to_PS1_Mins");
    assert Get(r, "Time_to_A1_Mins") == Get(r', "Time_to_A1_Mins");
    assert Get(r, "A1_to_PS2_Mins") == Get(r', "A1_to_PS2_Mins");
  }

  function Patient(score: string, ps1: Value, a1: Value, a1ToPs2: Value): Row {
    map["First Pain Score" := Text(score), "Time_to_PS1_Mins" := ps1, "Time_to_A1_Mins" := a1, "A1_to_PS2_Mins" := a1ToPs2]
  }

  lemma VerdictExamples()
    ensures MeetsBestPractice(Patient("Sev Pain", Num(10), Num(15), Num(15)))
    ensures !MeetsBestPractice(Patient("Sev Pain", Num(10), Num(15), Num(16)))
    ensures !MeetsBestPractice(Patient("Sev Pain", Num(10), Num(15), Num(0)))
    ensures MeetsBestPractice(Patient("Mod Pain", Num(15), Num(5), Num(30)))
    ensures !MeetsBestPractice(Patient("Mod Pain", Num(15), Num(5), Num(31)))
    ensures !MeetsBestPractice(Patient("Mod Pain", Null, Num(5), Num(20)))
    ensures !MeetsBestPractice(Patient("Mild Pain", Num(1), Num(1), Num(1)))
  {
  }

  // ---------------------------------------------------------------------------
  // The Sankey funnel
  // ---------------------------------------------------------------------------

  function MarkedYes(r: Row): bool {
    Get(r, "Best_Practice") == Text("Yes")
  }

  function MarkedNo(r: Row): bool {
    Get(r, "Best_Practice") == Text("No")
  }

  function SeverePS1(r: Row): bool { IsSevere(r) && PS1InTime(r) }
  function ModeratePS1(r: Row): bool { IsModerate(r) && PS1InTime(r) }
  function SeverePS1A1(r: Row): bool { IsSevere(r) && PS1InTime(r) && A1InTime(r) }
  function ModeratePS1A1(r: Row): bool { IsModerate(r) && PS1InTime(r) && A1InTime(r) }
  function SevereBest(r: Row): bool { IsSevere(r) && MarkedYes(r) }
  function ModerateBest(r: Row): bool { IsModerate(r) && MarkedYes(r) }

  /** The dictionary returned beside the table. */
  datatype Funnel = Funnel(
    labels: seq<string>,
    source: seq<nat>,
    target: seq<nat>,
    value: seq<int>,
    totalPatients: nat,
    bestPracticeYes: nat,
    bestPracticeNo: nat)

  /** The node names; a label is its name followed by the count in parentheses. */
  const NodeNames: seq<string> := [
    "Total Patients",
    "PS1 <= 15 Mins",
    "PS1 > 15 Mins",
    "Severe Pain (PS1 <= 15 Mins)",
    "Moderate Pain (PS1 <= 15 Mins)",
    "Sev Pain (PS1 & A1 <= 15 Mins)",
    "Mod Pain (PS1 & A1 <= 15 Mins)",
    "Sev Pain (PS1&A1>15Mins)",
    "Mod Pain (PS1&A1>15Mins)",
    "Severe Pain Best Practice",
    "Moderate Pain Best Practice",
    "Sev Pain (No Best Practice)",
    "Mod Pain (No Best Practice)"
  ]

  const Sources: seq<nat> := [0, 0, 1, 1, 3, 3, 4, 4, 5, 5, 6, 6]
  const Targets: seq<nat> := [1, 2, 3, 4, 5, 7, 6, 8, 9, 11, 10, 12]

  /** f"{name} ({n})". */
  function Label(name: string, n: int): string {
    name + " (" + IntToString(n) + ")"
  }

  /** The row counts the funnel is built from. */
  datatype Tally = Tally(total: nat, ps1: nat, sev: nat, mod: nat, sevA1: nat, modA1: nat,
                         sevBest: nat, modBest: nat, yes: nat, no: nat)

  function TallyOf(rows: seq<Row>): Tally {
    Tally(|rows|, Count(rows, PS1InTime), Count(rows, SeverePS1), Count(rows, ModeratePS1),
          Count(rows, SeverePS1A1), Count(rows, ModeratePS1A1), Count(rows, SevereBest),
          Count(rows, ModerateBest), Count(rows, MarkedYes), Count(rows, MarkedNo))
  }

  /** The count shown on each of the thirteen nodes. */
  function NodeCounts(t: Tally): seq<int> {
    [t.total, t.ps1, t.total - t.ps1, t.sev, t.mod, t.sevA1, t.modA1, t.sev - t.sevA1, t.mod - t.modA1,
     t.sevBest, t.modBest, t.sevA1 - t.sevBest, t.modA1 - t.modBest]
  }

  /** The value of each of the twelve links. */
  function Flows(t: Tally): seq<int> {
    [t.ps1, t.total - t.ps1, t.sev, t.mod, t.sevA1, t.sev - t.sevA1, t.modA1, t.mod - t.modA1,
     t.sevBest, t.sevA1 - t.sevBest, t.modBest, t.modA1 - t.modBest]
  }

  /** The Sankey data of a table that already holds Best_Practice. */
  function FunnelOf(rows: seq<Row>): (fn: Funnel)
    ensures |fn.labels| == 13 && |fn.source| == 12 && |fn.target| == 12 && |fn.value| == 12
  {
    var t := TallyOf(rows);
    var counts := NodeCounts(t);
    Funnel(seq(13, k requires 0 <= k < 13 => Label(NodeNames[k], counts[k])), Sources, Targets, Flows(t),
           t.total, t.yes, t.no)
  }

  /** The links form a tree on the thirteen nodes: every link goes forward from a node to a
      later one, and every node but the root is the target of exactly one link. */
  lemma FunnelShape(rows: seq<Row>)
    ensures var fn := FunnelOf(rows);
      && (forall k :: 0 <= k < 12 ==> fn.source[k] < fn.target[k] < 13)
      && (forall k, l :: 0 <= k < l < 12 ==> fn.target[k] != fn.target[l])
      && (forall n :: 1 <= n < 13 ==> n in fn.target)
  {
    LinksFormTree();
    assert FunnelOf(rows).source == Sources && FunnelOf(rows).target == Targets;
  }

  lemma LinksFormTree()
    ensures forall k :: 0 <= k < 12 ==> Sources[k] < Targets[k] < 13
    ensures forall k, l :: 0 <= k < l < 12 ==> Targets[k] != Targets[l]
    ensures forall n :: 1 <= n < 13 ==> n in Targets
  {
    assert forall n :: 1 <= n < 13 ==> Targets[[0, 0, 1, 2, 3, 4, 6, 5, 7, 8, 10, 9, 11][n]] == n;
  }

  /** The count on each link's target node is the link's value. */
  lemma CountsMatchFlows(t: Tally)
    ensures forall k :: 0 <= k < 12 ==> NodeCounts(t)[Targets[k]] == Flows(t)[k]
  {
  }

  /** Each node's label shows the flow into it; the root shows the patient count. */
  lemma FunnelLabelsShowFlows(rows: seq<Row>)
    ensures var fn := FunnelOf(rows);
      && fn.labels[0] == Label(NodeNames[0], |rows|)
      && forall k :: 0 <= k < 12 ==> fn.labels[fn.target[k]] == Label(NodeNames[fn.target[k]], fn.value[k])
  {
    var t := TallyOf(rows);
    var fn := FunnelOf(rows);
    CountsMatchFlows(t);
    LinksFormTree();
    assert fn.value == Flows(t) && fn.target == Targets;
    forall k | 0 <= k < 12
      ensures fn.labels[fn.target[k]] == Label(NodeNames[fn.target[k]], fn.value[k])
    {
      assert fn.labels[Targets[k]] == Label(NodeNames[Targets[k]], NodeCounts(t)[Targets[k]]);
    }
  }

  /** The table's Best_Practice column agrees with the verdict on every row. */
  predicate Marked(rows: seq<Row>) {
    forall i :: 0 <= i < |rows| ==>
      && (MarkedYes(rows[i]) <==> MeetsBestPractice(rows[i]))
      && (MarkedNo(rows[i]) <==> !MeetsBestPractice(rows[i]))
  }

  /** How the counts nest: each node holds no more than its parent, the two severity nodes
      together hold no more than PS1 <= 15, Yes and No partition the patients, and every Yes
      is a severe or a moderate best-practice patient. */
  lemma TallyNesting(rows: seq<Row>)
    requires Marked(rows)
    ensures var t := TallyOf(rows);
      && t.ps1 <= t.total
      && t.sevA1 <= t.sev && t.modA1 <= t.mod
      && t.sevBest <= t.sevA1 && t.modBest <= t.modA1
      && t.sev + t.mod <= t.ps1
      && t.yes + t.no == t.total
      && t.sevBest + t.modBest == t.yes
  {
    CountMonotone(rows, SeverePS1A1, SeverePS1);
    CountMonotone(rows, ModeratePS1A1, ModeratePS1);
    CountMonotone(rows, SevereBest, SeverePS1A1);
    CountMonotone(rows, ModerateBest, ModeratePS1A1);
    CountDisjoint(rows, SeverePS1, ModeratePS1, PS1InTime);
    CountComplement(rows, MarkedYes, MarkedNo);
    CountSplit(rows, SevereBest, ModerateBest, MarkedYes);
  }

  /** Flows are conserved at every split, no flow is negative, the two first-level branches
      together hold no more than the PS1 <= 15 node, and the two best-practice nodes together
      hold every Yes, with Yes and No adding up to the patient count. */
  lemma FunnelConservation(rows: seq<Row>)
    requires Marked(rows)
    ensures var fn := FunnelOf(rows);
      && fn.value[0] + fn.value[1] == fn.totalPatients == |rows|
      && fn.value[4] + fn.value[5] == fn.value[2]
      && fn.value[6] + fn.value[7] == fn.value[3]
      && fn.value[8] + fn.value[9] == fn.value[4]
      && fn.value[10] + fn.value[11] == fn.value[6]
      && (forall k :: 0 <= k < 12 ==> fn.value[k] >= 0)
      && fn.value[2] + fn.value[3] <= fn.value[0]
      && fn.bestPracticeYes + fn.bestPracticeNo == fn.totalPatients
      && fn.value[8] + fn.value[10] == fn.bestPracticeYes
  {
    TallyNesting(rows);
  }

  /** The first-level branches need not add up: a mild-pain patient seen within 15 minutes
      counts in PS1 <= 15 but in neither severity node. */
  lemma FunnelLevelTwoExample()
    ensures var fn := FunnelOf([Patient("Mild Pain", Num(5), Num(5), Num(5))]);
      fn.value[0] == 1 && fn.value[2] + fn.value[3] == 0
  {
    var r := Patient("Mild Pain", Num(5), Num(5), Num(5));
    assert [r][1..] == [];
    assert PS1InTime(r) && !SeverePS1(r) && !ModeratePS1(r);
  }

  // ---------------------------------------------------------------------------
  // calculate_best_practice
  // ---------------------------------------------------------------------------

  /** The columns the verdict reads, in the order the source first reads them. */
  const VerdictInputs: seq<string> := ["First Pain Score", "Time_to_A1_Mins", "A1_to_PS2_Mins", "Time_to_PS1_Mins"]

  function VerdictCell(r: Row): Value {
    Text(if MeetsBestPractice(r) then "Yes" else "No")
  }

  lemma BestPracticeNameFresh()
    ensures "Best_Practice" !in VerdictInputs
  {
    assert |"Best_Practice"| == 13;
  }

  /** np.where(best practice, 'Yes', 'No') as a series. */
  function VerdictColumn(f: Frame): (col: seq<Value>)
    ensures |col| == |f.rows|
    ensures forall i :: 0 <= i < |f.rows| ==> col[i] == VerdictCell(f.rows[i])
  {
    seq(|f.rows|, i requires 0 <= i < |f.rows| => VerdictCell(f.rows[i]))
  }

  /** calculate_best_practice: a KeyError on the first verdict input that is absent; otherwise
      Best_Practice is Yes exactly for the rows meeting the rule and No for the rest, and the
      funnel counts the patients and the Yes and No verdicts. */
  function CalculateBestPractice(f: Frame): (r: Result<(Frame, Funnel), Error>)
    ensures r.Err? <==> exists c :: c in VerdictInputs && c !in f.columns
    ensures r.Err? ==> r.error.MissingColumn? && r.error.name in VerdictInputs && r.error.name !in f.columns
    ensures r.Ok? ==> (WellFormed(f) ==> WellFormed(r.value.0))
    ensures r.Ok? ==> forall c :: c in r.value.0.columns <==> c in f.columns || c == "Best_Practice"
    ensures r.Ok? ==> |r.value.0.rows| == |f.rows|
    ensures r.Ok? ==> forall i :: 0 <= i < |f.rows| ==>
      Get(r.value.0.rows[i], "Best_Practice") == Text(if MeetsBestPractice(f.rows[i]) then "Yes" else "No")
    ensures r.Ok? ==> forall i, c :: 0 <= i < |f.rows| && c != "Best_Practice" ==>
      Get(r.value.0.rows[i], c) == Get(f.rows[i], c)
    ensures r.Ok? ==> Marked(r.value.0.rows)
    ensures r.Ok? ==> r.value.1 == FunnelOf(r.value.0.rows)
    ensures r.Ok? ==> r.value.1.totalPatients == |f.rows|
    ensures r.Ok? ==> r.value.1.bestPracticeYes == Count(f.rows, MeetsBestPractice)
  {
    var missing := MissingColumns(VerdictInputs, f.columns);
    if missing != [] then
      assert missing[0] in missing;
      Err(MissingColumn(missing[0]))
    else
      var g := Assign(f, "Best_Practice", VerdictColumn(f));
      BestPracticeNameFresh();
      assert Marked(g.rows) by {
        forall i | 0 <= i < |g.rows|
          ensures MeetsBestPractice(g.rows[i]) == MeetsBestPractice(f.rows[i])
        {
          VerdictReadsFourColumns(g.rows[i], f.rows[i]);
        }
      }
      CountAgree(g.rows, f.rows, MarkedYes, MeetsBestPractice);
      Ok((g, FunnelOf(g.rows)))
  }
}
