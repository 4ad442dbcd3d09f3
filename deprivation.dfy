/** Deprivation enrichment: the postcode join key built identically on both sides
    (load_imd_data and create_join_keys), the decile-to-quintile mapping, and the
    left join of merge_with_imd_data. */
module Deprivation {
  import opened Wrappers
  import opened Text
  import opened Timestamps
  import opened Frames

  // ---------------------------------------------------------------------------
  // Join keys
  // ---------------------------------------------------------------------------

  /** Series.astype(str) of one cell: a missing cell becomes the text "nan". */
  function AsStr(v: Value): string {
    match v
    case Null => "nan"
    case Text(s) => s
    case Num(n) => IntToString(n)
    case Stamp(t) => IsoString(t)
  }

  /** .astype(str).str.upper().str.replace(' ', ''): the key both sides are joined on. */
  function PostcodeKey(v: Value): string {
    RemoveSpaces(Upper(AsStr(v)))
  }

  /** A key is its own key: normalising twice changes nothing. */
  lemma PostcodeKeyIdempotent(v: Value)
    ensures PostcodeKey(Text(PostcodeKey(v))) == PostcodeKey(v)
  {
    NormaliseIdempotent(AsStr(v));
  }

  /** Spaces anywhere in a postcode do not change its key. */
  lemma PostcodeKeyIgnoresSpace(a: string, b: string)
    ensures PostcodeKey(Text(a + " " + b)) == PostcodeKey(Text(a + b))
  {
    NormaliseIgnoresSpace(a, b);
  }

  /** Letter case does not change a key. */
  lemma PostcodeKeyIgnoresCase(s: string)
    ensures PostcodeKey(Text(Lower(s))) == PostcodeKey(Text(s))
  {
    assert Upper(Lower(s)) == Upper(s);
  }

  /** A missing postcode is keyed "NAN" (so it matches a reference row whose postcode is missing). */
  lemma NullPostcodeKey()
    ensures PostcodeKey(Null) == "NAN"
  {
    assert Upper("nan") == "NAN";
  }

  // ---------------------------------------------------------------------------
  // Reference table (load_imd_data)
  // ---------------------------------------------------------------------------

  /** One row of the reference CSV, restricted to the two columns read (usecols). */
  datatype ImdRow = ImdRow(postcode: Value, decile: Option<int>)

  /** One row of the loaded reference table: Postcode_Gov, IMD_Decile and Join_Key. */
  datatype ImdEntry = ImdEntry(postcodeGov: Value, decile: Option<int>, joinKey: string)

  /** load_imd_data once the CSV has been read; None stands for any read failure
      (missing file, missing column, parse error), which yields the empty table. */
  function LoadImdData(read: Option<seq<ImdRow>>): (t: seq<ImdEntry>)
    ensures read.None? ==> t == []
    ensures read.Some? ==> |t| == |read.value| && forall i :: 0 <= i < |t| ==>
      t[i].postcodeGov == read.value[i].postcode && t[i].decile == read.value[i].decile
      && t[i].joinKey == PostcodeKey(read.value[i].postcode)
  {
    match read
    case None => []
    case Some(rows) =>
      seq(|rows|, i requires 0 <= i < |rows| => ImdEntry(rows[i].postcode, rows[i].decile, PostcodeKey(rows[i].postcode)))
  }

  // ---------------------------------------------------------------------------
  // Quintiles (map_quintile)
  // ---------------------------------------------------------------------------

  const QuintileLabels: seq<string> := ["1 - Most Deprived", "2", "3", "4", "5 - Least Deprived"]

  /** map_quintile: total; a missing decile is 'Unknown'. */
  function MapQuintile(decile: Option<int>): (q: string)
    ensures q == "Unknown" <==> decile.None?
    ensures q in QuintileLabels || q == "Unknown"
  {
    match decile
    case None => "Unknown"
    case Some(d) =>
      if d <= 2 then "1 - Most Deprived"
      else if d <= 4 then "2"
      else if d <= 6 then "3"
      else if d <= 8 then "4"
      else "5 - Least Deprived"
  }

  /** Ordinal of a quintile label (1 most deprived .. 5 least deprived), 0 for 'Unknown'. */
  function QuintileRank(q: string): int {
    if q == "1 - Most Deprived" then 1 else if q == "2" then 2 else if q == "3" then 3
    else if q == "4" then 4 else if q == "5 - Least Deprived" then 5 else 0
  }

  /** Deciles pair up into quintiles: deciles 2k-1 and 2k form quintile k. */
  lemma QuintilePairsDeciles(d: int)
    requires 1 <= d <= 10
    ensures MapQuintile(Some(d)) == QuintileLabels[(d - 1) / 2]
    ensures QuintileRank(MapQuintile(Some(d))) == (d + 1) / 2
  {
  }

  /** The quintile never decreases as the decile grows, and out-of-range deciles
      fall into the extreme quintiles. */
  lemma QuintileMonotone(a: int, b: int)
    requires a <= b
    ensures 1 <= QuintileRank(MapQuintile(Some(a))) <= QuintileRank(MapQuintile(Some(b))) <= 5
  {
  }

  lemma QuintileExamples()
    ensures MapQuintile(Some(1)) == "1 - Most Deprived"
    ensures MapQuintile(Some(5)) == "3"
    ensures MapQuintile(Some(10)) == "5 - Least Deprived"
    ensures MapQuintile(None) == "Unknown"
  {
  }

  // ---------------------------------------------------------------------------
  // create_join_keys and the left join
  // ---------------------------------------------------------------------------

  function KeyColumn(f: Frame): (col: seq<Value>)
    ensures |col| == |f.rows|
    ensures forall i :: 0 <= i < |f.rows| ==> col[i] == Text(PostcodeKey(Get(f.rows[i], "Postcode")))
  {
    seq(|f.rows|, i requires 0 <= i < |f.rows| => Text(PostcodeKey(Get(f.rows[i], "Postcode"))))
  }

  /** create_join_keys: df['Join_Key'] from df['Postcode']; a KeyError when there is no Postcode column. */
  function CreateJoinKeys(f: Frame): (r: Result<Frame, Error>)
    ensures r.Err? <==> "Postcode" !in f.columns
    ensures r.Ok? ==> WellFormed(f) ==> WellFormed(r.value)
    ensures r.Ok? ==> forall c :: c in r.value.columns <==> c in f.columns || c == "Join_Key"
    ensures r.Ok? ==> |r.value.rows| == |f.rows|
    ensures r.Ok? ==> forall i :: 0 <= i < |f.rows| ==>
      Get(r.value.rows[i], "Join_Key") == Text(PostcodeKey(Get(f.rows[i], "Postcode")))
    ensures r.Ok? ==> forall i, c :: 0 <= i < |f.rows| && c != "Join_Key" ==>
      Get(r.value.rows[i], c) == Get(f.rows[i], c)
  {
    if "Postcode" !in f.columns then Err(MissingColumn("Postcode"))
    else Ok(Assign(f, "Join_Key", KeyColumn(f)))
  }

  /** The deciles of the reference rows whose key equals key, in reference order. */
  function Matches(imd: seq<ImdEntry>, key: Value): (ms: seq<Option<int>>)
    ensures |ms| <= |imd|
  {
    if imd == [] then []
    else (if Text(imd[0].joinKey) == key then [imd[0].decile] else []) + Matches(imd[1..], key)
  }

  /** The output rows of one left row: one per matching reference row, or one with a missing decile. */
  function JoinRow(r: Row, imd: seq<ImdEntry>): (out: seq<Row>)
    ensures |out| >= 1
    ensures forall k :: 0 <= k < |out| ==> out[k] - {"IMD_Decile"} == r - {"IMD_Decile"} && "IMD_Decile" in out[k]
    ensures var ms := Matches(imd, Get(r, "Join_Key"));
      |out| == (if ms == [] then 1 else |ms|) &&
      forall k :: 0 <= k < |out| ==> Get(out[k], "IMD_Decile") == (if ms == [] then Null else NumCell(ms[k]))
  {
    var ms := Matches(imd, Get(r, "Join_Key"));
    if ms == [] then [r["IMD_Decile" := Null]]
    else seq(|ms|, k requires 0 <= k < |ms| => r["IMD_Decile" := NumCell(ms[k])])
  }

  /** A joined row is one of the left rows, apart from its IMD_Decile cell. */
  predicate ComesFrom(row: Row, rows: seq<Row>) {
    exists i :: 0 <= i < |rows| && row - {"IMD_Decile"} == rows[i] - {"IMD_Decile"}
  }

  /** df.merge(imd[['Join_Key', 'IMD_Decile']], on='Join_Key', how='left'): left rows in order,
      each expanded into its matches. */
  function LeftJoin(rows: seq<Row>, imd: seq<ImdEntry>): (out: seq<Row>)
    ensures |out| >= |rows|
    ensures forall j :: 0 <= j < |out| ==> ComesFrom(out[j], rows)
    ensures forall j :: 0 <= j < |out| ==> "IMD_Decile" in out[j]
  {
    if rows == [] then []
    else
      var head := JoinRow(rows[0], imd);
      var tail := LeftJoin(rows[1..], imd);
      LeftJoinStep(rows, head, tail);
      head + tail
  }

  /** The rows of the first patient followed by the join of the others come from the patients. */
  lemma LeftJoinStep(rows: seq<Row>, head: seq<Row>, tail: seq<Row>)
    requires rows != []
    requires forall k :: 0 <= k < |head| ==> head[k] - {"IMD_Decile"} == rows[0] - {"IMD_Decile"}
    requires forall j :: 0 <= j < |tail| ==> ComesFrom(tail[j], rows[1..])
    ensures forall j :: 0 <= j < |head + tail| ==> ComesFrom((head + tail)[j], rows)
  {
    forall j | 0 <= j < |head + tail|
      ensures ComesFrom((head + tail)[j], rows)
    {
      if j < |head| {
        assert (head + tail)[j] == head[j];
        assert (head + tail)[j] - {"IMD_Decile"} == rows[0] - {"IMD_Decile"};
      } else {
        assert (head + tail)[j] == tail[j - |head|];
        var t :| 0 <= t < |rows[1..]| && tail[j - |head|] - {"IMD_Decile"} == rows[1..][t] - {"IMD_Decile"};
        assert rows[1..][t] == rows[t + 1];
        assert (head + tail)[j] - {"IMD_Decile"} == rows[t + 1] - {"IMD_Decile"};
      }
    }
  }

  /** The blocks laid end to end. */
  function Concat<T>(bs: seq<seq<T>>): seq<T> {
    if bs == [] then [] else bs[0] + Concat(bs[1..])
  }

  /** Where block i starts in Concat(bs): the total length of the blocks before it. */
  function Start<T>(bs: seq<seq<T>>, i: nat): nat
    requires i <= |bs|
  {
    if i == 0 then 0 else |bs[0]| + Start(bs[1..], i - 1)
  }

  lemma {:induction false} StartStep<T>(bs: seq<seq<T>>, i: nat)
    requires i < |bs|
    ensures Start(bs, i + 1) == Start(bs, i) + |bs[i]|
  {
    if i > 0 {
      StartStep(bs[1..], i - 1);
    }
  }

  lemma {:induction false} ConcatLength<T>(bs: seq<seq<T>>)
    ensures |Concat(bs)| == Start(bs, |bs|)
  {
    if bs != [] {
      ConcatLength(bs[1..]);
    }
  }

  lemma {:induction false} ConcatBlock<T>(bs: seq<seq<T>>, i: nat, k: nat)
    requires i < |bs| && k < |bs[i]|
    ensures Start(bs, i) + k < |Concat(bs)|
    ensures Concat(bs)[Start(bs, i) + k] == bs[i][k]
  {
    if i > 0 {
      ConcatBlock(bs[1..], i - 1, k);
      assert (bs[0] + Concat(bs[1..]))[|bs[0]| + Start(bs[1..], i - 1) + k] == Concat(bs[1..])[Start(bs[1..], i - 1) + k];
    }
  }

  /** The join of each left row with the reference table, in left order. */
  function Blocks(rows: seq<Row>, imd: seq<ImdEntry>): (bs: seq<seq<Row>>)
    ensures |bs| == |rows| && forall i :: 0 <= i < |rows| ==> bs[i] == JoinRow(rows[i], imd)
  {
    seq(|rows|, i requires 0 <= i < |rows| => JoinRow(rows[i], imd))
  }

  /** The left join is the blocks of the left rows laid end to end, in left order. */
  lemma {:induction false} LeftJoinConcat(rows: seq<Row>, imd: seq<ImdEntry>)
    ensures LeftJoin(rows, imd) == Concat(Blocks(rows, imd))
  {
    if rows != [] {
      LeftJoinConcat(rows[1..], imd);
      var bs := Blocks(rows, imd);
      assert bs[1..] == Blocks(rows[1..], imd) by {
        forall j | 0 <= j < |rows| - 1 ensures bs[1..][j] == Blocks(rows[1..], imd)[j] {
          assert rows[1..][j] == rows[j + 1];
        }
      }
    }
  }

  /** The number of joined rows produced by the first i left rows. */
  function JoinedBefore(rows: seq<Row>, imd: seq<ImdEntry>, i: nat): nat
    requires i <= |rows|
  {
    Start(Blocks(rows, imd), i)
  }

  /** The block of each left row starts where the block of the row before it ends. */
  lemma JoinedBeforeStep(rows: seq<Row>, imd: seq<ImdEntry>, i: nat)
    requires i < |rows|
    ensures JoinedBefore(rows, imd, i + 1) == JoinedBefore(rows, imd, i) + |JoinRow(rows[i], imd)|
  {
    StartStep(Blocks(rows, imd), i);
  }

  /** The join holds exactly the blocks of all left rows. */
  lemma LeftJoinLength(rows: seq<Row>, imd: seq<ImdEntry>)
    ensures |LeftJoin(rows, imd)| == JoinedBefore(rows, imd, |rows|)
  {
    LeftJoinConcat(rows, imd);
    ConcatLength(Blocks(rows, imd));
  }

  /** Left row i, in left order, becomes the block of rows starting at JoinedBefore(rows, imd, i):
      row k of that block is row k of its join with the reference table. */
  lemma LeftJoinBlock(rows: seq<Row>, imd: seq<ImdEntry>, i: nat, k: nat)
    requires i < |rows| && k < |JoinRow(rows[i], imd)|
    ensures JoinedBefore(rows, imd, i) + k < |LeftJoin(rows, imd)|
    ensures LeftJoin(rows, imd)[JoinedBefore(rows, imd, i) + k] == JoinRow(rows[i], imd)[k]
  {
    var bs := Blocks(rows, imd);
    LeftJoinConcat(rows, imd);
    ConcatBlock(bs, i, k);
    assert JoinedBefore(rows, imd, i) == Start(bs, i);
    var row := Concat(bs)[Start(bs, i) + k];
    assert row == bs[i][k];
    assert LeftJoin(rows, imd)[JoinedBefore(rows, imd, i) + k] == row;
  }

  function QuintileColumn(f: Frame): (col: seq<Value>)
    ensures |col| == |f.rows|
    ensures forall i :: 0 <= i < |f.rows| ==> col[i] == Text(MapQuintile(AsDecile(Get(f.rows[i], "IMD_Decile"))))
  {
    seq(|f.rows|, i requires 0 <= i < |f.rows| => Text(MapQuintile(AsDecile(Get(f.rows[i], "IMD_Decile")))))
  }

  /** A decile cell as map_quintile sees it (a missing cell is NaN). */
  function AsDecile(v: Value): Option<int> {
    if v.Num? then Some(v.n) else None
  }

  const ScaffoldColumns: set<string> := {"Postcode", "Join_Key", "Postcode_Gov"}

  /** The two IMD columns are not scaffolding (the names differ in their first letter). */
  lemma ScaffoldNames()
    ensures "IMD_Decile" !in ScaffoldColumns && "IMD_Quintile" !in ScaffoldColumns
    ensures "IMD_Decile" != "IMD_Quintile"
  {
    assert "IMD_Quintile"[0] == 'I' && "IMD_Decile"[0] == 'I' && "IMD_Decile"[4] == 'D' && "IMD_Quintile"[4] == 'Q';
    assert "Postcode"[0] == 'P' && "Postcode_Gov"[0] == 'P' && "Join_Key"[0] == 'J';
  }

  /** The frame right after the left join: the left columns then IMD_Decile. */
  function Joined(f: Frame, imd: seq<ImdEntry>): (g: Frame)
    requires WellFormed(f) && "IMD_Decile" !in f.columns
    ensures WellFormed(g)
    ensures g.columns == f.columns + ["IMD_Decile"] && g.rows == LeftJoin(f.rows, imd)
  {
    MergedWellFormed(f, imd);
    Frame(f.columns + ["IMD_Decile"], LeftJoin(f.rows, imd))
  }

  /** df['IMD_Quintile'] = df['IMD_Decile'].apply(map_quintile). */
  function WithQuintile(g: Frame): (h: Frame)
    requires WellFormed(g)
    ensures WellFormed(h)
    ensures forall c :: c in h.columns <==> c in g.columns || c == "IMD_Quintile"
    ensures |h.rows| == |g.rows|
    ensures forall j :: 0 <= j < |h.rows| ==>
      Get(h.rows[j], "IMD_Quintile") == Text(MapQuintile(AsDecile(Get(g.rows[j], "IMD_Decile"))))
    ensures forall j, c :: 0 <= j < |h.rows| && c != "IMD_Quintile" ==> Get(h.rows[j], c) == Get(g.rows[j], c)
  {
    Assign(g, "IMD_Quintile", QuintileColumn(g))
  }

  /** The join, the quintile column and the drop of the scaffolding columns, in that order. */
  function Enrich(f: Frame, imd: seq<ImdEntry>): (g: Frame)
    requires WellFormed(f) && "IMD_Decile" !in f.columns
    ensures WellFormed(g)
    ensures forall c :: c in g.columns <==>
      (c in f.columns && c !in ScaffoldColumns) || c == "IMD_Decile" || c == "IMD_Quintile"
    ensures |g.rows| == |LeftJoin(f.rows, imd)|
    ensures forall j :: 0 <= j < |g.rows| ==>
      Get(g.rows[j], "IMD_Quintile") == Text(MapQuintile(AsDecile(Get(g.rows[j], "IMD_Decile"))))
    ensures forall j, c :: 0 <= j < |g.rows| && c !in ScaffoldColumns && c != "IMD_Quintile" ==>
      Get(g.rows[j], c) == Get(LeftJoin(f.rows, imd)[j], c)
  {
    ScaffoldNames();
    var joined := Joined(f, imd);
    assert forall c :: c in joined.columns <==> c in f.columns || c == "IMD_Decile";
    QuintileThenDrop(joined);
    Drop(WithQuintile(joined), ScaffoldColumns)
  }

  /** The quintile column then the drop of the scaffolding: every row keeps its cells outside
      the scaffolding and IMD_Quintile, and its quintile is that of its decile. */
  lemma QuintileThenDrop(joined: Frame)
    requires WellFormed(joined)
    ensures var g := Drop(WithQuintile(joined), ScaffoldColumns);
      && |g.rows| == |joined.rows|
      && (forall j :: 0 <= j < |g.rows| ==>
            Get(g.rows[j], "IMD_Quintile") == Text(MapQuintile(AsDecile(Get(g.rows[j], "IMD_Decile")))))
      && (forall j, c :: 0 <= j < |g.rows| && c !in ScaffoldColumns && c != "IMD_Quintile" ==>
            Get(g.rows[j], c) == Get(joined.rows[j], c))
  {
    ScaffoldNames();
    var q := WithQuintile(joined);
    var g := Drop(q, ScaffoldColumns);
    forall k | 0 <= k < |g.rows|
      ensures Get(g.rows[k], "IMD_Quintile") == Text(MapQuintile(AsDecile(Get(g.rows[k], "IMD_Decile"))))
    {
      assert Get(g.rows[k], "IMD_Quintile") == Get(q.rows[k], "IMD_Quintile");
      assert Get(g.rows[k], "IMD_Decile") == Get(q.rows[k], "IMD_Decile") == Get(joined.rows[k], "IMD_Decile");
    }
    forall k, c | 0 <= k < |g.rows| && c !in ScaffoldColumns && c != "IMD_Quintile"
      ensures Get(g.rows[k], c) == Get(joined.rows[k], c)
    {
      assert Get(g.rows[k], c) == Get(q.rows[k], c);
    }
  }

  /** merge_with_imd_data. With a non-empty reference table: left join on Join_Key,
      IMD_Quintile from IMD_Decile, then Postcode, Join_Key and Postcode_Gov dropped.
      Otherwise every row gets IMD_Quintile = 'Unknown'. */
  function MergeWithImdData(f: Frame, imd: Option<seq<ImdEntry>>): (r: Result<Frame, Error>)
    requires WellFormed(f)
    ensures r.Ok? ==> WellFormed(r.value)
    // reference table absent or empty: only IMD_Quintile = 'Unknown' is added
    ensures (imd.None? || imd.value == []) ==> r.Ok?
    ensures (imd.None? || imd.value == []) && r.Ok? ==>
      forall c :: c in r.value.columns <==> c in f.columns || c == "IMD_Quintile"
    ensures (imd.None? || imd.value == []) && r.Ok? ==> |r.value.rows| == |f.rows|
    ensures (imd.None? || imd.value == []) && r.Ok? ==>
      forall i :: 0 <= i < |f.rows| ==> Get(r.value.rows[i], "IMD_Quintile") == Text("Unknown")
    ensures (imd.None? || imd.value == []) && r.Ok? ==>
      forall i, c :: 0 <= i < |f.rows| && c != "IMD_Quintile" ==> Get(r.value.rows[i], c) == Get(f.rows[i], c)
    // reference table present: the merge raises, or it replaces the scaffolding by the two IMD columns
    ensures imd.Some? && imd.value != [] ==> (r.Ok? <==> "Join_Key" in f.columns && "IMD_Decile" !in f.columns)
    ensures imd.Some? && imd.value != [] && r.Ok? ==>
      forall c :: c in r.value.columns <==>
        (c in f.columns && c !in ScaffoldColumns) || c == "IMD_Decile" || c == "IMD_Quintile"
    ensures imd.Some? && imd.value != [] && r.Ok? ==> |r.value.rows| >= |f.rows|
    ensures imd.Some? && imd.value != [] && r.Ok? ==>
      forall j :: 0 <= j < |r.value.rows| ==>
        Get(r.value.rows[j], "IMD_Quintile") == Text(MapQuintile(AsDecile(Get(r.value.rows[j], "IMD_Decile"))))
  {
    if imd.Some? && |imd.value| > 0 then
      if "Join_Key" !in f.columns then Err(MissingColumn("Join_Key"))
      // an IMD_Decile already on the left is suffixed _x/_y by the merge, so df['IMD_Decile'] raises
      else if "IMD_Decile" in f.columns then Err(MissingColumn("IMD_Decile"))
      else Ok(Enrich(f, imd.value))
    else
      Ok(Assign(f, "IMD_Quintile", Filled(f, Text("Unknown"))))
  }

  /** The merge keeps every column but the scaffolding and adds only the two IMD columns. */
  lemma MergeColumns(f: Frame, imd: Option<seq<ImdEntry>>)
    requires WellFormed(f) && MergeWithImdData(f, imd).Ok?
    ensures forall c :: c in MergeWithImdData(f, imd).value.columns ==> c in f.columns || c == "IMD_Decile" || c == "IMD_Quintile"
    ensures forall c :: c in f.columns && c !in ScaffoldColumns ==> c in MergeWithImdData(f, imd).value.columns
  {
  }

  lemma MergedWellFormed(f: Frame, imd: seq<ImdEntry>)
    requires WellFormed(f) && "IMD_Decile" !in f.columns
    ensures WellFormed(Frame(f.columns + ["IMD_Decile"], LeftJoin(f.rows, imd)))
  {
    var cols := f.columns + ["IMD_Decile"];
    var out := LeftJoin(f.rows, imd);
    assert (set c | c in cols) == (set c | c in f.columns) + {"IMD_Decile"};
    assert Distinct(cols) by {
      assert forall k :: 0 <= k < |f.columns| ==> cols[k] == f.columns[k];
    }
    forall j | 0 <= j < |out|
      ensures out[j].Keys == set c | c in cols
    {
      var i :| 0 <= i < |f.rows| && out[j] - {"IMD_Decile"} == f.rows[i] - {"IMD_Decile"};
      assert "IMD_Decile" !in f.rows[i].Keys;
      assert (f.rows[i] - {"IMD_Decile"}).Keys == f.rows[i].Keys;
      assert out[j].Keys == (out[j] - {"IMD_Decile"}).Keys + {"IMD_Decile"};
    }
  }

  /** The number of reference rows sharing a key, or 1 when none does: the size of the block
      a patient row with that key becomes. */
  function BlockSize(imd: seq<ImdEntry>, key: Value): (n: nat)
    ensures n >= 1
  {
    var ms := Matches(imd, key);
    if ms == [] then 1 else |ms|
  }

  /** The decile row k of a block receives: the k-th matching decile, missing when none matched. */
  function BlockDecile(imd: seq<ImdEntry>, key: Value, k: nat): Option<int>
    requires k < BlockSize(imd, key)
  {
    var ms := Matches(imd, key);
    if ms == [] then None else ms[k]
  }

  /** The merge with a non-empty reference table, patient by patient and for any keys: patient i,
      in patient order, becomes a block of BlockSize rows starting at JoinedBefore(f.rows, imd, i),
      one row per reference row sharing its key (in reference order) or one row when none does;
      row k of the block carries the k-th matching decile (missing when none matched), the
      quintile of that decile, and the patient's cells in every column other than the scaffolding. */
  lemma MergeRows(f: Frame, imd: seq<ImdEntry>, i: nat, k: nat)
    requires WellFormed(f) && imd != [] && "Join_Key" in f.columns && "IMD_Decile" !in f.columns
    requires i < |f.rows| && k < BlockSize(imd, Get(f.rows[i], "Join_Key"))
    ensures MergeWithImdData(f, Some(imd)).Ok?
    ensures |MergeWithImdData(f, Some(imd)).value.rows| == JoinedBefore(f.rows, imd, |f.rows|)
    ensures JoinedBefore(f.rows, imd, i) + k < |MergeWithImdData(f, Some(imd)).value.rows|
    ensures Get(MergeWithImdData(f, Some(imd)).value.rows[JoinedBefore(f.rows, imd, i) + k], "IMD_Decile")
      == NumCell(BlockDecile(imd, Get(f.rows[i], "Join_Key"), k))
    ensures Get(MergeWithImdData(f, Some(imd)).value.rows[JoinedBefore(f.rows, imd, i) + k], "IMD_Quintile")
      == Text(MapQuintile(BlockDecile(imd, Get(f.rows[i], "Join_Key"), k)))
    ensures forall c :: c !in ScaffoldColumns && c != "IMD_Decile" && c != "IMD_Quintile" ==>
      Get(MergeWithImdData(f, Some(imd)).value.rows[JoinedBefore(f.rows, imd, i) + k], c) == Get(f.rows[i], c)
  {
    EnrichRow(f, imd, i, k);
    assert MergeWithImdData(f, Some(imd)) == Ok(Enrich(f, imd));
  }

  /** Row k of patient i's block after the join, the quintile and the drop. */
  lemma EnrichRow(f: Frame, imd: seq<ImdEntry>, i: nat, k: nat)
    requires WellFormed(f) && "IMD_Decile" !in f.columns
    requires i < |f.rows| && k < BlockSize(imd, Get(f.rows[i], "Join_Key"))
    ensures |Enrich(f, imd).rows| == JoinedBefore(f.rows, imd, |f.rows|)
    ensures JoinedBefore(f.rows, imd, i) + k < |Enrich(f, imd).rows|
    ensures Get(Enrich(f, imd).rows[JoinedBefore(f.rows, imd, i) + k], "IMD_Decile")
      == NumCell(BlockDecile(imd, Get(f.rows[i], "Join_Key"), k))
    ensures Get(Enrich(f, imd).rows[JoinedBefore(f.rows, imd, i) + k], "IMD_Quintile")
      == Text(MapQuintile(BlockDecile(imd, Get(f.rows[i], "Join_Key"), k)))
    ensures forall c :: c !in ScaffoldColumns && c != "IMD_Decile" && c != "IMD_Quintile" ==>
      Get(Enrich(f, imd).rows[JoinedBefore(f.rows, imd, i) + k], c) == Get(f.rows[i], c)
  {
    ScaffoldNames();
    var g := Enrich(f, imd);
    LeftJoinLength(f.rows, imd);
    var key := Get(f.rows[i], "Join_Key");
    JoinedRow(f.rows, imd, i, k);
    var j := JoinedBefore(f.rows, imd, i) + k;
    var d := BlockDecile(imd, key, k);
    DecileCell(d);
    assert Get(g.rows[j], "IMD_Decile") == Get(LeftJoin(f.rows, imd)[j], "IMD_Decile");
    assert Get(g.rows[j], "IMD_Decile") == NumCell(d);
    assert Get(g.rows[j], "IMD_Quintile") == Text(MapQuintile(AsDecile(NumCell(d))));
    forall c | c !in ScaffoldColumns && c != "IMD_Decile" && c != "IMD_Quintile"
      ensures Get(g.rows[j], c) == Get(f.rows[i], c)
    {
      assert Get(g.rows[j], c) == Get(LeftJoin(f.rows, imd)[j], c);
    }
  }

  /** Row k of patient i's block in the left join: the k-th matching decile and the patient's
      other cells. */
  lemma JoinedRow(rows: seq<Row>, imd: seq<ImdEntry>, i: nat, k: nat)
    requires i < |rows| && k < BlockSize(imd, Get(rows[i], "Join_Key"))
    ensures JoinedBefore(rows, imd, i) + k < |LeftJoin(rows, imd)|
    ensures Get(LeftJoin(rows, imd)[JoinedBefore(rows, imd, i) + k], "IMD_Decile")
      == NumCell(BlockDecile(imd, Get(rows[i], "Join_Key"), k))
    ensures forall c :: c != "IMD_Decile" ==>
      Get(LeftJoin(rows, imd)[JoinedBefore(rows, imd, i) + k], c) == Get(rows[i], c)
  {
    LeftJoinBlock(rows, imd, i, k);
    JoinRowCells(rows[i], imd, k);
  }

  /** Block sizes add up: the block of patient i ends where the block of patient i + 1 starts. */
  lemma MergeBlocks(f: Frame, imd: seq<ImdEntry>, i: nat)
    requires i < |f.rows|
    ensures JoinedBefore(f.rows, imd, i + 1) == JoinedBefore(f.rows, imd, i) + BlockSize(imd, Get(f.rows[i], "Join_Key"))
  {
    JoinedBeforeStep(f.rows, imd, i);
  }

  /** AsDecile reads back the decile a numeric cell was made from. */
  lemma DecileCell(o: Option<int>)
    ensures AsDecile(NumCell(o)) == o
  {
  }

  /** Row k of a left row's block has the left row's cells outside IMD_Decile. */
  lemma JoinRowCells(r: Row, imd: seq<ImdEntry>, k: nat)
    requires k < |JoinRow(r, imd)|
    ensures forall c :: c != "IMD_Decile" ==> Get(JoinRow(r, imd)[k], c) == Get(r, c)
  {
    var row := JoinRow(r, imd)[k];
    forall c | c != "IMD_Decile" ensures Get(row, c) == Get(r, c) {
      assert c in row <==> c in row - {"IMD_Decile"};
      assert c in r <==> c in r - {"IMD_Decile"};
    }
  }

  // ---------------------------------------------------------------------------
  // The join with a reference table whose keys are unique
  // ---------------------------------------------------------------------------

  predicate UniqueKeys(imd: seq<ImdEntry>) {
    forall i, j :: 0 <= i < j < |imd| ==> imd[i].joinKey != imd[j].joinKey
  }

  /** The IMD_Decile cell a left row with this key receives when keys are unique. */
  function Lookup(imd: seq<ImdEntry>, key: Value): Value {
    var ms := Matches(imd, key);
    if ms == [] then Null else NumCell(ms[0])
  }

  lemma {:induction false} NoMatches(imd: seq<ImdEntry>, key: Value)
    requires forall k :: 0 <= k < |imd| ==> Text(imd[k].joinKey) != key
    ensures Matches(imd, key) == []
  {
    if imd != [] {
      NoMatches(imd[1..], key);
    }
  }

  /** With unique keys a key matches at most once, and it matches the entry that carries it. */
  lemma {:induction false} MatchesUnique(imd: seq<ImdEntry>, key: Value)
    requires UniqueKeys(imd)
    ensures |Matches(imd, key)| <= 1
    ensures forall k :: 0 <= k < |imd| && Text(imd[k].joinKey) == key ==> Matches(imd, key) == [imd[k].decile]
    ensures (forall k :: 0 <= k < |imd| ==> Text(imd[k].joinKey) != key) ==> Matches(imd, key) == []
  {
    if imd != [] {
      var rest := imd[1..];
      assert UniqueKeys(rest) by {
        forall i, j | 0 <= i < j < |rest| ensures rest[i].joinKey != rest[j].joinKey {
          assert rest[i] == imd[i + 1] && rest[j] == imd[j + 1];
        }
      }
      MatchesUnique(rest, key);
      if Text(imd[0].joinKey) == key {
        NoMatches(rest, key);
      }
      forall k | 0 <= k < |imd| && Text(imd[k].joinKey) == key
        ensures Matches(imd, key) == [imd[k].decile]
      {
        if k > 0 {
          assert rest[k - 1] == imd[k];
        }
      }
      if forall k :: 0 <= k < |imd| ==> Text(imd[k].joinKey) != key {
        NoMatches(imd, key);
      }
    }
  }

  function LookedUp(r: Row, imd: seq<ImdEntry>): Row {
    r["IMD_Decile" := Lookup(imd, Get(r, "Join_Key"))]
  }

  lemma JoinRowUnique(r: Row, imd: seq<ImdEntry>)
    requires UniqueKeys(imd)
    ensures JoinRow(r, imd) == [LookedUp(r, imd)]
  {
    MatchesUnique(imd, Get(r, "Join_Key"));
  }

  /** With unique keys the left join keeps the rows one for one, adding the looked-up decile. */
  lemma {:induction false} LeftJoinUnique(rows: seq<Row>, imd: seq<ImdEntry>)
    requires UniqueKeys(imd)
    ensures |LeftJoin(rows, imd)| == |rows|
    ensures forall i :: 0 <= i < |rows| ==> LeftJoin(rows, imd)[i] == LookedUp(rows[i], imd)
  {
    if rows != [] {
      JoinRowUnique(rows[0], imd);
      var tail := LeftJoin(rows[1..], imd);
      LeftJoinUnique(rows[1..], imd);
      var out := LeftJoin(rows, imd);
      assert out == [LookedUp(rows[0], imd)] + tail;
      forall i | 0 < i < |rows|
        ensures out[i] == LookedUp(rows[i], imd)
      {
        assert out[i] == tail[i - 1];
        assert rows[1..][i - 1] == rows[i];
      }
    }
  }

  lemma EnrichUnique(f: Frame, imd: seq<ImdEntry>, i: nat)
    requires WellFormed(f) && UniqueKeys(imd) && "IMD_Decile" !in f.columns && i < |f.rows|
    ensures |Enrich(f, imd).rows| == |f.rows|
    ensures Get(Enrich(f, imd).rows[i], "IMD_Decile") == Lookup(imd, Get(f.rows[i], "Join_Key"))
    ensures forall c :: c !in ScaffoldColumns && c != "IMD_Decile" && c != "IMD_Quintile" ==>
      Get(Enrich(f, imd).rows[i], c) == Get(f.rows[i], c)
  {
    ScaffoldNames();
    LeftJoinUnique(f.rows, imd);
    assert LeftJoin(f.rows, imd)[i] == LookedUp(f.rows[i], imd);
  }

  /** With unique reference keys, the patient table keeps its row count and order; each row
      gets the decile of the reference row with its key (missing when none has it) and the
      quintile of that decile; every column other than the scaffolding is kept as it was. */
  lemma MergeUniqueKeys(f: Frame, imd: seq<ImdEntry>)
    requires WellFormed(f) && imd != [] && UniqueKeys(imd)
    requires "Join_Key" in f.columns && "IMD_Decile" !in f.columns
    ensures MergeWithImdData(f, Some(imd)).Ok?
    ensures |MergeWithImdData(f, Some(imd)).value.rows| == |f.rows|
    ensures forall i :: 0 <= i < |f.rows| ==>
      Get(MergeWithImdData(f, Some(imd)).value.rows[i], "IMD_Decile") == Lookup(imd, Get(f.rows[i], "Join_Key"))
    ensures forall i :: 0 <= i < |f.rows| ==>
      Get(MergeWithImdData(f, Some(imd)).value.rows[i], "IMD_Quintile")
        == Text(MapQuintile(AsDecile(Lookup(imd, Get(f.rows[i], "Join_Key")))))
    ensures forall i, c :: 0 <= i < |f.rows| && c !in ScaffoldColumns && c != "IMD_Decile" && c != "IMD_Quintile" ==>
      Get(MergeWithImdData(f, Some(imd)).value.rows[i], c) == Get(f.rows[i], c)
  {
    var g := Enrich(f, imd);
    assert MergeWithImdData(f, Some(imd)) == Ok(g);
    LeftJoinUnique(f.rows, imd);
    forall i | 0 <= i < |f.rows|
      ensures Get(g.rows[i], "IMD_Decile") == Lookup(imd, Get(f.rows[i], "Join_Key"))
      ensures forall c :: c !in ScaffoldColumns && c != "IMD_Decile" && c != "IMD_Quintile" ==>
        Get(g.rows[i], c) == Get(f.rows[i], c)
    {
      EnrichUnique(f, imd, i);
    }
  }

  /** An unmatched postcode is kept, as a single row with quintile 'Unknown' (whatever the keys
      of the reference table). */
  lemma UnmatchedIsUnknown(f: Frame, imd: seq<ImdEntry>, i: nat)
    requires WellFormed(f) && imd != [] && "Join_Key" in f.columns && "IMD_Decile" !in f.columns
    requires i < |f.rows|
    requires forall k :: 0 <= k < |imd| ==> Text(imd[k].joinKey) != Get(f.rows[i], "Join_Key")
    ensures BlockSize(imd, Get(f.rows[i], "Join_Key")) == 1
    ensures var r := MergeWithImdData(f, Some(imd));
      r.Ok? && JoinedBefore(f.rows, imd, i) < |r.value.rows| &&
      Get(r.value.rows[JoinedBefore(f.rows, imd, i)], "IMD_Quintile") == Text("Unknown")
  {
    NoMatches(imd, Get(f.rows[i], "Join_Key"));
    MergeRows(f, imd, i, 0);
  }

  /** A reference table that repeats a key multiplies the matching patient row. */
  lemma DuplicateKeysMultiplyRows(r: Row, e: ImdEntry)
    requires Get(r, "Join_Key") == Text(e.joinKey)
    ensures |LeftJoin([r], [e, e])| == 2
  {
    assert Matches([e, e], Text(e.joinKey)) == [e.decile, e.decile] by {
      assert [e, e][1..] == [e];
      assert Matches([e], Text(e.joinKey)) == [e.decile];
    }
  }

  /** The position of a matching reference row among the matches of its key. */
  lemma {:induction false} MatchIndex(imd: seq<ImdEntry>, key: Value, k: nat) returns (m: nat)
    requires k < |imd| && Text(imd[k].joinKey) == key
    ensures m < |Matches(imd, key)| && Matches(imd, key)[m] == imd[k].decile
  {
    var first: seq<Option<int>> := if Text(imd[0].joinKey) == key then [imd[0].decile] else [];
    assert Matches(imd, key) == first + Matches(imd[1..], key);
    if k == 0 {
      m := 0;
    } else {
      assert imd[1..][k - 1] == imd[k];
      var rest := MatchIndex(imd[1..], key, k - 1);
      m := |first| + rest;
    }
  }

  /** The two sides meet: a patient whose postcode normalises to the same key as a reference
      postcode (case and spaces aside) gets, at position b of its block, a row with that
      reference row's quintile and the patient's own cells, whatever the other reference rows. */
  lemma PostcodeJoinRoundTrip(f: Frame, read: seq<ImdRow>, i: nat, k: nat) returns (b: nat)
    requires WellFormed(f) && "Postcode" in f.columns && "IMD_Decile" !in f.columns
    requires i < |f.rows| && k < |read|
    requires PostcodeKey(Get(f.rows[i], "Postcode")) == PostcodeKey(read[k].postcode)
    ensures CreateJoinKeys(f).Ok?
    ensures var keyed := CreateJoinKeys(f).value;
      var imd := LoadImdData(Some(read));
      var m := MergeWithImdData(keyed, Some(imd));
      m.Ok? && b < BlockSize(imd, Get(keyed.rows[i], "Join_Key")) &&
      JoinedBefore(keyed.rows, imd, i) + b < |m.value.rows| &&
      Get(m.value.rows[JoinedBefore(keyed.rows, imd, i) + b], "IMD_Quintile") == Text(MapQuintile(read[k].decile)) &&
      forall c :: c !in ScaffoldColumns && c != "IMD_Decile" && c != "IMD_Quintile" ==>
        Get(m.value.rows[JoinedBefore(keyed.rows, imd, i) + b], c) == Get(f.rows[i], c)
  {
    ScaffoldNames();
    var imd := LoadImdData(Some(read));
    var keyed := CreateJoinKeys(f).value;
    assert "IMD_Decile" !in keyed.columns;
    var key := Get(keyed.rows[i], "Join_Key");
    assert Text(imd[k].joinKey) == key;
    b := MatchIndex(imd, key, k);
    assert BlockDecile(imd, key, b) == read[k].decile;
    MergeRows(keyed, imd, i, b);
    var row := MergeWithImdData(keyed, Some(imd)).value.rows[JoinedBefore(keyed.rows, imd, i) + b];
    assert Get(row, "IMD_Quintile") == Text(MapQuintile(read[k].decile));
    forall c | c !in ScaffoldColumns && c != "IMD_Decile" && c != "IMD_Quintile"
      ensures Get(row, c) == Get(f.rows[i], c)
    {
      assert Get(row, c) == Get(keyed.rows[i], c);
    }
  }
}
