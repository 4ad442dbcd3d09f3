/** The header step of load_and_clean_pain_data: the sheet as read (four metadata
    rows skipped), with its header names stripped and the identifying columns dropped. */
module Ingestion {
  import opened Wrappers
  import opened Text
  import opened Frames

  /** The sheet as pd.read_excel returns it: a header row and rows of cells, by position. */
  datatype Sheet = Sheet(header: seq<string>, cells: seq<seq<Value>>)

  predicate Rectangular(s: Sheet) {
    forall i :: 0 <= i < |s.cells| ==> |s.cells[i]| == |s.header|
  }

  /** COLS_TO_DROP: the identifying columns removed when present. */
  const ColsToDrop: set<string> := {"Surname", "Forename"}

  predicate Increasing(ks: seq<nat>) {
    forall a, b :: 0 <= a < b < |ks| ==> ks[a] < ks[b]
  }

  /** df.columns.str.strip(). */
  function StripAll(h: seq<string>): (r: seq<string>)
    ensures |r| == |h| && forall j :: 0 <= j < |h| ==> r[j] == Strip(h[j])
  {
    seq(|h|, j requires 0 <= j < |h| => Strip(h[j]))
  }

  /** Positions of the names that are not identifying columns, in order. */
  function Kept(names: seq<string>): (ks: seq<nat>)
    ensures Increasing(ks)
    ensures forall k :: 0 <= k < |ks| ==> ks[k] < |names|
  {
    if names == [] then []
    else
      var ks := Kept(names[..|names| - 1]);
      if names[|names| - 1] in ColsToDrop then ks else ks + [|names| - 1]
  }

  /** A position is kept exactly when its name is not an identifying column. */
  lemma {:induction false} KeptMember(names: seq<string>, j: nat)
    requires j < |names|
    ensures j in Kept(names) <==> names[j] !in ColsToDrop
  {
    var prefix := names[..|names| - 1];
    if j < |names| - 1 {
      KeptMember(prefix, j);
      assert prefix[j] == names[j];
      assert forall k :: 0 <= k < |Kept(prefix)| ==> Kept(prefix)[k] < |prefix|;
    } else {
      assert forall k :: 0 <= k < |Kept(prefix)| ==> Kept(prefix)[k] < j;
    }
  }

  /** df.columns = df.columns.str.strip(), then df.drop(columns=[c for c in COLS_TO_DROP if c in df.columns]). */
  function CleanHeader(s: Sheet): (r: Sheet)
    requires Rectangular(s)
    ensures Rectangular(r) && |r.cells| == |s.cells|
    ensures var ks := Kept(StripAll(s.header));
      && |r.header| == |ks|
      && (forall k :: 0 <= k < |ks| ==> r.header[k] == Strip(s.header[ks[k]]))
      && (forall i, k :: 0 <= i < |s.cells| && 0 <= k < |ks| ==> r.cells[i][k] == s.cells[i][ks[k]])
  {
    var names := StripAll(s.header);
    var ks := Kept(names);
    Sheet(Pick(names, ks), PickAll(s.cells, ks, |s.header|))
  }

  /** Every row's cells at the kept positions. */
  function PickAll(cells: seq<seq<Value>>, ks: seq<nat>, width: nat): (r: seq<seq<Value>>)
    requires forall i :: 0 <= i < |cells| ==> |cells[i]| == width
    requires forall k :: 0 <= k < |ks| ==> ks[k] < width
    ensures |r| == |cells|
    ensures forall i :: 0 <= i < |cells| ==> |r[i]| == |ks|
    ensures forall i, k :: 0 <= i < |cells| && 0 <= k < |ks| ==> r[i][k] == cells[i][ks[k]]
  {
    seq(|cells|, i requires 0 <= i < |cells| => Pick(cells[i], ks))
  }

  /** The elements of row at the kept positions. */
  function Pick<T>(row: seq<T>, ks: seq<nat>): (r: seq<T>)
    requires forall k :: 0 <= k < |ks| ==> ks[k] < |row|
    ensures |r| == |ks| && forall k :: 0 <= k < |ks| ==> r[k] == row[ks[k]]
  {
    seq(|ks|, k requires 0 <= k < |ks| => row[ks[k]])
  }

  /** No identifying column remains after cleaning. */
  lemma CleanHeaderDropsIdentifiers(s: Sheet)
    requires Rectangular(s)
    ensures "Surname" !in CleanHeader(s).header && "Forename" !in CleanHeader(s).header
  {
    var r := CleanHeader(s);
    var ks := Kept(StripAll(s.header));
    forall k | 0 <= k < |ks|
      ensures r.header[k] !in ColsToDrop
    {
      assert ks[k] in ks;
      KeptMember(StripAll(s.header), ks[k]);
    }
  }

  /** Every other input column survives, in its original order, under its stripped
      name and with its cells. */
  lemma CleanHeaderKeepsOthers(s: Sheet, j: nat)
    requires Rectangular(s) && j < |s.header| && Strip(s.header[j]) !in ColsToDrop
    ensures var r := CleanHeader(s); var ks := Kept(StripAll(s.header));
      && Increasing(ks)
      && exists k :: (0 <= k < |ks| && ks[k] == j && r.header[k] == Strip(s.header[j])
        && forall i :: 0 <= i < |s.cells| ==> r.cells[i][k] == s.cells[i][j])
  {
    var names := StripAll(s.header);
    assert names[j] == Strip(s.header[j]);
    KeptMember(names, j);
  }

  /** Every cleaned name is already stripped. */
  lemma CleanNamesStripped(s: Sheet)
    requires Rectangular(s)
    ensures forall k :: 0 <= k < |CleanHeader(s).header| ==>
      Strip(CleanHeader(s).header[k]) == CleanHeader(s).header[k]
  {
    var r := CleanHeader(s);
    var ks := Kept(StripAll(s.header));
    forall k | 0 <= k < |r.header|
      ensures Strip(r.header[k]) == r.header[k]
    {
      StripIdempotent(s.header[ks[k]]);
    }
  }

  /** One row of the sheet as a map from column name to cell. */
  function RowOf(h: seq<string>, c: seq<Value>): (r: Row)
    requires |c| == |h| && Distinct(h)
    ensures r.Keys == set n | n in h
    ensures forall j :: 0 <= j < |h| ==> r[h[j]] == c[j]
  {
    map j | 0 <= j < |h| :: h[j] := c[j]
  }

  /** The cleaned sheet as a frame; a repeated label is refused. */
  function ToFrame(s: Sheet): (r: Result<Frame, Error>)
    requires Rectangular(s)
    ensures r.Ok? <==> Distinct(s.header)
    ensures r.Ok? ==> WellFormed(r.value) && r.value.columns == s.header && |r.value.rows| == |s.cells|
    ensures r.Ok? ==> forall i, j :: 0 <= i < |s.cells| && 0 <= j < |s.header| ==>
      Get(r.value.rows[i], s.header[j]) == s.cells[i][j]
  {
    if !Distinct(s.header) then Err(DuplicateColumns)
    else Ok(Frame(s.header, seq(|s.cells|, i requires 0 <= i < |s.cells| => RowOf(s.header, s.cells[i]))))
  }

  /** load_and_clean_pain_data, after the file has been read. */
  function LoadAndCleanPainData(s: Sheet): (r: Result<Frame, Error>)
    requires Rectangular(s)
    ensures r.Ok? ==> WellFormed(r.value) && r.value.columns == CleanHeader(s).header
    ensures r.Ok? ==> "Surname" !in r.value.columns && "Forename" !in r.value.columns
  {
    CleanHeaderDropsIdentifiers(s);
    ToFrame(CleanHeader(s))
  }
}
