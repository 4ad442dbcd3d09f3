/** The table the pipeline passes from stage to stage: named columns in order,
    and one row per attendance mapping each column name to a cell. */
module Frames {
  import opened Wrappers
  import opened Timestamps

  /** A cell: missing (NaN / NaT / None), text, a whole number, or a parsed date-time. */
  datatype Value = Null | Text(s: string) | Num(n: int) | Stamp(t: DateTime)

  type Row = map<string, Value>

  datatype Frame = Frame(columns: seq<string>, rows: seq<Row>)

  /** What a stage raises; the whole pipeline turns any of these into its failure result. */
  datatype Error =
    | MissingColumn(name: string)  // a KeyError on df[name]
    | DuplicateColumns             // two header cells that are equal once stripped
    | ReadFailure                  // the export could not be read

  predicate Distinct<T(==)>(s: seq<T>) {
    forall i, j :: 0 <= i < j < |s| ==> s[i] != s[j]
  }

  /** Column names are unique and every row has exactly those columns. */
  predicate WellFormed(f: Frame) {
    && Distinct(f.columns)
    && forall i :: 0 <= i < |f.rows| ==> f.rows[i].Keys == set c | c in f.columns
  }

  /** The cell of row r in column c (a missing column reads as a missing cell). */
  function Get(r: Row, c: string): Value {
    if c in r then r[c] else Null
  }

  /** A numeric cell from an optional number (None is NaN). */
  function NumCell(o: Option<int>): (v: Value)
    ensures v.Null? <==> o.None?
    ensures o.Some? ==> v == Num(o.value)
  {
    match o
    case None => Null
    case Some(n) => Num(n)
  }

  /** The column c as a series. */
  function Column(f: Frame, c: string): (col: seq<Value>)
    ensures |col| == |f.rows|
    ensures forall i :: 0 <= i < |f.rows| ==> col[i] == Get(f.rows[i], c)
  {
    seq(|f.rows|, i requires 0 <= i < |f.rows| => Get(f.rows[i], c))
  }

  /** df[name] = vals: replaces the column in place if it exists, otherwise appends it. */
  function Assign(f: Frame, name: string, vals: seq<Value>): (g: Frame)
    requires |vals| == |f.rows|
    ensures WellFormed(f) ==> WellFormed(g)
    ensures name in g.columns && (forall c :: c in g.columns <==> c in f.columns || c == name)
    ensures name in f.columns ==> g.columns == f.columns
    ensures name !in f.columns ==> g.columns == f.columns + [name]
    ensures |g.rows| == |f.rows|
    ensures forall i :: 0 <= i < |g.rows| ==> Get(g.rows[i], name) == vals[i]
    ensures forall i, c :: 0 <= i < |g.rows| && c != name ==> Get(g.rows[i], c) == Get(f.rows[i], c)
  {
    Frame(if name in f.columns then f.columns else f.columns + [name],
          seq(|f.rows|, i requires 0 <= i < |f.rows| => f.rows[i][name := vals[i]]))
  }

  /** df[name] = v for a scalar v: the same cell in every row. */
  function Filled(f: Frame, v: Value): (col: seq<Value>)
    ensures |col| == |f.rows|
    ensures forall i :: 0 <= i < |f.rows| ==> col[i] == v
  {
    seq(|f.rows|, _ => v)
  }

  /** The names of cols that are not in names, in their original order. */
  function Without(cols: seq<string>, names: set<string>): (r: seq<string>)
    ensures forall c :: c in r <==> c in cols && c !in names
    ensures Distinct(cols) ==> Distinct(r)
    ensures (forall c :: c in cols ==> c !in names) ==> r == cols
  {
    if cols == [] then []
    else (if cols[0] in names then [] else [cols[0]]) + Without(cols[1..], names)
  }

  /** df.drop(columns=names, errors='ignore'). */
  function Drop(f: Frame, names: set<string>): (g: Frame)
    ensures WellFormed(f) ==> WellFormed(g)
    ensures g.columns == Without(f.columns, names)
    ensures |g.rows| == |f.rows|
    ensures forall i, c :: 0 <= i < |g.rows| ==> Get(g.rows[i], c) == if c in names then Null else Get(f.rows[i], c)
  {
    Frame(Without(f.columns, names), seq(|f.rows|, i requires 0 <= i < |f.rows| => f.rows[i] - names))
  }

  /** Number of rows satisfying p (len(df[mask])). */
  function Count(rows: seq<Row>, p: Row -> bool): (n: nat)
    ensures n <= |rows|
  {
    if rows == [] then 0 else (if p(rows[0]) then 1 else 0) + Count(rows[1..], p)
  }

  /** A mask that implies another selects no more rows. */
  lemma {:induction false} CountMonotone(rows: seq<Row>, p: Row -> bool, q: Row -> bool)
    requires forall i :: 0 <= i < |rows| ==> p(rows[i]) ==> q(rows[i])
    ensures Count(rows, p) <= Count(rows, q)
  {
    if rows != [] {
      CountMonotone(rows[1..], p, q);
    }
  }

  /** Two masks that never hold together and both imply a third select, together,
      no more rows than the third. */
  lemma {:induction false} CountDisjoint(rows: seq<Row>, p: Row -> bool, q: Row -> bool, r: Row -> bool)
    requires forall i :: 0 <= i < |rows| ==> !(p(rows[i]) && q(rows[i]))
    requires forall i :: 0 <= i < |rows| ==> (p(rows[i]) || q(rows[i])) ==> r(rows[i])
    ensures Count(rows, p) + Count(rows, q) <= Count(rows, r)
  {
    if rows != [] {
      CountDisjoint(rows[1..], p, q, r);
    }
  }

  /** A mask and its complement partition the rows. */
  lemma {:induction false} CountComplement(rows: seq<Row>, p: Row -> bool, q: Row -> bool)
    requires forall i :: 0 <= i < |rows| ==> (p(rows[i]) <==> !q(rows[i]))
    ensures Count(rows, p) + Count(rows, q) == |rows|
  {
    if rows != [] {
      CountComplement(rows[1..], p, q);
    }
  }

  /** A mask that is the disjoint union of two others selects as many rows as both together. */
  lemma {:induction false} CountSplit(rows: seq<Row>, p: Row -> bool, q: Row -> bool, r: Row -> bool)
    requires forall i :: 0 <= i < |rows| ==> !(p(rows[i]) && q(rows[i]))
    requires forall i :: 0 <= i < |rows| ==> (r(rows[i]) <==> p(rows[i]) || q(rows[i]))
    ensures Count(rows, p) + Count(rows, q) == Count(rows, r)
  {
    if rows != [] {
      CountSplit(rows[1..], p, q, r);
    }
  }

  /** Masks that agree row by row on two tables of the same length select as many rows. */
  lemma {:induction false} CountAgree(rows: seq<Row>, rows': seq<Row>, p: Row -> bool, q: Row -> bool)
    requires |rows| == |rows'|
    requires forall i :: 0 <= i < |rows| ==> (p(rows[i]) <==> q(rows'[i]))
    ensures Count(rows, p) == Count(rows', q)
  {
    if rows != [] {
      CountAgree(rows[1..], rows'[1..], p, q);
    }
  }

  /** Names of required columns absent from cols, in the required order. */
  function MissingColumns(required: seq<string>, cols: seq<string>): (m: seq<string>)
    ensures forall c :: c in m <==> c in required && c !in cols
  {
    if required == [] then []
    else (if required[0] in cols then [] else [required[0]]) + MissingColumns(required[1..], cols)
  }
}
