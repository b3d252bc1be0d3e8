/**
 * The pandas data frames the engine moves rows around in, reduced to what
 * the engine relies on: ordered column labels and rows of cells aligned
 * with them by position.
 */
module Frames {
  import opened Wrappers
  import opened Dict

  /** A cell; `None` is pandas' missing value (`NaN`/`None`). */
  type Value = Option<string>

  datatype Frame = Frame(columns: seq<string>, rows: seq<seq<Value>>)

  /** Every row has one cell per column. */
  predicate WellFormed(f: Frame) {
    forall k :: 0 <= k < |f.rows| ==> |f.rows[k]| == |f.columns|
  }

  /** `dfs`: the fetched frame of each resolved table, in fetch order. */
  type Frames = seq<Entry<string, Frame>>

  /** Position of the first column labelled `x`. */
  function IndexOf(xs: seq<string>, x: string): (r: Option<nat>)
    ensures r.None? <==> x !in xs
    ensures r.Some? ==> r.value < |xs| && xs[r.value] == x
    ensures r.Some? ==> forall j :: 0 <= j < r.value ==> xs[j] != x
  {
    if xs == [] then None
    else if xs[0] == x then Some(0)
    else
      match IndexOf(xs[1..], x)
      case None => None
      case Some(i) => Some(i + 1)
  }

  /** The cell of a row in column `i`; missing when the row is too short. */
  function CellAt(row: seq<Value>, i: nat): Value {
    if i < |row| then row[i] else None
  }

  /** `df[col]` for the column at position `i`: its cells, top to bottom. */
  function ColumnCells(f: Frame, i: nat): (r: seq<Value>)
    ensures |r| == |f.rows|
    ensures forall k :: 0 <= k < |r| ==> r[k] == CellAt(f.rows[k], i)
  {
    seq(|f.rows|, k requires 0 <= k < |f.rows| => CellAt(f.rows[k], i))
  }

  /**
   * `pd.DataFrame(cur.fetchall(), columns=names)`: pandas refuses rows
   * whose width differs from the number of column names.
   */
  function FrameOf(columns: seq<string>, rows: seq<seq<Value>>): (r: Result<Frame, string>)
    ensures r.Ok? <==> forall k :: 0 <= k < |rows| ==> |rows[k]| == |columns|
    ensures r.Ok? ==> WellFormed(r.value) && r.value.columns == columns && r.value.rows == rows
  {
    if forall k :: 0 <= k < |rows| ==> |rows[k]| == |columns| then Ok(Frame(columns, rows))
    else Err("ValueError: columns passed do not match the data")
  }

  /** `[f"{prefix}{c}" for c in cols]` */
  function Prefixed(prefix: string, cols: seq<string>): (r: seq<string>)
    ensures |r| == |cols|
    ensures forall k :: 0 <= k < |r| ==> r[k] == prefix + cols[k]
  {
    seq(|cols|, k requires 0 <= k < |cols| => prefix + cols[k])
  }
}
