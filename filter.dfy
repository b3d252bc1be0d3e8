/**
 * Step 4 and the finish of `execute_query` (core/fdw_manager.py:447-460):
 * the merged frame is filtered again by the whole WHERE clause, turned
 * into pandas syntax, and missing values are shown as `NULL`.
 */
module WhereFilter {
  import opened Wrappers
  import opened Text
  import opened Seqs
  import opened Frames
  import opened Parser

  // ================================================================ re.sub(r'\b\w+\.(\w+)\b', r'\1', s)

  /** A run of word characters starts at `p` (a regex word boundary followed by `\w`). */
  predicate WordStart(s: string, p: nat)
    requires p < |s|
  {
    IsWordChar(s[p]) && (p == 0 || !IsWordChar(s[p - 1]))
  }

  /**
   * The substitution from position `p` on: a word that starts at `p` and
   * is followed by a dot and another word is replaced by that second
   * word; scanning resumes after it.
   */
  function StripQualifiersFrom(s: string, p: nat): (r: string)
    requires p <= |s|
    ensures |r| <= |s| - p
    decreases |s| - p
  {
    if p == |s| then []
    else if WordStart(s, p) && WordEnd(s, p) + 1 < |s| && s[WordEnd(s, p)] == '.' && IsWordChar(s[WordEnd(s, p) + 1]) then
      var e := WordEnd(s, p) + 1;
      s[e..WordEnd(s, e)] + StripQualifiersFrom(s, WordEnd(s, e))
    else [s[p]] + StripQualifiersFrom(s, p + 1)
  }

  /** Table prefixes dropped from `alias.column` names (core/fdw_manager.py:658, 673). */
  function StripQualifiers(s: string): (r: string)
    ensures |r| <= |s|
  {
    StripQualifiersFrom(s, 0)
  }

  /** Text without a dot has nothing to strip. */
  lemma {:induction false} NoDotUnchanged(s: string, p: nat)
    requires p <= |s| && '.' !in s
    ensures StripQualifiersFrom(s, p) == s[p..]
    decreases |s| - p
  {
    if p < |s| {
      NoDotUnchanged(s, p + 1);
      assert s[p..] == [s[p]] + s[p + 1..];
    }
  }

  predicate IsWord(w: string) {
    w != [] && forall k :: 0 <= k < |w| ==> IsWordChar(w[k])
  }

  /** `table.column` becomes `column`. */
  lemma QualifiedNameStripped(table: string, column: string)
    requires IsWord(table) && IsWord(column)
    ensures StripQualifiers(table + "." + column) == column
  {
    var s := table + "." + column;
    WordRun(s, 0, |table|);
    WordRun(s, |table| + 1, |s|);
    assert s[|table| + 1..|s|] == column;
    assert StripQualifiersFrom(s, |s|) == [];
  }

  lemma {:induction false} WordRun(s: string, i: nat, e: nat)
    requires i <= e <= |s| && forall k :: i <= k < e ==> IsWordChar(s[k])
    requires e == |s| || !IsWordChar(s[e])
    ensures WordEnd(s, i) == e
    decreases e - i
  {
    if i < e {
      WordRun(s, i + 1, e);
    }
  }

  // ================================================================ the .replace chain of _prepare_where_condition

  /**
   * SQL to pandas syntax (core/fdw_manager.py:659-666): `=` to `==`, then
   * `<>` to `!=`, `IS NULL` to `.isna()`, `IS NOT NULL` to `.notna()`, and
   * single to double quotes.  `=` goes first, so `>=` and `<=` become
   * `>==` and `<==`.
   */
  function PandasOperators(w: string): string {
    var a := Replace(w, "=", "==");
    var b := Replace(a, "<>", "!=");
    var c := Replace(b, "IS NULL", ".isna()");
    var d := Replace(c, "IS NOT NULL", ".notna()");
    Replace(d, "'", "\"")
  }

  /** `>=` comes out as `>==`, which pandas cannot parse. */
  lemma GreaterOrEqualMangled()
    ensures Replace(">=", "=", "==") == ">=="
  {
    var s := ">=";
    assert s[0..1] == ">";
    assert !OccursAt(s, "=", 0);
    assert s[1..2] == "=";
    assert OccursAt(s, "=", 1);
    assert Find(s, "=", 0) == Some(1);
    assert s[..1] == ">" && s[2..] == "";
    assert Find("", "=", 0) == None;
    assert SplitOn("", "=") == [""];
    assert SplitOn(s, "=") == [">", ""];
  }

  /** Joining pieces without `c` using a separator without `c` gives text without `c`. */
  lemma {:induction false} JoinAvoids(parts: seq<string>, sep: string, c: char)
    requires c !in sep && forall k :: 0 <= k < |parts| ==> c !in parts[k]
    ensures c !in JoinWith(parts, sep)
  {
    if |parts| > 1 {
      JoinAvoids(parts[1..], sep, c);
    }
  }

  /** After the chain no single quote is left. */
  lemma NoSingleQuoteLeft(w: string)
    ensures '\'' !in PandasOperators(w)
  {
    var a := Replace(w, "=", "==");
    var b := Replace(a, "<>", "!=");
    var c := Replace(b, "IS NULL", ".isna()");
    var d := Replace(c, "IS NOT NULL", ".notna()");
    SplitPiecesAvoidSeparator(d, "'");
    forall k | 0 <= k < |SplitOn(d, "'")| ensures '\'' !in SplitOn(d, "'")[k] {
      ContainsChar(SplitOn(d, "'")[k], '\'');
    }
    JoinAvoids(SplitOn(d, "'"), "\"", '\'');
  }

  /**
   * `_prepare_where_condition` (core/fdw_manager.py:637-668): the
   * renaming of bare to qualified column names (a regex with lookaround,
   * given here as `rename`), the stripping of qualifiers, the operators.
   */
  function PrepareWhere(where: string, columns: seq<string>, rename: (string, seq<string>) -> string): string {
    PandasOperators(StripQualifiers(rename(where, columns)))
  }

  // ================================================================ _apply_where_manually

  /** What one ` AND ` fragment asks of a row. */
  datatype Test =
    | Equals(column: string, value: string)
    | NotEquals(column: string, value: string)
    | IsNa(column: string)
    | NotNa(column: string)
    | NoTest

  /**
   * The fragment's test, tried in the order `==`, `!=`, `.isna()`,
   * `.notna()`: the column is the stripped text before the operator, the
   * value the text after it, stripped of spaces and then of quotes.
   */
  function TestOf(cond: string): Test {
    match Find(cond, "==", 0)
    case Some(i) => Equals(Strip(cond[..i]), StripChars(Strip(cond[i + 2..]), Quotes))
    case None =>
      match Find(cond, "!=", 0)
      case Some(i) => NotEquals(Strip(cond[..i]), StripChars(Strip(cond[i + 2..]), Quotes))
      case None =>
        if Contains(cond, ".isna()") then IsNa(Strip(Replace(cond, ".isna()", "")))
        else if Contains(cond, ".notna()") then NotNa(Strip(Replace(cond, ".notna()", "")))
        else NoTest
  }

  /** `astype(str)` of a cell; a missing value reads `nan`, as the padding of a merge does. */
  function Rendered(v: Value): string {
    match v
    case Some(s) => s
    case None => "nan"
  }

  /**
   * Whether a row passes one test.  A test on a column the frame does not
   * have raises `KeyError`, which the loop catches: no restriction.
   */
  predicate Passes(columns: seq<string>, row: seq<Value>, test: Test) {
    match test
    case NoTest => true
    case Equals(col, val) => IndexOf(columns, col).None? || Rendered(CellAt(row, IndexOf(columns, col).value)) == val
    case NotEquals(col, val) => IndexOf(columns, col).None? || Rendered(CellAt(row, IndexOf(columns, col).value)) != val
    case IsNa(col) => IndexOf(columns, col).None? || CellAt(row, IndexOf(columns, col).value).None?
    case NotNa(col) => IndexOf(columns, col).None? || CellAt(row, IndexOf(columns, col).value).Some?
  }

  /** The tests of the condition: its qualifiers stripped, split at ` AND `, each fragment stripped. */
  function TestsOf(condition: string): (r: seq<Test>)
    ensures |r| == |SplitOn(StripQualifiers(condition), " AND ")|
  {
    var parts := SplitOn(StripQualifiers(condition), " AND ");
    seq(|parts|, k requires 0 <= k < |parts| => TestOf(Strip(parts[k])))
  }

  predicate PassesAll(columns: seq<string>, row: seq<Value>, tests: seq<Test>) {
    forall t :: 0 <= t < |tests| ==> Passes(columns, row, tests[t])
  }

  /** The rows that pass every test, in their original order. */
  function ManualFilter(f: Frame, condition: string): (r: Frame)
    ensures r.columns == f.columns
    ensures IsSubsequence(r.rows, f.rows)
    ensures forall k :: 0 <= k < |r.rows| ==> PassesAll(f.columns, r.rows[k], TestsOf(condition))
    ensures forall k :: 0 <= k < |f.rows| && PassesAll(f.columns, f.rows[k], TestsOf(condition)) ==> f.rows[k] in r.rows
  {
    var tests := TestsOf(condition);
    Frame(f.columns, Filter(f.rows, (row: seq<Value>) => PassesAll(f.columns, row, tests)))
  }

  /** A condition that names only columns the frame lacks keeps every row. */
  lemma {:induction false} UnknownColumnsKeepAll(f: Frame, condition: string)
    requires forall t :: 0 <= t < |TestsOf(condition)| ==>
      TestsOf(condition)[t].NoTest? || TestsOf(condition)[t].column !in f.columns
    ensures ManualFilter(f, condition).rows == f.rows
  {
    FilterAll(f.rows, (row: seq<Value>) => PassesAll(f.columns, row, TestsOf(condition)));
  }


  /** The mask after narrowing by each test in turn, starting from all true. */
  method NarrowMask(f: Frame, tests: seq<Test>) returns (mask: seq<bool>)
    ensures |mask| == |f.rows|
    ensures forall i :: 0 <= i < |f.rows| ==> (mask[i] <==> PassesAll(f.columns, f.rows[i], tests))
  {
    mask := seq(|f.rows|, i => true);
    for t := 0 to |tests|
      invariant |mask| == |f.rows|
      invariant forall i :: 0 <= i < |f.rows| ==> (mask[i] <==> PassesAll(f.columns, f.rows[i], tests[..t]))
    {
      var test := tests[t];
      mask := seq(|f.rows|, i requires 0 <= i < |f.rows| => mask[i] && Passes(f.columns, f.rows[i], test));
    }
    assert tests[..|tests|] == tests;
  }

  /** `df[mask]`: the elements whose mask entry is true, in order. */
  method Select<T>(s: seq<T>, mask: seq<bool>, ghost keep: T -> bool) returns (r: seq<T>)
    requires |mask| == |s|
    requires forall i :: 0 <= i < |s| ==> (mask[i] <==> keep(s[i]))
    ensures r == Filter(s, keep)
  {
    r := [];
    for i := 0 to |s|
      invariant r == Filter(s[..i], keep)
    {
      FilterSnoc(s[..i], s[i], keep);
      assert s[..i + 1] == s[..i] + [s[i]];
      if mask[i] {
        r := r + [s[i]];
      }
    }
    assert s[..|s|] == s;
  }

  /**
   * `_apply_where_manually` (core/fdw_manager.py:670-700): `mask` starts
   * all true and is narrowed by each fragment in turn; then `df[mask]`.
   */
  method ApplyWhereManually(f: Frame, condition: string) returns (r: Frame)
    ensures r == ManualFilter(f, condition)
  {
    var tests := TestsOf(condition);
    var mask := NarrowMask(f, tests);
    var rows := Select(f.rows, mask, (row: seq<Value>) => PassesAll(f.columns, row, tests));
    r := Frame(f.columns, rows);
  }

  // ================================================================ step 4 and the finish

  /** `merged.empty`: no rows or no columns. */
  predicate IsEmpty(f: Frame) {
    f.rows == [] || f.columns == []
  }

  /**
   * Step 4 (core/fdw_manager.py:447-456): a non-empty result and a
   * non-empty WHERE clause go through pandas' `query()` (given as `query`,
   * `None` when it raises), and through the manual filter when it fails.
   */
  function PostFiltered(merged: Frame, where: string, rename: (string, seq<string>) -> string,
                        query: (Frame, string) -> Option<Frame>): Frame {
    if IsEmpty(merged) || where == "" then merged
    else
      var globalWhere := PrepareWhere(where, merged.columns, rename);
      match query(merged, globalWhere)
      case Some(f) => f
      case None => ManualFilter(merged, globalWhere)
  }

  method PostFilter(merged: Frame, where: string, rename: (string, seq<string>) -> string,
                    query: (Frame, string) -> Option<Frame>) returns (r: Frame)
    ensures r == PostFiltered(merged, where, rename, query)
  {
    r := merged;
    if !IsEmpty(merged) && where != "" {
      var globalWhere := PrepareWhere(where, merged.columns, rename);
      var queried := query(merged, globalWhere);
      if queried.Some? {
        r := queried.value;
      } else {
        r := ApplyWhereManually(merged, globalWhere);
      }
    }
  }

  /**
   * When `query()` fails, the result keeps the columns and a subsequence of
   * the rows: exactly those that pass every test of the prepared condition.
   */
  lemma FallbackNarrows(merged: Frame, where: string, rename: (string, seq<string>) -> string,
                        query: (Frame, string) -> Option<Frame>)
    requires !IsEmpty(merged) && where != ""
    requires query(merged, PrepareWhere(where, merged.columns, rename)).None?
    ensures PostFiltered(merged, where, rename, query).columns == merged.columns
    ensures IsSubsequence(PostFiltered(merged, where, rename, query).rows, merged.rows)
    ensures forall k :: 0 <= k < |merged.rows| ==>
      (merged.rows[k] in PostFiltered(merged, where, rename, query).rows <==>
       PassesAll(merged.columns, merged.rows[k], TestsOf(PrepareWhere(where, merged.columns, rename))))
  {
    var c := PrepareWhere(where, merged.columns, rename);
    var r := ManualFilter(merged, c);
    forall k | 0 <= k < |merged.rows| && merged.rows[k] in r.rows
      ensures PassesAll(merged.columns, merged.rows[k], TestsOf(c))
    {
      var j :| 0 <= j < |r.rows| && r.rows[j] == merged.rows[k];
    }
  }

  /** `fillna('NULL')` on one cell. */
  function Filled(v: Value): (r: Value)
    ensures r.Some?
    ensures v.Some? ==> r == v
  {
    if v.None? then Some("NULL") else v
  }

  /** `merged.fillna('NULL').reset_index(drop=True)` (core/fdw_manager.py:459-460). */
  function FillNull(f: Frame): (r: Frame)
    ensures r.columns == f.columns && |r.rows| == |f.rows|
    ensures forall i :: 0 <= i < |r.rows| ==> |r.rows[i]| == |f.rows[i]|
    ensures forall i, j :: 0 <= i < |r.rows| && 0 <= j < |r.rows[i]| ==>
      r.rows[i][j].Some? && (f.rows[i][j].Some? ==> r.rows[i][j] == f.rows[i][j])
    ensures forall i, j :: 0 <= i < |r.rows| && 0 <= j < |r.rows[i]| && f.rows[i][j].None? ==> r.rows[i][j] == Some("NULL")
  {
    Frame(f.columns, seq(|f.rows|, i requires 0 <= i < |f.rows| =>
      seq(|f.rows[i]|, j requires 0 <= j < |f.rows[i]| => Filled(f.rows[i][j]))))
  }
}
