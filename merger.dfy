/**
 * Step 3 of `execute_query` (core/fdw_manager.py:393-445): the fetched
 * frames are combined into one, each in turn, by the explicit `JOIN … ON`
 * keys, else by a configured JOIN rule, else side by side.
 */
module Merger {
  import opened Wrappers
  import opened Text
  import opened Seqs
  import opened Dict
  import opened Config
  import opened Frames
  import opened Parser
  import opened Resolver
  import opened Planner

  // ================================================================ _get_join_keys

  /**
   * `re.split(r'\bAND\b|\bOR\b', s, flags=re.IGNORECASE)`, scanning from
   * `pos` with the current piece starting at `start`; `AND` is tried first.
   */
  function AndOrPieces(s: string, start: nat, pos: nat): (r: seq<string>)
    requires start <= pos <= |s|
    ensures r != []
    decreases |s| - pos
  {
    if pos == |s| then [s[start..]]
    else if KeywordAt(s, pos, "and") then [s[start..pos]] + AndOrPieces(s, pos + 3, pos + 3)
    else if KeywordAt(s, pos, "or") then [s[start..pos]] + AndOrPieces(s, pos + 2, pos + 2)
    else AndOrPieces(s, start, pos + 1)
  }

  /** The non-empty stripped pieces, in order. */
  function NonEmptyStripped(pieces: seq<string>): (r: seq<string>)
    ensures forall k :: 0 <= k < |r| ==> r[k] != []
  {
    if pieces == [] then []
    else
      var t := Strip(pieces[|pieces| - 1]);
      NonEmptyStripped(pieces[..|pieces| - 1]) + (if t != "" then [t] else [])
  }

  /** The comparisons of an ON condition. */
  function Comparisons(condition: string): seq<string> {
    NonEmptyStripped(AndOrPieces(condition, 0, 0))
  }

  /** `x.split('.')[0] if '.' in x else None` */
  function Qualifier(x: string): Option<string> {
    if '.' in x then Some(SplitOn(x, ".")[0]) else None
  }

  /**
   * The key pair one comparison gives for the table with alias `alias`:
   * the merged frame's column (the other side, which must be one of the
   * available columns) and the bare column name of the table's own side.
   */
  function KeyPair(comp: string, alias: string, available: seq<string>): (r: Option<(string, string)>)
    ensures r.Some? ==> r.value.0 in available && '.' !in r.value.1
  {
    match Find(comp, "=", 0)
    case None => None
    case Some(i) =>
      var left := Strip(comp[..i]);
      var right := Strip(comp[i + 1..]);
      if Qualifier(left) == Some(alias) && right in available then Some((right, LastSegment(left)))
      else if Qualifier(right) == Some(alias) && left in available then Some((left, LastSegment(right)))
      else None
  }

  /** `join_keys`: the merged frame's key columns and the current table's key columns, pairwise. */
  datatype JoinKeys = JoinKeys(leftKeys: seq<string>, rightKeys: seq<string>)

  /** Pairwise, every left key is an available column and every right key is a bare name. */
  predicate Sound(keys: JoinKeys, available: seq<string>) {
    |keys.leftKeys| == |keys.rightKeys|
    && (forall k :: 0 <= k < |keys.leftKeys| ==> keys.leftKeys[k] in available)
    && (forall k :: 0 <= k < |keys.rightKeys| ==> '.' !in keys.rightKeys[k])
  }

  function Append(keys: JoinKeys, pair: Option<(string, string)>): JoinKeys {
    match pair
    case None => keys
    case Some(p) => JoinKeys(keys.leftKeys + [p.0], keys.rightKeys + [p.1])
  }

  /** The pairs of a list of comparisons, in order. */
  function ComparisonKeys(comps: seq<string>, alias: string, available: seq<string>): (r: JoinKeys)
    ensures Sound(r, available)
  {
    if comps == [] then JoinKeys([], [])
    else Append(ComparisonKeys(comps[..|comps| - 1], alias, available), KeyPair(comps[|comps| - 1], alias, available))
  }

  /** A JOIN clause is about the table when it names the table or its alias. */
  predicate About(join: JoinClause, table: string, alias: string) {
    join.table == table || join.alias == Some(alias)
  }

  /** The pairs of all JOIN clauses about the table, in clause order. */
  function JoinClauseKeys(joins: seq<JoinClause>, table: string, alias: string, available: seq<string>): (r: JoinKeys)
    ensures Sound(r, available)
  {
    if joins == [] then JoinKeys([], [])
    else
      var init := JoinClauseKeys(joins[..|joins| - 1], table, alias, available);
      var join := joins[|joins| - 1];
      if !About(join, table, alias) then init
      else
        var more := ComparisonKeys(Comparisons(join.condition), alias, available);
        JoinKeys(init.leftKeys + more.leftKeys, init.rightKeys + more.rightKeys)
  }

  /**
   * `_get_join_keys` (core/fdw_manager.py:574-600): `None` when no pair
   * was found; otherwise the pairs, left keys available in the merged
   * frame and right keys bare column names.
   */
  function GetJoinKeys(joins: seq<JoinClause>, table: string, alias: string, available: seq<string>): (r: Option<JoinKeys>)
    ensures r.None? <==> JoinClauseKeys(joins, table, alias, available).leftKeys == []
    ensures r.Some? ==> Sound(r.value, available) && r.value.leftKeys != []
  {
    var keys := JoinClauseKeys(joins, table, alias, available);
    if keys.leftKeys == [] then None else Some(keys)
  }

  /** A JOIN clause about another table contributes nothing. */
  lemma UnrelatedJoinIgnored(joins: seq<JoinClause>, join: JoinClause, table: string, alias: string, available: seq<string>)
    requires !About(join, table, alias)
    ensures JoinClauseKeys(joins + [join], table, alias, available) == JoinClauseKeys(joins, table, alias, available)
  {
    assert (joins + [join])[..|joins|] == joins;
  }

  // ================================================================ pd.merge(how='left', suffixes=('', '_DROP'))

  predicate EndsWithDrop(c: string) {
    |c| >= 5 && c[|c| - 5..] == "_DROP"
  }

  /** The positions of the key columns, or `None` (pandas' `KeyError`) when one is missing. */
  function Positions(cols: seq<string>, keys: seq<string>): (r: Option<seq<nat>>)
    ensures r.Some? <==> forall k :: 0 <= k < |keys| ==> keys[k] in cols
    ensures r.Some? ==> |r.value| == |keys|
  {
    if keys == [] then Some([])
    else
      match Positions(cols, keys[..|keys| - 1])
      case None => None
      case Some(init) =>
        match IndexOf(cols, keys[|keys| - 1])
        case None => None
        case Some(i) => Some(init + [i])
  }

  /** The key cells of a left row equal those of a right row, pairwise. */
  predicate KeysMatch(l: seq<Value>, r: seq<Value>, li: seq<nat>, ri: seq<nat>)
    requires |li| == |ri|
  {
    forall t :: 0 <= t < |li| ==> CellAt(l, li[t]) == CellAt(r, ri[t])
  }

  /** The right rows that match a left row, in right order. */
  function Matching(l: seq<Value>, rows: seq<seq<Value>>, li: seq<nat>, ri: seq<nat>): (r: seq<seq<Value>>)
    requires |li| == |ri|
    ensures |r| <= |rows|
    ensures forall k :: 0 <= k < |r| ==> r[k] in rows
  {
    if rows == [] then []
    else
      var last := rows[|rows| - 1];
      Matching(l, rows[..|rows| - 1], li, ri) + (if KeysMatch(l, last, li, ri) then [last] else [])
  }

  function Nulls(n: nat): (r: seq<Value>)
    ensures |r| == n
  {
    seq(n, k => None)
  }

  /**
   * What a left row becomes: itself extended by each matching right row,
   * or, when none matches, by missing values.
   */
  function RowGroup(l: seq<Value>, right: Frame, li: seq<nat>, ri: seq<nat>): (g: seq<seq<Value>>)
    requires |li| == |ri|
    ensures g != []
    ensures forall k :: 0 <= k < |g| ==> |l| <= |g[k]| && g[k][..|l|] == l
    ensures WellFormed(right) ==> forall k :: 0 <= k < |g| ==> |g[k]| == |l| + |right.columns|
    ensures |g| == if Matching(l, right.rows, li, ri) == [] then 1 else |Matching(l, right.rows, li, ri)|
    // no match: one row padded with missing cells; otherwise the matches, in right order
    ensures Matching(l, right.rows, li, ri) == [] ==> g == [l + Nulls(|right.columns|)]
    ensures Matching(l, right.rows, li, ri) != [] ==>
      forall k :: 0 <= k < |g| ==> g[k] == l + Matching(l, right.rows, li, ri)[k]
  {
    var ms := Matching(l, right.rows, li, ri);
    if ms == [] then [l + Nulls(|right.columns|)]
    else seq(|ms|, k requires 0 <= k < |ms| => l + ms[k])
  }

  function Flatten(groups: seq<seq<seq<Value>>>): (r: seq<seq<Value>>) {
    if groups == [] then [] else Flatten(groups[..|groups| - 1]) + groups[|groups| - 1]
  }

  /** Right columns that clash with a left column get the `_DROP` suffix. */
  function Suffixed(right: seq<string>, left: seq<string>): (r: seq<string>)
    ensures |r| == |right|
    ensures forall k :: 0 <= k < |r| ==> r[k] == if right[k] in left then right[k] + "_DROP" else right[k]
  {
    seq(|right|, k requires 0 <= k < |right| => if right[k] in left then right[k] + "_DROP" else right[k])
  }

  /** The merged frame before the `_DROP` columns go: one group of rows per left row, in left order. */
  function Joined(left: Frame, right: Frame, li: seq<nat>, ri: seq<nat>): Frame
    requires |li| == |ri|
  {
    Frame(left.columns + Suffixed(right.columns, left.columns),
      Flatten(Groups(left, right, li, ri)))
  }

  /** One group of output rows per left row, in left order. */
  function Groups(left: Frame, right: Frame, li: seq<nat>, ri: seq<nat>): (r: seq<seq<seq<Value>>>)
    requires |li| == |ri|
    ensures |r| == |left.rows|
    ensures forall i :: 0 <= i < |left.rows| ==> r[i] == RowGroup(left.rows[i], right, li, ri)
  {
    seq(|left.rows|, i requires 0 <= i < |left.rows| => RowGroup(left.rows[i], right, li, ri))
  }

  /** Positions of the columns that do not end in `_DROP`. */
  function KeptPositions(cols: seq<string>): (r: seq<nat>)
    ensures forall k :: 0 <= k < |r| ==> r[k] < |cols| && !EndsWithDrop(cols[r[k]])
    ensures forall i :: 0 <= i < |cols| && !EndsWithDrop(cols[i]) ==> i in r
    ensures forall i, j :: 0 <= i < j < |r| ==> r[i] < r[j]
  {
    if cols == [] then []
    else KeptPositions(cols[..|cols| - 1]) + (if EndsWithDrop(cols[|cols| - 1]) then [] else [|cols| - 1])
  }

  function Project(row: seq<Value>, positions: seq<nat>): (r: seq<Value>)
    ensures |r| == |positions|
  {
    seq(|positions|, k requires 0 <= k < |positions| => CellAt(row, positions[k]))
  }

  /** `merged[[c for c in merged.columns if not c.endswith('_DROP')]]` */
  function DropSuffixed(f: Frame): (r: Frame)
    ensures WellFormed(r)
    ensures forall c :: c in r.columns <==> c in f.columns && !EndsWithDrop(c)
    ensures |r.rows| == |f.rows|
    // the kept columns stay in their order, each with its cells
    ensures |r.columns| == |KeptPositions(f.columns)|
    ensures forall k :: 0 <= k < |r.columns| ==> r.columns[k] == f.columns[KeptPositions(f.columns)[k]]
    ensures forall i, k :: 0 <= i < |r.rows| && 0 <= k < |r.columns| ==>
      r.rows[i][k] == CellAt(f.rows[i], KeptPositions(f.columns)[k])
  {
    var keep := KeptPositions(f.columns);
    KeptNames(f.columns);
    Frame(KeptColumns(f.columns), seq(|f.rows|, i requires 0 <= i < |f.rows| => Project(f.rows[i], keep)))
  }

  /** The column labels at the kept positions. */
  function KeptColumns(cols: seq<string>): (r: seq<string>)
    ensures |r| == |KeptPositions(cols)|
    ensures forall k :: 0 <= k < |r| ==> r[k] == cols[KeptPositions(cols)[k]]
  {
    var keep := KeptPositions(cols);
    seq(|keep|, k requires 0 <= k < |keep| => cols[keep[k]])
  }

  /** The kept labels are exactly those that do not end in `_DROP`. */
  lemma KeptNames(cols: seq<string>)
    ensures forall c :: c in KeptColumns(cols) <==> c in cols && !EndsWithDrop(c)
  {
    var keep := KeptPositions(cols);
    forall c | c in cols && !EndsWithDrop(c) ensures c in KeptColumns(cols) {
      var i :| 0 <= i < |cols| && cols[i] == c;
      var k :| 0 <= k < |keep| && keep[k] == i;
      assert KeptColumns(cols)[k] == c;
    }
  }

  /**
   * `pd.merge(left, right, how='left', left_on=…, right_on=…,
   * suffixes=('', '_DROP'))` followed by dropping the `_DROP` columns;
   * a key that names no column is pandas' `KeyError`.
   */
  function LeftMerge(left: Frame, right: Frame, leftKeys: seq<string>, rightKeys: seq<string>): (r: Result<Frame, string>)
    ensures r.Ok? <==> (|leftKeys| == |rightKeys|
      && (forall k :: 0 <= k < |leftKeys| ==> leftKeys[k] in left.columns)
      && (forall k :: 0 <= k < |rightKeys| ==> rightKeys[k] in right.columns))
    ensures r.Ok? ==> WellFormed(r.value)
  {
    if |leftKeys| != |rightKeys| then Err("ValueError: len(right_on) must equal len(left_on)")
    else
      match Positions(left.columns, leftKeys)
      case None => Err("KeyError")
      case Some(li) =>
        match Positions(right.columns, rightKeys)
        case None => Err("KeyError")
        case Some(ri) => Ok(DropSuffixed(Joined(left, right, li, ri)))
  }

  // ================================================================ pd.concat(axis=1)

  function RowOrNulls(f: Frame, i: nat): seq<Value> {
    if i < |f.rows| then f.rows[i] else Nulls(|f.columns|)
  }

  /**
   * `pd.concat([a, b], axis=1)` on two frames with the default index: row
   * `i` of the result is row `i` of each side, padded with missing values
   * where a side is shorter.
   */
  function Concat(a: Frame, b: Frame): (r: Frame)
    ensures r.columns == a.columns + b.columns
    ensures |r.rows| == if |a.rows| >= |b.rows| then |a.rows| else |b.rows|
    ensures forall i :: 0 <= i < |r.rows| ==> r.rows[i] == RowOrNulls(a, i) + RowOrNulls(b, i)
  {
    var n := if |a.rows| >= |b.rows| then |a.rows| else |b.rows|;
    Frame(a.columns + b.columns, seq(n, i requires 0 <= i < n => RowOrNulls(a, i) + RowOrNulls(b, i)))
  }

  /** Side by side keeps both frames rectangular. */
  lemma ConcatWellFormed(a: Frame, b: Frame)
    requires WellFormed(a) && WellFormed(b)
    ensures WellFormed(Concat(a, b))
  {
  }

  // ================================================================ what the left merge keeps

  /**
   * The merged frame has every column of either side except those ending
   * in `_DROP`: a right column that clashes with a left one is dropped,
   * the left one kept.
   */
  lemma LeftMergeColumns(left: Frame, right: Frame, leftKeys: seq<string>, rightKeys: seq<string>, c: string)
    requires LeftMerge(left, right, leftKeys, rightKeys).Ok?
    ensures c in LeftMerge(left, right, leftKeys, rightKeys).value.columns <==>
      (c in left.columns || c in right.columns) && !EndsWithDrop(c)
  {
    var li := Positions(left.columns, leftKeys).value;
    var ri := Positions(right.columns, rightKeys).value;
    var joined := Joined(left, right, li, ri);
    assert LeftMerge(left, right, leftKeys, rightKeys).value == DropSuffixed(joined);
    assert joined.columns == left.columns + Suffixed(right.columns, left.columns);
    SuffixedColumns(left.columns, right.columns, c);
  }

  /** Outside the `_DROP` names, the columns before dropping are those of either side. */
  lemma SuffixedColumns(leftCols: seq<string>, rightCols: seq<string>, c: string)
    ensures (c in leftCols + Suffixed(rightCols, leftCols) && !EndsWithDrop(c)) <==>
      (c in leftCols || c in rightCols) && !EndsWithDrop(c)
  {
    var suffixed := Suffixed(rightCols, leftCols);
    forall x | x in leftCols
      ensures EndsWithDrop(x + "_DROP")
    {
      assert (x + "_DROP")[|x + "_DROP"| - 5..] == "_DROP";
    }
    if c in rightCols && c !in leftCols {
      var k :| 0 <= k < |rightCols| && rightCols[k] == c;
      assert suffixed[k] == c;
    }
    if c in suffixed && !EndsWithDrop(c) {
      var k :| 0 <= k < |suffixed| && suffixed[k] == c;
      assert rightCols[k] == c;
    }
  }

  lemma {:induction false} FlattenAtLeast(groups: seq<seq<seq<Value>>>)
    requires forall i :: 0 <= i < |groups| ==> groups[i] != []
    ensures |Flatten(groups)| >= |groups|
  {
    if groups != [] {
      FlattenAtLeast(groups[..|groups| - 1]);
    }
  }

  lemma {:induction false} FlattenSingletons(groups: seq<seq<seq<Value>>>)
    requires forall i :: 0 <= i < |groups| ==> |groups[i]| == 1
    ensures |Flatten(groups)| == |groups|
  {
    if groups != [] {
      FlattenSingletons(groups[..|groups| - 1]);
    }
  }

  /**
   * A left merge keeps every row of the accumulated frame: it never has
   * fewer rows, and (on a rectangular frame) each of its rows is a left
   * row, in left order, with every left cell outside the `_DROP` columns.
   */
  lemma LeftMergeKeepsRows(left: Frame, right: Frame, leftKeys: seq<string>, rightKeys: seq<string>)
    requires LeftMerge(left, right, leftKeys, rightKeys).Ok?
    ensures |LeftMerge(left, right, leftKeys, rightKeys).value.rows| >= |left.rows|
    ensures WellFormed(left) ==> exists origin :: Origins(left, LeftMerge(left, right, leftKeys, rightKeys).value, origin)
  {
    var li := Positions(left.columns, leftKeys).value;
    var ri := Positions(right.columns, rightKeys).value;
    var groups := Groups(left, right, li, ri);
    FlattenAtLeast(groups);
    if WellFormed(left) {
      var joined := Joined(left, right, li, ri);
      var out := LeftMerge(left, right, leftKeys, rightKeys).value;
      assert out == DropSuffixed(joined) && joined.rows == Flatten(groups);
      assert Grouped(groups, left.rows);
      FlattenOrigin(groups, left.rows);
      var origin := GroupOrigin(groups);
      forall m | 0 <= m < |origin| ensures RowCarried(left, origin[m], out, m) {
        JoinedCarries(left, right, li, ri, origin[m], m);
      }
      assert Origins(left, out, origin);
    }
  }

  /** A joined row that extends left row `i` carries it through the dropping of `_DROP` columns. */
  lemma JoinedCarries(left: Frame, right: Frame, li: seq<nat>, ri: seq<nat>, i: nat, m: nat)
    requires |li| == |ri| && WellFormed(left) && i < |left.rows|
    requires m < |Joined(left, right, li, ri).rows| && Extends(Joined(left, right, li, ri).rows[m], left.rows[i])
    ensures RowCarried(left, i, DropSuffixed(Joined(left, right, li, ri)), m)
  {
    var joined := Joined(left, right, li, ri);
    forall c | c in left.columns && !EndsWithDrop(c)
      ensures c in DropSuffixed(joined).columns && CellOf(DropSuffixed(joined), m, c) == CellOf(left, i, c)
    {
      IndexOfFront(left.columns, Suffixed(right.columns, left.columns), c);
      DropKeepsCells(joined, m, c);
      var j0 := IndexOf(left.columns, c).value;
      assert joined.rows[m][j0] == joined.rows[m][..|left.rows[i]|][j0];
    }
  }

  /** The key cells of a row. */
  function KeyCells(row: seq<Value>, positions: seq<nat>): seq<Value> {
    Project(row, positions)
  }

  /** Rows that match the same left row have the same key cells. */
  lemma SameKeyCells(l: seq<Value>, a: seq<Value>, b: seq<Value>, li: seq<nat>, ri: seq<nat>)
    requires |li| == |ri| && KeysMatch(l, a, li, ri) && KeysMatch(l, b, li, ri)
    ensures KeyCells(a, ri) == KeyCells(b, ri)
  {
  }

  /** The matched rows match, and are taken from the right rows at increasing positions. */
  lemma {:induction false} MatchingMatches(l: seq<Value>, rows: seq<seq<Value>>, li: seq<nat>, ri: seq<nat>)
    requires |li| == |ri|
    ensures forall k :: 0 <= k < |Matching(l, rows, li, ri)| ==> KeysMatch(l, Matching(l, rows, li, ri)[k], li, ri)
  {
    if rows != [] {
      MatchingMatches(l, rows[..|rows| - 1], li, ri);
    }
  }

  /** With distinct right keys, a left row matches at most one right row. */
  lemma {:induction false} AtMostOneMatch(l: seq<Value>, rows: seq<seq<Value>>, li: seq<nat>, ri: seq<nat>)
    requires |li| == |ri|
    requires forall i, j :: 0 <= i < j < |rows| ==> KeyCells(rows[i], ri) != KeyCells(rows[j], ri)
    ensures |Matching(l, rows, li, ri)| <= 1
  {
    if rows != [] {
      var init := rows[..|rows| - 1];
      var last := rows[|rows| - 1];
      AtMostOneMatch(l, init, li, ri);
      if KeysMatch(l, last, li, ri) && Matching(l, init, li, ri) != [] {
        var m := Matching(l, init, li, ri)[0];
        MatchingMatches(l, init, li, ri);
        var j :| 0 <= j < |init| && init[j] == m;
        SameKeyCells(l, m, last, li, ri);
        assert false;
      }
    }
  }

  /**
   * When the right frame's key cells are distinct, the left merge has
   * exactly one row per row of the accumulated frame.
   */
  lemma LeftMergeUniqueRight(left: Frame, right: Frame, leftKeys: seq<string>, rightKeys: seq<string>)
    requires LeftMerge(left, right, leftKeys, rightKeys).Ok?
    requires forall i, j :: 0 <= i < j < |right.rows| ==>
      KeyCells(right.rows[i], Positions(right.columns, rightKeys).value) != KeyCells(right.rows[j], Positions(right.columns, rightKeys).value)
    ensures |LeftMerge(left, right, leftKeys, rightKeys).value.rows| == |left.rows|
  {
    var li := Positions(left.columns, leftKeys).value;
    var ri := Positions(right.columns, rightKeys).value;
    var groups := Groups(left, right, li, ri);
    forall i | 0 <= i < |left.rows| ensures |groups[i]| == 1 {
      AtMostOneMatch(left.rows[i], right.rows, li, ri);
    }
    FlattenSingletons(groups);
  }

  // ================================================================ what the merge keeps, cell by cell

  /** `df[c]` in row `m`: the cell under the first column labelled `c`. */
  function CellOf(f: Frame, m: nat, c: string): Value
    requires m < |f.rows|
  {
    match IndexOf(f.columns, c)
    case None => None
    case Some(j) => CellAt(f.rows[m], j)
  }

  /**
   * Row `m` of `out` carries row `i` of `left`: every column of `left`
   * not ending in `_DROP` is a column of `out`, with the same cell.
   */
  ghost predicate RowCarried(left: Frame, i: nat, out: Frame, m: nat) {
    && i < |left.rows| && m < |out.rows|
    && forall c :: c in left.columns && !EndsWithDrop(c) ==>
         c in out.columns && CellOf(out, m, c) == CellOf(left, i, c)
  }

  /** Every row of `left` reappears in `out`, in order, at the increasing positions `pos`. */
  ghost predicate Embeds(left: Frame, out: Frame, pos: seq<nat>) {
    && |pos| == |left.rows|
    && (forall i, j :: 0 <= i < j < |pos| ==> pos[i] < pos[j])
    && (forall i :: 0 <= i < |pos| ==> RowCarried(left, i, out, pos[i]))
  }

  /**
   * Every row of `out` comes from row `origin[m]` of `left`, in left
   * order, and every row of `left` gives at least one: a left merge adds
   * no row of its own and drops none.
   */
  ghost predicate Origins(left: Frame, out: Frame, origin: seq<nat>) {
    && |origin| == |out.rows|
    && (forall m, n :: 0 <= m < n < |origin| ==> origin[m] <= origin[n])
    && (forall m :: 0 <= m < |origin| ==> RowCarried(left, origin[m], out, m))
    && (forall i :: 0 <= i < |left.rows| ==> i in origin)
  }

  /** A label present in the first part is found there. */
  lemma {:induction false} IndexOfFront(a: seq<string>, b: seq<string>, c: string)
    requires c in a
    ensures IndexOf(a + b, c) == IndexOf(a, c)
  {
    var j := IndexOf(a, c).value;
    assert (a + b)[j] == c;
  }

  /** Dropping the `_DROP` columns keeps every cell of the other columns. */
  lemma DropKeepsCells(f: Frame, m: nat, c: string)
    requires m < |f.rows| && c in f.columns && !EndsWithDrop(c)
    ensures c in DropSuffixed(f).columns && CellOf(DropSuffixed(f), m, c) == CellOf(f, m, c)
  {
    var d := DropSuffixed(f);
    var kk := KeptIndex(f.columns, c);
    assert d.columns == KeptColumns(f.columns);
    assert d.rows[m][kk] == CellAt(f.rows[m], KeptPositions(f.columns)[kk]);
  }

  /** A kept label is found among the kept labels at the place that keeps its first position. */
  lemma KeptIndex(cols: seq<string>, c: string) returns (kk: nat)
    requires c in cols && !EndsWithDrop(c)
    ensures kk < |KeptPositions(cols)| && IndexOf(KeptColumns(cols), c) == Some(kk)
    ensures KeptPositions(cols)[kk] == IndexOf(cols, c).value
  {
    var keep := KeptPositions(cols);
    var kept := KeptColumns(cols);
    var j0 := IndexOf(cols, c).value;
    var k0 :| 0 <= k0 < |keep| && keep[k0] == j0;
    assert kept[k0] == c;
    kk := IndexOf(kept, c).value;
    assert kk <= k0;
    assert keep[kk] <= keep[k0];
    assert cols[keep[kk]] == c;
  }

  /** The origin of each row of `Flatten(groups)`: the index of its group. */
  function GroupOrigin(groups: seq<seq<seq<Value>>>): (r: seq<nat>)
    ensures |r| == |Flatten(groups)|
    ensures forall m :: 0 <= m < |r| ==> r[m] < |groups|
  {
    if groups == [] then []
    else GroupOrigin(groups[..|groups| - 1]) + seq(|groups[|groups| - 1]|, _ => |groups| - 1)
  }

  /** `rows[i]` is a prefix of every row of `groups[i]`. */
  ghost predicate Grouped(groups: seq<seq<seq<Value>>>, rows: seq<seq<Value>>) {
    && |groups| == |rows|
    && (forall i :: 0 <= i < |groups| ==> groups[i] != [])
    && (forall i, k :: 0 <= i < |groups| && 0 <= k < |groups[i]| ==>
          Extends(groups[i][k], rows[i]))
  }

  /** `row` starts with `prefix`. */
  ghost predicate Extends(row: seq<Value>, prefix: seq<Value>) {
    |prefix| <= |row| && row[..|prefix|] == prefix
  }

  /** Flattening keeps the groups in order, each row extending its group's row, and leaves no group out. */
  lemma {:induction false} FlattenOrigin(groups: seq<seq<seq<Value>>>, rows: seq<seq<Value>>)
    requires Grouped(groups, rows)
    ensures forall m, n :: 0 <= m < n < |GroupOrigin(groups)| ==> GroupOrigin(groups)[m] <= GroupOrigin(groups)[n]
    ensures forall m :: 0 <= m < |GroupOrigin(groups)| ==> Extends(Flatten(groups)[m], rows[GroupOrigin(groups)[m]])
    ensures forall i :: 0 <= i < |groups| ==> i in GroupOrigin(groups)
  {
    if groups != [] {
      var init, last := groups[..|groups| - 1], groups[|groups| - 1];
      var top := |groups| - 1;
      assert Grouped(init, rows[..top]);
      FlattenOrigin(init, rows[..top]);
      var o0, f0 := GroupOrigin(init), Flatten(init);
      var o, flat := GroupOrigin(groups), Flatten(groups);
      assert o == o0 + seq(|last|, _ => top) && flat == f0 + last;
      forall m | 0 <= m < |o|
        ensures Extends(flat[m], rows[o[m]])
      {
        if m < |o0| {
          assert o[m] == o0[m] && flat[m] == f0[m] && rows[o[m]] == rows[..top][o0[m]];
        } else {
          assert o[m] == top && flat[m] == last[m - |o0|];
        }
      }
      forall i | 0 <= i < |groups| ensures i in o {
        if i < top {
          assert i in o0;
          var m :| 0 <= m < |o0| && o0[m] == i;
          assert o[m] == i;
        } else {
          assert o[|o0|] == i;
        }
      }
    }
  }

  /** Side by side, row `i` of the first frame stays row `i`, with its cells. */
  lemma ConcatKeepsRows(a: Frame, b: Frame)
    requires WellFormed(a)
    ensures Embeds(a, Concat(a, b), seq(|a.rows|, i => i))
  {
    var out := Concat(a, b);
    forall i, c | 0 <= i < |a.rows| && c in a.columns && !EndsWithDrop(c)
      ensures c in out.columns && CellOf(out, i, c) == CellOf(a, i, c)
    {
      IndexOfFront(a.columns, b.columns, c);
      assert out.rows[i] == a.rows[i] + RowOrNulls(b, i);
    }
  }

  /** A position of `x` in `xs`. */
  function Where(xs: seq<nat>, x: nat): (r: nat)
    requires x in xs
    ensures r < |xs| && xs[r] == x
  {
    if xs[0] == x then 0 else 1 + Where(xs[1..], x)
  }

  /** Rows that all come from the left, in order, covering it, embed the left frame. */
  lemma OriginsEmbed(left: Frame, out: Frame, origin: seq<nat>)
    requires Origins(left, out, origin)
    ensures Embeds(left, out, seq(|left.rows|, i requires 0 <= i < |left.rows| => Where(origin, i)))
  {
    var pos := seq(|left.rows|, i requires 0 <= i < |left.rows| => Where(origin, i));
    forall i, j | 0 <= i < j < |pos| ensures pos[i] < pos[j] {
      assert origin[pos[i]] == i && origin[pos[j]] == j;
    }
  }

  /** Embeddings compose: the rows of `a` reappear in `c` at `q[p[i]]`. */
  lemma EmbedsCompose(a: Frame, b: Frame, c: Frame, p: seq<nat>, q: seq<nat>)
    requires Embeds(a, b, p) && Embeds(b, c, q)
    ensures Embeds(a, c, seq(|p|, i requires 0 <= i < |p| => q[p[i]]))
  {
    var pq := seq(|p|, i requires 0 <= i < |p| => q[p[i]]);
    forall i | 0 <= i < |p| ensures RowCarried(a, i, c, pq[i]) {
      assert RowCarried(a, i, b, p[i]) && RowCarried(b, p[i], c, q[p[i]]);
    }
    forall i, j | 0 <= i < j < |p| ensures pq[i] < pq[j] {
      assert p[i] < p[j];
    }
  }

  // ================================================================ what the right side contributes

  /** The key test of a left row, as a predicate on right rows. */
  function KeyTest(l: seq<Value>, li: seq<nat>, ri: seq<nat>): seq<Value> -> bool
    requires |li| == |ri|
  {
    r => KeysMatch(l, r, li, ri)
  }

  /** The matching right rows are exactly the right rows that pass the key test, in right order. */
  lemma {:induction false} MatchingIsFilter(l: seq<Value>, rows: seq<seq<Value>>, li: seq<nat>, ri: seq<nat>)
    requires |li| == |ri|
    ensures Matching(l, rows, li, ri) == Filter(rows, KeyTest(l, li, ri))
  {
    if rows != [] {
      var init, last := rows[..|rows| - 1], rows[|rows| - 1];
      MatchingIsFilter(l, init, li, ri);
      assert rows == init + [last];
      FilterSnoc(init, last, KeyTest(l, li, ri));
    }
  }

  /** A right row that matches is among the matching rows. */
  lemma MatchingComplete(l: seq<Value>, rows: seq<seq<Value>>, li: seq<nat>, ri: seq<nat>, r: seq<Value>)
    requires |li| == |ri| && r in rows && KeysMatch(l, r, li, ri)
    ensures r in Matching(l, rows, li, ri)
  {
    MatchingIsFilter(l, rows, li, ri);
    var j :| 0 <= j < |rows| && rows[j] == r;
    assert KeyTest(l, li, ri)(rows[j]);
  }

  /** No right row matches exactly when the matching rows are none. */
  lemma NoMatchingRow(l: seq<Value>, rows: seq<seq<Value>>, li: seq<nat>, ri: seq<nat>)
    requires |li| == |ri|
    ensures Matching(l, rows, li, ri) == [] <==> forall r :: r in rows ==> !KeysMatch(l, r, li, ri)
  {
    MatchingMatches(l, rows, li, ri);
    forall r | r in rows && KeysMatch(l, r, li, ri) ensures r in Matching(l, rows, li, ri) {
      MatchingComplete(l, rows, li, ri, r);
    }
  }

  /** The cell of right row `r` under the first right column labelled `c`. */
  function RightCell(right: Frame, r: seq<Value>, c: string): Value {
    match IndexOf(right.columns, c)
    case None => None
    case Some(j) => CellAt(r, j)
  }

  /** A right column that keeps its own name through the merge: no left column has it. */
  predicate RightOnly(left: Frame, right: Frame, c: string) {
    c in right.columns && c !in left.columns && !EndsWithDrop(c)
  }

  /** Row `m` of `out` holds the cells of right row `r` under every right-only column. */
  ghost predicate HoldsRight(left: Frame, right: Frame, r: seq<Value>, out: Frame, m: nat)
    requires m < |out.rows|
  {
    forall c :: RightOnly(left, right, c) ==> CellOf(out, m, c) == RightCell(right, r, c)
  }

  /**
   * Row `m` of `out`, which comes from left row `i`, holds under every
   * right-only column the cells of one right row that matches row `i`;
   * when no right row matches, it holds missing cells there.
   */
  ghost predicate RightFilled(left: Frame, right: Frame, li: seq<nat>, ri: seq<nat>, i: nat, out: Frame, m: nat)
    requires |li| == |ri| && i < |left.rows| && m < |out.rows|
  {
    if exists r :: r in right.rows && KeysMatch(left.rows[i], r, li, ri) then
      exists r :: r in right.rows && KeysMatch(left.rows[i], r, li, ri) && HoldsRight(left, right, r, out, m)
    else
      forall c :: RightOnly(left, right, c) ==> CellOf(out, m, c) == None
  }

  /** Every right row that matches left row `i` shows up, with its cells, in some output row from row `i`. */
  ghost predicate MatchesShown(left: Frame, right: Frame, li: seq<nat>, ri: seq<nat>, out: Frame, origin: seq<nat>)
    requires |li| == |ri| && |origin| == |out.rows|
  {
    forall i, r :: 0 <= i < |left.rows| && r in right.rows && KeysMatch(left.rows[i], r, li, ri) ==>
      exists m :: 0 <= m < |origin| && origin[m] == i && HoldsRight(left, right, r, out, m)
  }

  /**
   * The left join proper: every output row comes from one left row, in
   * order, keeps its cells, and under the right-only columns holds a
   * matching right row or, when none matches, missing cells; and every
   * matching pair of rows appears.
   */
  lemma LeftMergeRightCells(left: Frame, right: Frame, leftKeys: seq<string>, rightKeys: seq<string>)
    requires LeftMerge(left, right, leftKeys, rightKeys).Ok? && WellFormed(left)
    ensures exists origin :: (Origins(left, LeftMerge(left, right, leftKeys, rightKeys).value, origin)
      && (forall m :: 0 <= m < |origin| ==> RightFilled(left, right, Positions(left.columns, leftKeys).value,
            Positions(right.columns, rightKeys).value, origin[m], LeftMerge(left, right, leftKeys, rightKeys).value, m))
      && MatchesShown(left, right, Positions(left.columns, leftKeys).value, Positions(right.columns, rightKeys).value,
            LeftMerge(left, right, leftKeys, rightKeys).value, origin))
  {
    var li := Positions(left.columns, leftKeys).value;
    var ri := Positions(right.columns, rightKeys).value;
    var out := LeftMerge(left, right, leftKeys, rightKeys).value;
    assert out == DropSuffixed(Joined(left, right, li, ri));
    JoinedOrigins(left, right, li, ri);
    JoinedRightFilled(left, right, li, ri);
    JoinedMatchesShown(left, right, li, ri);
    var origin := GroupOrigin(Groups(left, right, li, ri));
    assert Origins(left, out, origin);
  }

  /** The joined rows come from the left rows through `GroupOrigin`. */
  lemma JoinedOrigins(left: Frame, right: Frame, li: seq<nat>, ri: seq<nat>)
    requires |li| == |ri| && WellFormed(left)
    ensures Origins(left, DropSuffixed(Joined(left, right, li, ri)), GroupOrigin(Groups(left, right, li, ri)))
  {
    var groups := Groups(left, right, li, ri);
    var out := DropSuffixed(Joined(left, right, li, ri));
    assert Grouped(groups, left.rows);
    FlattenOrigin(groups, left.rows);
    var origin := GroupOrigin(groups);
    forall m | 0 <= m < |origin| ensures RowCarried(left, origin[m], out, m) {
      JoinedCarries(left, right, li, ri, origin[m], m);
    }
  }

  /** Each joined row fills the right-only columns from a matching right row, or with missing cells. */
  lemma JoinedRightFilled(left: Frame, right: Frame, li: seq<nat>, ri: seq<nat>)
    requires |li| == |ri| && WellFormed(left)
    ensures forall m :: 0 <= m < |GroupOrigin(Groups(left, right, li, ri))| ==>
      RightFilled(left, right, li, ri, GroupOrigin(Groups(left, right, li, ri))[m], DropSuffixed(Joined(left, right, li, ri)), m)
  {
    var groups := Groups(left, right, li, ri);
    var origin := GroupOrigin(groups);
    FlattenMember(groups);
    forall m | 0 <= m < |origin|
      ensures RightFilled(left, right, li, ri, origin[m], DropSuffixed(Joined(left, right, li, ri)), m)
    {
      GroupRowFilled(left, right, li, ri, origin[m], m);
    }
  }

  /** Every matching pair of a left and a right row gives a joined row. */
  lemma JoinedMatchesShown(left: Frame, right: Frame, li: seq<nat>, ri: seq<nat>)
    requires |li| == |ri| && WellFormed(left)
    ensures MatchesShown(left, right, li, ri, DropSuffixed(Joined(left, right, li, ri)), GroupOrigin(Groups(left, right, li, ri)))
  {
    var origin := GroupOrigin(Groups(left, right, li, ri));
    var out := DropSuffixed(Joined(left, right, li, ri));
    forall i, r | 0 <= i < |left.rows| && r in right.rows && KeysMatch(left.rows[i], r, li, ri)
      ensures exists m :: 0 <= m < |origin| && origin[m] == i && HoldsRight(left, right, r, out, m)
    {
      var m := MatchRow(left, right, li, ri, i, r);
    }
  }

  /** The output row for left row `i` and a right row `r` that matches it. */
  lemma MatchRow(left: Frame, right: Frame, li: seq<nat>, ri: seq<nat>, i: nat, r: seq<Value>) returns (m: nat)
    requires |li| == |ri| && WellFormed(left) && i < |left.rows|
    requires r in right.rows && KeysMatch(left.rows[i], r, li, ri)
    ensures m < |GroupOrigin(Groups(left, right, li, ri))| && GroupOrigin(Groups(left, right, li, ri))[m] == i
    ensures HoldsRight(left, right, r, DropSuffixed(Joined(left, right, li, ri)), m)
  {
    var groups := Groups(left, right, li, ri);
    var l := left.rows[i];
    var ms := Matching(l, right.rows, li, ri);
    MatchingComplete(l, right.rows, li, ri, r);
    var k :| 0 <= k < |ms| && ms[k] == r;
    assert groups[i][k] == l + r;
    m := FlattenPosition(groups, i, k);
    var joined := Joined(left, right, li, ri);
    assert joined.rows[m] == l + r;
    forall c | RightOnly(left, right, c) ensures CellOf(DropSuffixed(joined), m, c) == RightCell(right, r, c) {
      RightOnlyCell(left, right, joined, m, c);
      assert joined.rows[m][|left.columns|..] == r;
    }
  }

  /** A joined row from left row `i` fills the right-only columns as `RightFilled` says. */
  lemma GroupRowFilled(left: Frame, right: Frame, li: seq<nat>, ri: seq<nat>, i: nat, m: nat)
    requires |li| == |ri| && WellFormed(left) && i < |left.rows|
    requires m < |Joined(left, right, li, ri).rows|
    requires Joined(left, right, li, ri).rows[m] in RowGroup(left.rows[i], right, li, ri)
    ensures RightFilled(left, right, li, ri, i, DropSuffixed(Joined(left, right, li, ri)), m)
  {
    var joined := Joined(left, right, li, ri);
    var out := DropSuffixed(joined);
    var l := left.rows[i];
    var ms := Matching(l, right.rows, li, ri);
    var g := RowGroup(l, right, li, ri);
    NoMatchingRow(l, right.rows, li, ri);
    var k :| 0 <= k < |g| && g[k] == joined.rows[m];
    if ms == [] {
      assert joined.rows[m][|left.columns|..] == Nulls(|right.columns|);
      forall c | RightOnly(left, right, c) ensures CellOf(out, m, c) == None {
        RightOnlyCell(left, right, joined, m, c);
      }
    } else {
      MatchingMatches(l, right.rows, li, ri);
      var r := ms[k];
      assert joined.rows[m][|left.columns|..] == r;
      forall c | RightOnly(left, right, c) ensures CellOf(out, m, c) == RightCell(right, r, c) {
        RightOnlyCell(left, right, joined, m, c);
      }
      assert HoldsRight(left, right, r, out, m);
    }
  }

  /** Under a right-only column, a row laid out as the join lays it out holds the cell of its right part. */
  lemma RightOnlyCell(left: Frame, right: Frame, f: Frame, m: nat, c: string)
    requires RightOnly(left, right, c) && f.columns == left.columns + Suffixed(right.columns, left.columns)
    requires m < |f.rows| && |left.columns| <= |f.rows[m]|
    ensures CellOf(DropSuffixed(f), m, c) == RightCell(right, f.rows[m][|left.columns|..], c)
  {
    RightOnlyIndex(left.columns, right.columns, c);
    ShiftedCell(f, |left.columns|, right, m, c);
    DropKeepsCells(f, m, c);
  }

  /** A column found `n` places after where the right frame has it holds the cell of the row's part after `n`. */
  lemma ShiftedCell(f: Frame, n: nat, right: Frame, m: nat, c: string)
    requires c in right.columns && IndexOf(f.columns, c) == Some(n + IndexOf(right.columns, c).value)
    requires m < |f.rows| && n <= |f.rows[m]|
    ensures c in f.columns && CellOf(f, m, c) == RightCell(right, f.rows[m][n..], c)
  {
    var j := IndexOf(right.columns, c).value;
    var row := f.rows[m];
    assert CellAt(row, n + j) == CellAt(row[n..], j);
  }

  /** A right-only label is found after the left labels, at its right position. */
  lemma RightOnlyIndex(leftCols: seq<string>, rightCols: seq<string>, c: string)
    requires c in rightCols && c !in leftCols && !EndsWithDrop(c)
    ensures IndexOf(leftCols + Suffixed(rightCols, leftCols), c) == Some(|leftCols| + IndexOf(rightCols, c).value)
  {
    SuffixedIndex(rightCols, leftCols, c);
    ShiftedIndex(leftCols, Suffixed(rightCols, leftCols), rightCols, c);
  }

  /** A label absent from `a` and found in `s` where `rc` has it is found in `a + s` shifted by `|a|`. */
  lemma ShiftedIndex(a: seq<string>, s: seq<string>, rc: seq<string>, c: string)
    requires c !in a && c in s && IndexOf(s, c) == IndexOf(rc, c)
    ensures IndexOf(a + s, c) == Some(|a| + IndexOf(rc, c).value)
  {
    IndexOfBack(a, s, c);
  }

  /** Suffixing leaves a label that clashes with no left column, and ends in no `_DROP`, where it was. */
  lemma SuffixedIndex(rightCols: seq<string>, leftCols: seq<string>, c: string)
    requires c in rightCols && c !in leftCols && !EndsWithDrop(c)
    ensures IndexOf(Suffixed(rightCols, leftCols), c) == IndexOf(rightCols, c)
    ensures c in Suffixed(rightCols, leftCols)
  {
    var s := Suffixed(rightCols, leftCols);
    var j := IndexOf(rightCols, c).value;
    assert s[j] == c;
    forall q | 0 <= q < j ensures s[q] != c {
      var x := rightCols[q];
      if x in leftCols {
        assert (x + "_DROP")[|x + "_DROP"| - 5..] == "_DROP";
      }
    }
    FirstIndex(s, c, j);
  }

  /** The first position holding `x` is what `IndexOf` finds. */
  lemma FirstIndex(xs: seq<string>, x: string, j: nat)
    requires j < |xs| && xs[j] == x && forall q :: 0 <= q < j ==> xs[q] != x
    ensures IndexOf(xs, x) == Some(j)
  {
    var r := IndexOf(xs, x).value;
    assert xs[r] == x;
  }

  /** A label absent from the first part is found in the second, shifted by the first part's length. */
  lemma {:induction false} IndexOfBack(a: seq<string>, b: seq<string>, c: string)
    requires c !in a && c in b
    ensures IndexOf(a + b, c) == Some(|a| + IndexOf(b, c).value)
  {
    if a == [] {
      assert a + b == b;
    } else {
      assert (a + b)[1..] == a[1..] + b;
      IndexOfBack(a[1..], b, c);
    }
  }

  /** Every row of `Flatten(groups)` is a row of the group it comes from. */
  lemma {:induction false} FlattenMember(groups: seq<seq<seq<Value>>>)
    ensures forall m :: 0 <= m < |Flatten(groups)| ==> Flatten(groups)[m] in groups[GroupOrigin(groups)[m]]
  {
    if groups != [] {
      var init, last := groups[..|groups| - 1], groups[|groups| - 1];
      FlattenMember(init);
      var o, flat := GroupOrigin(groups), Flatten(groups);
      assert o == GroupOrigin(init) + seq(|last|, _ => |groups| - 1) && flat == Flatten(init) + last;
      forall m | 0 <= m < |flat| ensures flat[m] in groups[o[m]] {
        if m < |Flatten(init)| {
          assert groups[o[m]] == init[GroupOrigin(init)[m]];
        } else {
          assert flat[m] == last[m - |Flatten(init)|];
        }
      }
    }
  }

  /** Row `k` of group `i` sits in `Flatten(groups)` at a position whose origin is `i`. */
  lemma {:induction false} FlattenPosition(groups: seq<seq<seq<Value>>>, i: nat, k: nat) returns (m: nat)
    requires i < |groups| && k < |groups[i]|
    ensures m < |Flatten(groups)| && Flatten(groups)[m] == groups[i][k] && GroupOrigin(groups)[m] == i
  {
    var init, last := groups[..|groups| - 1], groups[|groups| - 1];
    var o, flat := GroupOrigin(groups), Flatten(groups);
    assert o == GroupOrigin(init) + seq(|last|, _ => |groups| - 1) && flat == Flatten(init) + last;
    if i < |groups| - 1 {
      m := FlattenPosition(init, i, k);
    } else {
      m := |Flatten(init)| + k;
    }
  }

  // ================================================================ choosing how to merge each table

  /** `[t for t in rule['tables'] if t in dfs and t != table][0]`, when there is one. */
  function FirstOther(tables: seq<string>, table: string, fetched: seq<string>): (r: Option<string>)
    ensures r.Some? ==> r.value in tables && r.value in fetched && r.value != table
    ensures r.None? <==> forall k :: 0 <= k < |tables| ==> tables[k] !in fetched || tables[k] == table
  {
    if tables == [] then None
    else if tables[0] in fetched && tables[0] != table then Some(tables[0])
    else FirstOther(tables[1..], table, fetched)
  }

  /**
   * The first applicable rule that names the table and another fetched
   * table: that other table and the rule's key.  "Fetched" is every table
   * in `dfs`, merged yet or not.
   */
  function RuleJoin(rules: seq<JoinRule>, table: string, fetched: seq<string>): (r: Option<(string, string)>)
    ensures r.Some? ==> r.value.0 in fetched && r.value.0 != table
  {
    if rules == [] then None
    else if table in rules[0].tables && FirstOther(rules[0].tables, table, fetched).Some? then
      Some((FirstOther(rules[0].tables, table, fetched).value, rules[0].key))
    else RuleJoin(rules[1..], table, fetched)
  }

  /**
   * `RuleJoin` picks the first rule that names the table and another
   * fetched table, and the first such table of that rule; it finds none
   * exactly when no rule qualifies.
   */
  lemma {:induction false} RuleJoinSpec(rules: seq<JoinRule>, table: string, fetched: seq<string>)
    ensures RuleJoin(rules, table, fetched).None? <==> forall k :: 0 <= k < |rules| && table in rules[k].tables ==>
      FirstOther(rules[k].tables, table, fetched).None?
    ensures RuleJoin(rules, table, fetched).Some? ==> exists k :: (0 <= k < |rules| && table in rules[k].tables
      && FirstOther(rules[k].tables, table, fetched) == Some(RuleJoin(rules, table, fetched).value.0)
      && RuleJoin(rules, table, fetched).value.1 == rules[k].key
      && forall j :: 0 <= j < k && table in rules[j].tables ==> FirstOther(rules[j].tables, table, fetched).None?)
  {
    if rules != [] {
      RuleJoinSpec(rules[1..], table, fetched);
      assert forall k :: 1 <= k < |rules| ==> rules[k] == rules[1..][k - 1];
      var r := RuleJoin(rules, table, fetched);
      if !(table in rules[0].tables && FirstOther(rules[0].tables, table, fetched).Some?) && r.Some? {
        var k :| 0 <= k < |rules| - 1 && table in rules[1..][k].tables
          && FirstOther(rules[1..][k].tables, table, fetched) == Some(r.value.0) && r.value.1 == rules[1..][k].key
          && forall j :: 0 <= j < k && table in rules[1..][j].tables ==> FirstOther(rules[1..][j].tables, table, fetched).None?;
        assert rules[k + 1] == rules[1..][k];
      }
    }
  }

  /** The loop over the rules with `break` (core/fdw_manager.py:419-441), as far as it picks a rule. */
  method FindRuleJoin(rules: seq<JoinRule>, table: string, fetched: seq<string>) returns (r: Option<(string, string)>)
    ensures r == RuleJoin(rules, table, fetched)
  {
    r := None;
    for k := 0 to |rules|
      invariant RuleJoin(rules, table, fetched) == RuleJoin(rules[k..], table, fetched)
    {
      assert rules[k..][1..] == rules[k + 1..];
      var rule := rules[k];
      if table in rule.tables {
        var common := FirstOther(rule.tables, table, fetched);
        if common.Some? {
          r := Some((common.value, rule.key));
          return;
        }
      }
    }
  }

  /**
   * Merging one more table into the accumulated frame: by its explicit
   * JOIN keys, else by the first rule that names it and another fetched
   * table, else side by side.  A missing record or key column is an error.
   */
  function MergeStep(merged: Frame, table: string, dfs: Frames, info: Infos, joins: seq<JoinClause>, rules: seq<JoinRule>)
    : Result<Frame, string>
  {
    match Get(info, table)
    case None => Err("KeyError: " + table)
    case Some(rec) =>
      match Get(dfs, table)
      case None => Err("KeyError: " + table)
      case Some(df) =>
        match GetJoinKeys(joins, table, rec.alias, merged.columns)
        case Some(keys) => LeftMerge(merged, df, keys.leftKeys, keys.rightKeys)
        case None =>
          match RuleJoin(rules, table, Keys(dfs))
          case None => Ok(Concat(merged, df))
          case Some(rj) =>
            match Get(info, rj.0)
            case None => Err("KeyError: " + rj.0)
            case Some(common) => LeftMerge(merged, df, [common.alias + "." + rj.1], [rec.alias + "." + rj.1])
  }

  /** Merging the tables in order into `first`; the first failure ends it. */
  function MergeFrom(first: Frame, tables: seq<string>, dfs: Frames, info: Infos, joins: seq<JoinClause>, rules: seq<JoinRule>)
    : Result<Frame, string>
  {
    if tables == [] then Ok(first)
    else
      match MergeFrom(first, tables[..|tables| - 1], dfs, info, joins, rules)
      case Err(e) => Err(e)
      case Ok(merged) => MergeStep(merged, tables[|tables| - 1], dfs, info, joins, rules)
  }

  /**
   * Step 3 as a whole: a single frame is the result as it is; several are
   * merged into the first in `dfs` order; none is an `IndexError`.
   */
  function Merged(dfs: Frames, info: Infos, joins: seq<JoinClause>, rules: seq<JoinRule>): Result<Frame, string> {
    if |dfs| == 1 then Ok(dfs[0].value)
    else if dfs == [] then Err("IndexError: list index out of range")
    else MergeFrom(dfs[0].value, Keys(dfs)[1..], dfs, info, joins, rules)
  }

  /** One turn of the loop of core/fdw_manager.py:400-445. */
  method MergeOne(merged: Frame, table: string, dfs: Frames, info: Infos, joins: seq<JoinClause>, rules: seq<JoinRule>)
    returns (r: Result<Frame, string>)
    ensures r == MergeStep(merged, table, dfs, info, joins, rules)
  {
    var rec := Get(info, table);
    var df := Get(dfs, table);
    if rec.None? || df.None? {
      return Err("KeyError: " + table);
    }
    var joinOn := GetJoinKeys(joins, table, rec.value.alias, merged.columns);
    if joinOn.Some? {
      return LeftMerge(merged, df.value, joinOn.value.leftKeys, joinOn.value.rightKeys);
    }
    var rj := FindRuleJoin(rules, table, Keys(dfs));
    if rj.None? {
      return Ok(Concat(merged, df.value));
    }
    var common := Get(info, rj.value.0);
    if common.None? {
      return Err("KeyError: " + rj.value.0);
    }
    var joinKey := rj.value.1;
    r := LeftMerge(merged, df.value, [common.value.alias + "." + joinKey], [rec.value.alias + "." + joinKey]);
  }

  /** Step 3 (core/fdw_manager.py:393-445): `merged` is reassigned once per further table. */
  method MergeAll(dfs: Frames, info: Infos, joins: seq<JoinClause>, rules: seq<JoinRule>) returns (r: Result<Frame, string>)
    ensures r == Merged(dfs, info, joins, rules)
  {
    if |dfs| == 1 {
      return Ok(dfs[0].value);
    }
    var order := Keys(dfs);
    if |order| == 0 {
      return Err("IndexError: list index out of range");
    }
    r := MergeLoop(dfs[0].value, order[1..], dfs, info, joins, rules);
  }

  /** The loop of core/fdw_manager.py:400-445 over the tables after the first. */
  method MergeLoop(first: Frame, tables: seq<string>, dfs: Frames, info: Infos, joins: seq<JoinClause>,
                   rules: seq<JoinRule>) returns (r: Result<Frame, string>)
    ensures r == MergeFrom(first, tables, dfs, info, joins, rules)
  {
    var merged := first;
    for k := 0 to |tables|
      invariant MergeFrom(first, tables[..k], dfs, info, joins, rules) == Ok(merged)
    {
      MergeNext(first, tables, k, dfs, info, joins, rules, merged);
      var step := MergeOne(merged, tables[k], dfs, info, joins, rules);
      if step.Err? {
        MergeStops(first, tables, dfs, info, joins, rules, k + 1);
        return Err(step.error);
      }
      merged := step.value;
    }
    assert tables[..|tables|] == tables;
    r := Ok(merged);
  }

  /** One more table: the merge so far is merged with it. */
  lemma MergeNext(first: Frame, tables: seq<string>, k: nat, dfs: Frames, info: Infos, joins: seq<JoinClause>,
                  rules: seq<JoinRule>, merged: Frame)
    requires k < |tables| && MergeFrom(first, tables[..k], dfs, info, joins, rules) == Ok(merged)
    ensures MergeFrom(first, tables[..k + 1], dfs, info, joins, rules) == MergeStep(merged, tables[k], dfs, info, joins, rules)
  {
    assert tables[..k + 1][..k] == tables[..k];
  }

  lemma {:induction false} MergeStops(first: Frame, tables: seq<string>, dfs: Frames, info: Infos, joins: seq<JoinClause>,
                                      rules: seq<JoinRule>, k: nat)
    requires k <= |tables| && MergeFrom(first, tables[..k], dfs, info, joins, rules).Err?
    ensures MergeFrom(first, tables, dfs, info, joins, rules) == MergeFrom(first, tables[..k], dfs, info, joins, rules)
    decreases |tables| - k
  {
    if k < |tables| {
      assert tables[..k + 1][..k] == tables[..k];
      MergeStops(first, tables, dfs, info, joins, rules, k + 1);
    } else {
      assert tables[..k] == tables;
    }
  }

  // ================================================================ what step 3 guarantees

  /**
   * Explicit JOIN keys never work on fetched frames: the right keys are
   * bare column names, but every fetched column is `alias.column`, so the
   * merge raises `KeyError` and the query fails.
   */
  lemma ExplicitJoinFails(merged: Frame, table: string, dfs: Frames, info: Infos, joins: seq<JoinClause>, rules: seq<JoinRule>)
    requires Get(info, table).Some? && Get(dfs, table).Some?
    requires FetchedAs(Get(dfs, table).value, Get(info, table).value.alias)
    requires GetJoinKeys(joins, table, Get(info, table).value.alias, merged.columns).Some?
    ensures MergeStep(merged, table, dfs, info, joins, rules).Err?
  {
    var alias := Get(info, table).value.alias;
    var df := Get(dfs, table).value;
    var key := GetJoinKeys(joins, table, alias, merged.columns).value.rightKeys[0];
    forall j | 0 <= j < |df.columns| ensures df.columns[j] != key {
      assert df.columns[j][|alias|] == (alias + ".")[|alias|];
    }
  }

  /**
   * One merge step never loses rows of the accumulated frame: on a
   * rectangular frame, its rows reappear in order with their cells.
   */
  lemma MergeStepKeepsRows(merged: Frame, table: string, dfs: Frames, info: Infos, joins: seq<JoinClause>, rules: seq<JoinRule>)
    requires MergeStep(merged, table, dfs, info, joins, rules).Ok?
    ensures |MergeStep(merged, table, dfs, info, joins, rules).value.rows| >= |merged.rows|
    ensures WellFormed(merged) ==> exists pos :: Embeds(merged, MergeStep(merged, table, dfs, info, joins, rules).value, pos)
  {
    var rec := Get(info, table).value;
    var df := Get(dfs, table).value;
    var out := MergeStep(merged, table, dfs, info, joins, rules).value;
    match GetJoinKeys(joins, table, rec.alias, merged.columns)
    case Some(keys) =>
      LeftMergeKeepsRows(merged, df, keys.leftKeys, keys.rightKeys);
      if WellFormed(merged) {
        var origin :| Origins(merged, out, origin);
        OriginsEmbed(merged, out, origin);
      }
    case None =>
      match RuleJoin(rules, table, Keys(dfs))
      case None =>
        if WellFormed(merged) {
          ConcatKeepsRows(merged, df);
        }
      case Some(rj) =>
        var common := Get(info, rj.0).value;
        LeftMergeKeepsRows(merged, df, [common.alias + "." + rj.1], [rec.alias + "." + rj.1]);
        if WellFormed(merged) {
          var origin :| Origins(merged, out, origin);
          OriginsEmbed(merged, out, origin);
        }
  }

  /** Every fetched frame is rectangular. */
  ghost predicate AllWellFormed(dfs: Frames) {
    forall k :: 0 <= k < |dfs| ==> WellFormed(dfs[k].value)
  }

  /** Merging rectangular frames gives a rectangular frame. */
  lemma MergeStepWellFormed(merged: Frame, table: string, dfs: Frames, info: Infos, joins: seq<JoinClause>, rules: seq<JoinRule>)
    requires MergeStep(merged, table, dfs, info, joins, rules).Ok? && WellFormed(merged) && AllWellFormed(dfs)
    ensures WellFormed(MergeStep(merged, table, dfs, info, joins, rules).value)
  {
    var df := Get(dfs, table).value;
    assert WellFormed(df);
    ConcatWellFormed(merged, df);
  }

  /**
   * The merged result keeps the first fetched frame's rows: at least as
   * many rows, and (for rectangular frames) each first row reappears, in
   * order, with its cells outside the `_DROP` columns; left merges keep
   * every accumulated row and a side-by-side concat keeps the longer side.
   */
  lemma {:induction false} MergeFromKeepsRows(first: Frame, tables: seq<string>, dfs: Frames, info: Infos,
                                              joins: seq<JoinClause>, rules: seq<JoinRule>)
    requires MergeFrom(first, tables, dfs, info, joins, rules).Ok?
    ensures |MergeFrom(first, tables, dfs, info, joins, rules).value.rows| >= |first.rows|
    ensures WellFormed(first) && AllWellFormed(dfs) ==> WellFormed(MergeFrom(first, tables, dfs, info, joins, rules).value)
    ensures WellFormed(first) && AllWellFormed(dfs) ==>
      exists pos :: Embeds(first, MergeFrom(first, tables, dfs, info, joins, rules).value, pos)
  {
    if tables == [] {
      assert Embeds(first, first, seq(|first.rows|, i => i));
    } else {
      var init := tables[..|tables| - 1];
      MergeFromKeepsRows(first, init, dfs, info, joins, rules);
      var merged := MergeFrom(first, init, dfs, info, joins, rules).value;
      var out := MergeFrom(first, tables, dfs, info, joins, rules).value;
      MergeStepKeepsRows(merged, tables[|tables| - 1], dfs, info, joins, rules);
      if WellFormed(first) && AllWellFormed(dfs) {
        MergeStepWellFormed(merged, tables[|tables| - 1], dfs, info, joins, rules);
        var p :| Embeds(first, merged, p);
        var q :| Embeds(merged, out, q);
        EmbedsCompose(first, merged, out, p, q);
      }
    }
  }

  /** A single fetched frame is the result as it is. */
  lemma SingleFrameUnchanged(dfs: Frames, info: Infos, joins: seq<JoinClause>, rules: seq<JoinRule>)
    requires |dfs| == 1
    ensures Merged(dfs, info, joins, rules) == Ok(dfs[0].value)
  {
  }

  /** Without any fetched frame there is nothing to merge into: step 3 fails. */
  lemma NoFrameFails(info: Infos, joins: seq<JoinClause>, rules: seq<JoinRule>)
    ensures Merged([], info, joins, rules).Err?
  {
  }
}
