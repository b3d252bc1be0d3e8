/**
 * `parse_sql` and `_split_columns` (core/fdw_manager.py:124-278).
 *
 * The parser works on the query with every whitespace run collapsed to one
 * space (`Text.Normalize`).  Keyword searches use the lower-cased copy, whose
 * positions coincide with the normalised text.  The JOIN regular expression
 * of line 158 is replaced by a scanner that makes the same choices as the
 * backtracking regex engine does on normalised text (see `MatchJoinTail`).
 */
module Parser {
  import opened Wrappers
  import opened Text
  import opened Dict

  // ================================================================ _split_columns

  /** The scanner state of `_split_columns`: one quote flag shared by `'` and `"`, and the bracket depth. */
  datatype ScanState = ScanState(inQuotes: bool, depth: nat)

  /** How one character changes the scanner state. */
  function Step(st: ScanState, c: char): ScanState {
    if c == '\'' || c == '"' then st.(inQuotes := !st.inQuotes)
    else if c == '(' && !st.inQuotes then st.(depth := st.depth + 1)
    else if c == ')' && !st.inQuotes && st.depth > 0 then st.(depth := st.depth - 1)
    else st
  }

  /** The scanner state after reading the first `i` characters of `s`. */
  function StateAt(s: string, i: nat): ScanState
    requires i <= |s|
  {
    if i == 0 then ScanState(false, 0) else Step(StateAt(s, i - 1), s[i - 1])
  }

  /** A comma outside quotes at bracket depth 0 separates two columns. */
  predicate IsSeparator(s: string, i: nat)
    requires i < |s|
  {
    s[i] == ',' && !StateAt(s, i).inQuotes && StateAt(s, i).depth == 0
  }

  /** The first separator at or after `from`, or `|s|` when there is none. */
  function NextSeparator(s: string, from: nat): (j: nat)
    requires from <= |s|
    ensures from <= j <= |s|
    ensures j < |s| ==> IsSeparator(s, j)
    decreases |s| - from
  {
    if from == |s| then |s| else if IsSeparator(s, from) then from else NextSeparator(s, from + 1)
  }

  /** No separator lies between `from` and the next separator. */
  lemma {:induction false} NextSeparatorFirst(s: string, from: nat, k: nat)
    requires from <= k && from <= |s| && k < NextSeparator(s, from)
    ensures !IsSeparator(s, k)
    decreases k - from
  {
    if from < k {
      NextSeparatorFirst(s, from + 1, k);
    }
  }

  lemma {:induction false} NextSeparatorIs(s: string, from: nat, i: nat)
    requires from <= i <= |s|
    requires forall j :: from <= j < i ==> !IsSeparator(s, j)
    requires i == |s| || IsSeparator(s, i)
    ensures NextSeparator(s, from) == i
    decreases i - from
  {
    if from < i {
      NextSeparatorIs(s, from + 1, i);
    }
  }

  /**
   * The text between consecutive separators from `from` on, unstripped; the
   * text after the last separator counts only when it is not empty.
   */
  function SegmentsFrom(s: string, from: nat): seq<string>
    requires from <= |s|
    decreases |s| - from
  {
    var j := NextSeparator(s, from);
    if j == |s| then (if s[from..] != [] then [s[from..]] else [])
    else [s[from..j]] + SegmentsFrom(s, j + 1)
  }


  /** A separator with none before it since `start` ends the segment that starts at `start`. */
  lemma SeparatorStep(s: string, start: nat, i: nat)
    requires start <= i < |s| && IsSeparator(s, i)
    requires forall j :: start <= j < i ==> !IsSeparator(s, j)
    ensures SegmentsFrom(s, start) == [s[start..i]] + SegmentsFrom(s, i + 1)
  {
    NextSeparatorIs(s, start, i);
  }

  /** The segments a left-to-right scan has completed, and the one it is reading. */
  datatype Progress = Progress(done: seq<string>, current: string)

  /** The scan after the first `i` characters: a separator completes the current segment, any other character extends it. */
  function Scanned(s: string, i: nat): Progress
    requires i <= |s|
  {
    if i == 0 then Progress([], [])
    else
      var before := Scanned(s, i - 1);
      if IsSeparator(s, i - 1) then Progress(before.done + [before.current], [])
      else Progress(before.done, before.current + [s[i - 1]])
  }

  /** Where the segment being read after `i` characters starts. */
  function SegmentStart(s: string, i: nat): nat
    requires i <= |s|
  {
    if i == 0 then 0 else if IsSeparator(s, i - 1) then i else SegmentStart(s, i - 1)
  }

  lemma {:induction false} ScannedCurrent(s: string, i: nat)
    requires i <= |s|
    ensures SegmentStart(s, i) <= i
    ensures Scanned(s, i).current == s[SegmentStart(s, i)..i]
  {
    if i > 0 {
      ScannedCurrent(s, i - 1);
      var start := SegmentStart(s, i - 1);
      if !IsSeparator(s, i - 1) {
        assert SegmentStart(s, i) == start && Scanned(s, i).current == Scanned(s, i - 1).current + [s[i - 1]];
        assert s[start..i] == s[start..i - 1] + [s[i - 1]];
      }
    }
  }

  lemma {:induction false} NoSeparatorSinceStart(s: string, i: nat, j: nat)
    requires i <= |s| && SegmentStart(s, i) <= j < i
    ensures !IsSeparator(s, j)
  {
    if j < i - 1 {
      NoSeparatorSinceStart(s, i - 1, j);
    }
  }

  /** A separator closes the segment being read. */
  lemma SeparatorCloses(s: string, i: nat)
    requires 0 < i <= |s| && IsSeparator(s, i - 1)
    ensures SegmentStart(s, i - 1) <= i - 1
    ensures SegmentsFrom(s, SegmentStart(s, i - 1)) == [Scanned(s, i - 1).current] + SegmentsFrom(s, i)
  {
    var start := SegmentStart(s, i - 1);
    ScannedCurrent(s, i - 1);
    forall j | start <= j < i - 1 ensures !IsSeparator(s, j) {
      NoSeparatorSinceStart(s, i - 1, j);
    }
    SeparatorStep(s, start, i - 1);
  }

  /** The completed segments are the first segments of the text. */
  lemma {:induction false} ScannedSegments(s: string, i: nat)
    requires i <= |s|
    ensures SegmentStart(s, i) <= i
    ensures SegmentsFrom(s, 0) == Scanned(s, i).done + SegmentsFrom(s, SegmentStart(s, i))
  {
    if i > 0 {
      ScannedSegments(s, i - 1);
      var before := Scanned(s, i - 1);
      if !IsSeparator(s, i - 1) {
        assert SegmentStart(s, i) == SegmentStart(s, i - 1) && Scanned(s, i).done == before.done;
      } else {
        assert SegmentStart(s, i) == i && Scanned(s, i).done == before.done + [before.current];
        SeparatorCloses(s, i);
      }
    }
  }

  /** The segments of a finished scan: the last one counts only when it is not empty. */
  function Finished(p: Progress): seq<string> {
    p.done + (if p.current != [] then [p.current] else [])
  }

  /** The columns `_split_columns` returns: the stripped segments of the whole text. */
  function ColumnParts(s: string): seq<string> {
    StripEach(Finished(Scanned(s, |s|)))
  }

  /** With no separator after `start`, the rest of the text is the last segment (when it is not empty). */
  lemma FinalSegment(s: string, start: nat)
    requires start <= |s|
    requires forall j :: start <= j < |s| ==> !IsSeparator(s, j)
    ensures SegmentsFrom(s, start) == if s[start..] != [] then [s[start..]] else []
  {
    NextSeparatorIs(s, start, |s|);
  }

  /** The scan finds exactly the text between consecutive separators. */
  lemma ScanComplete(s: string)
    ensures Finished(Scanned(s, |s|)) == SegmentsFrom(s, 0)
  {
    var start := SegmentStart(s, |s|);
    var p := Scanned(s, |s|);
    ScannedSegments(s, |s|);
    ScannedCurrent(s, |s|);
    assert p.current == s[start..];
    forall j | start <= j < |s| ensures !IsSeparator(s, j) {
      NoSeparatorSinceStart(s, |s|, j);
    }
    FinalSegment(s, start);
    assert SegmentsFrom(s, 0) == p.done + (if p.current != [] then [p.current] else []);
  }

  /** The columns are the stripped pieces between commas outside quotes and brackets. */
  lemma ColumnsBetweenSeparators(s: string)
    ensures ColumnParts(s) == StripEach(SegmentsFrom(s, 0))
  {
    ScanComplete(s);
  }

  /** Reading one more character, from the scanner state the loop holds. */
  lemma ScanOne(s: string, i: nat, inQuotes: bool, depth: nat)
    requires i < |s| && ScanState(inQuotes, depth) == StateAt(s, i)
    ensures StateAt(s, i + 1) == Step(ScanState(inQuotes, depth), s[i])
    ensures IsSeparator(s, i) <==> s[i] == ',' && !inQuotes && depth == 0
    ensures Scanned(s, i + 1) == if IsSeparator(s, i)
      then Progress(Scanned(s, i).done + [Scanned(s, i).current], [])
      else Progress(Scanned(s, i).done, Scanned(s, i).current + [s[i]])
  {
  }

  /** `_split_columns`: one pass over the characters, as the source does it. */
  method SplitColumns(s: string) returns (parts: seq<string>)
    ensures parts == ColumnParts(s)
  {
    parts := [];
    var current: string := [];
    var inQuotes := false;
    var depth: nat := 0;
    var i := 0;
    ghost var raw: seq<string> := [];
    while i < |s|
      invariant i <= |s|
      invariant ScanState(inQuotes, depth) == StateAt(s, i)
      invariant Progress(raw, current) == Scanned(s, i)
      invariant parts == StripEach(raw)
    {
      var c := s[i];
      ScanOne(s, i, inQuotes, depth);
      if c == '\'' || c == '"' {
        inQuotes := !inQuotes;
        current := current + [c];
      } else if c == '(' && !inQuotes {
        depth := depth + 1;
        current := current + [c];
      } else if c == ')' && !inQuotes && depth > 0 {
        depth := depth - 1;
        current := current + [c];
      } else if c == ',' && !inQuotes && depth == 0 {
        StripEachSnoc(raw, current);
        parts := parts + [Strip(current)];
        raw := raw + [current];
        current := [];
      } else {
        current := current + [c];
      }
      i := i + 1;
    }
    if current != [] {
      StripEachSnoc(raw, current);
      parts := parts + [Strip(current)];
      raw := raw + [current];
    }
  }

  lemma {:induction false} NoCommaNoSeparator(s: string, from: nat)
    requires ',' !in s && from <= |s|
    ensures NextSeparator(s, from) == |s|
    decreases |s| - from
  {
    if from < |s| {
      assert s[from] in s;
      NoCommaNoSeparator(s, from + 1);
    }
  }

  /** Text without commas is one column (or none when it is empty). */
  lemma NoCommaOneColumn(s: string)
    requires ',' !in s
    ensures ColumnParts(s) == if s == [] then [] else [Strip(s)]
  {
    ColumnsBetweenSeparators(s);
    NoCommaNoSeparator(s, 0);
    assert s[0..] == s;
  }

  /** Text in which neither quotes nor brackets occur. */
  predicate Plain(s: string) {
    forall k :: 0 <= k < |s| ==> s[k] !in {'\'', '"', '(', ')'}
  }

  lemma {:induction false} PlainState(s: string, i: nat)
    requires Plain(s) && i <= |s|
    ensures StateAt(s, i) == ScanState(false, 0)
  {
    if i > 0 {
      PlainState(s, i - 1);
    }
  }

  /** `p` without its last element when that element is empty. */
  function DropEmptyLast(p: seq<string>): seq<string>
    requires p != []
  {
    if p[|p| - 1] == [] then p[..|p| - 1] else p
  }

  /**
   * Without quotes or brackets every comma separates, and the columns are
   * Python's `[c.strip() for c in s.split(',')]`, except that an empty last
   * piece is dropped.
   */
  lemma PlainColumns(s: string)
    requires Plain(s)
    ensures ColumnParts(s) == StripEach(DropEmptyLast(SplitOn(s, ",")))
  {
    ColumnsBetweenSeparators(s);
    PlainSegments(s, 0);
    assert s[0..] == s;
  }

  lemma {:induction false} PlainSegments(s: string, from: nat)
    requires Plain(s) && from <= |s|
    ensures SegmentsFrom(s, from) == DropEmptyLast(SplitOn(s[from..], ","))
    decreases |s| - from
  {
    var j := NextSeparator(s, from);
    if j == |s| {
      PlainLastSegment(s, from);
    } else {
      PlainSegments(s, j + 1);
      PlainSeparatorSegment(s, from, j);
    }
  }

  lemma PlainCommaSeparates(s: string, i: nat)
    requires Plain(s) && i < |s| && s[i] == ','
    ensures IsSeparator(s, i)
  {
    PlainState(s, i);
  }

  /** In plain text the first comma at or after `from` is the next separator. */
  lemma PlainFindComma(s: string, from: nat)
    requires Plain(s) && from <= |s|
    ensures Find(s[from..], ",", 0) ==
      if NextSeparator(s, from) == |s| then None else Some(NextSeparator(s, from) - from)
  {
    if NextSeparator(s, from) < |s| {
      PlainFindSeparator(s, from);
    } else {
      PlainFindNone(s, from);
    }
  }

  lemma PlainFindSeparator(s: string, from: nat)
    requires Plain(s) && from <= |s| && NextSeparator(s, from) < |s|
    ensures Find(s[from..], ",", 0) == Some(NextSeparator(s, from) - from)
  {
    var found := Find(s[from..], ",", 0);
    var next := NextSeparator(s, from);
    PlainCommaOccurs(s, from, next);
    assert found.Some? && found.value <= next - from;
    PlainFoundComma(s, from, found.value);
  }

  lemma PlainFindNone(s: string, from: nat)
    requires Plain(s) && from <= |s| && NextSeparator(s, from) == |s|
    ensures Find(s[from..], ",", 0) == None
  {
    var found := Find(s[from..], ",", 0);
    if found.Some? {
      PlainFoundComma(s, from, found.value);
      assert false;
    }
  }

  lemma PlainFoundComma(s: string, from: nat, k: nat)
    requires Plain(s) && from <= |s| && OccursAt(s[from..], ",", k)
    ensures NextSeparator(s, from) <= from + k
  {
    assert s[from..][k..k + 1] == ",";
    assert s[from + k] == ',';
    PlainCommaSeparates(s, from + k);
    if from + k < NextSeparator(s, from) {
      NextSeparatorFirst(s, from, from + k);
    }
  }

  lemma PlainCommaOccurs(s: string, from: nat, j: nat)
    requires from <= j < |s| && s[j] == ','
    ensures OccursAt(s[from..], ",", j - from)
  {
    assert s[from..][j - from..j - from + 1] == [s[j]];
  }

  lemma PlainLastSegment(s: string, from: nat)
    requires Plain(s) && from <= |s| && NextSeparator(s, from) == |s|
    ensures SegmentsFrom(s, from) == DropEmptyLast(SplitOn(s[from..], ","))
  {
    PlainFindComma(s, from);
    assert SplitOn(s[from..], ",") == [s[from..]];
  }

  lemma PlainSeparatorSegment(s: string, from: nat, j: nat)
    requires Plain(s) && from <= j < |s| && NextSeparator(s, from) == j
    requires SegmentsFrom(s, j + 1) == DropEmptyLast(SplitOn(s[j + 1..], ","))
    ensures SegmentsFrom(s, from) == DropEmptyLast(SplitOn(s[from..], ","))
  {
    var rest := SplitOn(s[j + 1..], ",");
    assert SegmentsFrom(s, from) == [s[from..j]] + SegmentsFrom(s, j + 1);
    PlainSplitAtSeparator(s, from, j);
    DropEmptyLastCons(s[from..j], rest);
  }

  /** In plain text, `split(',')` cuts at the next separator. */
  lemma PlainSplitAtSeparator(s: string, from: nat, j: nat)
    requires Plain(s) && from <= j < |s| && NextSeparator(s, from) == j
    ensures SplitOn(s[from..], ",") == [s[from..j]] + SplitOn(s[j + 1..], ",")
  {
    PlainFindComma(s, from);
    var t := s[from..];
    assert Find(t, ",", 0) == Some(j - from);
    assert t[j - from + 1..] == s[j + 1..];
    assert t[..j - from] == s[from..j];
  }

  lemma DropEmptyLastCons(x: string, rest: seq<string>)
    requires rest != []
    ensures DropEmptyLast([x] + rest) == [x] + DropEmptyLast(rest)
  {
    assert ([x] + rest)[..|rest|] == [x] + rest[..|rest| - 1];
  }

  // ================================================================ JOIN ... ON

  datatype JoinClause = JoinClause(table: string, alias: Option<string>, condition: string)

  /** A recognised `JOIN` and the position where the regex search resumes. */
  datatype JoinMatch = JoinMatch(clause: JoinClause, end: nat)

  /** The case-insensitive text ` on ` at `p`, followed by a character that is not `)`. */
  predicate OnAt(n: string, p: nat) {
    HasAtCI(n, p, " on ") && p + 4 < |n| && n[p + 4] != ')'
  }

  /** First `)` at or after `c`, or the end of the text: where `[^)]+` stops. */
  function CloseParenFrom(n: string, c: nat): (m: nat)
    requires c <= |n|
    ensures c <= m <= |n|
    ensures forall j :: c <= j < m ==> n[j] != ')'
    ensures m == |n| || n[m] == ')'
    decreases |n| - c
  {
    if c < |n| && n[c] != ')' then CloseParenFrom(n, c + 1) else c
  }

  /** End of the table name `\w+\.\w+|\w+` that starts at `k`, as the greedy regex takes it. */
  function TableEnd(n: string, k: nat): (t: nat)
    requires k <= |n|
    ensures WordEnd(n, k) <= t <= |n|
  {
    var e1 := WordEnd(n, k);
    if e1 + 1 < |n| && n[e1] == '.' && IsWordChar(n[e1 + 1]) then WordEnd(n, e1 + 1) else e1
  }

  /** The JOIN clause whose condition starts at `c` (after ` ON `). */
  function ClauseFrom(n: string, table: string, alias: Option<string>, c: nat): (m: JoinMatch)
    requires c < |n| && n[c] != ')'
    ensures c < m.end <= |n|
    ensures m.end == CloseParenFrom(n, c)
    ensures m.clause == JoinClause(table, alias, Strip(n[c..m.end]))
    ensures ')' !in m.clause.condition
  {
    var e := CloseParenFrom(n, c);
    assert ')' !in n[c..e] by {
      forall j | 0 <= j < e - c ensures n[c..e][j] != ')' {
        assert n[c..e][j] == n[c + j];
      }
    }
    StripWithout(n[c..e], ')');
    JoinMatch(JoinClause(table, alias, Strip(n[c..e])), e)
  }

  /**
   * What the regex of core/fdw_manager.py:158 matches after a `JOIN` keyword
   * ending at `i`: `\s+(\w+\.\w+|\w+)(?:\s+AS\s+)?(\w+)?\s+ON\s+([^)]+)`.
   * On whitespace-normalised text every backtracking alternative other than
   * the two below fails, so an alias is captured only after ` AS `.
   */
  function MatchJoinTail(n: string, i: nat): (r: Option<JoinMatch>)
    requires i <= |n|
    ensures r.Some? ==> i < r.value.end <= |n|
    ensures r.Some? ==> ClauseShaped(r.value.clause)
  {
    if !(i < |n| && n[i] == ' ') || WordEnd(n, i + 1) == i + 1 then None
    else MatchAfterTable(n, n[i + 1..TableEnd(n, i + 1)], TableEnd(n, i + 1))
  }

  /** The rest of the JOIN match once the table name, ending at `t`, is read. */
  function MatchAfterTable(n: string, table: string, t: nat): (r: Option<JoinMatch>)
    requires t <= |n| && table != []
    ensures r.Some? ==> t < r.value.end <= |n|
    ensures r.Some? ==> ClauseShaped(r.value.clause)
  {
    if HasAtCI(n, t, " as ") && WordEnd(n, t + 4) > t + 4 && OnAt(n, WordEnd(n, t + 4)) then
      var a := WordEnd(n, t + 4);
      Some(ClauseFrom(n, table, Some(n[t + 4..a]), a + 4))
    else if OnAt(n, t) then
      Some(ClauseFrom(n, table, None, t + 4))
    else None
  }

  /** A recognised clause has a table, an alias only when it is non-empty, and a condition without `)`. */
  predicate ClauseShaped(j: JoinClause) {
    j.table != [] && ')' !in j.condition && (j.alias.Some? ==> j.alias.value != [])
  }

  /** `join_pattern.finditer(normalized_query)` from position `pos` on. */
  function JoinMatches(n: string, pos: nat): (r: seq<JoinClause>)
    requires pos <= |n|
    ensures forall k :: 0 <= k < |r| ==> ClauseShaped(r[k])
    decreases |n| - pos
  {
    if pos + 4 > |n| then []
    else if KeywordAt(n, pos, "join") then
      match MatchJoinTail(n, pos + 4)
      case Some(m) => [m.clause] + JoinMatches(n, m.end)
      case None => JoinMatches(n, pos + 1)
    else JoinMatches(n, pos + 1)
  }

  /**
   * A table followed by a bare alias (`JOIN public.orders o ON ...`) is not
   * matched at all: the alias group can only be reached through ` AS `.
   */
  lemma BareAliasIsNotMatched(n: string, i: nat)
    requires i < |n| && n[i] == ' '
    requires !HasAtCI(n, TableEnd(n, i + 1), " as ") && !HasAtCI(n, TableEnd(n, i + 1), " on ")
    ensures MatchJoinTail(n, i) == None
  {
  }

  /** `[^)]+` from `c` stops at `e` when no `)` lies in between and `e` is a `)` or the end. */
  lemma {:induction false} CloseParenAt(n: string, c: nat, e: nat)
    requires c <= e <= |n|
    requires forall j :: c <= j < e ==> n[j] != ')'
    requires e == |n| || n[e] == ')'
    ensures CloseParenFrom(n, c) == e
    decreases e - c
  {
    if c < e {
      CloseParenAt(n, c + 1, e);
    }
  }

  // ================================================================ FROM list

  /** The word `on` (any case) starts at `j` and at least one character follows it: where `\bon\b.+` matches. */
  predicate OnCutAt(s: string, j: nat) {
    j + 3 <= |s| && KeywordAt(s, j, "on")
  }

  /** `re.sub(r'\bon\b.+', '', part, flags=re.IGNORECASE)`: cut at the first word `on` that has text after it. */
  function CutAtOn(s: string): (r: string)
    ensures |r| <= |s| && r == s[..|r|]
    ensures |r| == |s| || OnCutAt(s, |r|)
    ensures forall j :: 0 <= j < |r| ==> !OnCutAt(s, j)
  {
    CutAtOnFrom(s, 0)
  }

  function CutAtOnFrom(s: string, j: nat): (r: string)
    requires j <= |s|
    requires forall k :: 0 <= k < j ==> !OnCutAt(s, k)
    ensures |r| <= |s| && r == s[..|r|]
    ensures |r| == |s| || OnCutAt(s, |r|)
    ensures forall k :: 0 <= k < |r| ==> !OnCutAt(s, k)
    decreases |s| - j
  {
    if j + 3 > |s| then s
    else if KeywordAt(s, j, "on") then s[..j]
    else CutAtOnFrom(s, j + 1)
  }

  /** `re.split(r',|\bjoin\b', part, flags=re.IGNORECASE)`, scanning from `pos` with the current piece starting at `segStart`. */
  function FromPieces(s: string, segStart: nat, pos: nat): (r: seq<string>)
    requires segStart <= pos <= |s|
    requires ',' !in s[segStart..pos]
    ensures |r| >= 1
    ensures forall k :: 0 <= k < |r| ==> ',' !in r[k]
    decreases |s| - pos
  {
    if pos == |s| then [s[segStart..]]
    else if s[pos] == ',' then [s[segStart..pos]] + FromPieces(s, pos + 1, pos + 1)
    else if KeywordAt(s, pos, "join") then [s[segStart..pos]] + FromPieces(s, pos + 4, pos + 4)
    else FromPieces(s, segStart, pos + 1)
  }

  /** No word `join` (any case) starts anywhere in `s`. */
  predicate NoJoinKeyword(s: string) {
    forall j :: 0 <= j < |s| ==> !KeywordAt(s, j, "join")
  }

  /** Without a `join` keyword, the FROM pieces are exactly `s.split(",")`. */
  lemma {:induction false} FromPiecesSplitCommas(s: string, segStart: nat, pos: nat)
    requires segStart <= pos <= |s| && ',' !in s[segStart..pos] && NoJoinKeyword(s)
    ensures FromPieces(s, segStart, pos) == SplitOn(s[segStart..], ",")
    decreases |s| - pos
  {
    if pos == |s| {
      assert s[segStart..pos] == s[segStart..];
      NoSeparatorSplit(s[segStart..], ',');
    } else if s[pos] == ',' {
      assert FromPieces(s, segStart, pos) == [s[segStart..pos]] + FromPieces(s, pos + 1, pos + 1);
      FromPiecesSplitCommas(s, pos + 1, pos + 1);
      CommaCut(s, segStart, pos);
    } else {
      assert !KeywordAt(s, pos, "join");
      assert FromPieces(s, segStart, pos) == FromPieces(s, segStart, pos + 1);
      assert s[segStart..pos + 1] == s[segStart..pos] + [s[pos]];
      FromPiecesSplitCommas(s, segStart, pos + 1);
    }
  }

  /** Splitting at the first comma, found at `pos`. */
  lemma CommaCut(s: string, segStart: nat, pos: nat)
    requires segStart <= pos < |s| && s[pos] == ',' && ',' !in s[segStart..pos]
    ensures SplitOn(s[segStart..], ",") == [s[segStart..pos]] + SplitOn(s[pos + 1..], ",")
  {
    assert s[segStart..] == s[segStart..pos] + [','] + s[pos + 1..];
    FirstSeparatorSplit(s[segStart..pos], ',', s[pos + 1..]);
  }

  /** Without a `join` keyword, joining the FROM pieces with `,` gives back the FROM text. */
  lemma FromPiecesRejoin(s: string)
    requires NoJoinKeyword(s)
    ensures JoinWith(FromPieces(s, 0, 0), ",") == s
  {
    FromPiecesSplitCommas(s, 0, 0);
    JoinSplit(s, ",");
  }

  /** Words that are never taken as an alias in the FROM list. */
  const JoinTypeWords: set<string> := {"inner", "outer", "left", "right", "full", "cross"}

  const Quotes: set<char> := {'"', '\''}

  datatype FromItem = FromItem(table: string, alias: Option<string>)

  /** The alias word of a FROM piece split into words: the second word, or the third after `AS`. */
  function AliasWord(parts: seq<string>): (r: Option<string>)
    ensures r.Some? <==> |parts| > 1
    ensures r.Some? ==> r.value == if Lower(parts[1]) == "as" && |parts| > 2 then parts[2] else parts[1]
  {
    if |parts| > 1 then Some(if Lower(parts[1]) == "as" && |parts| > 2 then parts[2] else parts[1]) else None
  }

  /** The alias recorded for an alias word: quotes stripped, join-type words dropped. */
  function CleanAlias(w: string): (r: Option<string>)
    ensures r.Some? <==> Lower(StripChars(w, Quotes)) !in JoinTypeWords
    ensures r.Some? ==> r.value == StripChars(w, Quotes)
    ensures r.Some? && r.value != [] ==> r.value[0] !in Quotes && r.value[|r.value| - 1] !in Quotes
  {
    var a := StripChars(w, Quotes);
    if Lower(a) in JoinTypeWords then None else Some(a)
  }

  /** One comma- or JOIN-separated piece of the FROM list: its first word is the table. */
  function FromItemOf(piece: string): (r: Option<FromItem>)
    ensures r.None? <==> Words(Strip(piece)) == []
    ensures r.Some? ==> r.value.table == Words(Strip(piece))[0]
    ensures r.Some? ==> r.value.alias == match AliasWord(Words(Strip(piece))) case None => None case Some(w) => CleanAlias(w)
    ensures r.Some? && |Words(Strip(piece))| == 1 ==> r.value.alias.None?
  {
    var parts := Words(Strip(piece));
    if parts == [] then None
    else
      var alias := match AliasWord(parts) case None => None case Some(w) => CleanAlias(w);
      Some(FromItem(parts[0], alias))
  }

  /**
   * The FROM list is not cut at `WHERE`: in `FROM t WHERE x=1` (no `ON`)
   * the piece `t WHERE x=1` records `WHERE` as the alias of `t`.
   */
  lemma WhereTakenAsAlias(t: string, cond: string)
    requires t != [] && NoSpace(t) && cond != [] && NoSpace(cond)
    ensures FromItemOf(t + " WHERE " + cond) == Some(FromItem(t, Some("WHERE")))
  {
    assert t + " WHERE " + cond == t + " " + "WHERE" + " " + cond;
    WhereIsPlainWord();
    ThreeWords(t, "WHERE", cond);
    assert AliasWord([t, "WHERE", cond]) == Some("WHERE");
  }

  /** Three space-free words joined by single spaces split back into those words. */
  lemma ThreeWords(a: string, b: string, c: string)
    requires a != [] && NoSpace(a) && b != [] && NoSpace(b) && c != [] && NoSpace(c)
    ensures Words(Strip(a + " " + b + " " + c)) == [a, b, c]
  {
    var rest := b + " " + c;
    var piece := a + " " + rest;
    assert piece == a + " " + b + " " + c;
    assert Strip(piece) == piece by {
      assert a[0] in a && c[|c| - 1] in c;
      assert piece[0] == a[0] && piece[|piece| - 1] == c[|c| - 1];
      StripClean(piece);
    }
    assert Words(rest) == [b, c] by {
      WordsOfCons(b, c);
      WordsOfOne(c);
      ConsPair(b, c);
    }
    assert Words(piece) == [a, b, c] by {
      WordsOfCons(a, rest);
      ConsTriple(a, b, c);
    }
  }

  lemma ConsPair<T>(x: T, y: T)
    ensures [x] + [y] == [x, y]
  {
  }

  lemma ConsTriple<T>(x: T, y: T, z: T)
    ensures [x] + [y, z] == [x, y, z]
  {
  }

  lemma WhereIsPlainWord()
    ensures Lower("WHERE") == "where" && StripChars("WHERE", Quotes) == "WHERE"
    ensures CleanAlias("WHERE") == Some("WHERE") && NoSpace("WHERE")
  {
    var w := "WHERE";
    var l := Lower(w);
    assert l[0] == LowerChar('W') == 'w';
    assert l[1] == LowerChar('H') == 'h';
    assert l[2] == LowerChar('E') == 'e';
    assert l[3] == LowerChar('R') == 'r';
    assert l[4] == LowerChar('E') == 'e';
    assert w[0] !in Quotes && w[4] !in Quotes;
    assert l == "where";
    assert "where" !in JoinTypeWords;
  }

  /** The items of the FROM segment that follows `FROM`, after cutting at `on`. */
  function FromItems(pieces: seq<string>): (r: seq<FromItem>)
    ensures |r| <= |pieces|
  {
    if pieces == [] then []
    else
      match FromItemOf(pieces[0])
      case None => FromItems(pieces[1..])
      case Some(item) => [item] + FromItems(pieces[1..])
  }

  // ================================================================ WHERE

  /** Cut at the first terminator found, checking `group by`, `order by`, `limit` in that order. */
  function CutAtTerminator(w: string): string {
    var low := Lower(w);
    match Find(low, "group by", 0)
    case Some(p) => Strip(w[..p])
    case None =>
      match Find(low, "order by", 0)
      case Some(p) => Strip(w[..p])
      case None =>
        match Find(low, "limit", 0)
        case Some(p) => Strip(w[..p])
        case None => w
  }

  /** The WHERE text: after the first `where` at or after `fromEnd`, stripped and cut at a terminator. */
  function WhereOf(n: string, fromEnd: nat): (r: string)
    ensures Find(Lower(n), "where", fromEnd).None? ==> r == ""
  {
    match Find(Lower(n), "where", fromEnd)
    case None => ""
    case Some(w) => CutAtTerminator(Strip(n[w + 5..]))
  }

  /** When `group by` occurs, the WHERE text is what precedes its first occurrence, even if `limit` comes earlier. */
  lemma GroupByWinsOverLimit(w: string)
    requires Contains(Lower(w), "group by")
    ensures CutAtTerminator(w) == Strip(w[..Find(Lower(w), "group by", 0).value])
  {
  }

  /** Without a terminator the stripped WHERE text is kept whole. */
  lemma NoTerminatorKeepsAll(w: string)
    requires !Contains(Lower(w), "group by") && !Contains(Lower(w), "order by") && !Contains(Lower(w), "limit")
    ensures CutAtTerminator(w) == w
  {
  }

  // ================================================================ parse_sql

  datatype Parsed = Parsed(
    columns: seq<string>,
    tables: set<string>,
    aliases: seq<Entry<string, string>>,
    where: string,
    selectAll: bool,
    joins: seq<JoinClause>)

  datatype ParseError = MissingSelectOrFrom

  /** Positions of `select` and of the first `from` at or after it, in the lower-cased normalised query. */
  function Keywords(n: string): (r: Option<(nat, nat)>)
    ensures r.None? <==> !Contains(Lower(n), "select") || Find(Lower(n), "from", Find(Lower(n), "select", 0).value).None?
    ensures r.Some? ==> OccursAt(Lower(n), "select", r.value.0) && OccursAt(Lower(n), "from", r.value.1) && r.value.0 <= r.value.1
  {
    var low := Lower(n);
    match Find(low, "select", 0)
    case None => None
    case Some(s) =>
      match Find(low, "from", s)
      case None => None
      case Some(f) => Some((s, f))
  }

  /** The text between `select` and `from`, stripped (Python slicing gives "" when the bounds cross). */
  function ColumnsText(n: string, s: nat, f: nat): string
    requires f <= |n|
  {
    if s + 6 <= f then Strip(n[s + 6..f]) else ""
  }

  predicate AnyStar(columns: seq<string>) {
    exists k :: 0 <= k < |columns| && Contains(columns[k], "*")
  }

  /** The tables named by the recognised JOIN clauses. */
  function JoinTables(joins: seq<JoinClause>): (r: set<string>)
    ensures forall k :: 0 <= k < |joins| ==> joins[k].table in r
  {
    if joins == [] then {} else JoinTables(joins[..|joins| - 1]) + {joins[|joins| - 1].table}
  }

  /** The tables named by the FROM items. */
  function ItemTables(items: seq<FromItem>): (r: set<string>)
    ensures forall k :: 0 <= k < |items| ==> items[k].table in r
  {
    if items == [] then {} else ItemTables(items[..|items| - 1]) + {items[|items| - 1].table}
  }

  /** `aliases[alias] = table` for each JOIN clause with an alias, in order. */
  function RecordJoinAliases(d: seq<Entry<string, string>>, joins: seq<JoinClause>): seq<Entry<string, string>>
    decreases |joins|
  {
    if joins == [] then d
    else
      var last := joins[|joins| - 1];
      var before := RecordJoinAliases(d, joins[..|joins| - 1]);
      if last.alias.Some? then Put(before, last.alias.value, last.table) else before
  }

  /** `aliases[alias] = table` for each FROM item with an alias, in order. */
  function RecordItemAliases(d: seq<Entry<string, string>>, items: seq<FromItem>): seq<Entry<string, string>>
    decreases |items|
  {
    if items == [] then d
    else
      var last := items[|items| - 1];
      var before := RecordItemAliases(d, items[..|items| - 1]);
      if last.alias.Some? then Put(before, last.alias.value, last.table) else before
  }

  /** The FROM items of a normalised query whose `from` keyword starts at `f`. */
  function FromSegmentItems(n: string, f: nat): seq<FromItem>
    requires f + 4 <= |n|
  {
    var part := CutAtOn(n[f + 4..]);
    FromItems(FromPieces(part, 0, 0))
  }

  /** The loop over the JOIN matches (core/fdw_manager.py:165-180). */
  method RecordJoins(matches: seq<JoinClause>) returns (tables: set<string>, aliases: seq<Entry<string, string>>, joins: seq<JoinClause>)
    ensures joins == matches
    ensures tables == JoinTables(matches)
    ensures aliases == RecordJoinAliases([], matches)
  {
    tables, aliases, joins := {}, [], [];
    for k := 0 to |matches|
      invariant joins == matches[..k]
      invariant tables == JoinTables(joins)
      invariant aliases == RecordJoinAliases([], joins)
    {
      var m := matches[k];
      tables := tables + {m.table};
      if m.alias.Some? {
        aliases := Put(aliases, m.alias.value, m.table);
      }
      joins := joins + [m];
      assert joins[..|joins| - 1] == matches[..k];
    }
    assert matches[..|matches|] == matches;
  }

  /** The loop over the FROM-list pieces (core/fdw_manager.py:206-235). */
  method RecordFromItems(items: seq<FromItem>, tables0: set<string>, aliases0: seq<Entry<string, string>>)
    returns (tables: set<string>, aliases: seq<Entry<string, string>>)
    ensures tables == tables0 + ItemTables(items)
    ensures aliases == RecordItemAliases(aliases0, items)
  {
    tables, aliases := tables0, aliases0;
    for k := 0 to |items|
      invariant tables == tables0 + ItemTables(items[..k])
      invariant aliases == RecordItemAliases(aliases0, items[..k])
    {
      var item := items[k];
      tables := tables + {item.table};
      if item.alias.Some? {
        aliases := Put(aliases, item.alias.value, item.table);
      }
      assert items[..k + 1][..k] == items[..k];
    }
    assert items[..|items|] == items;
  }

  /** The description `parse_sql` builds for normalised query `n` whose `select` is at `s` and `from` at `f`. */
  predicate Describes(p: Parsed, n: string, s: nat, f: nat)
    requires f + 4 <= |n|
  {
    var items := FromSegmentItems(n, f);
    && p.columns == ColumnParts(ColumnsText(n, s, f))
    && (p.selectAll <==> AnyStar(p.columns))
    && p.joins == JoinMatches(n, 0)
    && p.tables == JoinTables(p.joins) + ItemTables(items)
    && p.aliases == RecordItemAliases(RecordJoinAliases([], p.joins), items)
    && p.where == WhereOf(n, f + 4)
  }

  /** `p` is what `parse_sql` makes of `sql`. */
  predicate ParsedFrom(sql: string, p: Parsed) {
    var n := Normalize(sql);
    Keywords(n).Some? && Describes(p, n, Keywords(n).value.0, Keywords(n).value.1)
  }

  /** What `parse_sql` returns for `query`, as a value. */
  function ParseResult(query: string): (r: Result<Parsed, ParseError>)
    ensures r.Err? <==> Keywords(Normalize(query)).None?
    ensures r.Ok? ==> ParsedFrom(query, r.value)
  {
    var n := Normalize(query);
    var keywords := Keywords(n);
    if keywords.None? then Err(MissingSelectOrFrom)
    else Ok(Describe(n, keywords.value.0, keywords.value.1))
  }

  /** The one description that `Describes` admits. */
  function Describe(n: string, s: nat, f: nat): (p: Parsed)
    requires f + 4 <= |n|
    ensures Describes(p, n, s, f)
  {
    var items := FromSegmentItems(n, f);
    var columns := ColumnParts(ColumnsText(n, s, f));
    var joins := JoinMatches(n, 0);
    Parsed(columns, JoinTables(joins) + ItemTables(items), RecordItemAliases(RecordJoinAliases([], joins), items),
           WhereOf(n, f + 4), AnyStar(columns), joins)
  }

  /** The parse of a query is unique: `ParsedFrom` pins every field. */
  lemma ParseDetermined(sql: string, p: Parsed, q: Parsed)
    requires ParsedFrom(sql, p) && ParsedFrom(sql, q)
    ensures p == q
  {
  }

  /**
   * `parse_sql`: fills the parsed description step by step, as the source
   * does: columns, then the JOIN clauses, then the FROM list, then WHERE.
   */
  method ParseSql(query: string) returns (r: Result<Parsed, ParseError>)
    ensures r.Err? <==> Keywords(Normalize(query)).None?
    ensures r.Ok? ==> (Keywords(Normalize(query)).Some?
      && Describes(r.value, Normalize(query), Keywords(Normalize(query)).value.0, Keywords(Normalize(query)).value.1))
    ensures r == ParseResult(query)
  {
    var n := Normalize(query);
    var keywords := Keywords(n);
    if keywords.None? {
      return Err(MissingSelectOrFrom);
    }
    var (s, f) := keywords.value;
    var columns := SplitColumns(ColumnsText(n, s, f));
    var selectAll := exists k :: 0 <= k < |columns| && Contains(columns[k], "*");
    var tables, aliases, joins := RecordJoins(JoinMatches(n, 0));
    tables, aliases := RecordFromItems(FromSegmentItems(n, f), tables, aliases);
    var where := WhereOf(n, f + 4);
    r := Ok(Parsed(columns, tables, aliases, where, selectAll, joins));
  }

  /** `parse_sql` rejects a query without `select`, or without `from` after it. */
  lemma MissingKeywordIsError(query: string)
    requires !Contains(Lower(Normalize(query)), "select")
    ensures Keywords(Normalize(query)).None?
  {
  }
}
