/**
 * Step 2 of `execute_query` (core/fdw_manager.py:330-390): one SELECT
 * statement per resolved table, with the columns the query asks of that
 * table, the WHERE fragments that concern it, and an `IN` filter whose
 * values come from the tables fetched before it.
 */
module Planner {
  import opened Wrappers
  import opened Text
  import opened Seqs
  import opened Dict
  import opened Config
  import opened Frames
  import opened Parser
  import opened Resolver

  // ================================================================ _extract_table_where

  /** A WHERE fragment concerns the table: it names `alias.`, or it has no dot but an `=`. */
  predicate Concerns(fragment: string, alias: string) {
    Contains(fragment, alias + ".") || ('.' !in fragment && '=' in fragment)
  }

  /** The stripped pieces that are non-empty and concern the table, in order. */
  function Kept(pieces: seq<string>, alias: string): seq<string> {
    if pieces == [] then []
    else
      var t := Strip(pieces[|pieces| - 1]);
      Kept(pieces[..|pieces| - 1], alias) + (if t != "" && Concerns(t, alias) then [t] else [])
  }

  /** The fragments of `where` that `_extract_table_where` keeps for the table. */
  function TableConditions(where: string, alias: string): seq<string> {
    Kept(SplitOn(where, " AND "), alias)
  }

  /**
   * The kept fragments are exactly the non-empty stripped pieces that
   * concern the table: each kept one is such a piece, and each such piece
   * is kept.
   */
  lemma {:induction false} KeptSpec(pieces: seq<string>, alias: string)
    ensures |Kept(pieces, alias)| <= |pieces|
    ensures forall k :: 0 <= k < |Kept(pieces, alias)| ==>
      Kept(pieces, alias)[k] != "" && Concerns(Kept(pieces, alias)[k], alias)
      && exists j :: 0 <= j < |pieces| && Kept(pieces, alias)[k] == Strip(pieces[j])
    ensures forall j :: 0 <= j < |pieces| && Strip(pieces[j]) != "" && Concerns(Strip(pieces[j]), alias) ==>
      Strip(pieces[j]) in Kept(pieces, alias)
  {
    KeptSound(pieces, alias);
    KeptComplete(pieces, alias);
  }

  lemma {:induction false} KeptSound(pieces: seq<string>, alias: string)
    ensures |Kept(pieces, alias)| <= |pieces|
    ensures forall k :: 0 <= k < |Kept(pieces, alias)| ==>
      Kept(pieces, alias)[k] != "" && Concerns(Kept(pieces, alias)[k], alias)
      && exists j :: 0 <= j < |pieces| && Kept(pieces, alias)[k] == Strip(pieces[j])
  {
    if pieces != [] {
      var n := |pieces| - 1;
      var init := pieces[..n];
      KeptSound(init, alias);
      var before := Kept(init, alias);
      var after := Kept(pieces, alias);
      var t := Strip(pieces[n]);
      assert after == before + (if t != "" && Concerns(t, alias) then [t] else []);
      forall k | 0 <= k < |after|
        ensures after[k] != "" && Concerns(after[k], alias)
        ensures exists j :: 0 <= j < |pieces| && after[k] == Strip(pieces[j])
      {
        if k < |before| {
          var j :| 0 <= j < |init| && before[k] == Strip(init[j]);
          assert init[j] == pieces[j];
        } else {
          assert after[k] == Strip(pieces[n]);
        }
      }
    }
  }

  lemma {:induction false} KeptComplete(pieces: seq<string>, alias: string)
    ensures forall j :: 0 <= j < |pieces| && Strip(pieces[j]) != "" && Concerns(Strip(pieces[j]), alias) ==>
      Strip(pieces[j]) in Kept(pieces, alias)
  {
    if pieces != [] {
      var n := |pieces| - 1;
      var init := pieces[..n];
      KeptComplete(init, alias);
      var before := Kept(init, alias);
      var after := Kept(pieces, alias);
      var t := Strip(pieces[n]);
      assert after == before + (if t != "" && Concerns(t, alias) then [t] else []);
      forall j | 0 <= j < |pieces| && Strip(pieces[j]) != "" && Concerns(Strip(pieces[j]), alias)
        ensures Strip(pieces[j]) in after
      {
        if j < n {
          assert init[j] == pieces[j];
          assert Strip(init[j]) in before;
        }
      }
    }
  }

  /** A WHERE without ` AND ` is kept whole (stripped) or dropped whole. */
  lemma SingleCondition(where: string, alias: string)
    requires !Contains(where, " AND ")
    ensures TableConditions(where, alias) ==
      if Strip(where) != "" && Concerns(Strip(where), alias) then [Strip(where)] else []
  {
    assert SplitOn(where, " AND ") == [where];
    assert [where][..0] == [];
    assert Kept([where], alias) == Kept([], alias) + (if Strip(where) != "" && Concerns(Strip(where), alias) then [Strip(where)] else []);
  }

  /**
   * `_extract_table_where` (core/fdw_manager.py:534-552): the loop over the
   * ` AND `-pieces of the WHERE text, joined back with ` AND `; an empty
   * WHERE gives the empty string.
   */
  method ExtractTableWhere(where: string, alias: string) returns (r: string)
    ensures r == JoinWith(TableConditions(where, alias), " AND ")
    ensures where == "" ==> r == ""
  {
    if where == "" {
      assert SplitOn(where, " AND ") == [""];
      assert Strip("") == "";
      assert Kept([""], alias) == Kept([], alias);
      return "";
    }
    var tokens := SplitOn(where, " AND ");
    var conditions: seq<string> := [];
    for k := 0 to |tokens|
      invariant conditions == Kept(tokens[..k], alias)
    {
      assert tokens[..k + 1][..k] == tokens[..k];
      var token := Strip(tokens[k]);
      if token == "" {
        continue;
      }
      if Contains(token, alias + ".") || ('.' !in token && '=' in token) {
        conditions := conditions + [token];
      }
    }
    assert tokens[..|tokens|] == tokens;
    r := JoinWith(conditions, " AND ");
  }

  // ================================================================ _get_columns_for_table

  /**
   * What one SELECT column contributes to the table's own column list:
   * `alias.col` and `schema.table.col` of this table give `col`, an
   * unqualified column is kept, anything else contributes nothing.
   */
  function PickColumn(col: string, alias: string, full: string): (r: Option<string>)
    ensures '.' !in col ==> r == Some(col)
    ensures r.Some? && '.' in col ==>
      ((alias + "." + r.value == col && '.' !in alias) || full + "." + r.value == col) && '.' !in r.value
  {
    if '.' in col then
      var parts := SplitOn(col, ".");
      if |parts| == 2 && parts[0] == alias then
        TwoPieces(col);
        Some(parts[1])
      else if |parts| == 3 && parts[0] + "." + parts[1] == full then
        ThreePieces(col);
        Some(parts[2])
      else None
    else Some(col)
  }

  /** `a.b` comes apart into `a` and a dot-free `b`. */
  lemma TwoPieces(col: string)
    requires |SplitOn(col, ".")| == 2
    ensures SplitOn(col, ".")[0] + "." + SplitOn(col, ".")[1] == col
    ensures '.' !in SplitOn(col, ".")[0] && '.' !in SplitOn(col, ".")[1]
  {
    var parts := SplitOn(col, ".");
    SplitPiecesDotFree(col);
    JoinSplit(col, ".");
    JoinCons(parts[0], parts[1..], ".");
    assert parts[1..] == [parts[1]];
  }

  /** `a.b.c` comes apart into `a`, `b` and a dot-free `c`. */
  lemma ThreePieces(col: string)
    requires |SplitOn(col, ".")| == 3
    ensures SplitOn(col, ".")[0] + "." + SplitOn(col, ".")[1] + "." + SplitOn(col, ".")[2] == col
    ensures '.' !in SplitOn(col, ".")[2]
  {
    var parts := SplitOn(col, ".");
    SplitPiecesDotFree(col);
    JoinSplit(col, ".");
    assert parts == [parts[0], parts[1], parts[2]];
    JoinThree(parts[0], parts[1], parts[2], ".");
  }

  /** `alias.col` of this table gives `col`. */
  lemma PickAliasQualified(alias: string, c: string, full: string)
    requires '.' !in alias && '.' !in c
    ensures PickColumn(alias + "." + c, alias, full) == Some(c)
  {
    DotSplit(alias, c);
  }

  /** `schema.table.col` of this table gives `col`. */
  lemma PickFullQualified(schema: string, table: string, c: string, alias: string)
    requires '.' !in schema && '.' !in table && '.' !in c
    ensures PickColumn(schema + "." + table + "." + c, alias, schema + "." + table) == Some(c)
  {
    DotSplitThree(schema, table, c);
  }

  /** Three dot-free names joined by dots split back into the three. */
  lemma DotSplitThree(a: string, b: string, c: string)
    requires '.' !in a && '.' !in b && '.' !in c
    ensures SplitOn(a + "." + b + "." + c, ".") == [a, b, c]
    ensures '.' in a + "." + b + "." + c
  {
    var rest := b + "." + c;
    assert a + "." + b + "." + c == a + ['.'] + rest;
    FirstSeparatorSplit(a, '.', rest);
    DotSplit(b, c);
    assert (a + "." + b + "." + c)[|a|] == '.';
  }

  /** Two dot-free names joined by a dot split back into the two. */
  lemma DotSplit(a: string, b: string)
    requires '.' !in a && '.' !in b
    ensures SplitOn(a + "." + b, ".") == [a, b]
    ensures '.' in a + "." + b
  {
    assert a + "." + b == a + ['.'] + b;
    FirstSeparatorSplit(a, '.', b);
    NoSeparatorSplit(b, '.');
    assert (a + "." + b)[|a|] == '.';
  }

  /** No piece of a split at dots holds a dot. */
  lemma SplitPiecesDotFree(s: string)
    ensures forall k :: 0 <= k < |SplitOn(s, ".")| ==> '.' !in SplitOn(s, ".")[k]
  {
    SplitPiecesAvoidSeparator(s, ".");
    forall k | 0 <= k < |SplitOn(s, ".")| ensures '.' !in SplitOn(s, ".")[k] {
      ContainsChar(SplitOn(s, ".")[k], '.');
    }
  }

  /** The picks of all columns, in SELECT order. */
  function Picked(columns: seq<string>, alias: string, full: string): seq<string> {
    if columns == [] then []
    else
      var init := Picked(columns[..|columns| - 1], alias, full);
      match PickColumn(columns[|columns| - 1], alias, full)
      case Some(c) => init + [c]
      case None => init
  }

  /** The picks are those of the columns, and there are none exactly when no column gives one. */
  lemma PickedSpec(columns: seq<string>, alias: string, full: string)
    ensures |Picked(columns, alias, full)| <= |columns|
    ensures forall c :: c in Picked(columns, alias, full) <==>
      exists k :: 0 <= k < |columns| && PickColumn(columns[k], alias, full) == Some(c)
    ensures Picked(columns, alias, full) == [] <==> forall k :: 0 <= k < |columns| ==> PickColumn(columns[k], alias, full).None?
  {
    PickedLength(columns, alias, full);
    PickedMembers(columns, alias, full);
    forall k | 0 <= k < |columns| && PickColumn(columns[k], alias, full).Some?
      ensures Picked(columns, alias, full) != []
    {
      assert PickColumn(columns[k], alias, full).value in Picked(columns, alias, full);
    }
  }

  lemma {:induction false} PickedLength(columns: seq<string>, alias: string, full: string)
    ensures |Picked(columns, alias, full)| <= |columns|
  {
    if columns != [] {
      PickedLength(columns[..|columns| - 1], alias, full);
    }
  }

  /** A name is picked exactly when some column gives it. */
  lemma PickedMembers(columns: seq<string>, alias: string, full: string)
    ensures forall c :: c in Picked(columns, alias, full) <==>
      exists k :: 0 <= k < |columns| && PickColumn(columns[k], alias, full) == Some(c)
  {
    forall c ensures c in Picked(columns, alias, full) <==>
      exists k :: 0 <= k < |columns| && PickColumn(columns[k], alias, full) == Some(c)
    {
      PickedHas(columns, alias, full, c);
    }
  }

  /** `PickedMembers` for one name. */
  lemma PickedHas(columns: seq<string>, alias: string, full: string, c: string)
    ensures c in Picked(columns, alias, full) <==>
      exists k :: 0 <= k < |columns| && PickColumn(columns[k], alias, full) == Some(c)
  {
    if c in Picked(columns, alias, full) {
      var k := PickedFrom(columns, alias, full, c);
    }
    if exists k :: 0 <= k < |columns| && PickColumn(columns[k], alias, full) == Some(c) {
      var k :| 0 <= k < |columns| && PickColumn(columns[k], alias, full) == Some(c);
      PickedAt(columns, alias, full, k);
    }
  }

  /** A picked name comes from some column. */
  lemma {:induction false} PickedFrom(columns: seq<string>, alias: string, full: string, c: string) returns (k: nat)
    requires c in Picked(columns, alias, full)
    ensures k < |columns| && PickColumn(columns[k], alias, full) == Some(c)
  {
    var n := |columns| - 1;
    var init := columns[..n];
    var pl := PickColumn(columns[n], alias, full);
    assert Picked(columns, alias, full) == Picked(init, alias, full) + (if pl.Some? then [pl.value] else []);
    if c in Picked(init, alias, full) {
      k := PickedFrom(init, alias, full, c);
      assert columns[k] == init[k];
    } else {
      k := n;
    }
  }

  /** The pick of every column is picked. */
  lemma {:induction false} PickedAt(columns: seq<string>, alias: string, full: string, k: nat)
    requires k < |columns| && PickColumn(columns[k], alias, full).Some?
    ensures PickColumn(columns[k], alias, full).value in Picked(columns, alias, full)
  {
    var n := |columns| - 1;
    var init := columns[..n];
    var pl := PickColumn(columns[n], alias, full);
    assert Picked(columns, alias, full) == Picked(init, alias, full) + (if pl.Some? then [pl.value] else []);
    if k < n {
      assert init[k] == columns[k];
      PickedAt(init, alias, full, k);
    }
  }

  /**
   * The table's column list: `*` when the query selects `*` or nothing of
   * this table, otherwise the picks of the columns.
   */
  function TableColumns(columns: seq<string>, alias: string, full: string): (r: seq<string>)
    ensures r != []
    ensures "*" in columns ==> r == ["*"]
  {
    if "*" in columns then ["*"]
    else if Picked(columns, alias, full) == [] then ["*"]
    else Picked(columns, alias, full)
  }

  /**
   * Without `*` in the query, the column list is `['*']` when no column
   * gives a pick, and otherwise the picks: a name is requested exactly
   * when some column gives it.
   */
  lemma TableColumnsPicks(columns: seq<string>, alias: string, full: string)
    requires "*" !in columns
    ensures (forall k :: 0 <= k < |columns| ==> PickColumn(columns[k], alias, full).None?) ==>
      TableColumns(columns, alias, full) == ["*"]
    ensures (exists k :: 0 <= k < |columns| && PickColumn(columns[k], alias, full).Some?) ==>
      TableColumns(columns, alias, full) == Picked(columns, alias, full) &&
      forall c :: c in TableColumns(columns, alias, full) <==>
        exists k :: 0 <= k < |columns| && PickColumn(columns[k], alias, full) == Some(c)
  {
    PickedSpec(columns, alias, full);
  }

  /** Without `*`, every unqualified column is requested from every table, in order. */
  lemma {:induction false} UnqualifiedColumnsKept(columns: seq<string>, alias: string, full: string)
    requires forall k :: 0 <= k < |columns| ==> '.' !in columns[k]
    ensures Picked(columns, alias, full) == columns
  {
    if columns != [] {
      var init := columns[..|columns| - 1];
      UnqualifiedColumnsKept(init, alias, full);
      assert columns == init + [columns[|columns| - 1]];
    }
  }

  /**
   * `_get_columns_for_table` (core/fdw_manager.py:554-572): the loop returns
   * `['*']` at the first `*` column, and `['*']` when nothing was picked.
   */
  method ColumnsForTable(columns: seq<string>, alias: string, full: string) returns (result: seq<string>)
    ensures result == TableColumns(columns, alias, full)
  {
    result := [];
    for k := 0 to |columns|
      invariant "*" !in columns[..k]
      invariant result == Picked(columns[..k], alias, full)
    {
      var col := columns[k];
      if col == "*" {
        assert col in columns;
        return ["*"];
      }
      assert columns[..k + 1][..k] == columns[..k];
      match PickColumn(col, alias, full)
      case Some(c) => result := result + [c];
      case None =>
    }
    assert columns[..|columns|] == columns;
    if result == [] {
      result := ["*"];
    }
  }

  // ================================================================ IN-value propagation

  /**
   * The values one table of a rule contributes: the distinct cells of its
   * `alias.key` column, when it is another table, already fetched, and has
   * that column.
   */
  function ValuesFrom(other: string, full: string, key: string, info: Infos, dfs: Frames): seq<Value> {
    if other == full then []
    else
      match Get(dfs, other)
      case None => []
      case Some(df) =>
        // `table_info[other_table]`: every fetched table has a record
        match Get(info, other)
        case None => []
        case Some(rec) =>
          match IndexOf(df.columns, rec.alias + "." + key)
          case None => []
          case Some(i) => Unique(ColumnCells(df, i))
  }

  /** The values the tables of one rule contribute, in the rule's table order. */
  function RuleValues(tables: seq<string>, full: string, key: string, info: Infos, dfs: Frames): seq<Value> {
    if tables == [] then []
    else RuleValues(tables[..|tables| - 1], full, key, info, dfs) + ValuesFrom(tables[|tables| - 1], full, key, info, dfs)
  }

  /** `join_params`: the values of all rules that name the table, in rule order. */
  function JoinValues(rules: seq<JoinRule>, full: string, info: Infos, dfs: Frames): seq<Value> {
    if rules == [] then []
    else
      var rule := rules[|rules| - 1];
      JoinValues(rules[..|rules| - 1], full, info, dfs)
        + (if full in rule.tables then RuleValues(rule.tables, full, rule.key, info, dfs) else [])
  }

  /** Before anything is fetched there are no IN values: the first table is fetched unfiltered by rules. */
  lemma {:induction false} NothingFetchedNoValues(rules: seq<JoinRule>, full: string, info: Infos)
    ensures JoinValues(rules, full, info, []) == []
  {
    if rules != [] {
      NothingFetchedNoValues(rules[..|rules| - 1], full, info);
      NothingFetchedRule(rules[|rules| - 1].tables, full, rules[|rules| - 1].key, info);
    }
  }

  lemma {:induction false} NothingFetchedRule(tables: seq<string>, full: string, key: string, info: Infos)
    ensures RuleValues(tables, full, key, info, []) == []
  {
    if tables != [] {
      NothingFetchedRule(tables[..|tables| - 1], full, key, info);
    }
  }

  /** A table that no rule names gets no IN values. */
  lemma {:induction false} UnruledNoValues(rules: seq<JoinRule>, full: string, info: Infos, dfs: Frames)
    requires forall k :: 0 <= k < |rules| ==> full !in rules[k].tables
    ensures JoinValues(rules, full, info, dfs) == []
  {
    if rules != [] {
      UnruledNoValues(rules[..|rules| - 1], full, info, dfs);
    }
  }


  /**
   * `v` is a cell of the `alias.key` column of `other`'s fetched frame, and
   * `other` is not the table being planned: what the loop body of
   * core/fdw_manager.py:349-361 reads.
   */
  predicate Supplies(v: Value, other: string, full: string, key: string, info: Infos, dfs: Frames) {
    other != full && Get(dfs, other).Some? && Get(info, other).Some?
    && var df := Get(dfs, other).value;
    match IndexOf(df.columns, Get(info, other).value.alias + "." + key)
    case None => false
    case Some(i) => v in ColumnCells(df, i)
  }

  /** One table contributes exactly the values it supplies. */
  lemma ValuesFromSpec(v: Value, other: string, full: string, key: string, info: Infos, dfs: Frames)
    ensures v in ValuesFrom(other, full, key, info, dfs) <==> Supplies(v, other, full, key, info, dfs)
  {
    if Supplies(v, other, full, key, info, dfs) {
      var df := Get(dfs, other).value;
      var i := IndexOf(df.columns, Get(info, other).value.alias + "." + key).value;
      var cells := ColumnCells(df, i);
      var k :| 0 <= k < |cells| && cells[k] == v;
      assert cells[k] in Unique(cells);
    }
  }

  /** A rule's values are exactly those some other, fetched table of the rule supplies. */
  lemma {:induction false} RuleValuesSpec(v: Value, tables: seq<string>, full: string, key: string, info: Infos, dfs: Frames)
    ensures v in RuleValues(tables, full, key, info, dfs)
            <==> exists o :: o in tables && Supplies(v, o, full, key, info, dfs)
  {
    if tables != [] {
      var init, last := tables[..|tables| - 1], tables[|tables| - 1];
      var before, here := RuleValues(init, full, key, info, dfs), ValuesFrom(last, full, key, info, dfs);
      assert RuleValues(tables, full, key, info, dfs) == before + here;
      RuleValuesSpec(v, init, full, key, info, dfs);
      ValuesFromSpec(v, last, full, key, info, dfs);
      if v in before + here {
        if v in before {
          var o :| o in init && Supplies(v, o, full, key, info, dfs);
          InFrontOrLast(tables, o);
        } else {
          assert last in tables;
        }
      }
      if exists o :: o in tables && Supplies(v, o, full, key, info, dfs) {
        var o :| o in tables && Supplies(v, o, full, key, info, dfs);
        InFrontOrLast(tables, o);
        assert v in before || v in here;
      }
    }
  }

  /** A rule naming `full` in which another fetched table supplies `v`. */
  predicate RuleSupplies(v: Value, rule: JoinRule, full: string, info: Infos, dfs: Frames) {
    full in rule.tables && exists o :: o in rule.tables && Supplies(v, o, full, rule.key, info, dfs)
  }

  /**
   * `join_params` holds exactly the values that some rule naming the table
   * lets another of its fetched tables supply (both directions).
   */
  lemma JoinValuesSpec(v: Value, rules: seq<JoinRule>, full: string, info: Infos, dfs: Frames)
    ensures v in JoinValues(rules, full, info, dfs)
            <==> exists k :: 0 <= k < |rules| && RuleSupplies(v, rules[k], full, info, dfs)
  {
    if v in JoinValues(rules, full, info, dfs) {
      JoinValuesSound(v, rules, full, info, dfs);
    }
    if exists k :: 0 <= k < |rules| && RuleSupplies(v, rules[k], full, info, dfs) {
      var k :| 0 <= k < |rules| && RuleSupplies(v, rules[k], full, info, dfs);
      JoinValuesComplete(v, rules, k, full, info, dfs);
    }
  }

  lemma {:induction false} JoinValuesSound(v: Value, rules: seq<JoinRule>, full: string, info: Infos, dfs: Frames)
    requires v in JoinValues(rules, full, info, dfs)
    ensures exists k :: 0 <= k < |rules| && RuleSupplies(v, rules[k], full, info, dfs)
  {
    var init, rule := rules[..|rules| - 1], rules[|rules| - 1];
    if v in JoinValues(init, full, info, dfs) {
      JoinValuesSound(v, init, full, info, dfs);
      var k :| 0 <= k < |init| && RuleSupplies(v, init[k], full, info, dfs);
      assert rules[k] == init[k];
    } else {
      RuleValuesSpec(v, rule.tables, full, rule.key, info, dfs);
      assert RuleSupplies(v, rules[|rules| - 1], full, info, dfs);
    }
  }

  lemma {:induction false} JoinValuesComplete(v: Value, rules: seq<JoinRule>, k: nat, full: string, info: Infos, dfs: Frames)
    requires k < |rules| && RuleSupplies(v, rules[k], full, info, dfs)
    ensures v in JoinValues(rules, full, info, dfs)
  {
    var init, rule := rules[..|rules| - 1], rules[|rules| - 1];
    if k < |init| {
      assert init[k] == rules[k];
      JoinValuesComplete(v, init, k, full, info, dfs);
    } else {
      RuleValuesSpec(v, rule.tables, full, rule.key, info, dfs);
    }
  }

  /** The nested loops of core/fdw_manager.py:346-361 that accumulate `join_params`. */
  method CollectJoinParams(rules: seq<JoinRule>, full: string, info: Infos, dfs: Frames) returns (params: seq<Value>)
    ensures params == JoinValues(rules, full, info, dfs)
  {
    params := [];
    for i := 0 to |rules|
      invariant params == JoinValues(rules[..i], full, info, dfs)
    {
      var rule := rules[i];
      assert rules[..i + 1][..i] == rules[..i];
      if full in rule.tables {
        var values := CollectRuleParams(rule.tables, full, rule.key, info, dfs);
        params := params + values;
      }
    }
    assert rules[..|rules|] == rules;
  }

  /** The inner loop over the tables of one rule (core/fdw_manager.py:349-361). */
  method CollectRuleParams(tables: seq<string>, full: string, key: string, info: Infos, dfs: Frames)
    returns (values: seq<Value>)
    ensures values == RuleValues(tables, full, key, info, dfs)
  {
    values := [];
    for j := 0 to |tables|
      invariant values == RuleValues(tables[..j], full, key, info, dfs)
    {
      assert tables[..j + 1][..j] == tables[..j];
      var other := tables[j];
      assert RuleValues(tables[..j + 1], full, key, info, dfs) == values + ValuesFrom(other, full, key, info, dfs);
      if other != full && Get(dfs, other).Some? {
        var otherDf := Get(dfs, other).value;
        if Get(info, other).Some? {
          var otherCol := Get(info, other).value.alias + "." + key;
          var idx := IndexOf(otherDf.columns, otherCol);
          if idx.Some? {
            values := values + Unique(ColumnCells(otherDf, idx.value));
          }
        }
      }
    }
    assert tables[..|tables|] == tables;
  }

  // ================================================================ the statement

  /** What goes to a backend: the SQL text and the values bound to its `%s` (none when empty). */
  datatype Statement = Statement(sql: string, params: seq<Value>)

  /** `', '.join(columns) if columns and columns != ['*'] else '*'` */
  function SelectList(columns: seq<string>): string {
    if columns != [] && columns != ["*"] then JoinWith(columns, ", ") else "*"
  }

  /**
   * `{alias}.{rule['key']} IN %s`, present exactly when there are values.
   * `rule` is the loop variable left over from the loop over the rules, so
   * the key is that of the last applicable rule.
   */
  function InFilter(alias: string, rules: seq<JoinRule>, params: seq<Value>): (r: Option<string>)
    ensures r.Some? <==> params != [] && rules != []
  {
    if params != [] && rules != [] then Some(alias + "." + rules[|rules| - 1].key + " IN %s") else None
  }

  /** The statement's conditions: the table's WHERE fragments first, then the IN filter. */
  function Conditions(tableWhere: string, inFilter: Option<string>): (r: seq<string>)
    ensures |r| <= 2
    ensures r == [] <==> tableWhere == "" && inFilter.None?
    ensures tableWhere != "" ==> r[0] == tableWhere
    ensures inFilter.Some? ==> r[|r| - 1] == inFilter.value
  {
    (if tableWhere != "" then [tableWhere] else []) + (match inFilter case Some(c) => [c] case None => [])
  }

  function StatementSql(rec: TableInfo, columns: seq<string>, conditions: seq<string>): string {
    "SELECT " + SelectList(columns) + " FROM " + rec.schema + "." + rec.tableName
      + (if conditions != [] then " WHERE " + JoinWith(conditions, " AND ") else "")
  }

  /** The statement step 2 sends for table `full`, given the frames fetched so far. */
  function PlanFor(full: string, rec: TableInfo, columns: seq<string>, where: string, rules: seq<JoinRule>,
                   info: Infos, dfs: Frames): Statement
  {
    var params := JoinValues(rules, full, info, dfs);
    var tableWhere := JoinWith(TableConditions(where, rec.alias), " AND ");
    Statement(StatementSql(rec, TableColumns(columns, rec.alias, full), Conditions(tableWhere, InFilter(rec.alias, rules, params))),
      params)
  }

  /** Building the statement for one table (core/fdw_manager.py:332-368). */
  method PlanStatement(full: string, rec: TableInfo, columns: seq<string>, where: string, rules: seq<JoinRule>,
                       info: Infos, dfs: Frames) returns (stmt: Statement)
    ensures stmt == PlanFor(full, rec, columns, where, rules, info, dfs)
  {
    var tableWhere := ExtractTableWhere(where, rec.alias);
    var cols := ColumnsForTable(columns, rec.alias, full);
    var sql := "SELECT " + SelectList(cols) + " FROM " + rec.schema + "." + rec.tableName;
    var conditions: seq<string> := [];
    if tableWhere != "" {
      conditions := conditions + [tableWhere];
    }
    var joinParams := CollectJoinParams(rules, full, info, dfs);
    if joinParams != [] {
      assert rules != [];
      conditions := conditions + [rec.alias + "." + rules[|rules| - 1].key + " IN %s"];
    }
    if conditions != [] {
      sql := sql + " WHERE " + JoinWith(conditions, " AND ");
    }
    stmt := Statement(sql, joinParams);
  }

  /**
   * The stale IN key: when the last applicable rule does not name the
   * table, all IN values come from earlier rules, yet the filter is built
   * with the last rule's key, not the key of the rule before it.
   */
  lemma StaleInKey(rules: seq<JoinRule>, full: string, alias: string, info: Infos, dfs: Frames)
    requires |rules| >= 2 && full !in rules[|rules| - 1].tables
    requires rules[|rules| - 1].key != rules[|rules| - 2].key
    requires JoinValues(rules, full, info, dfs) != []
    ensures JoinValues(rules[..|rules| - 1], full, info, dfs) == JoinValues(rules, full, info, dfs)
    ensures InFilter(alias, rules, JoinValues(rules, full, info, dfs))
      != InFilter(alias, rules[..|rules| - 1], JoinValues(rules, full, info, dfs))
  {
    var v := JoinValues(rules, full, info, dfs);
    var a := alias + "." + rules[|rules| - 1].key + " IN %s";
    var b := alias + "." + rules[|rules| - 2].key + " IN %s";
    assert a[|alias| + 1..|a| - 6] == rules[|rules| - 1].key;
    assert b[|alias| + 1..|b| - 6] == rules[|rules| - 2].key;
  }

  // ================================================================ the fetch loop

  /**
   * A backend, reached through the connection named first: the column
   * names of the cursor description and the fetched rows, or the
   * driver's error.
   */
  type Fetcher = (string, Statement) -> Result<(seq<string>, seq<seq<Value>>), string>

  /** `alias.` followed by the backend's column name. */
  predicate QualifiedBy(column: string, alias: string) {
    |alias| < |column| && column[..|alias| + 1] == alias + "."
  }

  /** One table's frame: the backend's answer with every column renamed to `alias.column`. */
  function FetchOne(full: string, rec: TableInfo, columns: seq<string>, where: string, rules: seq<JoinRule>,
                    info: Infos, dfs: Frames, fetch: Fetcher): (r: Result<Frame, string>)
    ensures r.Ok? ==> WellFormed(r.value)
    ensures r.Ok? ==> forall j :: 0 <= j < |r.value.columns| ==> QualifiedBy(r.value.columns[j], rec.alias)
    // the backend's error, or a row whose width differs from the description, fails the table
    ensures var answer := fetch(rec.connection, PlanFor(full, rec, columns, where, rules, info, dfs));
      r.Ok? <==> answer.Ok? && forall k :: 0 <= k < |answer.value.1| ==> |answer.value.1[k]| == |answer.value.0|
    ensures var answer := fetch(rec.connection, PlanFor(full, rec, columns, where, rules, info, dfs));
      answer.Err? ==> r == Err(answer.error)
    // otherwise the rows are the backend's, under the column names `alias.name`
    ensures var answer := fetch(rec.connection, PlanFor(full, rec, columns, where, rules, info, dfs));
      r.Ok? ==> r.value.rows == answer.value.1 && |r.value.columns| == |answer.value.0|
                && forall j :: 0 <= j < |r.value.columns| ==> r.value.columns[j] == rec.alias + "." + answer.value.0[j]
  {
    match fetch(rec.connection, PlanFor(full, rec, columns, where, rules, info, dfs))
    case Err(e) => Err(e)
    case Ok(answer) =>
      match FrameOf(answer.0, answer.1)
      case Err(e) => Err(e)
      case Ok(df) =>
        var renamed := Prefixed(rec.alias + ".", df.columns);
        assert forall j :: 0 <= j < |renamed| ==> renamed[j][..|rec.alias| + 1] == rec.alias + ".";
        Ok(Frame(renamed, df.rows))
  }

  /** `dfs` after the loop over the first entries of `table_info`, or the first error. */
  function FetchSpec(entries: Infos, columns: seq<string>, where: string, rules: seq<JoinRule>, info: Infos,
                     fetch: Fetcher): Result<Frames, string>
  {
    if entries == [] then Ok([])
    else
      match FetchSpec(entries[..|entries| - 1], columns, where, rules, info, fetch)
      case Err(e) => Err(e)
      case Ok(dfs) =>
        var last := entries[|entries| - 1];
        match FetchOne(last.key, last.value, columns, where, rules, info, dfs, fetch)
        case Err(e) => Err(e)
        case Ok(df) => Ok(Put(dfs, last.key, df))
  }

  /**
   * The loop of core/fdw_manager.py:330-390: for each resolved table in
   * `table_info` order, build its statement, fetch, rename the columns and
   * store the frame; the first failure ends the query.
   */
  method FetchAll(info: Infos, columns: seq<string>, where: string, rules: seq<JoinRule>, fetch: Fetcher)
    returns (r: Result<Frames, string>)
    ensures r == FetchSpec(info, columns, where, rules, info, fetch)
  {
    var dfs: Frames := [];
    for k := 0 to |info|
      invariant FetchSpec(info[..k], columns, where, rules, info, fetch) == Ok(dfs)
    {
      FetchContinues(info, columns, where, rules, fetch, k, dfs);
      var full := info[k].key;
      var rec := info[k].value;
      var stmt := PlanStatement(full, rec, columns, where, rules, info, dfs);
      var answer := fetch(rec.connection, stmt);
      if answer.Err? {
        FetchStops(info, columns, where, rules, fetch, k + 1);
        return Err(answer.error);
      }
      var df := FrameOf(answer.value.0, answer.value.1);
      if df.Err? {
        FetchStops(info, columns, where, rules, fetch, k + 1);
        return Err(df.error);
      }
      var frame := Frame(Prefixed(rec.alias + ".", df.value.columns), df.value.rows);
      dfs := Put(dfs, full, frame);
    }
    assert info[..|info|] == info;
    r := Ok(dfs);
  }

  /** Once a prefix of the loop fails, the whole loop fails with that error. */
  /** One more turn of the loop: the next table's frame is stored, or its error ends the query. */
  lemma FetchContinues(info: Infos, columns: seq<string>, where: string, rules: seq<JoinRule>,
                       fetch: Fetcher, k: nat, dfs: Frames)
    requires k < |info| && FetchSpec(info[..k], columns, where, rules, info, fetch) == Ok(dfs)
    ensures FetchSpec(info[..k + 1], columns, where, rules, info, fetch)
      == match FetchOne(info[k].key, info[k].value, columns, where, rules, info, dfs, fetch)
         case Err(e) => Err(e)
         case Ok(df) => Ok(Put(dfs, info[k].key, df))
  {
    assert info[..k + 1][..k] == info[..k];
  }

  lemma {:induction false} FetchStops(info: Infos, columns: seq<string>, where: string, rules: seq<JoinRule>,
                                      fetch: Fetcher, k: nat)
    requires k <= |info| && FetchSpec(info[..k], columns, where, rules, info, fetch).Err?
    ensures FetchSpec(info, columns, where, rules, info, fetch) == FetchSpec(info[..k], columns, where, rules, info, fetch)
    decreases |info| - k
  {
    if k < |info| {
      assert info[..k + 1][..k] == info[..k];
      FetchStops(info, columns, where, rules, fetch, k + 1);
    } else {
      assert info[..k] == info;
    }
  }

  /** A fetched frame: rectangular, and every column is `alias.column`. */
  predicate FetchedAs(f: Frame, alias: string) {
    WellFormed(f) && forall j :: 0 <= j < |f.columns| ==> QualifiedBy(f.columns[j], alias)
  }

  /** One frame per entry, in the entries' order, each fetched for the entry's alias. */
  predicate FetchedAll(dfs: Frames, entries: Infos) {
    if entries == [] then dfs == []
    else
      var n := |entries| - 1;
      |dfs| == |entries| && dfs[n].key == entries[n].key && FetchedAs(dfs[n].value, entries[n].value.alias)
      && FetchedAll(dfs[..n], entries[..n])
  }

  /**
   * After a successful loop, `dfs` holds one frame per resolved table, in
   * `table_info` order, each with columns qualified by the table's alias.
   */
  lemma {:induction false} FetchedFrames(entries: Infos, columns: seq<string>, where: string, rules: seq<JoinRule>,
                                         info: Infos, fetch: Fetcher)
    requires UniqueKeys(entries)
    requires FetchSpec(entries, columns, where, rules, info, fetch).Ok?
    ensures FetchedAll(FetchSpec(entries, columns, where, rules, info, fetch).value, entries)
  {
    if entries != [] {
      var init := entries[..|entries| - 1];
      var last := entries[|entries| - 1];
      FetchedFrames(init, columns, where, rules, info, fetch);
      var dfs := FetchSpec(init, columns, where, rules, info, fetch).value;
      var one := FetchOne(last.key, last.value, columns, where, rules, info, dfs, fetch);
      assert FetchSpec(entries, columns, where, rules, info, fetch).value == Put(dfs, last.key, one.value);
      FetchedNew(dfs, entries, one.value);
    }
  }

  /** Storing a frame under a new table extends the fetched frames by one. */
  lemma FetchedNew(dfs: Frames, entries: Infos, df: Frame)
    requires entries != [] && UniqueKeys(entries)
    requires FetchedAll(dfs, entries[..|entries| - 1])
    requires FetchedAs(df, entries[|entries| - 1].value.alias)
    ensures FetchedAll(Put(dfs, entries[|entries| - 1].key, df), entries)
  {
    var n := |entries| - 1;
    var key := entries[n].key;
    FetchedKeys(dfs, entries[..n]);
    assert key !in Keys(dfs) by {
      forall k | 0 <= k < |dfs| ensures Keys(dfs)[k] != key {
        assert Keys(dfs)[k] == dfs[k].key == entries[..n][k].key == entries[k].key;
      }
    }
    var r := Put(dfs, key, df);
    assert r == dfs + [Entry(key, df)];
    assert r[..n] == dfs;
  }

  /** The fetched frames carry the entries' keys, in order. */
  lemma {:induction false} FetchedKeys(dfs: Frames, entries: Infos)
    requires FetchedAll(dfs, entries)
    ensures |dfs| == |entries| && forall k :: 0 <= k < |entries| ==> dfs[k].key == entries[k].key
  {
    if entries != [] {
      var n := |entries| - 1;
      FetchedKeys(dfs[..n], entries[..n]);
      forall k | 0 <= k < n ensures dfs[k].key == entries[k].key {
        assert dfs[..n][k] == dfs[k] && entries[..n][k] == entries[k];
      }
    }
  }
}
