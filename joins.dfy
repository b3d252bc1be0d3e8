/**
 * What the JOIN regular expression of core/fdw_manager.py:158 records, for
 * the shapes of JOIN clause the parser is written for.  These facts are
 * about `Parser.MatchJoinTail` and `Parser.JoinMatches` and are kept apart
 * from the scanner itself.
 */
module JoinFacts {
  import opened Wrappers
  import opened Text
  import opened Parser

  /** The table name starting at `i + 1` is the word run ending at `te`, followed by a space. */
  lemma TableAt(n: string, i: nat, te: nat)
    requires i + 1 < te < |n| && WordEnd(n, i + 1) == te && n[te] == ' '
    ensures TableEnd(n, i + 1) == te
  {
  }

  /** A word, a dot and a word, followed by a space, make up one schema-qualified table name. */
  lemma QualifiedTableAt(n: string, k: nat, se: nat, te: nat)
    requires k < se && se + 1 < te <= |n| && WordEnd(n, k) == se && n[se] == '.' && WordEnd(n, se + 1) == te
    ensures TableEnd(n, k) == te
  {
  }

  /** Once a space and a word follow `JOIN`, the match is decided after the table name. */
  lemma TailAfterTable(n: string, i: nat)
    requires i < |n| && n[i] == ' ' && WordEnd(n, i + 1) != i + 1
    ensures MatchJoinTail(n, i) == MatchAfterTable(n, n[i + 1..TableEnd(n, i + 1)], TableEnd(n, i + 1))
  {
  }

  /** ` ON ` right after the table: no alias. */
  lemma AfterTableOn(n: string, table: string, te: nat)
    requires table != [] && te + 4 < |n| && HasAtCI(n, te, " on ") && n[te + 4] != ')'
    ensures MatchAfterTable(n, table, te) == Some(ClauseFrom(n, table, None, te + 4))
  {
    assert !HasAtCI(n, te, " as ") by {
      assert " on "[1] != " as "[1];
    }
  }

  /** ` AS `, a word ending at `ae` and ` ON ` after the table: that word is the alias. */
  lemma AfterTableAs(n: string, table: string, te: nat, ae: nat)
    requires table != [] && te + 4 < ae && ae + 4 < |n| && WordEnd(n, te + 4) == ae
    requires HasAtCI(n, te, " as ") && HasAtCI(n, ae, " on ") && n[ae + 4] != ')'
    ensures MatchAfterTable(n, table, te) == Some(ClauseFrom(n, table, Some(n[te + 4..ae]), ae + 4))
  {
    assert OnAt(n, ae);
  }

  /** The condition starting at `c` runs to `e`, a `)` or the end of the text. */
  lemma ClauseEndsAt(n: string, table: string, alias: Option<string>, c: nat, e: nat)
    requires c < e <= |n| && (forall j :: c <= j < e ==> n[j] != ')') && (e == |n| || n[e] == ')')
    ensures ClauseFrom(n, table, alias, c) == JoinMatch(JoinClause(table, alias, Strip(n[c..e])), e)
  {
    CloseParenAt(n, c, e);
  }

  /**
   * `JOIN t ON c` read word by word: a space at `i`, the one-word table `t`
   * ending at `te`, ` ON ` in any case, and a condition `c` without `)`
   * ending at `ce`, a `)` or the end, give the clause `(t, no alias, c
   * stripped)`, and the search resumes at `ce`.
   */
  lemma TailOnWords(n: string, i: nat, t: string, c: string, te: nat, ce: nat)
    requires te == i + 1 + |t| && ce == te + 4 + |c| && ce <= |n| && IsWord(t) && c != [] && ')' !in c
    requires n[i] == ' ' && n[i + 1..te] == t && n[te] == ' '
    requires HasAtCI(n, te, " on ") && n[te + 4..ce] == c
    requires ce == |n| || n[ce] == ')'
    ensures MatchJoinTail(n, i) == Some(JoinMatch(JoinClause(t, None, Strip(c)), ce))
  {
    WordEndOf(n, i + 1, t);
    ConditionPlaced(n, te + 4, c);
    TableAt(n, i, te);
    TailAfterTable(n, i);
    AfterTableOn(n, t, te);
    ClauseEndsAt(n, t, None, te + 4, ce);
  }

  /** A condition text without `)` placed at `p` keeps `)` out of that stretch of the text. */
  lemma ConditionPlaced(n: string, p: nat, c: string)
    requires ')' !in c && p + |c| <= |n| && n[p..p + |c|] == c
    ensures forall j :: p <= j < p + |c| ==> n[j] != ')'
  {
    forall j | p <= j < p + |c| ensures n[j] != ')' {
      assert n[j] == c[j - p] && c[j - p] in c;
    }
  }

  /** The alias path of the regex, by positions: table ending at `te`, alias ending at `ae`, condition ending at `ce`. */
  lemma TailAsOn(n: string, i: nat, te: nat, ae: nat, ce: nat)
    requires i + 1 < te && te + 4 < ae && ae + 4 < ce <= |n|
    requires n[i] == ' ' && WordEnd(n, i + 1) != i + 1 && TableEnd(n, i + 1) == te
    requires HasAtCI(n, te, " as ") && WordEnd(n, te + 4) == ae && HasAtCI(n, ae, " on ")
    requires forall j :: ae + 4 <= j < ce ==> n[j] != ')'
    requires ce == |n| || n[ce] == ')'
    ensures MatchJoinTail(n, i) == Some(JoinMatch(JoinClause(n[i + 1..te], Some(n[te + 4..ae]), Strip(n[ae + 4..ce])), ce))
  {
    TailAfterTable(n, i);
    AfterTableAs(n, n[i + 1..te], te, ae);
    ClauseEndsAt(n, n[i + 1..te], Some(n[te + 4..ae]), ae + 4, ce);
  }

  /** As `TailOnWords`, with ` AS ` and the alias word `a` ending at `ae` before ` ON `: the alias is recorded. */
  lemma TailAsOnWords(n: string, i: nat, t: string, a: string, c: string, te: nat, ae: nat, ce: nat)
    requires te == i + 1 + |t| && ae == te + 4 + |a| && ce == ae + 4 + |c| && ce <= |n|
    requires t != [] && a != [] && c != []
    requires n[i] == ' ' && n[i + 1..te] == t && WordEnd(n, i + 1) == te && n[te] == ' '
    requires HasAtCI(n, te, " as ") && n[te + 4..ae] == a && WordEnd(n, te + 4) == ae
    requires HasAtCI(n, ae, " on ") && n[ae + 4..ce] == c
    requires forall j :: ae + 4 <= j < ce ==> n[j] != ')'
    requires ce == |n| || n[ce] == ')'
    ensures MatchJoinTail(n, i) == Some(JoinMatch(JoinClause(t, Some(a), Strip(c)), ce))
  {
    TableAt(n, i, te);
    TailAsOn(n, i, te, ae, ce);
  }

  /** A schema-qualified table `s.t` (a word, a dot, a word) with an alias: the clause records the whole `s.t`. */
  lemma QualifiedTailAsOn(n: string, i: nat, se: nat, te: nat, ae: nat, ce: nat)
    requires i + 1 < se && se + 1 < te && te + 4 < ae && ae + 4 < ce <= |n|
    requires n[i] == ' ' && WordEnd(n, i + 1) == se && n[se] == '.' && WordEnd(n, se + 1) == te
    requires HasAtCI(n, te, " as ") && WordEnd(n, te + 4) == ae && HasAtCI(n, ae, " on ")
    requires forall j :: ae + 4 <= j < ce ==> n[j] != ')'
    requires ce == |n| || n[ce] == ')'
    ensures MatchJoinTail(n, i) == Some(JoinMatch(JoinClause(n[i + 1..te], Some(n[te + 4..ae]), Strip(n[ae + 4..ce])), ce))
  {
    QualifiedTableAt(n, i + 1, se, te);
    TailAsOn(n, i, te, ae, ce);
  }

  /**
   * `JOIN t ON c` as the last clause of the text: the scan that starts at
   * the keyword `JOIN` (at `k`) finds exactly that clause.
   */
  lemma JoinClauseFound(n: string, k: nat, t: string, c: string)
    requires KeywordAt(n, k, "join") && k + 4 <= |n|
    requires k + 9 + |t| + |c| == |n| && IsWord(t) && c != [] && ')' !in c
    requires n[k + 4] == ' ' && n[k + 5..k + 5 + |t|] == t && n[k + 5 + |t|] == ' '
    requires HasAtCI(n, k + 5 + |t|, " on ") && n[k + 9 + |t|..k + 9 + |t| + |c|] == c
    ensures JoinMatches(n, k) == [JoinClause(t, None, Strip(c))]
  {
    TailOnWords(n, k + 4, t, c, k + 5 + |t|, k + 9 + |t| + |c|);
  }

  /**
   * The condition `[^)]+` does not stop at WHERE: in `JOIN t ON a = b
   * WHERE x = 1` with no `)` after it, the WHERE text becomes part of the
   * recorded condition.
   */
  lemma JoinConditionTakesWhere(n: string, k: nat, t: string, cond: string, where: string)
    requires KeywordAt(n, k, "join") && IsWord(t) && ')' !in cond && ')' !in where
    requires cond != [] && !IsSpace(cond[0]) && where != [] && !IsSpace(where[|where| - 1])
    requires var c := cond + " WHERE " + where;
      k + 9 + |t| + |c| == |n| && n[k + 4] == ' ' && n[k + 5..k + 5 + |t|] == t && n[k + 5 + |t|] == ' '
      && HasAtCI(n, k + 5 + |t|, " on ") && n[k + 9 + |t|..k + 9 + |t| + |c|] == c
    ensures JoinMatches(n, k) == [JoinClause(t, None, cond + " WHERE " + where)]
  {
    var c := cond + " WHERE " + where;
    assert ')' !in c by {
      assert forall j :: 0 <= j < |c| ==> c[j] in cond || c[j] in " WHERE " || c[j] in where;
    }
    assert c[0] == cond[0] && c[|c| - 1] == where[|where| - 1];
    StripClean(c);
    JoinClauseFound(n, k, t, c);
  }
}
