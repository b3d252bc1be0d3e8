/**
 * Two queries of the repository's own parser tests
 * (core/fdw_autotest.py:71-86), worked through the model of `parse_sql`.
 * A query is written as the concatenation of its words and single spaces;
 * general lemmas about single-spaced text, `Lower`, `Find`, the JOIN scan
 * and the FROM split are then applied to the pieces.
 */
module TextFacts {
  import opened Wrappers
  import opened Text

  // ================================================================ single-spaced text

  /** Words separated by single spaces, with no whitespace at either end: what normalising produces. */
  predicate Spaced(s: string)
    decreases |s|
  {
    s != [] && !IsSpace(s[0]) &&
    var k := NonSpaceRun(s);
    k == |s| || (s[k] == ' ' && Spaced(s[k + 1..]))
  }

  lemma SpacedWord(w: string)
    requires w != [] && NoSpace(w)
    ensures Spaced(w)
  {
    assert w[0] in w;
    NonSpaceRunAll(w);
  }

  /** A word, one space and single-spaced text are single-spaced. */
  lemma SpacedCons(w: string, rest: string)
    requires w != [] && NoSpace(w) && Spaced(rest)
    ensures Spaced(w + " " + rest)
  {
    var s := w + " " + rest;
    assert w[0] in w && s[0] == w[0];
    assert s == w + (" " + rest);
    NonSpaceRunPrefix(w, " " + rest);
    assert s[|w| + 1..] == rest;
  }

  /** Single-spaced text is already normalised: `re.sub(r'\s+', ' ', s).strip()` gives it back. */
  lemma {:induction false} SpacedNormal(s: string)
    requires Spaced(s)
    ensures Normalize(s) == s
    decreases |s|
  {
    var k := NonSpaceRun(s);
    var w := s[..k];
    assert NoSpace(w) by {
      forall c | c in w ensures !IsSpace(c) {
        var i :| 0 <= i < k && w[i] == c;
      }
    }
    if k == |s| {
      assert w == s;
      WordsOfOne(s);
    } else {
      var rest := s[k + 1..];
      assert s == w + " " + rest;
      SpacedNormal(rest);
      WordsOfCons(w, rest);
      assert Words(rest) != [];
      JoinCons(w, Words(rest), " ");
    }
  }

  /** Five words joined by single spaces are already normalised. */
  lemma NormalFive(a: string, b: string, c: string, d: string, e: string)
    requires a != [] && NoSpace(a) && b != [] && NoSpace(b) && c != [] && NoSpace(c)
    requires d != [] && NoSpace(d) && e != [] && NoSpace(e)
    ensures Normalize(a + " " + (b + " " + (c + " " + (d + " " + e)))) == a + " " + (b + " " + (c + " " + (d + " " + e)))
  {
    SpacedWord(e);
    SpacedCons(d, e);
    SpacedCons(c, d + " " + e);
    SpacedCons(b, c + " " + (d + " " + e));
    SpacedCons(a, b + " " + (c + " " + (d + " " + e)));
    SpacedNormal(a + " " + (b + " " + (c + " " + (d + " " + e))));
  }

  /** Three words in front of `x`, re-bracketed so that the words form one piece of text. */
  lemma Spelled(a: string, b: string, c: string, x: string)
    ensures a + " " + (b + " " + (c + " " + x)) == (a + " " + b + " " + c + " ") + x
  {
  }

  lemma SpelledTwo(a: string, b: string, x: string)
    ensures a + " " + (b + " " + x) == (a + " " + b + " ") + x
  {
  }

  lemma SpelledFour(a: string, b: string, c: string, d: string, x: string)
    ensures a + " " + (b + " " + (c + " " + (d + " " + x))) == (a + " " + b + " " + c + " " + d + " ") + x
  {
    Spelled(b, c, d, x);
  }

  /** What follows four words and their spaces. */
  lemma AfterFour(a: string, b: string, c: string, d: string, x: string)
    ensures var s := a + " " + (b + " " + (c + " " + (d + " " + x)));
      |s| == |a| + |b| + |c| + |d| + 4 + |x| && s[|a| + |b| + |c| + |d| + 3..] == " " + x
  {
    SpelledFour(a, b, c, d, x);
  }

  lemma AssocFour(a: string, b: string, c: string, d: string, x: string)
    ensures a + (b + (c + (d + x))) == (a + b + c + d) + x
  {
  }

  lemma NormalWord(w: string)
    requires w != [] && NoSpace(w)
    ensures Normalize(w) == w
  {
    WordsOfOne(w);
  }

  /** A word put in front of normalised text with one space keeps it normalised. */
  lemma NormalCons(w: string, rest: string)
    requires w != [] && NoSpace(w) && rest != [] && Normalize(rest) == rest
    ensures Normalize(w + " " + rest) == w + " " + rest
  {
    WordsOfCons(w, rest);
    assert Words(rest) != [];
    JoinCons(w, Words(rest), " ");
  }

  /** Three words in front of normalised text keep it normalised. */
  lemma NormalConsThree(a: string, b: string, c: string, rest: string)
    requires a != [] && NoSpace(a) && b != [] && NoSpace(b) && c != [] && NoSpace(c)
    requires rest != [] && Normalize(rest) == rest
    ensures Normalize(a + " " + (b + " " + (c + " " + rest))) == a + " " + (b + " " + (c + " " + rest))
  {
    NormalCons(c, rest);
    NormalCons(b, c + " " + rest);
    NormalCons(a, b + " " + (c + " " + rest));
  }

  // ================================================================ lower case and find, piece by piece

  lemma LowerSlice(s: string, a: nat, b: nat)
    requires a <= b <= |s|
    ensures Lower(s)[a..b] == Lower(s[a..b])
  {
    forall i | 0 <= i < b - a ensures Lower(s)[a..b][i] == Lower(s[a..b])[i] {
      LowerSliceAt(s, a, b, i);
    }
  }

  lemma LowerSliceAt(s: string, a: nat, b: nat, i: nat)
    requires a <= b <= |s| && i < b - a
    ensures Lower(s)[a..b][i] == Lower(s[a..b])[i]
  {
    assert s[a..b][i] == s[a + i];
  }

  /** Text without capitals is its own lower case. */
  lemma LowerFixed(s: string)
    requires forall i :: 0 <= i < |s| ==> !('A' <= s[i] <= 'Z')
    ensures Lower(s) == s
  {
  }

  /** `up` is the capital of the lower-case letter `c`. */
  predicate Capital(c: char, up: char) {
    'a' <= c <= 'z' && up as int == c as int - 32
  }

  /** A lower-case letter absent from `s` in both cases is absent from `s.lower()`. */
  lemma LowerAvoids(s: string, c: char, up: char)
    requires Capital(c, up) && c !in s && up !in s
    ensures c !in Lower(s)
  {
    forall i | 0 <= i < |s| ensures Lower(s)[i] != c {
      assert s[i] in s;
    }
  }

  /** The same, for a stretch of a text. */
  lemma LowerAvoidsSlice(n: string, c: char, up: char, start: nat, p: nat)
    requires Capital(c, up) && start <= p <= |n|
    requires c !in n[start..p] && up !in n[start..p]
    ensures c !in Lower(n)[start..p]
  {
    LowerSlice(n, start, p);
    LowerAvoids(n[start..p], c, up);
  }

  /** `Find` stops at `p` when `pat` occurs there and its first letter occurs nowhere before. */
  lemma {:induction false} FindAt(s: string, pat: string, start: nat, p: nat)
    requires pat != [] && start <= p && OccursAt(s, pat, p) && pat[0] !in s[start..p]
    ensures Find(s, pat, start) == Some(p)
    decreases p - start
  {
    if start < p {
      assert s[start] == s[start..p][0];
      assert s[start + 1..p] == s[start..p][1..];
      FindAt(s, pat, start + 1, p);
    }
  }

  /** `pat` does not occur from `start` on when its `k`-th letter does not. */
  lemma {:induction false} FindNone(s: string, pat: string, start: nat, k: nat)
    requires k < |pat| && start <= |s| && pat[k] !in s[start..]
    ensures Find(s, pat, start) == None
    decreases |s| - start
  {
    if start + |pat| <= |s| {
      assert s[start + k] == s[start..][k];
      assert s[start..start + |pat|][k] == s[start + k];
      assert s[start..][1..] == s[start + 1..];
      FindNone(s, pat, start + 1, k);
    }
  }

  /** The case-insensitive search for the lower-case keyword `kw` from `start` finds it at `p`, where `n` holds `word`. */
  lemma KeywordFound(n: string, kw: string, up: char, start: nat, p: nat, word: string)
    requires kw != [] && Capital(kw[0], up) && start <= p && p + |word| <= |n|
    requires n[p..p + |word|] == word && Lower(word) == kw
    requires kw[0] !in n[start..p] && up !in n[start..p]
    ensures Find(Lower(n), kw, start) == Some(p)
  {
    LowerSlice(n, p, p + |kw|);
    LowerAvoidsSlice(n, kw[0], up, start, p);
    FindAt(Lower(n), kw, start, p);
  }

  /** The case-insensitive search for `kw` from `start` fails when its first letter does not occur in either case. */
  lemma KeywordMissing(n: string, kw: string, up: char, start: nat)
    requires kw != [] && Capital(kw[0], up) && start <= |n|
    requires kw[0] !in n[start..] && up !in n[start..]
    ensures Find(Lower(n), kw, start) == None
  {
    assert n[start..|n|] == n[start..];
    LowerAvoidsSlice(n, kw[0], up, start, |n|);
    assert Lower(n)[start..|n|] == Lower(n)[start..];
    FindNone(Lower(n), kw, start, 0);
  }

  // ================================================================ strip and split, piece by piece

  /** A stripped text between two spaces strips back to itself. */
  lemma StripPadded(t: string)
    requires t != [] && !IsSpace(t[0]) && !IsSpace(t[|t| - 1])
    ensures Strip(" " + t + " ") == t
  {
    var s := " " + t + " ";
    assert SkipSpaces(s, 1) == 1;
    assert SkipSpaces(s, 0) == 1;
    assert BackSpaces(s, 1, |s| - 1) == |s| - 1;
    assert BackSpaces(s, 1, |s|) == |s| - 1;
    assert s[1..|s| - 1] == t;
  }

  /** Two words between single spaces strip to the two words. */
  lemma StripPaddedWords(t: string, a: string)
    requires t != [] && NoSpace(t) && a != [] && NoSpace(a)
    ensures Strip(" " + (t + " " + a) + " ") == t + " " + a
  {
    var inner := t + " " + a;
    assert t[0] in t && a[|a| - 1] in a;
    assert inner[0] == t[0] && inner[|inner| - 1] == a[|a| - 1];
    StripPadded(inner);
  }

  /** `"a, b".split(",")` for comma-free `a` and `b`. */
  lemma SplitTwo(a: string, b: string)
    requires ',' !in a && ',' !in b
    ensures SplitOn(a + ", " + b, ",") == [a, " " + b]
  {
    assert a + ", " + b == a + [','] + (" " + b);
    FirstSeparatorSplit(a, ',', " " + b);
    assert ',' !in " " + b;
    NoSeparatorSplit(" " + b, ',');
  }

  /** Two words, the second behind a space, strip to themselves. */
  lemma StripTwo(a: string, b: string)
    requires a != [] && b != [] && NoSpace(a) && NoSpace(b)
    ensures StripEach([a, " " + b]) == [a, b]
  {
    assert a[0] in a && a[|a| - 1] in a && b[0] in b && b[|b| - 1] in b;
    StripClean(a);
    StripClean(b);
    StripLeadingSpace(b);
  }

  lemma TwoWords(t: string, a: string)
    requires t != [] && NoSpace(t) && a != [] && NoSpace(a)
    ensures Words(t + " " + a) == [t, a]
  {
    WordsOfCons(t, a);
    WordsOfOne(a);
  }

}

/** The test queries themselves, worked through `parse_sql`. */
module ParseExamples {
  import opened Wrappers
  import opened Text
  import opened Dict
  import opened Parser
  import opened TextFacts
  import opened JoinFacts

  // ================================================================ the JOIN scan, piece by piece

  /** The JOIN scan passes over text without a `j`. */
  lemma {:induction false} JoinSkip(n: string, pos: nat, e: nat)
    requires pos <= e <= |n| && 'j' !in n[pos..e] && 'J' !in n[pos..e]
    ensures JoinMatches(n, pos) == JoinMatches(n, e)
    decreases e - pos
  {
    if pos < e && pos + 4 <= |n| {
      assert n[pos] == n[pos..e][0];
      assert Lower(n[pos..pos + 4])[0] == LowerChar(n[pos]);
      assert n[pos + 1..e] == n[pos..e][1..];
      JoinSkip(n, pos + 1, e);
    }
  }

  /** Without a `j` there is no JOIN keyword, so the scan records no clause. */
  lemma NoJoinMatches(n: string, pos: nat)
    requires pos <= |n| && 'j' !in n[pos..] && 'J' !in n[pos..]
    ensures JoinMatches(n, pos) == []
  {
    assert n[pos..|n|] == n[pos..];
    JoinSkip(n, pos, |n|);
  }

  /** After a table, ` a ...` with a bare alias `a` shows neither ` as ` nor ` on `. */
  lemma AliasIsNoKeyword(m: string, a: string, x: string, pat: string)
    requires |pat| == 4 && pat[2] != ' ' && pat[3] == ' '
    requires m == " " + (a + " " + x) && IsWord(a) && Lower(a) != pat[1..3]
    ensures !(4 <= |m| && Lower(m[..4]) == pat)
  {
  }

  /** What follows a known prefix of a suffix. */
  lemma SuffixAfter(n: string, i: nat, u: string, y: string)
    requires i <= |n| && n[i..] == u + y
    ensures i + |u| <= |n| && n[i + |u|..] == y
  {
    assert n[i + |u|..] == n[i..][|u|..];
  }

  /** A slice of a suffix is a slice of the whole. */
  lemma SliceOfSuffix(n: string, i: nat, p: nat, q: nat)
    requires i <= |n| && p <= q <= |n| - i
    ensures n[i..][p..q] == n[i + p..i + q]
  {
  }

  /** A word at the front of a suffix, followed by a non-word character, is where the word run ends. */
  lemma WordEndBefore(n: string, i: nat, w: string, y: string)
    requires i <= |n| && n[i..] == w + y && IsWord(w) && y != [] && !IsWordChar(y[0])
    ensures WordEnd(n, i) == i + |w|
  {
    SliceOfSuffix(n, i, 0, |w|);
    assert n[i..i + |w|] == w;
    assert n[i + |w|] == n[i..][|w|];
    WordEndOf(n, i, w);
  }

  /** The two word runs of `s1.s2` followed by a non-word character. */
  lemma QualifiedWordEnds(n: string, i: nat, s1: string, s2: string, y: string)
    requires i <= |n| && n[i..] == s1 + "." + s2 + y
    requires IsWord(s1) && IsWord(s2) && y != [] && !IsWordChar(y[0])
    ensures i + |s1| < |n| && n[i + |s1|] == '.'
    ensures WordEnd(n, i) == i + |s1| && WordEnd(n, i + |s1| + 1) == i + |s1| + 1 + |s2|
  {
    assert s1 + "." + s2 + y == s1 + ("." + s2 + y) == (s1 + ".") + (s2 + y);
    WordEndBefore(n, i, s1, "." + s2 + y);
    SuffixAfter(n, i, s1 + ".", s2 + y);
    assert n[i + |s1|] == n[i..][|s1|];
    WordEndBefore(n, i + |s1| + 1, s2, y);
  }

  /** `s1.s2` after a space and followed by a non-word character: the table name read after `JOIN` is `s1.s2`. */
  lemma QualifiedTableEnd(n: string, i: nat, s1: string, s2: string, y: string)
    requires i < |n| && n[i] == ' ' && n[i + 1..] == s1 + "." + s2 + y
    requires IsWord(s1) && IsWord(s2) && y != [] && !IsWordChar(y[0])
    ensures WordEnd(n, i + 1) != i + 1 && TableEnd(n, i + 1) == i + 2 + |s1| + |s2|
  {
    QualifiedWordEnds(n, i + 1, s1, s2, y);
    QualifiedTableAt(n, i + 1, i + 1 + |s1|, i + 2 + |s1| + |s2|);
  }

  /** A bare alias after the table: neither ` as ` nor ` on ` begins there. */
  lemma BareAliasAt(n: string, te: nat, a: string, x: string)
    requires te <= |n| && n[te..] == " " + (a + " " + x) && IsWord(a) && Lower(a) != "as" && Lower(a) != "on"
    ensures !HasAtCI(n, te, " as ") && !HasAtCI(n, te, " on ")
  {
    var m := n[te..];
    AliasIsNoKeyword(m, a, x, " as ");
    AliasIsNoKeyword(m, a, x, " on ");
    if te + 4 <= |n| {
      assert n[te..te + 4] == m[..4];
    }
  }

  /**
   * `JOIN s1.s2 a ...` with a bare alias `a` is not a JOIN clause:
   * the scan moves on one position past the `join`.
   */
  lemma BareAliasJoin(n: string, k: nat, t: string, s1: string, s2: string, a: string, x: string)
    requires k <= |n| && n[k..] == "JOIN" + " " + (t + " " + (a + " " + x))
    requires t == s1 + "." + s2 && IsWord(s1) && IsWord(s2) && IsWord(a) && Lower(a) != "as" && Lower(a) != "on"
    ensures MatchJoinTail(n, k + 4) == None
  {
    QualifiedAfterJoin(n, k, t, s1, s2, a, x);
    BareAliasAfterTable(n, k + 4, k + 5 + |t|, a, x);
  }

  /** A table ending at `te` followed by a bare alias: no match. */
  lemma BareAliasAfterTable(n: string, i: nat, te: nat, a: string, x: string)
    requires i < te <= |n| && n[i] == ' ' && TableEnd(n, i + 1) == te
    requires n[te..] == " " + (a + " " + x) && IsWord(a) && Lower(a) != "as" && Lower(a) != "on"
    ensures MatchJoinTail(n, i) == None
  {
    BareAliasAt(n, te, a, x);
    BareAliasIsNotMatched(n, i);
  }

  /** After `JOIN `, a schema-qualified table `s1.s2` ends where the blank before `a` begins. */
  lemma QualifiedAfterJoin(n: string, k: nat, t: string, s1: string, s2: string, a: string, x: string)
    requires k <= |n| && n[k..] == "JOIN" + " " + (t + " " + (a + " " + x))
    requires t == s1 + "." + s2 && IsWord(s1) && IsWord(s2)
    ensures k + 5 + |t| <= |n| && n[k + 4] == ' ' && TableEnd(n, k + 5) == k + 5 + |t|
    ensures n[k + 5 + |t|..] == " " + (a + " " + x)
  {
    var y := " " + (a + " " + x);
    assert t + " " + (a + " " + x) == t + y;
    SuffixAfter(n, k, "JOIN" + " ", t + y);
    assert n[k + 4] == n[k..][4];
    assert n[k + 5..] == s1 + "." + s2 + y;
    QualifiedTableEnd(n, k + 4, s1, s2, y);
    SuffixAfter(n, k + 5, t, y);
  }

  /** The JOIN scan passes over a prefix without a `j`. */
  lemma JoinSkipPrefix(n: string, pos: nat, w: string, x: string)
    requires pos <= |n| && n[pos..] == w + x && forall c :: c in w ==> c != 'j' && c != 'J'
    ensures pos + |w| <= |n| && n[pos + |w|..] == x
    ensures w != [] ==> n[pos + |w| - 1] == w[|w| - 1]
    ensures JoinMatches(n, pos) == JoinMatches(n, pos + |w|)
  {
    SuffixAfter(n, pos, w, x);
    SliceOfSuffix(n, pos, 0, |w|);
    assert n[pos..pos + |w|] == w;
    if w != [] {
      assert n[pos + |w| - 1] == n[pos..][|w| - 1];
    }
    JoinSkip(n, pos, pos + |w|);
  }

  /** `JOIN` after a space and before a space is the keyword. */
  lemma JoinKeywordAt(n: string, k: nat, x: string)
    requires 0 < k <= |n| && n[k - 1] == ' ' && n[k..] == "JOIN" + " " + x
    ensures KeywordAt(n, k, "join")
  {
    SliceOfSuffix(n, k, 0, 4);
    assert n[k..k + 4] == "JOIN";
    assert n[k + 4] == n[k..][4];
    assert Lower("JOIN") == "join";
  }

  /** Past the `J` of a `JOIN` that is not a clause, the scan passes over `OIN `. */
  lemma SkipJoinWord(n: string, k: nat, z: string)
    requires k <= |n| && n[k..] == "JOIN" + " " + z
    ensures k + 5 <= |n| && n[k + 5..] == z && JoinMatches(n, k + 1) == JoinMatches(n, k + 5)
  {
    assert n[k + 1..] == n[k..][1..];
    assert ("JOIN" + " " + z)[1..] == "OIN " + z;
    JoinSkipPrefix(n, k + 1, "OIN ", z);
  }

  /** Where a prefix `w` and the `word` after it lie in a suffix. */
  lemma WordAfterPrefix(n: string, start: nat, w: string, word: string, x: string)
    requires start <= |n| && n[start..] == w + (word + x)
    ensures start + |w| + |word| <= |n|
    ensures n[start..start + |w|] == w && n[start + |w|..start + |w| + |word|] == word
    ensures n[start + |w| + |word|..] == x
  {
    var p := start + |w|;
    SuffixAfter(n, start, w, word + x);
    SuffixAfter(n, p, word, x);
    SliceOfSuffix(n, start, 0, |w|);
    SliceOfSuffix(n, p, 0, |word|);
  }

  /** The first `kw` (any case) from `start` is the `word` after a prefix `w` that has no letter of `kw[0]`. */
  lemma KeywordAfter(n: string, kw: string, up: char, start: nat, w: string, word: string, x: string)
    requires kw != [] && Capital(kw[0], up) && start <= |n| && n[start..] == w + (word + x) && Lower(word) == kw
    requires kw[0] !in w && up !in w
    ensures Find(Lower(n), kw, start) == Some(start + |w|)
    ensures start + |w| + |word| <= |n| && n[start + |w| + |word|..] == x
  {
    var p := start + |w|;
    assert p + |word| <= |n| && n[p..p + |word|] == word && kw[0] !in n[start..p] && up !in n[start..p] by {
      WordAfterPrefix(n, start, w, word, x);
    }
    KeywordFound(n, kw, up, start, p, word);
    assert n[p + |word|..] == x by {
      WordAfterPrefix(n, start, w, word, x);
    }
  }

  // ================================================================ the FROM list, piece by piece

  /** The FROM part is cut at `k` when the word `on` starts there and at no earlier position. */
  lemma CutAtOnAt(s: string, k: nat)
    requires OnCutAt(s, k) && forall j :: 0 <= j < k ==> !OnCutAt(s, j)
    ensures CutAtOn(s) == s[..k]
  {
  }

  /** No word `on` starts in `[lo, hi)` when no `n` follows there. */
  lemma NoOnBetween(s: string, lo: nat, hi: nat)
    requires lo <= hi && hi + 1 <= |s| && 'n' !in s[lo + 1..hi + 1] && 'N' !in s[lo + 1..hi + 1]
    ensures forall j :: lo <= j < hi ==> !OnCutAt(s, j)
  {
    forall j | lo <= j < hi ensures !OnCutAt(s, j) {
      assert s[j + 1] == s[lo + 1..hi + 1][j - lo];
      if j + 2 <= |s| {
        assert Lower(s[j..j + 2])[1] == LowerChar(s[j + 1]);
      }
    }
  }

  /** Without an `o` there is no word `on`, so nothing is cut. */
  lemma NoOnCut(s: string)
    requires 'o' !in s && 'O' !in s
    ensures CutAtOn(s) == s
  {
  }

  /** The FROM split passes over text without a comma or a `j`. */
  lemma {:induction false} FromPiecesSkip(s: string, seg: nat, pos: nat, e: nat)
    requires seg <= pos <= e <= |s| && ',' !in s[seg..e] && 'j' !in s[pos..e] && 'J' !in s[pos..e]
    ensures ',' !in s[seg..pos]
    ensures FromPieces(s, seg, pos) == FromPieces(s, seg, e)
    decreases e - pos
  {
    assert s[seg..pos] == s[seg..e][..pos - seg];
    if pos < e {
      assert s[pos] == s[seg..e][pos - seg] && s[pos] == s[pos..e][0];
      assert s[seg..pos + 1] == s[seg..e][..pos + 1 - seg];
      FromPiecesStep(s, seg, pos);
      assert s[pos + 1..e] == s[pos..e][1..];
      FromPiecesSkip(s, seg, pos + 1, e);
    }
  }

  /** One character that is neither a comma nor a `j` does not end a FROM piece. */
  lemma FromPiecesStep(s: string, seg: nat, pos: nat)
    requires seg <= pos < |s| && ',' !in s[seg..pos + 1] && s[pos] != 'j' && s[pos] != 'J'
    ensures ',' !in s[seg..pos]
    ensures FromPieces(s, seg, pos) == FromPieces(s, seg, pos + 1)
  {
    assert s[seg..pos] == s[seg..pos + 1][..pos - seg];
    assert s[pos] == s[seg..pos + 1][pos - seg];
    NoJoinAt(s, pos);
  }

  /** No `join` starts at a character other than `j` or `J`. */
  lemma NoJoinAt(s: string, pos: nat)
    requires pos < |s| && s[pos] != 'j' && s[pos] != 'J'
    ensures !KeywordAt(s, pos, "join")
  {
    if pos + 4 <= |s| {
      assert Lower(s[pos..pos + 4])[0] == LowerChar(s[pos]) != "join"[0];
    }
  }

  /** A FROM part with neither comma nor JOIN is one piece. */
  lemma OnePiece(s: string)
    requires ',' !in s && 'j' !in s && 'J' !in s
    ensures FromPieces(s, 0, 0) == [s]
  {
    assert s[0..|s|] == s;
    FromPiecesSkip(s, 0, 0, |s|);
  }

  /** A space and one word make a FROM item without alias. */
  lemma OneWordItem(t: string)
    requires t != [] && NoSpace(t)
    ensures FromItemOf(" " + t) == Some(FromItem(t, None))
  {
    assert t[0] in t && t[|t| - 1] in t;
    StripClean(t);
    StripLeadingSpace(t);
    WordsOfOne(t);
  }

  /** An alias word without quotes at its ends that is no join-type word is recorded as it is. */
  lemma PlainAlias(a: string)
    requires a != [] && a[0] !in Quotes && a[|a| - 1] !in Quotes && Lower(a) !in JoinTypeWords
    ensures CleanAlias(a) == Some(a)
  {
    assert StripChars(a, Quotes) == a;
  }

  /** A FROM list of one table, with nothing after it, gives that one item. */
  lemma FromOneTable(n: string, f: nat, t: string)
    requires f + 4 <= |n| && n[f + 4..] == " " + t
    requires t != [] && NoSpace(t) && 'o' !in t && 'O' !in t && ',' !in t && 'j' !in t && 'J' !in t
    ensures FromSegmentItems(n, f) == [FromItem(t, None)]
  {
    var part := " " + t;
    NoOnCut(part);
    OnePiece(part);
    OneWordItem(t);
    assert FromItems([part]) == [FromItem(t, None)] + FromItems([]);
  }

  /** A table and a bare alias between spaces make a FROM item with that alias. */
  lemma TwoWordItem(t: string, a: string)
    requires t != [] && NoSpace(t) && a != [] && NoSpace(a)
    requires CleanAlias(a) == Some(a)
    ensures FromItemOf(" " + (t + " " + a) + " ") == Some(FromItem(t, Some(a)))
  {
    var piece := " " + (t + " " + a) + " ";
    StripPaddedWords(t, a);
    TwoWords(t, a);
    assert Words(Strip(piece)) == [t, a];
    assert AliasWord([t, a]) == Some(a);
  }

  /** Two FROM pieces around the word `JOIN` are split there. */
  lemma JoinedPieces(p1: string, p2: string)
    requires p1 != [] && p1[|p1| - 1] == ' ' && p2 != [] && p2[0] == ' '
    requires ',' !in p1 && 'j' !in p1 && 'J' !in p1 && ',' !in p2 && 'j' !in p2 && 'J' !in p2
    ensures FromPieces(p1 + "JOIN" + p2, 0, 0) == [p1, p2]
  {
    var s := p1 + "JOIN" + p2;
    var k := |p1|;
    assert s[0..k] == p1;
    FromPiecesSkip(s, 0, 0, k);
    assert s[k..k + 4] == "JOIN";
    assert Lower("JOIN") == "join";
    assert KeywordAt(s, k, "join");
    assert s[k + 4..] == p2;
    assert s[k + 4..|s|] == p2;
    FromPiecesSkip(s, k + 4, k + 4, |s|);
  }

  /** No `o` directly followed by an `n`, in either case. */
  predicate NoOnPair(c: string) {
    forall j :: 0 <= j < |c| - 1 ==> !(LowerChar(c[j]) == 'o' && LowerChar(c[j + 1]) == 'n')
  }

  /** Text without `n` around the word `JOIN` holds no `on`. */
  lemma JoinedNoOnPair(p1: string, p2: string)
    requires 'n' !in p1 && 'N' !in p1 && 'n' !in p2 && 'N' !in p2
    ensures NoOnPair(p1 + "JOIN" + p2)
  {
    var c := p1 + "JOIN" + p2;
    forall j | 0 <= j < |c| - 1 ensures !(LowerChar(c[j]) == 'o' && LowerChar(c[j + 1]) == 'n') {
      if j + 1 < |p1| {
        assert c[j + 1] == p1[j + 1];
      } else if j + 1 >= |p1| + 4 {
        assert c[j + 1] == p2[j + 1 - |p1| - 4];
      } else {
        assert c[|p1|..|p1| + 4] == "JOIN";
      }
    }
  }

  /** The FROM part is cut where its first word `on` begins. */
  lemma CutBeforeOn(c: string, x: string)
    requires c != [] && c[|c| - 1] == ' ' && NoOnPair(c) && |x| >= 3 && x[0..3] == "ON "
    ensures CutAtOn(c + x) == c
  {
    var s := c + x;
    forall j | 0 <= j < |c| ensures !OnCutAt(s, j) {
      if j == |c| - 1 {
        assert s[j] == ' ';
      } else {
        assert s[j] == c[j] && s[j + 1] == c[j + 1];
      }
    }
    assert s[|c|..|c| + 2] == "ON";
    assert Lower("ON") == "on";
    assert s[|c| + 2] == ' ';
    assert OnCutAt(s, |c|);
    CutAtOnAt(s, |c|);
    assert s[..|c|] == c;
  }

  /** `t1 a1 JOIN t2 a2 x`, re-bracketed into the two FROM pieces and the rest. */
  lemma JoinedFromList(t1: string, a1: string, t2: string, a2: string, x: string)
    ensures " " + (t1 + " " + (a1 + " " + ("JOIN" + " " + (t2 + " " + (a2 + " " + x)))))
         == (" " + (t1 + " " + a1) + " ") + "JOIN" + (" " + (t2 + " " + a2) + " ") + x
  {
  }

  /** A word free of `,`, `j` and `n` in either case. */
  predicate PlainWord(w: string) {
    w != [] && forall c :: c in w ==> !IsSpace(c) && c != ',' && c != 'j' && c != 'J' && c != 'n' && c != 'N'
  }

  /** `t1 a1 JOIN t2 a2 ON ...` as the FROM part gives the two tables with their aliases. */
  lemma FromJoinedPair(n: string, f: nat, t1: string, a1: string, t2: string, a2: string, x: string)
    requires f + 4 <= |n| && n[f + 4..] == " " + (t1 + " " + (a1 + " " + ("JOIN" + " " + (t2 + " " + (a2 + " " + x)))))
    requires PlainWord(t1) && PlainWord(a1) && PlainWord(t2) && PlainWord(a2)
    requires CleanAlias(a1) == Some(a1) && CleanAlias(a2) == Some(a2)
    requires |x| >= 3 && x[0..3] == "ON "
    ensures FromSegmentItems(n, f) == [FromItem(t1, Some(a1)), FromItem(t2, Some(a2))]
  {
    var p1 := " " + (t1 + " " + a1) + " ";
    var p2 := " " + (t2 + " " + a2) + " ";
    JoinedFromList(t1, a1, t2, a2, x);
    PaddedPair(t1, a1);
    PaddedPair(t2, a2);
    JoinedNoOnPair(p1, p2);
    CutBeforeOn(p1 + "JOIN" + p2, x);
    JoinedPieces(p1, p2);
    TwoWordItem(t1, a1);
    TwoWordItem(t2, a2);
    TwoItems(p1, p2, FromItem(t1, Some(a1)), FromItem(t2, Some(a2)));
  }

  /** A table and an alias between spaces keep the letters of their words. */
  lemma PaddedPair(t: string, a: string)
    requires PlainWord(t) && PlainWord(a)
    ensures var p := " " + (t + " " + a) + " ";
      p[0] == ' ' && p[|p| - 1] == ' ' && ',' !in p && 'j' !in p && 'J' !in p && 'n' !in p && 'N' !in p
  {
  }

  lemma TwoItems(p1: string, p2: string, i1: FromItem, i2: FromItem)
    requires FromItemOf(p1) == Some(i1) && FromItemOf(p2) == Some(i2)
    ensures FromItems([p1, p2]) == [i1, i2]
  {
    assert [p1, p2][1..] == [p2];
    assert [p2][1..] == [];
  }

  // ================================================================ the column list, piece by piece

  lemma PlainTwo(a: string, b: string)
    requires Plain(a) && Plain(b)
    ensures Plain(a + ", " + b)
  {
    var s := a + ", " + b;
    forall k | 0 <= k < |s| ensures s[k] !in {'\'', '"', '(', ')'} {
      if k < |a| {
        assert s[k] == a[k];
      } else if k >= |a| + 2 {
        assert s[k] == b[k - |a| - 2];
      }
    }
  }

  /** Two plain columns separated by a comma and a space. */
  lemma TwoColumns(a: string, b: string)
    requires a != [] && b != [] && NoSpace(a) && NoSpace(b) && ',' !in a && ',' !in b && Plain(a) && Plain(b)
    ensures ColumnParts(a + ", " + b) == [a, b]
  {
    PlainTwo(a, b);
    PlainColumns(a + ", " + b);
    SplitTwo(a, b);
    assert DropEmptyLast([a, " " + b]) == [a, " " + b];
    StripTwo(a, b);
  }

  // ================================================================ SELECT id, name FROM public.users

  /** `SELECT id, name FROM public.users` (core/fdw_autotest.py:71), word by word. */
  const SimpleQuery := "SELECT" + " " + ("id," + " " + ("name" + " " + ("FROM" + " " + "public.users")))

  lemma SimpleQueryText()
    ensures SimpleQuery == "SELECT id, name FROM public.users"
  {
  }

  lemma SimpleQueryNormal()
    ensures Normalize(SimpleQuery) == SimpleQuery
  {
    NormalFive("SELECT", "id,", "name", "FROM", "public.users");
  }

  lemma SimpleQueryPieces()
    ensures |SimpleQuery| == 33
    ensures SimpleQuery[0..6] == "SELECT" && SimpleQuery[16..20] == "FROM"
    ensures SimpleQuery[6..16] == " " + ("id" + ", " + "name") + " "
    ensures SimpleQuery[20..] == " " + "public.users"
  {
  }

  lemma SimpleQueryLetters()
    ensures 'f' !in SimpleQuery[0..16] && 'F' !in SimpleQuery[0..16]
    ensures 'j' !in SimpleQuery && 'J' !in SimpleQuery
  {
  }

  lemma SimpleQueryKeywords()
    ensures Keywords(SimpleQuery) == Some((0, 16))
  {
    SimpleQueryPieces();
    SimpleQueryLetters();
    KeywordFound(SimpleQuery, "select", 'S', 0, 0, "SELECT");
    KeywordFound(SimpleQuery, "from", 'F', 0, 16, "FROM");
  }

  lemma SimpleQueryColumns()
    ensures ColumnParts(ColumnsText(SimpleQuery, 0, 16)) == ["id", "name"]
  {
    SimpleQueryColumnsText();
    TwoColumns("id", "name");
  }

  lemma SimpleQueryColumnsText()
    ensures ColumnsText(SimpleQuery, 0, 16) == "id" + ", " + "name"
  {
    SimpleQueryPieces();
    StripPadded("id" + ", " + "name");
  }

  lemma UsersTableWord()
    ensures var t := "public.users"; t != [] && NoSpace(t) && 'o' !in t && 'O' !in t && ',' !in t && 'j' !in t && 'J' !in t
  {
  }

  lemma SimpleQueryFrom()
    ensures FromSegmentItems(SimpleQuery, 16) == [FromItem("public.users", None)]
  {
    SimpleQueryPieces();
    UsersTableWord();
    FromOneTable(SimpleQuery, 16, "public.users");
  }

  lemma SimpleQueryWhere()
    ensures WhereOf(SimpleQuery, 20) == ""
  {
    SimpleQueryPieces();
    KeywordMissing(SimpleQuery, "where", 'W', 20);
  }

  /** What `parse_sql` returns for an already normalised query, from the parts the scans find. */
  lemma ParsedParts(q: string, s: nat, f: nat, columns: seq<string>, items: seq<FromItem>, joins: seq<JoinClause>, where: string)
    requires Normalize(q) == q && Keywords(q) == Some((s, f))
    requires ColumnParts(ColumnsText(q, s, f)) == columns && FromSegmentItems(q, f) == items
    requires JoinMatches(q, 0) == joins && WhereOf(q, f + 4) == where
    ensures ParseResult(q) == Ok(Parsed(columns, JoinTables(joins) + ItemTables(items),
                                        RecordItemAliases(RecordJoinAliases([], joins), items), where, AnyStar(columns), joins))
  {
  }

  /** One FROM item without an alias names one table and records no alias. */
  lemma OneBareItem(t: string)
    ensures JoinTables([]) + ItemTables([FromItem(t, None)]) == {t}
    ensures RecordItemAliases(RecordJoinAliases([], []), [FromItem(t, None)]) == []
  {
    assert [FromItem(t, None)][..0] == [];
  }

  /** Two columns without a `*` do not select everything. */
  lemma NoStar(a: string, b: string)
    requires '*' !in a && '*' !in b
    ensures !AnyStar([a, b])
  {
    ContainsChar(a, '*');
    ContainsChar(b, '*');
  }

  lemma SimpleQueryNoStar()
    ensures !AnyStar(["id", "name"])
  {
    NoStar("id", "name");
  }

  lemma SimpleQueryShape()
    ensures ParseResult(SimpleQuery) == Ok(Parsed(["id", "name"], JoinTables([]) + ItemTables([FromItem("public.users", None)]),
                                                  RecordItemAliases(RecordJoinAliases([], []), [FromItem("public.users", None)]),
                                                  "", AnyStar(["id", "name"]), []))
  {
    SimpleQueryNormal();
    SimpleQueryKeywords();
    SimpleQueryColumns();
    SimpleQueryFrom();
    SimpleQueryWhere();
    SimpleQueryLetters();
    NoJoinMatches(SimpleQuery, 0);
    ParsedParts(SimpleQuery, 0, 16, ["id", "name"], [FromItem("public.users", None)], [], "");
  }

  /** The first test vector: the columns are `id` and `name`, the one table is `public.users`. */
  lemma SimpleQueryParsed()
    ensures SimpleQuery == "SELECT id, name FROM public.users"
    ensures ParseResult(SimpleQuery).Ok?
    ensures ParseResult(SimpleQuery).value.columns == ["id", "name"]
    ensures ParseResult(SimpleQuery).value.tables == {"public.users"}
    ensures ParseResult(SimpleQuery).value.aliases == []
    ensures ParseResult(SimpleQuery).value.joins == []
    ensures ParseResult(SimpleQuery).value.where == ""
    ensures !ParseResult(SimpleQuery).value.selectAll
  {
    SimpleQueryText();
    SimpleQueryShape();
    OneBareItem("public.users");
    SimpleQueryNoStar();
  }

  // ================================================================ the JOIN query

  /** The WHERE condition of the JOIN query (core/fdw_autotest.py:79). */
  const WhereText := "u.age" + " " + (">" + " " + "30")
  /** From `WHERE` to the end. */
  const JoinWhere := "WHERE" + " " + WhereText
  /** From `ON` to the end. */
  const JoinOn := "ON" + " " + ("u.id" + " " + ("=" + " " + ("o.user_id" + " " + JoinWhere)))
  /** From `JOIN` to the end. */
  const JoinTail := "JOIN" + " " + ("public.orders" + " " + ("o" + " " + JoinOn))
  /** The FROM list and what follows it. */
  const JoinFromList := "public.users" + " " + ("u" + " " + JoinTail)
  /** The query of core/fdw_autotest.py:76-81 with its whitespace runs collapsed, word by word. */
  const JoinQuery := "SELECT" + " " + ("u.id," + " " + ("o.product" + " " + ("FROM" + " " + JoinFromList)))

  /** The JOIN query read as text, from the end: `WHERE u.age > 30` ... */
  lemma JoinWhereText()
    ensures JoinWhere == "WHERE u.age > 30"
  {
  }

  /** ... after `ON u.id = o.user_id` ... */
  lemma JoinOnText()
    ensures JoinOn == "ON u.id = o.user_id " + JoinWhere
  {
    SpelledFour("ON", "u.id", "=", "o.user_id", JoinWhere);
    assert "ON" + " " + "u.id" + " " + "=" + " " + "o.user_id" + " " == "ON u.id = o.user_id ";
  }

  /** ... after `JOIN public.orders o` ... */
  lemma JoinTailText()
    ensures JoinTail == "JOIN public.orders o " + JoinOn
  {
    Spelled("JOIN", "public.orders", "o", JoinOn);
    assert "JOIN" + " " + "public.orders" + " " + "o" + " " == "JOIN public.orders o ";
  }

  /** ... after `public.users u` ... */
  lemma JoinFromListText()
    ensures JoinFromList == "public.users u " + JoinTail
  {
    SpelledTwo("public.users", "u", JoinTail);
    assert "public.users" + " " + "u" + " " == "public.users u ";
  }

  /** ... after `SELECT u.id, o.product FROM`. */
  lemma JoinQueryHead()
    ensures JoinQuery == "SELECT u.id, o.product FROM " + JoinFromList
  {
    SpelledFour("SELECT", "u.id,", "o.product", "FROM", JoinFromList);
    JoinHeadSpelling();
  }

  lemma JoinHeadSpelling()
    ensures "SELECT" + " " + "u.id," + " " + "o.product" + " " + "FROM" + " " == "SELECT u.id, o.product FROM "
  {
    assert "SELECT" + " " + "u.id," + " " == "SELECT u.id, ";
    assert "o.product" + " " + "FROM" + " " == "o.product FROM ";
  }

  /** The words of the JOIN query contain no whitespace. */
  lemma JoinSelectWords()
    ensures NoSpace("SELECT") && NoSpace("u.id,") && NoSpace("o.product") && NoSpace("FROM")
  {
  }

  lemma JoinTableWords()
    ensures NoSpace("public.users") && NoSpace("u") && NoSpace("JOIN") && NoSpace("public.orders") && NoSpace("o")
  {
  }

  lemma JoinConditionWords()
    ensures NoSpace("ON") && NoSpace("u.id") && NoSpace("=") && NoSpace("o.user_id")
  {
  }

  lemma JoinWhereWords()
    ensures NoSpace("WHERE") && NoSpace("u.age") && NoSpace(">") && NoSpace("30")
  {
  }

  lemma JoinWhereNormal()
    ensures Normalize(JoinWhere) == JoinWhere
  {
    JoinWhereWords();
    NormalWord("30");
    NormalConsThree("WHERE", "u.age", ">", "30");
  }

  lemma JoinOnNormal()
    ensures Normalize(JoinOn) == JoinOn
  {
    JoinConditionWords();
    JoinWhereNormal();
    NormalConsThree("u.id", "=", "o.user_id", JoinWhere);
    NormalCons("ON", "u.id" + " " + ("=" + " " + ("o.user_id" + " " + JoinWhere)));
  }

  lemma JoinTailNormal()
    ensures Normalize(JoinTail) == JoinTail
  {
    JoinTableWords();
    JoinOnNormal();
    NormalConsThree("JOIN", "public.orders", "o", JoinOn);
  }

  lemma JoinQueryNormal()
    ensures Normalize(JoinQuery) == JoinQuery
  {
    JoinSelectWords();
    JoinTableWords();
    JoinTailNormal();
    NormalCons("u", JoinTail);
    NormalCons("public.users", "u" + " " + JoinTail);
    NormalConsThree("u.id,", "o.product", "FROM", JoinFromList);
    NormalCons("SELECT", "u.id," + " " + ("o.product" + " " + ("FROM" + " " + JoinFromList)));
  }

  lemma JoinQueryPieces()
    ensures |JoinQuery| == 100
    ensures JoinQuery[0..6] == "SELECT" && JoinQuery[23..27] == "FROM"
    ensures JoinQuery[6..23] == " " + ("u.id" + ", " + "o.product") + " "
    ensures JoinQuery[27..] == " " + JoinFromList
  {
    AfterFour("SELECT", "u.id,", "o.product", "FROM", JoinFromList);
  }

  lemma JoinQueryLetters()
    ensures 'f' !in JoinQuery[0..23] && 'F' !in JoinQuery[0..23]
  {
  }

  lemma JoinQueryKeywords()
    ensures Keywords(JoinQuery) == Some((0, 23))
  {
    JoinQueryPieces();
    JoinQueryLetters();
    KeywordFound(JoinQuery, "select", 'S', 0, 0, "SELECT");
    KeywordFound(JoinQuery, "from", 'F', 0, 23, "FROM");
  }

  lemma JoinColumnWords()
    ensures NoSpace("u.id") && NoSpace("o.product") && ',' !in "u.id" && ',' !in "o.product"
    ensures Plain("u.id") && Plain("o.product")
  {
  }

  lemma JoinQueryColumns()
    ensures ColumnParts(ColumnsText(JoinQuery, 0, 23)) == ["u.id", "o.product"]
  {
    JoinQueryPieces();
    JoinColumnWords();
    StripPadded("u.id" + ", " + "o.product");
    TwoColumns("u.id", "o.product");
  }

  lemma JoinFromWords()
    ensures PlainWord("public.users") && PlainWord("u") && PlainWord("public.orders") && PlainWord("o")
  {
    UsersWord();
    OrdersWord();
  }

  lemma UsersWord()
    ensures PlainWord("public.users") && PlainWord("u")
  {
  }

  lemma OrdersWord()
    ensures PlainWord("public.orders") && PlainWord("o")
  {
  }

  lemma JoinAliasesPlain()
    ensures CleanAlias("u") == Some("u") && CleanAlias("o") == Some("o")
  {
    PlainAlias("u");
    PlainAlias("o");
  }

  lemma JoinOnStart()
    ensures |JoinOn| >= 3 && JoinOn[0..3] == "ON "
  {
  }

  lemma JoinQueryFrom()
    ensures FromSegmentItems(JoinQuery, 23) == [FromItem("public.users", Some("u")), FromItem("public.orders", Some("o"))]
  {
    JoinQueryPieces();
    JoinFromWords();
    JoinAliasesPlain();
    JoinOnStart();
    FromJoinedPair(JoinQuery, 23, "public.users", "u", "public.orders", "o", JoinOn);
  }

  lemma OrdersParts()
    ensures "public.orders" == "public" + "." + "orders"
    ensures IsWord("public") && IsWord("orders") && IsWord("o") && Lower("o") != "as" && Lower("o") != "on"
  {
  }

  lemma JoinWhereLetters()
    ensures 'j' !in JoinWhere && 'J' !in JoinWhere
  {
  }

  lemma JoinOnLetters()
    ensures 'j' !in JoinOn && 'J' !in JoinOn
  {
    JoinWhereLetters();
  }

  /** What follows `JOIN public.orders o`: no further `j`. */
  lemma OrdersTailLetters()
    ensures var z := "public.orders" + " " + ("o" + " " + JoinOn); 'j' !in z && 'J' !in z
  {
    JoinOnLetters();
  }

  lemma HeadLetters()
    ensures var h := "SELECT" + " " + "u.id," + " " + "o.product" + " " + "FROM" + " ";
      |h| == 28 && forall c :: c in h ==> c != 'j' && c != 'J'
  {
  }

  lemma UsersLetters()
    ensures var u := "public.users" + " " + "u" + " ";
      |u| == 15 && u[14] == ' ' && forall c :: c in u ==> c != 'j' && c != 'J'
  {
  }

  /** The JOIN scan reaches position 43 without a clause. */
  lemma JoinQueryBeforeJoin()
    ensures |JoinQuery| >= 43 && JoinQuery[42] == ' ' && JoinQuery[43..] == JoinTail
    ensures JoinMatches(JoinQuery, 0) == JoinMatches(JoinQuery, 43)
  {
    var n := JoinQuery;
    SpelledFour("SELECT", "u.id,", "o.product", "FROM", JoinFromList);
    HeadLetters();
    JoinSkipPrefix(n, 0, "SELECT" + " " + "u.id," + " " + "o.product" + " " + "FROM" + " ", JoinFromList);
    SpelledTwo("public.users", "u", JoinTail);
    UsersLetters();
    JoinSkipPrefix(n, 28, "public.users" + " " + "u" + " ", JoinTail);
  }

  /** From position 43 on, `JOIN public.orders o ON ...` is skipped and nothing else is found. */
  lemma JoinQueryFromJoin()
    ensures |JoinQuery| >= 44 && JoinMatches(JoinQuery, 43) == []
  {
    var n := JoinQuery;
    var z := "public.orders" + " " + ("o" + " " + JoinOn);
    JoinQueryBeforeJoin();
    JoinKeywordAt(n, 43, z);
    OrdersParts();
    BareAliasJoin(n, 43, "public.orders", "public", "orders", "o", JoinOn);
    assert JoinMatches(n, 43) == JoinMatches(n, 44);
    SkipJoinWord(n, 43, z);
    OrdersTailLetters();
    NoJoinMatches(n, 48);
  }

  lemma JoinQueryJoins()
    ensures JoinMatches(JoinQuery, 0) == []
  {
    JoinQueryBeforeJoin();
    JoinQueryFromJoin();
  }


  // ---------------------------------------------------------------- the WHERE text

  /** The text between `FROM` and `WHERE`. */
  lemma BeforeWhereLetters()
    ensures var w := " " + ("public.users" + " " + "u" + " ") + ("JOIN" + " " + "public.orders" + " " + "o" + " ")
                     + ("ON" + " " + "u.id" + " " + "=" + " " + "o.user_id" + " ");
      |w| == 57 && forall c :: c in w ==> c != 'w' && c != 'W'
  {
  }

  lemma WhereWord()
    ensures JoinWhere == "WHERE" + (" " + WhereText) && Lower("WHERE") == "where" && Capital('w', 'W')
  {
  }

  /** The first `where` after the FROM keyword is the one at 84, and `u.age > 30` follows it. */
  lemma JoinQueryWhereAt()
    ensures Find(Lower(JoinQuery), "where", 27) == Some(84)
    ensures |JoinQuery| >= 89 && JoinQuery[89..] == " " + WhereText
  {
    var u := "public.users" + " " + "u" + " ";
    var j := "JOIN" + " " + "public.orders" + " " + "o" + " ";
    var o := "ON" + " " + "u.id" + " " + "=" + " " + "o.user_id" + " ";
    JoinQueryPieces();
    SpelledTwo("public.users", "u", JoinTail);
    Spelled("JOIN", "public.orders", "o", JoinOn);
    SpelledFour("ON", "u.id", "=", "o.user_id", JoinWhere);
    AssocFour(" ", u, j, o, JoinWhere);
    BeforeWhereLetters();
    WhereWord();
    KeywordAfter(JoinQuery, "where", 'W', 27, " " + u + j + o, "WHERE", " " + WhereText);
  }

  lemma WhereTextFacts()
    ensures WhereText == "u.age > 30" && !IsSpace(WhereText[0]) && !IsSpace(WhereText[|WhereText| - 1])
    ensures forall i :: 0 <= i < |WhereText| ==> !('A' <= WhereText[i] <= 'Z')
    ensures forall c :: c in WhereText ==> c != 'r' && c != 'o' && c != 'l'
  {
  }

  lemma WhereStripped()
    ensures Strip(" " + WhereText) == WhereText
  {
    WhereTextFacts();
    StripClean(WhereText);
    StripLeadingSpace(WhereText);
  }

  lemma WhereFinds()
    ensures Lower(WhereText) == WhereText
    ensures Find(WhereText, "group by", 0) == None && Find(WhereText, "order by", 0) == None && Find(WhereText, "limit", 0) == None
  {
    WhereTextFacts();
    LowerFixed(WhereText);
    assert WhereText[0..] == WhereText;
    FindNone(WhereText, "group by", 0, 1);
    FindNone(WhereText, "order by", 0, 0);
    FindNone(WhereText, "limit", 0, 0);
  }

  /** No `group by`, `order by` or `limit` in `u.age > 30`. */
  lemma WhereTextKept()
    ensures CutAtTerminator(Strip(" " + WhereText)) == WhereText
  {
    WhereStripped();
    WhereFinds();
  }

  lemma JoinQueryWhere()
    ensures WhereOf(JoinQuery, 27) == "u.age > 30"
  {
    JoinQueryWhereAt();
    WhereTextKept();
    WhereTextFacts();
  }

  /** Two aliased FROM items name their two tables and record both aliases in order. */
  lemma TwoAliasedItems(t1: string, a1: string, t2: string, a2: string)
    requires a1 != a2
    ensures JoinTables([]) + ItemTables([FromItem(t1, Some(a1)), FromItem(t2, Some(a2))]) == {t1, t2}
    ensures RecordItemAliases(RecordJoinAliases([], []), [FromItem(t1, Some(a1)), FromItem(t2, Some(a2))])
            == [Entry(a1, t1), Entry(a2, t2)]
  {
    var i1, i2 := FromItem(t1, Some(a1)), FromItem(t2, Some(a2));
    assert [i1, i2][..1] == [i1] && [i1][..0] == [];
    assert ItemTables([i1]) == {t1};
    assert ItemTables([i1, i2]) == ItemTables([i1]) + {t2};
    assert RecordItemAliases([], [i1]) == Put([], a1, t1) == [Entry(a1, t1)];
    assert a2 !in Keys([Entry(a1, t1)]);
    assert RecordItemAliases([], [i1, i2]) == Put(RecordItemAliases([], [i1]), a2, t2);
  }

  lemma JoinQueryNoStar()
    ensures !AnyStar(["u.id", "o.product"])
  {
    NoStar("u.id", "o.product");
  }

  lemma JoinQueryShape()
    ensures ParseResult(JoinQuery) == Ok(Parsed(["u.id", "o.product"],
                                                JoinTables([]) + ItemTables([FromItem("public.users", Some("u")), FromItem("public.orders", Some("o"))]),
                                                RecordItemAliases(RecordJoinAliases([], []), [FromItem("public.users", Some("u")), FromItem("public.orders", Some("o"))]),
                                                "u.age > 30", AnyStar(["u.id", "o.product"]), []))
  {
    JoinQueryNormal();
    JoinQueryKeywords();
    JoinQueryColumns();
    JoinQueryFrom();
    JoinQueryJoins();
    JoinQueryWhere();
    ParsedParts(JoinQuery, 0, 23, ["u.id", "o.product"],
                [FromItem("public.users", Some("u")), FromItem("public.orders", Some("o"))], [], "u.age > 30");
  }

  /**
   * The second test vector, normalised: both tables, both aliases and the
   * WHERE condition are found, but the JOIN clause is not, since a bare alias
   * before `ON` is not matched (`Parser.BareAliasIsNotMatched`).
   */
  lemma JoinQueryParsed()
    ensures ParseResult(JoinQuery).Ok?
    ensures ParseResult(JoinQuery).value.columns == ["u.id", "o.product"]
    ensures ParseResult(JoinQuery).value.tables == {"public.users", "public.orders"}
    ensures ParseResult(JoinQuery).value.aliases == [Entry("u", "public.users"), Entry("o", "public.orders")]
    ensures ParseResult(JoinQuery).value.where == "u.age > 30"
    ensures ParseResult(JoinQuery).value.joins == []
    ensures !ParseResult(JoinQuery).value.selectAll
  {
    JoinQueryShape();
    TwoAliasedItems("public.users", "u", "public.orders", "o");
    JoinQueryNoStar();
  }
}
