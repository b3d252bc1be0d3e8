/**
 * The Python string operations the federation engine relies on, over
 * `string` = `seq<char>`: `lower`, `strip`, `find`, `split`, `join`,
 * `replace` and the whitespace collapse done by `re.sub(r'\s+', ' ', q).strip()`.
 * Character classes are the ASCII ones (see README, "Left out").
 */
module Text {
  import opened Wrappers

  /** Python's `\s` / `str.isspace` on ASCII: tab to carriage return, the four separators U+001C-U+001F, and space. */
  predicate IsSpace(c: char) {
    ('\t' <= c <= '\r') || ('\U{001C}' <= c <= '\U{001F}') || c == ' '
  }

  /** Python's regex `\w` on ASCII. */
  predicate IsWordChar(c: char) {
    ('a' <= c <= 'z') || ('A' <= c <= 'Z') || ('0' <= c <= '9') || c == '_'
  }

  predicate IsDigit(c: char) {
    '0' <= c <= '9'
  }

  function LowerChar(c: char): char {
    if 'A' <= c <= 'Z' then (c as int + 32) as char else c
  }

  function Lower(s: string): (r: string)
    ensures |r| == |s|
    ensures forall i :: 0 <= i < |s| ==> r[i] == LowerChar(s[i])
  {
    if s == [] then [] else [LowerChar(s[0])] + Lower(s[1..])
  }

  // ---------------------------------------------------------------- strip

  /** `s.lstrip()` */
  function TrimLeft(s: string): (r: string)
    ensures |r| <= |s| && r == s[|s| - |r|..]
    ensures r == [] || !IsSpace(r[0])
    ensures forall i :: 0 <= i < |s| - |r| ==> IsSpace(s[i])
  {
    if s != [] && IsSpace(s[0]) then TrimLeft(s[1..]) else s
  }

  /** `s.rstrip()` */
  function TrimRight(s: string): (r: string)
    ensures |r| <= |s| && r == s[..|r|]
    ensures r == [] || !IsSpace(r[|r| - 1])
    ensures forall i :: |r| <= i < |s| ==> IsSpace(s[i])
  {
    if s != [] && IsSpace(s[|s| - 1]) then TrimRight(s[..|s| - 1]) else s
  }

  /** First position at or after `i` that holds no whitespace (or `|s|`). */
  function SkipSpaces(s: string, i: nat): (a: nat)
    requires i <= |s|
    ensures i <= a <= |s|
    ensures forall j :: i <= j < a ==> IsSpace(s[j])
    ensures a == |s| || !IsSpace(s[a])
    decreases |s| - i
  {
    if i < |s| && IsSpace(s[i]) then SkipSpaces(s, i + 1) else i
  }

  /** End of `s[lo..e]` once trailing whitespace is dropped. */
  function BackSpaces(s: string, lo: nat, e: nat): (b: nat)
    requires lo <= e <= |s|
    ensures lo <= b <= e
    ensures forall j :: b <= j < e ==> IsSpace(s[j])
    ensures b == lo || !IsSpace(s[b - 1])
    decreases e
  {
    if lo < e && IsSpace(s[e - 1]) then BackSpaces(s, lo, e - 1) else e
  }

  /** `s.strip()`: the longest slice of `s` that neither starts nor ends with whitespace. */
  function Strip(s: string): (r: string)
    ensures r != [] ==> !IsSpace(r[0]) && !IsSpace(r[|r| - 1])
    ensures |r| <= |s|
  {
    var a := SkipSpaces(s, 0);
    s[a..BackSpaces(s, a, |s|)]
  }

  /** `[x.strip() for x in xs]` */
  function StripEach(xs: seq<string>): (r: seq<string>)
    ensures |r| == |xs|
    ensures forall k :: 0 <= k < |xs| ==> r[k] == Strip(xs[k])
  {
    if xs == [] then [] else StripEach(xs[..|xs| - 1]) + [Strip(xs[|xs| - 1])]
  }

  lemma StripEachSnoc(xs: seq<string>, x: string)
    ensures StripEach(xs + [x]) == StripEach(xs) + [Strip(x)]
  {
    assert (xs + [x])[..|xs|] == xs;
  }

  /** Stripping adds no character. */
  lemma StripWithout(s: string, ch: char)
    requires ch !in s
    ensures ch !in Strip(s)
  {
    var a := SkipSpaces(s, 0);
    var b := BackSpaces(s, a, |s|);
    forall j | 0 <= j < |Strip(s)| ensures Strip(s)[j] != ch {
      assert Strip(s)[j] == s[a + j];
    }
  }

  /** Stripping leaves nothing exactly when the text is all whitespace. */
  lemma StripEmpty(s: string)
    ensures Strip(s) == [] <==> forall i :: 0 <= i < |s| ==> IsSpace(s[i])
  {
    var a := SkipSpaces(s, 0);
    var b := BackSpaces(s, a, |s|);
    if Strip(s) == [] {
      assert a == b;
    }
  }

  /** Stripping only removes characters. */
  lemma StripSubset(s: string)
    ensures forall c :: c in Strip(s) ==> c in s
  {
  }

  /** Text that neither starts nor ends with whitespace is its own strip. */
  lemma StripClean(s: string)
    requires s == [] || (!IsSpace(s[0]) && !IsSpace(s[|s| - 1]))
    ensures Strip(s) == s
  {
    if s != [] {
      assert SkipSpaces(s, 0) == 0;
      assert BackSpaces(s, 0, |s|) == |s|;
    }
  }

  /** `s.strip().strip() == s.strip()` */
  lemma StripIdempotent(s: string)
    ensures Strip(Strip(s)) == Strip(s)
  {
    StripClean(Strip(s));
  }

  /** Lower-casing keeps whitespace where it is, so a stripped text stays stripped. */
  lemma StripLower(s: string)
    requires Strip(s) == s
    ensures Strip(Lower(s)) == Lower(s)
  {
    StripClean(Lower(s));
  }

  /** `s.lower().lower() == s.lower()` */
  lemma LowerIdempotent(s: string)
    ensures Lower(Lower(s)) == Lower(s)
  {
    assert forall i :: 0 <= i < |s| ==> Lower(Lower(s))[i] == Lower(s)[i];
  }

  /** `s.strip(chars)` for an explicit set of characters. */
  function StripChars(s: string, cs: set<char>): (r: string)
    ensures |r| <= |s|
    ensures r != [] ==> r[0] !in cs && r[|r| - 1] !in cs
    decreases |s|
  {
    if s == [] then []
    else if s[0] in cs then StripChars(s[1..], cs)
    else if s[|s| - 1] in cs then StripChars(s[..|s| - 1], cs)
    else s
  }

  // ---------------------------------------------------------------- find

  predicate OccursAt(s: string, pat: string, i: nat) {
    i + |pat| <= |s| && s[i..i + |pat|] == pat
  }

  /** `s.find(pat, start)`, with `None` for Python's -1. */
  function Find(s: string, pat: string, start: nat): (r: Option<nat>)
    ensures r.Some? ==> start <= r.value && OccursAt(s, pat, r.value)
    ensures r.Some? ==> forall j :: start <= j < r.value ==> !OccursAt(s, pat, j)
    ensures r.None? ==> forall j :: start <= j ==> !OccursAt(s, pat, j)
    decreases |s| - start
  {
    if start + |pat| > |s| then None
    else if OccursAt(s, pat, start) then Some(start)
    else Find(s, pat, start + 1)
  }

  /** `pat in s` */
  predicate Contains(s: string, pat: string) {
    Find(s, pat, 0).Some?
  }

  lemma ContainsAt(s: string, pat: string, i: nat)
    requires OccursAt(s, pat, i)
    ensures Contains(s, pat)
  {
  }

  /** A single character occurs in `s` exactly when `[c]` is a substring of it. */
  lemma ContainsChar(s: string, c: char)
    ensures Contains(s, [c]) <==> c in s
  {
    if c in s {
      var i :| 0 <= i < |s| && s[i] == c;
      assert OccursAt(s, [c], i);
    }
    if Contains(s, [c]) {
      var i := Find(s, [c], 0).value;
      assert s[i..i + 1] == [c];
      assert s[i] == c;
    }
  }

  /** Case-insensitive match of the lower-case pattern `pat` at position `i`. */
  predicate HasAtCI(s: string, i: nat, pat: string) {
    i + |pat| <= |s| && Lower(s[i..i + |pat|]) == pat
  }

  /** The lower-case keyword `kw` occurs at `i` between regex word boundaries (`\bkw\b`). */
  predicate KeywordAt(s: string, i: nat, kw: string) {
    HasAtCI(s, i, kw)
    && (i == 0 || !IsWordChar(s[i - 1]))
    && (i + |kw| == |s| || !IsWordChar(s[i + |kw|]))
  }

  /** End of the run of word characters starting at `i`. */
  function WordEnd(s: string, i: nat): (e: nat)
    requires i <= |s|
    ensures i <= e <= |s|
    ensures forall j :: i <= j < e ==> IsWordChar(s[j])
    ensures e == |s| || !IsWordChar(s[e])
    decreases |s| - i
  {
    if i < |s| && IsWordChar(s[i]) then WordEnd(s, i + 1) else i
  }

  /** A non-empty run of word characters: what `\w+` matches. */
  predicate IsWord(w: string) {
    w != [] && forall k :: 0 <= k < |w| ==> IsWordChar(w[k])
  }

  /** The word run starting at `i` ends at `e` when `s[i..e]` is all word characters and `s[e]` is not one. */
  lemma {:induction false} WordEndAt(s: string, i: nat, e: nat)
    requires i <= e <= |s|
    requires forall j :: i <= j < e ==> IsWordChar(s[j])
    requires e == |s| || !IsWordChar(s[e])
    ensures WordEnd(s, i) == e
    decreases e - i
  {
    if i < e {
      WordEndAt(s, i + 1, e);
    }
  }

  /** A word placed at `i` of a text, followed by a non-word character or the end, is the word run there. */
  lemma WordEndOf(s: string, i: nat, w: string)
    requires IsWord(w) && i + |w| <= |s| && s[i..i + |w|] == w
    requires i + |w| == |s| || !IsWordChar(s[i + |w|])
    ensures WordEnd(s, i) == i + |w|
  {
    forall j | i <= j < i + |w| ensures IsWordChar(s[j]) {
      assert s[j] == s[i..i + |w|][j - i];
    }
    WordEndAt(s, i, i + |w|);
  }

  // ---------------------------------------------------------------- split / join

  /** `sep.join(parts)` */
  function JoinWith(parts: seq<string>, sep: string): string {
    if |parts| == 0 then []
    else if |parts| == 1 then parts[0]
    else parts[0] + sep + JoinWith(parts[1..], sep)
  }

  /** `s.split(sep)` for a non-empty separator. */
  function SplitOn(s: string, sep: string): (r: seq<string>)
    requires sep != []
    ensures |r| >= 1
    decreases |s|
  {
    match Find(s, sep, 0)
    case None => [s]
    case Some(i) => [s[..i]] + SplitOn(s[i + |sep|..], sep)
  }

  /** Joining the pieces of a split with the same separator gives back the text. */
  lemma {:induction false} JoinSplit(s: string, sep: string)
    requires sep != []
    ensures JoinWith(SplitOn(s, sep), sep) == s
    decreases |s|
  {
    match Find(s, sep, 0)
    case None =>
    case Some(i) =>
      var rest := s[i + |sep|..];
      JoinSplit(rest, sep);
      JoinSplitStep(s, sep, i);
  }

  lemma JoinSplitStep(s: string, sep: string, i: nat)
    requires sep != [] && Find(s, sep, 0) == Some(i)
    requires JoinWith(SplitOn(s[i + |sep|..], sep), sep) == s[i + |sep|..]
    ensures JoinWith(SplitOn(s, sep), sep) == s
  {
    var tail := SplitOn(s[i + |sep|..], sep);
    assert SplitOn(s, sep) == [s[..i]] + tail;
    JoinCons(s[..i], tail, sep);
    CutAround(s, sep, i);
  }

  /** Text with `sep` at `i` is the part before it, `sep`, and the part after it. */
  lemma CutAround(s: string, sep: string, i: nat)
    requires OccursAt(s, sep, i)
    ensures s == s[..i] + sep + s[i + |sep|..]
  {
    assert s == s[..i] + s[i..i + |sep|] + s[i + |sep|..];
  }

  /** Text without the separator splits into itself. */
  lemma NoSeparatorSplit(s: string, c: char)
    requires c !in s
    ensures SplitOn(s, [c]) == [s]
  {
    forall j: nat ensures !OccursAt(s, [c], j) {
      if j + 1 <= |s| {
        assert s[j..j + 1] == [s[j]] && s[j] in s;
      }
    }
  }

  /** Text cut at its first separator splits into the part before it and the split of the rest. */
  lemma FirstSeparatorSplit(a: string, c: char, b: string)
    requires c !in a
    ensures SplitOn(a + [c] + b, [c]) == [a] + SplitOn(b, [c])
  {
    var s := a + [c] + b;
    assert s[|a|..|a| + 1] == [c];
    assert OccursAt(s, [c], |a|);
    forall j: nat | j < |a| ensures !OccursAt(s, [c], j) {
      assert s[j..j + 1] == [a[j]] && a[j] in a;
    }
    assert Find(s, [c], 0) == Some(|a|);
    assert s[..|a|] == a && s[|a| + 1..] == b;
  }

  /** The first and last characters of a join are those of the first and last parts. */
  lemma {:induction false} JoinEnds(parts: seq<string>, sep: string)
    requires parts != [] && forall k :: 0 <= k < |parts| ==> parts[k] != []
    ensures JoinWith(parts, sep) != []
    ensures JoinWith(parts, sep)[0] == parts[0][0]
    ensures JoinWith(parts, sep)[|JoinWith(parts, sep)| - 1] == parts[|parts| - 1][|parts[|parts| - 1]| - 1]
  {
    if |parts| > 1 {
      JoinEnds(parts[1..], sep);
      assert parts[1..][|parts| - 2] == parts[|parts| - 1];
    }
  }

  /** A stripped word behind one space strips back to itself. */
  lemma StripLeadingSpace(t: string)
    requires t != [] && Strip(t) == t
    ensures Strip(" " + t) == t
  {
    var s := " " + t;
    assert SkipSpaces(s, 1) == 1;
    assert SkipSpaces(s, 0) == 1;
    assert BackSpaces(s, 1, |s|) == |s|;
    assert s[1..] == t;
  }

  lemma JoinThree(a: string, b: string, c: string, sep: string)
    ensures JoinWith([a, b, c], sep) == a + sep + b + sep + c
  {
    assert [a, b, c][1..] == [b, c] && [b, c][1..] == [c];
    assert JoinWith([c], sep) == c;
    assert JoinWith([b, c], sep) == b + sep + c;
    assert JoinWith([a, b, c], sep) == a + sep + (b + sep + c);
    assert a + sep + (b + sep + c) == a + sep + b + sep + c;
  }

  lemma JoinCons(head: string, tail: seq<string>, sep: string)
    requires tail != []
    ensures JoinWith([head] + tail, sep) == head + sep + JoinWith(tail, sep)
  {
    assert ([head] + tail)[1..] == tail;
  }

  /** No piece of a split contains the separator. */
  lemma {:induction false} SplitPiecesAvoidSeparator(s: string, sep: string)
    requires sep != []
    ensures forall k :: 0 <= k < |SplitOn(s, sep)| ==> !Contains(SplitOn(s, sep)[k], sep)
    decreases |s|
  {
    match Find(s, sep, 0)
    case None =>
      assert SplitOn(s, sep) == [s];
    case Some(i) =>
      var rest := s[i + |sep|..];
      SplitPiecesAvoidSeparator(rest, sep);
      FirstPieceAvoids(s, sep, i);
      var pieces := SplitOn(s, sep);
      assert pieces == [s[..i]] + SplitOn(rest, sep);
      forall k | 0 <= k < |pieces| ensures !Contains(pieces[k], sep) {
        if k > 0 {
          assert pieces[k] == SplitOn(rest, sep)[k - 1];
        }
      }
  }

  /** The text before the first occurrence of `sep` does not contain `sep`. */
  lemma FirstPieceAvoids(s: string, sep: string, i: nat)
    requires sep != [] && Find(s, sep, 0) == Some(i)
    ensures !Contains(s[..i], sep)
  {
    var head := s[..i];
    if Contains(head, sep) {
      var j := Find(head, sep, 0).value;
      assert OccursAt(head, sep, j);
      assert j + |sep| <= i;
      assert s[j..j + |sep|] == head[j..j + |sep|];
      assert OccursAt(s, sep, j);
      assert false;
    }
  }

  /** `s.replace(pat, with)`: Python replaces non-overlapping occurrences left to right. */
  function Replace(s: string, pat: string, with: string): string
    requires pat != []
  {
    JoinWith(SplitOn(s, pat), with)
  }

  lemma ReplaceAbsent(s: string, pat: string, with: string)
    requires pat != [] && !Contains(s, pat)
    ensures Replace(s, pat, with) == s
  {
  }

  // ---------------------------------------------------------------- whitespace

  /** Length of the leading run of non-whitespace characters. */
  function NonSpaceRun(s: string): (n: nat)
    ensures n <= |s|
    ensures forall i :: 0 <= i < n ==> !IsSpace(s[i])
    ensures n == |s| || IsSpace(s[n])
  {
    if s == [] || IsSpace(s[0]) then 0 else 1 + NonSpaceRun(s[1..])
  }

  predicate NoSpace(w: string) {
    forall c :: c in w ==> !IsSpace(c)
  }

  /** `s.split()`: the maximal runs of non-whitespace characters. */
  function Words(s: string): (r: seq<string>)
    ensures forall k :: 0 <= k < |r| ==> r[k] != [] && NoSpace(r[k])
    decreases |s|
  {
    var t := TrimLeft(s);
    if t == [] then []
    else
      var n := NonSpaceRun(t);
      RunIsWord(t);
      var rest := Words(t[n..]);
      AllWordsCons(t[..n], rest);
      [t[..n]] + rest
  }

  lemma AllWordsCons(w: string, ws: seq<string>)
    requires w != [] && NoSpace(w)
    requires forall k :: 0 <= k < |ws| ==> ws[k] != [] && NoSpace(ws[k])
    ensures forall k :: 0 <= k < |[w] + ws| ==> ([w] + ws)[k] != [] && NoSpace(([w] + ws)[k])
  {
    forall k | 0 <= k < |[w] + ws| ensures ([w] + ws)[k] != [] && NoSpace(([w] + ws)[k]) {
      if k > 0 {
        assert ([w] + ws)[k] == ws[k - 1];
      }
    }
  }

  /** Text that starts with a non-space character starts with a word. */
  lemma RunIsWord(t: string)
    requires t != [] && !IsSpace(t[0])
    ensures 0 < NonSpaceRun(t) && NoSpace(t[..NonSpaceRun(t)])
  {
    var n := NonSpaceRun(t);
    forall c | c in t[..n] ensures !IsSpace(c) {
      var i :| 0 <= i < n && t[..n][i] == c;
    }
  }

  /** `re.sub(r'\s+', ' ', q).strip()`: the words of `q` separated by single spaces. */
  function Normalize(q: string): string {
    JoinWith(Words(q), " ")
  }

  /** Splitting words re-joined by single spaces gives the same words back. */
  lemma {:induction false} WordsOfJoin(ws: seq<string>)
    requires forall k :: 0 <= k < |ws| ==> ws[k] != [] && NoSpace(ws[k])
    ensures Words(JoinWith(ws, " ")) == ws
  {
    if |ws| == 0 {
    } else if |ws| == 1 {
      WordsOfOne(ws[0]);
    } else {
      WordsOfJoin(ws[1..]);
      WordsOfCons(ws[0], JoinWith(ws[1..], " "));
    }
  }

  lemma WordsOfOne(w: string)
    requires w != [] && NoSpace(w)
    ensures Words(w) == [w]
  {
    assert w[0] in w;
    assert TrimLeft(w) == w;
    NonSpaceRunAll(w);
    assert w[..|w|] == w;
    assert w[|w|..] == [];
    assert Words([]) == [];
  }

  lemma WordsOfCons(w: string, rest: string)
    requires w != [] && NoSpace(w)
    ensures Words(w + " " + rest) == [w] + Words(rest)
  {
    var tail := " " + rest;
    var s := w + tail;
    assert s == w + " " + rest;
    assert w[0] in w;
    assert s[0] == w[0];
    assert TrimLeft(s) == s;
    NonSpaceRunPrefix(w, tail);
    assert s[..|w|] == w;
    assert s[|w|..] == tail;
    assert Words(s) == [w] + Words(tail);
    assert tail[1..] == rest;
    assert TrimLeft(tail) == TrimLeft(rest);
  }

  lemma {:induction false} NonSpaceRunAll(w: string)
    requires NoSpace(w)
    ensures NonSpaceRun(w) == |w|
  {
    if w != [] {
      assert w[0] in w;
      assert NoSpace(w[1..]) by {
        forall c | c in w[1..] ensures !IsSpace(c) { assert c in w; }
      }
      NonSpaceRunAll(w[1..]);
    }
  }

  lemma {:induction false} NonSpaceRunPrefix(w: string, tail: string)
    requires NoSpace(w) && tail != [] && IsSpace(tail[0])
    ensures NonSpaceRun(w + tail) == |w|
  {
    if w == [] {
      assert w + tail == tail;
    } else {
      assert w[0] in w;
      assert (w + tail)[1..] == w[1..] + tail;
      assert NoSpace(w[1..]) by {
        forall c | c in w[1..] ensures !IsSpace(c) { assert c in w; }
      }
      NonSpaceRunPrefix(w[1..], tail);
    }
  }

  /** Collapsing whitespace is idempotent. */
  lemma NormalizeIdempotent(q: string)
    ensures Normalize(Normalize(q)) == Normalize(q)
  {
    WordsOfJoin(Words(q));
  }
}
