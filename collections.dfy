/** Sequence filtering and de-duplication, as Python's list comprehensions and `unique()` do them. */
module Seqs {

  /** `[x for x in s if p(x)]` */
  function Filter<T>(s: seq<T>, p: T -> bool): (r: seq<T>)
    ensures |r| <= |s|
    ensures forall i :: 0 <= i < |r| ==> r[i] in s && p(r[i])
    ensures forall i :: 0 <= i < |s| && p(s[i]) ==> s[i] in r
    ensures IsSubsequence(r, s)
  {
    if s == [] then []
    else
      var rest := Filter(s[1..], p);
      assert s == [s[0]] + s[1..];
      SubsequenceCons(s[0], rest, s[1..], p(s[0]));
      if p(s[0]) then [s[0]] + rest else rest
  }

  /** A filter that every element passes keeps the sequence. */
  lemma {:induction false} FilterAll<T>(s: seq<T>, p: T -> bool)
    requires forall k :: 0 <= k < |s| ==> p(s[k])
    ensures Filter(s, p) == s
  {
    if s != [] {
      FilterAll(s[1..], p);
    }
  }

  /** Filtering a sequence extended by one element extends the filtered sequence by that element when it passes. */
  lemma {:induction false} FilterSnoc<T>(s: seq<T>, x: T, p: T -> bool)
    ensures Filter(s + [x], p) == Filter(s, p) + (if p(x) then [x] else [])
  {
    if s == [] {
      assert [] + [x] == [x];
      assert [x][1..] == [];
    } else {
      assert (s + [x])[1..] == s[1..] + [x];
      FilterSnoc(s[1..], x, p);
    }
  }

  /** `a` is `b` with some elements left out and the rest in their original order. */
  ghost predicate IsSubsequence<T>(a: seq<T>, b: seq<T>)
    decreases |b|
  {
    if a == [] then true
    else if b == [] then false
    else (a[0] == b[0] && IsSubsequence(a[1..], b[1..])) || IsSubsequence(a, b[1..])
  }

  /** Sequences that agree position by position are equal. */
  lemma SameElements<T>(a: seq<T>, b: seq<T>)
    requires |a| == |b| && forall k :: 0 <= k < |a| ==> a[k] == b[k]
    ensures a == b
  {
  }

  lemma SubsequenceCons<T>(x: T, a: seq<T>, b: seq<T>, keep: bool)
    requires IsSubsequence(a, b)
    ensures IsSubsequence(if keep then [x] + a else a, [x] + b)
  {
    assert ([x] + b)[1..] == b;
    if keep {
      assert ([x] + a)[1..] == a;
    }
  }

  /**
   * The elements of `s`, each once (pandas `unique()`); `UniqueSnoc`
   * states that they come in order of first occurrence.
   */
  function Unique<T(==)>(s: seq<T>): (r: seq<T>)
    ensures forall i :: 0 <= i < |r| ==> r[i] in s
    ensures forall i :: 0 <= i < |s| ==> s[i] in r
    ensures forall i, j :: 0 <= i < j < |r| ==> r[i] != r[j]
    ensures |r| <= |s|
  {
    UniqueAfter(s, [])
  }

  function UniqueAfter<T(==)>(s: seq<T>, seen: seq<T>): (r: seq<T>)
    requires forall i, j :: 0 <= i < j < |seen| ==> seen[i] != seen[j]
    ensures |r| <= |seen| + |s|
    ensures |seen| <= |r| && r[..|seen|] == seen
    ensures forall i :: 0 <= i < |r| ==> r[i] in s || r[i] in seen
    ensures forall i :: 0 <= i < |s| ==> s[i] in r
    ensures forall i, j :: 0 <= i < j < |r| ==> r[i] != r[j]
  {
    if s == [] then seen
    else
      var seen' := if s[0] in seen then seen else seen + [s[0]];
      var r := UniqueAfter(s[1..], seen');
      assert r[..|seen'|] == seen';
      assert |seen| <= |seen'| && r[..|seen|] == seen' [..|seen|] == seen;
      assert s[0] in r by {
        var k :| 0 <= k < |seen'| && seen'[k] == s[0];
        assert r[k] == s[0];
      }
      assert forall i :: 1 <= i < |s| ==> s[i] == s[1..][i - 1];
      r
  }

  /** An element of a non-empty sequence is in its front part or is its last element. */
  lemma InFrontOrLast<T>(s: seq<T>, x: T)
    requires s != []
    ensures x in s <==> x in s[..|s| - 1] || x == s[|s| - 1]
  {
    assert s == s[..|s| - 1] + [s[|s| - 1]];
  }

  /** De-duplicating a sequence extended by one element appends that element unless it was already there. */
  lemma UniqueSnoc<T>(s: seq<T>, x: T)
    ensures Unique(s + [x]) == if x in Unique(s) then Unique(s) else Unique(s) + [x]
  {
    UniqueAfterSnoc(s, [], x);
  }

  lemma {:induction false} UniqueAfterSnoc<T>(s: seq<T>, seen: seq<T>, x: T)
    requires forall i, j :: 0 <= i < j < |seen| ==> seen[i] != seen[j]
    ensures UniqueAfter(s + [x], seen) ==
      if x in UniqueAfter(s, seen) then UniqueAfter(s, seen) else UniqueAfter(s, seen) + [x]
  {
    if s == [] {
      assert [] + [x] == [x];
      assert [x][1..] == [];
    } else {
      assert (s + [x])[0] == s[0];
      assert (s + [x])[1..] == s[1..] + [x];
      var seen' := if s[0] in seen then seen else seen + [s[0]];
      UniqueAfterSnoc(s[1..], seen', x);
    }
  }
}

/**
 * Python dictionaries remember insertion order and the engine depends on it
 * (`next(...)` over `aliases.items()`, iteration over `table_info` and `dfs`).
 * A dictionary is therefore an association list with distinct keys.
 */
module Dict {
  import opened Wrappers

  datatype Entry<K, V> = Entry(key: K, value: V)

  function Keys<K, V>(d: seq<Entry<K, V>>): (r: seq<K>)
    ensures |r| == |d| && forall i :: 0 <= i < |d| ==> r[i] == d[i].key
  {
    if d == [] then [] else [d[0].key] + Keys(d[1..])
  }

  predicate UniqueKeys<K(==), V>(d: seq<Entry<K, V>>) {
    forall i, j :: 0 <= i < j < |d| ==> d[i].key != d[j].key
  }

  /** `d.get(k)` */
  function Get<K(==), V>(d: seq<Entry<K, V>>, k: K): (r: Option<V>)
    ensures r.Some? <==> k in Keys(d)
    ensures r.Some? ==> exists i :: 0 <= i < |d| && d[i] == Entry(k, r.value)
  {
    if d == [] then None
    else if d[0].key == k then Some(d[0].value)
    else Get(d[1..], k)
  }

  lemma GetAt<K, V>(d: seq<Entry<K, V>>, i: nat)
    requires UniqueKeys(d) && i < |d|
    ensures Get(d, d[i].key) == Some(d[i].value)
  {
    if i > 0 {
      GetAt(d[1..], i - 1);
    }
  }

  /** `d[k] = v`: an existing key keeps its position, a new key goes last. */
  function Put<K(==), V>(d: seq<Entry<K, V>>, k: K, v: V): (r: seq<Entry<K, V>>)
    ensures |r| == if k in Keys(d) then |d| else |d| + 1
    ensures forall i :: 0 <= i < |d| ==> r[i].key == d[i].key
    ensures k !in Keys(d) ==> r == d + [Entry(k, v)]
    ensures forall i :: 0 <= i < |d| && d[i].key != k ==> r[i] == d[i]
  {
    if d == [] then [Entry(k, v)]
    else if d[0].key == k then [Entry(k, v)] + d[1..]
    else [d[0]] + Put(d[1..], k, v)
  }

  /** The keys after storing: unchanged for a present key, the new key last otherwise. */
  lemma PutKeys<K, V>(d: seq<Entry<K, V>>, k: K, v: V)
    ensures Keys(Put(d, k, v)) == if k in Keys(d) then Keys(d) else Keys(d) + [k]
  {
    var r := Put(d, k, v);
    if k in Keys(d) {
      assert forall i :: 0 <= i < |r| ==> Keys(r)[i] == Keys(d)[i];
    } else {
      assert forall i :: 0 <= i < |r| ==> Keys(r)[i] == (Keys(d) + [k])[i];
    }
  }

  /** Storing keeps the keys distinct. */
  lemma PutUnique<K, V>(d: seq<Entry<K, V>>, k: K, v: V)
    requires UniqueKeys(d)
    ensures UniqueKeys(Put(d, k, v))
  {
    var r := Put(d, k, v);
    if k !in Keys(d) {
      assert forall i :: 0 <= i < |d| ==> d[i].key != k;
    }
  }

  /** Reading back what was stored. */
  lemma {:induction false} PutGetSame<K, V>(d: seq<Entry<K, V>>, k: K, v: V)
    ensures Get(Put(d, k, v), k) == Some(v)
  {
    if d != [] && d[0].key != k {
      PutGetSame(d[1..], k, v);
    }
  }

  /** Storing under one key leaves every other key as it was. */
  lemma {:induction false} PutGetOther<K, V>(d: seq<Entry<K, V>>, k: K, v: V, other: K)
    requires other != k
    ensures Get(Put(d, k, v), other) == Get(d, other)
  {
    if d != [] && d[0].key != k {
      PutGetOther(d[1..], k, v, other);
    }
  }

  /** `next((a for a, t in d.items() if t == v), None)` */
  function KeyOf<K, V(==)>(d: seq<Entry<K, V>>, v: V): (r: Option<K>)
    ensures r.Some? <==> exists i :: 0 <= i < |d| && d[i].value == v
    ensures r.Some? ==> exists i :: (0 <= i < |d| && d[i] == Entry(r.value, v)
      && forall j :: 0 <= j < i ==> d[j].value != v)
  {
    if d == [] then None
    else if d[0].value == v then Some(d[0].key)
    else
      var r := KeyOf(d[1..], v);
      assert r.Some? ==> exists i :: (0 <= i < |d| && d[i] == Entry(r.value, v)
        && forall j :: 0 <= j < i ==> d[j].value != v) by {
        if r.Some? {
          var i :| 0 <= i < |d| - 1 && d[1..][i] == Entry(r.value, v)
            && forall j :: 0 <= j < i ==> d[1..][j].value != v;
          assert d[i + 1] == Entry(r.value, v);
          assert forall j :: 0 <= j < i + 1 ==> d[j].value != v by {
            forall j | 0 <= j < i + 1 ensures d[j].value != v {
              if j > 0 { assert d[j] == d[1..][j - 1]; }
            }
          }
        }
      }
      r
  }
}
