/**
  Frequency tables as pandas builds them: `value_counts()` (one entry per
  distinct value, largest count first), `nlargest(k)`, `sort_index()`, and
  Python's `sorted(set(...))` over strings. Tie order inside `value_counts`
  and `nlargest` is not promised by pandas, so nothing below depends on it.
 */
module Counting {

  import opened Text

  /** One row of a `value_counts()` result: a distinct value and how often it occurs. */
  datatype Entry<K> = Entry(key: K, count: nat)

  function KeysOf<K>(es: seq<Entry<K>>): set<K>
  {
    set e | e in es :: e.key
  }

  ghost predicate DistinctKeys<K>(es: seq<Entry<K>>)
  {
    forall i, j :: 0 <= i < j < |es| ==> es[i].key != es[j].key
  }

  function SumCounts<K>(es: seq<Entry<K>>): nat
    decreases |es|
  {
    if es == [] then 0 else es[0].count + SumCounts(es[1..])
  }

  /** The count stored for `k`, or 0 when `k` has no entry (`counts.get(k, 0)`). */
  function Lookup<K(==)>(es: seq<Entry<K>>, k: K): nat
    decreases |es|
  {
    if es == [] then 0 else if es[0].key == k then es[0].count else Lookup(es[1..], k)
  }

  lemma {:induction false} LookupEntry<K>(es: seq<Entry<K>>, e: Entry<K>)
    requires DistinctKeys(es) && e in es
    ensures Lookup(es, e.key) == e.count
    decreases |es|
  {
    if es[0] != e {
      assert e in es[1..];
      var j :| 0 <= j < |es[1..]| && es[1..][j] == e;
      assert es[0].key != es[j + 1].key;
      LookupEntry(es[1..], e);
    }
  }

  // ---------------------------------------------------------------------------
  // Tallying a column
  // ---------------------------------------------------------------------------

  /** Record one more occurrence of `x`. */
  function Bump<K(==)>(es: seq<Entry<K>>, x: K): (r: seq<Entry<K>>)
    ensures KeysOf(r) == KeysOf(es) + {x}
    ensures SumCounts(r) == SumCounts(es) + 1
    decreases |es|
  {
    if es == [] then [Entry(x, 1)]
    else if es[0].key == x then
      assert KeysOf(es) == {x} + KeysOf(es[1..]);
      [Entry(x, es[0].count + 1)] + es[1..]
    else
      var rest := Bump(es[1..], x);
      assert KeysOf(es) == {es[0].key} + KeysOf(es[1..]);
      assert KeysOf([es[0]] + rest) == {es[0].key} + KeysOf(rest);
      [es[0]] + rest
  }

  /** Bumping keeps one entry per key. */
  lemma {:induction false} BumpKeepsDistinct<K>(es: seq<Entry<K>>, x: K)
    requires DistinctKeys(es)
    ensures DistinctKeys(Bump(es, x))
    decreases |es|
  {
    if es != [] && es[0].key != x {
      DistinctCons(es);
      BumpKeepsDistinct(es[1..], x);
      var rest := Bump(es[1..], x);
      assert es[0].key !in KeysOf(rest);
      assert Bump(es, x) == [es[0]] + rest;
      assert ([es[0]] + rest)[1..] == rest;
      DistinctCons([es[0]] + rest);
    } else if es != [] {
      DistinctCons(es);
      var r := Bump(es, x);
      assert r[1..] == es[1..];
      DistinctCons(r);
    }
  }

  /** Bumping adds one to the count of `x` and leaves every other count alone. */
  lemma {:induction false} BumpLookup<K>(es: seq<Entry<K>>, x: K, k: K)
    ensures Lookup(Bump(es, x), k) == Lookup(es, k) + (if k == x then 1 else 0)
    decreases |es|
  {
    if es != [] && es[0].key != x {
      BumpLookup(es[1..], x, k);
      assert Bump(es, x)[1..] == Bump(es[1..], x);
    }
  }

  lemma {:induction false} LookupAbsent<K>(es: seq<Entry<K>>, k: K)
    requires k !in KeysOf(es)
    ensures Lookup(es, k) == 0
    decreases |es|
  {
    if es != [] {
      assert KeysOf(es) == {es[0].key} + KeysOf(es[1..]);
      LookupAbsent(es[1..], k);
    }
  }

  /** A frequency table of `xs` in first-occurrence order. */
  function Tally<K(==)>(xs: seq<K>): (r: seq<Entry<K>>)
    ensures DistinctKeys(r)
    ensures KeysOf(r) == set x | x in xs
    ensures forall k :: k in KeysOf(r) ==> Lookup(r, k) == multiset(xs)[k]
    ensures SumCounts(r) == |xs|
    decreases |xs|
  {
    if xs == [] then []
    else
      var init, last := xs[..|xs| - 1], xs[|xs| - 1];
      assert xs == init + [last];
      var t := Tally(init);
      var r := Bump(t, last);
      BumpKeepsDistinct(t, last);
      forall k | k in KeysOf(r) ensures Lookup(r, k) == multiset(xs)[k] {
        BumpLookup(t, last, k);
        if k !in KeysOf(t) {
          LookupAbsent(t, k);
        }
      }
      r
  }

  // ---------------------------------------------------------------------------
  // value_counts(): tally, then order by count, largest first
  // ---------------------------------------------------------------------------

  ghost predicate SortedByCountDesc<K>(es: seq<Entry<K>>)
  {
    forall i, j :: 0 <= i < j < |es| ==> es[i].count >= es[j].count
  }

  function InsertByCount<K>(e: Entry<K>, s: seq<Entry<K>>): (r: seq<Entry<K>>)
    ensures multiset(r) == multiset(s) + multiset{e}
    ensures |r| == |s| + 1
    ensures SumCounts(r) == SumCounts(s) + e.count
    decreases |s|
  {
    if s == [] || e.count >= s[0].count then [e] + s
    else
      assert s == [s[0]] + s[1..];
      [s[0]] + InsertByCount(e, s[1..])
  }

  lemma {:induction false} InsertByCountSorted<K>(e: Entry<K>, s: seq<Entry<K>>)
    requires SortedByCountDesc(s)
    ensures SortedByCountDesc(InsertByCount(e, s))
    decreases |s|
  {
    if s == [] {
    } else if e.count >= s[0].count {
      CountHeadDominates(s);
      CountSortedCons(e, s);
    } else {
      InsertByCountSorted(e, s[1..]);
      var rest := InsertByCount(e, s[1..]);
      CountHeadDominates(s);
      forall x | x in rest ensures x.count <= s[0].count {
        assert x in multiset(rest);
        assert x == e || x in s[1..];
      }
      CountSortedCons(s[0], rest);
    }
  }

  /** The first entry of a count-descending list has the largest count. */
  lemma CountHeadDominates<K>(s: seq<Entry<K>>)
    requires SortedByCountDesc(s) && s != []
    ensures forall x :: x in s ==> x.count <= s[0].count
  {
    forall x | x in s ensures x.count <= s[0].count {
      var i :| 0 <= i < |s| && s[i] == x;
    }
  }

  /** An entry at least as large as every entry of a count-descending list can go in front of it. */
  lemma CountSortedCons<K>(h: Entry<K>, rest: seq<Entry<K>>)
    requires SortedByCountDesc(rest)
    requires forall x :: x in rest ==> x.count <= h.count
    ensures SortedByCountDesc([h] + rest)
  {
    var r := [h] + rest;
    forall i, j | 0 <= i < j < |r| ensures r[i].count >= r[j].count {
      assert r[j] == rest[j - 1];
      if i == 0 {
        assert rest[j - 1] in rest;
      } else {
        assert r[i] == rest[i - 1];
      }
    }
  }

  function SortByCount<K>(es: seq<Entry<K>>): (r: seq<Entry<K>>)
    ensures multiset(r) == multiset(es)
    ensures |r| == |es|
    ensures SumCounts(r) == SumCounts(es)
    ensures SortedByCountDesc(r)
    decreases |es|
  {
    if es == [] then []
    else
      assert es == [es[0]] + es[1..];
      var rest := SortByCount(es[1..]);
      InsertByCountSorted(es[0], rest);
      InsertByCount(es[0], rest)
  }

  // ---------------------------------------------------------------------------
  // Distinct keys survive any reordering
  // ---------------------------------------------------------------------------

  lemma {:induction false} DistinctCons<K>(es: seq<Entry<K>>)
    requires es != []
    ensures DistinctKeys(es) <==> es[0].key !in KeysOf(es[1..]) && DistinctKeys(es[1..])
  {
    var t := es[1..];
    if DistinctKeys(es) {
      forall i, j | 0 <= i < j < |t| ensures t[i].key != t[j].key {
        assert es[i + 1] == t[i] && es[j + 1] == t[j];
      }
    }
    if es[0].key !in KeysOf(t) && DistinctKeys(t) {
      forall i, j | 0 <= i < j < |es| ensures es[i].key != es[j].key {
        assert es[j] == t[j - 1];
        if i > 0 {
          assert es[i] == t[i - 1];
        } else {
          assert t[j - 1] in t;
        }
      }
    }
  }

  /** Keys are distinct exactly when there are as many keys as entries. */
  lemma {:induction false} DistinctByCardinality<K>(es: seq<Entry<K>>)
    ensures |KeysOf(es)| <= |es|
    ensures DistinctKeys(es) <==> |KeysOf(es)| == |es|
    decreases |es|
  {
    if es != [] {
      DistinctByCardinality(es[1..]);
      DistinctCons(es);
      assert KeysOf(es) == {es[0].key} + KeysOf(es[1..]);
    }
  }

  lemma PermutationKeys<K>(a: seq<Entry<K>>, b: seq<Entry<K>>)
    requires multiset(a) == multiset(b)
    ensures KeysOf(a) == KeysOf(b)
    ensures |a| == |b|
    ensures DistinctKeys(a) ==> DistinctKeys(b)
  {
    forall k | k in KeysOf(a) ensures k in KeysOf(b) {
      var e :| e in a && e.key == k;
      assert e in multiset(a);
    }
    forall k | k in KeysOf(b) ensures k in KeysOf(a) {
      var e :| e in b && e.key == k;
      assert e in multiset(b);
    }
    assert |a| == |multiset(a)| == |multiset(b)| == |b|;
    DistinctByCardinality(a);
    DistinctByCardinality(b);
  }

  /**
    `column.value_counts()`: one entry per distinct value of `xs`, holding the
    number of times it occurs, largest count first.
   */
  function ValueCounts<K(==)>(xs: seq<K>): (r: seq<Entry<K>>)
    ensures DistinctKeys(r)
    ensures SortedByCountDesc(r)
    ensures KeysOf(r) == set x | x in xs
    ensures forall e :: e in r ==> e.count == multiset(xs)[e.key]
    ensures SumCounts(r) == |xs|
  {
    var t := Tally(xs);
    var r := SortByCount(t);
    PermutationKeys(t, r);
    assert forall e :: e in r ==> e.count == multiset(xs)[e.key] by {
      forall e | e in r ensures e.count == multiset(xs)[e.key] {
        assert e in multiset(r);
        LookupEntry(t, e);
      }
    }
    r
  }

  // ---------------------------------------------------------------------------
  // nlargest(k)
  // ---------------------------------------------------------------------------

  function Min(a: int, b: int): int { if a <= b then a else b }

  /**
    `counts.nlargest(k)`: the `k` entries with the largest counts (all of them
    when there are fewer), largest first.
   */
  function NLargest<K>(es: seq<Entry<K>>, k: nat): (r: seq<Entry<K>>)
    ensures |r| == Min(k, |es|)
    ensures multiset(r) <= multiset(es)
    ensures SortedByCountDesc(r)
    ensures forall a, b :: a in r && b in multiset(es) - multiset(r) ==> a.count >= b.count
  {
    var sorted := SortByCount(es);
    var n := Min(k, |es|);
    PrefixDominates(sorted, n);
    sorted[..n]
  }

  /** In a list sorted by count, a prefix holds the largest counts and leaves out only smaller ones. */
  lemma PrefixDominates<K>(sorted: seq<Entry<K>>, n: nat)
    requires SortedByCountDesc(sorted) && n <= |sorted|
    ensures multiset(sorted[..n]) <= multiset(sorted)
    ensures SortedByCountDesc(sorted[..n])
    ensures forall a, b :: a in sorted[..n] && b in multiset(sorted) - multiset(sorted[..n]) ==> a.count >= b.count
  {
    var r, rest := sorted[..n], sorted[n..];
    PrefixRest(sorted, n);
    forall a, b | a in r && b in multiset(sorted) - multiset(r) ensures a.count >= b.count {
      assert b in multiset(rest);
      PrefixOutranksRest(sorted, n, a, b);
    }
    forall i, j | 0 <= i < j < |r| ensures r[i].count >= r[j].count {
      assert r[i] == sorted[i] && r[j] == sorted[j];
    }
  }

  lemma PrefixOutranksRest<K>(sorted: seq<Entry<K>>, n: nat, a: Entry<K>, b: Entry<K>)
    requires SortedByCountDesc(sorted) && n <= |sorted|
    requires a in sorted[..n] && b in sorted[n..]
    ensures a.count >= b.count
  {
    var i :| 0 <= i < n && sorted[..n][i] == a;
    var j :| 0 <= j < |sorted| - n && sorted[n..][j] == b;
    assert sorted[i] == a && sorted[n + j] == b;
  }

  /** What a prefix leaves out of a sequence is the rest of it. */
  lemma PrefixRest<K>(s: seq<Entry<K>>, n: nat)
    requires n <= |s|
    ensures multiset(s[..n]) <= multiset(s)
    ensures multiset(s) - multiset(s[..n]) == multiset(s[n..])
  {
    assert s == s[..n] + s[n..];
    assert multiset(s) == multiset(s[..n]) + multiset(s[n..]);
  }

  // ---------------------------------------------------------------------------
  // sort_index() on a table keyed by numbers
  // ---------------------------------------------------------------------------

  ghost predicate SortedByKey(es: seq<Entry<nat>>)
  {
    forall i, j :: 0 <= i < j < |es| ==> es[i].key <= es[j].key
  }

  function InsertByKey(e: Entry<nat>, s: seq<Entry<nat>>): (r: seq<Entry<nat>>)
    ensures multiset(r) == multiset(s) + multiset{e}
    ensures SumCounts(r) == SumCounts(s) + e.count
    decreases |s|
  {
    if s == [] || e.key <= s[0].key then [e] + s
    else
      assert s == [s[0]] + s[1..];
      [s[0]] + InsertByKey(e, s[1..])
  }

  lemma {:induction false} InsertByKeySorted(e: Entry<nat>, s: seq<Entry<nat>>)
    requires SortedByKey(s)
    ensures SortedByKey(InsertByKey(e, s))
    decreases |s|
  {
    if s == [] {
    } else if e.key <= s[0].key {
      KeyHeadSmallest(s);
      KeySortedCons(e, s);
    } else {
      InsertByKeySorted(e, s[1..]);
      var rest := InsertByKey(e, s[1..]);
      KeyHeadSmallest(s);
      forall x | x in rest ensures s[0].key <= x.key {
        assert x in multiset(rest);
        assert x == e || x in s[1..];
      }
      KeySortedCons(s[0], rest);
    }
  }

  /** The first entry of a key-ordered list has the smallest key. */
  lemma KeyHeadSmallest(s: seq<Entry<nat>>)
    requires SortedByKey(s) && s != []
    ensures forall x :: x in s ==> s[0].key <= x.key
  {
    forall x | x in s ensures s[0].key <= x.key {
      var i :| 0 <= i < |s| && s[i] == x;
    }
  }

  /** An entry with a key no larger than any key of a key-ordered list can go in front of it. */
  lemma KeySortedCons(h: Entry<nat>, rest: seq<Entry<nat>>)
    requires SortedByKey(rest)
    requires forall x :: x in rest ==> h.key <= x.key
    ensures SortedByKey([h] + rest)
  {
    var r := [h] + rest;
    forall i, j | 0 <= i < j < |r| ensures r[i].key <= r[j].key {
      assert r[j] == rest[j - 1];
      if i == 0 {
        assert rest[j - 1] in rest;
      } else {
        assert r[i] == rest[i - 1];
      }
    }
  }

  /** `counts.sort_index()`: the same entries, ordered by key. */
  function SortByKey(es: seq<Entry<nat>>): (r: seq<Entry<nat>>)
    ensures multiset(r) == multiset(es)
    ensures SumCounts(r) == SumCounts(es)
    ensures SortedByKey(r)
    decreases |es|
  {
    if es == [] then []
    else
      assert es == [es[0]] + es[1..];
      var rest := SortByKey(es[1..]);
      InsertByKeySorted(es[0], rest);
      InsertByKey(es[0], rest)
  }

  // ---------------------------------------------------------------------------
  // sorted(column.unique()) over strings
  // ---------------------------------------------------------------------------

  ghost predicate StrictlyAscending(s: seq<string>)
  {
    forall i, j :: 0 <= i < j < |s| ==> LexLess(s[i], s[j])
  }

  function InsertUnique(x: string, s: seq<string>): (r: seq<string>)
    ensures forall y :: y in r <==> y == x || y in s
    decreases |s|
  {
    if s == [] then [x]
    else if x == s[0] then s
    else if LexLess(x, s[0]) then [x] + s
    else [s[0]] + InsertUnique(x, s[1..])
  }

  lemma {:induction false} InsertUniqueAscending(x: string, s: seq<string>)
    requires StrictlyAscending(s)
    ensures StrictlyAscending(InsertUnique(x, s))
    decreases |s|
  {
    if s == [] || x == s[0] {
    } else if LexLess(x, s[0]) {
      forall j | 1 <= j < |s| ensures LexLess(x, s[j]) {
        LexLessTransitive(x, s[0], s[j]);
      }
    } else {
      InsertUniqueAscending(x, s[1..]);
      LexLessTotal(x, s[0]);
      var r := InsertUnique(x, s);
      assert r == [s[0]] + InsertUnique(x, s[1..]);
      forall j | 1 <= j < |r| ensures LexLess(s[0], r[j]) {
        assert r[j] in InsertUnique(x, s[1..]);
      }
    }
  }

  /** `sorted(set(xs))`: each distinct string of `xs` once, in ascending order. */
  function SortedUnique(xs: seq<string>): (r: seq<string>)
    ensures StrictlyAscending(r)
    ensures forall y :: y in r <==> y in xs
    decreases |xs|
  {
    if xs == [] then []
    else
      var rest := SortedUnique(xs[1..]);
      InsertUniqueAscending(xs[0], rest);
      assert xs == [xs[0]] + xs[1..];
      InsertUnique(xs[0], rest)
  }

  /** A strictly ascending list has no duplicates. */
  lemma AscendingHasNoDuplicates(s: seq<string>)
    requires StrictlyAscending(s)
    ensures forall i, j :: 0 <= i < j < |s| ==> s[i] != s[j]
  {
    forall i, j | 0 <= i < j < |s| ensures s[i] != s[j] {
      LexLessIrreflexive(s[i]);
    }
  }

}
