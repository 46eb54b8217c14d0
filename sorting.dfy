/** Python's `list.sort(key=...)`: a stable sort by an integer key.  A
    descending sort (`reverse=True`) is the same stable sort on the negated key,
    which keeps equal keys in their original order as Python does.  Also the
    list comprehension filter and the `for ... if ...: break` search. */
module Sorting {
  import opened Common

  predicate SortedBy<T>(s: seq<T>, key: T -> int) {
    forall i, j :: 0 <= i < j < |s| ==> key(s[i]) <= key(s[j])
  }

  predicate StrictlySortedBy<T>(s: seq<T>, key: T -> int) {
    forall i, j :: 0 <= i < j < |s| ==> key(s[i]) < key(s[j])
  }

  /** Inserts x after every element whose key is at most x's. */
  function InsertBy<T>(x: T, s: seq<T>, key: T -> int): (r: seq<T>)
    requires SortedBy(s, key)
    ensures |r| == |s| + 1
    ensures SortedBy(r, key)
    ensures multiset(r) == multiset(s) + multiset{x}
    ensures forall k :: 0 <= k < |r| ==> r[k] == x || r[k] in s
    decreases |s|
  {
    if s == [] || key(x) < key(s[0]) then [x] + s
    else
      var rest := InsertBy(x, s[1..], key);
      HeadFirst(s, x, rest, key);
      assert s == [s[0]] + s[1..];
      [s[0]] + rest
  }

  /** The head of a sorted sequence goes in front of anything built from x
      and the rest of the sequence, when x's key is not below it. */
  lemma HeadFirst<T>(s: seq<T>, x: T, rest: seq<T>, key: T -> int)
    requires SortedBy(s, key) && s != [] && key(s[0]) <= key(x)
    requires SortedBy(rest, key)
    requires forall k :: 0 <= k < |rest| ==> rest[k] == x || rest[k] in s[1..]
    ensures SortedBy([s[0]] + rest, key)
  {
    var r := [s[0]] + rest;
    forall i, j | 0 <= i < j < |r| ensures key(r[i]) <= key(r[j]) {
      assert r[j] == rest[j - 1];
      if i == 0 && rest[j - 1] != x {
        var m :| 0 <= m < |s[1..]| && s[1..][m] == rest[j - 1];
        assert s[m + 1] == rest[j - 1];
      } else if i > 0 {
        assert r[i] == rest[i - 1];
      }
    }
  }

  /** Insertion sort: the result is ordered by key and a permutation of s. */
  function SortBy<T>(s: seq<T>, key: T -> int): (r: seq<T>)
    ensures SortedBy(r, key)
    ensures multiset(r) == multiset(s)
    ensures |r| == |s|
    decreases |s|
  {
    if s == [] then []
    else
      assert s == s[..|s| - 1] + [s[|s| - 1]];
      InsertBy(s[|s| - 1], SortBy(s[..|s| - 1], key), key)
  }

  /** The elements whose key is `v`. */
  function KeyIs<T>(key: T -> int, v: int): T -> bool {
    x => key(x) == v
  }

  /** Stability, one insertion: among the elements of one key, x goes last. */
  lemma {:induction false} InsertByStable<T>(x: T, s: seq<T>, key: T -> int, v: int)
    requires SortedBy(s, key)
    ensures Filter(InsertBy(x, s, key), KeyIs(key, v))
            == Filter(s, KeyIs(key, v)) + (if key(x) == v then [x] else [])
    decreases |s|
  {
    if s == [] || key(x) < key(s[0]) {
      InsertFront(x, s, key, v);
    } else {
      InsertByStable(x, s[1..], key, v);
      InsertBehind(x, s, key, v);
    }
  }

  /** x inserted behind the head keeps the head in front. */
  lemma {:induction false} InsertBehind<T>(x: T, s: seq<T>, key: T -> int, v: int)
    requires SortedBy(s, key) && s != [] && key(s[0]) <= key(x)
    requires Filter(InsertBy(x, s[1..], key), KeyIs(key, v))
             == Filter(s[1..], KeyIs(key, v)) + (if key(x) == v then [x] else [])
    ensures Filter(InsertBy(x, s, key), KeyIs(key, v))
            == Filter(s, KeyIs(key, v)) + (if key(x) == v then [x] else [])
  {
    var inserted := InsertBy(x, s, key);
    var rest := InsertBy(x, s[1..], key);
    assert inserted == [s[0]] + rest;
    assert s == [s[0]] + s[1..];
    SameHeadFilter(inserted, s, s[0], rest, s[1..], KeyIs(key, v), if key(x) == v then [x] else []);
  }

  /** A common head in front of two sequences keeps their filters related. */
  lemma {:induction false} SameHeadFilter<T>(a: seq<T>, c: seq<T>, h: T, b: seq<T>, d: seq<T>, p: T -> bool, e: seq<T>)
    requires a == [h] + b && c == [h] + d
    requires Filter(b, p) == Filter(d, p) + e
    ensures Filter(a, p) == Filter(c, p) + e
  {
    FilterConcat([h], b, p);
    FilterConcat([h], d, p);
    var fh := Filter([h], p);
    assert fh + (Filter(d, p) + e) == (fh + Filter(d, p)) + e;
  }

  /** x placed in front of a sequence whose keys all exceed its own. */
  lemma {:induction false} InsertFront<T>(x: T, s: seq<T>, key: T -> int, v: int)
    requires SortedBy(s, key)
    requires s == [] || key(x) < key(s[0])
    ensures Filter([x] + s, KeyIs(key, v)) == Filter(s, KeyIs(key, v)) + (if key(x) == v then [x] else [])
  {
    var p := KeyIs(key, v);
    FilterConcat([x], s, p);
    assert [x][..0] == [];
  }

  /** Python's sort is stable: the elements of any one key keep their order. */
  lemma {:induction false} SortByStable<T>(s: seq<T>, key: T -> int, v: int)
    ensures Filter(SortBy(s, key), KeyIs(key, v)) == Filter(s, KeyIs(key, v))
    decreases |s|
  {
    if s != [] {
      var init := s[..|s| - 1];
      SortByStable(init, key, v);
      InsertByStable(s[|s| - 1], SortBy(init, key), key, v);
    }
  }

  /** `r` holds the elements of `s` ordered by key, those of any one key in
      their order in `s`: what a stable sort produces. */
  ghost predicate StablySorted<T>(r: seq<T>, s: seq<T>, key: T -> int) {
    && SortedBy(r, key)
    && multiset(r) == multiset(s)
    && forall v :: Filter(r, KeyIs(key, v)) == Filter(s, KeyIs(key, v))
  }

  /** `SortBy` is a stable sort. */
  lemma SortByIsStable<T>(s: seq<T>, key: T -> int)
    ensures StablySorted(SortBy(s, key), s, key)
  {
    forall v ensures Filter(SortBy(s, key), KeyIs(key, v)) == Filter(s, KeyIs(key, v)) {
      SortByStable(s, key, v);
    }
  }

  /** Filtering a concatenation filters each part. */
  lemma {:induction false} FilterConcat<T>(a: seq<T>, b: seq<T>, p: T -> bool)
    ensures Filter(a + b, p) == Filter(a, p) + Filter(b, p)
    decreases |b|
  {
    if b != [] {
      var init := b[..|b| - 1];
      assert (a + b)[..|a + b| - 1] == a + init;
      FilterConcat(a, init, p);
    } else {
      assert a + b == a;
    }
  }

  /** An ordered permutation of a strictly ordered sequence is that sequence:
      once the keys are distinct, sorting has only one possible outcome. */
  lemma {:induction false} SortedPermutationUnique<T>(a: seq<T>, b: seq<T>, key: T -> int)
    requires SortedBy(a, key) && StrictlySortedBy(b, key)
    requires multiset(a) == multiset(b)
    ensures a == b
    decreases |a|
  {
    assert |a| == |multiset(a)| == |multiset(b)| == |b|;
    if a != [] {
      SameHead(a, b, key);
      TailsAgree(a, b, key);
      SortedPermutationUnique(a[1..], b[1..], key);
    }
  }

  /** Once the heads agree, the tails are again an ordered and a strictly
      ordered sequence with the same elements. */
  lemma TailsAgree<T>(a: seq<T>, b: seq<T>, key: T -> int)
    requires SortedBy(a, key) && StrictlySortedBy(b, key)
    requires a != [] && b != [] && a[0] == b[0] && multiset(a) == multiset(b)
    ensures SortedBy(a[1..], key) && StrictlySortedBy(b[1..], key)
    ensures multiset(a[1..]) == multiset(b[1..])
  {
    TailMultiset(a);
    TailMultiset(b);
  }

  lemma TailMultiset<T>(a: seq<T>)
    requires a != []
    ensures multiset(a[1..]) == multiset(a) - multiset{a[0]}
  {
    assert a == [a[0]] + a[1..];
  }

  lemma SameHead<T>(a: seq<T>, b: seq<T>, key: T -> int)
    requires SortedBy(a, key) && StrictlySortedBy(b, key)
    requires multiset(a) == multiset(b) && a != [] && b != []
    ensures a[0] == b[0]
  {
    assert a[0] in multiset(b);
    var i :| 0 <= i < |b| && b[i] == a[0];
    assert b[0] in multiset(a);
    var j :| 0 <= j < |a| && a[j] == b[0];
    assert key(a[0]) <= key(a[j]);
  }

  /** `[x for x in s if p(x)]`. */
  function Filter<T>(s: seq<T>, p: T -> bool): (r: seq<T>)
    ensures |r| <= |s|
    ensures forall k :: 0 <= k < |r| ==> p(r[k]) && r[k] in s
    decreases |s|
  {
    if s == [] then []
    else Filter(s[..|s| - 1], p) + (if p(s[|s| - 1]) then [s[|s| - 1]] else [])
  }

  /** Filtering drops nothing that satisfies the predicate. */
  lemma {:induction false} FilterKeeps<T>(s: seq<T>, p: T -> bool, x: T)
    requires x in s && p(x)
    ensures x in Filter(s, p)
    decreases |s|
  {
    if s[|s| - 1] != x {
      var init := s[..|s| - 1];
      assert s == init + [s[|s| - 1]];
      FilterKeeps(init, p, x);
    }
  }

  /** Filtering one element more of a prefix. */
  lemma FilterExtend<T>(s: seq<T>, i: nat, p: T -> bool)
    requires i < |s|
    ensures Filter(s[..i + 1], p) == Filter(s[..i], p) + (if p(s[i]) then [s[i]] else [])
  {
    assert s[..i + 1][..i] == s[..i];
  }

  /** Splitting by a predicate loses and invents nothing. */
  lemma {:induction false} FilterPartition<T>(s: seq<T>, p: T -> bool, q: T -> bool)
    requires forall x :: q(x) == !p(x)
    ensures multiset(Filter(s, p)) + multiset(Filter(s, q)) == multiset(s)
    decreases |s|
  {
    if s != [] {
      FilterPartition(s[..|s| - 1], p, q);
      assert s == s[..|s| - 1] + [s[|s| - 1]];
    }
  }

  /** Filtering keeps an order. */
  lemma {:induction false} FilterSorted<T>(s: seq<T>, p: T -> bool, key: T -> int)
    requires SortedBy(s, key)
    ensures SortedBy(Filter(s, p), key)
    decreases |s|
  {
    if s != [] {
      var init := s[..|s| - 1];
      FilterSorted(init, p, key);
      var f := Filter(init, p);
      forall k | 0 <= k < |f| ensures key(f[k]) <= key(s[|s| - 1]) {
        var m :| 0 <= m < |init| && init[m] == f[k];
      }
    }
  }

  /** The position of the first element, from `from` on, that satisfies `p`:
      what a `for` loop that stops at its first match finds. */
  function FirstIndex<T>(s: seq<T>, p: T -> bool, from: nat): (r: Option<nat>)
    requires from <= |s|
    ensures r.Some? ==> from <= r.value < |s| && p(s[r.value])
    ensures r.Some? ==> forall k :: from <= k < r.value ==> !p(s[k])
    ensures r.None? ==> forall k :: from <= k < |s| ==> !p(s[k])
    decreases |s| - from
  {
    if from == |s| then None
    else if p(s[from]) then Some(from)
    else FirstIndex(s, p, from + 1)
  }
}
