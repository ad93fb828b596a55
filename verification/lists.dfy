/**
 * The array idioms the reducers and repositories are built from:
 * `filter`, `find` / `findIndex` followed by an in-place write, and the
 * `reduce` that groups elements by a key.
 */
module Lists {
  import opened Wrappers

  // ---------------------------------------------------------------------------
  // filter
  // ---------------------------------------------------------------------------

  /** `ix` picks `r` out of `xs` at strictly increasing positions. */
  ghost predicate IsEmbedding<T>(ix: seq<nat>, r: seq<T>, xs: seq<T>) {
    && |ix| == |r|
    && (forall k | 0 <= k < |ix| :: ix[k] < |xs| && xs[ix[k]] == r[k])
    && (forall k, l | 0 <= k < l < |ix| :: ix[k] < ix[l])
  }

  /** `r` is `xs` with some elements dropped and the others kept in their original order. */
  ghost predicate SubsequenceOf<T>(r: seq<T>, xs: seq<T>) {
    exists ix :: IsEmbedding(ix, r, xs)
  }

  /** Every position moved one place on. */
  function Shift(ix: seq<nat>): (s: seq<nat>)
    ensures |s| == |ix| && forall k | 0 <= k < |ix| :: s[k] == ix[k] + 1
  {
    seq(|ix|, k requires 0 <= k < |ix| => ix[k] + 1)
  }

  /** A subsequence stays one when an element is put in front of the sequence, with or without it. */
  lemma SubsequenceCons<T>(x: T, r: seq<T>, xs: seq<T>)
    requires SubsequenceOf(r, xs)
    ensures SubsequenceOf(r, [x] + xs) && SubsequenceOf([x] + r, [x] + xs)
  {
    var ix :| IsEmbedding(ix, r, xs);
    var s := Shift(ix);
    assert IsEmbedding(s, r, [x] + xs);
    assert IsEmbedding([0] + s, [x] + r, [x] + xs);
  }

  /** A sequence is a subsequence of itself. */
  lemma SubsequenceRefl<T>(xs: seq<T>)
    ensures SubsequenceOf(xs, xs)
  {
    var ix := seq(|xs|, k requires 0 <= k < |xs| => k);
    assert IsEmbedding(ix, xs, xs);
  }

  /** A subsequence of a subsequence is a subsequence. */
  lemma SubsequenceTrans<T>(a: seq<T>, b: seq<T>, c: seq<T>)
    requires SubsequenceOf(a, b) && SubsequenceOf(b, c)
    ensures SubsequenceOf(a, c)
  {
    var i1 :| IsEmbedding(i1, a, b);
    var i2 :| IsEmbedding(i2, b, c);
    var ix := seq(|i1|, k requires 0 <= k < |i1| => i2[i1[k]]);
    assert IsEmbedding(ix, a, c);
  }

  /** `xs.filter(p)`: the elements satisfying `p`, in their original order. */
  function Filter<T(!new)>(xs: seq<T>, p: T -> bool): (r: seq<T>)
    ensures |r| <= |xs|
    ensures forall x :: x in r <==> x in xs && p(x)
    ensures multiset(r) <= multiset(xs)
    ensures forall i | 0 <= i < |r| :: p(r[i])
  {
    if |xs| == 0 then []
    else
      var rest := Filter(xs[1..], p);
      assert xs == [xs[0]] + xs[1..];
      if p(xs[0]) then [xs[0]] + rest else rest
  }

  /** `filter` keeps the survivors in their original order. */
  lemma {:induction false} FilterSubsequence<T(!new)>(xs: seq<T>, p: T -> bool)
    ensures SubsequenceOf(Filter(xs, p), xs)
  {
    if |xs| == 0 {
      assert IsEmbedding([], Filter(xs, p), xs);
    } else {
      FilterSubsequence(xs[1..], p);
      assert xs == [xs[0]] + xs[1..];
      SubsequenceCons(xs[0], Filter(xs[1..], p), xs[1..]);
    }
  }

  lemma {:induction false} FilterAppend<T(!new)>(a: seq<T>, b: seq<T>, p: T -> bool)
    ensures Filter(a + b, p) == Filter(a, p) + Filter(b, p)
  {
    if |a| > 0 {
      assert (a + b)[1..] == a[1..] + b;
      FilterAppend(a[1..], b, p);
    } else {
      assert a + b == b;
    }
  }

  /** Filtering a sequence without repetitions yields one without repetitions. */
  lemma {:induction false} FilterDistinct<T(!new)>(xs: seq<T>, p: T -> bool)
    requires Distinct(xs)
    ensures Distinct(Filter(xs, p))
  {
    if |xs| > 0 {
      FilterDistinct(xs[1..], p);
      assert xs[0] !in xs[1..];
    }
  }

  /** Each element of a sequence without repetitions occurs in it at most once. */
  lemma {:induction false} DistinctCount<T>(xs: seq<T>, x: T)
    requires Distinct(xs)
    ensures multiset(xs)[x] == if x in xs then 1 else 0
  {
    if |xs| > 0 {
      assert xs == [xs[0]] + xs[1..];
      DistinctCount(xs[1..], x);
      if xs[0] == x { assert x !in xs[1..]; }
    }
  }

  /** Counting form of the filter contract, for every element at once. */
  lemma FilterCounts<T(!new)>(xs: seq<T>, p: T -> bool)
    ensures forall x :: multiset(Filter(xs, p))[x] == if p(x) then multiset(xs)[x] else 0
  {
    forall x ensures multiset(Filter(xs, p))[x] == if p(x) then multiset(xs)[x] else 0 {
      FilterCount(xs, p, x);
    }
  }

  /** Filtering keeps everything exactly when every element passes. */
  lemma {:induction false} FilterAll<T(!new)>(xs: seq<T>, p: T -> bool)
    requires forall i | 0 <= i < |xs| :: p(xs[i])
    ensures Filter(xs, p) == xs
  {
    if |xs| > 0 {
      FilterAll(xs[1..], p);
      assert xs == [xs[0]] + xs[1..];
    }
  }

  /** Filtering by `p` then by `q` is filtering by both. */
  lemma {:induction false} FilterFilter<T(!new)>(xs: seq<T>, p: T -> bool, q: T -> bool)
    ensures Filter(Filter(xs, p), q) == Filter(xs, x => p(x) && q(x))
  {
    if |xs| > 0 {
      FilterFilter(xs[1..], p, q);
      var rest := Filter(xs[1..], p);
      if p(xs[0]) {
        assert ([xs[0]] + rest)[1..] == rest;
      }
    }
  }

  /** Filtering a sequence that holds each element once keeps each kept element once. */
  lemma {:induction false} FilterCount<T(!new)>(xs: seq<T>, p: T -> bool, x: T)
    ensures multiset(Filter(xs, p))[x] == if p(x) then multiset(xs)[x] else 0
  {
    if |xs| > 0 {
      var rest := Filter(xs[1..], p);
      FilterCount(xs[1..], p, x);
      assert multiset(xs) == multiset{xs[0]} + multiset(xs[1..]) by {
        assert xs == [xs[0]] + xs[1..];
      }
      if p(xs[0]) {
        assert Filter(xs, p) == [xs[0]] + rest;
        assert multiset(Filter(xs, p)) == multiset{xs[0]} + multiset(rest);
      } else {
        assert Filter(xs, p) == rest;
      }
    }
  }

  // ---------------------------------------------------------------------------
  // findIndex and the write at the found position
  // ---------------------------------------------------------------------------

  /** `xs.findIndex(p)`, with None for -1. */
  function FirstIndex<T>(xs: seq<T>, p: T -> bool): (r: Option<nat>)
    ensures r.None? <==> forall j | 0 <= j < |xs| :: !p(xs[j])
    ensures r.Some? ==> r.value < |xs| && p(xs[r.value])
                        && forall j | 0 <= j < r.value :: !p(xs[j])
  {
    if |xs| == 0 then None
    else if p(xs[0]) then Some(0)
    else
      match FirstIndex(xs[1..], p)
      case None => None
      case Some(i) => Some(i + 1)
  }

  /**
   * `const x = xs.find(p); if (x) { mutate x }`: apply `f` to the first
   * element satisfying `p`, leaving every other position alone.
   */
  function UpdateFirst<T>(xs: seq<T>, p: T -> bool, f: T -> T): (r: seq<T>)
    ensures |r| == |xs|
    ensures FirstIndex(xs, p).None? ==> r == xs
    ensures FirstIndex(xs, p).Some? ==>
              var i := FirstIndex(xs, p).value; r == xs[i := f(xs[i])]
  {
    if |xs| == 0 then []
    else if p(xs[0]) then [f(xs[0])] + xs[1..]
    else [xs[0]] + UpdateFirst(xs[1..], p, f)
  }

  /** A write that keeps the element matching leaves the first match where it was. */
  lemma {:induction false} UpdateFirstKeepsIndex<T>(xs: seq<T>, p: T -> bool, f: T -> T)
    requires forall x :: p(x) ==> p(f(x))
    ensures FirstIndex(UpdateFirst(xs, p, f), p) == FirstIndex(xs, p)
  {
    var r := UpdateFirst(xs, p, f);
    match FirstIndex(xs, p) {
      case None =>
      case Some(i) =>
        assert p(r[i]);
        assert forall j | 0 <= j < i :: r[j] == xs[j];
    }
  }

  // ---------------------------------------------------------------------------
  // Grouping (`reduce` into a record of arrays)
  // ---------------------------------------------------------------------------

  /** `acc[k] ??= []; acc[k].push(v)`. */
  function Push<K(==), V>(g: map<K, seq<V>>, k: K, v: V): map<K, seq<V>> {
    g[k := (if k in g then g[k] else []) + [v]]
  }

  /**
   * The left-to-right `reduce` that files `val(x)` under `key(x)` for every
   * element `x` of `xs`.
   */
  function GroupBy<T, K(==), V>(xs: seq<T>, key: T -> K, val: T -> V): map<K, seq<V>>
  {
    if |xs| == 0 then map[]
    else
      var last := xs[|xs| - 1];
      Push(GroupBy(xs[..|xs| - 1], key, val), key(last), val(last))
  }

  /** Reference definition of one group: the values of the elements whose key is `k`, in order. */
  function Select<T, K(==), V>(xs: seq<T>, key: T -> K, val: T -> V, k: K): seq<V>
  {
    if |xs| == 0 then []
    else (if key(xs[0]) == k then [val(xs[0])] else []) + Select(xs[1..], key, val, k)
  }

  lemma {:induction false} SelectAppend<T, K, V>(a: seq<T>, b: seq<T>, key: T -> K, val: T -> V, k: K)
    ensures Select(a + b, key, val, k) == Select(a, key, val, k) + Select(b, key, val, k)
  {
    if |a| > 0 {
      assert (a + b)[1..] == a[1..] + b;
      SelectAppend(a[1..], b, key, val, k);
    } else {
      assert a + b == b;
    }
  }

  /** A group of the elements themselves is the filter for its key. */
  lemma {:induction false} SelectIsFilter<T(!new), K>(xs: seq<T>, key: T -> K, val: T -> T, k: K, p: T -> bool)
    requires forall x :: val(x) == x
    requires forall x :: p(x) == (key(x) == k)
    ensures Select(xs, key, val, k) == Filter(xs, p)
  {
    if |xs| > 0 {
      SelectIsFilter(xs[1..], key, val, k, p);
    }
  }

  /** The keys that occur in `xs`. */
  function KeysOf<T, K(==)>(xs: seq<T>, key: T -> K): set<K> {
    set i | 0 <= i < |xs| :: key(xs[i])
  }

  /**
   * The grouping files exactly the keys that occur, and the group of `k` holds
   * the values of the elements with key `k`, in their original order.
   */
  lemma {:induction false} GroupByMeaning<T, K, V>(xs: seq<T>, key: T -> K, val: T -> V)
    ensures GroupBy(xs, key, val).Keys == KeysOf(xs, key)
    ensures forall k | k in GroupBy(xs, key, val) :: GroupBy(xs, key, val)[k] == Select(xs, key, val, k)
  {
    if |xs| > 0 {
      var init := xs[..|xs| - 1];
      var last := xs[|xs| - 1];
      GroupByMeaning(init, key, val);
      assert xs == init + [last];
      forall k ensures Select(xs, key, val, k) == Select(init, key, val, k) + (if key(last) == k then [val(last)] else []) {
        SelectAppend(init, [last], key, val, k);
        assert [last][1..] == [];
      }
      var g := GroupBy(xs, key, val);
      forall k | k in KeysOf(xs, key) ensures k in g {
        var i :| 0 <= i < |xs| && key(xs[i]) == k;
        if i < |xs| - 1 { assert key(init[i]) == k; }
      }
      forall k | k in g ensures k in KeysOf(xs, key) {
        if k != key(last) {
          var i :| 0 <= i < |init| && key(init[i]) == k;
          assert key(xs[i]) == k;
        }
      }
      forall k | k in KeysOf(init, key) ensures Select(init, key, val, k) != [] {
        var i :| 0 <= i < |init| && key(init[i]) == k;
        SelectNonEmpty(init, key, val, i);
      }
      forall k | k !in KeysOf(init, key) ensures Select(init, key, val, k) == [] {
        SelectEmpty(init, key, val, k);
      }
      var gi := GroupBy(init, key, val);
      assert g == Push(gi, key(last), val(last));
      forall k | k in g ensures g[k] == Select(xs, key, val, k) {
        var sx := Select(xs, key, val, k);
        assert sx == Select(init, key, val, k) + (if key(last) == k then [val(last)] else []);
        if k != key(last) {
          assert g[k] == gi[k];
        } else if k in gi {
          assert g[k] == gi[k] + [val(last)];
        } else {
          assert k !in KeysOf(init, key);
          assert Select(init, key, val, k) == [];
          assert g[k] == [val(last)];
        }
      }
    }
  }

  lemma {:induction false} SelectNonEmpty<T, K, V>(xs: seq<T>, key: T -> K, val: T -> V, i: nat)
    requires i < |xs|
    ensures Select(xs, key, val, key(xs[i])) != []
  {
    if i > 0 { SelectNonEmpty(xs[1..], key, val, i - 1); }
  }

  lemma {:induction false} SelectEmpty<T, K, V>(xs: seq<T>, key: T -> K, val: T -> V, k: K)
    requires k !in KeysOf(xs, key)
    ensures Select(xs, key, val, k) == []
  {
    if |xs| > 0 {
      assert key(xs[0]) != k;
      assert KeysOf(xs[1..], key) <= KeysOf(xs, key) by {
        forall kk | kk in KeysOf(xs[1..], key) ensures kk in KeysOf(xs, key) {
          var j :| 0 <= j < |xs[1..]| && key(xs[1..][j]) == kk;
          assert key(xs[j + 1]) == kk;
        }
      }
      SelectEmpty(xs[1..], key, val, k);
    }
  }

  // ---------------------------------------------------------------------------
  // Counting what a grouping holds
  // ---------------------------------------------------------------------------

  predicate Distinct<K(==)>(ks: seq<K>) {
    forall i, j | 0 <= i < j < |ks| :: ks[i] != ks[j]
  }

  /** The total length of the groups named by `ks`. */
  function SumSizes<K(==), V>(g: map<K, seq<V>>, ks: seq<K>): nat {
    if |ks| == 0 then 0
    else (if ks[0] in g then |g[ks[0]]| else 0) + SumSizes(g, ks[1..])
  }

  lemma {:induction false} SumSizesPush<K, V>(g: map<K, seq<V>>, ks: seq<K>, k: K, v: V)
    requires Distinct(ks) && k in ks
    ensures SumSizes(Push(g, k, v), ks) == SumSizes(g, ks) + 1
  {
    if ks[0] == k {
      assert k !in ks[1..];
      SumSizesUnaffected(g, ks[1..], k, v);
    } else {
      SumSizesPush(g, ks[1..], k, v);
    }
  }

  lemma {:induction false} SumSizesUnaffected<K, V>(g: map<K, seq<V>>, ks: seq<K>, k: K, v: V)
    requires k !in ks
    ensures SumSizes(Push(g, k, v), ks) == SumSizes(g, ks)
  {
    if |ks| > 0 { SumSizesUnaffected(g, ks[1..], k, v); }
  }

  /**
   * Nothing is lost or duplicated: for any listing of the keys without
   * repetition, the group sizes add up to the number of elements grouped.
   */
  lemma {:induction false} GroupByCount<T, K, V>(xs: seq<T>, key: T -> K, val: T -> V, ks: seq<K>)
    requires Distinct(ks) && GroupBy(xs, key, val).Keys <= set k | k in ks
    ensures SumSizes(GroupBy(xs, key, val), ks) == |xs|
  {
    if |xs| == 0 {
      SumSizesOfEmpty(GroupBy(xs, key, val), ks);
    } else {
      var init := xs[..|xs| - 1];
      var last := xs[|xs| - 1];
      var g := GroupBy(init, key, val);
      assert g.Keys <= GroupBy(xs, key, val).Keys;
      GroupByCount(init, key, val, ks);
      assert key(last) in GroupBy(xs, key, val);
      SumSizesPush(g, ks, key(last), val(last));
    }
  }

  lemma {:induction false} SumSizesOfEmpty<K, V>(g: map<K, seq<V>>, ks: seq<K>)
    requires g == map[]
    ensures SumSizes(g, ks) == 0
  {
    if |ks| > 0 { SumSizesOfEmpty(g, ks[1..]); }
  }
}
