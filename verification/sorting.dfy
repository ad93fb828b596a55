/**
 * `Array.prototype.sort` with the repository's comparator: the items are
 * ordered by a string key, ascending or (by negating the comparison)
 * descending. The sort used here is insertion sort, which, like the
 * engine's sort, is stable.
 */
module Sorting {
  import opened Text

  /**
   * `a` may stand before `b` in the output: the comparator
   * `asc ? compare(a, b) : -compare(a, b)` is not positive.
   */
  predicate InOrder<T>(key: T -> string, desc: bool, a: T, b: T) {
    if desc then LexLe(key(b), key(a)) else LexLe(key(a), key(b))
  }

  ghost predicate Sorted<T>(key: T -> string, desc: bool, s: seq<T>) {
    forall i, j | 0 <= i < j < |s| :: InOrder(key, desc, s[i], s[j])
  }

  lemma InOrderTotal<T>(key: T -> string, desc: bool, a: T, b: T)
    ensures InOrder(key, desc, a, b) || InOrder(key, desc, b, a)
  {
    LexLeTotal(key(a), key(b));
  }

  lemma InOrderTransitive<T>(key: T -> string, desc: bool, a: T, b: T, c: T)
    requires InOrder(key, desc, a, b) && InOrder(key, desc, b, c)
    ensures InOrder(key, desc, a, c)
  {
    if desc { LexLeTransitive(key(c), key(b), key(a)); }
    else { LexLeTransitive(key(a), key(b), key(c)); }
  }

  /** `x` may stand before every element of the sorted `s` once it may stand before the first. */
  lemma HeadBound<T>(key: T -> string, desc: bool, x: T, s: seq<T>)
    requires Sorted(key, desc, s) && |s| > 0 && InOrder(key, desc, x, s[0])
    ensures forall j | 0 <= j < |s| :: InOrder(key, desc, x, s[j])
  {
    forall j | 0 < j < |s| ensures InOrder(key, desc, x, s[j]) {
      InOrderTransitive(key, desc, x, s[0], s[j]);
    }
  }

  /** Insert `x` into the sorted `s` just before the first element it may precede. */
  function Insert<T>(key: T -> string, desc: bool, x: T, s: seq<T>): (r: seq<T>)
    requires Sorted(key, desc, s)
    ensures multiset(r) == multiset(s) + multiset{x}
    ensures Sorted(key, desc, r)
  {
    if |s| == 0 then [x]
    else if InOrder(key, desc, x, s[0]) then
      HeadBound(key, desc, x, s);
      [x] + s
    else
      InOrderTotal(key, desc, x, s[0]);
      var rest := Insert(key, desc, x, s[1..]);
      assert s == [s[0]] + s[1..];
      InsertBound(key, desc, x, s, rest);
      [s[0]] + rest
  }

  lemma InsertBound<T>(key: T -> string, desc: bool, x: T, s: seq<T>, rest: seq<T>)
    requires Sorted(key, desc, s) && |s| > 0 && InOrder(key, desc, s[0], x)
    requires multiset(rest) == multiset(s[1..]) + multiset{x}
    ensures forall j | 0 <= j < |rest| :: InOrder(key, desc, s[0], rest[j])
  {
    forall j | 0 <= j < |rest| ensures InOrder(key, desc, s[0], rest[j]) {
      assert rest[j] in multiset(rest);
      if rest[j] != x {
        assert rest[j] in multiset(s[1..]);
        var k :| 0 <= k < |s[1..]| && s[1..][k] == rest[j];
        assert s[k + 1] == rest[j];
      }
    }
  }

  /** The output is an ordered permutation of the input. */
  function SortBy<T>(key: T -> string, desc: bool, s: seq<T>): (r: seq<T>)
    ensures multiset(r) == multiset(s)
    ensures Sorted(key, desc, r)
  {
    if |s| == 0 then []
    else
      assert s == [s[0]] + s[1..];
      Insert(key, desc, s[0], SortBy(key, desc, s[1..]))
  }
}
