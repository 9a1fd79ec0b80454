/**
 * Ordering by a numeric key, largest first: the result of MongoDB's
 * `.sort({ createdAt: -1 })` and of `Array.prototype.sort((a, b) => key(b) - key(a))`.
 * The reference sort is a stable insertion sort; only "non-increasing and a
 * permutation" is promised to callers.
 */
module Sorting {
  import Seqs

  predicate SortedDesc<T>(s: seq<T>, key: T -> int) {
    forall i, j | 0 <= i < j < |s| :: key(s[i]) >= key(s[j])
  }

  /** A sorted sequence stays sorted with a head at least its first key. */
  lemma ConsSorted<T>(h: T, t: seq<T>, key: T -> int)
    requires SortedDesc(t, key) && (t == [] || key(h) >= key(t[0]))
    ensures SortedDesc([h] + t, key)
  {
    var r := [h] + t;
    forall i, j | 0 <= i < j < |r| ensures key(r[i]) >= key(r[j]) {
      assert r[j] == t[j - 1];
      if i > 0 {
        assert r[i] == t[i - 1];
      } else if j > 1 {
        assert key(t[0]) >= key(t[j - 1]);
      }
    }
  }

  lemma TailSorted<T>(s: seq<T>, key: T -> int)
    requires s != [] && SortedDesc(s, key)
    ensures SortedDesc(s[1..], key)
    ensures |s| > 1 ==> key(s[0]) >= key(s[1..][0])
  {
    forall i, j | 0 <= i < j < |s| - 1 ensures key(s[1..][i]) >= key(s[1..][j]) {
      assert s[1..][i] == s[i + 1] && s[1..][j] == s[j + 1];
    }
  }

  /** Places `x` before the first element whose key is not larger than its own. */
  function Insert<T>(x: T, s: seq<T>, key: T -> int): (r: seq<T>)
    requires SortedDesc(s, key)
    ensures multiset(r) == multiset(s) + multiset{x}
    ensures |r| == |s| + 1
    ensures SortedDesc(r, key)
    ensures r[0] == x || (s != [] && r[0] == s[0])
  {
    if s == [] || key(s[0]) <= key(x) then
      ConsSorted(x, s, key);
      [x] + s
    else
      TailSorted(s, key);
      var tail := Insert(x, s[1..], key);
      assert key(s[0]) >= key(tail[0]);
      ConsSorted(s[0], tail, key);
      assert s == [s[0]] + s[1..];
      [s[0]] + tail
  }

  function SortDesc<T>(s: seq<T>, key: T -> int): (r: seq<T>)
    ensures multiset(r) == multiset(s)
    ensures |r| == |s|
    ensures SortedDesc(r, key)
  {
    if s == [] then []
    else
      assert s == [s[0]] + s[1..];
      Insert(s[0], SortDesc(s[1..], key), key)
  }

  /** Sorting the elements that pass `p` keeps exactly those elements. */
  lemma FilterSortSpec<T>(xs: seq<T>, p: T -> bool, key: T -> int)
    ensures var r := SortDesc(Seqs.Filter(xs, p), key);
      && multiset(r) == multiset(Seqs.Filter(xs, p))
      && SortedDesc(r, key)
      && (forall i | 0 <= i < |r| :: r[i] in xs && p(r[i]))
      && (forall x | x in xs && p(x) :: x in r)
  {
    var m := Seqs.Filter(xs, p);
    var r := SortDesc(m, key);
    forall i | 0 <= i < |r| ensures r[i] in xs && p(r[i]) {
      assert r[i] in multiset(r);
      assert r[i] in m;
    }
    forall x | x in xs && p(x) ensures x in r {
      assert x in m;
      assert x in multiset(m);
    }
  }
}
