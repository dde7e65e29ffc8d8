/** The sorted index of the value volume (mask2): `order = argsort(flat)` and
    `flat_sorted = flat[order]`. */
module SortedIndex {

  /** The flat positions 0, 1, ..., n-1 in order. */
  function Indices(n: nat): (r: seq<int>)
    ensures |r| == n
    ensures forall k :: 0 <= k < n ==> r[k] == k
  {
    if n == 0 then [] else Indices(n - 1) + [n - 1]
  }

  predicate InRange(order: seq<int>, n: nat)
  {
    forall k :: 0 <= k < |order| ==> 0 <= order[k] < n
  }

  /** order lists every position 0..n-1 exactly once. */
  predicate IsPermutation(order: seq<int>, n: nat)
  {
    multiset(order) == multiset(Indices(n))
  }

  /** The positions listed by order have non-decreasing values in flat. */
  predicate SortedBy(flat: seq<real>, order: seq<int>)
    requires InRange(order, |flat|)
  {
    forall i, j :: 0 <= i < j < |order| ==> flat[order[i]] <= flat[order[j]]
  }

  /** What np.argsort promises about its result, without fixing how equal
      values are ordered. */
  predicate IsSortingPermutation(flat: seq<real>, order: seq<int>)
  {
    |order| == |flat| && InRange(order, |flat|) && IsPermutation(order, |flat|) && SortedBy(flat, order)
  }

  predicate NonDecreasing(s: seq<real>)
  {
    forall i, j :: 0 <= i < j < |s| ==> s[i] <= s[j]
  }

  /** flat[order]: the values read through the index. */
  function Gather(flat: seq<real>, order: seq<int>): (r: seq<real>)
    requires InRange(order, |flat|)
  {
    seq(|order|, k requires 0 <= k < |order| => flat[order[k]])
  }

  /** A sorting permutation has length n, and every position of flat occurs in it. */
  lemma PermutationCovers(order: seq<int>, n: nat)
    requires IsPermutation(order, n)
    ensures |order| == n
    ensures InRange(order, n)
    ensures forall i :: 0 <= i < n ==> i in order
  {
    calc {
      |order|;
      |multiset(order)|;
      |multiset(Indices(n))|;
      n;
    }
    forall k | 0 <= k < |order| ensures 0 <= order[k] < n {
      assert order[k] in multiset(Indices(n));
    }
    forall i | 0 <= i < n ensures i in order {
      assert Indices(n)[i] == i;
      assert i in multiset(Indices(n));
    }
  }

  /** flat_sorted is non-decreasing, has flat's length, holds flat[order[k]] at
      slot k, and every position of flat is reached through some slot. */
  lemma GatherSorted(flat: seq<real>, order: seq<int>)
    requires IsSortingPermutation(flat, order)
    ensures |Gather(flat, order)| == |flat|
    ensures forall k :: 0 <= k < |order| ==> Gather(flat, order)[k] == flat[order[k]]
    ensures NonDecreasing(Gather(flat, order))
    ensures forall i :: 0 <= i < |flat| ==> i in order
  {
    PermutationCovers(order, |flat|);
  }

  /** Prepending a position whose value is at most every listed value keeps the order sorted. */
  lemma PrependSorted(flat: seq<real>, x: int, t: seq<int>)
    requires InRange(t, |flat|) && 0 <= x < |flat| && SortedBy(flat, t)
    requires forall j :: 0 <= j < |t| ==> flat[x] <= flat[t[j]]
    ensures InRange([x] + t, |flat|) && SortedBy(flat, [x] + t)
  {
    var r := [x] + t;
    forall i, j | 0 <= i < j < |r| ensures flat[r[i]] <= flat[r[j]] {
      assert r[j] == t[j - 1];
      if i > 0 { assert r[i] == t[i - 1]; }
    }
  }

  /** Every position in t is idx or one listed after the head of order, so a
      head no larger than flat[idx] is no larger than any value t lists. */
  lemma HeadBelowAll(flat: seq<real>, order: seq<int>, idx: int, t: seq<int>)
    requires InRange(order, |flat|) && order != [] && SortedBy(flat, order)
    requires 0 <= idx < |flat| && flat[order[0]] <= flat[idx]
    requires InRange(t, |flat|) && multiset(t) == multiset(order[1..]) + multiset{idx}
    ensures forall j :: 0 <= j < |t| ==> flat[order[0]] <= flat[t[j]]
  {
    forall j | 0 <= j < |t| ensures flat[order[0]] <= flat[t[j]] {
      assert t[j] in multiset(t);
      if t[j] != idx {
        assert t[j] in multiset(order[1..]);
        var m :| 0 <= m < |order[1..]| && order[1..][m] == t[j];
        assert order[m + 1] == t[j];
      }
    }
  }

  /** One step of a stable insertion sort of positions by value: idx goes
      after every position whose value is not larger. */
  function InsertByValue(flat: seq<real>, order: seq<int>, idx: int): (r: seq<int>)
    requires InRange(order, |flat|) && 0 <= idx < |flat|
    requires SortedBy(flat, order)
    ensures |r| == |order| + 1 && InRange(r, |flat|)
    ensures multiset(r) == multiset(order) + multiset{idx}
    ensures SortedBy(flat, r)
  {
    if order == [] then [idx]
    else if flat[idx] < flat[order[0]] then
      PrependSorted(flat, idx, order);
      [idx] + order
    else
      var t := InsertByValue(flat, order[1..], idx);
      assert order == [order[0]] + order[1..];
      assert multiset(order) == multiset{order[0]} + multiset(order[1..]);
      assert multiset([order[0]] + t) == multiset{order[0]} + multiset(t);
      HeadBelowAll(flat, order, idx, t);
      PrependSorted(flat, order[0], t);
      [order[0]] + t
  }

  /** Sorts the positions 0..m-1 of flat by value. */
  function ArgSortPrefix(flat: seq<real>, m: nat): (order: seq<int>)
    requires m <= |flat|
    ensures |order| == m && InRange(order, |flat|)
    ensures multiset(order) == multiset(Indices(m))
    ensures SortedBy(flat, order)
  {
    if m == 0 then []
    else
      var prev := ArgSortPrefix(flat, m - 1);
      assert multiset(Indices(m)) == multiset(Indices(m - 1)) + multiset{m - 1} by {
        assert Indices(m) == Indices(m - 1) + [m - 1];
      }
      InsertByValue(flat, prev, m - 1)
  }

  /** Line 61, order = np.argsort(flat): one sorting permutation (the stable one).
      The assigner accepts any sorting permutation, as numpy's default sort is not stable. */
  function ArgSort(flat: seq<real>): (order: seq<int>)
    ensures IsSortingPermutation(flat, order)
  {
    ArgSortPrefix(flat, |flat|)
  }
}
