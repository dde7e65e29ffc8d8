/** Label extraction: the distinct non-zero integer identifiers of the
    identifier volume (mask1), in ascending order. */
module Labels {

  /** Conversion of a float64 voxel to int64: truncation toward zero. */
  function Trunc(x: real): (r: int)
    ensures 0.0 <= x ==> 0 <= r && r as real <= x < r as real + 1.0
    ensures x < 0.0 ==> r <= 0 && r as real - 1.0 < x <= r as real
  {
    if x >= 0.0 then x.Floor else -((-x).Floor)
  }

  /** The whole identifier volume, flattened and truncated. */
  function TruncAll(m1: seq<real>): (r: seq<int>)
    ensures |r| == |m1|
    ensures forall i :: 0 <= i < |m1| ==> r[i] == Trunc(m1[i])
  {
    seq(|m1|, i requires 0 <= i < |m1| => Trunc(m1[i]))
  }

  predicate StrictlyAscending(s: seq<int>)
  {
    forall i, j :: 0 <= i < j < |s| ==> s[i] < s[j]
  }

  /** What the assigner relies on: strictly ascending and free of the background value 0. */
  predicate IsLabelSeq(labels: seq<int>)
  {
    StrictlyAscending(labels) && 0 !in labels
  }

  /** Prepending a value below every element keeps a sequence strictly ascending. */
  lemma PrependAscending(x: int, t: seq<int>)
    requires StrictlyAscending(t)
    requires forall y :: y in t ==> x < y
    ensures StrictlyAscending([x] + t)
  {
    var r := [x] + t;
    forall i, j | 0 <= i < j < |r| ensures r[i] < r[j] {
      assert r[j] == t[j - 1] && t[j - 1] in t;
      if i > 0 { assert r[i] == t[i - 1]; }
    }
  }

  /** The tail of a strictly ascending sequence lies strictly above its head. */
  lemma TailAbove(s: seq<int>)
    requires StrictlyAscending(s) && s != []
    ensures StrictlyAscending(s[1..])
    ensures forall x :: x in s[1..] ==> s[0] < x
  {
    forall x | x in s[1..] ensures s[0] < x {
      var m :| 0 <= m < |s[1..]| && s[1..][m] == x;
      assert s[m + 1] == x;
    }
  }

  /** Inserts v into a strictly ascending sequence, keeping it strictly ascending. */
  function InsertUnique(s: seq<int>, v: int): (r: seq<int>)
    requires StrictlyAscending(s)
    ensures StrictlyAscending(r)
    ensures forall x :: x in r <==> x in s || x == v
  {
    if s == [] then [v]
    else if v < s[0] then
      TailAbove(s);
      PrependAscending(v, s);
      [v] + s
    else if v == s[0] then s
    else
      TailAbove(s);
      var t := InsertUnique(s[1..], v);
      assert s == [s[0]] + s[1..];
      PrependAscending(s[0], t);
      [s[0]] + t
  }

  /** np.unique: the distinct values, ascending. */
  function Unique(xs: seq<int>): (r: seq<int>)
    ensures StrictlyAscending(r)
    ensures forall x :: x in r <==> x in xs
  {
    if xs == [] then []
    else
      var init := xs[..|xs| - 1];
      assert xs == init + [xs[|xs| - 1]];
      InsertUnique(Unique(init), xs[|xs| - 1])
  }

  /** labels[labels != 0]: keeps the order, drops the background value. */
  function DropZero(s: seq<int>): (r: seq<int>)
    ensures forall x :: x in r <==> x in s && x != 0
  {
    if s == [] then []
    else
      assert s == [s[0]] + s[1..];
      if s[0] == 0 then DropZero(s[1..]) else [s[0]] + DropZero(s[1..])
  }

  /** Dropping the background value from a strictly ascending sequence leaves
      it strictly ascending. */
  lemma {:induction false} DropZeroAscending(s: seq<int>)
    requires StrictlyAscending(s)
    ensures StrictlyAscending(DropZero(s))
  {
    if s != [] {
      TailAbove(s);
      DropZeroAscending(s[1..]);
      if s[0] != 0 {
        PrependAscending(s[0], DropZero(s[1..]));
      }
    }
  }

  /** Lines 53-55. The final np.sort is the identity on a strictly ascending
      sequence, so it is not repeated here. */
  function Labels(m1: seq<real>): (labels: seq<int>)
    ensures IsLabelSeq(labels)
    ensures forall l :: l in labels <==> l != 0 && exists i :: 0 <= i < |m1| && Trunc(m1[i]) == l
  {
    var ints := TruncAll(m1);
    assert forall l :: l in ints <==> exists i :: 0 <= i < |m1| && Trunc(m1[i]) == l by {
      forall l ensures l in ints <==> exists i :: 0 <= i < |m1| && Trunc(m1[i]) == l {
        if exists i :: 0 <= i < |m1| && Trunc(m1[i]) == l {
          var i :| 0 <= i < |m1| && Trunc(m1[i]) == l;
          assert ints[i] == l;
        }
      }
    }
    DropZeroAscending(Unique(ints));
    DropZero(Unique(ints))
  }
}
