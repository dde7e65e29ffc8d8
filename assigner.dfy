/** The nearest-value assigner: for each label, in ascending order, the voxel of
    the value volume whose value is closest to it, with conflicts between labels
    resolved through a ledger of best distances (the loop of lines 71-95). */
module Assigner {
  import opened Wrappers
  import opened SortedIndex
  import Labels

  function Abs(x: real): (r: real)
    ensures 0.0 <= r && (r == x || r == -x)
  {
    if x < 0.0 then -x else x
  }

  /** abs(v - l): how far a voxel value is from a label. */
  function Dist(v: real, l: int): real
  {
    Abs(v - l as real)
  }

  /** Voxel c of flat holds a value closest to label l over the whole volume. */
  ghost predicate IsNearest(flat: seq<real>, l: int, c: int)
  {
    0 <= c < |flat| && forall i :: 0 <= i < |flat| ==> Dist(flat[c], l) <= Dist(flat[i], l)
  }

  /** `d < e` where the ledger entry e is None for +infinity. */
  predicate Below(d: real, e: Option<real>)
  {
    e.None? || d < e.value
  }

  /** `a <= b` on ledger entries, None being +infinity. */
  predicate AtMost(a: Option<real>, b: Option<real>)
  {
    b.None? || (a.Some? && a.value <= b.value)
  }

  // ---------------------------------------------------------------------------
  // Line 72: np.searchsorted(flat_sorted, l), side 'left'.

  /** The insertion point of x: every slot before it holds a value below x,
      every slot from it on a value at least x. */
  method SearchSorted(sorted: seq<real>, x: real) returns (pos: nat)
    requires NonDecreasing(sorted)
    ensures pos <= |sorted|
    ensures forall i :: 0 <= i < pos ==> sorted[i] < x
    ensures forall i :: pos <= i < |sorted| ==> x <= sorted[i]
    ensures pos == LeftInsertionPoint(sorted, x)
  {
    var lo, hi := 0, |sorted|;
    while lo < hi
      invariant 0 <= lo <= hi <= |sorted|
      invariant forall i :: 0 <= i < lo ==> sorted[i] < x
      invariant forall i :: hi <= i < |sorted| ==> x <= sorted[i]
    {
      var mid := (lo + hi) / 2;
      if sorted[mid] < x {
        lo := mid + 1;
      } else {
        hi := mid;
      }
    }
    pos := lo;
    InsertionPointUnique(sorted, x, pos, LeftInsertionPoint(sorted, x));
  }

  /** In a sorted sequence, the two neighbours of the insertion point of l are
      together at least as close to l as any slot: slots from pos on are no closer
      than slot pos, slots before pos no closer than slot pos - 1. */
  lemma TwoNeighboursSuffice(sorted: seq<real>, l: int, pos: nat, i: int)
    requires NonDecreasing(sorted) && pos <= |sorted| && 0 <= i < |sorted|
    requires forall j :: 0 <= j < pos ==> sorted[j] < l as real
    requires forall j :: pos <= j < |sorted| ==> l as real <= sorted[j]
    ensures pos <= i ==> Dist(sorted[pos], l) <= Dist(sorted[i], l)
    ensures i < pos ==> Dist(sorted[pos - 1], l) <= Dist(sorted[i], l)
  {
  }

  /** p is where x would be inserted on the left: the slot before p holds a
      value below x and the slot at p a value at least x. */
  predicate IsInsertionPoint(sorted: seq<real>, x: real, p: int)
  {
    0 <= p <= |sorted| && (p == 0 || sorted[p - 1] < x) && (p == |sorted| || x <= sorted[p])
  }

  /** The first slot whose value is at least x (|sorted| if there is none):
      numpy.searchsorted with side 'left', read as a linear scan. */
  function LeftInsertionPoint(sorted: seq<real>, x: real): (p: nat)
    ensures IsInsertionPoint(sorted, x, p)
    ensures forall i :: 0 <= i < p ==> sorted[i] < x
  {
    if sorted == [] || x <= sorted[0] then 0
    else 1 + LeftInsertionPoint(sorted[1..], x)
  }

  /** Slot s is the insertion point of l and the slot before it is not strictly closer. */
  predicate AtInsertionPoint(sorted: seq<real>, l: int, s: int)
  {
    IsInsertionPoint(sorted, l as real, s) && s < |sorted| &&
    (s == 0 || Dist(sorted[s], l) <= Dist(sorted[s - 1], l))
  }

  /** Slot s is just before the insertion point of l and strictly closer than the slot at it. */
  predicate BeforeInsertionPoint(sorted: seq<real>, l: int, s: int)
  {
    0 <= s && IsInsertionPoint(sorted, l as real, s + 1) &&
    (s + 1 == |sorted| || Dist(sorted[s], l) < Dist(sorted[s + 1], l))
  }

  /** The slot of flat_sorted that lines 72-88 pick for label l. */
  predicate NearestSlot(sorted: seq<real>, l: int, s: int)
  {
    0 <= s < |sorted| && (AtInsertionPoint(sorted, l, s) || BeforeInsertionPoint(sorted, l, s))
  }

  /** A sorted sequence has one left insertion point per value. */
  lemma InsertionPointUnique(sorted: seq<real>, x: real, p: int, q: int)
    requires NonDecreasing(sorted)
    requires IsInsertionPoint(sorted, x, p) && IsInsertionPoint(sorted, x, q)
    ensures p == q
  {
  }

  /** On sorted values the slot rule picks exactly one slot per label. */
  lemma NearestSlotUnique(sorted: seq<real>, l: int, s1: int, s2: int)
    requires NonDecreasing(sorted)
    requires NearestSlot(sorted, l, s1) && NearestSlot(sorted, l, s2)
    ensures s1 == s2
  {
    var x := l as real;
    if AtInsertionPoint(sorted, l, s1) && AtInsertionPoint(sorted, l, s2) {
      InsertionPointUnique(sorted, x, s1, s2);
    } else if BeforeInsertionPoint(sorted, l, s1) && BeforeInsertionPoint(sorted, l, s2) {
      InsertionPointUnique(sorted, x, s1 + 1, s2 + 1);
    } else if AtInsertionPoint(sorted, l, s1) {
      InsertionPointUnique(sorted, x, s1, s2 + 1);
    } else {
      InsertionPointUnique(sorted, x, s1 + 1, s2);
    }
  }

  /** Lines 72-88 as a value: the insertion point pos of l, unless that is past
      the end or pos - 1 is strictly closer, in which case pos - 1. */
  function SlotOf(sorted: seq<real>, l: int): (s: int)
    requires |sorted| > 0
    ensures NearestSlot(sorted, l, s)
  {
    var p := LeftInsertionPoint(sorted, l as real);
    if p == |sorted| || (0 < p && Dist(sorted[p - 1], l) < Dist(sorted[p], l)) then p - 1 else p
  }

  /** On sorted values the slot rule picks a slot of smallest distance to l. */
  lemma NearestSlotMinimal(sorted: seq<real>, l: int, s: int)
    requires NonDecreasing(sorted) && NearestSlot(sorted, l, s)
    ensures forall i :: 0 <= i < |sorted| ==> Dist(sorted[s], l) <= Dist(sorted[i], l)
  {
    var p := if AtInsertionPoint(sorted, l, s) then s else s + 1;
    assert IsInsertionPoint(sorted, l as real, p);
    forall i | 0 <= i < |sorted| ensures Dist(sorted[s], l) <= Dist(sorted[i], l) {
      assert forall j :: 0 <= j < p ==> sorted[j] < l as real by {
        forall j | 0 <= j < p ensures sorted[j] < l as real {
          assert sorted[j] <= sorted[p - 1];
        }
      }
      assert forall j :: p <= j < |sorted| ==> l as real <= sorted[j] by {
        forall j | p <= j < |sorted| ensures l as real <= sorted[j] {
          assert sorted[p] <= sorted[j];
        }
      }
      TwoNeighboursSuffice(sorted, l, p, i);
    }
  }

  // ---------------------------------------------------------------------------
  // Lines 72-88: the candidates pos and pos - 1 and the closer of the two.

  /** The slot of flat_sorted that label l picks. best is pos (the first value
      at least l) unless pos - 1 is strictly closer; its distance is the
      smallest over all slots. */
  method Nearest(sorted: seq<real>, l: int) returns (pos: nat, best: nat, bestD: real)
    requires NonDecreasing(sorted) && |sorted| > 0
    ensures pos <= |sorted|
    ensures forall j :: 0 <= j < pos ==> sorted[j] < l as real
    ensures forall j :: pos <= j < |sorted| ==> l as real <= sorted[j]
    ensures pos == LeftInsertionPoint(sorted, l as real)
    ensures best < |sorted| && best == SlotOf(sorted, l) && NearestSlot(sorted, l, best)
    ensures bestD == Dist(sorted[best], l)
    ensures forall i :: 0 <= i < |sorted| ==> bestD <= Dist(sorted[i], l)
  {
    pos := SearchSorted(sorted, l as real);
    var cand: seq<nat> := [];
    if pos < |sorted| {
      cand := cand + [pos];
    }
    if pos > 0 {
      cand := cand + [pos - 1];
    }
    ghost var w;
    best, bestD, w := FirstClosest(sorted, l, cand);
    if 0 < pos && pos < |sorted| {
      assert cand == [pos, pos - 1];
      if w == 0 {
        assert bestD <= Dist(sorted[cand[1]], l);
      } else {
        assert bestD < Dist(sorted[cand[0]], l);
      }
    } else if pos < |sorted| {
      assert cand == [pos];
    } else {
      assert cand == [pos - 1];
    }
    TieRule(sorted, l, pos, best);
    NearestSlotMinimal(sorted, l, best);
  }

  /** Lines 80-88: best_idx starts as None and best_dist as infinity, and a
      candidate replaces them only when strictly closer. The result is the
      first candidate cand[w] of smallest distance to l. */
  method FirstClosest(sorted: seq<real>, l: int, cand: seq<nat>) returns (best: nat, bestD: real, ghost w: nat)
    requires 0 < |cand| && forall j :: 0 <= j < |cand| ==> cand[j] < |sorted|
    ensures w < |cand| && best == cand[w] && bestD == Dist(sorted[best], l)
    ensures forall j :: 0 <= j < |cand| ==> bestD <= Dist(sorted[cand[j]], l)
    ensures forall j :: 0 <= j < w ==> bestD < Dist(sorted[cand[j]], l)
  {
    var bestPos: Option<nat> := None;
    var bestDist: Option<real> := None;
    w := 0;
    for c := 0 to |cand|
      invariant bestPos.Some? <==> 0 < c
      invariant bestDist.Some? <==> 0 < c
      invariant 0 < c ==> w < c && bestPos.value == cand[w] && bestDist.value == Dist(sorted[cand[w]], l)
      invariant 0 < c ==> forall j :: 0 <= j < c ==> bestDist.value <= Dist(sorted[cand[j]], l)
      invariant 0 < c ==> forall j :: 0 <= j < w ==> bestDist.value < Dist(sorted[cand[j]], l)
    {
      var p := cand[c];
      var d := Dist(sorted[p], l);
      if bestDist.None? || d < bestDist.value {
        bestDist := Some(d);
        bestPos := Some(p);
        w := c;
      }
    }
    best, bestD := bestPos.value, bestDist.value;
  }

  /** The choice between the candidates pos and pos - 1 is SlotOf's: pos - 1
      only when pos is past the end or pos - 1 is strictly closer. */
  lemma TieRule(sorted: seq<real>, l: int, pos: nat, best: nat)
    requires |sorted| > 0 && pos == LeftInsertionPoint(sorted, l as real)
    requires best < |sorted| && (best == pos || best + 1 == pos)
    requires best + 1 == pos && pos < |sorted| ==> Dist(sorted[best], l) < Dist(sorted[pos], l)
    requires best == pos && 0 < pos ==> Dist(sorted[pos], l) <= Dist(sorted[pos - 1], l)
    ensures best == SlotOf(sorted, l)
  {
  }

  // ---------------------------------------------------------------------------
  // Lines 89-95: conflict resolution at the chosen voxel.

  /** Writes label l with distance d at cell only if d is strictly below the
      ledger entry there; nothing else changes, and no ledger entry grows. */
  method Resolve(mask3: array<int>, ledger: array<Option<real>>, cell: nat, l: int, d: real)
    requires cell < mask3.Length && mask3.Length == ledger.Length
    modifies mask3, ledger
    ensures Below(d, old(ledger[cell])) ==>
      mask3[..] == old(mask3[..])[cell := l] && ledger[..] == old(ledger[..])[cell := Some(d)]
    ensures !Below(d, old(ledger[cell])) ==>
      mask3[..] == old(mask3[..]) && ledger[..] == old(ledger[..])
    ensures forall i :: 0 <= i < ledger.Length ==> AtMost(ledger[i], old(ledger[i]))
  {
    if Below(d, ledger[cell]) {
      mask3[cell] := l;
      ledger[cell] := Some(d);
    }
  }

  // ---------------------------------------------------------------------------
  // The state of the label loop.

  /** The number of voxels that carry a label. */
  function CountNonZero(m: seq<int>): (r: nat)
    ensures r <= |m|
  {
    if m == [] then 0 else (if m[0] != 0 then 1 else 0) + CountNonZero(m[1..])
  }

  /** Writing one voxel adds at most one labelled voxel. */
  lemma {:induction false} CountAfterWrite(m: seq<int>, i: nat, v: int)
    requires i < |m|
    ensures CountNonZero(m[i := v]) <= CountNonZero(m) + 1
  {
    if i == 0 {
      assert m[i := v][1..] == m[1..];
    } else {
      assert m[i := v][1..] == m[1..][i - 1 := v];
      CountAfterWrite(m[1..], i - 1, v);
    }
  }

  /** A voxel carries a label exactly when its ledger entry is finite, and the
      entry is then the distance from the voxel's value to that label. */
  ghost predicate LedgerTracksMask(flat: seq<real>, m: seq<int>, led: seq<Option<real>>)
  {
    |m| == |flat| && |led| == |flat| &&
    forall i :: 0 <= i < |flat| ==>
      (m[i] != 0 <==> led[i].Some?) && (led[i].Some? ==> led[i].value == Dist(flat[i], m[i]))
  }

  /** Each of the first k labels picked a voxel nearest to it. */
  ghost predicate ChosenNearest(labels: seq<int>, flat: seq<real>, k: nat, chosen: seq<int>)
    requires k <= |labels| && |chosen| == k
  {
    forall j :: 0 <= j < k ==> IsNearest(flat, labels[j], chosen[j])
  }

  /** Labelled voxels carry one of the first k labels. */
  ghost predicate HoldsProcessed(labels: seq<int>, k: nat, m: seq<int>)
    requires k <= |labels|
  {
    forall i :: 0 <= i < |m| && m[i] != 0 ==> m[i] in labels[..k]
  }

  /** A label among the first k is found only at the voxel it picked. */
  ghost predicate PlacedAtChosen(labels: seq<int>, k: nat, chosen: seq<int>, m: seq<int>)
    requires k <= |labels| && |chosen| == k
  {
    forall j, i :: 0 <= j < k && 0 <= i < |m| && m[i] == labels[j] ==> i == chosen[j]
  }

  /** The ledger at each picked voxel is finite and at most the picking label's distance. */
  ghost predicate LedgerBounds(labels: seq<int>, flat: seq<real>, k: nat, chosen: seq<int>,
                               led: seq<Option<real>>)
    requires k <= |labels| && |chosen| == k && |led| == |flat|
    requires ChosenNearest(labels, flat, k, chosen)
  {
    forall j :: 0 <= j < k ==> AtMost(led[chosen[j]], Some(Dist(flat[chosen[j]], labels[j])))
  }

  /** A label holds the voxel another label picked only with a distance no
      larger, and strictly smaller if it came later. */
  ghost predicate WinnersCloser(labels: seq<int>, flat: seq<real>, k: nat, chosen: seq<int>, m: seq<int>)
    requires k <= |labels| && |chosen| == k && |m| == |flat|
    requires ChosenNearest(labels, flat, k, chosen)
  {
    forall j, j' :: 0 <= j < k && 0 <= j' < k && m[chosen[j]] == labels[j'] ==>
      && Dist(flat[chosen[j']], labels[j']) <= Dist(flat[chosen[j]], labels[j])
      && (j < j' ==> Dist(flat[chosen[j']], labels[j']) < Dist(flat[chosen[j]], labels[j]))
  }

  /** The invariant of the label loop after the first k labels, chosen[j] being
      the voxel label j picked. */
  ghost predicate AssignInv(labels: seq<int>, flat: seq<real>, k: nat, chosen: seq<int>,
                            m: seq<int>, led: seq<Option<real>>)
  {
    && k <= |labels| && |chosen| == k
    && LedgerTracksMask(flat, m, led)
    && ChosenNearest(labels, flat, k, chosen)
    && HoldsProcessed(labels, k, m)
    && PlacedAtChosen(labels, k, chosen, m)
    && LedgerBounds(labels, flat, k, chosen, led)
    && WinnersCloser(labels, flat, k, chosen, m)
    && CountNonZero(m) <= k
  }

  /** The loop invariant holds before the first label. */
  lemma InitInv(labels: seq<int>, flat: seq<real>)
    ensures AssignInv(labels, flat, 0, [], seq(|flat|, _ => 0), seq(|flat|, _ => None))
  {
    var m: seq<int> := seq(|flat|, _ => 0);
    assert forall i :: 0 <= i < |m| ==> m[i] == 0;
    ZeroCount(m);
  }

  lemma {:induction false} ZeroCount(m: seq<int>)
    requires forall i :: 0 <= i < |m| ==> m[i] == 0
    ensures CountNonZero(m) == 0
  {
    if m != [] {
      ZeroCount(m[1..]);
    }
  }

  /** A processed label is strictly below label k, so label k is not yet placed. */
  lemma NotYetPlaced(labels: seq<int>, k: nat, m: seq<int>)
    requires Labels.IsLabelSeq(labels) && k < |labels|
    requires HoldsProcessed(labels, k, m)
    ensures forall i :: 0 <= i < |m| ==> m[i] != labels[k]
  {
    forall i | 0 <= i < |m| ensures m[i] != labels[k] {
      if m[i] != 0 {
        assert m[i] in labels[..k];
        var j :| 0 <= j < k && labels[..k][j] == m[i];
        assert labels[j] < labels[k];
      } else {
        assert labels[k] in labels;
      }
    }
  }

  lemma ExtendNearest(labels: seq<int>, flat: seq<real>, k: nat, chosen: seq<int>, c: int)
    requires k < |labels| && |chosen| == k
    requires ChosenNearest(labels, flat, k, chosen) && IsNearest(flat, labels[k], c)
    ensures ChosenNearest(labels, flat, k + 1, chosen + [c])
  {
    var chosen' := chosen + [c];
    forall j | 0 <= j < k + 1 ensures IsNearest(flat, labels[j], chosen'[j]) {
      if j < k { assert chosen'[j] == chosen[j]; }
    }
  }

  lemma ExtendHolds(labels: seq<int>, k: nat, m: seq<int>, c: int)
    requires k < |labels| && 0 <= c < |m|
    requires HoldsProcessed(labels, k, m)
    ensures HoldsProcessed(labels, k + 1, m)
    ensures HoldsProcessed(labels, k + 1, m[c := labels[k]])
  {
    assert labels[..k + 1] == labels[..k] + [labels[k]];
    var m' := m[c := labels[k]];
    forall i | 0 <= i < |m'| && m'[i] != 0 ensures m'[i] in labels[..k + 1] {
      if i != c { assert m'[i] == m[i] && m[i] in labels[..k]; }
    }
  }

  lemma WinsPlaced(labels: seq<int>, k: nat, chosen: seq<int>, m: seq<int>, c: int)
    requires Labels.IsLabelSeq(labels) && k < |labels| && |chosen| == k && 0 <= c < |m|
    requires HoldsProcessed(labels, k, m) && PlacedAtChosen(labels, k, chosen, m)
    ensures PlacedAtChosen(labels, k + 1, chosen + [c], m[c := labels[k]])
  {
    var l, m', chosen' := labels[k], m[c := labels[k]], chosen + [c];
    NotYetPlaced(labels, k, m);
    forall j, i | 0 <= j < k + 1 && 0 <= i < |m'| && m'[i] == labels[j]
      ensures i == chosen'[j]
    {
      if j < k {
        assert chosen'[j] == chosen[j];
        assert labels[j] < l;
        assert i != c && m[i] == labels[j];
      }
    }
  }

  lemma LosesPlaced(labels: seq<int>, k: nat, chosen: seq<int>, m: seq<int>, c: int)
    requires Labels.IsLabelSeq(labels) && k < |labels| && |chosen| == k
    requires HoldsProcessed(labels, k, m) && PlacedAtChosen(labels, k, chosen, m)
    ensures PlacedAtChosen(labels, k + 1, chosen + [c], m)
  {
    var chosen' := chosen + [c];
    NotYetPlaced(labels, k, m);
    forall j, i | 0 <= j < k + 1 && 0 <= i < |m| && m[i] == labels[j]
      ensures i == chosen'[j]
    {
      assert j < k;
      assert chosen'[j] == chosen[j];
    }
  }

  lemma WinsBounds(labels: seq<int>, flat: seq<real>, k: nat, chosen: seq<int>,
                   led: seq<Option<real>>, c: int)
    requires k < |labels| && |chosen| == k && |led| == |flat|
    requires ChosenNearest(labels, flat, k, chosen) && IsNearest(flat, labels[k], c)
    requires LedgerBounds(labels, flat, k, chosen, led)
    requires Below(Dist(flat[c], labels[k]), led[c])
    ensures ChosenNearest(labels, flat, k + 1, chosen + [c])
    ensures LedgerBounds(labels, flat, k + 1, chosen + [c], led[c := Some(Dist(flat[c], labels[k]))])
  {
    ExtendNearest(labels, flat, k, chosen, c);
    var led', chosen' := led[c := Some(Dist(flat[c], labels[k]))], chosen + [c];
    forall j | 0 <= j < k + 1
      ensures AtMost(led'[chosen'[j]], Some(Dist(flat[chosen'[j]], labels[j])))
    {
      if j < k {
        assert chosen'[j] == chosen[j];
        assert AtMost(led[chosen[j]], Some(Dist(flat[chosen[j]], labels[j])));
      }
    }
  }

  lemma LosesBounds(labels: seq<int>, flat: seq<real>, k: nat, chosen: seq<int>,
                    led: seq<Option<real>>, c: int)
    requires k < |labels| && |chosen| == k && |led| == |flat|
    requires ChosenNearest(labels, flat, k, chosen) && IsNearest(flat, labels[k], c)
    requires LedgerBounds(labels, flat, k, chosen, led)
    requires !Below(Dist(flat[c], labels[k]), led[c])
    ensures ChosenNearest(labels, flat, k + 1, chosen + [c])
    ensures LedgerBounds(labels, flat, k + 1, chosen + [c], led)
  {
    ExtendNearest(labels, flat, k, chosen, c);
    var chosen' := chosen + [c];
    forall j | 0 <= j < k + 1
      ensures AtMost(led[chosen'[j]], Some(Dist(flat[chosen'[j]], labels[j])))
    {
      if j < k { assert chosen'[j] == chosen[j]; }
    }
  }

  lemma WinsCloser(labels: seq<int>, flat: seq<real>, k: nat, chosen: seq<int>,
                   m: seq<int>, led: seq<Option<real>>, c: int)
    requires Labels.IsLabelSeq(labels) && k < |labels| && |chosen| == k
    requires |m| == |flat| && |led| == |flat|
    requires ChosenNearest(labels, flat, k, chosen) && IsNearest(flat, labels[k], c)
    requires HoldsProcessed(labels, k, m)
    requires LedgerBounds(labels, flat, k, chosen, led)
    requires WinnersCloser(labels, flat, k, chosen, m)
    requires Below(Dist(flat[c], labels[k]), led[c])
    ensures ChosenNearest(labels, flat, k + 1, chosen + [c])
    ensures WinnersCloser(labels, flat, k + 1, chosen + [c], m[c := labels[k]])
  {
    ExtendNearest(labels, flat, k, chosen, c);
    NotYetPlaced(labels, k, m);
    var l, m', chosen' := labels[k], m[c := labels[k]], chosen + [c];
    forall j, j' | 0 <= j < k + 1 && 0 <= j' < k + 1 && m'[chosen'[j]] == labels[j']
      ensures && Dist(flat[chosen'[j']], labels[j']) <= Dist(flat[chosen'[j]], labels[j])
              && (j < j' ==> Dist(flat[chosen'[j']], labels[j']) < Dist(flat[chosen'[j]], labels[j]))
    {
      if chosen'[j] == c {
        assert j' == k;
        if j < k {
          assert chosen'[j] == chosen[j];
          assert AtMost(led[c], Some(Dist(flat[chosen[j]], labels[j])));
        }
      } else {
        assert j < k && chosen'[j] == chosen[j];
        assert m[chosen[j]] == labels[j'];
        assert j' < k && chosen'[j'] == chosen[j'];
      }
    }
  }

  lemma LosesCloser(labels: seq<int>, flat: seq<real>, k: nat, chosen: seq<int>,
                    m: seq<int>, led: seq<Option<real>>, c: int)
    requires Labels.IsLabelSeq(labels) && k < |labels| && |chosen| == k
    requires LedgerTracksMask(flat, m, led)
    requires ChosenNearest(labels, flat, k, chosen) && IsNearest(flat, labels[k], c)
    requires HoldsProcessed(labels, k, m) && PlacedAtChosen(labels, k, chosen, m)
    requires WinnersCloser(labels, flat, k, chosen, m)
    requires !Below(Dist(flat[c], labels[k]), led[c])
    ensures ChosenNearest(labels, flat, k + 1, chosen + [c])
    ensures WinnersCloser(labels, flat, k + 1, chosen + [c], m)
  {
    ExtendNearest(labels, flat, k, chosen, c);
    NotYetPlaced(labels, k, m);
    var chosen' := chosen + [c];
    forall j, j' | 0 <= j < k + 1 && 0 <= j' < k + 1 && m[chosen'[j]] == labels[j']
      ensures && Dist(flat[chosen'[j']], labels[j']) <= Dist(flat[chosen'[j]], labels[j])
              && (j < j' ==> Dist(flat[chosen'[j']], labels[j']) < Dist(flat[chosen'[j]], labels[j]))
    {
      assert j' < k;
      assert chosen'[j'] == chosen[j'];
      if j == k {
        assert c == chosen[j'];
      } else {
        assert chosen'[j] == chosen[j];
      }
    }
  }

  /** One label iteration in which label k wins voxel c. */
  lemma StepWins(labels: seq<int>, flat: seq<real>, k: nat, chosen: seq<int>,
                 m: seq<int>, led: seq<Option<real>>, c: int)
    requires Labels.IsLabelSeq(labels) && k < |labels|
    requires AssignInv(labels, flat, k, chosen, m, led)
    requires IsNearest(flat, labels[k], c)
    requires Below(Dist(flat[c], labels[k]), led[c])
    ensures AssignInv(labels, flat, k + 1, chosen + [c],
                      m[c := labels[k]], led[c := Some(Dist(flat[c], labels[k]))])
  {
    var l, d := labels[k], Dist(flat[c], labels[k]);
    assert l in labels;
    assert LedgerTracksMask(flat, m[c := l], led[c := Some(d)]);
    ExtendHolds(labels, k, m, c);
    WinsPlaced(labels, k, chosen, m, c);
    WinsBounds(labels, flat, k, chosen, led, c);
    WinsCloser(labels, flat, k, chosen, m, led, c);
    CountAfterWrite(m, c, l);
  }

  /** One label iteration in which label k loses: its voxel already holds an
      entry no larger than its distance. */
  lemma StepLoses(labels: seq<int>, flat: seq<real>, k: nat, chosen: seq<int>,
                  m: seq<int>, led: seq<Option<real>>, c: int)
    requires Labels.IsLabelSeq(labels) && k < |labels|
    requires AssignInv(labels, flat, k, chosen, m, led)
    requires IsNearest(flat, labels[k], c)
    requires !Below(Dist(flat[c], labels[k]), led[c])
    ensures AssignInv(labels, flat, k + 1, chosen + [c], m, led)
  {
    ExtendHolds(labels, k, m, c);
    LosesPlaced(labels, k, chosen, m, c);
    LosesBounds(labels, flat, k, chosen, led, c);
    LosesCloser(labels, flat, k, chosen, m, led, c);
  }

  /** Each of the first k labels picked sorted slot slots[j] by the slot rule,
      that is voxel chosen[j] == order[slots[j]]. */
  ghost predicate SlotsInv(labels: seq<int>, flat: seq<real>, order: seq<int>, k: nat,
                           chosen: seq<int>, slots: seq<int>)
  {
    && InRange(order, |flat|) && k <= |labels| && |chosen| == k && |slots| == k
    && forall j :: 0 <= j < k ==>
         && 0 <= slots[j] < |order|
         && NearestSlot(Gather(flat, order), labels[j], slots[j])
         && chosen[j] == order[slots[j]]
  }

  /** One iteration of the label loop (lines 72-95): label k takes sorted slot
      best, whose distance d is the smallest over all slots; the mask and ledger
      after the conflict rule keep both invariants. */
  lemma LabelStep(labels: seq<int>, flat: seq<real>, order: seq<int>, sorted: seq<real>, k: nat, l: int,
                  chosen: seq<int>, m: seq<int>, led: seq<Option<real>>,
                  best: nat, d: real, k': nat, chosen': seq<int>, m': seq<int>, led': seq<Option<real>>)
    requires Labels.IsLabelSeq(labels) && k < |labels| && l == labels[k]
    requires IsSortingPermutation(flat, order) && sorted == Gather(flat, order)
    requires AssignInv(labels, flat, k, chosen, m, led)
    requires best < |sorted| && NearestSlot(sorted, l, best) && d == Dist(sorted[best], l)
    requires Below(d, led[order[best]]) ==>
      m' == m[order[best] := l] && led' == led[order[best] := Some(d)]
    requires !Below(d, led[order[best]]) ==> m' == m && led' == led
    requires k' == k + 1 && chosen' == chosen + [order[best]]
    ensures AssignInv(labels, flat, k', chosen', m', led')
  {
    var c := order[best];
    GatherSorted(flat, order);
    NearestSlotMinimal(sorted, l, best);
    SlotIsNearest(flat, order, labels[k], best, d);
    if Below(d, led[c]) {
      StepWins(labels, flat, k, chosen, m, led, c);
    } else {
      StepLoses(labels, flat, k, chosen, m, led, c);
    }
  }

  /** The voxel behind a sorted slot of minimal distance is a nearest voxel. */
  lemma SlotIsNearest(flat: seq<real>, order: seq<int>, l: int, best: int, d: real)
    requires IsSortingPermutation(flat, order)
    requires 0 <= best < |order| && d == Dist(Gather(flat, order)[best], l)
    requires forall s :: 0 <= s < |order| ==> d <= Dist(Gather(flat, order)[s], l)
    ensures IsNearest(flat, l, order[best])
  {
    GatherSorted(flat, order);
    var sorted := Gather(flat, order);
    forall i | 0 <= i < |flat| ensures Dist(flat[order[best]], l) <= Dist(flat[i], l) {
      assert i in order;
      var s :| 0 <= s < |order| && order[s] == i;
      assert sorted[s] == flat[i];
    }
  }

  /** What the loop leaves for labels, flat and order (lines 71-95): label k
      took sorted slot slots[k] by the slot rule, i.e. voxel chosen[k] ==
      order[slots[k]]; that voxel is labelled; a label is found only at its own
      voxel; every labelled voxel holds a label; and a label holds another's
      voxel only with a distance no larger, strictly smaller if it came later. */
  ghost predicate IsLocator(labels: seq<int>, flat: seq<real>, order: seq<int>,
                            mask3: seq<int>, chosen: seq<int>, slots: seq<int>)
  {
    && InRange(order, |flat|) && |mask3| == |flat| && |chosen| == |labels| && |slots| == |labels|
    && (forall k :: 0 <= k < |labels| ==>
          && 0 <= slots[k] < |order|
          && NearestSlot(Gather(flat, order), labels[k], slots[k])
          && chosen[k] == order[slots[k]])
    && (forall k :: 0 <= k < |labels| ==> mask3[chosen[k]] != 0)
    && (forall i :: 0 <= i < |mask3| && mask3[i] != 0 ==> mask3[i] in labels)
    && (forall k, i :: 0 <= k < |labels| && 0 <= i < |mask3| && mask3[i] == labels[k] ==> i == chosen[k])
    && (forall k, k' :: 0 <= k < |labels| && 0 <= k' < |labels| && mask3[chosen[k]] == labels[k'] ==>
          && Dist(flat[chosen[k']], labels[k']) <= Dist(flat[chosen[k]], labels[k])
          && (k < k' ==> Dist(flat[chosen[k']], labels[k']) < Dist(flat[chosen[k]], labels[k])))
  }

  /** The locator description fixes the mask: for the same labels, values and
      sorting permutation there is exactly one mask it admits. */
  lemma LocatorUnique(labels: seq<int>, flat: seq<real>, order: seq<int>,
                      m1: seq<int>, c1: seq<int>, s1: seq<int>,
                      m2: seq<int>, c2: seq<int>, s2: seq<int>)
    requires IsSortingPermutation(flat, order)
    requires IsLocator(labels, flat, order, m1, c1, s1)
    requires IsLocator(labels, flat, order, m2, c2, s2)
    ensures s1 == s2 && c1 == c2 && m1 == m2
  {
    LocatorSlotsAgree(labels, flat, order, m1, c1, s1, m2, c2, s2);
    forall c | 0 <= c < |m1| ensures m1[c] == m2[c] {
      LocatorCellsAgree(labels, flat, order, m1, m2, c1, s1, s2, c);
    }
  }

  /** Both locators picked the same slot, hence the same voxel, for every label. */
  lemma LocatorSlotsAgree(labels: seq<int>, flat: seq<real>, order: seq<int>,
                          m1: seq<int>, c1: seq<int>, s1: seq<int>,
                          m2: seq<int>, c2: seq<int>, s2: seq<int>)
    requires IsSortingPermutation(flat, order)
    requires IsLocator(labels, flat, order, m1, c1, s1)
    requires IsLocator(labels, flat, order, m2, c2, s2)
    ensures s1 == s2 && c1 == c2
  {
    GatherSorted(flat, order);
    forall k | 0 <= k < |labels| ensures s1[k] == s2[k] {
      NearestSlotUnique(Gather(flat, order), labels[k], s1[k], s2[k]);
    }
  }

  /** Two locators with the same chosen voxels agree on cell c. */
  lemma LocatorCellsAgree(labels: seq<int>, flat: seq<real>, order: seq<int>,
                          m1: seq<int>, m2: seq<int>, chosen: seq<int>, s1: seq<int>, s2: seq<int>, c: int)
    requires IsLocator(labels, flat, order, m1, chosen, s1)
    requires IsLocator(labels, flat, order, m2, chosen, s2)
    requires 0 <= c < |m1|
    ensures m1[c] == m2[c]
  {
    if m2[c] != 0 {
      var b :| 0 <= b < |labels| && labels[b] == m2[c];
      assert c == chosen[b];
      assert m1[c] != 0;
    }
    if m1[c] != 0 {
      var a :| 0 <= a < |labels| && labels[a] == m1[c];
      assert c == chosen[a];
      var b :| 0 <= b < |labels| && labels[b] == m2[c];
      assert c == chosen[b];
      assert m1[chosen[b]] == labels[a] && m2[chosen[a]] == labels[b];
    }
  }

  /** What the invariants say once every label has been processed. */
  lemma FinalFacts(labels: seq<int>, flat: seq<real>, order: seq<int>, chosen: seq<int>, slots: seq<int>,
                   m: seq<int>, led: seq<Option<real>>)
    requires AssignInv(labels, flat, |labels|, chosen, m, led)
    requires SlotsInv(labels, flat, order, |labels|, chosen, slots)
    ensures |m| == |flat| && |led| == |flat| && |chosen| == |labels|
    ensures LedgerTracksMask(flat, m, led)
    ensures IsLocator(labels, flat, order, m, chosen, slots)
    ensures forall i :: 0 <= i < |m| && m[i] != 0 ==> m[i] in labels && IsNearest(flat, m[i], i)
    ensures forall i, j :: 0 <= i < j < |m| && m[i] != 0 ==> m[i] != m[j]
    ensures CountNonZero(m) <= |labels|
    ensures forall k :: 0 <= k < |labels| ==> 0 <= chosen[k] < |flat| && IsNearest(flat, labels[k], chosen[k])
    ensures forall k :: 0 <= k < |labels| ==>
      led[chosen[k]].Some? && led[chosen[k]].value <= Dist(flat[chosen[k]], labels[k])
  {
    assert labels[..|labels|] == labels;
    forall k | 0 <= k < |labels| ensures m[chosen[k]] != 0 {
      assert AtMost(led[chosen[k]], Some(Dist(flat[chosen[k]], labels[k])));
    }
    forall i | 0 <= i < |m| && m[i] != 0 ensures m[i] in labels && IsNearest(flat, m[i], i) {
      var k :| 0 <= k < |labels| && labels[k] == m[i];
    }
    forall i, j | 0 <= i < j < |m| && m[i] != 0 ensures m[i] != m[j] {
      var k :| 0 <= k < |labels| && labels[k] == m[i];
    }
  }

  // ---------------------------------------------------------------------------
  // Lines 64-95 as values: mask3 and best_dist after the first k labels.

  /** mask3 and best_dist side by side. */
  datatype Placement = Placement(mask: seq<int>, ledger: seq<Option<real>>)

  /** mask3 and best_dist once labels[..k] have gone through lines 72-95, in order. */
  function Placed(labels: seq<int>, flat: seq<real>, order: seq<int>, k: nat): (p: Placement)
    requires IsSortingPermutation(flat, order) && k <= |labels| && (|flat| > 0 || labels == [])
    ensures |p.mask| == |flat| && |p.ledger| == |flat|
  {
    if k == 0 then Placement(seq(|flat|, _ => 0), seq(|flat|, _ => None))
    else
      var prev := Placed(labels, flat, order, k - 1);
      var sorted := Gather(flat, order);
      var l := labels[k - 1];
      var s := SlotOf(sorted, l);
      var c, d := order[s], Dist(sorted[s], l);
      if Below(d, prev.ledger[c]) then Placement(prev.mask[c := l], prev.ledger[c := Some(d)]) else prev
  }

  /** The sorted slots the first k labels take. */
  function SlotsUpTo(labels: seq<int>, flat: seq<real>, order: seq<int>, k: nat): (slots: seq<int>)
    requires IsSortingPermutation(flat, order) && k <= |labels| && (|flat| > 0 || labels == [])
    ensures |slots| == k
    ensures forall j :: 0 <= j < k ==> 0 <= slots[j] < |order| && NearestSlot(Gather(flat, order), labels[j], slots[j])
  {
    seq(k, j requires 0 <= j < k => SlotOf(Gather(flat, order), labels[j]))
  }

  /** The voxels behind those slots. */
  function ChosenUpTo(labels: seq<int>, flat: seq<real>, order: seq<int>, k: nat): (chosen: seq<int>)
    requires IsSortingPermutation(flat, order) && k <= |labels| && (|flat| > 0 || labels == [])
    ensures |chosen| == k
    ensures forall j :: 0 <= j < k ==> chosen[j] == order[SlotsUpTo(labels, flat, order, k)[j]]
  {
    var slots := SlotsUpTo(labels, flat, order, k);
    seq(k, j requires 0 <= j < k => order[slots[j]])
  }

  /** After any number k of labels, the placement keeps the loop's invariants. */
  lemma {:induction false} PlacedInv(labels: seq<int>, flat: seq<real>, order: seq<int>, k: nat)
    requires Labels.IsLabelSeq(labels) && IsSortingPermutation(flat, order)
    requires k <= |labels| && (|flat| > 0 || labels == [])
    ensures AssignInv(labels, flat, k, ChosenUpTo(labels, flat, order, k),
                      Placed(labels, flat, order, k).mask, Placed(labels, flat, order, k).ledger)
  {
    if k == 0 {
      InitInv(labels, flat);
    } else {
      PlacedInv(labels, flat, order, k - 1);
      PlacedStep(labels, flat, order, k);
    }
  }

  /** One more label keeps the invariants: from k - 1 labels to k. */
  lemma PlacedStep(labels: seq<int>, flat: seq<real>, order: seq<int>, k: nat)
    requires Labels.IsLabelSeq(labels) && IsSortingPermutation(flat, order)
    requires 0 < k <= |labels| && (|flat| > 0 || labels == [])
    requires AssignInv(labels, flat, k - 1, ChosenUpTo(labels, flat, order, k - 1),
                       Placed(labels, flat, order, k - 1).mask, Placed(labels, flat, order, k - 1).ledger)
    ensures AssignInv(labels, flat, k, ChosenUpTo(labels, flat, order, k),
                      Placed(labels, flat, order, k).mask, Placed(labels, flat, order, k).ledger)
  {
    var sorted := Gather(flat, order);
    var l := labels[k - 1];
    var s := SlotOf(sorted, l);
    var d := Dist(sorted[s], l);
    var chosen := ChosenUpTo(labels, flat, order, k - 1);
    var prev, next := Placed(labels, flat, order, k - 1), Placed(labels, flat, order, k);
    assert Below(d, prev.ledger[order[s]]) ==>
      next.mask == prev.mask[order[s] := l] && next.ledger == prev.ledger[order[s] := Some(d)];
    assert !Below(d, prev.ledger[order[s]]) ==> next.mask == prev.mask && next.ledger == prev.ledger;
    UpToStep(labels, flat, order, k);
    assert ChosenUpTo(labels, flat, order, k) == chosen + [order[s]];
    LabelStep(labels, flat, order, sorted, k - 1, l, chosen, prev.mask, prev.ledger, s, d,
              k, ChosenUpTo(labels, flat, order, k), next.mask, next.ledger);
  }

  /** The voxels of k labels extend those of k - 1 labels by one. */
  lemma UpToStep(labels: seq<int>, flat: seq<real>, order: seq<int>, k: nat)
    requires IsSortingPermutation(flat, order) && 0 < k <= |labels| && (|flat| > 0 || labels == [])
    ensures ChosenUpTo(labels, flat, order, k) ==
      ChosenUpTo(labels, flat, order, k - 1) + [order[SlotOf(Gather(flat, order), labels[k - 1])]]
  {
  }

  // ---------------------------------------------------------------------------
  // Lines 72-95: one label, from its sorted slot to the conflict rule.

  /** Places label l: takes its sorted slot by the slot rule and applies the
      conflict rule at voxel order[best]. */
  method PlaceLabel(mask3: array<int>, ledger: array<Option<real>>, sorted: seq<real>, order: seq<int>, l: int)
    returns (best: nat, d: real)
    requires NonDecreasing(sorted) && |sorted| > 0 && |order| == |sorted|
    requires InRange(order, mask3.Length) && mask3.Length == ledger.Length
    modifies mask3, ledger
    ensures best == SlotOf(sorted, l) && d == Dist(sorted[best], l)
    ensures Below(d, old(ledger[..])[order[best]]) ==>
      mask3[..] == old(mask3[..])[order[best] := l] && ledger[..] == old(ledger[..])[order[best] := Some(d)]
    ensures !Below(d, old(ledger[..])[order[best]]) ==>
      mask3[..] == old(mask3[..]) && ledger[..] == old(ledger[..])
  {
    var pos;
    pos, best, d := Nearest(sorted, l);
    Resolve(mask3, ledger, order[best], l, d);
  }

  // ---------------------------------------------------------------------------
  // Lines 64-95: the whole assignment.

  /** Builds mask3 (and the final best_dist ledger) from the labels, the flattened
      value volume and any sorting permutation of it. slots[k] is the sorted
      slot and chosen[k] the voxel the k-th label picked; both are proof devices. */
  method Assign(labels: seq<int>, flat: seq<real>, order: seq<int>)
    returns (mask3: seq<int>, ledger: seq<Option<real>>, ghost chosen: seq<int>, ghost slots: seq<int>)
    requires Labels.IsLabelSeq(labels)
    requires IsSortingPermutation(flat, order)
    requires |flat| > 0 || labels == []
    ensures Placement(mask3, ledger) == Placed(labels, flat, order, |labels|)
    ensures |mask3| == |flat| && |ledger| == |flat| && |chosen| == |labels|
    ensures LedgerTracksMask(flat, mask3, ledger)
    ensures IsLocator(labels, flat, order, mask3, chosen, slots)
    ensures forall i :: 0 <= i < |mask3| && mask3[i] != 0 ==> mask3[i] in labels && IsNearest(flat, mask3[i], i)
    ensures forall i, j :: 0 <= i < j < |mask3| && mask3[i] != 0 ==> mask3[i] != mask3[j]
    ensures CountNonZero(mask3) <= |labels|
    ensures forall k :: 0 <= k < |labels| ==> 0 <= chosen[k] < |flat| && IsNearest(flat, labels[k], chosen[k])
    ensures forall k :: 0 <= k < |labels| ==>
      ledger[chosen[k]].Some? && ledger[chosen[k]].value <= Dist(flat[chosen[k]], labels[k])
  {
    var n := |flat|;
    var sorted := Gather(flat, order);
    GatherSorted(flat, order);
    var m := new int[n](_ => 0);
    var led := new Option<real>[n](_ => None);
    for k := 0 to |labels|
      invariant m.Length == n && led.Length == n
      invariant Placement(m[..], led[..]) == Placed(labels, flat, order, k)
    {
      var best, d := PlaceLabel(m, led, sorted, order, labels[k]);
    }
    mask3, ledger := m[..], led[..];
    chosen, slots := ChosenUpTo(labels, flat, order, |labels|), SlotsUpTo(labels, flat, order, |labels|);
    PlacedInv(labels, flat, order, |labels|);
    FinalFacts(labels, flat, order, chosen, slots, mask3, ledger);
  }
}
