/** The pipeline of main(): labels from mask1, the locator mask mask3 from
    mask2, and the masked image; with worked examples. */
module SpatialWeighting {
  import opened Wrappers
  import opened SortedIndex
  import opened Assigner
  import opened Compositor
  import Labels

  /** Lines 52-97: the locator mask for identifier volume m1 and value volume m2
      (both flattened), with mask2 sorted by ArgSort. Label k of m1 takes the
      sorted slot slots[k] by the slot rule, that is voxel chosen[k]; every
      labelled voxel carries a label of m1, at a voxel whose value is nearest
      to that label, and no label is placed twice; every label's voxel is held
      by a label at least as close to its value. */
  method BuildLocator(m1: seq<real>, m2: seq<real>) returns (mask3: seq<int>, ghost chosen: seq<int>, ghost slots: seq<int>)
    requires |m2| > 0 || Labels.Labels(m1) == []
    ensures IsLocator(Labels.Labels(m1), m2, ArgSort(m2), mask3, chosen, slots)
    ensures |mask3| == |m2|
    ensures forall i :: 0 <= i < |m2| && mask3[i] != 0 ==>
      mask3[i] in Labels.Labels(m1) && IsNearest(m2, mask3[i], i)
    ensures forall i, j :: 0 <= i < j < |m2| && mask3[i] != 0 ==> mask3[i] != mask3[j]
    ensures CountNonZero(mask3) <= |Labels.Labels(m1)|
    ensures forall l :: l in Labels.Labels(m1) ==> exists c ::
      IsNearest(m2, l, c) && mask3[c] != 0 && Dist(m2[c], mask3[c]) <= Dist(m2[c], l)
  {
    var labels := Labels.Labels(m1);
    var order := ArgSort(m2);
    var ledger;
    mask3, ledger, chosen, slots := Assign(labels, m2, order);
    forall l | l in labels ensures exists c ::
      IsNearest(m2, l, c) && mask3[c] != 0 && Dist(m2[c], mask3[c]) <= Dist(m2[c], l)
    {
      var k :| 0 <= k < |labels| && labels[k] == l;
      var c := chosen[k];
      assert IsNearest(m2, l, c) && mask3[c] != 0 && Dist(m2[c], mask3[c]) <= Dist(m2[c], l);
    }
  }

  /** Lines 52-112: the locator mask is laid out in mask2's shape, and the image
      is masked with it unless the image's shape differs. */
  method Run(m1: seq<real>, m2Shape: seq<nat>, m2: seq<real>, imgShape: seq<nat>, img: seq<real>)
    returns (mask3: seq<int>, masked: Result<seq<real>, MaskError>, ghost chosen: seq<int>, ghost slots: seq<int>)
    requires |m2| == Product(m2Shape) && |img| == Product(imgShape)
    requires |m2| > 0 || Labels.Labels(m1) == []
    ensures IsLocator(Labels.Labels(m1), m2, ArgSort(m2), mask3, chosen, slots)
    ensures |mask3| == |m2|
    ensures forall i :: 0 <= i < |m2| && mask3[i] != 0 ==>
      mask3[i] in Labels.Labels(m1) && IsNearest(m2, mask3[i], i)
    ensures forall i, j :: 0 <= i < j < |m2| && mask3[i] != 0 ==> mask3[i] != mask3[j]
    ensures CountNonZero(mask3) <= |Labels.Labels(m1)|
    ensures forall l :: l in Labels.Labels(m1) ==> exists c ::
      IsNearest(m2, l, c) && mask3[c] != 0 && Dist(m2[c], mask3[c]) <= Dist(m2[c], l)
    ensures masked.Failure? <==> imgShape != m2Shape
    ensures masked.Failure? ==> masked.error == ShapeMismatch(imgShape, m2Shape)
    ensures masked.Success? ==> masked.value == Masked(img, mask3)
  {
    mask3, chosen, slots := BuildLocator(m1, m2);
    masked := ApplyMask(imgShape, img, m2Shape, mask3);
  }

  /** A volume whose only non-zero identifier is l has the labels [l]. */
  lemma LabelsOfOne(m1: seq<real>, l: int, i: int)
    requires l != 0 && 0 <= i < |m1| && Labels.Trunc(m1[i]) == l
    requires forall j :: 0 <= j < |m1| ==> Labels.Trunc(m1[j]) == 0 || Labels.Trunc(m1[j]) == l
    ensures Labels.Labels(m1) == [l]
  {
    var labels := Labels.Labels(m1);
    assert l in labels;
    assert labels[0] in labels && labels[|labels| - 1] in labels;
  }

  /** A volume whose only non-zero identifiers are a < b has the labels [a, b]. */
  lemma LabelsOfTwo(m1: seq<real>, a: int, b: int, i: int, j: int)
    requires 0 < a < b && 0 <= i < |m1| && 0 <= j < |m1| && Labels.Trunc(m1[i]) == a && Labels.Trunc(m1[j]) == b
    requires forall k :: 0 <= k < |m1| ==>
      Labels.Trunc(m1[k]) == 0 || Labels.Trunc(m1[k]) == a || Labels.Trunc(m1[k]) == b
    ensures Labels.Labels(m1) == [a, b]
  {
    var labels := Labels.Labels(m1);
    assert a in labels && b in labels;
    assert labels[0] in labels && labels[|labels| - 1] in labels;
    assert labels[0] == a && labels[|labels| - 1] == b;
    assert labels[1] in labels;
  }

  /** The stable argsort of two ordered values is the identity. */
  lemma ArgSortOfTwo(m2: seq<real>)
    requires |m2| == 2 && m2[0] <= m2[1]
    ensures ArgSort(m2) == [0, 1]
  {
    assert ArgSortPrefix(m2, 1) == [0];
    assert InsertByValue(m2, [], 1) == [1];
  }

  /** The stable argsort of three ordered values is the identity. */
  lemma ArgSortOfThree(m2: seq<real>)
    requires |m2| == 3 && m2[0] <= m2[1] <= m2[2]
    ensures ArgSort(m2) == [0, 1, 2]
  {
    assert ArgSortPrefix(m2, 1) == [0];
    assert InsertByValue(m2, [], 1) == [1];
    assert ArgSortPrefix(m2, 2) == [0, 1];
    assert InsertByValue(m2, [], 2) == [2];
    assert InsertByValue(m2, [1], 2) == [1, 2];
  }

  // The worked examples on the locator take mask1 and mask2 as parameters fixed
  // value by value, because literal sequences make the verifier evaluate Labels
  // and ArgSort on them in full.

  /** Worked example: identifier volume [0, 5, 0] against values [1.0, 4.9, 10.0]
      places label 5 at voxel 1 only (distance 0.1). */
  method ScenarioNearest(m1: seq<real>, m2: seq<real>) returns (mask3: seq<int>)
    requires |m1| == 3 && m1[0] == 0.0 && m1[1] == 5.0 && m1[2] == 0.0
    requires |m2| == 3 && m2[0] == 1.0 && m2[1] == 4.9 && m2[2] == 10.0
    ensures mask3 == [0, 5, 0]
  {
    LabelsOfOne(m1, 5, 1);
    ghost var chosen, slots;
    mask3, chosen, slots := BuildLocator(m1, m2);
    NearestLocator(Labels.Labels(m1), m2, mask3);
  }

  /** The locator of label 5 against [1.0, 4.9, 10.0] is [0, 5, 0]: voxel 1 is
      the only voxel nearest to 5. */
  lemma NearestLocator(labels: seq<int>, flat: seq<real>, mask3: seq<int>)
    requires labels == [5] && flat == [1.0, 4.9, 10.0] && |mask3| == |flat|
    requires forall i :: 0 <= i < |flat| && mask3[i] != 0 ==> mask3[i] in labels && IsNearest(flat, mask3[i], i)
    requires forall l :: l in labels ==> exists c ::
      IsNearest(flat, l, c) && mask3[c] != 0 && Dist(flat[c], mask3[c]) <= Dist(flat[c], l)
    ensures mask3 == [0, 5, 0]
  {
    assert !IsNearest(flat, 5, 0) by { assert Dist(flat[1], 5) < Dist(flat[0], 5); }
    assert !IsNearest(flat, 5, 2) by { assert Dist(flat[1], 5) < Dist(flat[2], 5); }
    assert 5 in labels;
    assert mask3[1] == 5;
  }

  /** Worked example of a tie: label 5 against values [4.0, 6.0] is at distance
      1 from both; its insertion point is slot 1, and slot 0 is not strictly
      closer, so the label goes to voxel 1. */
  method ScenarioTie(m1: seq<real>, m2: seq<real>) returns (mask3: seq<int>)
    requires |m1| == 2 && m1[0] == 5.0 && m1[1] == 0.0
    requires |m2| == 2 && m2[0] == 4.0 && m2[1] == 6.0
    ensures mask3 == [0, 5]
  {
    LabelsOfOne(m1, 5, 0);
    ArgSortOfTwo(m2);
    ghost var chosen, slots;
    mask3, chosen, slots := BuildLocator(m1, m2);
    TieLocator(Labels.Labels(m1), m2, ArgSort(m2), mask3, chosen, slots);
  }

  /** The locator of label 5 against [4.0, 6.0], sorted as [0, 1], is [0, 5]. */
  lemma TieLocator(labels: seq<int>, flat: seq<real>, order: seq<int>,
                   mask3: seq<int>, chosen: seq<int>, slots: seq<int>)
    requires labels == [5] && |flat| == 2 && flat[0] == 4.0 && flat[1] == 6.0 && order == [0, 1]
    requires IsLocator(labels, flat, order, mask3, chosen, slots)
    ensures mask3 == [0, 5]
  {
    assert !BeforeInsertionPoint(Gather(flat, order), 5, 0);
    assert chosen[0] == 1;
    assert mask3[0] != labels[0];
  }

  /** Worked example of two labels at the same distance from equal values:
      labels 7 and 9 against [8.0, 8.0, 8.0]. The insertion point of 7 is 0,
      so its only candidate is slot 0; that of 9 is 3, so its only candidate is
      slot 2. The two labels land on different voxels and both stay. */
  method ScenarioCollision(m1: seq<real>, m2: seq<real>) returns (mask3: seq<int>)
    requires |m1| == 3 && m1[0] == 7.0 && m1[1] == 0.0 && m1[2] == 9.0
    requires |m2| == 3 && m2[0] == 8.0 && m2[1] == 8.0 && m2[2] == 8.0
    ensures mask3 == [7, 0, 9]
  {
    LabelsOfTwo(m1, 7, 9, 0, 2);
    ArgSortOfThree(m2);
    ghost var chosen, slots;
    mask3, chosen, slots := BuildLocator(m1, m2);
    CollisionLocator(Labels.Labels(m1), m2, ArgSort(m2), mask3, chosen, slots);
  }

  /** The locator of labels 7 and 9 against [8.0, 8.0, 8.0], sorted as
      [0, 1, 2], is [7, 0, 9]. */
  lemma CollisionLocator(labels: seq<int>, flat: seq<real>, order: seq<int>,
                         mask3: seq<int>, chosen: seq<int>, slots: seq<int>)
    requires labels == [7, 9] && |flat| == 3 && flat[0] == 8.0 && flat[1] == 8.0 && flat[2] == 8.0
    requires order == [0, 1, 2]
    requires IsLocator(labels, flat, order, mask3, chosen, slots)
    ensures mask3 == [7, 0, 9]
  {
    var sorted := Gather(flat, order);
    assert |sorted| == 3 && sorted[0] == 8.0 && sorted[1] == 8.0 && sorted[2] == 8.0;
    assert NearestSlot(sorted, 7, slots[0]) && NearestSlot(sorted, 9, slots[1]);
    assert chosen == [0, 2];
    assert mask3[0] != 0 && mask3[2] != 0;
    assert mask3[0] != labels[1] && mask3[2] != labels[0];
    assert mask3[1] != labels[0] && mask3[1] != labels[1];
  }

  /** Worked example: mask [0, 3, 0, 7] over image [1.5, 2.5, 3.5, 4.5]. */
  method ScenarioMask() returns (r: Result<seq<real>, MaskError>)
    ensures r == Success([0.0, 2.5, 0.0, 4.5])
  {
    var img, mask := [1.5, 2.5, 3.5, 4.5], [0, 3, 0, 7];
    r := ApplyMask([4], img, [4], mask);
    assert r.value == [0.0, 2.5, 0.0, 4.5] by {
      assert r.value == Masked(img, mask);
      assert r.value[0] == 0.0 && r.value[1] == 2.5 && r.value[2] == 0.0 && r.value[3] == 4.5;
    }
  }

  /** Worked example: an image of shape (4, 4, 4) against a mask of shape (4, 4, 5). */
  method ScenarioShapeMismatch() returns (r: Result<seq<real>, MaskError>)
    ensures r == Failure(ShapeMismatch([4, 4, 4], [4, 4, 5]))
  {
    r := ApplyMask([4, 4, 4], seq(64, _ => 1.0), [4, 4, 5], seq(80, _ => 1));
  }
}
