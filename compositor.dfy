/** The mask compositor (lines 107-112): keeps the image where the locator mask
    is non-zero and zeroes it elsewhere, after checking that the shapes agree. */
module Compositor {
  import opened Wrappers

  /** The ValueError raised at line 109. */
  datatype MaskError = ShapeMismatch(imgShape: seq<nat>, maskShape: seq<nat>)

  /** The number of voxels of a volume of the given shape. */
  function Product(shape: seq<nat>): nat
  {
    if shape == [] then 1 else shape[0] * Product(shape[1..])
  }

  /** The masked image, voxel by voxel. */
  function Masked(img: seq<real>, mask: seq<int>): seq<real>
    requires |img| == |mask|
  {
    seq(|img|, i requires 0 <= i < |img| => if mask[i] != 0 then img[i] else 0.0)
  }

  /** Masking twice with the same mask is masking once. */
  lemma MaskedIdempotent(img: seq<real>, mask: seq<int>)
    requires |img| == |mask|
    ensures Masked(Masked(img, mask), mask) == Masked(img, mask)
  {
  }

  /** Lines 108-112: a shape mismatch is an error; otherwise a copy of img is
      made and the voxels where the mask is zero are set to 0 in it. */
  method ApplyMask(imgShape: seq<nat>, img: seq<real>, maskShape: seq<nat>, mask: seq<int>)
    returns (r: Result<seq<real>, MaskError>)
    requires |img| == Product(imgShape) && |mask| == Product(maskShape)
    ensures r.Failure? <==> imgShape != maskShape
    ensures r.Failure? ==> r.error == ShapeMismatch(imgShape, maskShape)
    ensures r.Success? ==> |r.value| == |img|
    ensures r.Success? ==> forall i :: 0 <= i < |img| ==>
      r.value[i] == (if mask[i] != 0 then img[i] else 0.0)
    ensures r.Success? ==> r.value == Masked(img, mask)
  {
    if imgShape != maskShape {
      return Failure(ShapeMismatch(imgShape, maskShape));
    }
    var masked := new real[|img|](i requires 0 <= i < |img| => img[i]);
    for i := 0 to |img|
      invariant forall j :: 0 <= j < i ==> masked[j] == (if mask[j] != 0 then img[j] else 0.0)
      invariant forall j :: i <= j < |img| ==> masked[j] == img[j]
    {
      if mask[i] == 0 {
        masked[i] := 0.0;
      }
    }
    r := Success(masked[..]);
  }
}
