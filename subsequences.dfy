/** Choices of elements from the front of a list, as a mask of booleans:
    `mask[i]` says whether `nums[i]` is taken. A mask of length `k` chooses
    among the first `k` elements. */
module Subsequences {

  /** The chosen elements, in their original order. */
  function Picked(nums: seq<int>, mask: seq<bool>): (r: seq<int>)
    requires |mask| <= |nums|
    ensures |r| <= |mask|
  {
    if |mask| == 0 then []
    else Picked(nums, mask[..|mask| - 1]) + (if mask[|mask| - 1] then [nums[|mask| - 1]] else [])
  }

  /** The sum of the chosen elements. */
  function Gain(nums: seq<int>, mask: seq<bool>): (r: int)
    requires |mask| <= |nums|
  {
    if |mask| == 0 then 0
    else Gain(nums, mask[..|mask| - 1]) + (if mask[|mask| - 1] then nums[|mask| - 1] else 0)
  }

  /** The sum of the first `k` elements. */
  function Total(nums: seq<int>, k: nat): (r: int)
    requires k <= |nums|
  {
    if k == 0 then 0 else Total(nums, k - 1) + nums[k - 1]
  }

  ghost predicate NonNegative(nums: seq<int>)
  {
    forall i :: 0 <= i < |nums| ==> nums[i] >= 0
  }

  /** Extending a mask by one choice extends what it picks. */
  lemma Snoc(nums: seq<int>, mask: seq<bool>, b: bool)
    requires |mask| < |nums|
    ensures b ==> Picked(nums, mask + [b]) == Picked(nums, mask) + [nums[|mask|]]
    ensures !b ==> Picked(nums, mask + [b]) == Picked(nums, mask)
    ensures Gain(nums, mask + [b]) == Gain(nums, mask) + (if b then nums[|mask|] else 0)
  {
    assert (mask + [b])[..|mask|] == mask;
    assert Picked(nums, mask) + [] == Picked(nums, mask);
  }

  /** Over non-negative elements every choice gains between nothing and everything. */
  lemma {:induction false} GainBounds(nums: seq<int>, mask: seq<bool>)
    requires NonNegative(nums) && |mask| <= |nums|
    ensures 0 <= Gain(nums, mask) <= Total(nums, |mask|)
  {
    if |mask| > 0 {
      GainBounds(nums, mask[..|mask| - 1]);
    }
  }
}
