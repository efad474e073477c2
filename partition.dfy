/** `DP.canPartition`: can a list be split into two parts of equal sum? */
module Partition {
  import opened Subsequences

  /** `buffer[j]` after the first `k` elements: some choice among them, each
      used at most once, sums to `j`. */
  function CanReach(nums: seq<int>, k: nat, j: int): (r: bool)
    requires k <= |nums|
  {
    if k == 0 then j == 0 else CanReach(nums, k - 1, j) || CanReach(nums, k - 1, j - nums[k - 1])
  }

  /** Some choice of elements makes up exactly half of the total. */
  ghost predicate HasEqualSplit(nums: seq<int>)
  {
    exists mask :: |mask| == |nums| && 2 * Gain(nums, mask) == Total(nums, |nums|)
  }

  /** The reachable sums are exactly the sums of choices (both directions). */
  lemma {:induction false} CanReachSound(nums: seq<int>, k: nat, j: int) returns (mask: seq<bool>)
    requires k <= |nums| && CanReach(nums, k, j)
    ensures |mask| == k && Gain(nums, mask) == j
  {
    if k == 0 {
      mask := [];
    } else {
      var b := !CanReach(nums, k - 1, j);
      var m := CanReachSound(nums, k - 1, if b then j - nums[k - 1] else j);
      Snoc(nums, m, b);
      mask := m + [b];
    }
  }

  lemma {:induction false} CanReachComplete(nums: seq<int>, mask: seq<bool>)
    requires |mask| <= |nums|
    ensures CanReach(nums, |mask|, Gain(nums, mask))
  {
    if |mask| > 0 {
      CanReachComplete(nums, mask[..|mask| - 1]);
    }
  }

  lemma CanReachIffChoice(nums: seq<int>, k: nat, j: int)
    requires k <= |nums|
    ensures CanReach(nums, k, j) <==> exists mask :: |mask| == k && Gain(nums, mask) == j
  {
    if CanReach(nums, k, j) {
      var mask := CanReachSound(nums, k, j);
    }
    forall mask | |mask| == k && Gain(nums, mask) == j ensures CanReach(nums, k, j) {
      CanReachComplete(nums, mask);
    }
  }

  /** With non-negative elements no negative sum is reachable. */
  lemma NoNegativeReach(nums: seq<int>, k: nat, j: int)
    requires NonNegative(nums) && k <= |nums| && j < 0
    ensures !CanReach(nums, k, j)
  {
    if CanReach(nums, k, j) {
      var mask := CanReachSound(nums, k, j);
      GainBounds(nums, mask);
    }
  }

  /** The empty choice reaches 0: `buffer[0]` stays true. */
  lemma {:induction false} ReachZero(nums: seq<int>, k: nat)
    requires k <= |nums|
    ensures CanReach(nums, k, 0)
  {
    if k > 0 {
      ReachZero(nums, k - 1);
    }
  }

  /** An odd total cannot be split; otherwise the table over half the total
      is filled element by element, the inner index descending from the target
      to the element so that each element is used at most once. */
  method CanPartition(nums: seq<int>) returns (r: bool)
    requires NonNegative(nums)
    ensures r == (Total(nums, |nums|) % 2 == 0 && CanReach(nums, |nums|, Total(nums, |nums|) / 2))
    ensures r <==> HasEqualSplit(nums)
  {
    var totalSum := Total(nums, |nums|);
    CanReachIffChoice(nums, |nums|, totalSum / 2);
    if totalSum % 2 != 0 {
      return false;
    }
    var targetSum := totalSum / 2;
    GainBounds(nums, seq(|nums|, _ => false));
    var buffer := new bool[targetSum + 1](_ => false);
    buffer[0] := true;
    for k := 0 to |nums|
      invariant forall x :: 0 <= x <= targetSum ==> buffer[x] == CanReach(nums, k, x)
    {
      var num := nums[k];
      var j := targetSum;
      while j >= num
        invariant j <= targetSum && (j >= num - 1 || j == targetSum)
        invariant forall x :: j < x <= targetSum ==> buffer[x] == CanReach(nums, k + 1, x)
        invariant forall x :: 0 <= x <= j ==> buffer[x] == CanReach(nums, k, x)
      {
        buffer[j] := buffer[j] || buffer[j - num];
        j := j - 1;
      }
      forall x | 0 <= x <= j && x <= targetSum ensures CanReach(nums, k + 1, x) == CanReach(nums, k, x) {
        NoNegativeReach(nums, k, x - num);
      }
    }
    ReachZero(nums, |nums|);
    return buffer[targetSum];
  }

  /** The demo lists: [1, 5, 11, 5] splits into {11} and {1, 5, 5}; [3, 1] cannot be split. */
  lemma PartitionSamples()
    ensures HasEqualSplit([1, 5, 11, 5])
    ensures !HasEqualSplit([3, 1])
  {
    var yes := [1, 5, 11, 5];
    assert Total(yes, 4) == 22 && CanReach(yes, 4, 11);
    var mask := CanReachSound(yes, 4, 11);
    var no := [3, 1];
    assert Total(no, 2) == 4 && !CanReach(no, 2, 2);
    CanReachIffChoice(no, 2, 2);
  }
}
