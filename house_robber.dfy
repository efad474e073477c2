/** `DP.rob`: the most money a robber can take from a street of houses
    without breaking into two adjacent ones. */
module HouseRobber {
  import opened Outcomes
  import opened Extrema
  import opened Subsequences

  /** The table entry `buffer[k - 1]`: f(1) = nums[0], f(2) = max(nums[0], nums[1]),
      f(k) = max(f(k - 1), f(k - 2) + nums[k - 1]); an empty street yields 0. */
  function Loot(nums: seq<int>, k: nat): (r: int)
    requires k <= |nums|
  {
    if k == 0 then 0
    else if k == 1 then nums[0]
    else Max(Loot(nums, k - 1), Loot(nums, k - 2) + nums[k - 1])
  }

  /** No two adjacent houses are chosen. */
  ghost predicate NonAdjacent(mask: seq<bool>)
  {
    forall i :: 0 <= i < |mask| - 1 ==> !(mask[i] && mask[i + 1])
  }

  /** A plan for the whole street. */
  ghost predicate IsPlan(nums: seq<int>, mask: seq<bool>)
  {
    |mask| == |nums| && NonAdjacent(mask)
  }

  /** `v` is the largest amount any plan takes. */
  ghost predicate IsBestLoot(nums: seq<int>, v: int)
  {
    (exists mask :: IsPlan(nums, mask) && Gain(nums, mask) == v) &&
    (forall mask :: IsPlan(nums, mask) ==> Gain(nums, mask) <= v)
  }

  /** No plan over the first `|mask|` houses takes more than the recurrence. */
  lemma {:induction false} LootUpperBound(nums: seq<int>, mask: seq<bool>)
    requires NonNegative(nums)
    requires |mask| <= |nums| && NonAdjacent(mask)
    ensures Gain(nums, mask) <= Loot(nums, |mask|)
  {
    var k := |mask|;
    if k == 1 {
      assert mask[..0] == [];
    } else if k >= 2 {
      var init := mask[..k - 1];
      assert NonAdjacent(init);
      LootUpperBound(nums, init);
      if mask[k - 1] {
        var init2 := mask[..k - 2];
        assert init[..k - 2] == init2;
        assert !init[k - 2];
        assert NonAdjacent(init2);
        LootUpperBound(nums, init2);
      }
    }
  }

  /** Some plan over the first `k` houses takes exactly what the recurrence says. */
  lemma {:induction false} LootWitness(nums: seq<int>, k: nat) returns (mask: seq<bool>)
    requires NonNegative(nums) && k <= |nums|
    ensures |mask| == k && NonAdjacent(mask)
    ensures Gain(nums, mask) == Loot(nums, k)
  {
    if k == 0 {
      mask := [];
    } else if k == 1 {
      mask := [true];
      assert mask[..0] == [];
    } else if Loot(nums, k - 1) >= Loot(nums, k - 2) + nums[k - 1] {
      var m := LootWitness(nums, k - 1);
      Snoc(nums, m, false);
      mask := m + [false];
    } else {
      var m := LootWitness(nums, k - 2);
      Snoc(nums, m, false);
      Snoc(nums, m + [false], true);
      mask := m + [false] + [true];
    }
  }

  /** For non-negative amounts the recurrence is the best plan's loot. */
  lemma LootIsBest(nums: seq<int>)
    requires NonNegative(nums)
    ensures IsBestLoot(nums, Loot(nums, |nums|))
  {
    var m := LootWitness(nums, |nums|);
    forall mask | IsPlan(nums, mask) ensures Gain(nums, mask) <= Loot(nums, |nums|) {
      LootUpperBound(nums, mask);
    }
  }

  /** 0 for no houses, `nums[0]` for one, else the last entry of the table
      `buffer[i] = max(buffer[i - 1], buffer[i - 2] + nums[i])`. */
  method Rob(nums: seq<int>) returns (r: int)
    ensures r == Loot(nums, |nums|)
    ensures NonNegative(nums) ==> IsBestLoot(nums, r)
  {
    if NonNegative(nums) {
      LootIsBest(nums);
    }
    if |nums| == 0 {
      return 0;
    }
    if |nums| == 1 {
      return nums[0];
    }
    var buffer := new int[|nums|](_ => 0);
    buffer[0] := nums[0];
    buffer[1] := Max(nums[0], nums[1]);
    for i := 2 to |nums|
      invariant forall k :: 0 <= k < i ==> buffer[k] == Loot(nums, k + 1)
    {
      buffer[i] := Max(buffer[i - 1], buffer[i - 2] + nums[i]);
    }
    r := buffer[|nums| - 1];
  }

  /** The demo street: robbing houses 0, 2 and 4 of [2, 7, 9, 3, 1] takes 12,
      and nothing takes more. */
  lemma RobSample()
    ensures IsBestLoot([2, 7, 9, 3, 1], 12)
  {
    var nums := [2, 7, 9, 3, 1];
    assert Loot(nums, 5) == 12;
    LootIsBest(nums);
  }
}
