/** `DP.maxAlternatingSum`: the largest alternating sum (elements at even
    positions minus elements at odd positions) of any subsequence. */
module AlternatingSum {
  import opened Outcomes
  import opened Extrema
  import opened Subsequences

  /** Alternating sum of `s`, reindexed from 0: s[0] - s[1] + s[2] - ... */
  function AltSum(s: seq<int>): (r: int)
  {
    if |s| == 0 then 0
    else AltSum(s[..|s| - 1]) + (if (|s| - 1) % 2 == 0 then s[|s| - 1] else -s[|s| - 1])
  }

  /** `even_sum[k - 1]`: the best alternating sum of an odd-length subsequence
      of the first `k` elements (its last element sits at an even position). */
  function EvenSum(nums: seq<int>, k: nat): (r: int)
    requires 1 <= k <= |nums|
    decreases k, 1
  {
    if k == 1 then nums[0] else Max(EvenSum(nums, k - 1), OddSum(nums, k - 1) + nums[k - 1])
  }

  /** `odd_sum[k - 1]`: the best alternating sum of an even-length
      subsequence of the first `k` elements, the empty one included. */
  function OddSum(nums: seq<int>, k: nat): (r: int)
    requires 1 <= k <= |nums|
    decreases k, 0
  {
    if k == 1 then 0 else Max(OddSum(nums, k - 1), EvenSum(nums, k - 1) - nums[k - 1])
  }

  /** `v` is the largest alternating sum of a subsequence of `nums`. */
  ghost predicate IsBestAltSum(nums: seq<int>, v: int)
  {
    (exists mask :: |mask| == |nums| && AltSum(Picked(nums, mask)) == v) &&
    (forall mask :: |mask| == |nums| ==> AltSum(Picked(nums, mask)) <= v)
  }

  lemma AltSumSnoc(s: seq<int>, x: int)
    ensures AltSum(s + [x]) == AltSum(s) + (if |s| % 2 == 0 then x else -x)
  {
    assert (s + [x])[..|s|] == s;
  }

  /** Neither table decreases along the input. */
  lemma {:induction false} SumsMonotone(nums: seq<int>, i: nat, k: nat)
    requires 1 <= i <= k <= |nums|
    ensures EvenSum(nums, i) <= EvenSum(nums, k)
    ensures OddSum(nums, i) <= OddSum(nums, k)
  {
    if i < k {
      SumsMonotone(nums, i, k - 1);
    }
  }

  /** No subsequence of the first `|mask|` elements beats the table of its parity. */
  lemma {:induction false} SumsUpperBound(nums: seq<int>, mask: seq<bool>)
    requires 1 <= |mask| <= |nums|
    ensures var p := Picked(nums, mask);
      AltSum(p) <= (if |p| % 2 == 1 then EvenSum(nums, |mask|) else OddSum(nums, |mask|))
  {
    var k := |mask|;
    var init := mask[..k - 1];
    assert mask == init + [mask[k - 1]];
    if k == 1 {
      UpperBoundBase(nums, mask);
    } else {
      SumsUpperBound(nums, init);
      UpperBoundStep(nums, init, mask[k - 1]);
    }
  }

  lemma UpperBoundBase(nums: seq<int>, mask: seq<bool>)
    requires |mask| == 1 <= |nums|
    ensures var p := Picked(nums, mask);
      AltSum(p) <= (if |p| % 2 == 1 then EvenSum(nums, 1) else OddSum(nums, 1))
  {
    assert mask == [] + [mask[0]];
    ExtendChoice(nums, [], mask[0]);
  }

  /** One more choice keeps the bound of `SumsUpperBound`. */
  lemma UpperBoundStep(nums: seq<int>, init: seq<bool>, b: bool)
    requires 1 <= |init| < |nums|
    requires var p := Picked(nums, init);
      AltSum(p) <= (if |p| % 2 == 1 then EvenSum(nums, |init|) else OddSum(nums, |init|))
    ensures var p := Picked(nums, init + [b]);
      AltSum(p) <= (if |p| % 2 == 1 then EvenSum(nums, |init| + 1) else OddSum(nums, |init| + 1))
  {
    var k, x := |init| + 1, nums[|init|];
    var p, q := Picked(nums, init), Picked(nums, init + [b]);
    ExtendChoice(nums, init, b);
    Parity(|p|);
    assert EvenSum(nums, k) == Max(EvenSum(nums, k - 1), OddSum(nums, k - 1) + x);
    assert OddSum(nums, k) == Max(OddSum(nums, k - 1), EvenSum(nums, k - 1) - x);
  }

  lemma Parity(n: nat)
    ensures (n + 1) % 2 == 1 - n % 2
  {
  }

  /** Each table entry is reached by a subsequence of its parity. */
  lemma {:induction false} SumsWitness(nums: seq<int>, k: nat) returns (odd: seq<bool>, even: seq<bool>)
    requires 1 <= k <= |nums|
    ensures |odd| == k && |Picked(nums, odd)| % 2 == 1 && AltSum(Picked(nums, odd)) == EvenSum(nums, k)
    ensures |even| == k && |Picked(nums, even)| % 2 == 0 && AltSum(Picked(nums, even)) == OddSum(nums, k)
  {
    if k == 1 {
      odd, even := WitnessBase(nums);
    } else {
      var o, e := SumsWitness(nums, k - 1);
      odd := OddWitnessStep(nums, k, o, e);
      even := EvenWitnessStep(nums, k, o, e);
    }
  }

  lemma WitnessBase(nums: seq<int>) returns (odd: seq<bool>, even: seq<bool>)
    requires 1 <= |nums|
    ensures |odd| == 1 && |Picked(nums, odd)| % 2 == 1 && AltSum(Picked(nums, odd)) == EvenSum(nums, 1)
    ensures |even| == 1 && |Picked(nums, even)| % 2 == 0 && AltSum(Picked(nums, even)) == OddSum(nums, 1)
  {
    odd, even := [true], [false];
    assert odd[..0] == [] && even[..0] == [];
    assert Picked(nums, odd) == [nums[0]];
  }

  /** Extends the witnesses for `k - 1` elements by the choice the maxima make. */
  lemma {:induction false} OddWitnessStep(nums: seq<int>, k: nat, o: seq<bool>, e: seq<bool>) returns (odd: seq<bool>)
    requires 2 <= k <= |nums|
    requires |o| == k - 1 && |Picked(nums, o)| % 2 == 1 && AltSum(Picked(nums, o)) == EvenSum(nums, k - 1)
    requires |e| == k - 1 && |Picked(nums, e)| % 2 == 0 && AltSum(Picked(nums, e)) == OddSum(nums, k - 1)
    ensures |odd| == k && |Picked(nums, odd)| % 2 == 1 && AltSum(Picked(nums, odd)) == EvenSum(nums, k)
  {
    assert EvenSum(nums, k) == Max(EvenSum(nums, k - 1), OddSum(nums, k - 1) + nums[k - 1]);
    if EvenSum(nums, k - 1) >= OddSum(nums, k - 1) + nums[k - 1] {
      odd := o + [false];
      SkipChoice(nums, o);
    } else {
      odd := e + [true];
      TakeChoice(nums, e);
    }
  }

  lemma {:induction false} EvenWitnessStep(nums: seq<int>, k: nat, o: seq<bool>, e: seq<bool>) returns (even: seq<bool>)
    requires 2 <= k <= |nums|
    requires |o| == k - 1 && |Picked(nums, o)| % 2 == 1 && AltSum(Picked(nums, o)) == EvenSum(nums, k - 1)
    requires |e| == k - 1 && |Picked(nums, e)| % 2 == 0 && AltSum(Picked(nums, e)) == OddSum(nums, k - 1)
    ensures |even| == k && |Picked(nums, even)| % 2 == 0 && AltSum(Picked(nums, even)) == OddSum(nums, k)
  {
    assert OddSum(nums, k) == Max(OddSum(nums, k - 1), EvenSum(nums, k - 1) - nums[k - 1]);
    if OddSum(nums, k - 1) >= EvenSum(nums, k - 1) - nums[k - 1] {
      even := e + [false];
      SkipChoice(nums, e);
    } else {
      even := o + [true];
      TakeChoice(nums, o);
    }
  }

  /** Skipping the next element picks the same subsequence. */
  lemma SkipChoice(nums: seq<int>, mask: seq<bool>)
    requires |mask| < |nums|
    ensures Picked(nums, mask + [false]) == Picked(nums, mask)
  {
    Snoc(nums, mask, false);
  }

  /** Taking the next element flips the parity of the length and adds the
      element at an even position, subtracts it at an odd one. */
  lemma TakeChoice(nums: seq<int>, mask: seq<bool>)
    requires |mask| < |nums|
    ensures var p, q := Picked(nums, mask), Picked(nums, mask + [true]);
      var x := nums[|mask|];
      && (|p| % 2 == 0 ==> |q| % 2 == 1 && AltSum(q) == AltSum(p) + x)
      && (|p| % 2 == 1 ==> |q| % 2 == 0 && AltSum(q) == AltSum(p) - x)
  {
    ExtendChoice(nums, mask, true);
    Parity(|Picked(nums, mask)|);
  }

  /** What one more choice does to the length and alternating sum of a subsequence. */
  lemma ExtendChoice(nums: seq<int>, mask: seq<bool>, b: bool)
    requires |mask| < |nums|
    ensures var p, q := Picked(nums, mask), Picked(nums, mask + [b]);
      var x := nums[|mask|];
      && |q| == |p| + (if b then 1 else 0)
      && AltSum(q) == AltSum(p) + (if !b then 0 else if |p| % 2 == 0 then x else -x)
  {
    Snoc(nums, mask, b);
    if b {
      AltSumSnoc(Picked(nums, mask), nums[|mask|]);
    }
  }

  /** The larger of the two last entries is the best alternating sum. */
  lemma SumsAreBest(nums: seq<int>)
    requires |nums| >= 1
    ensures IsBestAltSum(nums, Max(EvenSum(nums, |nums|), OddSum(nums, |nums|)))
  {
    var n := |nums|;
    var odd, even := SumsWitness(nums, n);
    forall mask | |mask| == n ensures AltSum(Picked(nums, mask)) <= Max(EvenSum(nums, n), OddSum(nums, n)) {
      SumsUpperBound(nums, mask);
    }
  }

  /** `nums[0]` on an empty list raises `IndexError`; otherwise the paired
      tables `even_sum[i] = max(even_sum[i-1], odd_sum[i-1] + nums[i])`,
      `odd_sum[i] = max(odd_sum[i-1], even_sum[i-1] - nums[i])` are filled and
      the larger last entry returned. */
  method MaxAlternatingSum(nums: seq<int>) returns (r: Result<int>)
    ensures |nums| == 0 <==> r == Err(IndexError)
    ensures |nums| >= 1 ==> r == Ok(Max(EvenSum(nums, |nums|), OddSum(nums, |nums|)))
    ensures |nums| >= 1 ==> r.Ok? && IsBestAltSum(nums, r.value) && r.value >= 0
  {
    var n := |nums|;
    if n == 0 {
      return Err(IndexError);
    }
    var evenSum := new int[n](_ => 0);
    var oddSum := new int[n](_ => 0);
    evenSum[0] := nums[0];
    oddSum[0] := 0;
    for i := 1 to n
      invariant forall k :: 0 <= k < i ==> evenSum[k] == EvenSum(nums, k + 1) && oddSum[k] == OddSum(nums, k + 1)
    {
      evenSum[i] := Max(evenSum[i - 1], oddSum[i - 1] + nums[i]);
      oddSum[i] := Max(oddSum[i - 1], evenSum[i - 1] - nums[i]);
    }
    SumsAreBest(nums);
    SumsMonotone(nums, 1, n);
    return Ok(Max(evenSum[n - 1], oddSum[n - 1]));
  }

  /** The demo input [6, 2, 1, 2, 4, 5]: the best subsequence, [6, 1, 5],
      has alternating sum 10. */
  lemma MaxAlternatingSumSample()
    ensures IsBestAltSum([6, 2, 1, 2, 4, 5], 10)
  {
    var nums := [6, 2, 1, 2, 4, 5];
    assert EvenSum(nums, 6) == 10 && OddSum(nums, 6) == 5;
    SumsAreBest(nums);
  }
}
