/** `DP.findWaysToTarget`: a table of sign assignments. Row `i`, column `j`
    of the table counts the ways to give a `+` or `-` to each of the first `i`
    elements, walking from offset `j - target` back to offset 0 without ever
    leaving the band [-target, target]. Column `target` is offset 0, so the
    returned entry counts the sign assignments whose signed total is 0 (not
    `target`) and whose partial sums all stay within [-target, target]. */
module TargetSum {
  import opened Subsequences
  import opened Enumeration

  /** The table entry `dp[i][j]`. */
  function Paths(nums: seq<int>, t: nat, i: nat, j: int): (r: nat)
    requires NonNegative(nums) && i <= |nums| && 0 <= j <= 2 * t
  {
    if i == 0 then (if j == t then 1 else 0)
    else
      var a := nums[i - 1];
      (if j + a <= 2 * t then Paths(nums, t, i - 1, j + a) else 0) +
      (if j - a >= 0 then Paths(nums, t, i - 1, j - a) else 0)
  }

  /** `+nums[k]` or `-nums[k]`, as the sign `s[k]` says (`true` is plus). */
  function Step(nums: seq<int>, s: seq<bool>, k: nat): (r: int)
    requires k < |nums| && k < |s|
  {
    if s[k] then nums[k] else -nums[k]
  }

  /** The signed sum of the elements `m` up to `i - 1`. */
  function Signed(nums: seq<int>, s: seq<bool>, m: nat, i: nat): (r: int)
    requires m <= i <= |nums| && i <= |s|
    decreases i - m
  {
    if i == m then 0 else Signed(nums, s, m, i - 1) + Step(nums, s, i - 1)
  }

  /** A sign assignment the returned entry counts: signed total 0 and every
      prefix sum within [-t, t]. */
  ghost predicate Balanced(nums: seq<int>, t: nat, s: seq<bool>)
  {
    && |s| == |nums|
    && Signed(nums, s, 0, |nums|) == 0
    && forall m :: 0 <= m <= |nums| ==> -(t as int) <= Signed(nums, s, 0, m) <= t
  }

  /** What `dp[i][j]` counts: signs for the first `i` elements that, taken
      from the last to the first and starting at column `j`, stay inside the
      table and end in column `t`. */
  ghost predicate InBand(nums: seq<int>, t: nat, s: seq<bool>, i: nat, j: int)
    requires i <= |nums|
  {
    && |s| == i
    && j + Signed(nums, s, 0, i) == t
    && forall m :: 0 <= m <= i ==> 0 <= j + Signed(nums, s, m, i) <= 2 * t
  }

  /** Every sign assignment `dp[i][j]` counts, grouped by the sign of element `i - 1`. */
  function Choices(nums: seq<int>, t: nat, i: nat, j: int): (r: seq<seq<bool>>)
    requires NonNegative(nums) && i <= |nums| && 0 <= j <= 2 * t
    decreases i, 1
  {
    if i == 0 then (if j == t then [[]] else []) else Up(nums, t, i, j) + Down(nums, t, i, j)
  }

  /** Those that give element `i - 1` a plus: the walk moves right to column `j + nums[i - 1]`. */
  function Up(nums: seq<int>, t: nat, i: nat, j: int): (r: seq<seq<bool>>)
    requires NonNegative(nums) && 1 <= i <= |nums| && 0 <= j <= 2 * t
    decreases i, 0
  {
    var a := nums[i - 1];
    if j + a <= 2 * t then Extend(Choices(nums, t, i - 1, j + a), true) else []
  }

  /** Those that give element `i - 1` a minus: the walk moves left to column `j - nums[i - 1]`. */
  function Down(nums: seq<int>, t: nat, i: nat, j: int): (r: seq<seq<bool>>)
    requires NonNegative(nums) && 1 <= i <= |nums| && 0 <= j <= 2 * t
    decreases i, 0
  {
    var a := nums[i - 1];
    if j - a >= 0 then Extend(Choices(nums, t, i - 1, j - a), false) else []
  }

  /** The sign assignments the result counts. */
  function BalancedSigns(nums: seq<int>, t: nat): (r: seq<seq<bool>>)
    requires NonNegative(nums)
  {
    Choices(nums, t, |nums|, t)
  }

  /** Signed sums only depend on the signs they cover. */
  lemma {:induction false} SignedAgree(nums: seq<int>, s: seq<bool>, s2: seq<bool>, m: nat, i: nat)
    requires m <= i <= |nums| && i <= |s| && i <= |s2|
    requires forall k :: 0 <= k < i ==> s[k] == s2[k]
    ensures Signed(nums, s, m, i) == Signed(nums, s2, m, i)
    decreases i - m
  {
    if i > m {
      SignedAgree(nums, s, s2, m, i - 1);
    }
  }

  lemma {:induction false} SignedSplit(nums: seq<int>, s: seq<bool>, m: nat, i: nat)
    requires m <= i <= |nums| && i <= |s|
    ensures Signed(nums, s, 0, m) + Signed(nums, s, m, i) == Signed(nums, s, 0, i)
    decreases i - m
  {
    if i > m {
      SignedSplit(nums, s, m, i - 1);
    }
  }

  /** Taking the last sign first moves the walk by `Step(i - 1)`. */
  lemma InBandStep(nums: seq<int>, t: nat, s: seq<bool>, i: nat, j: int)
    requires NonNegative(nums) && 1 <= i <= |nums| && |s| == i && 0 <= j <= 2 * t
    ensures var s', j' := s[..i - 1], j + Step(nums, s, i - 1);
      InBand(nums, t, s, i, j) <==> 0 <= j' <= 2 * t && InBand(nums, t, s', i - 1, j')
  {
    var s', j' := s[..i - 1], j + Step(nums, s, i - 1);
    forall m | 0 <= m <= i - 1 ensures Signed(nums, s, m, i) == j' - j + Signed(nums, s', m, i - 1) {
      SignedAgree(nums, s, s', m, i - 1);
    }
    assert Signed(nums, s, i - 1, i) == j' - j;
    if InBand(nums, t, s, i, j) {
      var p := i - 1;
      forall m | 0 <= m <= p ensures 0 <= j' + Signed(nums, s', m, p) <= 2 * t {
        assert 0 <= j + Signed(nums, s, m, i) <= 2 * t;
      }
      assert 0 <= j + Signed(nums, s, i - 1, i) <= 2 * t;
    }
    if 0 <= j' <= 2 * t && InBand(nums, t, s', i - 1, j') {
      forall m | 0 <= m <= i ensures 0 <= j + Signed(nums, s, m, i) <= 2 * t {
        if m < i {
          assert 0 <= j' + Signed(nums, s', m, i - 1) <= 2 * t;
        }
      }
    }
  }

  lemma {:induction false} ChoicesMember(nums: seq<int>, t: nat, i: nat, j: int, s: seq<bool>)
    requires NonNegative(nums) && i <= |nums| && 0 <= j <= 2 * t
    ensures s in Choices(nums, t, i, j) <==> InBand(nums, t, s, i, j)
    decreases i, 1
  {
    if i == 0 {
      assert InBand(nums, t, s, i, j) ==> s == [];
    } else {
      UpMember(nums, t, i, j, s);
      DownMember(nums, t, i, j, s);
    }
  }

  lemma {:induction false} UpMember(nums: seq<int>, t: nat, i: nat, j: int, s: seq<bool>)
    requires NonNegative(nums) && 1 <= i <= |nums| && 0 <= j <= 2 * t
    ensures s in Up(nums, t, i, j) <==> |s| == i && s[i - 1] && InBand(nums, t, s, i, j)
    decreases i, 0
  {
    var a := nums[i - 1];
    if j + a <= 2 * t {
      ExtendMember(Choices(nums, t, i - 1, j + a), true, s);
      if |s| > 0 {
        ChoicesMember(nums, t, i - 1, j + a, s[..|s| - 1]);
      }
    }
    if |s| == i {
      InBandStep(nums, t, s, i, j);
    }
  }

  lemma {:induction false} DownMember(nums: seq<int>, t: nat, i: nat, j: int, s: seq<bool>)
    requires NonNegative(nums) && 1 <= i <= |nums| && 0 <= j <= 2 * t
    ensures s in Down(nums, t, i, j) <==> |s| == i && !s[i - 1] && InBand(nums, t, s, i, j)
    decreases i, 0
  {
    var a := nums[i - 1];
    if j - a >= 0 {
      ExtendMember(Choices(nums, t, i - 1, j - a), false, s);
      if |s| > 0 {
        ChoicesMember(nums, t, i - 1, j - a, s[..|s| - 1]);
      }
    }
    if |s| == i {
      InBandStep(nums, t, s, i, j);
    }
  }

  lemma {:induction false} ChoicesNoDup(nums: seq<int>, t: nat, i: nat, j: int)
    requires NonNegative(nums) && i <= |nums| && 0 <= j <= 2 * t
    ensures NoDup(Choices(nums, t, i, j))
  {
    if i > 0 {
      var a := nums[i - 1];
      if j + a <= 2 * t {
        ChoicesNoDup(nums, t, i - 1, j + a);
        ExtendNoDup(Choices(nums, t, i - 1, j + a), true);
      }
      if j - a >= 0 {
        ChoicesNoDup(nums, t, i - 1, j - a);
        ExtendNoDup(Choices(nums, t, i - 1, j - a), false);
      }
      forall s | s in Up(nums, t, i, j) ensures s !in Down(nums, t, i, j) {
        UpMember(nums, t, i, j, s);
        DownMember(nums, t, i, j, s);
      }
      ConcatNoDup(Up(nums, t, i, j), Down(nums, t, i, j));
    }
  }

  /** `Choices` has as many members as the table entry says. */
  lemma {:induction false} ChoicesCount(nums: seq<int>, t: nat, i: nat, j: int)
    requires NonNegative(nums) && i <= |nums| && 0 <= j <= 2 * t
    ensures |Choices(nums, t, i, j)| == Paths(nums, t, i, j)
  {
    if i > 0 {
      var a := nums[i - 1];
      if j + a <= 2 * t {
        ChoicesCount(nums, t, i - 1, j + a);
      }
      if j - a >= 0 {
        ChoicesCount(nums, t, i - 1, j - a);
      }
    }
  }

  /** Starting at column `t`, staying in the table is the same as every prefix
      sum staying in [-t, t]. */
  lemma BalancedIffInBand(nums: seq<int>, t: nat, s: seq<bool>)
    requires |s| == |nums|
    ensures Balanced(nums, t, s) <==> InBand(nums, t, s, |nums|, t)
  {
    var n := |nums|;
    forall m | 0 <= m <= n ensures Signed(nums, s, 0, m) + Signed(nums, s, m, n) == Signed(nums, s, 0, n) {
      SignedSplit(nums, s, m, n);
    }
  }

  /** The result counts the balanced sign assignments: `BalancedSigns` lists
      exactly them, each once, and there are `dp[n][target]` of them. */
  lemma WaysCountBalanced(nums: seq<int>, t: nat)
    requires NonNegative(nums)
    ensures |BalancedSigns(nums, t)| == Paths(nums, t, |nums|, t)
    ensures NoDup(BalancedSigns(nums, t))
    ensures forall s :: s in BalancedSigns(nums, t) <==> Balanced(nums, t, s)
  {
    ChoicesNoDup(nums, t, |nums|, t);
    ChoicesCount(nums, t, |nums|, t);
    forall s ensures s in BalancedSigns(nums, t) <==> Balanced(nums, t, s) {
      ChoicesMember(nums, t, |nums|, t, s);
      if |s| == |nums| {
        BalancedIffInBand(nums, t, s);
      }
    }
  }

  /** Every row of the table is symmetric: `dp[i][j] == dp[i][2 * target - j]`. */
  lemma {:induction false} PathsSymmetric(nums: seq<int>, t: nat, i: nat, j: int)
    requires NonNegative(nums) && i <= |nums| && 0 <= j <= 2 * t
    ensures Paths(nums, t, i, j) == Paths(nums, t, i, 2 * t - j)
  {
    if i > 0 {
      var a := nums[i - 1];
      if j + a <= 2 * t {
        PathsSymmetric(nums, t, i - 1, j + a);
      }
      if j - a >= 0 {
        PathsSymmetric(nums, t, i - 1, j - a);
      }
    }
  }

  /** A partial signed sum is bounded by the plain sum of its elements. */
  lemma {:induction false} SignedBounded(nums: seq<int>, s: seq<bool>, m: nat)
    requires NonNegative(nums) && m <= |nums| && m <= |s|
    ensures -Total(nums, m) <= Signed(nums, s, 0, m) <= Total(nums, m)
  {
    if m > 0 {
      SignedBounded(nums, s, m - 1);
    }
  }

  lemma {:induction false} TotalMonotone(nums: seq<int>, m: nat, n: nat)
    requires NonNegative(nums) && m <= n <= |nums|
    ensures Total(nums, m) <= Total(nums, n)
  {
    if m < n {
      TotalMonotone(nums, m, n - 1);
    }
  }

  /** When `target` is at least the sum of the elements the band never binds,
      and the result counts every sign assignment with signed total 0. */
  lemma WideBand(nums: seq<int>, t: nat, s: seq<bool>)
    requires NonNegative(nums) && Total(nums, |nums|) <= t && |s| == |nums|
    ensures Balanced(nums, t, s) <==> Signed(nums, s, 0, |nums|) == 0
  {
    forall m | 0 <= m <= |nums| ensures -(t as int) <= Signed(nums, s, 0, m) <= t {
      SignedBounded(nums, s, m);
      TotalMonotone(nums, m, |nums|);
    }
  }

  /** Row `i` of `dp` holds the table entries `dp[i][j]`. */
  ghost predicate RowDone(dp: array2<int>, nums: seq<int>, t: nat, i: nat)
    requires NonNegative(nums) && i <= |nums| && i < dp.Length0 && dp.Length1 == 2 * t + 1
    reads dp
  {
    forall j :: 0 <= j < dp.Length1 ==> dp[i, j] == Paths(nums, t, i, j)
  }

  /** Row `i` of `dp` is still all zeros. */
  ghost predicate RowZero(dp: array2<int>, i: nat)
    requires i < dp.Length0
    reads dp
  {
    forall j :: 0 <= j < dp.Length1 ==> dp[i, j] == 0
  }

  /** The inner loop of `findWaysToTarget`: fills row `i` from row `i - 1`,
      leaving the rows above filled and the rows below still zero. */
  method FillRow(dp: array2<int>, nums: seq<int>, t: nat, i: nat)
    requires NonNegative(nums) && 1 <= i <= |nums| && dp.Length0 == |nums| + 1 && dp.Length1 == 2 * t + 1
    requires forall i' :: 0 <= i' < i ==> RowDone(dp, nums, t, i')
    requires forall i' :: i <= i' < dp.Length0 ==> RowZero(dp, i')
    modifies dp
    ensures forall i' :: 0 <= i' <= i ==> RowDone(dp, nums, t, i')
    ensures forall i' :: i < i' < dp.Length0 ==> RowZero(dp, i')
  {
    var a := nums[i - 1];
    assert RowDone(dp, nums, t, i - 1) && RowZero(dp, i);
    for j := 0 to dp.Length1
      invariant forall j' :: 0 <= j' < j ==> dp[i, j'] == Paths(nums, t, i, j')
      invariant forall j' :: j <= j' < dp.Length1 ==> dp[i, j'] == 0
      invariant forall i', j' :: 0 <= i' < dp.Length0 && i' != i && 0 <= j' < dp.Length1 ==> dp[i', j'] == old(dp[i', j'])
    {
      if j + a <= 2 * t {
        dp[i, j] := dp[i, j] + dp[i - 1, j + a];
      }
      if j - a >= 0 {
        dp[i, j] := dp[i, j] + dp[i - 1, j - a];
      }
    }
    forall i' | 0 <= i' < i ensures RowDone(dp, nums, t, i') {
      assert old(RowDone(dp, nums, t, i'));
    }
    forall i' | i < i' < dp.Length0 ensures RowZero(dp, i') {
      assert old(RowZero(dp, i'));
    }
  }

  /** Fills the `(n + 1) x (2 * t + 1)` table of `findWaysToTarget` with
      `t` as the offset: row 0 is all zeros but for a one in column `t`, and
      each later row adds the entries of the previous row `nums[i - 1]` to
      its right and to its left when those lie inside the table. */
  method Table(nums: seq<int>, t: nat) returns (dp: array2<int>)
    requires NonNegative(nums)
    ensures fresh(dp) && dp.Length0 == |nums| + 1 && dp.Length1 == 2 * t + 1
    ensures forall i :: 0 <= i <= |nums| ==> RowDone(dp, nums, t, i)
  {
    var n := |nums|;
    var table := new int[n + 1, 2 * t + 1]((_, _) => 0);
    table[0, t] := 1;
    for i := 1 to n + 1
      invariant forall i' :: 0 <= i' < i ==> RowDone(table, nums, t, i')
      invariant forall i' :: i <= i' <= n ==> RowZero(table, i')
    {
      FillRow(table, nums, t, i);
    }
    dp := table;
  }

  /** `findWaysToTarget` as written: the table offset by `target`, and the
      entry `dp[n][target]`, which is column offset 0. */
  method FindWaysToTarget(nums: seq<int>, target: int) returns (r: int)
    requires target >= 0 && NonNegative(nums)
    ensures r == Paths(nums, target, |nums|, target) == |BalancedSigns(nums, target)|
  {
    var n := |nums|;
    var dp := Table(nums, target);
    assert RowDone(dp, nums, target, n);
    ChoicesCount(nums, target, n, target);
    r := dp[n, target];
  }

  /** A sign assignment whose signed total is `target`. */
  ghost predicate ReachesTarget(nums: seq<int>, s: seq<bool>, target: int)
  {
    |s| == |nums| && Signed(nums, s, 0, |nums|) == target
  }

  /** The sign assignments reaching `target`, listed through a table offset by
      the plain sum of the elements, wide enough never to bind. */
  function TargetSigns(nums: seq<int>, target: int): (r: seq<seq<bool>>)
    requires NonNegative(nums)
  {
    var total := Total(nums, |nums|);
    if -total <= target <= total then Choices(nums, total, |nums|, total - target) else []
  }

  lemma TargetSignsReach(nums: seq<int>, target: int, s: seq<bool>)
    requires NonNegative(nums)
    ensures s in TargetSigns(nums, target) <==> ReachesTarget(nums, s, target)
  {
    var n, total := |nums|, Total(nums, |nums|);
    if |s| == n {
      SignedBounded(nums, s, n);
    }
    if -total <= target <= total {
      var j := total - target;
      ChoicesMember(nums, total, n, j, s);
      if ReachesTarget(nums, s, target) {
        forall m | 0 <= m <= n ensures 0 <= j + Signed(nums, s, m, n) <= 2 * total {
          SignedSplit(nums, s, m, n);
          SignedBounded(nums, s, m);
          TotalMonotone(nums, m, n);
        }
      }
    }
  }

  /** `TargetSigns` lists every sign assignment reaching `target`, each once,
      and there are as many as the entry `target` columns right of the offset. */
  lemma TargetSignsCount(nums: seq<int>, target: int)
    requires NonNegative(nums)
    ensures forall s :: s in TargetSigns(nums, target) <==> ReachesTarget(nums, s, target)
    ensures NoDup(TargetSigns(nums, target))
    ensures var total := Total(nums, |nums|);
      |TargetSigns(nums, target)| == if -total <= target <= total then Paths(nums, total, |nums|, total + target) else 0
  {
    var n, total := |nums|, Total(nums, |nums|);
    forall s ensures s in TargetSigns(nums, target) <==> ReachesTarget(nums, s, target) {
      TargetSignsReach(nums, target, s);
    }
    if -total <= target <= total {
      ChoicesNoDup(nums, total, n, total - target);
      ChoicesCount(nums, total, n, total - target);
      PathsSymmetric(nums, total, n, total + target);
    }
  }

  /** The intended `findWaysToTarget`: the table offset by the plain sum of
      the elements, and the entry `target` columns right of the offset. */
  method FindWaysToTargetCorrected(nums: seq<int>, target: int) returns (r: int)
    requires NonNegative(nums)
    ensures r == |TargetSigns(nums, target)|
  {
    var n, total := |nums|, Total(nums, |nums|);
    TargetSignsCount(nums, target);
    if target < -total || target > total {
      return 0;
    }
    var dp := Table(nums, total);
    assert RowDone(dp, nums, total, n);
    r := dp[n, total + target];
  }

  /** With the one element 1 and target 1, the sign assignment `+1` reaches
      the target, yet the entry returned is 0, and the corrected table counts
      exactly that assignment. */
  lemma WaysToTargetMisses()
    ensures Paths([1], 1, 1, 1) == 0
    ensures ReachesTarget([1], [true], 1)
    ensures |TargetSigns([1], 1)| == 1
  {
    TargetSignsCount([1], 1);
    assert Total([1], 1) == 1;
    assert Paths([1], 1, 1, 2) == 1;
  }
}
