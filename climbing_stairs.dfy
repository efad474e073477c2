/** `DP.climb_stairs`: the number of ways to climb `num` stairs taking one or
    two steps at a time. */
module ClimbingStairs {
  import opened Outcomes
  import opened Enumeration

  /** The documented objective: f(1) = 1, f(2) = 2, f(n) = f(n - 1) + f(n - 2). */
  function Ways(n: nat): (r: nat)
    requires n >= 1
  {
    if n <= 2 then n else Ways(n - 1) + Ways(n - 2)
  }

  /** Total height climbed by a sequence of steps. */
  function Height(steps: seq<int>): (r: int)
  {
    if |steps| == 0 then 0 else Height(steps[..|steps| - 1]) + steps[|steps| - 1]
  }

  /** A way to climb `n` stairs: steps of one or two that reach exactly `n`. */
  ghost predicate IsClimb(steps: seq<int>, n: int)
  {
    (forall i :: 0 <= i < |steps| ==> steps[i] == 1 || steps[i] == 2) && Height(steps) == n
  }

  /** Every way to climb `n` stairs, grouped by its last step. */
  function Climbs(n: nat): (r: seq<seq<int>>)
  {
    if n == 0 then [[]]
    else if n == 1 then [[1]]
    else Extend(Climbs(n - 1), 1) + Extend(Climbs(n - 2), 2)
  }

  lemma {:induction false} ClimbsSound(n: nat, s: seq<int>)
    requires s in Climbs(n)
    ensures IsClimb(s, n)
    decreases n, 1
  {
    if n == 0 {
      assert s == [];
    } else if n == 1 {
      assert s == [1];
      assert s[..0] == [];
    } else if s in Extend(Climbs(n - 1), 1) {
      ClimbsSoundLast(n, 1, s);
    } else {
      ClimbsSoundLast(n, 2, s);
    }
  }

  /** A climb of `n - k` stairs followed by a step of `k` climbs `n` stairs. */
  lemma {:induction false} ClimbsSoundLast(n: nat, k: nat, s: seq<int>)
    requires (k == 1 || k == 2) && k <= n
    requires s in Extend(Climbs(n - k), k)
    ensures IsClimb(s, n)
    decreases n, 0
  {
    var init := s[..|s| - 1];
    ExtendMember(Climbs(n - k), k, s);
    ClimbsSound(n - k, init);
    ClimbSnoc(init, k, n - k);
    assert s == init + [k];
  }

  lemma {:induction false} ClimbsComplete(n: nat, s: seq<int>)
    requires IsClimb(s, n)
    ensures s in Climbs(n)
  {
    HeightPositive(s);
    if |s| > 0 {
      var init, k := ClimbUnsnoc(s, n);
      if n == 1 {
        HeightPositive(init);
        assert init == [];
      } else {
        ClimbsComplete(n - k, init);
        ExtendMember(Climbs(n - k), k, s);
      }
    }
  }

  /** The last step of a climb, and the climb before it. */
  lemma ClimbUnsnoc(s: seq<int>, n: int) returns (init: seq<int>, k: nat)
    requires IsClimb(s, n) && |s| > 0
    ensures (k == 1 || k == 2) && k <= n && s == init + [k] && IsClimb(init, n - k)
  {
    init, k := s[..|s| - 1], s[|s| - 1];
    assert forall i :: 0 <= i < |init| ==> init[i] == s[i];
    HeightPositive(init);
  }

  lemma ClimbSnoc(steps: seq<int>, k: int, n: int)
    requires IsClimb(steps, n) && (k == 1 || k == 2)
    ensures IsClimb(steps + [k], n + k)
  {
    assert (steps + [k])[..|steps|] == steps;
  }

  /** Steps of one or two climb a positive height. */
  lemma {:induction false} HeightPositive(steps: seq<int>)
    requires forall i :: 0 <= i < |steps| ==> steps[i] == 1 || steps[i] == 2
    ensures Height(steps) >= |steps|
  {
    if |steps| > 0 {
      HeightPositive(steps[..|steps| - 1]);
    }
  }

  lemma {:induction false} ClimbsNoDup(n: nat)
    ensures NoDup(Climbs(n))
  {
    if n >= 2 {
      ClimbsNoDup(n - 1);
      ClimbsNoDup(n - 2);
      ExtendNoDup(Climbs(n - 1), 1);
      ExtendNoDup(Climbs(n - 2), 2);
      ExtendDisjoint(Climbs(n - 1), Climbs(n - 2), 1, 2);
      ConcatNoDup(Extend(Climbs(n - 1), 1), Extend(Climbs(n - 2), 2));
    }
  }

  /** The recurrence counts the distinct ways to climb: `Climbs(n)` lists each
      sequence of one- and two-steps of height `n` exactly once, and there are
      `Ways(n)` of them. */
  lemma {:induction false} WaysCountsClimbs(n: nat)
    requires n >= 1
    ensures |Climbs(n)| == Ways(n)
    ensures NoDup(Climbs(n))
    ensures forall s :: s in Climbs(n) <==> IsClimb(s, n)
  {
    if n >= 3 {
      WaysCountsClimbs(n - 1);
      WaysCountsClimbs(n - 2);
    }
    ClimbsNoDup(n);
    forall s ensures s in Climbs(n) <==> IsClimb(s, n) {
      if s in Climbs(n) {
        ClimbsSound(n, s);
      }
      if IsClimb(s, n) {
        ClimbsComplete(n, s);
      }
    }
  }

  /** As written: `ValueError` below one; for `num == 1` the store into
      `buffer[1]` of a one-element list raises `IndexError`; otherwise the table
      `buffer[i] = buffer[i - 1] + buffer[i - 2]` yields f(num). */
  method ClimbStairs(num: int) returns (r: Result<nat>)
    ensures num < 1 ==> r == Err(ValueError)
    ensures num == 1 ==> r == Err(IndexError)
    ensures num >= 2 ==> r == Ok(Ways(num))
  {
    if num < 1 {
      return Err(ValueError);
    }
    var buffer := new nat[num](_ => 1);
    if num == 1 {
      // buffer[1] does not exist in a list of length 1
      return Err(IndexError);
    }
    buffer[1] := 2;
    for i := 2 to num
      invariant forall k :: 0 <= k < i ==> buffer[k] == Ways(k + 1)
    {
      buffer[i] := buffer[i - 1] + buffer[i - 2];
    }
    return Ok(buffer[num - 1]);
  }

  /** The evidently intended version: the base case f(1) = 1 is answered
      before the table is built, so every positive input gets f(num). */
  method ClimbStairsCorrected(num: int) returns (r: Result<nat>)
    ensures num < 1 ==> r == Err(ValueError)
    ensures num >= 1 ==> r.Ok? && r.value == Ways(num) == |Climbs(num)|
  {
    if num < 1 {
      return Err(ValueError);
    }
    WaysCountsClimbs(num);
    if num == 1 {
      return Ok(1);
    }
    var buffer := new nat[num](_ => 1);
    buffer[1] := 2;
    for i := 2 to num
      invariant forall k :: 0 <= k < i ==> buffer[k] == Ways(k + 1)
    {
      buffer[i] := buffer[i - 1] + buffer[i - 2];
    }
    return Ok(buffer[num - 1]);
  }

  /** One stair is climbed in exactly one way, a single step, although the
      code as written fails on it. */
  lemma ClimbOneStair()
    ensures Ways(1) == 1 && Climbs(1) == [[1]]
    ensures IsClimb([1], 1)
  {
  }

  /** The sample call of the demo: five stairs can be climbed in eight ways. */
  lemma ClimbFiveStairs()
    ensures Ways(5) == 8
  {
  }
}
