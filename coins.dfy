/** Combinations of coins, independent of order: a tally `cnt` with one
    entry per denomination, `cnt[i]` the number of `coins[i]` used. A tally of
    length `k` uses only the first `k` denominations. */
module Coins {

  ghost predicate Positive(coins: seq<int>)
  {
    forall i :: 0 <= i < |coins| ==> coins[i] > 0
  }

  /** The amount a tally pays. */
  function Value(coins: seq<int>, cnt: seq<nat>): (r: int)
    requires |cnt| <= |coins|
  {
    if |cnt| == 0 then 0
    else Value(coins, cnt[..|cnt| - 1]) + cnt[|cnt| - 1] * coins[|cnt| - 1]
  }

  /** The number of coins a tally uses. */
  function Size(cnt: seq<nat>): (r: nat)
  {
    if |cnt| == 0 then 0 else Size(cnt[..|cnt| - 1]) + cnt[|cnt| - 1]
  }

  /** One more coin of the last denomination used. */
  function Incr(cnt: seq<nat>): (r: seq<nat>)
  {
    if |cnt| == 0 then [] else cnt[..|cnt| - 1] + [cnt[|cnt| - 1] + 1]
  }

  /** One coin fewer of the last denomination used. */
  function Decr(cnt: seq<nat>): (r: seq<nat>)
    requires |cnt| > 0 && cnt[|cnt| - 1] > 0
  {
    cnt[..|cnt| - 1] + [cnt[|cnt| - 1] - 1]
  }

  lemma {:induction false} ValueNonNegative(coins: seq<int>, cnt: seq<nat>)
    requires Positive(coins) && |cnt| <= |coins|
    ensures Value(coins, cnt) >= 0
  {
    if |cnt| > 0 {
      ValueNonNegative(coins, cnt[..|cnt| - 1]);
    }
  }

  /** With positive denominations a tally never uses more coins than it pays. */
  lemma {:induction false} SizeAtMostValue(coins: seq<int>, cnt: seq<nat>)
    requires Positive(coins) && |cnt| <= |coins|
    ensures Size(cnt) <= Value(coins, cnt)
  {
    if |cnt| > 0 {
      var k := |cnt| - 1;
      SizeAtMostValue(coins, cnt[..k]);
      assert cnt[k] <= cnt[k] * coins[k];
    }
  }

  /** Dropping a last entry of zero keeps amount and size. */
  lemma DropZero(coins: seq<int>, cnt: seq<nat>)
    requires 0 < |cnt| <= |coins| && cnt[|cnt| - 1] == 0
    ensures Value(coins, cnt[..|cnt| - 1]) == Value(coins, cnt)
    ensures Size(cnt[..|cnt| - 1]) == Size(cnt)
  {
  }

  /** Appending a zero entry keeps amount and size. */
  lemma AppendZero(coins: seq<int>, cnt: seq<nat>)
    requires |cnt| < |coins|
    ensures Value(coins, cnt + [0]) == Value(coins, cnt)
    ensures Size(cnt + [0]) == Size(cnt)
  {
    assert (cnt + [0])[..|cnt|] == cnt;
  }

  /** One more coin pays one more denomination. */
  lemma IncrStep(coins: seq<int>, cnt: seq<nat>)
    requires 0 < |cnt| <= |coins|
    ensures |Incr(cnt)| == |cnt| && Incr(cnt)[|cnt| - 1] == cnt[|cnt| - 1] + 1
    ensures Value(coins, Incr(cnt)) == Value(coins, cnt) + coins[|cnt| - 1]
    ensures Size(Incr(cnt)) == Size(cnt) + 1
  {
    var k := |cnt| - 1;
    var d := Incr(cnt);
    assert d[..k] == cnt[..k];
    assert (cnt[k] + 1) * coins[k] == cnt[k] * coins[k] + coins[k];
  }

  lemma DecrStep(coins: seq<int>, cnt: seq<nat>)
    requires 0 < |cnt| <= |coins| && cnt[|cnt| - 1] > 0
    ensures |Decr(cnt)| == |cnt| && Incr(Decr(cnt)) == cnt
    ensures Value(coins, Decr(cnt)) == Value(coins, cnt) - coins[|cnt| - 1]
    ensures Size(Decr(cnt)) == Size(cnt) - 1
  {
    var k := |cnt| - 1;
    var d := Decr(cnt);
    assert d[..k] == cnt[..k];
    assert Incr(d) == cnt;
    assert (cnt[k] - 1) * coins[k] == cnt[k] * coins[k] - coins[k];
  }
}
