/** `DP.coinChange`: the fewest coins that pay an amount, or -1. */
module CoinChange {
  import opened Outcomes
  import opened Extrema
  import opened Coins

  /** `dp[x]` after the first `k` denominations: the fewest coins among them
      that pay `x`, where the sentinel `amount + 1` means "cannot be paid". */
  function Fewest(coins: seq<int>, amount: nat, k: nat, x: nat): (r: nat)
    requires Positive(coins) && k <= |coins|
    ensures r <= amount + 1
    decreases k, x
  {
    if k == 0 then (if x == 0 then 0 else amount + 1)
    else if x >= coins[k - 1] then Min(Fewest(coins, amount, k - 1, x), Fewest(coins, amount, k, x - coins[k - 1]) + 1)
    else Fewest(coins, amount, k - 1, x)
  }

  /** Some tally of the whole list of denominations pays `amount`. */
  ghost predicate Payable(coins: seq<int>, amount: int)
  {
    exists cnt: seq<nat> :: |cnt| == |coins| && Value(coins, cnt) == amount
  }

  /** `n` coins pay `amount`, and no tally pays it with fewer. */
  ghost predicate IsFewest(coins: seq<int>, amount: int, n: nat)
  {
    (exists cnt: seq<nat> :: |cnt| == |coins| && Value(coins, cnt) == amount && Size(cnt) == n) &&
    (forall cnt: seq<nat> :: |cnt| == |coins| && Value(coins, cnt) == amount ==> n <= Size(cnt))
  }

  /** The table never exceeds the size of a tally that pays its index. */
  lemma {:induction false} FewestLowerBound(coins: seq<int>, amount: nat, cnt: seq<nat>)
    requires Positive(coins) && |cnt| <= |coins|
    ensures Value(coins, cnt) >= 0
    ensures Fewest(coins, amount, |cnt|, Value(coins, cnt)) <= Size(cnt)
    decreases |cnt|, Size(cnt)
  {
    ValueNonNegative(coins, cnt);
    var k := |cnt|;
    if k > 0 {
      if cnt[k - 1] == 0 {
        DropZero(coins, cnt);
        FewestLowerBound(coins, amount, cnt[..k - 1]);
      } else {
        DecrStep(coins, cnt);
        FewestLowerBound(coins, amount, Decr(cnt));
      }
    }
  }

  /** An entry below the sentinel is the size of a tally that pays its index. */
  lemma {:induction false} FewestWitness(coins: seq<int>, amount: nat, k: nat, x: nat) returns (cnt: seq<nat>)
    requires Positive(coins) && k <= |coins|
    requires Fewest(coins, amount, k, x) <= amount
    ensures |cnt| == k && Value(coins, cnt) == x && Size(cnt) == Fewest(coins, amount, k, x)
    decreases k, x
  {
    if k == 0 {
      cnt := [];
    } else if x >= coins[k - 1] && Fewest(coins, amount, k, x) != Fewest(coins, amount, k - 1, x) {
      var c := FewestWitness(coins, amount, k, x - coins[k - 1]);
      IncrStep(coins, c);
      cnt := Incr(c);
    } else {
      var c := FewestWitness(coins, amount, k - 1, x);
      AppendZero(coins, c);
      cnt := c + [0];
    }
  }

  /** The sentinel is reached exactly when the amount cannot be paid, and
      below it the table holds the fewest coins. */
  lemma FewestMeaning(coins: seq<int>, amount: nat)
    requires Positive(coins)
    ensures Fewest(coins, amount, |coins|, amount) == amount + 1 <==> !Payable(coins, amount)
    ensures Fewest(coins, amount, |coins|, amount) <= amount ==> IsFewest(coins, amount, Fewest(coins, amount, |coins|, amount))
  {
    var f := Fewest(coins, amount, |coins|, amount);
    forall cnt: seq<nat> | |cnt| == |coins| && Value(coins, cnt) == amount ensures f <= Size(cnt) <= amount {
      FewestLowerBound(coins, amount, cnt);
      SizeAtMostValue(coins, cnt);
    }
    if f <= amount {
      var cnt := FewestWitness(coins, amount, |coins|, amount);
    }
  }

  /** Fills the table `dp = [0] + [amount + 1] * amount` coin by coin, the
      inner index ascending from the coin to `amount` so that a coin can be
      used again, and maps the sentinel to -1. */
  method CoinChange(coins: seq<int>, amount: int) returns (r: int)
    requires Positive(coins) && amount >= 0
    ensures var f := Fewest(coins, amount, |coins|, amount); r == if f == amount + 1 then -1 else f
    ensures r == -1 <==> !Payable(coins, amount)
    ensures r != -1 ==> r >= 0 && IsFewest(coins, amount, r)
  {
    var dp := new int[amount + 1](i => if i == 0 then 0 else amount + 1);
    for k := 0 to |coins|
      invariant forall x :: 0 <= x <= amount ==> dp[x] == Fewest(coins, amount, k, x)
    {
      var coin := coins[k];
      var i := coin;
      while i <= amount
        invariant coin <= i && (i <= amount + 1 || i == coin)
        invariant forall x :: 0 <= x < i && x <= amount ==> dp[x] == Fewest(coins, amount, k + 1, x)
        invariant forall x :: i <= x <= amount ==> dp[x] == Fewest(coins, amount, k, x)
      {
        dp[i] := Min(dp[i], dp[i - coin] + 1);
        i := i + 1;
      }
    }
    FewestMeaning(coins, amount);
    r := if dp[amount] == amount + 1 then -1 else dp[amount];
  }

  /** The table of the demo call `coinChange([1, 2, 5], 8)`, column by column. */
  lemma SampleTable()
    ensures Fewest([1, 2, 5], 8, 3, 8) == 3
  {
    var cs := [1, 2, 5];
    assert Fewest(cs, 8, 2, 3) == 2 && Fewest(cs, 8, 2, 8) == 4 by {
      assert Fewest(cs, 8, 1, 0) == 0 && Fewest(cs, 8, 1, 1) == 1 && Fewest(cs, 8, 1, 2) == 2;
      assert Fewest(cs, 8, 1, 3) == 3 && Fewest(cs, 8, 1, 4) == 4 && Fewest(cs, 8, 1, 6) == 6;
      assert Fewest(cs, 8, 1, 8) == 8;
      assert Fewest(cs, 8, 2, 0) == 0 && Fewest(cs, 8, 2, 1) == 1 && Fewest(cs, 8, 2, 2) == 1;
      assert Fewest(cs, 8, 2, 4) == 2 && Fewest(cs, 8, 2, 6) == 3;
    }
    assert Fewest(cs, 8, 3, 3) == 2;
  }

  /** The demo call: eight is paid with 5 + 2 + 1 and no fewer coins; three
      cannot be paid with twos. */
  lemma CoinChangeSamples()
    ensures IsFewest([1, 2, 5], 8, 3)
    ensures !Payable([2], 3)
  {
    SampleTable();
    FewestMeaning([1, 2, 5], 8);
    assert Fewest([2], 3, 1, 3) == 4;
    FewestMeaning([2], 3);
  }
}
