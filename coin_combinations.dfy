/** `DP.change`: the number of combinations of coins that pay an amount. */
module CoinCombinations {
  import opened Coins
  import opened Enumeration

  /** `dp[x]` after the first `k` denominations: combinations that do not use
      denomination `k - 1`, plus those that use it once more than a
      combination paying `x - coins[k - 1]`. */
  function Combinations(coins: seq<int>, k: nat, x: nat): (r: nat)
    requires Positive(coins) && k <= |coins|
    decreases k, x
  {
    if k == 0 then (if x == 0 then 1 else 0)
    else Combinations(coins, k - 1, x) + (if x >= coins[k - 1] then Combinations(coins, k, x - coins[k - 1]) else 0)
  }

  /** Every tally of the first `k` denominations that pays `x`. */
  function Tallies(coins: seq<int>, k: nat, x: nat): (r: seq<seq<nat>>)
    requires Positive(coins) && k <= |coins|
    decreases k, x, 1
  {
    if k == 0 then (if x == 0 then [[]] else [])
    else Unused(coins, k, x) + Reused(coins, k, x)
  }

  /** Those that use no coin of denomination `k - 1`. */
  function Unused(coins: seq<int>, k: nat, x: nat): (r: seq<seq<nat>>)
    requires Positive(coins) && 1 <= k <= |coins|
    decreases k, x, 0
  {
    Extend(Tallies(coins, k - 1, x), 0)
  }

  /** Those that use denomination `k - 1`: one more of it than a tally paying `x - coins[k - 1]`. */
  function Reused(coins: seq<int>, k: nat, x: nat): (r: seq<seq<nat>>)
    requires Positive(coins) && 1 <= k <= |coins|
    decreases k, x, 0
  {
    if x >= coins[k - 1] then Bump(Tallies(coins, k, x - coins[k - 1])) else []
  }

  /** Every tally of the list with one more coin of its last denomination. */
  function Bump(cnts: seq<seq<nat>>): (r: seq<seq<nat>>)
    ensures |r| == |cnts|
    ensures forall i :: 0 <= i < |r| ==> r[i] == Incr(cnts[i])
  {
    seq(|cnts|, i requires 0 <= i < |cnts| => Incr(cnts[i]))
  }

  /** A tally of the first `k` denominations that pays `x`. */
  ghost predicate Pays(coins: seq<int>, cnt: seq<nat>, k: nat, x: int)
    requires k <= |coins|
  {
    |cnt| == k && Value(coins, cnt) == x
  }

  lemma {:induction false} TalliesMember(coins: seq<int>, k: nat, x: nat, cnt: seq<nat>)
    requires Positive(coins) && k <= |coins|
    ensures cnt in Tallies(coins, k, x) <==> Pays(coins, cnt, k, x)
    decreases k, x, 2
  {
    if k == 0 {
      assert Pays(coins, cnt, k, x) ==> cnt == [];
    } else {
      UnusedMember(coins, k, x, cnt);
      ReusedMember(coins, k, x, cnt);
    }
  }

  lemma {:induction false} UnusedMember(coins: seq<int>, k: nat, x: nat, cnt: seq<nat>)
    requires Positive(coins) && 1 <= k <= |coins|
    ensures cnt in Unused(coins, k, x) <==> Pays(coins, cnt, k, x) && cnt[k - 1] == 0
    decreases k, x, 0
  {
    ExtendMember(Tallies(coins, k - 1, x), 0, cnt);
    if |cnt| > 0 {
      TalliesMember(coins, k - 1, x, cnt[..|cnt| - 1]);
      if cnt[|cnt| - 1] == 0 && |cnt| <= |coins| {
        DropZero(coins, cnt);
      }
    }
  }

  lemma {:induction false} ReusedMember(coins: seq<int>, k: nat, x: nat, cnt: seq<nat>)
    requires Positive(coins) && 1 <= k <= |coins|
    ensures cnt in Reused(coins, k, x) <==> Pays(coins, cnt, k, x) && cnt[k - 1] > 0
    decreases k, x, 1
  {
    if cnt in Reused(coins, k, x) {
      ReusedSound(coins, k, x, cnt);
    }
    if Pays(coins, cnt, k, x) && cnt[k - 1] > 0 {
      ReusedComplete(coins, k, x, cnt);
    }
  }

  lemma {:induction false} ReusedSound(coins: seq<int>, k: nat, x: nat, cnt: seq<nat>)
    requires Positive(coins) && 1 <= k <= |coins|
    requires cnt in Reused(coins, k, x)
    ensures Pays(coins, cnt, k, x) && cnt[k - 1] > 0
    decreases k, x, 0
  {
    var c := coins[k - 1];
    assert x >= c;
    var l := Tallies(coins, k, x - c);
    assert Reused(coins, k, x) == Bump(l);
    var d := BumpMember(l, cnt);
    TalliesMember(coins, k, x - c, d);
    IncrPays(coins, d, k, x - c);
  }

  lemma {:induction false} ReusedComplete(coins: seq<int>, k: nat, x: nat, cnt: seq<nat>)
    requires Positive(coins) && 1 <= k <= |coins|
    requires Pays(coins, cnt, k, x) && cnt[k - 1] > 0
    ensures cnt in Reused(coins, k, x)
    decreases k, x, 0
  {
    var c := coins[k - 1];
    DecrPays(coins, cnt, k, x);
    var d := Decr(cnt);
    var l := Tallies(coins, k, x - c);
    TalliesMember(coins, k, x - c, d);
    assert d in l;
    var i :| 0 <= i < |l| && l[i] == d;
    assert Bump(l)[i] == Incr(d) == cnt;
    assert Reused(coins, k, x) == Bump(l);
  }

  /** Taking one coin of the last denomination out of a tally that uses it. */
  lemma DecrPays(coins: seq<int>, cnt: seq<nat>, k: nat, x: nat)
    requires Positive(coins) && 1 <= k <= |coins|
    requires Pays(coins, cnt, k, x) && cnt[k - 1] > 0
    ensures x >= coins[k - 1] && Pays(coins, Decr(cnt), k, x - coins[k - 1]) && Incr(Decr(cnt)) == cnt
  {
    DecrStep(coins, cnt);
    ValueNonNegative(coins, Decr(cnt));
  }

  /** Adding one coin of the last denomination to a tally that uses it. */
  lemma IncrPays(coins: seq<int>, cnt: seq<nat>, k: nat, x: nat)
    requires Positive(coins) && 1 <= k <= |coins|
    requires Pays(coins, cnt, k, x)
    ensures Pays(coins, Incr(cnt), k, x + coins[k - 1]) && Incr(cnt)[k - 1] > 0
  {
    IncrStep(coins, cnt);
  }

  /** No tally is both carried over and reused. */
  lemma UnusedReusedDisjoint(coins: seq<int>, k: nat, x: nat)
    requires Positive(coins) && 1 <= k <= |coins|
    ensures forall cnt :: cnt in Unused(coins, k, x) ==> cnt !in Reused(coins, k, x)
  {
    forall cnt | cnt in Unused(coins, k, x) ensures cnt !in Reused(coins, k, x) {
      UnusedMember(coins, k, x, cnt);
      ReusedMember(coins, k, x, cnt);
    }
  }

  lemma BumpMember(cnts: seq<seq<nat>>, cnt: seq<nat>) returns (d: seq<nat>)
    requires cnt in Bump(cnts)
    ensures d in cnts && Incr(d) == cnt
  {
    var i :| 0 <= i < |cnts| && Bump(cnts)[i] == cnt;
    d := cnts[i];
  }

  lemma BumpNoDup(cnts: seq<seq<nat>>, k: nat)
    requires NoDup(cnts) && k > 0
    requires forall i :: 0 <= i < |cnts| ==> |cnts[i]| == k
    ensures NoDup(Bump(cnts))
  {
    forall i, j | 0 <= i < j < |cnts| ensures Bump(cnts)[i] != Bump(cnts)[j] {
      IncrInjective(cnts[i], cnts[j]);
    }
  }

  lemma {:induction false} TalliesNoDup(coins: seq<int>, k: nat, x: nat)
    requires Positive(coins) && k <= |coins|
    ensures NoDup(Tallies(coins, k, x))
    decreases k, x, 1
  {
    if k > 0 {
      TalliesNoDup(coins, k - 1, x);
      ExtendNoDup(Tallies(coins, k - 1, x), 0);
      ReusedNoDup(coins, k, x);
      UnusedReusedDisjoint(coins, k, x);
      ConcatNoDup(Unused(coins, k, x), Reused(coins, k, x));
    }
  }

  lemma {:induction false} ReusedNoDup(coins: seq<int>, k: nat, x: nat)
    requires Positive(coins) && 1 <= k <= |coins|
    ensures NoDup(Reused(coins, k, x))
    decreases k, x, 0
  {
    var c := coins[k - 1];
    if x >= c {
      var l := Tallies(coins, k, x - c);
      TalliesNoDup(coins, k, x - c);
      forall i | 0 <= i < |l| ensures |l[i]| == k {
        TalliesMember(coins, k, x - c, l[i]);
      }
      BumpNoDup(l, k);
    }
  }

  lemma IncrInjective(a: seq<nat>, b: seq<nat>)
    requires |a| == |b| > 0 && a != b
    ensures Incr(a) != Incr(b)
  {
    var k := |a| - 1;
    if a[..k] != b[..k] {
      var i :| 0 <= i < k && a[i] != b[i];
      assert Incr(a)[i] != Incr(b)[i];
    } else {
      assert a == a[..k] + [a[k]] && b == b[..k] + [b[k]];
      assert Incr(a)[k] != Incr(b)[k];
    }
  }

  lemma {:induction false} TalliesCount(coins: seq<int>, k: nat, x: nat)
    requires Positive(coins) && k <= |coins|
    ensures |Tallies(coins, k, x)| == Combinations(coins, k, x)
    decreases k, x
  {
    if k > 0 {
      TalliesCount(coins, k - 1, x);
      if x >= coins[k - 1] {
        TalliesCount(coins, k, x - coins[k - 1]);
      }
    }
  }

  /** The table counts combinations: `Tallies` lists every tally of all the
      denominations that pays `amount`, each once, and there are as many as
      the table says. */
  lemma CombinationsCountTallies(coins: seq<int>, amount: nat)
    requires Positive(coins)
    ensures |Tallies(coins, |coins|, amount)| == Combinations(coins, |coins|, amount)
    ensures NoDup(Tallies(coins, |coins|, amount))
    ensures forall cnt :: cnt in Tallies(coins, |coins|, amount) <==> Pays(coins, cnt, |coins|, amount)
  {
    TalliesCount(coins, |coins|, amount);
    TalliesNoDup(coins, |coins|, amount);
    forall cnt ensures cnt in Tallies(coins, |coins|, amount) <==> Pays(coins, cnt, |coins|, amount) {
      TalliesMember(coins, |coins|, amount, cnt);
    }
  }

  /** Fills `dp = [1] + [0] * amount` coin by coin, the inner index ascending
      so that `dp[i - coin]` already counts combinations using this coin, and
      returns `dp[amount]`. */
  method Change(amount: int, coins: seq<int>) returns (r: int)
    requires Positive(coins) && amount >= 0
    ensures r == Combinations(coins, |coins|, amount) == |Tallies(coins, |coins|, amount)|
  {
    var dp := new int[amount + 1](i => if i == 0 then 1 else 0);
    for k := 0 to |coins|
      invariant forall x :: 0 <= x <= amount ==> dp[x] == Combinations(coins, k, x)
    {
      var coin := coins[k];
      var i := coin;
      while i <= amount
        invariant coin <= i && (i <= amount + 1 || i == coin)
        invariant forall x :: 0 <= x < i && x <= amount ==> dp[x] == Combinations(coins, k + 1, x)
        invariant forall x :: i <= x <= amount ==> dp[x] == Combinations(coins, k, x)
      {
        dp[i] := dp[i] + dp[i - coin];
        i := i + 1;
      }
    }
    TalliesCount(coins, |coins|, amount);
    r := dp[amount];
  }

  /** Nothing is paid in exactly one way, by no coins at all: `dp[0]` stays 1. */
  lemma {:induction false} ZeroAmount(coins: seq<int>, k: nat)
    requires Positive(coins) && k <= |coins|
    ensures Combinations(coins, k, 0) == 1
  {
    if k > 0 {
      ZeroAmount(coins, k - 1);
    }
  }

  /** Five is paid as 5, 2 + 2 + 1, 2 + 1 + 1 + 1 and 1 + 1 + 1 + 1 + 1. */
  lemma ChangeSample()
    ensures Combinations([1, 2, 5], 3, 5) == 4
  {
  }
}
