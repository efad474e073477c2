/** Explicit enumerations: lists of candidate solutions built one choice at a
    time. The counting exercises are proved to return the length of such a
    list, whose members are exactly the valid solutions, each listed once. */
module Enumeration {

  /** Every sequence of `xss` with `x` appended. */
  function Extend<T>(xss: seq<seq<T>>, x: T): (r: seq<seq<T>>)
    ensures |r| == |xss|
    ensures forall i :: 0 <= i < |r| ==> r[i] == xss[i] + [x]
  {
    seq(|xss|, i requires 0 <= i < |xss| => xss[i] + [x])
  }

  /** No element is listed twice. */
  ghost predicate NoDup<T>(xs: seq<T>)
  {
    forall i, j :: 0 <= i < j < |xs| ==> xs[i] != xs[j]
  }

  lemma ExtendMember<T>(xss: seq<seq<T>>, x: T, s: seq<T>)
    ensures s in Extend(xss, x) <==> |s| > 0 && s[|s| - 1] == x && s[..|s| - 1] in xss
  {
    var r := Extend(xss, x);
    if s in r {
      var i :| 0 <= i < |r| && r[i] == s;
      assert s[..|s| - 1] == xss[i];
    }
    if |s| > 0 && s[|s| - 1] == x && s[..|s| - 1] in xss {
      var i :| 0 <= i < |xss| && xss[i] == s[..|s| - 1];
      assert r[i] == s;
    }
  }

  lemma ExtendNoDup<T>(xss: seq<seq<T>>, x: T)
    requires NoDup(xss)
    ensures NoDup(Extend(xss, x))
  {
    var r := Extend(xss, x);
    forall i, j | 0 <= i < j < |r| ensures r[i] != r[j] {
      assert r[i][..|xss[i]|] == xss[i] && r[j][..|xss[j]|] == xss[j];
    }
  }

  /** Lists whose last choices differ share no element. */
  lemma ExtendDisjoint<T>(a: seq<seq<T>>, b: seq<seq<T>>, x: T, y: T)
    requires x != y
    ensures forall s :: s in Extend(a, x) ==> s !in Extend(b, y)
  {
    forall s | s in Extend(a, x) ensures s !in Extend(b, y) {
      ExtendMember(a, x, s);
      ExtendMember(b, y, s);
    }
  }

  lemma ConcatNoDup<T>(a: seq<T>, b: seq<T>)
    requires NoDup(a) && NoDup(b)
    requires forall s :: s in a ==> s !in b
    ensures NoDup(a + b)
  {
    var r := a + b;
    forall i, j | 0 <= i < j < |r| ensures r[i] != r[j] {
      if j >= |a| && i < |a| {
        assert r[i] in a && r[j] in b;
      } else if j >= |a| {
        assert r[i] == b[i - |a|] && r[j] == b[j - |a|];
      }
    }
  }
}
