/** `DP.sum`: the summation 1 + 2 + ... + num, by a bottom-up table. */
module SumToN {
  import opened Outcomes

  /** The recurrence of the exercise: f(n) = n + f(n - 1), f(0) = 0. */
  function Triangle(n: nat): (r: nat)
  {
    if n == 0 then 0 else n + Triangle(n - 1)
  }

  /** Gauss' closed form of the recurrence. */
  lemma {:induction false} TriangleClosedForm(n: nat)
    ensures Triangle(n) == n * (n + 1) / 2
  {
    if n > 0 {
      TriangleClosedForm(n - 1);
      assert n * (n + 1) == (n - 1) * n + 2 * n;
    }
  }

  /** Raises `ValueError` for a non-positive input; otherwise fills
      `buffer[i] = buffer[i - 1] + i` and returns the last entry. */
  method Sum(num: int) returns (r: Result<int>)
    ensures num < 1 <==> r == Err(ValueError)
    ensures num >= 1 ==> r == Ok(num * (num + 1) / 2) && r.value == Triangle(num)
  {
    if num < 1 {
      return Err(ValueError);
    }
    var buffer := new int[num + 1](_ => 0);
    for index := 1 to num + 1
      invariant buffer[index - 1] == Triangle(index - 1)
    {
      buffer[index] := buffer[index - 1] + index;
    }
    var last := buffer[num];
    assert last == Triangle(num);
    TriangleClosedForm(num);
    return Ok(last);
  }
}
