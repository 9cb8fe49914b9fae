/** Factorial and a signed two-term recurrence, computed recursively and with
    a sliding window (6laba.py; Lab/7laba.py repeats the same three functions).

    Values are exact rationals (`real`), so the recursive and the iterative
    computation agree exactly: both apply the same operations to the same
    operands. */
module Recurrence {

  /** `get_fact(n)`: n! for n >= 0, and 1 for every n <= 1, since the loop over
      range(2, n + 1) does not run there. */
  function Fact(n: int): (r: nat)
    ensures r >= 1
    decreases n
  {
    if n <= 1 then 1 else n * Fact(n - 1)
  }

  /** `get_fact`: 1 at n == 0, otherwise the running product of 2..n. */
  method GetFact(n: int) returns (b: int)
    ensures b == Fact(n)
    ensures b >= 1
  {
    b := 1;
    if n == 0 {
      return 1;
    }
    var i := 2;
    while i <= n
      invariant 2 <= i <= if n >= 1 then n + 1 else 2
      invariant b == Fact(i - 1)
    {
      assert Fact(i) == i * Fact(i - 1);
      b := b * i;
      i := i + 1;
    }
  }

  /** `F_rec(n)`: 1 for every n < 2, negative n included; from n = 2 on, the
      sign (-1 for odd n) times 2 F(n-1)/n! + F(n-3)/(2n)!. Both recursive
      arguments are smaller than n and at least -1. */
  function FRec(n: int): real
    decreases n + 1
  {
    if n < 2 then 1.0
    else
      var sign := if n % 2 == 1 then -1.0 else 1.0;
      var term1 := 2.0 * FRec(n - 1) / Fact(n) as real;
      var term2 := FRec(n - 3) / Fact(2 * n) as real;
      sign * (term1 + term2)
  }

  /** Below 2 the recurrence is 1, negative arguments included, so the
      lookback to n - 3 from n = 2 reads 1. */
  lemma {:induction false} FRecBelowTwo(n: int)
    requires n < 2
    ensures FRec(n) == 1.0
  {
  }

  /** The three values `F_iter` keeps before computing index i:
      F(i-3), F(i-2), F(i-1). Before the first pass (i = 2) they are
      F(-1), F(0), F(1), all 1. */
  function Window(i: int): (f: seq<real>)
    ensures |f| == 3
  {
    [FRec(i - 3), FRec(i - 2), FRec(i - 1)]
  }

  /** `F_iter(n)`: the loop over i = 2..n that keeps the last three values in
      `f` and shifts in each new one; the pass at i == 2 reads f[1] and the
      constant 1 in place of f[2] and f[0]. It returns F_rec(n). */
  method FIter(n: int) returns (r: real)
    ensures r == FRec(n)
  {
    if n < 2 {
      return 1.0;
    }
    var f := [1.0, 1.0, 1.0];
    var i := 2;
    while i <= n
      invariant 2 <= i <= n + 1
      invariant f == Window(i)
    {
      var sign := if i % 2 == 1 then -1.0 else 1.0;
      var term1, term2;
      if i == 2 {
        term1 := 2.0 * f[1] / Fact(i) as real;
        term2 := 1.0 / Fact(2 * i) as real;
      } else {
        term1 := 2.0 * f[2] / Fact(i) as real;
        term2 := f[0] / Fact(2 * i) as real;
      }
      var newVal := sign * (term1 + term2);
      assert newVal == FRec(i);
      if i >= 2 {
        f := [f[1], f[2], newVal];
      }
      i := i + 1;
    }
    r := f[2];
  }
}
