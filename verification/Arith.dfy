/** Facts about Euclidean integer division that the solver does not find alone. */
module Arith {

  lemma {:induction false} MulSign(m: int, x: int)
    requires m > 0
    ensures x >= 1 ==> m * x >= m
    ensures x <= -1 ==> m * x <= -m
    decreases if x >= 0 then x else -x
  {
    if x > 1 {
      MulSign(m, x - 1);
      assert m * x == m * (x - 1) + m;
    } else if x < -1 {
      MulSign(m, x + 1);
      assert m * x == m * (x + 1) - m;
    }
  }

  lemma DivIsUnique(a: int, m: int, q: int)
    requires m > 0
    requires m * q <= a < m * q + m
    ensures a / m == q
  {
    assert m * (a / m - q) == m * (a / m) - m * q;
    MulSign(m, a / m - q);
  }

  lemma DivMonotone(a: int, b: int, m: int)
    requires m > 0 && a <= b
    ensures a / m <= b / m
  {
    assert m * (a / m - b / m) == m * (a / m) - m * (b / m);
    MulSign(m, a / m - b / m);
  }

  lemma DivGap(a: int, b: int, m: int)
    requires m > 0 && b - a >= m
    ensures a / m < b / m
  {
    DivMonotone(a + m, b, m);
    DivIsUnique(a + m, m, a / m + 1);
  }

  /** The remainder of n by d, measured from the quotient and from the quotient plus one. */
  lemma DivParts(n: int, d: int)
    requires d > 0
    ensures n - (n / d) * d == n % d
    ensures n - (n / d + 1) * d == n % d - d
    ensures 0 <= n % d < d
  {
    assert (n / d + 1) * d == (n / d) * d + d;
  }

  /** Adding one divisor to the dividend adds one to the quotient. */
  lemma DivShift(x: int, d: int)
    requires d > 0
    ensures (x + d) / d == x / d + 1
  {
    assert d * (x / d + 1) == d * (x / d) + d;
    DivIsUnique(x + d, d, x / d + 1);
  }

  /** Taking one block of d off a count of at least d takes one off its quotient by d. */
  lemma DivStep(x: int, d: int)
    requires d > 0
    ensures x >= d ==> (x - d) / d + 1 == x / d
    ensures 0 <= x < d ==> x / d == 0
  {
    if x >= d {
      DivShift(x - d, d);
    } else if 0 <= x {
      DivIsUnique(x, d, 0);
    }
  }

  /** The number of whole blocks of d in a count of n, taken off one block at a time. */
  function Blocks(n: nat, d: nat): nat
    requires d > 0
    decreases n
  {
    if n < d then 0 else 1 + Blocks(n - d, d)
  }

  /** One block more or less. */
  lemma BlocksStep(n: nat, d: nat)
    requires d > 0
    ensures n >= d ==> Blocks(n, d) == 1 + Blocks(n - d, d)
    ensures n < d ==> Blocks(n, d) == 0
  {
  }

  /** Taking blocks off one at a time counts the quotient. */
  lemma {:induction false} BlocksIsQuotient(n: nat, d: nat)
    requires d > 0
    ensures Blocks(n, d) == n / d
    decreases n
  {
    DivStep(n, d);
    if n >= d {
      BlocksIsQuotient(n - d, d);
    }
  }
}
