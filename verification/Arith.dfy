/** Multiplication and division facts stated on plain variables, where the solver is quick. */
module Arith {

  lemma ToRealMul(a: int, b: int)
    ensures (a * b) as real == a as real * b as real
  {
  }

  lemma RealAssoc(a: real, b: real, c: real)
    ensures (a * b) * c == a * (b * c)
  {
  }

  lemma RealComm(a: real, b: real)
    ensures a * b == b * a
  {
  }

  lemma RealDistribute(a: real, b: real, c: real)
    ensures a * b - a * c == a * (b - c)
  {
  }

  lemma RealTenth(a: real, b: real)
    ensures (a / 10.0) * b == (a * b) / 10.0
  {
  }

  lemma RealMulOrder(a: real, b: real, s: real)
    requires s > 0.0
    ensures a <= b <==> a * s <= b * s
  {
  }

  lemma MulMono(a: int, b: int, m: nat)
    requires a <= b
    ensures a * m <= b * m
  {
  }

  lemma MulAssoc(a: int, b: int, c: int)
    ensures (a * b) * c == a * (b * c)
  {
  }

  lemma MulComm(a: int, b: int)
    ensures a * b == b * a
  {
  }

  lemma MulSucc(a: int, m: int)
    ensures (a + 1) * m == a * m + m
  {
  }

  lemma DivModUnique(q: int, r: int, p: int, t: int, m: int)
    requires 0 <= r < m && 0 <= t < m && q * m + r == p * m + t
    ensures q == p && r == t
  {
    if q < p {
      MulMono(q + 1, p, m);
      MulSucc(q, m);
    } else if p < q {
      MulMono(p + 1, q, m);
      MulSucc(p, m);
    }
  }

  lemma DivMod(n: int, m: int)
    requires m > 0
    ensures n == (n / m) * m + n % m
  {
  }

  /** The quotient and remainder of a positive divisor are what makes `n == q * m + r`. */
  lemma DivModIs(n: int, m: int, q: int, r: int)
    requires 0 <= r < m && n == q * m + r
    ensures n / m == q && n % m == r
  {
    DivMod(n, m);
    DivModUnique(n / m, n % m, q, r, m);
  }

  /** Two numbers in the rounding intervals of quotients the wrong way round are one tie. */
  lemma TieOnly(a: int, b: int, m: int, p: int, q: int)
    requires m > 0 && a <= b && p > q
    requires 2 * (a - p * m) >= -m && 2 * (b - q * m) <= m
    ensures a == b && p == q + 1 && 2 * (a - p * m) == -m && 2 * (b - q * m) == m
  {
    MulMono(q + 1, p, m);
    MulSucc(q, m);
    if p > q + 1 {
      MulMono(q + 2, p, m);
      MulSucc(q + 1, m);
    }
  }
}
