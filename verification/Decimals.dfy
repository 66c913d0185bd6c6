/**
 Finite decimals as Python's `decimal` module computes with them: an integer coefficient
 and a power-of-ten exponent, compared by value, with products and quotients rounded
 half-even to 28 significant digits.
 */
module Decimals {
  import opened Arith

  const PRECISION: nat := 28

  datatype Decimal = Decimal(coef: int, exp: int)

  function Pow10(k: nat): (p: nat)
    ensures p >= 1
  {
    if k == 0 then 1 else 10 * Pow10(k - 1)
  }

  /** `x` with its decimal point moved `e` places, that is `x` times ten to the `e`. */
  function Shift(x: real, e: int): real
    decreases if e < 0 then -e else e
  {
    if e == 0 then x else if e > 0 then 10.0 * Shift(x, e - 1) else Shift(x, e + 1) / 10.0
  }

  /** The number a decimal denotes; equality and order of decimals are those of their values. */
  function Value(d: Decimal): real {
    Shift(d.coef as real, d.exp)
  }

  /** The number of decimal digits of `n`. */
  function Digits(n: nat): (d: nat)
    ensures d >= 1
    ensures n < Pow10(d)
    ensures n > 0 ==> Pow10(d - 1) <= n
  {
    if n < 10 then
      assert Pow10(1) == 10;
      1
    else
      1 + Digits(n / 10)
  }

  /** The integer nearest to `n / m`, ties to even. */
  function HalfEven(n: nat, m: nat): nat
    requires m > 0
  {
    var q, r := n / m, n % m;
    if 2 * r < m || (2 * r == m && q % 2 == 0) then q else q + 1
  }

  /** No integer is nearer, and at a tie the even one is taken. */
  lemma HalfEvenNearest(n: nat, m: nat)
    requires m > 0
    ensures var d := 2 * (n - HalfEven(n, m) * m);
            -(m as int) <= d <= m && (d == m || d == -(m as int) ==> HalfEven(n, m) % 2 == 0)
  {
    DivMod(n, m);
    MulSucc(n / m, m);
  }

  /** The weight of the last digit kept when `n` is rounded to the context precision. */
  function Quantum(n: nat): (m: nat)
    ensures m >= 1
  {
    if Digits(n) <= PRECISION then 1 else Pow10(Digits(n) - PRECISION)
  }

  /** `n` rounded to the context precision. */
  function RoundNat(n: nat): nat {
    HalfEven(n, Quantum(n)) * Quantum(n)
  }

  function RoundInt(c: int): int {
    if c < 0 then -(RoundNat(-c) as int) else RoundNat(c)
  }

  /** Rounding a decimal to the context: the coefficient keeps at most 28 digits. */
  function Rounded(d: Decimal): Decimal {
    var mag: nat := if d.coef < 0 then -d.coef else d.coef;
    if Digits(mag) <= PRECISION then d
    else
      var shift := Digits(mag) - PRECISION;
      var q: int := HalfEven(mag, Pow10(shift));
      Carried(if d.coef < 0 then -q else q, d.exp + shift)
  }

  /** A carry out of the 28th digit: 10^28 is rewritten as 10^27 with the next exponent. */
  function Carried(q: int, e: int): (d: Decimal)
    ensures Value(d) == Value(Decimal(q, e))
  {
    var top: int := Pow10(PRECISION - 1);
    ShiftTen(top as real, e);
    ShiftTen((-top) as real, e);
    if q == 10 * top then Decimal(top, e + 1)
    else if q == -10 * top then Decimal(-top, e + 1)
    else Decimal(q, e)
  }

  function Mul(a: Decimal, b: Decimal): Decimal {
    Rounded(Decimal(a.coef * b.coef, a.exp + b.exp))
  }

  /** Dividing by 1,000,000: drops to XRP. */
  function DropsToXrp(drops: Decimal): Decimal {
    Rounded(Decimal(drops.coef, drops.exp - 6))
  }

  // ---------------------------------------------------------------- powers of ten

  lemma {:induction false} PowAdd(j: nat, k: nat)
    ensures Pow10(j + k) == Pow10(j) * Pow10(k)
  {
    if j > 0 {
      PowAdd(j - 1, k);
      MulAssoc(10, Pow10(j - 1), Pow10(k));
    }
  }

  lemma {:induction false} PowMono(j: nat, k: nat)
    ensures j <= k ==> Pow10(j) <= Pow10(k)
  {
    if j < k {
      PowMono(j, k - 1);
    }
  }

  lemma {:induction false} ShiftTen(x: real, e: int)
    ensures Shift(10.0 * x, e) == 10.0 * Shift(x, e) == Shift(x, e + 1)
    decreases if e < 0 then -e else e
  {
    if e > 0 {
      ShiftTen(x, e - 1);
    } else if e < 0 {
      ShiftTen(x, e + 1);
    }
  }

  lemma {:induction false} ShiftOrder(x: real, y: real, e: int)
    ensures x <= y <==> Shift(x, e) <= Shift(y, e)
    decreases if e < 0 then -e else e
  {
    if e > 0 {
      ShiftOrder(x, y, e - 1);
    } else if e < 0 {
      ShiftOrder(x, y, e + 1);
    }
  }

  lemma {:induction false} ShiftFactor(x: real, y: real, e: int)
    ensures Shift(x * y, e) == Shift(x, e) * y
    decreases if e < 0 then -e else e
  {
    if e > 0 {
      ShiftFactor(x, y, e - 1);
      RealAssoc(10.0, Shift(x, e - 1), y);
    } else if e < 0 {
      ShiftFactor(x, y, e + 1);
      RealTenth(Shift(x, e + 1), y);
    }
  }

  lemma {:induction false} ShiftSum(x: real, i: int, j: int)
    ensures Shift(Shift(x, i), j) == Shift(x, i + j)
    decreases if j < 0 then -j else j
  {
    if j > 0 {
      ShiftSum(x, i, j - 1);
      ShiftTen(x, i + j - 1);
    } else if j < 0 {
      ShiftSum(x, i, j + 1);
      ShiftTen(x, i + j);
    }
  }

  /** Writing the same number with a smaller exponent. */
  lemma {:induction false} Rescale(c: int, e: int, k: nat)
    ensures Value(Decimal(c, e + k)) == Value(Decimal(c * Pow10(k), e))
    decreases k
  {
    if k > 0 {
      Rescale(c, e + 1, k - 1);
      var p := c * Pow10(k - 1);
      TenTimes(c, Pow10(k - 1));
      ShiftTen(p as real, e);
    }
  }

  // ---------------------------------------------------------------- rounding

  lemma DigitsUnique(n: nat, d: nat)
    requires d >= 1 && Pow10(d - 1) <= n < Pow10(d)
    ensures Digits(n) == d
  {
    PowMono(Digits(n), d - 1);
    PowMono(d, Digits(n) - 1);
  }

  lemma DigitsBound(n: nat, d: nat)
    requires d >= 1 && n < Pow10(d)
    ensures Digits(n) <= d
  {
    PowMono(d, Digits(n) - 1);
  }

  lemma HalfEvenMono(a: nat, b: nat, m: nat)
    requires m > 0 && a <= b
    ensures HalfEven(a, m) <= HalfEven(b, m)
  {
    HalfEvenNearest(a, m);
    HalfEvenNearest(b, m);
    if HalfEven(a, m) > HalfEven(b, m) {
      TieOnly(a, b, m, HalfEven(a, m), HalfEven(b, m));
    }
  }

  lemma HalfEvenScale(n: nat, m: nat)
    requires m > 0
    ensures HalfEven(10 * n, 10 * m) == HalfEven(n, m)
  {
    var q, r := n / m, n % m;
    DivMod(n, m);
    assert q * (10 * m) == 10 * (q * m);
    DivModIs(10 * n, 10 * m, q, 10 * r);
  }

  lemma HalfEvenExact(q: nat, m: nat)
    requires m > 0
    ensures HalfEven(q * m, m) == q
  {
    DivModIs(q * m, m, q, 0);
  }

  /** Rounding does not depend on how a number is split into coefficient and exponent. */
  lemma RoundNatTen(n: nat)
    ensures RoundNat(10 * n) == 10 * RoundNat(n)
  {
    if n == 0 {
      HalfEvenExact(0, 1);
    } else {
      DigitsUnique(10 * n, Digits(n) + 1);
      if Digits(n) >= PRECISION {
        TenfoldQuantum(Digits(n));
        HalfEvenScale(n, Quantum(n));
        MulAssoc(10, HalfEven(n, Quantum(n)), Quantum(n));
        MulAssoc(HalfEven(n, Quantum(n)), 10, Quantum(n));
      } else {
        HalfEvenExact(n, 1);
        HalfEvenExact(10 * n, 1);
      }
    }
  }

  lemma TenfoldQuantum(d: nat)
    requires d >= PRECISION
    ensures Pow10(d + 1 - PRECISION) == 10 * Pow10(d - PRECISION)
    ensures d == PRECISION ==> Pow10(d - PRECISION) == 1
  {
  }

  lemma {:induction false} RoundIntScale(c: int, k: nat)
    ensures RoundInt(c * Pow10(k)) == RoundInt(c) * Pow10(k)
  {
    if k > 0 {
      RoundIntScale(c, k - 1);
      TenTimes(c, Pow10(k - 1));
      TenTimes(RoundInt(c), Pow10(k - 1));
      RoundIntTen(c * Pow10(k - 1));
    }
  }

  lemma TenTimes(c: int, p: int)
    ensures c * (10 * p) == 10 * (c * p)
  {
  }

  lemma RoundIntTen(d: int)
    ensures RoundInt(10 * d) == 10 * RoundInt(d)
  {
    if d < 0 {
      RoundNatTen(-d);
      assert 10 * -d == -(10 * d);
    } else {
      RoundNatTen(d);
    }
  }

  /** A number of `d` digits rounds to something between the powers of ten around it. */
  lemma RoundNatRange(n: nat)
    requires n > 0
    ensures Pow10(Digits(n) - 1) <= RoundNat(n) <= Pow10(Digits(n))
  {
    if Digits(n) > PRECISION {
      assert Quantum(n) == Pow10(Digits(n) - PRECISION);
      LongRange(n, PRECISION, Digits(n) - PRECISION, Digits(n));
    } else {
      HalfEvenExact(n, 1);
    }
  }

  lemma LongRange(n: nat, p: nat, k: nat, d: nat)
    requires p >= 1 && d == p + k && Pow10(d - 1) <= n <= Pow10(d)
    ensures Pow10(d - 1) <= HalfEven(n, Pow10(k)) * Pow10(k) <= Pow10(d)
  {
    PowAdd(p - 1, k);
    PowAdd(p, k);
    HalfEvenRange(Pow10(p - 1), Pow10(p), n, Pow10(k));
  }

  lemma HalfEvenRange(lo: nat, hi: nat, n: nat, m: nat)
    requires m > 0 && lo * m <= n <= hi * m
    ensures lo * m <= HalfEven(n, m) * m <= hi * m
  {
    HalfEvenExact(lo, m);
    HalfEvenExact(hi, m);
    HalfEvenMono(lo * m, n, m);
    HalfEvenMono(n, hi * m, m);
    MulMono(lo, HalfEven(n, m), m);
    MulMono(HalfEven(n, m), hi, m);
  }

  lemma RoundNatMono(a: nat, b: nat)
    requires a <= b
    ensures RoundNat(a) <= RoundNat(b)
  {
    if a == 0 {
      HalfEvenExact(0, Quantum(0));
    } else if Digits(a) == Digits(b) {
      HalfEvenMono(a, b, Quantum(a));
      MulMono(HalfEven(a, Quantum(a)), HalfEven(b, Quantum(a)), Quantum(a));
    } else {
      PowMono(Digits(b), Digits(a) - 1);
      RoundNatRange(a);
      RoundNatRange(b);
      PowMono(Digits(a), Digits(b) - 1);
    }
  }

  lemma RoundIntMono(a: int, b: int)
    requires a <= b
    ensures RoundInt(a) <= RoundInt(b)
  {
    if b < 0 {
      RoundNatMono(-b, -a);
    } else if a >= 0 {
      RoundNatMono(a, b);
    }
  }

  /** The rounded decimal denotes the rounded coefficient at the old exponent. */
  lemma RoundedValue(d: Decimal)
    ensures Value(Rounded(d)) == Value(Decimal(RoundInt(d.coef), d.exp))
  {
    var mag: nat := if d.coef < 0 then -d.coef else d.coef;
    if Digits(mag) <= PRECISION {
      HalfEvenExact(mag, 1);
    } else {
      var shift: nat := Digits(mag) - PRECISION;
      var q: int := HalfEven(mag, Pow10(shift));
      var signed := if d.coef < 0 then -q else q;
      Negated(q, Pow10(shift));
      assert RoundInt(d.coef) == signed * Pow10(shift);
      Rescale(signed, d.exp, shift);
    }
  }

  lemma Negated(a: int, b: int)
    ensures (-a) * b == -(a * b)
  {
  }

  lemma ValueOrder(a: int, b: int, e: int)
    ensures a <= b <==> Value(Decimal(a, e)) <= Value(Decimal(b, e))
  {
    ShiftOrder(a as real, b as real, e);
  }

  /** Rounding to 28 digits keeps the order of values, whatever their exponents. */
  lemma RoundedMono(a: Decimal, b: Decimal)
    requires Value(a) <= Value(b)
    ensures Value(Rounded(a)) <= Value(Rounded(b))
  {
    var e := if a.exp <= b.exp then a.exp else b.exp;
    var ja: nat, jb: nat := a.exp - e, b.exp - e;
    var ca, cb := a.coef * Pow10(ja), b.coef * Pow10(jb);
    Rescale(a.coef, e, ja);
    Rescale(b.coef, e, jb);
    ValueOrder(ca, cb, e);
    RoundIntMono(ca, cb);
    RoundIntScale(a.coef, ja);
    RoundIntScale(b.coef, jb);
    RoundedValue(a);
    RoundedValue(b);
    Rescale(RoundInt(a.coef), e, ja);
    Rescale(RoundInt(b.coef), e, jb);
    ValueOrder(RoundInt(ca), RoundInt(cb), e);
  }

  /** A decimal is left as it is exactly when the digits beyond the 28th are all zero. */
  predicate Fits(c: int) {
    var mag: nat := if c < 0 then -c else c;
    mag % Quantum(mag) == 0
  }

  lemma RoundedExactIff(d: Decimal)
    ensures Value(Rounded(d)) == Value(d) <==> Fits(d.coef)
  {
    var mag: nat := if d.coef < 0 then -d.coef else d.coef;
    RoundedValue(d);
    ValueOrder(RoundInt(d.coef), d.coef, d.exp);
    ValueOrder(d.coef, RoundInt(d.coef), d.exp);
    RoundNatExactIff(mag);
  }

  lemma RoundNatExactIff(n: nat)
    ensures RoundNat(n) == n <==> n % Quantum(n) == 0
  {
    var m := Quantum(n);
    DivMod(n, m);
    if n % m == 0 {
      HalfEvenExact(n / m, m);
    } else if RoundNat(n) == n {
      DivModIs(n, m, HalfEven(n, m), 0);
    }
  }

  function Abs(x: real): real {
    if x < 0.0 then -x else x
  }

  function AbsInt(x: int): nat {
    if x < 0 then -x else x
  }

  /** `x` is off `y` by no more than one part in `k`. */
  predicate Near(x: real, y: real, k: real) {
    k * Abs(x - y) <= Abs(y)
  }

  /** Off by at most one part in twice 10^27, that is five parts in 10^28. */
  predicate Near28(x: real, y: real) {
    Near(x, y, 2000000000000000000000000000.0)
  }

  /** The relative error of rounding a decimal is at most five parts in 10^28. */
  lemma RelativeError(d: Decimal)
    ensures Near28(Value(Rounded(d)), Value(d))
  {
    RoundedValue(d);
    var y, k := RoundIntError(d.coef);
    NearShifted(d.coef as real, y, d.exp, k, Value(d), Value(Rounded(d)));
    TwiceTo27(k);
  }

  lemma TwiceTo27(k: real)
    requires k == (2 * Pow10(PRECISION - 1)) as real
    ensures k == 2000000000000000000000000000.0
  {
    assert Pow10(3) == 1000;
    PowAdd(3, 3);
    PowAdd(6, 3);
    PowAdd(9, 9);
    PowAdd(18, 9);
  }

  /** Moving both decimal points does not change how near two numbers are. */
  lemma NearShifted(x: real, y: real, e: int, k: real, vx: real, vy: real)
    requires Near(y, x, k) && vx == Shift(x, e) && vy == Shift(y, e)
    ensures Near(vy, vx, k)
  {
    var unit := UnitOf(x, y, e, vx, vy);
    ScaledError(unit, x, y, k, vx, vy);
  }

  lemma UnitOf(x: real, y: real, e: int, vx: real, vy: real) returns (unit: real)
    requires vx == Shift(x, e) && vy == Shift(y, e)
    ensures unit > 0.0 && unit == Shift(1.0, e) && vx == unit * x && vy == unit * y
  {
    unit := Shift(1.0, e);
    ScaledShift(x, e);
    ScaledShift(y, e);
    PositiveValue(Decimal(1, e));
    assert 1 as real == 1.0;
  }

  lemma ScaledShift(x: real, e: int)
    ensures Shift(x, e) == Shift(1.0, e) * x
  {
    ShiftFactor(1.0, x, e);
    assert 1.0 * x == x;
  }

  lemma RoundNatError(n: nat)
    ensures 2 * AbsInt(RoundNat(n) - n) * Pow10(PRECISION - 1) <= n
  {
    var e := AbsInt(RoundNat(n) - n);
    if Digits(n) > PRECISION {
      var m := Quantum(n);
      HalfEvenNearest(n, m);
      PowAdd(PRECISION - 1, Digits(n) - PRECISION);
      MulMono(2 * e, m, Pow10(PRECISION - 1));
      MulComm(m, Pow10(PRECISION - 1));
    } else {
      HalfEvenExact(n, 1);
    }
  }

  lemma RoundIntError(c: int) returns (y: real, k: real)
    ensures y == RoundInt(c) as real && k == (2 * Pow10(PRECISION - 1)) as real && Near(y, c as real, k)
  {
    var r, p := RoundInt(c), Pow10(PRECISION - 1);
    RoundNatError(AbsInt(c));
    assert AbsInt(r - c) == AbsInt(RoundNat(AbsInt(c)) - AbsInt(c));
    ErrorAsReal(c, r, p);
    y, k := r as real, (2 * p) as real;
  }

  lemma ErrorAsReal(c: int, r: int, p: nat)
    requires 2 * AbsInt(r - c) * p <= AbsInt(c)
    ensures Near(r as real, c as real, (2 * p) as real)
  {
    var e := AbsInt(r - c);
    assert Abs(r as real - c as real) == e as real;
    Regrouped(e, p);
    ToRealMul(2 * p, e);
  }

  lemma Regrouped(e: int, p: int)
    ensures 2 * e * p == (2 * p) * e
  {
  }

  /** A bound on an error does not depend on the unit. */
  lemma ScaledError(unit: real, c: real, r: real, k: real, vc: real, vr: real)
    requires unit > 0.0 && Near(r, c, k) && vc == unit * c && vr == unit * r
    ensures Near(vr, vc, k)
  {
    AbsScaled(unit, c);
    AbsScaled(unit, r - c);
    RealDistribute(unit, r, c);
    RealMulOrder(k * Abs(r - c), Abs(c), unit);
    RealAssoc(k, Abs(r - c), unit);
  }

  lemma AbsScaled(unit: real, x: real)
    requires unit > 0.0
    ensures Abs(unit * x) == unit * Abs(x) == Abs(x) * unit
  {
    if x < 0.0 {
      RealMulOrder(x, 0.0, unit);
    } else {
      RealMulOrder(0.0, x, unit);
    }
  }

  // ---------------------------------------------------------------- correct rounding

  /** No decimal of at most 28 digits, whatever its exponent, is nearer to a value than the value rounded. */
  lemma RoundedIsNearest(d: Decimal, t: Decimal)
    requires AbsInt(t.coef) < Pow10(PRECISION)
    ensures Abs(Value(Rounded(d)) - Value(d)) <= Abs(Value(t) - Value(d))
  {
    RoundedValue(d);
    NearestAtCommonExponent(d, t, if d.exp <= t.exp then d.exp else t.exp, Value(Rounded(d)));
  }

  lemma NearestAtCommonExponent(d: Decimal, t: Decimal, e: int, rounded: real)
    requires e <= d.exp && e <= t.exp && AbsInt(t.coef) < Pow10(PRECISION)
    requires rounded == Value(Decimal(RoundInt(d.coef), d.exp))
    ensures Abs(rounded - Value(d)) <= Abs(Value(t) - Value(d))
  {
    var j: nat, k: nat := d.exp - e, t.exp - e;
    var r, p, q := ScaledNearest(d.coef, t.coef, j, k);
    Rescale(d.coef, e, j);
    Rescale(t.coef, e, k);
    Rescale(r, e, j);
    NearerValues(d.coef * p, r * p, t.coef * q, e);
  }

  lemma ScaledNearest(c: int, x: int, j: nat, k: nat) returns (r: int, p: nat, q: nat)
    requires AbsInt(x) < Pow10(PRECISION)
    ensures r == RoundInt(c) && p == Pow10(j) && q == Pow10(k)
    ensures AbsInt(r * p - c * p) <= AbsInt(x * q - c * p)
  {
    r, p, q := RoundInt(c), Pow10(j), Pow10(k);
    RoundIntScale(c, j);
    RoundIntNearest(c * p, x, k);
  }

  /** Rounding a decimal leaves at most 28 digits. */
  lemma RoundedFits(d: Decimal)
    ensures AbsInt(Rounded(d).coef) < Pow10(PRECISION)
  {
    if Digits(AbsInt(d.coef)) <= PRECISION {
      PowMono(Digits(AbsInt(d.coef)), PRECISION);
    } else {
      var q, e := LongRounded(d, AbsInt(d.coef), Digits(AbsInt(d.coef)));
      LongFits(AbsInt(d.coef), Digits(AbsInt(d.coef)), AbsInt(q));
      CarriedFits(q, e, Pow10(PRECISION - 1));
    }
  }

  lemma LongRounded(d: Decimal, mag: nat, digits: nat) returns (q: int, e: int)
    requires mag == AbsInt(d.coef) && digits == Digits(mag) > PRECISION
    ensures Rounded(d) == Carried(q, e) && AbsInt(q) == HalfEven(mag, Pow10(digits - PRECISION))
  {
    q, e := HalfEven(mag, Pow10(digits - PRECISION)), d.exp + (digits - PRECISION);
    if d.coef < 0 {
      q := -q;
    }
  }

  lemma LongFits(mag: nat, digits: nat, q: nat)
    requires digits == Digits(mag) > PRECISION && q == HalfEven(mag, Pow10(digits - PRECISION))
    ensures q <= Pow10(PRECISION)
  {
    RoundNatRange(mag);
    FitsAfter(q, digits);
  }

  lemma CarriedFits(q: int, e: int, top: nat)
    requires top == Pow10(PRECISION - 1) && AbsInt(q) <= Pow10(PRECISION)
    ensures AbsInt(Carried(q, e).coef) < Pow10(PRECISION)
  {
    TenTop(top);
  }

  lemma TenTop(top: nat)
    requires top == Pow10(PRECISION - 1)
    ensures Pow10(PRECISION) == 10 * top
  {
  }

  lemma FitsAfter(q: nat, digits: nat)
    requires digits > PRECISION && q * Pow10(digits - PRECISION) <= Pow10(digits)
    ensures q <= Pow10(PRECISION)
  {
    PowAdd(PRECISION, digits - PRECISION);
    if q > Pow10(PRECISION) {
      MulMono(Pow10(PRECISION) + 1, q, Pow10(digits - PRECISION));
      MulSucc(Pow10(PRECISION), Pow10(digits - PRECISION));
    }
  }

  lemma NearerValues(c: int, r: int, x: int, e: int)
    requires AbsInt(r - c) <= AbsInt(x - c)
    ensures Abs(Value(Decimal(r, e)) - Value(Decimal(c, e))) <= Abs(Value(Decimal(x, e)) - Value(Decimal(c, e)))
  {
    DifferenceValue(r, c, e);
    DifferenceValue(x, c, e);
    ValueOrder(AbsInt(r - c), AbsInt(x - c), e);
  }

  lemma DifferenceValue(a: int, b: int, e: int)
    ensures Abs(Value(Decimal(a, e)) - Value(Decimal(b, e))) == Value(Decimal(AbsInt(a - b), e))
  {
    var va, vb := Value(Decimal(a, e)), Value(Decimal(b, e));
    var unit := UnitOf(a as real, b as real, e, va, vb);
    var v := Value(Decimal(AbsInt(a - b), e));
    var same := UnitOf(a as real, AbsInt(a - b) as real, e, va, v);
    ScaledDistance(unit, a, b, va, vb, v, e);
  }

  lemma ScaledDistance(unit: real, a: int, b: int, va: real, vb: real, v: real, e: int)
    requires unit > 0.0 && va == unit * a as real && vb == unit * b as real
    requires v == Shift(AbsInt(a - b) as real, e) && unit == Shift(1.0, e)
    ensures Abs(va - vb) == v
  {
    ScaledShift(AbsInt(a - b) as real, e);
    RealDistribute(unit, a as real, b as real);
    AbsScaled(unit, (a - b) as real);
  }

  lemma RoundIntNearest(c: int, x: int, k: nat)
    requires AbsInt(x) < Pow10(PRECISION)
    ensures AbsInt(RoundInt(c) - c) <= AbsInt(x * Pow10(k) - c)
  {
    var n := AbsInt(c);
    var same := if (c < 0) == (x < 0) then AbsInt(x) else 0;
    RoundNatNearest(n, same, k);
    assert AbsInt(RoundInt(c) - c) == AbsInt(RoundNat(n) - n);
    FarSide(c, x, Pow10(k), AbsInt(RoundInt(c) - c));
  }

  /** On the other side of zero nothing is nearer than zero. */
  lemma FarSide(c: int, x: int, p: nat, error: nat)
    requires error <= AbsInt((if (c < 0) == (x < 0) then AbsInt(x) else 0) * p - AbsInt(c))
    ensures error <= AbsInt(x * p - c)
  {
    Negated(x, p);
    if x >= 0 {
      MulMono(0, x, p);
    } else {
      MulMono(x, 0, p);
    }
  }

  lemma RoundNatNearest(n: nat, x: nat, k: nat)
    requires x < Pow10(PRECISION)
    ensures AbsInt(RoundNat(n) - n) <= AbsInt(x * Pow10(k) - n)
  {
    var digits := Digits(n);
    if digits <= PRECISION {
      HalfEvenExact(n, 1);
    } else if k >= digits - PRECISION {
      CoarserIsFarther(n, x, k, digits - PRECISION, Quantum(n));
    } else {
      FinerIsShorter(n, x, k, digits, Quantum(n));
    }
  }

  lemma CoarserIsFarther(n: nat, x: nat, k: nat, shift: nat, m: nat)
    requires k >= shift && m == Pow10(shift)
    ensures AbsInt(HalfEven(n, m) * m - n) <= AbsInt(x * Pow10(k) - n)
  {
    PowAdd(k - shift, shift);
    MulAssoc(x, Pow10(k - shift), m);
    MultipleFarther(n, m, x * Pow10(k - shift));
  }

  lemma FinerIsShorter(n: nat, x: nat, k: nat, digits: nat, m: nat)
    requires digits > PRECISION && k < digits - PRECISION && m == Pow10(digits - PRECISION)
    requires Pow10(digits - 1) <= n && x < Pow10(PRECISION)
    ensures AbsInt(HalfEven(n, m) * m - n) <= AbsInt(x * Pow10(k) - n)
  {
    ShortEnough(x, k, digits);
    LeadingMultiple(n, digits, m);
  }

  lemma LeadingMultiple(n: nat, digits: nat, m: nat)
    requires digits > PRECISION && m == Pow10(digits - PRECISION) && Pow10(digits - 1) <= n
    ensures AbsInt(HalfEven(n, m) * m - n) <= n - Pow10(digits - 1)
  {
    PowAdd(PRECISION - 1, digits - PRECISION);
    MultipleFarther(n, m, Pow10(PRECISION - 1));
  }

  lemma ShortEnough(x: nat, k: nat, digits: nat)
    requires PRECISION + k < digits && x < Pow10(PRECISION)
    ensures x * Pow10(k) <= Pow10(digits - 1)
  {
    PowAdd(PRECISION, k);
    PowMono(PRECISION + k, digits - 1);
    MulMono(x, Pow10(PRECISION), Pow10(k));
  }

  /** No multiple of the quantum is nearer than the one rounding takes. */
  lemma MultipleFarther(n: nat, m: nat, i: nat)
    requires m > 0
    ensures AbsInt(HalfEven(n, m) * m - n) <= AbsInt(i * m - n)
  {
    HalfEvenNearest(n, m);
    var q := HalfEven(n, m);
    if i > q {
      MulMono(q + 1, i, m);
      MulSucc(q, m);
    } else if i < q {
      MulMono(i + 1, q, m);
      MulSucc(i, m);
    }
  }

  /** A product is the decimal of at most 28 digits nearest to the exact one. */
  lemma MulIsNearest(a: Decimal, b: Decimal, t: Decimal, rounded: Decimal, product: real)
    requires AbsInt(t.coef) < Pow10(PRECISION) && rounded == Mul(a, b) && product == Value(a) * Value(b)
    ensures AbsInt(rounded.coef) < Pow10(PRECISION)
    ensures Abs(Value(rounded) - product) <= Abs(Value(t) - product)
  {
    var d := ExactProduct(a, b, product);
    RoundedNearestTo(d, rounded, t, product);
  }

  lemma ExactProduct(a: Decimal, b: Decimal, product: real) returns (d: Decimal)
    requires product == Value(a) * Value(b)
    ensures Mul(a, b) == Rounded(d) && Value(d) == product
  {
    d := Decimal(a.coef * b.coef, a.exp + b.exp);
    ProductValue(a, b);
  }

  lemma RoundedNearestTo(d: Decimal, rounded: Decimal, t: Decimal, v: real)
    requires AbsInt(t.coef) < Pow10(PRECISION) && v == Value(d) && rounded == Rounded(d)
    ensures AbsInt(rounded.coef) < Pow10(PRECISION)
    ensures Abs(Value(rounded) - v) <= Abs(Value(t) - v)
  {
    RoundedFits(d);
    RoundedIsNearest(d, t);
  }

  lemma MulOrder(a: Decimal, b: Decimal, r: Decimal)
    requires Value(a) <= Value(b) && r.coef > 0
    ensures Value(Mul(a, r)) <= Value(Mul(b, r))
  {
    ProductOrder(a, b, r);
    RoundedMono(Decimal(a.coef * r.coef, a.exp + r.exp), Decimal(b.coef * r.coef, b.exp + r.exp));
  }

  lemma ProductOrder(a: Decimal, b: Decimal, r: Decimal)
    requires Value(a) <= Value(b) && r.coef > 0
    ensures Value(Decimal(a.coef * r.coef, a.exp + r.exp)) <= Value(Decimal(b.coef * r.coef, b.exp + r.exp))
  {
    PositiveValue(r);
    ProductValue(a, r);
    ProductValue(b, r);
    OrderOfProducts(Value(a), Value(b), Value(r),
                    Value(Decimal(a.coef * r.coef, a.exp + r.exp)), Value(Decimal(b.coef * r.coef, b.exp + r.exp)));
  }

  lemma OrderOfProducts(x: real, y: real, z: real, p: real, q: real)
    requires x <= y && z > 0.0 && p == x * z && q == y * z
    ensures p <= q
  {
    RealMulOrder(x, y, z);
  }

  lemma PositiveValue(d: Decimal)
    ensures d.coef > 0 <==> Value(d) > 0.0
    ensures d.coef == 0 <==> Value(d) == 0.0
  {
    ShiftFactor(1.0, 0.0, d.exp);
    ShiftOrder(d.coef as real, 0.0, d.exp);
    ShiftOrder(0.0, d.coef as real, d.exp);
  }

  lemma SameShift(x: real, y: real, e: int)
    requires x == y
    ensures Shift(x, e) == Shift(y, e)
  {
  }

  /** The exact product, before rounding. */
  lemma ProductValue(a: Decimal, b: Decimal)
    ensures Value(Decimal(a.coef * b.coef, a.exp + b.exp)) == Value(a) * Value(b)
  {
    var product := ProductAsReal(a.coef, b.coef);
    ProductShift(a.coef as real, b.coef as real, product, a.exp, b.exp);
  }

  lemma ProductAsReal(c: int, d: int) returns (product: real)
    ensures product == (c * d) as real && product == c as real * d as real
  {
    ToRealMul(c, d);
    product := (c * d) as real;
  }

  lemma ProductShift(x: real, y: real, product: real, i: int, j: int)
    requires product == x * y
    ensures Shift(product, i + j) == Shift(x, i) * Shift(y, j)
  {
    var v, w := Shift(x, i), Shift(product, i);
    SameShift(product, x * y, i);
    ShiftFactor(x, y, i);
    FactorShift(v, y, w, j);
    ShiftSum(product, i, j);
  }

  lemma FactorShift(v: real, y: real, w: real, j: int)
    requires w == v * y
    ensures Shift(w, j) == v * Shift(y, j)
  {
    calc {
      Shift(w, j);
      { RealComm(v, y); SameShift(w, y * v, j); }
      Shift(y * v, j);
      { ShiftFactor(y, v, j); }
      Shift(y, j) * v;
      { RealComm(v, Shift(y, j)); }
      v * Shift(y, j);
    }
  }
}
