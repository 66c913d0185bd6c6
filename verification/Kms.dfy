/**
 The secp256k1 signing backend: low-S normalisation of ECDSA signatures, and compression of
 public keys. The curve's group is abstract; verification follows section 4.1.4 of SEC 1.
 */
module Kms {
  import opened Arith
  import Hex

  /** The order of the secp256k1 group. */
  const N: int := 0xFFFFFFFFFFFFFFFFFFFFFFFFFFFFFFFEBAAEDCE6AF48A03BBFD25E8CD0364141

  const HALF_N: int := N / 2

  datatype Signature = Signature(r: int, s: int)

  /** The signature with its S in the lower half of the order. */
  function Canonical(sig: Signature): Signature {
    if sig.s > HALF_N then sig.(s := N - sig.s) else sig
  }

  // ---------------------------------------------------------------- ECDSA over an abstract group

  datatype Group<!P> = Group(order: int, add: (P, P) -> P, neg: P -> P, zero: P, gen: P, x: P -> int)

  /** `k` times the point `p`. */
  function Times<P>(g: Group<P>, k: nat, p: P): P {
    if k == 0 then g.zero else g.add(p, Times(g, k - 1, p))
  }

  /** Always true: the laws below are used only where points are named in this way. */
  ghost predicate At<P>(a: P, b: P, c: P) {
    true
  }

  /** A commutative group whose order kills every element, where opposite points share their x coordinate. */
  ghost predicate Lawful<P(!new)>(g: Group<P>) {
    && g.order > 1
    && (forall a, b, c {:trigger At(a, b, c)} :: g.add(g.add(a, b), c) == g.add(a, g.add(b, c)))
    && (forall a, b, c {:trigger At(a, b, c)} :: g.add(a, b) == g.add(b, a))
    && (forall a, b, c {:trigger At(a, b, c)} :: g.add(a, g.zero) == a && g.add(a, g.neg(a)) == g.zero)
    && (forall a, b, c {:trigger At(a, b, c)} :: Times(g, g.order, a) == g.zero && g.x(g.neg(a)) == g.x(a))
  }

  predicate Inverse(w: int, s: int, n: int)
    requires n > 1
  {
    0 < w < n && (s * w) % n == 1
  }

  /** The point a signature is checked at, once the inverse `w` of its S is known. */
  function CheckPoint<P>(g: Group<P>, digest: int, key: P, r: int, w: int): P
    requires g.order > 1
  {
    g.add(Times(g, (digest * w) % g.order, g.gen), Times(g, (r * w) % g.order, key))
  }

  ghost predicate ChecksWith<P(!new)>(g: Group<P>, digest: int, key: P, r: int, w: int)
    requires g.order > 1
  {
    var point := CheckPoint(g, digest, key, r, w);
    point != g.zero && g.x(point) % g.order == r
  }

  ghost predicate Verifies<P(!new)>(g: Group<P>, digest: int, key: P, sig: Signature)
    requires g.order > 1
  {
    0 < sig.r < g.order && 0 < sig.s < g.order
    && exists w :: Inverse(w, sig.s, g.order) && ChecksWith(g, digest, key, sig.r, w)
  }

  /** There is only one inverse to check with. */
  lemma InverseUnique(s: int, v: int, w: int, n: int)
    requires n > 1 && Inverse(v, s, n) && Inverse(w, s, n)
    ensures v == w
  {
    var p, q := (s * v) / n, (s * w) / n;
    DivMod(s * v, n);
    DivMod(s * w, n);
    calc {
      w * p * n + w;
      { TimesPlusOne(w, p, n); }
      w * (p * n + 1);
      w * (s * v);
      { Swap(w, s, v); }
      v * (s * w);
      v * (q * n + 1);
      { TimesPlusOne(v, q, n); }
      v * q * n + v;
    }
    DivModUnique(w * p, w, v * q, v, n);
  }

  /** So verifying is one computation: checking at whatever inverse of S has been found. */
  lemma VerifiesByInverse<P(!new)>(g: Group<P>, digest: int, key: P, sig: Signature, w: int)
    requires g.order > 1 && Inverse(w, sig.s, g.order)
    ensures Verifies(g, digest, key, sig) <==>
            0 < sig.r < g.order && 0 < sig.s < g.order && ChecksWith(g, digest, key, sig.r, w)
  {
    if v :| Inverse(v, sig.s, g.order) && ChecksWith(g, digest, key, sig.r, v) {
      InverseUnique(sig.s, v, w, g.order);
    }
  }

  lemma TimesPlusOne(a: int, b: int, n: int)
    ensures a * (b * n + 1) == a * b * n + a
  {
  }

  lemma Swap(a: int, b: int, c: int)
    ensures a * (b * c) == c * (b * a)
  {
  }

  lemma Complement(a: int, w: int, n: int)
    ensures a * (n - w) == a * n - a * w
  {
  }

  lemma Factor(a: int, q: int, n: int)
    ensures a * n - q * n == (a - q) * n
  {
  }

  /** Negating a factor modulo n. */
  lemma NegatedProduct(a: int, w: int, n: int)
    requires n > 0
    ensures (a * (n - w)) % n == (n - (a * w) % n) % n
  {
    var q, t := (a * w) / n, (a * w) % n;
    DivMod(a * w, n);
    Complement(a, w, n);
    if t == 0 {
      Factor(a, q, n);
      DivModIs(a * (n - w), n, a - q, 0);
      DivModIs(n, n, 1, 0);
    } else {
      Factor(a, q + 1, n);
      MulSucc(q, n);
      DivModIs(a * (n - w), n, a - (q + 1), n - t);
      DivModIs(n - t, n, 0, n - t);
    }
  }

  lemma OppositeInverse(s: int, w: int, n: int)
    requires n > 1 && Inverse(w, s, n) && 0 < s < n
    ensures Inverse(n - w, n - s, n)
  {
    NegatedProduct(n - s, w, n);
    NegatedProduct(w, s, n);
    Commute(w, s);
    Commute(w, n - s);
    DivModIs(n - 1, n, 0, n - 1);
    DivModIs(1, n, 0, 1);
  }

  lemma Commute(a: int, b: int)
    ensures a * b == b * a
  {
  }

  // ---------------------------------------------------------------- the group

  lemma {:induction false} TimesSum<P(!new)>(g: Group<P>, i: nat, j: nat, p: P)
    requires Lawful(g)
    ensures Times(g, i + j, p) == g.add(Times(g, i, p), Times(g, j, p))
  {
    var b := Times(g, j, p);
    if i == 0 {
      assert At(b, g.zero, b) && At(g.zero, b, b);
    } else {
      TimesSum(g, i - 1, j, p);
      assert At(p, Times(g, i - 1, p), b);
    }
  }

  lemma NegUnique<P(!new)>(g: Group<P>, a: P, b: P)
    requires Lawful(g) && g.add(a, b) == g.zero
    ensures b == g.neg(a)
  {
    var n := g.neg(a);
    calc {
      b;
      { assert At(b, b, b); }
      g.add(b, g.zero);
      { assert At(a, a, a); }
      g.add(b, g.add(a, n));
      { assert At(b, a, n); }
      g.add(g.add(b, a), n);
      { assert At(b, a, n) && At(g.zero, n, n); }
      g.add(n, g.zero);
      { assert At(n, n, n); }
      n;
    }
  }

  lemma NegZero<P(!new)>(g: Group<P>, a: P)
    requires Lawful(g)
    ensures g.neg(a) == g.zero <==> a == g.zero
  {
    assert At(a, a, a) && At(g.zero, g.zero, g.zero);
    NegUnique(g, g.zero, g.zero);
  }

  lemma TimesOpposite<P(!new)>(g: Group<P>, k: nat, p: P)
    requires Lawful(g) && k < g.order
    ensures Times(g, (g.order - k) % g.order, p) == g.neg(Times(g, k, p))
  {
    if k == 0 {
      DivModIs(g.order, g.order, 1, 0);
      NegZero(g, g.zero);
    } else {
      DivModIs(g.order - k, g.order, 0, g.order - k);
      TimesSum(g, k, g.order - k, p);
      assert At(p, p, p);
      NegUnique(g, Times(g, k, p), Times(g, g.order - k, p));
    }
  }

  lemma NegSum<P(!new)>(g: Group<P>, a: P, b: P)
    requires Lawful(g)
    ensures g.add(g.neg(a), g.neg(b)) == g.neg(g.add(a, b))
  {
    var m, n := g.neg(a), g.neg(b);
    calc {
      g.add(g.add(a, b), g.add(m, n));
      { assert At(m, n, n); }
      g.add(g.add(a, b), g.add(n, m));
      { assert At(a, b, g.add(n, m)); }
      g.add(a, g.add(b, g.add(n, m)));
      { assert At(b, n, m); }
      g.add(a, g.add(g.add(b, n), m));
      { assert At(b, b, b) && At(g.zero, m, m) && At(m, m, m); }
      g.add(a, m);
      { assert At(a, a, a); }
      g.zero;
    }
    NegUnique(g, g.add(a, b), g.add(m, n));
  }

  lemma OppositeChecks<P(!new)>(g: Group<P>, digest: int, key: P, r: int, w: int)
    requires Lawful(g) && ChecksWith(g, digest, key, r, w)
    ensures ChecksWith(g, digest, key, r, g.order - w)
  {
    var n, i, j := g.order, (digest * w) % g.order, (r * w) % g.order;
    NegatedProduct(digest, w, n);
    NegatedProduct(r, w, n);
    TimesOpposite(g, i, g.gen);
    TimesOpposite(g, j, key);
    NegSum(g, Times(g, i, g.gen), Times(g, j, key));
    var point := CheckPoint(g, digest, key, r, w);
    assert CheckPoint(g, digest, key, r, n - w) == g.neg(point);
    NegZero(g, point);
    assert At(point, point, point);
  }

  lemma OppositeVerifies<P(!new)>(g: Group<P>, digest: int, key: P, sig: Signature)
    requires Lawful(g) && Verifies(g, digest, key, sig)
    ensures Verifies(g, digest, key, sig.(s := g.order - sig.s))
  {
    var w :| Inverse(w, sig.s, g.order) && ChecksWith(g, digest, key, sig.r, w);
    OppositeInverse(sig.s, w, g.order);
    OppositeChecks(g, digest, key, sig.r, w);
  }

  /** In a group of the secp256k1 order, normalisation keeps a signature valid, or invalid, for every digest and key. */
  lemma CanonicalVerifies<P(!new)>(g: Group<P>, digest: int, key: P, sig: Signature)
    requires Lawful(g) && g.order == 0xFFFFFFFFFFFFFFFFFFFFFFFFFFFFFFFEBAAEDCE6AF48A03BBFD25E8CD0364141
    ensures Verifies(g, digest, key, sig) <==> Verifies(g, digest, key, Canonical(sig))
    ensures forall w :: Inverse(w, sig.s, N) ==>
                          (Verifies(g, digest, key, Canonical(sig)) <==>
                           0 < sig.r < N && 0 < sig.s < N && ChecksWith(g, digest, key, sig.r, w))
  {
    forall w | Inverse(w, sig.s, N)
      ensures Verifies(g, digest, key, sig) <==>
              0 < sig.r < N && 0 < sig.s < N && ChecksWith(g, digest, key, sig.r, w)
    {
      VerifiesByInverse(g, digest, key, sig, w);
    }
    if sig.s > HALF_N {
      if Verifies(g, digest, key, sig) {
        OppositeVerifies(g, digest, key, sig);
      }
      if Verifies(g, digest, key, Canonical(sig)) {
        OppositeVerifies(g, digest, key, Canonical(sig));
        assert Canonical(sig).(s := N - Canonical(sig).s) == sig;
      }
    }
  }

  /**
   The result is always low, normalising again changes nothing, and it is a proper S exactly when the
   input was one.
   */
  lemma CanonicalIsLow(sig: Signature)
    ensures Canonical(sig).s <= 0x7FFFFFFFFFFFFFFFFFFFFFFFFFFFFFFF5D576E7357A4501DDFE92F46681B20A0
    ensures Canonical(Canonical(sig)) == Canonical(sig) && Canonical(sig).r == sig.r
    ensures sig.s >= 0 ==> (0 < Canonical(sig).s <==> 0 < sig.s < N)
  {
    assert N % 2 == 1;
  }

  /** Two proper signatures become one exactly when they differ at most by the malleation S -> N - S. */
  lemma CanonicalMergesTwins(a: Signature, b: Signature)
    requires 0 < a.s < N && 0 < b.s < N
    ensures Canonical(a) == Canonical(b) <==> a.r == b.r && (a.s == b.s || a.s == N - b.s)
  {
    assert N % 2 == 1;
  }

  // ---------------------------------------------------------------- key compression

  /** `n` as `size` bytes, most significant first. */
  function BigEndian(n: nat, size: nat): (r: seq<Hex.byte>)
    ensures |r| == size
  {
    if size == 0 then [] else BigEndian(n / 256, size - 1) + [n % 256]
  }

  function Pow256(k: nat): nat {
    if k == 0 then 1 else 256 * Pow256(k - 1)
  }

  /**
   The compressed form of a point (section 2.3.3 of SEC 1): a parity byte, then x in 32 bytes, in
   upper-case hexadecimal.
   */
  function Compress(x: nat, y: nat): string {
    Hex.Upper([if y % 2 == 0 then 2 else 3] + BigEndian(x, 32))
  }

  /** The number that bytes spell, most significant first. */
  function Number(bytes: seq<Hex.byte>): nat {
    if bytes == [] then 0 else 256 * Number(bytes[..|bytes| - 1]) + bytes[|bytes| - 1]
  }

  /** Thirty-two bytes are enough for a coordinate, and spell it. */
  lemma {:induction false} BigEndianSpells(n: nat, size: nat)
    requires n < Pow256(size)
    ensures Number(BigEndian(n, size)) == n
  {
    if size > 0 {
      BigEndianSpells(n / 256, size - 1);
      assert BigEndian(n, size)[..size - 1] == BigEndian(n / 256, size - 1);
    }
  }

  ghost predicate IsPrime(p: int) {
    p > 1 && forall d :: 1 < d < p ==> p % d != 0
  }

  /** Euclid's lemma: a prime that divides a product, but not the smaller factor, divides the other one. */
  lemma {:induction false} Euclid(p: int, a: int, b: int)
    requires IsPrime(p) && 0 < a < p && (a * b) % p == 0
    ensures b % p == 0
    decreases a
  {
    if a > 1 {
      var q, r := p / a, p % a;
      DivMod(p, a);
      DivMod(a * b, p);
      Remainder(p, a, b, q, r, (a * b) / p);
      DivModIs(r * b, p, b - q * ((a * b) / p), 0);
      Euclid(p, r, b);
    }
  }

  lemma Remainder(p: int, a: int, b: int, q: int, r: int, k: int)
    requires p == q * a + r && a * b == k * p
    ensures r * b == (b - q * k) * p
  {
    calc {
      r * b;
      (p - q * a) * b;
      p * b - q * (a * b);
      p * b - q * (k * p);
      (b - q * k) * p;
    }
  }

  predicate OnCurve(x: nat, y: nat, p: int)
    requires p > 0
  {
    x < p && y < p && (y * y - (x * x * x + 7)) % p == 0
  }

  lemma SquaresDiffer(x: nat, y: nat, z: nat, p: int) returns (difference: int, sum: int)
    requires p > 0 && OnCurve(x, y, p) && OnCurve(x, z, p)
    ensures difference == y - z && sum == y + z && (difference * sum) % p == 0
  {
    difference, sum := y - z, y + z;
    var c := x * x * x + 7;
    SameResidue(y * y, z * z, c, p);
    DifferenceOfSquares(y, z);
  }

  lemma SameResidue(a: int, b: int, c: int, p: int)
    requires p > 0 && (a - c) % p == 0 && (b - c) % p == 0
    ensures (a - b) % p == 0
  {
    DivMod(a - c, p);
    DivMod(b - c, p);
    var i, j := (a - c) / p, (b - c) / p;
    Factor(i, j, p);
    DivModIs(a - b, p, i - j, 0);
  }

  lemma DifferenceOfSquares(y: int, z: int)
    ensures (y - z) * (y + z) == y * y - z * z
  {
  }

  lemma SameParitySameY(x: nat, y: nat, z: nat, p: int)
    requires IsPrime(p) && p % 2 == 1 && OnCurve(x, y, p) && OnCurve(x, z, p) && y % 2 == z % 2
    ensures y <= z
  {
    if y > z {
      var difference, sum := SquaresDiffer(x, y, z, p);
      OnlyWayDown(p, difference, sum);
    }
  }

  lemma OnlyWayDown(p: int, difference: int, sum: int)
    requires IsPrime(p) && 0 < difference < p && 0 < sum < 2 * p && (difference * sum) % p == 0
    ensures sum == p
  {
    Euclid(p, difference, sum);
    OnlyMultiple(sum, p);
  }

  lemma OnlyMultiple(m: int, p: int)
    requires 0 < m < 2 * p && m % p == 0
    ensures m == p
  {
    DivMod(m, p);
    if m < p {
      DivModIs(m, p, 0, m);
    } else {
      DivModIs(m, p, 1, m - p);
    }
  }

  /** Compression loses nothing: two points of the curve with the same compressed form are the same point. */
  lemma CompressLossless(x: nat, y: nat, x': nat, y': nat, p: int)
    requires IsPrime(p) && p % 2 == 1 && p <= Pow256(32)
    requires OnCurve(x, y, p) && OnCurve(x', y', p)
    ensures Compress(x, y) == Compress(x', y') <==> x == x' && y == y'
  {
    if Compress(x, y) == Compress(x', y') {
      var b, b' := BigEndian(x, 32), BigEndian(x', 32);
      var s: seq<Hex.byte> := [if y % 2 == 0 then 2 else 3];
      var s': seq<Hex.byte> := [if y' % 2 == 0 then 2 else 3];
      Hex.UpperInjective(s + b, s' + b');
      assert (s + b)[0] == s[0] && (s' + b')[0] == s'[0];
      assert (s + b)[1..] == b && (s' + b')[1..] == b';
      BigEndianSpells(x, 32);
      BigEndianSpells(x', 32);
      SameParitySameY(x, y, y', p);
      SameParitySameY(x, y', y, p);
    }
  }

  /** The form is one the backend's constructor accepts: 66 digits, prefix 02 for even y and 03 for odd, and then x. */
  lemma CompressShape(x: nat, y: nat)
    requires x < Pow256(32)
    ensures |Compress(x, y)| == 66 && Compress(x, y)[..2] == if y % 2 == 0 then "02" else "03"
    ensures Hex.FromHex(Compress(x, y)[2..]).Some? && Number(Hex.FromHex(Compress(x, y)[2..]).value) == x
  {
    var b := BigEndian(x, 32);
    UpperCons(if y % 2 == 0 then 2 else 3, b);
    Hex.FromUpper(b);
    BigEndianSpells(x, 32);
  }

  lemma UpperCons(first: Hex.byte, rest: seq<Hex.byte>)
    ensures Hex.Upper([first] + rest)[..2] == Hex.Pair(first) && Hex.Upper([first] + rest)[2..] == Hex.Upper(rest)
  {
    assert ([first] + rest)[1..] == rest;
  }
}
