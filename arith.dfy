/**
  Integer arithmetic the field code relies on: Rust's truncating `/` and `%`,
  congruences modulo a positive integer, powers, Bezout coefficients, and the
  two facts about primes that make the Fermat inverse work (Euclid's lemma and
  Fermat's little theorem).
*/
module Arith {

  function Abs(x: int): nat { if x < 0 then -x else x }

  function Max(x: int, y: int): int { if x < y then y else x }

  /** `b` raised to `n`, computed on unbounded integers (no reduction). */
  function Power(b: int, n: nat): int
    decreases n
  {
    if n == 0 then 1 else b * Power(b, n - 1)
  }

  /** Rust's `/` on signed integers: the quotient is truncated toward zero. */
  function TDiv(a: int, b: int): int
    requires b != 0
  {
    if (a < 0) == (b < 0) then Abs(a) / Abs(b) else -(Abs(a) / Abs(b))
  }

  /**
    Rust's `%` on signed integers: the remainder that goes with the truncated
    quotient, so it takes the sign of the dividend (unlike Dafny's `%`, whose
    remainder is never negative).
  */
  function TRem(a: int, b: int): (r: int)
    requires b != 0
    ensures Abs(r) < Abs(b)
    ensures a >= 0 ==> r >= 0
    ensures a < 0 ==> r <= 0
  {
    TRemSign(a, b);
    a - b * TDiv(a, b)
  }

  lemma TRemSign(a: int, b: int)
    requires b != 0
    ensures Abs(a - b * TDiv(a, b)) < Abs(b)
    ensures a >= 0 ==> a - b * TDiv(a, b) >= 0
    ensures a < 0 ==> a - b * TDiv(a, b) <= 0
  {
    var q0, r0 := Abs(a) / Abs(b), Abs(a) % Abs(b);
    assert Abs(a) == Abs(b) * q0 + r0;
    if a >= 0 && b > 0 {
      assert a - b * TDiv(a, b) == r0;
    } else if a >= 0 {
      assert b * TDiv(a, b) == -(b * q0);
      assert a - b * TDiv(a, b) == r0;
    } else if b < 0 {
      assert a - b * TDiv(a, b) == -r0;
    } else {
      assert b * TDiv(a, b) == -(b * q0);
      assert a - b * TDiv(a, b) == -r0;
    }
  }

  /** With a positive divisor, Rust's remainder is congruent to the dividend. */
  lemma TRemCongruent(a: int, p: int)
    requires p > 0
    ensures TRem(a, p) % p == a % p
    ensures a >= 0 ==> TRem(a, p) == a % p
  {
    var q := TDiv(a, p);
    ModAddMultiple(TRem(a, p), q, p);
    if a >= 0 {
      ModUnique(a, q, TRem(a, p), p);
    }
  }

  predicate IsPrime(p: int)
  {
    p > 1 && forall d :: 1 < d < p ==> p % d != 0
  }

  // ---------------------------------------------------------------------------
  // Congruences modulo a positive integer

  lemma MulAtLeast(p: int, d: int)
    requires p > 0 && d >= 1
    ensures p * d >= p
  {
  }

  /** Euclidean division is unique. */
  lemma ModUnique(x: int, q: int, r: int, p: int)
    requires p > 0 && x == p * q + r && 0 <= r < p
    ensures x % p == r && x / p == q
  {
    var q', r' := x / p, x % p;
    assert p * q' + r' == x;
    assert p * (q - q') == r' - r;
    assert p * (q' - q) == r - r';
    if q > q' {
      MulAtLeast(p, q - q');
    } else if q < q' {
      MulAtLeast(p, q' - q);
    }
  }

  lemma ModAddMultiple(z: int, k: int, p: int)
    requires p > 0
    ensures (p * k + z) % p == z % p
  {
    ModUnique(p * k + z, k + z / p, z % p, p);
  }

  lemma ModMultiple(k: int, p: int)
    requires p > 0
    ensures (p * k) % p == 0 && (k * p) % p == 0
  {
    ModAddMultiple(0, k, p);
  }

  lemma ModMulLeft(x: int, y: int, p: int)
    requires p > 0
    ensures (x * y) % p == ((x % p) * y) % p
  {
    var q, r := x / p, x % p;
    assert x * y == p * (q * y) + r * y by {
      assert x == p * q + r;
    }
    ModAddMultiple(r * y, q * y, p);
  }

  lemma ModMul(x: int, y: int, p: int)
    requires p > 0
    ensures (x * y) % p == ((x % p) * (y % p)) % p
  {
    ModMulLeft(x, y, p);
    ModMulLeft(y, x % p, p);
  }

  lemma ModAdd(x: int, y: int, p: int)
    requires p > 0
    ensures (x + y) % p == ((x % p) + (y % p)) % p
  {
    var qx, qy := x / p, y / p;
    assert x + y == p * (qx + qy) + ((x % p) + (y % p));
    ModAddMultiple((x % p) + (y % p), qx + qy, p);
  }

  /** Reducing either partial sum leaves the residue of a three-term sum unchanged. */
  lemma ModAddAssoc(x: int, y: int, z: int, p: int)
    requires p > 0
    ensures ((x + y) % p + z) % p == (x + (y + z) % p) % p
  {
    var t := x + y + z;
    ModAddSplit(t, x + y, z, p);
    ModAddSplitRight(t, x, y + z, p);
  }

  lemma ModAddSplit(t: int, x: int, y: int, p: int)
    requires p > 0 && t == x + y
    ensures t % p == ((x % p) + y) % p
  {
    ModAddLeft(x, y, p);
  }

  lemma ModAddSplitRight(t: int, x: int, y: int, p: int)
    requires p > 0 && t == x + y
    ensures t % p == (x + (y % p)) % p
  {
    ModAddRight(x, y, p);
  }

  lemma ModAddRight(x: int, y: int, p: int)
    requires p > 0
    ensures (x + y) % p == (x + (y % p)) % p
  {
    var r := y % p;
    ModAddLeft(y, x, p);
    assert y + x == x + y;
    assert r + x == x + r;
  }

  /** Multiplication distributes over a reduced sum, modulo p. */
  lemma ModMulDistrib(x: int, y: int, z: int, p: int)
    requires p > 0
    ensures (x * ((y + z) % p)) % p == ((x * y) % p + (x * z) % p) % p
  {
    var s := (y + z) % p;
    ModMulLeft(y + z, x, p);
    assert s * x == x * s;
    assert (y + z) * x == x * y + x * z;
    ModAdd(x * y, x * z, p);
  }

  lemma ModAddLeft(x: int, y: int, p: int)
    requires p > 0
    ensures (x + y) % p == ((x % p) + y) % p
  {
    assert x + y == p * (x / p) + ((x % p) + y);
    ModAddMultiple((x % p) + y, x / p, p);
  }

  lemma ModSub(x: int, y: int, p: int)
    requires p > 0
    ensures (x - y) % p == ((x % p) - (y % p)) % p
  {
    var qx, qy := x / p, y / p;
    assert x - y == p * (qx - qy) + ((x % p) - (y % p));
    ModAddMultiple((x % p) - (y % p), qx - qy, p);
  }

  /** Two integers are congruent exactly when their difference is a multiple. */
  lemma CongruentIffDifference(x: int, y: int, p: int)
    requires p > 0
    ensures x % p == y % p <==> (x - y) % p == 0
  {
    ModSub(x, y, p);
    var d := (x % p) - (y % p);
    if d < 0 {
      ModUnique(d, -1, d + p, p);
    } else {
      ModUnique(d, 0, d, p);
    }
  }

  lemma PowerAdd(b: int, m: nat, n: nat)
    ensures Power(b, m + n) == Power(b, m) * Power(b, n)
    decreases m
  {
    if m > 0 {
      PowerAdd(b, m - 1, n);
      assert Power(b, m + n) == b * Power(b, m - 1 + n);
    }
  }

  lemma PowerMod(b: int, n: nat, p: int)
    requires p > 0
    ensures Power(b, n) % p == Power(b % p, n) % p
    decreases n
  {
    if n > 0 {
      var m := b % p;
      var u, v := Power(b, n - 1), Power(m, n - 1);
      PowerMod(b, n - 1, p);
      assert u % p == v % p;
      ModMul(b, u, p);
      ModMul(m, v, p);
      assert m % p == m by {
        ModUnique(m, 0, m, p);
      }
      calc {
        Power(b, n) % p;
        (b * u) % p;
        (m * (u % p)) % p;
        (m * (v % p)) % p;
        (m * v) % p;
        Power(m, n) % p;
      }
    }
  }

  lemma PowerZeroBase(n: nat)
    requires n > 0
    ensures Power(0, n) == 0
  {
  }

  // ---------------------------------------------------------------------------
  // Bezout coefficients and Euclid's lemma

  /** Extended Euclid on naturals: (g, s, t) with g = a*s + b*t. */
  function Egcd(a: nat, b: nat): (nat, int, int)
    decreases b
  {
    if b == 0 then (a, 1, 0)
    else
      var r := Egcd(b, a % b);
      (r.0, r.2, r.1 - (a / b) * r.2)
  }

  lemma DividesLinear(g: int, x: int, y: int, k: int)
    requires g > 0 && x % g == 0 && y % g == 0
    ensures (x * k + y) % g == 0
  {
    var u, v := x / g, y / g;
    assert x == g * u && y == g * v;
    assert x * k + y == g * (u * k + v) by {
      assert x * k == g * (u * k);
    }
    ModUnique(x * k + y, u * k + v, 0, g);
  }

  /** One step of the extended Euclid recursion keeps the Bezout identity. */
  lemma EgcdStepBezout(a: nat, b: nat, g: int, s: int, t: int)
    requires b > 0 && g == b * s + (a % b) * t
    ensures g == a * t + b * (s - (a / b) * t)
  {
    var q := a / b;
    assert a == b * q + a % b;
    calc {
      a * t + b * (s - q * t);
      a * t + b * s - (b * q) * t;
      (a - b * q) * t + b * s;
      (a % b) * t + b * s;
    }
  }

  /** A common divisor of b and a % b divides a. */
  lemma EgcdStepDivides(a: nat, b: nat, g: int)
    requires b > 0 && g > 0 && b % g == 0 && (a % b) % g == 0
    ensures a % g == 0
  {
    DividesLinear(g, b, a % b, a / b);
    assert b * (a / b) + a % b == a;
  }

  lemma {:induction false} EgcdProperties(a: nat, b: nat)
    ensures Egcd(a, b).0 == a * Egcd(a, b).1 + b * Egcd(a, b).2
    ensures a > 0 || b > 0 ==> Egcd(a, b).0 > 0 && a % Egcd(a, b).0 == 0 && b % Egcd(a, b).0 == 0
    decreases b
  {
    if b > 0 {
      var r := Egcd(b, a % b);
      EgcdProperties(b, a % b);
      EgcdStepBezout(a, b, r.0, r.1, r.2);
      EgcdStepDivides(a, b, r.0);
    } else if a > 0 {
      ModUnique(a, 1, 0, a);
    }
  }

  lemma PositiveFactor(g: int, q: int)
    requires g > 0 && g * q > 0
    ensures q > 0
  {
  }

  lemma DivisorAtMost(x: int, g: int)
    requires x > 0 && g > 0 && x % g == 0
    ensures g <= x
  {
    var q := x / g;
    assert x == g * q;
    PositiveFactor(g, q);
    MulAtLeast(g, q);
  }

  lemma ScaleBezout(x: int, s: int, p: int, t: int, b: int)
    requires x * s + p * t == 1
    ensures b == (x * b) * s + p * (b * t)
  {
    calc {
      b;
      b * (x * s + p * t);
      b * (x * s) + b * (p * t);
      (x * b) * s + p * (b * t);
    }
  }

  /** A prime has no common divisor above 1 with a smaller positive number. */
  lemma CoprimeToPrime(p: int, a: nat)
    requires IsPrime(p) && 0 < a < p
    ensures Egcd(a, p).0 == 1
    ensures a * Egcd(a, p).1 + p * Egcd(a, p).2 == 1
  {
    EgcdProperties(a, p);
    var g := Egcd(a, p).0;
    DivisorAtMost(a, g);
    assert !(1 < g < p);
  }

  /** Euclid's lemma: a prime that divides a product divides one of its factors. */
  lemma EuclidLemma(p: int, a: int, b: int)
    requires IsPrime(p) && (a * b) % p == 0
    ensures a % p == 0 || b % p == 0
  {
    var a' := a % p;
    if a' != 0 {
      CoprimeToPrime(p, a');
      var s, t := Egcd(a', p).1, Egcd(a', p).2;
      ModMulLeft(a, b, p);
      var u := a' * b;
      assert u % p == 0;
      ScaleBezout(a', s, p, t, b);
      ModAddMultiple(u * s, b * t, p);
      ModMulLeft(u, s, p);
      assert (u % p) * s == 0;
      ModUnique(0, 0, 0, p);
    }
  }

  // ---------------------------------------------------------------------------
  // Binomial theorem and Fermat's little theorem

  function Binom(n: nat, k: nat): nat
  {
    if k == 0 then 1 else if n == 0 then 0 else Binom(n - 1, k - 1) + Binom(n - 1, k)
  }

  lemma {:induction false} BinomAbove(n: nat, k: nat)
    requires k > n
    ensures Binom(n, k) == 0
  {
    if n > 0 {
      BinomAbove(n - 1, k - 1);
      BinomAbove(n - 1, k);
    }
  }

  lemma {:induction false} BinomSelf(n: nat)
    ensures Binom(n, n) == 1
  {
    if n > 0 {
      BinomSelf(n - 1);
      BinomAbove(n - 1, n);
    }
  }

  lemma {:induction false} BinomOne(n: nat)
    ensures Binom(n, 1) == n
  {
    if n > 0 {
      BinomOne(n - 1);
    }
  }

  lemma AbsorbStep(n: int, k: int, c1: int, c2: int, d1: int, d2: int)
    requires c1 == d1 + d2
    requires (k - 1) * c1 == (n - 1) * d1 && k * c2 == (n - 1) * d2
    ensures k * (c1 + c2) == n * c1
  {
    calc {
      k * (c1 + c2);
      (k - 1) * c1 + c1 + k * c2;
      (n - 1) * d1 + c1 + (n - 1) * d2;
      (n - 1) * (d1 + d2) + c1;
      n * c1;
    }
  }

  /** The absorption identity k*C(n,k) = n*C(n-1,k-1). */
  lemma {:induction false} BinomAbsorb(n: nat, k: nat)
    requires n >= 1 && k >= 1
    ensures k * Binom(n, k) == n * Binom(n - 1, k - 1)
  {
    if k == 1 {
      BinomOne(n);
    } else if n == 1 {
      BinomAbove(1, k);
      BinomAbove(0, k - 1);
    } else {
      BinomAbsorb(n - 1, k - 1);
      BinomAbsorb(n - 1, k);
      var c1, c2 := Binom(n - 1, k - 1), Binom(n - 1, k);
      assert Binom(n, k) == c1 + c2;
      assert c1 == Binom(n - 2, k - 2) + Binom(n - 2, k - 1);
      AbsorbStep(n, k, c1, c2, Binom(n - 2, k - 2), Binom(n - 2, k - 1));
    }
  }

  /** Sum of C(n,k) * x^k for k in [0, m]. */
  function BinomSum(n: nat, x: int, m: nat): int
  {
    if m == 0 then 1 else BinomSum(n, x, m - 1) + Binom(n, m) * Power(x, m)
  }

  lemma {:induction false} BinomSumPascal(n: nat, x: int, m: nat)
    requires n >= 1 && m >= 1
    ensures BinomSum(n, x, m) == BinomSum(n - 1, x, m) + x * BinomSum(n - 1, x, m - 1)
  {
    if m == 1 {
      assert Binom(n, 1) == 1 + Binom(n - 1, 1);
      assert Power(x, 1) == x;
    } else {
      BinomSumPascal(n, x, m - 1);
      var c1, c2 := Binom(n - 1, m - 1), Binom(n - 1, m);
      assert Binom(n, m) == c1 + c2;
      assert Power(x, m) == x * Power(x, m - 1);
      PascalStep(x, c1, c2, Power(x, m - 1), BinomSum(n, x, m - 1),
        BinomSum(n - 1, x, m - 1), BinomSum(n - 1, x, m - 2));
    }
  }

  lemma PascalStep(x: int, c1: int, c2: int, w: int, s: int, t1: int, t2: int)
    requires s == t1 + x * t2
    ensures s + (c1 + c2) * (x * w) == (t1 + c2 * (x * w)) + x * (t2 + c1 * w)
  {
  }

  /** The binomial theorem for (x + 1)^n. */
  lemma {:induction false} BinomialTheorem(x: int, n: nat)
    ensures Power(x + 1, n) == BinomSum(n, x, n)
  {
    if n > 0 {
      BinomialTheorem(x, n - 1);
      BinomSumPascal(n, x, n);
      BinomAbove(n - 1, n);
      assert BinomSum(n - 1, x, n) == BinomSum(n - 1, x, n - 1);
    }
  }

  lemma BinomPrimeDivides(p: int, k: nat)
    requires IsPrime(p) && 1 <= k < p
    ensures Binom(p, k) % p == 0
  {
    BinomAbsorb(p, k);
    ModMultiple(Binom(p - 1, k - 1), p);
    EuclidLemma(p, k, Binom(p, k));
    ModUnique(k, 0, k, p);
  }

  lemma {:induction false} BinomSumPrimeMiddle(p: int, x: int, m: nat)
    requires IsPrime(p) && m < p
    ensures BinomSum(p, x, m) % p == 1
  {
    if m == 0 {
      ModUnique(1, 0, 1, p);
    } else {
      BinomSumPrimeMiddle(p, x, m - 1);
      BinomPrimeDivides(p, m);
      var c, w, t := Binom(p, m), Power(x, m), BinomSum(p, x, m - 1);
      assert BinomSum(p, x, m) == t + c * w;
      ModMulLeft(c, w, p);
      ModUnique(0, 0, 0, p);
      ModAdd(t, c * w, p);
      ModUnique(1, 0, 1, p);
    }
  }

  /** (x + 1)^p is congruent to x^p + 1 modulo a prime p. */
  lemma FreshmanDream(p: int, x: int)
    requires IsPrime(p)
    ensures Power(x + 1, p) % p == (Power(x, p) + 1) % p
  {
    BinomialTheorem(x, p);
    BinomSumPrimeMiddle(p, x, p - 1);
    BinomSelf(p);
    assert BinomSum(p, x, p) == BinomSum(p, x, p - 1) + Power(x, p);
    ModAdd(BinomSum(p, x, p - 1), Power(x, p), p);
    ModAdd(1, Power(x, p), p);
    ModUnique(1, 0, 1, p);
  }

  lemma {:induction false} FermatNat(p: int, x: nat)
    requires IsPrime(p)
    ensures Power(x, p) % p == x % p
  {
    if x == 0 {
      PowerZeroBase(p);
    } else {
      FermatNat(p, x - 1);
      FreshmanDream(p, x - 1);
      ModAddLeft(Power(x - 1, p), 1, p);
      ModAddLeft(x - 1, 1, p);
    }
  }

  /** Fermat's little theorem, first form: x^p is congruent to x modulo a prime p. */
  lemma FermatLittle(p: int, x: int)
    requires IsPrime(p)
    ensures Power(x, p) % p == x % p
  {
    PowerMod(x, p, p);
    FermatNat(p, x % p);
    ModUnique(x % p, 0, x % p, p);
  }

  /** Fermat's little theorem: x^(p-1) is congruent to 1 when the prime p does not divide x. */
  lemma Fermat(p: int, x: int)
    requires IsPrime(p) && x % p != 0
    ensures Power(x, p - 1) % p == 1
  {
    FermatLittle(p, x);
    assert Power(x, p) == x * Power(x, p - 1);
    CongruentIffDifference(x * Power(x, p - 1), x, p);
    assert x * Power(x, p - 1) - x == x * (Power(x, p - 1) - 1);
    EuclidLemma(p, x, Power(x, p - 1) - 1);
    CongruentIffDifference(Power(x, p - 1), 1, p);
    ModUnique(1, 0, 1, p);
  }

  /**
    The Fermat inverse: modulo a prime p, x * x^(p-2) is congruent to 1 when p
    does not divide x, and x^(p-2) is the only residue with that property.
  */
  lemma FermatInverse(p: int, x: int)
    requires IsPrime(p) && x % p != 0
    ensures (x * Power(x, p - 2)) % p == 1
    ensures Power(x, p - 2) % p != 0
    ensures forall c :: (x * c) % p == 1 ==> c % p == Power(x, p - 2) % p
  {
    Fermat(p, x);
    assert Power(x, p - 1) == x * Power(x, p - 2);
    var w := Power(x, p - 2);
    ModMul(x, w, p);
    if w % p == 0 {
      ModUnique(0, 0, 0, p);
    }
    forall c | (x * c) % p == 1
      ensures c % p == w % p
    {
      ModMulLeft(x * c, w, p);
      ModMulLeft(x * w, c, p);
      assert (x * c) * w == (x * w) * c;
    }
  }
}
