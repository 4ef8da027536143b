/**
  The earlier copy of the field element (`BodyFinity<T>` in src/body_finity.rs).
  Construction, `+`, `-`, negation, `*`, `pow`, `one`, `zero`, equality and
  ordering are the same expressions as in `FiniteBody` and are modelled once,
  in module Field. This module holds what differs: an `inverse` that always
  returns `Some`, a division built on it, a `Mul<isize>` that ignores negative
  scalars, and the unused extended-Euclid `mod_inverse`.
*/
module EarlierField {
  import opened Arith
  import opened Wrappers
  import opened Field

  // ---------------------------------------------------------------------------
  // Inverse and division

  /**
    What the earlier `inverse` returns: the Fermat accumulator, with no `None`
    branch. Modulo a prime it is the inverse of every nonzero residue.
  */
  function EarlierInverseOf(e: FE): (r: Option<FE>)
    ensures r.Some? && InField(r.value, e.p)
    ensures IsPrime(e.p) && Valid(e) && e.value != 0 ==> Mul(e, r.value) == New(e.p, 1)
  {
    PrimeInverse(e);
    Some(New(e.p, FermatAcc(e).value))
  }

  lemma PrimeInverse(e: FE)
    ensures IsPrime(e.p) && Valid(e) && e.value != 0 ==>
      InverseOf(e) == Some(New(e.p, FermatAcc(e).value)) && Mul(e, InverseOf(e).value) == New(e.p, 1)
  {
    if IsPrime(e.p) && Valid(e) && e.value != 0 {
      InversePrime(e);
    }
  }

  method EarlierInverse(e: FE) returns (r: Option<FE>)
    ensures r == EarlierInverseOf(e)
  {
    var acum := FermatPower(e);
    r := Some(New(e.p, AsValue(acum)));
  }

  /**
    The earlier `inverse` agrees with the later one wherever the later one
    returns a value, and answers 0 where the later one answers `None`.
  */
  lemma EarlierInverseAgrees(e: FE)
    ensures InverseOf(e).Some? ==> EarlierInverseOf(e) == InverseOf(e)
    ensures InverseOf(e).None? ==> EarlierInverseOf(e) == Some(New(e.p, 0))
    ensures EarlierInverseOf(e).Some?
  {
  }

  /**
    The earlier `div` panics only on a zero divisor, then multiplies by the
    inverse. Modulo a prime it is the element whose product with d is a.
  */
  function EarlierDiv(a: FE, d: FE): (r: FE)
    requires d.value != 0
    ensures InField(r, a.p)
    ensures IsPrime(a.p) && Valid(a) && InField(d, a.p) ==> Mul(r, d) == a
  {
    EarlierDivCancels(a, d);
    Mul(a, EarlierInverseOf(d).value)
  }

  lemma EarlierDivCancels(a: FE, d: FE)
    requires d.value != 0
    ensures IsPrime(a.p) && Valid(a) && InField(d, a.p) ==> Mul(Mul(a, EarlierInverseOf(d).value), d) == a
  {
    if IsPrime(a.p) && Valid(a) && InField(d, a.p) {
      PrimeInverse(d);
      DivCancels(a, d);
    }
  }

  /**
    Where the later `div` is defined the two copies agree; modulo a prime every
    nonzero divisor is accepted by both. Modulo the composite 4 the earlier copy
    returns 0 for 1 / 2, where the later copy panics.
  */
  lemma EarlierDivAgrees(a: FE, d: FE)
    requires d.value != 0
    ensures Divisible(d) ==> EarlierDiv(a, d) == Div(a, d)
    ensures IsPrime(d.p) && Valid(d) ==> Divisible(d)
    ensures !Divisible(d) ==> EarlierDiv(a, d) == New(a.p, 0)
  {
    if IsPrime(d.p) && Valid(d) {
      InversePrime(d);
    }
    if !Divisible(d) {
      ModMul(a.value, 0, a.p);
    }
  }

  lemma EarlierDivCompositeExample()
    ensures !Divisible(FE(4, 2)) && EarlierDiv(FE(4, 1), FE(4, 2)) == FE(4, 0)
  {
    assert Power(2, 2) == 4;
  }

  /** The inverse and division examples of src/body_finity.rs, modulo 7. */
  lemma EarlierExamples()
    ensures EarlierInverseOf(New(7, 2)) == Some(New(7, 4))
    ensures EarlierInverseOf(New(7, 5)) == Some(New(7, 3))
    ensures EarlierInverseOf(New(7, 3)) == Some(New(7, 5))
    ensures EarlierDiv(New(7, 5), New(7, 2)) == New(7, 6)
    ensures EarlierDiv(New(7, 2), New(7, 5)) == New(7, 6)
    ensures EarlierDiv(New(7, 5), New(7, 3)) == New(7, 4)
    ensures EarlierDiv(New(7, 0), New(7, 5)) == New(7, 0)
    ensures EqValue(New(1021, -3), 1018)
  {
    InverseExamples();
    DivExamples();
    EarlierDivAgrees(New(7, 5), New(7, 2));
    EarlierDivAgrees(New(7, 2), New(7, 5));
    EarlierDivAgrees(New(7, 5), New(7, 3));
    EarlierDivAgrees(New(7, 0), New(7, 5));
  }

  // ---------------------------------------------------------------------------
  // Scalar multiplication without `abs`

  /** What the earlier `x * k` computes: k additions for k > 0, none otherwise. */
  function ScaledNonneg(e: FE, k: int): FE
  {
    New(e.p, Max(k, 0) * e.value)
  }

  /** The loop `for _ in 0..k`, which is empty for k <= 0. */
  method EarlierMulScalar(e: FE, k: int) returns (result: FE)
    ensures result == ScaledNonneg(e, k)
  {
    result := New(e.p, 0);
    var i := 0;
    while i < k
      invariant 0 <= i <= Max(k, 0)
      invariant result == New(e.p, i * e.value)
    {
      AddStep(e.p, i * e.value, e.value);
      assert i * e.value + e.value == (i + 1) * e.value;
      result := Add(result, e);
      i := i + 1;
    }
  }

  /** The earlier copy matches the signed multiple for k >= 0 and gives 0 for negative k. */
  lemma ScaledNonnegLaws(e: FE, k: int)
    ensures k >= 0 ==> ScaledNonneg(e, k) == Scale(e, k)
    ensures k < 0 ==> ScaledNonneg(e, k) == New(e.p, 0)
  {
  }

  lemma EarlierScalarExamples()
    ensures EqValue(ScaledNonneg(New(7, 2), 2), 4)
    ensures EqValue(ScaledNonneg(New(7, 2), 3), 6)
    ensures EqValue(ScaledNonneg(New(7, 2), 4), 1)
    ensures EqValue(ScaledNonneg(New(7, 2), -1), 0)
  {
  }

  // ---------------------------------------------------------------------------
  // Extended Euclid and `mod_inverse`

  /** d is a positive common divisor of x and y. */
  predicate CommonDivisor(d: int, x: int, y: int)
  {
    d > 0 && x % d == 0 && y % d == 0
  }

  lemma DivisorsStep(x: int, y: int, q: int)
    requires y != 0
    ensures forall d :: CommonDivisor(d, x, y) <==> CommonDivisor(d, y, x - q * y)
  {
    forall d | d > 0
      ensures CommonDivisor(d, x, y) <==> CommonDivisor(d, y, x - q * y)
    {
      ModSub(x, q * y, d);
      ModMulLeft(y, q, d);
      assert y * q == q * y;
      ModAddLeft(x - q * y, q * y, d);
      if y % d == 0 {
        ModUnique(0, 0, 0, d);
      }
    }
  }

  /**
    `extended_euclidean_algorithm(a, b)`: returns (g, x) with g = a*x + b*y for
    some y, where g has exactly the positive common divisors of a and b (so
    |g| is their greatest common divisor). Quotients truncate, as in Rust.
  */
  method ExtendedEuclid(a: int, b: int) returns (g: int, x: int, ghost y: int)
    ensures g == a * x + b * y
    ensures forall d :: CommonDivisor(d, a, b) <==> d > 0 && g % d == 0
    ensures a >= 0 && b >= 0 ==> g >= 0
  {
    var s, oldS := 0, 1;
    var r, oldR := b, a;
    ghost var t, oldT := 1, 0;
    while r != 0
      invariant EuclidInvariant(a, b, oldR, r, oldS, s, oldT, t)
      decreases Abs(r)
    {
      var quotient := TDiv(oldR, r);
      EuclidStep(a, b, oldR, r, oldS, s, oldT, t, quotient);
      oldR, r := r, oldR - quotient * r;
      oldS, s := s, oldS - quotient * s;
      oldT, t := t, oldT - quotient * t;
    }
    g, x, y := oldR, oldS, oldT;
    forall d | d > 0
      ensures r % d == 0
    {
      ModUnique(0, 0, 0, d);
    }
  }

  /**
    The loop invariant of `extended_euclidean_algorithm`: both remainders are
    combinations of a and b with the tracked coefficients (t is ghost), they
    have the same positive common divisors as a and b, and they stay
    nonnegative for nonnegative inputs.
  */
  ghost predicate EuclidInvariant(a: int, b: int, oldR: int, r: int, oldS: int, s: int, oldT: int, t: int)
  {
    && oldR == a * oldS + b * oldT && r == a * s + b * t
    && (forall d :: CommonDivisor(d, a, b) <==> CommonDivisor(d, oldR, r))
    && (a >= 0 && b >= 0 ==> oldR >= 0 && r >= 0)
  }

  lemma EuclidStep(a: int, b: int, oldR: int, r: int, oldS: int, s: int, oldT: int, t: int, q: int)
    requires r != 0 && q == TDiv(oldR, r)
    requires EuclidInvariant(a, b, oldR, r, oldS, s, oldT, t)
    ensures EuclidInvariant(a, b, r, oldR - q * r, s, oldS - q * s, t, oldT - q * t)
    ensures Abs(oldR - q * r) < Abs(r)
  {
    DivisorsStep(oldR, r, q);
    assert oldR - q * r == TRem(oldR, r);
    BezoutStep(a, b, oldR, r, oldS, s, oldT, t, q);
  }

  lemma BezoutStep(a: int, b: int, r0: int, r1: int, s0: int, s1: int, t0: int, t1: int, q: int)
    requires r0 == a * s0 + b * t0 && r1 == a * s1 + b * t1
    ensures r0 - q * r1 == a * (s0 - q * s1) + b * (t0 - q * t1)
  {
    calc {
      r0 - q * r1;
      a * s0 + b * t0 - q * (a * s1 + b * t1);
      a * s0 + b * t0 - a * (q * s1) - b * (q * t1);
      a * (s0 - q * s1) + b * (t0 - q * t1);
    }
  }

  /**
    `mod_inverse(a, p)`: the normalised Bezout coefficient when the gcd is 1.
    A returned value is an inverse of a modulo p; for a >= 0, `None` means a
    and p share a divisor above 1.
  */
  method ModInverse(a: int, p: Modulus) returns (r: Option<int>)
    ensures r.Some? ==> 0 <= r.value < p && (a * r.value) % p == 1 % p
    ensures r.None? && a >= 0 ==> exists d :: d > 1 && CommonDivisor(d, a, p)
  {
    var gcd, x, y := ExtendedEuclid(a, p);
    if gcd == 1 {
      var v := TRem(TRem(x, p) + p, p);
      NewMatchesRust(p, x);
      assert v == x % p;
      ModMul(a, x, p);
      ModMul(a, x % p, p);
      ModUnique(x % p, 0, x % p, p);
      ModAddMultiple(a * x, y, p);
      assert 1 == p * y + a * x;
      r := Some(v);
    } else {
      r := None;
      if a >= 0 {
        GcdNotOne(a, p, gcd);
      }
    }
  }

  lemma GcdNotOne(a: int, p: Modulus, g: int)
    requires a >= 0 && g >= 0 && g != 1
    requires forall d :: CommonDivisor(d, a, p) <==> d > 0 && g % d == 0
    ensures exists d :: d > 1 && CommonDivisor(d, a, p)
  {
    if g == 0 {
      assert CommonDivisor(p + 1, a, p) by {
        ModUnique(0, 0, 0, p + 1);
      }
      ModUnique(p, 0, p, p + 1);
      assert false;
    }
    ModUnique(g, 1, 0, g);
    assert CommonDivisor(g, a, p);
  }
}
