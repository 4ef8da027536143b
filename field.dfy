/**
  Elements of the integers modulo p (`FiniteBody<T>` in src/finite_body/),
  instantiated at a machine integer type and modelled on unbounded integers.

  Every operation rebuilds its result with `New`, which reduces into [0, p),
  and every binary operation keeps the LEFT operand's modulus. Equality and
  ordering look at the stored value only and ignore the modulus.
*/
module Field {
  import opened Arith
  import opened Wrappers

  /** The modulus of a field element; the Rust code panics (p == 0) or misbehaves (p < 0) otherwise. */
  type Modulus = p: int | p > 0 witness 1

  datatype FE = FE(p: Modulus, value: int)

  /** The stored value is a residue modulo p: every element built by `New` is valid. */
  predicate Valid(e: FE)
  {
    0 <= e.value < e.p
  }

  /** `e` is a valid element of the integers modulo `p`. */
  predicate InField(e: FE, p: int)
  {
    e.p == p && Valid(e)
  }

  /**
    `new(p, value)`: the residue of `value` in [0, p). The Rust code computes it
    as `(value % p + p) % p` with the truncating `%`, and the two agree for
    every value, negative ones included.
  */
  function New(p: Modulus, v: int): (e: FE)
    ensures InField(e, p)
  {
    FE(p, v % p)
  }

  /** Rust's double truncating remainder computes exactly the value `New` stores. */
  lemma NewMatchesRust(p: Modulus, v: int)
    ensures New(p, v).value == TRem(TRem(v, p) + p, p)
  {
    var t := TRem(v, p);
    TRemCongruent(v, p);
    TRemCongruent(t + p, p);
    ModAddMultiple(t, 1, p);
  }

  /** `as_value`: the stored value, from which `New` rebuilds a valid element. */
  function AsValue(e: FE): (v: int)
    ensures Valid(e) ==> 0 <= v < e.p && New(e.p, v) == e
  {
    ResidueFixed(e.value, e.p);
    e.value
  }

  /**
    `a + b`: the residue of the sum, in the left operand's modulus. For two
    residues of one modulus the sum wraps around at most once.
  */
  function Add(a: FE, b: FE): (r: FE)
    ensures InField(r, a.p)
    ensures InField(a, b.p) && Valid(b) ==>
      r.value == if a.value + b.value < a.p then a.value + b.value else a.value + b.value - a.p
  {
    WrapOnce(a.p, a.value + b.value);
    New(a.p, a.value + b.value)
  }

  /** `-a`, built as `new(p, p - value)`: zero stays zero, any other residue v becomes p - v. */
  function Neg(a: FE): (r: FE)
    ensures InField(r, a.p)
    ensures Valid(a) ==> r.value == if a.value == 0 then 0 else a.p - a.value
  {
    WrapOnce(a.p, a.p - a.value);
    New(a.p, a.p - a.value)
  }

  /** A value in [0, 2p) is reduced by at most one subtraction of p. */
  lemma WrapOnce(p: Modulus, s: int)
    ensures 0 <= s < 2 * p ==> s % p == if s < p then s else s - p
  {
    if 0 <= s < p {
      ModUnique(s, 0, s, p);
    } else if p <= s < 2 * p {
      ModUnique(s, 1, s - p, p);
    }
  }

  /** A residue is its own remainder. */
  lemma ResidueFixed(v: int, p: Modulus)
    ensures 0 <= v < p ==> v % p == v
  {
    if 0 <= v < p {
      ModUnique(v, 0, v, p);
    }
  }

  /**
    `a - b`, written as `a + (-b)`. For two residues of one modulus it is their
    difference, plus p when that is negative.
  */
  function Sub(a: FE, b: FE): (r: FE)
    ensures InField(r, a.p)
    ensures InField(a, b.p) && Valid(b) ==>
      r.value == if b.value <= a.value then a.value - b.value else a.value - b.value + a.p
  {
    WrapOnce(a.p, a.value + Neg(b).value);
    Add(a, Neg(b))
  }

  /** `a * b`: the residue of the product, in the left operand's modulus; 1 is a right identity and 0 absorbs. */
  function Mul(a: FE, b: FE): (r: FE)
    ensures InField(r, a.p)
    ensures Valid(a) && b.value == 1 ==> r == a
    ensures b.value == 0 ==> r.value == 0
  {
    ResidueFixed(a.value, a.p);
    New(a.p, a.value * b.value)
  }

  /** `pow`: the plain integer power of the value, reduced once at the end; x^1 is x. */
  function Pow(e: FE, n: nat): (r: FE)
    ensures InField(r, e.p)
    ensures Valid(e) && n == 1 ==> r == e
  {
    ResidueFixed(e.value, e.p);
    New(e.p, Power(e.value, n))
  }

  /** `One::one()`: the value 1 in the integers modulo 2. */
  function One(): (r: FE)
    ensures InField(r, 2) && r.value == 1
  {
    New(2, 1)
  }

  /** `Zero::zero()`: the value 0 in the integers modulo 1, the only residue there. */
  function Zero(): (r: FE)
    ensures InField(r, 1) && r.value == 0
  {
    New(1, 0)
  }

  /** `is_zero`: the value is 0, which is what equality with `zero()` tests. */
  function IsZero(e: FE): (r: bool)
    ensures r <==> Eq(e, Zero())
  {
    e.value == 0
  }

  /**
    `PartialEq` between two elements: compares values, ignores the moduli.
    Between valid elements of one modulus it is plain equality.
  */
  function Eq(a: FE, b: FE): (r: bool)
    ensures InField(a, b.p) && Valid(b) ==> (r <==> a == b)
  {
    a.value == b.value
  }

  /** `PartialEq<T>`: compares the value with a plain integer; a valid element only matches its own residue. */
  function EqValue(a: FE, t: int): (r: bool)
    ensures Valid(a) ==> (r <==> 0 <= t < a.p && a == New(a.p, t))
  {
    ResidueFixed(t, a.p);
    a.value == t
  }

  datatype Ordering = Less | Equal | Greater

  /** `partial_cmp`: orders by value (never `None` on integers), consistently with `==`. */
  function Compare(a: FE, b: FE): (r: Ordering)
    ensures r == Equal <==> Eq(a, b)
    ensures r == Less <==> a.value < b.value
    ensures r == Greater <==> b.value < a.value
  {
    if a.value < b.value then Less else if a.value == b.value then Equal else Greater
  }

  // ---------------------------------------------------------------------------
  // Scalar multiplication by a signed integer (`Mul<isize>`)

  /** What `x * k` computes: the value added to zero |k| times. */
  function ScaledAbs(e: FE, k: int): (r: FE)
    ensures InField(r, e.p)
    ensures r == Scale(e, Abs(k))
  {
    New(e.p, Abs(k) * e.value)
  }

  /** The loop of `Mul<isize>`: adds the element to zero |k| times. */
  method MulScalar(e: FE, k: int) returns (result: FE)
    ensures result == ScaledAbs(e, k)
  {
    result := New(e.p, 0);
    for i := 0 to Abs(k)
      invariant result == New(e.p, i * e.value)
    {
      AddStep(e.p, i * e.value, e.value);
      assert i * e.value + e.value == (i + 1) * e.value;
      result := Add(result, e);
    }
  }

  lemma AddStep(p: Modulus, x: int, v: int)
    ensures New(p, New(p, x).value + v) == New(p, x + v)
  {
    ModAddLeft(x, v, p);
  }

  /** Multiplication by a signed scalar, keeping the sign of k: 0 * x is 0 and 1 * x is x. */
  function Scale(e: FE, k: int): (r: FE)
    ensures InField(r, e.p)
    ensures k == 0 ==> r.value == 0
    ensures Valid(e) && k == 1 ==> r == e
  {
    ResidueFixed(e.value, e.p);
    New(e.p, k * e.value)
  }

  // ---------------------------------------------------------------------------
  // Inverse by Fermat's little theorem, and division

  /** How many times the loop of `inverse` multiplies: max(p - 2, 0). */
  function Countdown(p: Modulus): nat
  {
    if p < 2 then 0 else p - 2
  }

  /** The accumulator of `inverse` after its loop: value^max(p-2, 0) reduced modulo p. */
  function FermatAcc(e: FE): FE
  {
    New(e.p, Power(e.value, Countdown(e.p)))
  }

  /** The loop of `inverse`: starts from one and multiplies by the element p - 2 times. */
  method FermatPower(e: FE) returns (acum: FE)
    ensures acum == FermatAcc(e)
  {
    acum := New(e.p, 1);
    var pMinus2 := e.p - 1 - 1;
    ghost var done: nat := 0;
    while pMinus2 > 0
      invariant done <= Countdown(e.p) && pMinus2 == e.p - 2 - done
      invariant acum == New(e.p, Power(e.value, done))
      decreases pMinus2
    {
      MulStep(e.p, Power(e.value, done), e.value);
      acum := Mul(acum, e);
      pMinus2 := pMinus2 - 1;
      done := done + 1;
    }
  }

  lemma MulStep(p: Modulus, x: int, v: int)
    ensures New(p, New(p, x).value * v) == New(p, v * x)
  {
    ModMulLeft(x, v, p);
  }

  /** What `inverse` returns: `None` when the accumulated power is zero. */
  function InverseOf(e: FE): Option<FE>
  {
    var acum := FermatAcc(e);
    if acum.value == 0 then None else Some(New(e.p, acum.value))
  }

  method Inverse(e: FE) returns (r: Option<FE>)
    ensures r == InverseOf(e)
  {
    var acum := FermatPower(e);
    if AsValue(acum) == 0 {
      r := None;
    } else {
      r := Some(New(e.p, AsValue(acum)));
    }
  }

  /**
    `div` panics unless the divisor is nonzero and `inverse` returns a value.
    Modulo a prime, exactly the nonzero residues are accepted.
  */
  function Divisible(d: FE): (r: bool)
    ensures IsPrime(d.p) && Valid(d) ==> (r <==> d.value != 0)
  {
    PrimeInverseExists(d);
    d.value != 0 && InverseOf(d).Some?
  }

  lemma PrimeInverseExists(d: FE)
    ensures IsPrime(d.p) && Valid(d) && d.value != 0 ==> InverseOf(d).Some?
  {
    if IsPrime(d.p) && Valid(d) {
      InversePrime(d);
    }
  }

  /**
    `a / d`: a times the inverse of d. Modulo a prime it is the element whose
    product with d is a.
  */
  function Div(a: FE, d: FE): (r: FE)
    requires Divisible(d)
    ensures InField(r, a.p)
    ensures IsPrime(a.p) && Valid(a) && InField(d, a.p) ==> Mul(r, d) == a
  {
    DivCancels(a, d);
    Mul(a, InverseOf(d).value)
  }

  lemma DivCancels(a: FE, d: FE)
    requires Divisible(d)
    ensures IsPrime(a.p) && Valid(a) && InField(d, a.p) ==> Mul(Mul(a, InverseOf(d).value), d) == a
  {
    var p := a.p;
    if IsPrime(p) && Valid(a) && InField(d, p) {
      InversePrime(d);
      var i := InverseOf(d).value;
      MulCommAssoc(a, i, d, p);
      MulCommAssoc(i, d, d, p);
      MulIdentityDistrib(a, a, a, p);
    }
  }

  // ---------------------------------------------------------------------------
  // Properties of `new`

  /** `new` depends only on the residue class of the value, and leaves a valid element unchanged. */
  lemma NewResidueClass(p: Modulus, v: int, k: int)
    ensures New(p, v + p * k) == New(p, v)
    ensures New(p, New(p, v).value) == New(p, v)
    ensures forall e :: InField(e, p) ==> New(p, e.value) == e
  {
    ModAddMultiple(v, k, p);
    ModUnique(v % p, 0, v % p, p);
    forall e | InField(e, p)
      ensures New(p, e.value) == e
    {
      ModUnique(e.value, 0, e.value, p);
    }
  }

  /** The examples of src/finite_body/finite_body.rs and others.rs, including negative values. */
  lemma NewExamples()
    ensures EqValue(New(7, 3), 3) && EqValue(New(7, 8), 1) && EqValue(New(7, 7), 0)
    ensures EqValue(New(7, -1), 6) && EqValue(New(7, -5), 2) && EqValue(New(7, -7), 0)
    ensures EqValue(New(7, -8), 6) && EqValue(New(1021, -3), 1018)
  {
  }

  // ---------------------------------------------------------------------------
  // The ring laws, for elements of one modulus

  /** Two values in the same residue class give the same element. */
  lemma NewCongruent(p: Modulus, x: int, y: int)
    requires x % p == y % p
    ensures New(p, x) == New(p, y)
  {
  }

  lemma AddCommAssoc(a: FE, b: FE, c: FE, p: Modulus)
    requires InField(a, p) && InField(b, p) && InField(c, p)
    ensures Add(a, b) == Add(b, a)
    ensures Add(Add(a, b), c) == Add(a, Add(b, c))
    ensures InField(Add(a, b), p)
  {
    var x, y := a.value, b.value;
    assert Add(a, b) == New(p, x + y) == New(p, y + x) == Add(b, a);
    AddAssoc(a, b, c, p);
  }

  lemma AddAssoc(a: FE, b: FE, c: FE, p: Modulus)
    requires InField(a, p) && InField(b, p) && InField(c, p)
    ensures Add(Add(a, b), c) == Add(a, Add(b, c))
  {
    var x, y, z := a.value, b.value, c.value;
    var u, w := (x + y) % p, (y + z) % p;
    assert Add(a, b) == FE(p, u);
    assert Add(b, c) == FE(p, w);
    ModAddAssoc(x, y, z, p);
    assert Add(FE(p, u), c) == FE(p, (u + z) % p);
    assert Add(a, FE(p, w)) == FE(p, (x + w) % p);
  }

  lemma AddIdentityInverse(a: FE, p: Modulus)
    requires InField(a, p)
    ensures Add(a, New(p, 0)) == a
    ensures Add(a, Neg(a)) == New(p, 0)
    ensures InField(Neg(a), p)
  {
    var x := a.value;
    ModUnique(x, 0, x, p);
    ModAddLeft(p - x, x, p);
    ModUnique(p, 1, 0, p);
    NewCongruent(p, x + (p - x) % p, 0);
  }

  lemma MulCommAssoc(a: FE, b: FE, c: FE, p: Modulus)
    requires InField(a, p) && InField(b, p) && InField(c, p)
    ensures Mul(a, b) == Mul(b, a)
    ensures Mul(Mul(a, b), c) == Mul(a, Mul(b, c))
    ensures InField(Mul(a, b), p)
  {
    var x, y, z := a.value, b.value, c.value;
    assert x * y == y * x;
    ModMulLeft(x * y, z, p);
    ModMulLeft(y * z, x, p);
    assert (x * y) * z == (y * z) * x;
    assert ((y * z) % p) * x == x * ((y * z) % p);
    NewCongruent(p, ((x * y) % p) * z, x * ((y * z) % p));
  }

  lemma MulIdentityDistrib(a: FE, b: FE, c: FE, p: Modulus)
    requires InField(a, p) && InField(b, p) && InField(c, p)
    ensures Mul(a, New(p, 1)) == a
    ensures Mul(a, Add(b, c)) == Add(Mul(a, b), Mul(a, c))
  {
    var x := a.value;
    assert Mul(a, New(p, 1)) == a by {
      ModMul(x, 1, p);
      ModUnique(x, 0, x, p);
      NewCongruent(p, x * (1 % p), x);
    }
    MulDistrib(a, b, c, p);
  }

  lemma MulDistrib(a: FE, b: FE, c: FE, p: Modulus)
    requires InField(a, p) && InField(b, p) && InField(c, p)
    ensures Mul(a, Add(b, c)) == Add(Mul(a, b), Mul(a, c))
  {
    var x, y, z := a.value, b.value, c.value;
    var s, u, v := (y + z) % p, (x * y) % p, (x * z) % p;
    assert Add(b, c) == FE(p, s);
    assert Mul(a, b) == FE(p, u);
    assert Mul(a, c) == FE(p, v);
    ModMulDistrib(x, y, z, p);
    assert Mul(a, FE(p, s)) == FE(p, (x * s) % p);
    assert Add(FE(p, u), FE(p, v)) == FE(p, (u + v) % p);
  }

  /** Subtraction adds the negation, which is the residue of minus the value. */
  lemma SubIsDifference(a: FE, b: FE, p: Modulus)
    requires InField(a, p) && InField(b, p)
    ensures Neg(b) == New(p, -b.value)
    ensures Sub(a, b) == New(p, a.value - b.value)
  {
    var x, y := a.value, b.value;
    NegIsNegation(b, p);
    var n := Neg(b);
    assert Sub(a, b) == New(p, x + n.value);
    ModAddLeft(-y, x, p);
    assert (x + n.value) % p == (x - y) % p by {
      assert x + n.value == n.value + x;
      assert -y + x == x - y;
    }
    NewCongruent(p, x + n.value, x - y);
  }

  lemma NegIsNegation(b: FE, p: Modulus)
    requires InField(b, p)
    ensures Neg(b) == New(p, -b.value)
  {
    ModAddMultiple(-b.value, 1, p);
    NewCongruent(p, p - b.value, -b.value);
  }

  /** Subtraction undoes addition and is undone by it; negation is an involution. */
  lemma SubRoundTrip(a: FE, b: FE, p: Modulus)
    requires InField(a, p) && InField(b, p)
    ensures Add(Sub(a, b), b) == a
    ensures Sub(Add(a, b), b) == a
    ensures Sub(a, a) == New(p, 0)
    ensures Neg(Neg(b)) == b
  {
    var x, y := a.value, b.value;
    SubIsDifference(a, b, p);
    SubIsDifference(a, a, p);
    ModAddLeft(x - y, y, p);
    ModUnique(x, 0, x, p);
    NewCongruent(p, (x - y) % p + y, x);
    var s := Add(a, b);
    SubIsDifference(s, b, p);
    ModAddLeft(x + y, -y, p);
    assert (x + y) % p + -y == (x + y) % p - y;
    NewCongruent(p, (x + y) % p - y, x);
    var n := Neg(b);
    SubIsDifference(n, n, p);
    SubIsDifference(b, n, p);
    ModUnique(0, 0, 0, p);
    ModSub(0, -y, p);
    ModUnique(y, 0, y, p);
    NewCongruent(p, -n.value, y);
  }


  lemma AddExamples()
    ensures EqValue(Add(New(7, 3), New(7, 6)), 2)
    ensures EqValue(Add(New(1021, 330), New(1021, 660)), 990)
    ensures EqValue(Add(New(1021, 1000), New(1021, 21)), 0)
    ensures EqValue(Add(New(1021, 1000), New(1021, 22)), 1)
    ensures EqValue(Add(New(1021, 1000), New(1021, 23)), 2)
    ensures EqValue(Add(New(1021, 0), New(1021, 0)), 0)
  {
  }

  lemma AddZeroExamples()
    ensures EqValue(Add(New(1021, 0), New(1021, 23)), 23)
    ensures EqValue(Add(New(1021, 23), New(1021, 0)), 23)
  {
  }

  lemma SubExamples()
    ensures EqValue(Sub(New(7, 3), New(7, 6)), 4)
    ensures EqValue(Sub(New(1021, 330), New(1021, 660)), 691)
    ensures EqValue(Sub(New(1021, 1000), New(1021, 21)), 979)
    ensures EqValue(Sub(New(7, 3), New(7, 5)), 5)
    ensures EqValue(Sub(New(7, 3), New(7, 0)), 3)
    ensures EqValue(Sub(New(7, 0), New(7, 3)), 4)
  {
  }

  lemma NegExamples()
    ensures EqValue(Neg(New(7, 3)), 4)
    ensures EqValue(Neg(New(7, -5)), 5)
    ensures EqValue(Neg(New(7, 0)), 0)
  {
  }

  /** The products of src/finite_body/mul.rs, including the zero divisors 3 * 4 modulo 12. */
  lemma MulExamples()
    ensures Mul(New(7, 3), New(7, 5)) == New(7, 1)
    ensures EqValue(Mul(New(7, 0), New(7, 0)), 0)
    ensures EqValue(Mul(New(7, 2), New(7, 5)), 3)
    ensures EqValue(Mul(New(7, 2), New(7, 4)), 1)
    ensures EqValue(Mul(Mul(New(7, 2), New(7, 4)), New(7, 4)), 4)
    ensures EqValue(Mul(New(12, 3), New(12, 4)), 0)
    ensures EqValue(Mul(New(13, 0), New(13, 6)), 0) && EqValue(Mul(New(13, 6), New(13, 0)), 0)
  {
  }

  // ---------------------------------------------------------------------------
  // Powers, identities and comparison

  /** Reducing once after the integer power agrees with multiplying step by step. */
  lemma {:induction false} PowSteps(e: FE, n: nat)
    requires Valid(e)
    ensures Pow(e, 0) == New(e.p, 1)
    ensures Pow(e, n + 1) == Mul(Pow(e, n), e)
  {
    MulStep(e.p, Power(e.value, n), e.value);
  }

  /**
    `one()` and `zero()` live in the moduli 2 and 1. They act as identities
    only on the right, where the left operand's modulus is kept, and match
    every field's 0 and 1 under the value-only equality.
  */
  lemma IdentityElements(e: FE)
    requires Valid(e)
    ensures One() == FE(2, 1) && Zero() == FE(1, 0)
    ensures Add(e, Zero()) == e && Mul(e, One()) == e
    ensures Add(Zero(), e) == Zero() && Mul(One(), e) == New(2, e.value)
    ensures IsZero(e) <==> Eq(e, Zero())
    ensures Eq(Zero(), New(e.p, 0)) && (e.p > 1 ==> Eq(One(), New(e.p, 1)))
  {
    ModUnique(e.value, 0, e.value, e.p);
    if e.p > 1 {
      ModUnique(1, 0, 1, e.p);
    }
  }

  /** `partial_cmp` is a total order on values, consistent with `==`, blind to the modulus. */
  lemma CompareLaws(a: FE, b: FE)
    ensures Compare(a, b) == Equal <==> Eq(a, b)
    ensures Compare(a, b) == Less <==> a.value < b.value
    ensures Compare(a, b) == Less <==> Compare(b, a) == Greater
    ensures Eq(a, b) <==> Eq(FE(7, a.value), FE(11, b.value))
  {
  }

  // ---------------------------------------------------------------------------
  // Scalar multiplication

  lemma ScalarExamples()
    ensures EqValue(ScaledAbs(New(7, 2), 2), 4)
    ensures EqValue(ScaledAbs(New(7, 2), 3), 6)
    ensures EqValue(ScaledAbs(New(7, 2), 4), 1)
  {
  }

  /**
    The tests expect `x * -1 == 5` and `x * -3 == 1` for x = 2 modulo 7, but
    `Mul<isize>` adds |k| copies and yields 2 and 6; `Scale` yields 5 and 1.
  */
  lemma MulScalarNegativeMismatch()
    ensures ScaledAbs(New(7, 2), -1) == New(7, 2) && Scale(New(7, 2), -1) == New(7, 5)
    ensures ScaledAbs(New(7, 2), -3) == New(7, 6) && Scale(New(7, 2), -3) == New(7, 1)
    ensures forall e: FE, k: int :: ScaledAbs(e, -k) == ScaledAbs(e, k)
  {
  }

  /** `Scale` agrees with `Mul<isize>` on nonnegative scalars, and `x * 1 == x`. */
  lemma ScaleAgrees(e: FE, k: int)
    requires Valid(e) && k >= 0
    ensures Scale(e, k) == ScaledAbs(e, k)
    ensures Scale(e, 1) == e && Scale(e, 0) == New(e.p, 0)
  {
    ModUnique(e.value, 0, e.value, e.p);
  }

  /** `Scale` negates for a negated scalar, as the tests of `Mul<isize>` expect. */
  lemma ScaleNegates(e: FE, k: int)
    ensures Scale(e, -k) == Neg(Scale(e, k))
  {
    var p, v := e.p, e.value;
    var s := Scale(e, k);
    SubIsDifference(s, s, p);
    assert -k * v == -(k * v);
    ModSub(0, k * v, p);
    ModUnique(0, 0, 0, p);
    ModSub(0, s.value, p);
    NewCongruent(p, -k * v, -s.value);
  }

  /** `Scale` is additive in the scalar. */
  lemma ScaleAdditive(e: FE, j: int, k: int)
    ensures Scale(e, j + k) == Add(Scale(e, j), Scale(e, k))
  {
    var p, v := e.p, e.value;
    assert (j + k) * v == j * v + k * v;
    ModAdd(j * v, k * v, p);
    ModUnique((k * v) % p, 0, (k * v) % p, p);
    ModAdd((j * v) % p, (k * v) % p, p);
    ModUnique((j * v) % p, 0, (j * v) % p, p);
    NewCongruent(p, (j + k) * v, (j * v) % p + (k * v) % p);
  }

  // ---------------------------------------------------------------------------
  // Inverse and division

  /**
    Modulo a prime, `inverse` of a nonzero residue is its multiplicative
    inverse, and for p > 2 it is `None` exactly for zero.
  */
  lemma InversePrime(e: FE)
    requires IsPrime(e.p) && Valid(e)
    ensures e.value != 0 ==> InverseOf(e).Some? && InField(InverseOf(e).value, e.p)
    ensures e.value != 0 ==> Mul(e, InverseOf(e).value) == New(e.p, 1)
    ensures e.p > 2 ==> (InverseOf(e).None? <==> e.value == 0)
  {
    var p: int, v := e.p, e.value;
    if v != 0 {
      ModUnique(v, 0, v, p);
      FermatInverse(p, v);
      var w := Power(v, p - 2);
      ModUnique(w % p, 0, w % p, p);
      ModMul(v, w, p);
      ModMul(v, w % p, p);
      ModUnique(1, 0, 1, p);
    } else if p > 2 {
      PowerZeroBase(p - 2);
    }
  }

  /** A residue whose product with e is 1 is what `inverse` returns, for a prime modulus. */
  lemma InverseUnique(e: FE, c: FE)
    requires IsPrime(e.p) && Valid(e) && InField(c, e.p) && Mul(e, c).value == 1
    ensures InverseOf(e) == Some(c)
  {
    var p: int, v := e.p, e.value;
    if v == 0 {
      ModUnique(0, 0, 0, p);
      assert false;
    }
    ModUnique(v, 0, v, p);
    FermatInverse(p, v);
    var w := Power(v, p - 2);
    ModUnique(c.value, 0, c.value, p);
    ModUnique(w % p, 0, w % p, p);
  }

  /** The table of src/finite_body/finite_body.rs: inverses modulo 7, none for 0 and 7. */
  lemma InverseExamples()
    ensures InverseOf(New(7, 1)) == Some(New(7, 1)) && InverseOf(New(7, 2)) == Some(New(7, 4))
    ensures InverseOf(New(7, 3)) == Some(New(7, 5)) && InverseOf(New(7, 4)) == Some(New(7, 2))
    ensures InverseOf(New(7, 5)) == Some(New(7, 3)) && InverseOf(New(7, 6)) == Some(New(7, 6))
    ensures InverseOf(New(7, 0)).None? && InverseOf(New(7, 7)).None?
  {
    assert IsPrime(7);
    InverseUnique(New(7, 1), New(7, 1));
    InverseUnique(New(7, 2), New(7, 4));
    InverseUnique(New(7, 3), New(7, 5));
    InverseUnique(New(7, 4), New(7, 2));
    InverseUnique(New(7, 5), New(7, 3));
    InverseUnique(New(7, 6), New(7, 6));
    InversePrime(New(7, 0));
  }

  /**
    Edge cases of the Fermat loop: modulo 2 the loop never runs, so zero gets
    the "inverse" 1; modulo the composite 4 the nonzero 2 gets `None`, and
    modulo 9 the element 2 gets 2, although 2 * 2 is 4.
  */
  lemma InverseEdgeCases()
    ensures InverseOf(FE(2, 0)) == Some(FE(2, 1))
    ensures InverseOf(FE(4, 2)).None?
    ensures InverseOf(FE(9, 2)) == Some(FE(9, 2)) && Mul(FE(9, 2), FE(9, 2)).value == 4
  {
    assert Power(2, 2) == 4;
    assert Power(2, 7) == 128 by {
      assert Power(2, 3) == 8;
      assert Power(2, 5) == 32;
    }
  }

  /** Modulo a prime, division by a nonzero element is defined and undoes multiplication. */
  lemma DivRoundTrip(a: FE, d: FE, p: Modulus)
    requires IsPrime(p) && InField(a, p) && InField(d, p) && d.value != 0
    ensures Divisible(d)
    ensures InField(Div(a, d), p)
    ensures Mul(Div(a, d), d) == a
    ensures Div(Mul(a, d), d) == a
  {
    InversePrime(d);
    var i := InverseOf(d).value;
    MulCommAssoc(a, i, d, p);
    MulCommAssoc(a, d, i, p);
    MulCommAssoc(i, d, d, p);
    MulIdentityDistrib(a, a, a, p);
  }

  lemma DivExamples()
    ensures Div(New(7, 5), New(7, 2)) == New(7, 6)
    ensures Div(New(7, 2), New(7, 5)) == New(7, 6)
    ensures Div(New(7, 5), New(7, 3)) == New(7, 4)
    ensures Div(New(7, 0), New(7, 5)) == New(7, 0)
  {
    InverseExamples();
  }
}
