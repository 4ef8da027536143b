# Elliptic-curve cryptography over small prime fields, in Dafny

This project models the core of the Rust crate `tp1`. The crate is a didactic library for
elliptic-curve cryptography over the integers modulo a small prime. The model covers:

- **Field elements** (`FiniteBody<T>`, module `Field`). `new` reduces a value into [0, p) with Rust's
  truncating `%`. `+`, `-`, negation, `*` and `pow` rebuild their result with `new` and keep the left
  operand's modulus. `inverse` is Fermat's little theorem computed by a countdown loop. `div` multiplies
  by the inverse and panics on a zero divisor or a missing inverse. `Mul<isize>` adds the element to
  zero |k| times. `one()` and `zero()` live in the moduli 2 and 1. Equality and ordering look at the
  value only. Values are unbounded integers; the integer type is not modelled.
- **The earlier copy** `BodyFinity<T>` (module `EarlierField`). It has the same arithmetic. Its
  `inverse` always answers `Some`, its `Mul<isize>` does nothing for k <= 0, and its unused
  extended-Euclid `mod_inverse` is modelled as well.
- **Curve points** (`PointEllipticCurve<T>`, module `Curve`). A point is the point at infinity or a
  finite point, and it carries the curve parameters a and b. `new` checks y^2 = x^3 + a*x + b with the
  field's value equality. `add` is modelled branch by branch, in the code's order: different curves,
  left identity, right identity, vertical line, 2-torsion, doubling, chord. Its divisions panic where
  `div` would, and `Curve.AddDefined` is the condition under which they do not. `neg` re-validates the
  point through `new`. `Mul<usize>` is infinity plus k copies of the point, added on the right. The
  function `Curve.Multiple` returns `None` where the loop panics.
- **Discrete logarithms** (`AlgorithmsDLP`, module `Dlp`). `brute_force` tries k = 1, 2, ... until
  G * k == K. `bsgs` takes the block size m = ceil(sqrt(p)), fills a `HashMap` of baby steps, and then
  probes it with the giant steps K + (-(G * (i * m))).
- **Key agreement** (`Agreement`, module `KeyAgreement`). `new` searches for the order of the generator
  below p and counts the affine points by trying every pair (x, y) in [0, p) x [0, p). The getters and
  the public and shared keys are scalar multiples. The structure never changes after `new`, so it is a
  datatype value. `NewAgreement` runs the loops and is proved equal to the specification `Setup`.
- **Test vectors of the test suites**, checked on the model:
  - `CurveVectors`: points accepted and refused by `new`, the chord and doubling sums, and the group
    orders 21 and 7 of two generators modulo 223.
  - `AgreementVectors`: the orders 13 and 39 of the two generators modulo 43, and a key exchange.
  - `DlpVectors`: both solvers on a generator of order 7.

The loops of the source are methods with loop invariants. Each is proved equal to a specification
function:
- `Field.MulScalar` and `Field.FermatPower`;
- `EarlierField.EarlierMulScalar` and `EarlierField.ExtendedEuclid`;
- `Curve.ScalarMul`;
- `Dlp.BabySteps`, `Dlp.GiantSteps` and `Dlp.BruteForce`; one iteration of the baby-step loop is the
  method `Dlp.BabyStep`, and one giant step is the method `Dlp.GiantStepAt`;
- `KeyAgreement.FindOrder` and `KeyAgreement.CountPoints`.

Lemmas then state what those functions promise.

The code differs from a plain reading of its own comments and design in a few places. The model
follows the code:
- **Baby-step indexing.** Iteration j inserts the accumulator before it is updated: infinity first,
  then G * (j - 1). The table therefore maps j * G to j + 1, not to j, for j <= m - 2. The final `- 1`
  compensates for this. A key inserted twice keeps its last index (`Dlp.BabyTableHit`).
- **Different logarithms from the two solvers.** On a generator whose order is below m they may return
  different logarithms of K. For the generator (15, 86) of order 7 modulo 223 and K = 6 * G:
  `brute_force` returns 6 (`DlpVectors.Order7BruteForce`), while `bsgs` returns 13 = 6 + 7
  (`DlpVectors.Order7Bsgs`). The two agree modulo the order. The equality asserted by the
  discrete-logarithm test therefore holds only for generators whose order exceeds m - 1.
- **`inverse` modulo 2.** The loop never runs modulo 2, so zero gets the "inverse" 1. `inverse` returns
  `None` exactly for zero only for primes above 2 (`Field.InversePrime`, `Field.InverseEdgeCases`).
- **Point equality across moduli.** Point equality compares field values only. Points over different
  moduli with the same values therefore compare equal.

## Model

| member | source | states |
|---|---|---|
| Arith.TRemCongruent | src/finite_body/finite_body.rs:29 | Rust's truncating remainder by a positive modulus is congruent to the dividend, and equals the Euclidean remainder for a nonnegative dividend |
| Field.New | src/finite_body/finite_body.rs:26-31 | `new` always yields a valid element of its modulus: the stored value lies in [0, p) |
| Field.NewMatchesRust | src/finite_body/finite_body.rs:29 | the stored value is exactly `(value % p + p) % p` computed with Rust's truncating `%`, negative values included |
| Field.NewResidueClass | src/finite_body/finite_body.rs:26-31 | `new` depends only on the residue class of the value, is idempotent, and leaves every valid element unchanged |
| Field.AsValue | src/finite_body/finite_body.rs:66-68 | `as_value` gives the stored value; for a valid element it lies in [0, p) and `new` rebuilds the same element from it |
| Field.Add | src/finite_body/add.rs:21-23 | the sum keeps the left operand's modulus and is valid; for two residues of one modulus its value is the sum of the values, less p when the sum reaches p |
| Field.Neg | src/finite_body/others.rs:23-25 | the negation keeps the modulus and is valid; a residue v becomes p - v, and 0 stays 0 |
| Field.Sub | src/finite_body/sub.rs:21-23 | the difference keeps the left operand's modulus and is valid; for two residues of one modulus its value is a - b, plus p when b exceeds a |
| Field.Mul | src/finite_body/mul.rs:24-26 | the product keeps the left operand's modulus and is valid; a right operand of value 1 leaves a valid element unchanged, and one of value 0 gives 0 |
| Field.Pow | src/finite_body/others.rs:44-46 | the power keeps the modulus and is valid, and the first power of a valid element is the element itself |
| Field.One | src/finite_body/others.rs:63-65 | `one()` is the valid element 1 modulo 2 |
| Field.Zero | src/finite_body/others.rs:82-84 | `zero()` is the valid element 0 modulo 1 |
| Field.IsZero | src/finite_body/others.rs:86-88 | `is_zero` holds exactly when the element is `==` to `zero()` |
| Field.Eq | src/finite_body/others.rs:114-116 | `==` between elements; for two residues of one modulus it holds exactly when they are the same element |
| Field.EqValue | src/finite_body/others.rs:123-125 | `==` against a plain value t; for a valid element it holds exactly when t lies in [0, p) and `new(p, t)` is the element |
| Field.Compare | src/finite_body/others.rs:105-107 | `partial_cmp` answers Equal exactly when `==` holds, Less exactly on a smaller value and Greater exactly on a larger one |
| Field.NewExamples | src/finite_body/others.rs:163-190 | the normalisations asserted by the tests, e.g. 8 -> 1, -1 -> 6, -8 -> 6 modulo 7 and -3 -> 1018 modulo 1021 |
| Field.AddCommAssoc | src/finite_body/add.rs:21-23 | addition of elements of one modulus is commutative and associative, and stays in the field |
| Field.AddIdentityInverse | src/finite_body/add.rs:21-23 | 0 is a right identity, a + (-a) is 0, and negation stays in the field |
| Field.NegIsNegation | src/finite_body/others.rs:23-25 | `neg`, which builds `new(p, p - value)`, is the residue of minus the value |
| Field.SubIsDifference | src/finite_body/sub.rs:21-23 | `a - b`, defined as `a + (-b)`, is the residue of the difference of the values |
| Field.SubRoundTrip | src/finite_body/sub.rs:21-23 | subtraction undoes addition and is undone by it, a - a is 0, and negation is an involution |
| Field.MulCommAssoc | src/finite_body/mul.rs:24-26 | multiplication of elements of one modulus is commutative and associative, and stays in the field |
| Field.MulIdentityDistrib | src/finite_body/mul.rs:24-26 | 1 is a right identity and multiplication distributes over addition |
| Field.PowSteps | src/finite_body/others.rs:44-46 | `pow`, which reduces the plain integer power once, agrees with multiplying step by step: x^0 = 1 and x^(n+1) = x^n * x |
| Field.IdentityElements | src/finite_body/others.rs:63-88 | `one()` is 1 modulo 2 and `zero()` is 0 modulo 1; they are identities only on the right, where the left modulus is kept; `is_zero` agrees with equality to `zero()` |
| Field.CompareLaws | src/finite_body/others.rs:105-125 | `partial_cmp` and `==` compare values only: Equal exactly on equal values, Less exactly when smaller, antisymmetric, blind to the modulus |
| Field.AddZeroExamples | src/finite_body/add.rs:103-119 | 0 + 23 and 23 + 0 are `==` to 23 modulo 1021, as the tests assert |
| Field.AddExamples | src/finite_body/add.rs:30-119 | the sums asserted by the tests, including wrap-around to 0, 1 and 2 modulo 1021 |
| Field.SubExamples | src/finite_body/sub.rs:30-100 | the differences asserted by the tests, e.g. 3 - 6 = 4 modulo 7 and 330 - 660 = 691 modulo 1021 |
| Field.NegExamples | src/finite_body/others.rs:140-161 | the negations asserted by the tests: -3 = 4 and -(-5) = 5 modulo 7 |
| Field.MulExamples | src/finite_body/mul.rs:61-94 | the products asserted by the tests, including the zero divisors 3 * 4 = 0 modulo 12 |
| Field.MulScalar | src/finite_body/mul.rs:45-53 | the loop of `Mul<isize>` returns the element added to zero abs(k) times, i.e. abs(k) * value reduced modulo p |
| Field.ScaledAbs | src/finite_body/mul.rs:45-53 | what `Mul<isize>` computes keeps the modulus, is valid, and is the signed multiple by abs(k) |
| Field.ScalarExamples | src/finite_body/mul.rs:99-101 | x * 2 = 4, x * 3 = 6 and x * 4 = 1 for x = 2 modulo 7 |
| Field.MulScalarNegativeMismatch | src/finite_body/mul.rs:96-104 | for a negative scalar `Mul<isize>` ignores the sign: x * -1 = 2 and x * -3 = 6 for x = 2 modulo 7, where the test expects 5 and 1 |
| Field.ScaleAgrees | src/finite_body/mul.rs:44-53 | the signed multiple agrees with `Mul<isize>` for k >= 0, x * 1 = x and x * 0 = 0 |
| Field.ScaleNegates | src/finite_body/mul.rs:102-103 | the signed multiple negates for a negated scalar, as the tests of `Mul<isize>` expect |
| Field.Scale | src/finite_body/mul.rs:96-104 | the signed multiple the tests of `Mul<isize>` expect keeps the modulus and is valid; the scalar 0 gives 0 and the scalar 1 gives a valid element back |
| Field.ScaleAdditive | src/finite_body/mul.rs:44-53 | the signed multiple is additive in the scalar: x * (j + k) = x * j + x * k |
| Field.FermatPower | src/finite_body/finite_body.rs:52-57 | the countdown loop of `inverse` leaves value^max(p - 2, 0) reduced modulo p in the accumulator |
| Field.Inverse | src/finite_body/finite_body.rs:33-64 | `inverse` answers `None` exactly when the Fermat power is zero, and otherwise that power |
| Field.InversePrime | src/finite_body/finite_body.rs:50-63 | modulo a prime, a nonzero residue has an inverse in the field whose product with it is 1; for p > 2, `None` exactly for zero |
| Field.InverseUnique | src/finite_body/finite_body.rs:52-63 | modulo a prime, any residue whose product with e is 1 is what `inverse` returns |
| Field.InverseExamples | src/finite_body/finite_body.rs:111-122 | the inverses modulo 7 asserted by the tests, and `None` for 0 and 7 |
| Field.InverseEdgeCases | src/finite_body/finite_body.rs:52-63 | modulo 2 zero gets 1; modulo 4 the nonzero 2 gets `None`; modulo 9 the element 2 gets 2 although 2 * 2 = 4 |
| Field.Divisible | src/finite_body/div.rs:24-34 | `div` does not panic on this divisor; modulo a prime and for a valid divisor, exactly when the divisor is nonzero |
| Field.Div | src/finite_body/div.rs:24-34 | the quotient keeps the dividend's modulus and is valid; modulo a prime, the quotient times the divisor is the dividend |
| Field.DivRoundTrip | src/finite_body/div.rs:24-34 | modulo a prime, division by a nonzero element does not panic, stays in the field, and undoes and is undone by multiplication |
| Field.DivExamples | src/finite_body/div.rs:41-54 | the quotients asserted by the tests, e.g. 5 / 2 = 6 and 0 / 5 = 0 modulo 7 |
| Arith.FermatInverse | src/finite_body/finite_body.rs:50-57 | modulo a prime p not dividing x, x * x^(p-2) is 1 and x^(p-2) is the only residue with that property |
| EarlierField.EarlierInverse | src/body_finity.rs:53-81 | the earlier `inverse` returns the Fermat power and never `None` |
| EarlierField.EarlierInverseAgrees | src/body_finity.rs:72-79 | the earlier `inverse` agrees with the later one where that returns a value, and answers 0 where it answers `None` |
| EarlierField.EarlierInverseOf | src/body_finity.rs:53-81 | the earlier `inverse` always answers `Some` element of the field; modulo a prime, a nonzero residue times its answer is 1 |
| EarlierField.EarlierDiv | src/body_finity.rs:213-223 | with a nonzero divisor the quotient keeps the dividend's modulus and is valid; modulo a prime, the quotient times the divisor is the dividend |
| EarlierField.EarlierDivAgrees | src/body_finity.rs:213-223 | the earlier `div` agrees with the later one where the later one is defined; modulo a prime both accept every nonzero divisor; otherwise the earlier one returns 0 |
| EarlierField.EarlierDivCompositeExample | src/body_finity.rs:213-223 | modulo 4 the earlier `div` returns 0 for 1 / 2, where the later one panics |
| EarlierField.EarlierExamples | src/body_finity.rs:447-460 | the inverses and quotients modulo 7 asserted by the tests of the earlier copy |
| EarlierField.EarlierMulScalar | src/body_finity.rs:284-292 | the earlier `Mul<isize>` loop adds the element k times for k > 0 and none for k <= 0 |
| EarlierField.ScaledNonnegLaws | src/body_finity.rs:284-292 | the earlier scalar multiple is the signed multiple for k >= 0 and 0 for k < 0 |
| EarlierField.EarlierScalarExamples | src/body_finity.rs:462-469 | x * 2 = 4, x * 3 = 6 and x * 4 = 1 for x = 2 modulo 7 |
| EarlierField.ExtendedEuclid | src/body_finity.rs:33-42 | the loop returns g and x with g = a*x + b*y for some y; g has exactly the positive common divisors of a and b, and g >= 0 for nonnegative inputs |
| EarlierField.EuclidStep | src/body_finity.rs:36-40 | one iteration keeps both remainders Bezout combinations with the same common divisors, and the remainder strictly shrinks |
| EarlierField.ModInverse | src/body_finity.rs:44-51 | a returned value lies in [0, p) and is an inverse of a modulo p; for a >= 0, `None` means a and p share a divisor above 1 |
| Curve.OnCurve | src/elliptic_curve/point_elliptic_curve.rs:27 | the test y^2 == x^3 + a*x + b of `new`, compared with the field's value equality; it has no contract of its own, and `Curve.NewIffCurveEquation` states which coordinates pass it |
| Curve.New | src/elliptic_curve/point_elliptic_curve.rs:26-37 | a point `new` returns is the finite point with exactly the given coordinates and parameters |
| Curve.NewInf | src/elliptic_curve/point_elliptic_curve.rs:39-46 | `new_inf(a, b)` is the point at infinity carrying a and b |
| Curve.PEq | src/elliptic_curve/point_elliptic_curve.rs:205-212 | point `==`; for points over one field it holds exactly when they are the same point |
| Curve.EqTuple4 | src/elliptic_curve/point_elliptic_curve.rs:170-184 | `==` against (x, y, a, b) is point `==` against the finite point (x, y, a, b), or, for the point at infinity, against the infinity of (a, b) |
| Curve.EqTuple2 | src/elliptic_curve/point_elliptic_curve.rs:191-203 | `==` against (x, y) holds exactly for a finite point `==` to (x, y) over its own parameters; the point at infinity never matches |
| Curve.NewIffCurveEquation | src/elliptic_curve/point_elliptic_curve.rs:26-37 | over one field, `new` accepts exactly the coordinates that satisfy y^2 = x^3 + a*x + b modulo p, and then returns that finite point |
| Curve.NewAccepts | src/elliptic_curve/point_elliptic_curve.rs:26-37 | a finite point whose coordinates satisfy the curve equation on integers is what `new` returns |
| Curve.NewRejects | src/elliptic_curve/point_elliptic_curve.rs:26-37 | coordinates that violate the curve equation are refused by `new` |
| Curve.EqualityLaws | src/elliptic_curve/point_elliptic_curve.rs:170-211 | over one field, point `==` is structural equality; the 4-tuple form agrees with it on finite points and matches infinity on (a, b); the 2-tuple form never matches infinity |
| Curve.CaseOf | src/elliptic_curve/point_elliptic_curve.rs:64-100 | the branch `add` takes: different curves exactly when a or b differ; the vertical branch only for finite points with equal x and different y; doubling only for a point `==` to the other with y != 0; the chord only for different x |
| Curve.AddDefined | src/elliptic_curve/point_elliptic_curve.rs:87-100 | `add` can panic only in the doubling and chord branches, where it divides |
| Curve.Add | src/elliptic_curve/point_elliptic_curve.rs:64-101 | points of different curves give `None`; infinity on the left gives the right operand and on the right the left one; a sum of two finite points carries the left operand's a and b and, when finite, its coordinates satisfy the curve equation |
| Curve.AddIdentity | src/elliptic_curve/point_elliptic_curve.rs:64-75 | points of different curves do not add; infinity is a left and a right identity |
| Curve.ReflectionCase | src/elliptic_curve/point_elliptic_curve.rs:77-85 | a point and its reflection (x, -y) meet the vertical branch, or the 2-torsion branch when y = 0 |
| Curve.AddToInfinity | src/elliptic_curve/point_elliptic_curve.rs:77-85 | the vertical and 2-torsion branches do not panic and return the point at infinity of the curve |
| Curve.ChordSlope | src/elliptic_curve/point_elliptic_curve.rs:96 | modulo a prime, a slope s solving s * (x1 - x2) = y1 - y2 is exactly the quotient the chord branch computes |
| Curve.TangentSlope | src/elliptic_curve/point_elliptic_curve.rs:89 | modulo a prime above 2 with y != 0, a slope s solving s * 2y = 3x^2 + a is exactly the quotient the doubling branch computes |
| Curve.ChordCoordinates | src/elliptic_curve/point_elliptic_curve.rs:96-100 | the chord with slope s yields the textbook point (s^2 - x1 - x2, s * (x2 - x3) - y2), subject to `new` |
| Curve.TangentCoordinates | src/elliptic_curve/point_elliptic_curve.rs:89-93 | the tangent with slope s yields the textbook point (s^2 - 2x, s * (x - x3) - y), subject to `new` |
| Curve.ChordFormula | src/elliptic_curve/point_elliptic_curve.rs:96-100 | for distinct x modulo a prime, `add` takes the chord branch, does not panic, and returns the chord with the solving slope |
| Curve.DoublingFormula | src/elliptic_curve/point_elliptic_curve.rs:87-94 | for y != 0 modulo a prime above 2, `add` takes the doubling branch, does not panic, and returns the tangent with the solving slope |
| Curve.ChordSum | src/elliptic_curve/point_elliptic_curve.rs:96-100 | P + Q is R when R has the chord coordinates for the solving slope and lies on the curve |
| Curve.TangentSum | src/elliptic_curve/point_elliptic_curve.rs:87-94 | P + P is R when R has the doubling coordinates for the solving slope and lies on the curve |
| Curve.DoublingDefined | src/elliptic_curve/point_elliptic_curve.rs:89 | modulo a prime above 2, the doubling division is defined whenever y != 0 |
| Curve.ChordCommutes | src/elliptic_curve/point_elliptic_curve.rs:96-100 | the chord branch gives the same point from either side |
| Curve.AddCommutative | src/elliptic_curve/point_elliptic_curve.rs:64-101 | modulo a prime above 2, `add` never panics on points over the field, and P + Q and Q + P are the same result |
| Curve.Neg | src/elliptic_curve/point_elliptic_curve.rs:162-167 | infinity is its own negation; a negation keeps finiteness and the parameters a and b |
| Curve.NegReflects | src/elliptic_curve/point_elliptic_curve.rs:162-167 | the negation of a finite point on the curve is its reflection (x, -y), which `new` accepts |
| Curve.NegLaws | src/elliptic_curve/point_elliptic_curve.rs:162-167 | modulo an odd p, `neg` of a point on the curve is (x, -y) and negating twice gives the point back |
| Curve.AddNegIsInfinity | src/elliptic_curve/point_elliptic_curve.rs:64-101 | modulo an odd p, P + (-P) is defined and is the point at infinity, for every finite point on the curve |
| Curve.ScalarMul | src/elliptic_curve/point_elliptic_curve.rs:133-145 | the loop of `Mul<usize>` returns k copies of P added to infinity, wherever no partial sum panics |
| Curve.MultiplePrefix | src/elliptic_curve/point_elliptic_curve.rs:136-142 | if the loop of k additions does not panic, no shorter loop does |
| Curve.MultipleBasics | src/elliptic_curve/point_elliptic_curve.rs:119-131 | P * 0 is infinity, P * 1 is P, P * 2 is P + P and P * 3 is (P + P) + P |
| Curve.MultipleStep | src/elliptic_curve/point_elliptic_curve.rs:136-142 | one more iteration: P * (k + 1) is P * k plus P |
| Curve.Multiple | src/elliptic_curve/point_elliptic_curve.rs:133-145 | every defined multiple of P carries P's parameters a and b, each partial sum keeping those of the previous one |
| Curve.MultiplePeriodic | src/elliptic_curve/point_elliptic_curve.rs:133-145 | once P * n is infinity, the multiples repeat with period n |
| Curve.MultipleCycle | src/elliptic_curve/point_elliptic_curve.rs:133-145 | if P * n is infinity for n > 0, every multiple is defined and P * j equals P * (j mod n) |
| CurveVectors.SmallCurvePoint | src/elliptic_curve/point_elliptic_curve.rs:220-228 | `new` accepts (-1, -1) on y^2 = x^3 + 5x + 7, read modulo 103 |
| CurveVectors.SmallCurveRefused | src/elliptic_curve/point_elliptic_curve.rs:220-228 | `new` refuses (-1, -2) on the same curve |
| CurveVectors.Curve103Point | src/elliptic_curve/point_elliptic_curve.rs:230-240 | `new` accepts (17, 64) on y^2 = x^3 + 7 modulo 103 |
| CurveVectors.SmallCurveAdd | src/elliptic_curve/point_elliptic_curve.rs:242-250 | (-1, -1) + (-1, 1) is infinity, and infinity is an identity for both points |
| CurveVectors.SmallCurveNeg | src/elliptic_curve/point_elliptic_curve.rs:251 | the negation of (-1, -1) is (-1, 1) |
| CurveVectors.SmallCurveNegMirror | src/elliptic_curve/point_elliptic_curve.rs:252 | the negation of (-1, 1) is (-1, -1) |
| CurveVectors.Curve37Chord | src/elliptic_curve/point_elliptic_curve.rs:255-281 | (6, 1) + (8, 1) = (23, 36) modulo 37 |
| CurveVectors.Curve223Chord | src/elliptic_curve/point_elliptic_curve.rs:283-307 | (192, 105) + (17, 56) = (170, 142) modulo 223 |
| CurveVectors.Curve37Doubling | src/elliptic_curve/point_elliptic_curve.rs:309-330 | (6, 1) + (6, 1) = (18, 17) modulo 37 |
| CurveVectors.Order21Multiples | src/elliptic_curve/point_elliptic_curve.rs:332-361 | (47, 71) * 21 is the point at infinity modulo 223, every intermediate multiple being a finite point |
| CurveVectors.Order7Multiples | src/elliptic_curve/point_elliptic_curve.rs:363-392 | (15, 86) * 7 is the point at infinity modulo 223, every intermediate multiple being a finite point |
| Dlp.CeilSqrt | src/elliptic_curve/discrete_logarithm_problem.rs:18 | the block size m satisfies m * m >= p, and (m - 1)^2 < p when m > 0 |
| Dlp.CeilSqrtLeast | src/elliptic_curve/discrete_logarithm_problem.rs:18 | no smaller m has m * m >= p: m is the integer ceiling of sqrt(p) |
| Dlp.IndexTableLast | src/elliptic_curve/discrete_logarithm_problem.rs:23-26 | after inserting keys[j] := j in order, a key maps to the last index that holds it |
| Dlp.BabyTable | src/elliptic_curve/discrete_logarithm_problem.rs:20-26 | the table after n iterations of the baby-step loop; it has no contract of its own, and `Dlp.BabyTableHas` and `Dlp.BabyTableHit` state which keys it holds and what they map to |
| Dlp.BabyTableStep | src/elliptic_curve/discrete_logarithm_problem.rs:23-26 | iteration n inserts its key (infinity first, then G * (n - 1)) with value n into the table of the first n iterations |
| Dlp.BabyTableKeys | src/elliptic_curve/discrete_logarithm_problem.rs:23-26 | every key inserted by the first n iterations is in the table |
| Dlp.BabyTableLast | src/elliptic_curve/discrete_logarithm_problem.rs:23-26 | a key maps to the last iteration that inserted it |
| Dlp.BabyTableHas | src/elliptic_curve/discrete_logarithm_problem.rs:20-26 | every j * G with j <= m - 2 is a key, mapped to at least j + 1 |
| Dlp.BabyTableHit | src/elliptic_curve/discrete_logarithm_problem.rs:20-26 | a key P maps to j + 1, where j <= m - 2 is the largest index with j * G == P |
| Dlp.BabySteps | src/elliptic_curve/discrete_logarithm_problem.rs:20-26 | the baby-step loop builds exactly the table of m iterations |
| Dlp.BabyStep | src/elliptic_curve/discrete_logarithm_problem.rs:23-26 | one iteration of the baby-step loop takes the table and accumulator of j iterations to those of j + 1 |
| Dlp.GiantStep | src/elliptic_curve/discrete_logarithm_problem.rs:32 | giant step i, K + (-(G * (i * m))), `None` where an `unwrap` panics; it has no contract of its own, and `Dlp.GiantStepAt` computes it with the modelled `Mul<usize>`, `neg` and `add` |
| Dlp.GiantStepAt | src/elliptic_curve/discrete_logarithm_problem.rs:32 | the giant step computed with `Mul<usize>`, `neg` and `add` is step i of the sequence the giant-step search runs over |
| Dlp.GiantSearch | src/elliptic_curve/discrete_logarithm_problem.rs:28-39 | the giant-step loop over a sequence of steps; it has no contract of its own, and `Dlp.GiantSearchOutcome` states what it returns |
| Dlp.GiantSearchStep | src/elliptic_curve/discrete_logarithm_problem.rs:31-37 | one iteration of the giant-step loop: step i does not panic, then its point hits the table and the loop returns i * m + table[point] - 1, or the loop goes on |
| Dlp.GiantSearchOutcome | src/elliptic_curve/discrete_logarithm_problem.rs:28-39 | the giant-step loop returns 0 after m misses, or the value at the first hit, all earlier steps having missed |
| Dlp.GiantSteps | src/elliptic_curve/discrete_logarithm_problem.rs:28-39 | the giant-step loop, breaking at the first hit, returns what the giant-step search specifies |
| Dlp.Bsgs | src/elliptic_curve/discrete_logarithm_problem.rs:11-40 | `bsgs` returns the giant-step search over the baby-step table with m = ceil(sqrt(p)) |
| Dlp.BsgsResult | src/elliptic_curve/discrete_logarithm_problem.rs:11-40 | `bsgs` returns 0 with every giant step missing, or h * m + j for the first giant step h whose point K - (h * m) * G is j * G, with j <= m - 2 the largest such index |
| Dlp.BruteForce | src/elliptic_curve/discrete_logarithm_problem.rs:42-59 | when some G * n equals K, `brute_force` returns the least k >= 1 with G * k == K, every earlier multiple defined and different |
| Dlp.IsLeastLog | src/elliptic_curve/discrete_logarithm_problem.rs:42-59 | k is the least k >= 1 with G * k == K, every earlier multiple defined; it has no contract of its own, and `Dlp.BruteForce` returns it |
| Dlp.LeastLogUnique | src/elliptic_curve/discrete_logarithm_problem.rs:42-59 | the least logarithm `brute_force` returns is unique |
| DlpVectors.BlockSize223 | src/elliptic_curve/discrete_logarithm_problem.rs:18 | the block size for p = 223 is 15 |
| DlpVectors.Order7Prefix | src/elliptic_curve/point_elliptic_curve.rs:374-388 | the multiples 1 to 6 of (15, 86) modulo 223, the sixth being K = (15, 137) |
| DlpVectors.Order7BabyStepsDefined | src/elliptic_curve/discrete_logarithm_problem.rs:20-26 | no baby step panics for the generator of order 7 |
| DlpVectors.Order7Log13 | src/elliptic_curve/point_elliptic_curve.rs:133-145 | (15, 86) * 13 is K again |
| DlpVectors.Order7FirstGiantStep | src/elliptic_curve/discrete_logarithm_problem.rs:32 | giant step 0 is K itself |
| DlpVectors.Order7TableEntry | src/elliptic_curve/discrete_logarithm_problem.rs:20-26 | in the table of 15 baby steps K maps to 14, its last insertion being G * 13 |
| DlpVectors.Order7Bsgs | src/elliptic_curve/discrete_logarithm_problem.rs:11-40 | `bsgs(223, 0, 7, G, K)` hits at giant step 0 and returns 13 |
| DlpVectors.Order7BruteForce | src/elliptic_curve/discrete_logarithm_problem.rs:42-59 | `brute_force(223, 0, 7, G, K)` returns 6 |
| KeyAgreement.OrderSearch | src/agreement.rs:23-33 | the order search from k answers 0 or a k' in [k, p); `KeyAgreement.OrderSearchSpec` states exactly which |
| KeyAgreement.OrderSearchStep | src/agreement.rs:26-33 | one step of the order search: g * k does not panic, then it hits infinity and answers k, or the search goes on |
| KeyAgreement.OrderSearchSound | src/agreement.rs:23-33 | what the order search answers is the least k in [1, p) with g * k equal to infinity, or 0 when there is none |
| KeyAgreement.OrderSearchComplete | src/agreement.rs:23-33 | the least such k, or 0 with none, is what the order search answers |
| KeyAgreement.OrderSearchSpec | src/agreement.rs:23-33 | the order search answers n exactly when n is the least hit in [k, p), or 0 with no hit |
| KeyAgreement.FindOrder | src/agreement.rs:23-33 | the search loop with its `break` returns what the order search specifies |
| KeyAgreement.CountedIffNew | src/agreement.rs:39-43 | the counting test x^3 + a*x + b == y^2 is exactly the test of point `new` |
| KeyAgreement.RowCountIsSize | src/agreement.rs:41-46 | the inner loop counts the accepted pairs of its row |
| KeyAgreement.PointCountIsSize | src/agreement.rs:38-47 | the outer loop counts the accepted pairs of its rows |
| KeyAgreement.CurvePointCount | src/agreement.rs:35-47 | the count the loops of `new` leave, 0 when p <= 0; it has no contract of its own, and `KeyAgreement.CurvePointCountIsAccepted` states what it counts |
| KeyAgreement.CurvePointCountIsAccepted | src/agreement.rs:35-47 | the count `new` stores is the number of pairs in [0, p) x [0, p) that point `new` accepts |
| KeyAgreement.CountPoints | src/agreement.rs:35-47 | the nested counting loops compute the specified count, 0 when p <= 0 |
| KeyAgreement.Setup | src/agreement.rs:17-57 | the agreement `new` builds; it has no contract of its own, and `KeyAgreement.AgreementFacts` states what it stores |
| KeyAgreement.NewAgreement | src/agreement.rs:17-57 | `new` stores p, a, b, g, the result of the order search and the point count |
| KeyAgreement.OrderG | src/agreement.rs:59-61 | the getter `order_g()`; it has no contract of its own, and `KeyAgreement.AgreementFacts` states its value |
| KeyAgreement.QuantityPointsCurve | src/agreement.rs:63-65 | the getter `quantity_points_curve()`; it has no contract of its own, and `KeyAgreement.AgreementFacts` states its value |
| KeyAgreement.AgreementFacts | src/agreement.rs:59-65 | `order_g()` is the least n in [1, p) with g * n equal to infinity, or 0 with none; `quantity_points_curve()` is the number of accepted pairs plus one |
| KeyAgreement.GeneratePublicKey | src/agreement.rs:67-69 | a public key carries the a and b of the generator |
| KeyAgreement.GenerateSharedSecret | src/agreement.rs:71-77 | a shared secret carries the a and b of the public key it was computed from |
| KeyAgreement.PublicKeyFinite | src/agreement.rs:67-69 | a private key in [1, order_g) gives a public key that is a finite point of g's curve |
| KeyAgreement.PublicKeyModOrder | src/agreement.rs:67-69 | with a nonzero order n, every public key is defined and k and k mod n give the same public key |
| KeyAgreement.SharedSecretIgnoresGenerator | src/point_eliptic_curve.rs:546-563 | the shared secret depends only on the public key and the private key, not on the agreement it is asked of |
| KeyAgreement.MultiplesAdd | src/agreement.rs:112-130 | an assumed hypothesis, not a modelled operation and not proved: the group law on the multiples of g, (g * i) + (g * j) = g * (i + j); it is a precondition of `KeyAgreement.MultipleOfMultiple` and `KeyAgreement.SharedSecretsAgree` |
| KeyAgreement.MultipleOfMultiple | src/agreement.rs:71-77 | given the group law on the multiples of g, (g * i) * j is g * (i * j) |
| KeyAgreement.SharedSecretsAgree | src/agreement.rs:102-130 | given the group law on the multiples of g, both sides of the exchange reach the same secret g * (ka * kb) |
| AgreementVectors.Order13Order | src/agreement.rs:86-100 | the order search of `new` finds 13 for G1 = (13, 15) on y^2 = x^3 + 6 modulo 43 |
| AgreementVectors.Order39Order | src/agreement.rs:133-147 | the order search of `new` finds 39 for G2 = (9, 2) on the same curve |
| AgreementVectors.PublicKeys | src/agreement.rs:102-110 | with G1, the private keys 2 and 3 give the public keys (33, 34) and (38, 15) |
| AgreementVectors.SharedSecrets | src/agreement.rs:112-130 | with G1, Alice's (38, 15) * 2 and Bob's (33, 34) * 3 are both (27, 34) = G1 * 6 |

## Left out

- The instantiations at floating-point types (the `f64` tests of the field) are not modelled. Field values are unbounded integers.
- The block size of `bsgs` is computed with `f64` `sqrt` and `ceil`. The model uses the exact integer ceiling of the square root, which the float computation matches for the small p of the source.
- The width of `i32`, `isize` and `usize` is not modelled: no overflow, wrap-around or casting panic. In particular, `(a * m) as usize` and the integer powers inside `pow` are exact.
- Moduli p <= 0 are not modelled: `new` with p = 0 panics in Rust, and a negative p gives values outside [0, p). `Field.Modulus` requires p > 0.
- Panics become preconditions or `None`:
  - `div` requires `Field.Divisible`;
  - point `add` requires `Curve.AddDefined`;
  - `Mul<usize>` is the `Option` of `Curve.Multiple`, and `Curve.ScalarMul` requires that it is defined;
  - the `unwrap`s of a giant step are the `None` of `Dlp.GiantStep`.
- `Dlp.BruteForce`: the source loops forever when no multiple equals K. The model requires that some multiple does.
- `Dlp.BruteForce` and `Dlp.Bsgs` do not take the unused parameters of `brute_force` (p, a, b). `Dlp.Bsgs` takes p, a and b, which `bsgs` uses.
- The `HashMap` of `bsgs` is a `map` keyed by structural equality. The derived `Hash` also covers the modulus. Over one field, structural equality is the points' `==` (`Curve.EqualityLaws`). `GiantSteps` fills the `giant_steps` map, which the source never reads.
- `Dlp.Bsgs`, `Dlp.BsgsResult`: correctness in general (that `G * k == K` whenever K is a multiple of G) needs the associativity of the group law. That is not proved. The two lemmas state what `bsgs` computes, and `DlpVectors` checks one instance.
- `KeyAgreement.MultipleOfMultiple`, `KeyAgreement.SharedSecretsAgree`: the Diffie–Hellman equality is proved from `KeyAgreement.MultiplesAdd`. That is the group law on the multiples of g, which follows from associativity. It is stated as a precondition, not proved. `AgreementVectors.SharedSecrets` checks the exchange with the keys 2 and 3 without it.
- The associativity of point addition is not proved. Commutativity is proved (`Curve.AddCommutative`).
- The instances over p = 1021 are not checked on the model, because they are too large to unfold in the verifier:
  - the multiple 655 of (379, 1011);
  - the point count of y^2 = x^3 - 3x - 3;
  - both discrete-logarithm tests with G = (1006, 416) and K = (612, 827).
- The point count of the curve modulo 43 is not checked on the model, because it unfolds 43 * 43 tests. `KeyAgreement.CurvePointCountIsAccepted` states what it counts for every curve.
- `Curve.NewAccepts` and `Curve.NewRejects` apply over one field. Coordinates of mixed moduli are compared by value like everything else, but no lemma covers them.
- test_01 and test_03 (src/elliptic_curve/point_elliptic_curve.rs:220-252) instantiate the curve over plain `i32`, whose `/` is integer division. That instantiation is not modelled. `CurveVectors` reads their points as field elements modulo 103.
- The private keys of the tests come from `rand::thread_rng`. They are parameters of the lemmas.
- The `println!` output and the timing with `Instant` are not modelled.
- The `Hash`, `Debug`, `Clone` and `Copy` derivations are not modelled.
- The earlier `PointElipticCurve` in src/point_eliptic_curve.rs is not modelled separately. Its construction, `add`, `neg` and `Mul<usize>` are the same code over `BodyFinity`, whose arithmetic is that of module `Field` apart from `inverse`, `div` and `Mul<isize>`, which `EarlierField` models. Its copies of `bsgs` and of the exhaustive loop are modelled once, in `Dlp`.
- Its test copy of `Agreement` is also modelled once, in `KeyAgreement`.

## Findings

| source | as written | input that shows it | evidently intended | confidence | as-written member | corrected member |
|---|---|---|---|---|---|---|
| src/finite_body/mul.rs:45-53 | `Mul<isize>` adds the element to zero abs(k) times, so a negative scalar gives the same result as its absolute value | x = 2 modulo 7, k = -1: the code gives 2 and the test at src/finite_body/mul.rs:102 expects 5; k = -3 gives 6 where the test expects 1 | k * x modulo p, a negative scalar negating the result | not executed | Field.MulScalarNegativeMismatch | Field.ScaleNegates |

`Field.MulScalar` is the loop as written and is proved to compute `Field.ScaledAbs`. The corrected multiple
is `Field.Scale`, which the point-doubling formulas of `Curve` use. `Field.ScaleAgrees` shows that it
agrees with the loop for every k >= 0, which includes the scalars 2 and 3 that `add` passes.
