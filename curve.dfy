/**
  Points of a short Weierstrass curve y^2 = x^3 + a*x + b over the field
  elements of module Field (`PointEllipticCurve<FiniteBody<T>>` in
  src/elliptic_curve/point_elliptic_curve.rs; the earlier copy
  `PointElipticCurve` in src/point_eliptic_curve.rs has the same code).

  A point carries its curve parameters. The point at infinity has no
  coordinates. Every comparison of coordinates or parameters is the field's
  value-only equality.
*/
module Curve {
  import opened Arith
  import opened Wrappers
  import F = Field

  datatype Point = Inf(a: F.FE, b: F.FE) | Fin(x: F.FE, y: F.FE, a: F.FE, b: F.FE)

  /** The test of `new`: y.pow(2) against x.pow(3) + a * x + b, compared by value. */
  predicate OnCurve(x: F.FE, y: F.FE, a: F.FE, b: F.FE)
  {
    F.Eq(F.Pow(y, 2), F.Add(F.Add(F.Pow(x, 3), F.Mul(a, x)), b))
  }

  function New(x: F.FE, y: F.FE, a: F.FE, b: F.FE): (r: Option<Point>)
    ensures r.Some? ==> r.value == Fin(x, y, a, b)
  {
    if !OnCurve(x, y, a, b) then None else Some(Fin(x, y, a, b))
  }

  function NewInf(a: F.FE, b: F.FE): (r: Point)
    ensures r.Inf? && r.a == a && r.b == b
  {
    Inf(a, b)
  }

  /** The derived-style `==` between points: x, y, a and b compared by value. */
  function PEq(P: Point, Q: Point): (r: bool)
    ensures OverField(P, P.a.p) && OverField(Q, P.a.p) ==> (r <==> P == Q)
  {
    match (P, Q)
    case (Inf(a1, b1), Inf(a2, b2)) => F.Eq(a1, a2) && F.Eq(b1, b2)
    case (Fin(x1, y1, a1, b1), Fin(x2, y2, a2, b2)) =>
      F.Eq(x1, x2) && F.Eq(y1, y2) && F.Eq(a1, a2) && F.Eq(b1, b2)
    case _ => false
  }

  /** `==` against a tuple (x, y, a, b): infinity matches on a and b alone. */
  function EqTuple4(P: Point, x: F.FE, y: F.FE, a: F.FE, b: F.FE): (r: bool)
    ensures r <==> PEq(P, if P.Inf? then Inf(a, b) else Fin(x, y, a, b))
  {
    match P
    case Inf(pa, pb) => F.Eq(pa, a) && F.Eq(pb, b)
    case Fin(px, py, pa, pb) => F.Eq(px, x) && F.Eq(py, y) && F.Eq(pa, a) && F.Eq(pb, b)
  }

  /** `==` against a tuple (x, y): infinity never matches. */
  function EqTuple2(P: Point, x: F.FE, y: F.FE): (r: bool)
    ensures r <==> P.Fin? && PEq(P, Fin(x, y, P.a, P.b))
  {
    P.Fin? && F.Eq(P.x, x) && F.Eq(P.y, y)
  }

  // ---------------------------------------------------------------------------
  // The group law

  /** The branches of `add`, in the order the code tests them. */
  datatype AddCase = Mismatch | LeftIdentity | RightIdentity | Vertical | Torsion | Doubling | Chord

  function CaseOf(P: Point, Q: Point): (c: AddCase)
    ensures c == Mismatch <==> !F.Eq(P.a, Q.a) || !F.Eq(P.b, Q.b)
    ensures c == Vertical ==> P.Fin? && Q.Fin? && F.Eq(P.x, Q.x) && !F.Eq(P.y, Q.y)
    ensures c == Doubling ==> P.Fin? && Q.Fin? && PEq(P, Q) && P.y.value != 0
    ensures c == Chord ==> P.Fin? && Q.Fin? && !F.Eq(P.x, Q.x)
  {
    if !F.Eq(P.a, Q.a) || !F.Eq(P.b, Q.b) then Mismatch
    else if P.Inf? then LeftIdentity
    else if Q.Inf? then RightIdentity
    else if F.Eq(P.x, Q.x) && !F.Eq(P.y, Q.y) then Vertical
    else if PEq(P, Q) && F.Eq(P.y, F.Zero()) then Torsion
    else if F.Eq(P.x, Q.x) && F.Eq(P.y, Q.y) then Doubling
    else Chord
  }

  /** `add` does not panic: the division of the doubling or chord branch is defined. */
  function AddDefined(P: Point, Q: Point): (r: bool)
    ensures !r ==> CaseOf(P, Q) == Doubling || CaseOf(P, Q) == Chord
  {
    match CaseOf(P, Q)
    case Doubling => F.Divisible(F.Scale(P.y, 2))
    case Chord => F.Divisible(F.Sub(P.x, Q.x))
    case _ => true
  }

  /** The tangent line through P with slope m meets the curve again at the mirror of the returned point. */
  function TangentWith(P: Point, m: F.FE): Option<Point>
    requires P.Fin?
  {
    var x := F.Sub(F.Pow(m, 2), F.Scale(P.x, 2));
    var y := F.Sub(F.Mul(m, F.Sub(P.x, x)), P.y);
    New(x, y, P.a, P.b)
  }

  /**
    The doubling branch of `add`: the tangent slope (3 * x^2 + a) / (2 * y).
    The scalars 3 and 2 go through `Mul<isize>`, which for positive scalars
    is `Scale` (Field.ScaleAgrees).
  */
  function Doubled(P: Point): Option<Point>
    requires P.Fin? && F.Divisible(F.Scale(P.y, 2))
  {
    TangentWith(P, F.Div(F.Add(F.Scale(F.Pow(P.x, 2), 3), P.a), F.Scale(P.y, 2)))
  }

  /** The line through P and Q with slope m meets the curve again at the mirror of the returned point. */
  function ChordWith(P: Point, Q: Point, m: F.FE): Option<Point>
    requires P.Fin? && Q.Fin?
  {
    var x := F.Sub(F.Sub(F.Pow(m, 2), P.x), Q.x);
    var y := F.Sub(F.Mul(m, F.Sub(Q.x, x)), Q.y);
    New(x, y, P.a, P.b)
  }

  /** The chord branch of `add`: the slope (y1 - y2) / (x1 - x2). */
  function Chorded(P: Point, Q: Point): Option<Point>
    requires P.Fin? && Q.Fin? && F.Divisible(F.Sub(P.x, Q.x))
  {
    ChordWith(P, Q, F.Div(F.Sub(P.y, Q.y), F.Sub(P.x, Q.x)))
  }

  /** `add`, branch by branch. */
  function Add(P: Point, Q: Point): (r: Option<Point>)
    requires AddDefined(P, Q)
    ensures !F.Eq(P.a, Q.a) || !F.Eq(P.b, Q.b) ==> r.None?
    ensures F.Eq(P.a, Q.a) && F.Eq(P.b, Q.b) && P.Inf? ==> r == Some(Q)
    ensures F.Eq(P.a, Q.a) && F.Eq(P.b, Q.b) && P.Fin? && Q.Inf? ==> r == Some(P)
    ensures r.Some? && P.Fin? && Q.Fin? ==> r.value.a == P.a && r.value.b == P.b
    ensures r.Some? && r.value.Fin? && P.Fin? && Q.Fin? ==> OnCurve(r.value.x, r.value.y, P.a, P.b)
  {
    match CaseOf(P, Q)
    case Mismatch => None
    case LeftIdentity => Some(Q)
    case RightIdentity => Some(P)
    case Vertical => Some(NewInf(P.a, P.b))
    case Torsion => Some(NewInf(P.a, P.b))
    case Doubling => Doubled(P)
    case Chord => Chorded(P, Q)
  }

  /** `neg`: infinity is its own negation; otherwise y is negated and the point re-validated. */
  function Neg(P: Point): (r: Option<Point>)
    ensures P.Inf? ==> r == Some(P)
    ensures r.Some? ==> r.value.Fin? == P.Fin? && r.value.a == P.a && r.value.b == P.b
  {
    if P.Inf? then Some(P) else New(P.x, F.Neg(P.y), P.a, P.b)
  }

  // ---------------------------------------------------------------------------
  // Scalar multiplication (`Mul<usize>`)

  /** `P * k`: infinity plus k copies of P, added on the right; `None` when the code panics. */
  function Multiple(P: Point, k: nat): (r: Option<Point>)
    ensures r.Some? ==> r.value.a == P.a && r.value.b == P.b
  {
    if k == 0 then Some(NewInf(P.a, P.b))
    else match Multiple(P, k - 1)
      case None => None
      case Some(R) => if AddDefined(R, P) then Add(R, P) else None
  }

  lemma {:induction false} MultiplePrefix(P: Point, j: nat, k: nat)
    requires j <= k && Multiple(P, k).Some?
    ensures Multiple(P, j).Some?
    decreases k - j
  {
    if j < k {
      MultiplePrefix(P, j + 1, k);
      MultipleLast(P, j + 1);
    }
  }

  /** The loop of `Mul<usize>`, which panics when a partial sum is `None`. */
  method ScalarMul(P: Point, k: nat) returns (result: Point)
    requires Multiple(P, k).Some?
    ensures Multiple(P, k) == Some(result)
  {
    result := NewInf(P.a, P.b);
    for i := 0 to k
      invariant Multiple(P, i) == Some(result)
    {
      MultiplePrefix(P, i + 1, k);
      var partial := Add(result, P);
      result := partial.value;
    }
  }

  // ---------------------------------------------------------------------------
  // Construction and equality

  /** Every parameter and coordinate of P is a valid element modulo p. */
  predicate OverField(P: Point, p: int)
  {
    F.InField(P.a, p) && F.InField(P.b, p) && (P.Fin? ==> F.InField(P.x, p) && F.InField(P.y, p))
  }

  /**
    `new` accepts exactly the coordinates that satisfy the curve equation
    modulo p, and then returns the finite point it was given.
  */
  lemma NewIffCurveEquation(x: F.FE, y: F.FE, a: F.FE, b: F.FE, p: F.Modulus)
    requires F.InField(x, p) && F.InField(y, p) && F.InField(a, p) && F.InField(b, p)
    ensures New(x, y, a, b).Some? <==> (y.value * y.value) % p == (Power(x.value, 3) + a.value * x.value + b.value) % p
    ensures New(x, y, a, b).Some? ==> New(x, y, a, b).value == Fin(x, y, a, b)
  {
    var u, v := Power(x.value, 3), a.value * x.value;
    assert F.Pow(y, 2).value == (y.value * y.value) % p;
    ModAdd(u, v, p);
    ModAdd(u + v, b.value, p);
    ModUnique(b.value, 0, b.value, p);
    ModUnique(F.Add(F.Pow(x, 3), F.Mul(a, x)).value, 0, F.Add(F.Pow(x, 3), F.Mul(a, x)).value, p);
  }

  /** A finite point whose coordinates satisfy the curve equation on integers is what `new` returns. */
  lemma NewAccepts(P: Point, p: F.Modulus)
    requires OverField(P, p) && P.Fin?
    requires (P.y.value * P.y.value) % p == (Power(P.x.value, 3) + P.a.value * P.x.value + P.b.value) % p
    ensures New(P.x, P.y, P.a, P.b) == Some(P)
  {
    NewIffCurveEquation(P.x, P.y, P.a, P.b, p);
  }

  /** Coordinates that violate the curve equation on integers are refused by `new`. */
  lemma NewRejects(P: Point, p: F.Modulus)
    requires OverField(P, p) && P.Fin?
    requires (P.y.value * P.y.value) % p != (Power(P.x.value, 3) + P.a.value * P.x.value + P.b.value) % p
    ensures New(P.x, P.y, P.a, P.b) == None
  {
    NewIffCurveEquation(P.x, P.y, P.a, P.b, p);
  }

  /** Equal parameters or coordinates modulo the same p are the same elements. */
  lemma EqInField(e: F.FE, c: F.FE, p: int)
    requires F.InField(e, p) && F.InField(c, p)
    ensures F.Eq(e, c) <==> e == c
  {
  }

  /**
    The three equalities: on points over one field, `==` is structural
    equality; the tuple forms agree with it on finite points, and infinity
    matches a 4-tuple on its parameters but never a 2-tuple.
  */
  lemma EqualityLaws(P: Point, Q: Point, p: int)
    requires OverField(P, p) && OverField(Q, p)
    ensures PEq(P, Q) <==> P == Q
    ensures P.Fin? && Q.Fin? ==> (EqTuple4(Q, P.x, P.y, P.a, P.b) <==> PEq(Q, P))
    ensures P.Fin? ==> (EqTuple2(Q, P.x, P.y) <==> Q.Fin? && Q.x == P.x && Q.y == P.y)
    ensures P.Fin? && Q.Inf? ==> !EqTuple2(Q, P.x, P.y) && (EqTuple4(Q, P.x, P.y, P.a, P.b) <==> Q.a == P.a && Q.b == P.b)
  {
  }

  // ---------------------------------------------------------------------------
  // The branches of `add`

  /** Points of different curves do not add; infinity is a two-sided identity. */
  lemma AddIdentity(P: Point, Q: Point)
    ensures !F.Eq(P.a, Q.a) || !F.Eq(P.b, Q.b) ==> AddDefined(P, Q) && Add(P, Q) == None
    ensures F.Eq(P.a, Q.a) && F.Eq(P.b, Q.b) && P.Inf? ==> AddDefined(P, Q) && Add(P, Q) == Some(Q)
    ensures F.Eq(P.a, Q.a) && F.Eq(P.b, Q.b) && P.Fin? && Q.Inf? ==> AddDefined(P, Q) && Add(P, Q) == Some(P)
  {
  }

  /** (u - v) mod p is nonzero for distinct residues u and v. */
  lemma DistinctResidues(p: int, u: int, v: int)
    requires 0 <= u < p && 0 <= v < p && u != v
    ensures (u - v) % p != 0
  {
    if u > v {
      ModUnique(u - v, 0, u - v, p);
    } else {
      ModUnique(u - v, -1, p + u - v, p);
    }
  }

  /** Modulo an odd p, twice a nonzero residue is nonzero. */
  lemma TwiceNonzero(p: int, y: int)
    requires p % 2 == 1 && 0 < y < p
    ensures (2 * y) % p != 0
  {
    if 2 * y < p {
      ModUnique(2 * y, 0, 2 * y, p);
    } else {
      ModUnique(2 * y, 1, 2 * y - p, p);
    }
  }

  /** A prime above 2 is odd. */
  lemma OddPrime(p: int)
    requires IsPrime(p) && p > 2
    ensures p % 2 == 1
  {
    assert p % 2 != 0;
  }

  /** A slope s that solves s * d = n modulo a prime is the quotient n / d. */
  lemma SlopeIsQuotient(n: F.FE, d: F.FE, p: F.Modulus, s: int)
    requires IsPrime(p) && F.InField(n, p) && F.InField(d, p) && d.value != 0
    requires 0 <= s < p && (s * d.value) % p == n.value
    ensures F.Divisible(d) && F.Div(n, d) == F.FE(p, s)
  {
    F.DivRoundTrip(F.FE(p, s), d, p);
  }

  /** The y-coordinate of both formulas: s * (u - x3) - v, on the line through (u, v). */
  lemma LineThrough(s: int, u: F.FE, v: F.FE, x3: F.FE, p: F.Modulus)
    requires 0 <= s < p && F.InField(u, p) && F.InField(v, p) && F.InField(x3, p)
    ensures F.Sub(F.Mul(F.FE(p, s), F.Sub(u, x3)), v) == F.New(p, s * (u.value - x3.value) - v.value)
  {
    F.SubIsDifference(u, x3, p);
    var w := F.Sub(u, x3);
    F.MulStep(p, u.value - x3.value, s);
    assert F.Mul(F.FE(p, s), w) == F.New(p, s * (u.value - x3.value)) by {
      assert s * w.value == w.value * s;
    }
    F.SubIsDifference(F.Mul(F.FE(p, s), w), v, p);
    F.AddStep(p, s * (u.value - x3.value), -v.value);
  }

  /** The x-coordinate of the chord formula: s^2 - u - v. */
  lemma ChordAbscissa(s: int, u: F.FE, v: F.FE, p: F.Modulus)
    requires 0 <= s < p && F.InField(u, p) && F.InField(v, p)
    ensures F.Sub(F.Sub(F.Pow(F.FE(p, s), 2), u), v) == F.New(p, s * s - u.value - v.value)
  {
    var sq := F.Pow(F.FE(p, s), 2);
    assert sq == F.New(p, s * s);
    F.SubIsDifference(sq, u, p);
    F.AddStep(p, s * s, -u.value);
    var t := F.Sub(sq, u);
    F.SubIsDifference(t, v, p);
    F.AddStep(p, s * s - u.value, -v.value);
  }

  /**
    The chord through P and Q with slope s is the textbook third point
    (s^2 - x1 - x2, s * (x2 - x3) - y2), subject to the curve test of `new`.
  */
  lemma ChordCoordinates(P: Point, Q: Point, p: F.Modulus, s: int)
    requires OverField(P, p) && OverField(Q, p) && P.Fin? && Q.Fin? && 0 <= s < p
    ensures ChordWith(P, Q, F.FE(p, s))
         == New(F.New(p, s * s - P.x.value - Q.x.value),
                F.New(p, s * (Q.x.value - F.New(p, s * s - P.x.value - Q.x.value).value) - Q.y.value),
                P.a, P.b)
  {
    var X := F.New(p, s * s - P.x.value - Q.x.value);
    ChordPointIs(P, Q, p, s, X, F.New(p, s * (Q.x.value - X.value) - Q.y.value));
  }

  /**
    The tangent at P with slope s is the textbook double
    (s^2 - 2 * x, s * (x - x3) - y), subject to the curve test of `new`.
  */
  lemma TangentCoordinates(P: Point, p: F.Modulus, s: int)
    requires OverField(P, p) && P.Fin? && 0 <= s < p
    ensures TangentWith(P, F.FE(p, s))
         == New(F.New(p, s * s - 2 * P.x.value),
                F.New(p, s * (P.x.value - F.New(p, s * s - 2 * P.x.value).value) - P.y.value),
                P.a, P.b)
  {
    var x := P.x.value;
    var sq := F.Pow(F.FE(p, s), 2);
    assert sq == F.New(p, s * s);
    F.SubIsDifference(sq, F.Scale(P.x, 2), p);
    ModSub(s * s, 2 * x, p);
    F.NewCongruent(p, (s * s) % p - (2 * x) % p, s * s - 2 * x);
    var X := F.New(p, s * s - 2 * x);
    assert F.Sub(sq, F.Scale(P.x, 2)) == X;
    LineThrough(s, P.x, P.y, X, p);
  }

  /** The chord slope: s solves s * (x1 - x2) = y1 - y2, so it is the quotient `add` computes. */
  lemma ChordSlope(P: Point, Q: Point, p: F.Modulus, s: int)
    requires IsPrime(p) && OverField(P, p) && OverField(Q, p) && P.Fin? && Q.Fin? && P.x.value != Q.x.value
    requires 0 <= s < p && (s * (P.x.value - Q.x.value)) % p == (P.y.value - Q.y.value) % p
    ensures F.Divisible(F.Sub(P.x, Q.x)) && F.Div(F.Sub(P.y, Q.y), F.Sub(P.x, Q.x)) == F.FE(p, s)
  {
    var x1, y1, x2, y2 := P.x.value, P.y.value, Q.x.value, Q.y.value;
    F.SubIsDifference(P.x, Q.x, p);
    F.SubIsDifference(P.y, Q.y, p);
    var d, n := F.Sub(P.x, Q.x), F.Sub(P.y, Q.y);
    DistinctResidues(p, x1, x2);
    ModMulLeft(x1 - x2, s, p);
    assert (s * d.value) % p == n.value by {
      assert s * d.value == d.value * s;
      assert s * (x1 - x2) == (x1 - x2) * s;
    }
    SlopeIsQuotient(n, d, p, s);
  }

  /**
    The chord branch: for distinct x-coordinates modulo a prime p, when s
    solves s * (x1 - x2) = y1 - y2, `add` takes the chord branch and returns
    the chord with slope s.
  */
  lemma ChordFormula(P: Point, Q: Point, p: F.Modulus, s: int)
    requires IsPrime(p) && OverField(P, p) && OverField(Q, p) && P.Fin? && Q.Fin?
    requires P.a == Q.a && P.b == Q.b && P.x.value != Q.x.value
    requires 0 <= s < p && (s * (P.x.value - Q.x.value)) % p == (P.y.value - Q.y.value) % p
    ensures CaseOf(P, Q) == Chord && AddDefined(P, Q)
    ensures Add(P, Q) == ChordWith(P, Q, F.FE(p, s))
  {
    assert !PEq(P, Q) && !F.Eq(P.x, Q.x);
    ChordSlope(P, Q, p, s);
  }

  /** The tangent slope: s solves s * 2y = 3x^2 + a, so it is the quotient `add` computes. */
  lemma TangentSlope(P: Point, p: F.Modulus, s: int)
    requires IsPrime(p) && p > 2 && OverField(P, p) && P.Fin? && P.y.value != 0
    requires 0 <= s < p && (s * (2 * P.y.value)) % p == (3 * (P.x.value * P.x.value) + P.a.value) % p
    ensures F.Divisible(F.Scale(P.y, 2))
    ensures F.Div(F.Add(F.Scale(F.Pow(P.x, 2), 3), P.a), F.Scale(P.y, 2)) == F.FE(p, s)
  {
    var x, y := P.x.value, P.y.value;
    OddPrime(p);
    TwiceNonzero(p, y);
    var d := F.Scale(P.y, 2);
    assert d == F.New(p, 2 * y);
    var sqx := F.Pow(P.x, 2);
    assert sqx == F.New(p, x * x);
    F.MulStep(p, x * x, 3);
    assert F.Scale(sqx, 3) == F.New(p, 3 * (x * x)) by {
      assert 3 * sqx.value == sqx.value * 3;
    }
    F.AddStep(p, 3 * (x * x), P.a.value);
    var n := F.Add(F.Scale(sqx, 3), P.a);
    assert n == F.New(p, 3 * (x * x) + P.a.value);
    ModMulLeft(2 * y, s, p);
    assert (s * d.value) % p == n.value by {
      assert s * d.value == d.value * s;
      assert s * (2 * y) == (2 * y) * s;
    }
    SlopeIsQuotient(n, d, p, s);
  }

  /**
    The doubling branch: for a point with y != 0 modulo a prime p > 2, when
    s solves s * 2y = 3x^2 + a, `add` takes the doubling branch and returns
    the tangent with slope s.
  */
  lemma DoublingFormula(P: Point, p: F.Modulus, s: int)
    requires IsPrime(p) && p > 2 && OverField(P, p) && P.Fin? && P.y.value != 0
    requires 0 <= s < p && (s * (2 * P.y.value)) % p == (3 * (P.x.value * P.x.value) + P.a.value) % p
    ensures CaseOf(P, P) == Doubling && AddDefined(P, P)
    ensures Add(P, P) == TangentWith(P, F.FE(p, s))
  {
    TangentSlope(P, p, s);
  }

  /**
    The chord branch checked on integers: when s solves the slope equation
    and R has the chord coordinates s^2 - x1 - x2 and s * (x2 - x3) - y2
    and satisfies the curve equation, P + Q is R.
  */
  lemma ChordSum(P: Point, Q: Point, R: Point, p: F.Modulus, s: int)
    requires IsPrime(p) && OverField(P, p) && OverField(Q, p) && OverField(R, p)
    requires P.Fin? && Q.Fin? && R.Fin? && P.a == Q.a == R.a && P.b == Q.b == R.b
    requires P.x.value != Q.x.value
    requires 0 <= s < p && (s * (P.x.value - Q.x.value)) % p == (P.y.value - Q.y.value) % p
    requires R.x.value == (s * s - P.x.value - Q.x.value) % p
    requires R.y.value == (s * (Q.x.value - R.x.value) - Q.y.value) % p
    requires (R.y.value * R.y.value) % p == (Power(R.x.value, 3) + R.a.value * R.x.value + R.b.value) % p
    ensures AddDefined(P, Q) && Add(P, Q) == Some(R)
  {
    ChordResult(P, Q, R, p, s);
    ChordFormula(P, Q, p, s);
  }

  lemma ChordResult(P: Point, Q: Point, R: Point, p: F.Modulus, s: int)
    requires OverField(P, p) && OverField(Q, p) && OverField(R, p)
    requires P.Fin? && Q.Fin? && R.Fin? && P.a == R.a && P.b == R.b && 0 <= s < p
    requires R.x.value == (s * s - P.x.value - Q.x.value) % p
    requires R.y.value == (s * (Q.x.value - R.x.value) - Q.y.value) % p
    requires (R.y.value * R.y.value) % p == (Power(R.x.value, 3) + R.a.value * R.x.value + R.b.value) % p
    ensures ChordWith(P, Q, F.FE(p, s)) == Some(R)
  {
    NewOfValue(R.x, p, s * s - P.x.value - Q.x.value);
    NewOfValue(R.y, p, s * (Q.x.value - F.New(p, s * s - P.x.value - Q.x.value).value) - Q.y.value);
    NewIffCurveEquation(R.x, R.y, R.a, R.b, p);
    ChordCoordinates(P, Q, p, s);
  }

  /**
    The doubling branch checked on integers: when s solves the tangent
    equation and R has the coordinates s^2 - 2x and s * (x - x3) - y and
    satisfies the curve equation, P + P is R.
  */
  lemma TangentSum(P: Point, R: Point, p: F.Modulus, s: int)
    requires IsPrime(p) && p > 2 && OverField(P, p) && OverField(R, p)
    requires P.Fin? && R.Fin? && P.a == R.a && P.b == R.b && P.y.value != 0
    requires 0 <= s < p && (s * (2 * P.y.value)) % p == (3 * (P.x.value * P.x.value) + P.a.value) % p
    requires R.x.value == (s * s - 2 * P.x.value) % p
    requires R.y.value == (s * (P.x.value - R.x.value) - P.y.value) % p
    requires (R.y.value * R.y.value) % p == (Power(R.x.value, 3) + R.a.value * R.x.value + R.b.value) % p
    ensures AddDefined(P, P) && Add(P, P) == Some(R)
  {
    DoublingFormula(P, p, s);
    TangentCoordinates(P, p, s);
    NewIffCurveEquation(R.x, R.y, R.a, R.b, p);
  }

  lemma NewOfValue(e: F.FE, p: F.Modulus, v: int)
    requires F.InField(e, p) && e.value == v % p
    ensures F.New(p, v) == e
  {
  }

  /** The double and the triple of `Mul<usize>` are P + P and (P + P) + P, as its documentation says. */
  lemma MultipleBasics(P: Point)
    ensures Multiple(P, 0) == Some(Inf(P.a, P.b))
    ensures Multiple(P, 1) == Some(P)
    ensures AddDefined(P, P) ==> Multiple(P, 2) == Add(P, P)
    ensures AddDefined(P, P) && Add(P, P).Some? && AddDefined(Add(P, P).value, P)
            ==> Multiple(P, 3) == Add(Add(P, P).value, P)
  {
    assert Multiple(P, 1) == Some(P);
  }

  /** One more addition: the multiple k + 1 is the multiple k plus P. */
  lemma MultipleStep(P: Point, k: nat, R: Point)
    requires Multiple(P, k) == Some(R) && AddDefined(R, P)
    ensures Multiple(P, k + 1) == Add(R, P)
  {
  }

  /** A defined multiple k > 0 is the defined multiple k - 1 plus P. */
  lemma MultipleLast(P: Point, k: nat)
    requires k > 0 && Multiple(P, k).Some?
    ensures Multiple(P, k - 1).Some? && AddDefined(Multiple(P, k - 1).value, P)
    ensures Multiple(P, k) == Add(Multiple(P, k - 1).value, P)
  {
  }

  /** Once the multiple n is the point at infinity, the multiples repeat with period n. */
  lemma {:induction false} MultiplePeriodic(P: Point, n: nat, j: nat)
    requires Multiple(P, n) == Some(Inf(P.a, P.b))
    ensures Multiple(P, n + j) == Multiple(P, j)
    decreases j
  {
    if j > 0 {
      MultiplePeriodic(P, n, j - 1);
    }
  }

  /**
    If the multiple n > 0 is the point at infinity, every multiple is defined
    and equals the multiple of its residue modulo n.
  */
  lemma {:induction false} MultipleCycle(P: Point, n: nat, j: nat)
    requires n > 0 && Multiple(P, n) == Some(Inf(P.a, P.b))
    ensures Multiple(P, j) == Multiple(P, j % n) && Multiple(P, j).Some?
    decreases j
  {
    if j >= n {
      var i := j - n;
      MultipleCycle(P, n, i);
      MultiplePeriodic(P, n, i);
      assert i % n == j % n by {
        ModAddMultiple(i, 1, n);
        assert n * 1 + i == j;
      }
    } else {
      MultiplePrefix(P, j, n);
      assert j % n == j by {
        ModUnique(j, 0, j, n);
      }
    }
  }

  // ---------------------------------------------------------------------------
  // Negation, commutativity and totality

  /**
    `neg` modulo an odd p: a point on the curve has the negation (x, -y) on
    the curve, and negating twice gives the point back.
  */
  lemma NegLaws(P: Point, p: F.Modulus)
    requires p % 2 == 1 && OverField(P, p) && P.Fin? && OnCurve(P.x, P.y, P.a, P.b)
    ensures Neg(P) == Some(Fin(P.x, F.New(p, -P.y.value), P.a, P.b))
    ensures Neg(Neg(P).value) == Some(P)
  {
    NegReflects(P, p);
    F.SubRoundTrip(P.x, P.y, p);
    NegSquare(F.Neg(F.Neg(P.y)), F.Neg(P.y), p);
  }

  /** The negation of a finite point on the curve is its reflection (x, -y). */
  lemma NegReflects(P: Point, p: F.Modulus)
    requires OverField(P, p) && P.Fin? && OnCurve(P.x, P.y, P.a, P.b)
    ensures Neg(P) == Some(Fin(P.x, F.New(p, -P.y.value), P.a, P.b))
  {
    F.SubIsDifference(P.x, P.y, p);
    NegSquare(F.Neg(P.y), P.y, p);
  }

  /** Negation does not change the square: (-y)^2 = y^2. */
  lemma NegSquare(ny: F.FE, y: F.FE, p: F.Modulus)
    requires F.InField(y, p) && ny == F.Neg(y)
    ensures F.Pow(ny, 2) == F.Pow(y, 2)
  {
    F.SubIsDifference(y, y, p);
    var v := y.value;
    PowerMod(-v, 2, p);
    assert Power(-v, 2) == Power(v, 2);
  }

  /** P + (-P) is infinity: through the vertical branch, or the torsion branch when y = 0. */
  lemma AddNegIsInfinity(P: Point, p: F.Modulus)
    requires p % 2 == 1 && OverField(P, p) && P.Fin? && OnCurve(P.x, P.y, P.a, P.b)
    ensures Neg(P).Some? && AddDefined(P, Neg(P).value) && Add(P, Neg(P).value) == Some(Inf(P.a, P.b))
  {
    NegReflects(P, p);
    var Q := Fin(P.x, F.New(p, -P.y.value), P.a, P.b);
    ReflectionCase(P, Q, p);
    AddToInfinity(P, Q);
  }

  /** A point and its reflection meet the vertical branch, or the torsion branch when y = 0. */
  lemma ReflectionCase(P: Point, Q: Point, p: F.Modulus)
    requires p % 2 == 1 && OverField(P, p) && P.Fin? && Q == Fin(P.x, F.New(p, -P.y.value), P.a, P.b)
    ensures CaseOf(P, Q) == Vertical || CaseOf(P, Q) == Torsion
  {
    var y := P.y.value;
    if y != 0 {
      assert Q.y.value == p - y by {
        ModUnique(-y, -1, p - y, p);
      }
      assert p - y != y by {
        ModUnique(2 * y, y, 0, 2);
      }
      assert F.Eq(P.x, Q.x) && !F.Eq(P.y, Q.y);
    } else {
      assert Q == P;
    }
  }

  /** The vertical and torsion branches return the point at infinity of the curve. */
  lemma AddToInfinity(P: Point, Q: Point)
    requires CaseOf(P, Q) == Vertical || CaseOf(P, Q) == Torsion
    ensures AddDefined(P, Q) && Add(P, Q) == Some(Inf(P.a, P.b))
  {
  }

  /** Modulo a prime above 2 the doubling division is defined whenever y != 0. */
  lemma DoublingDefined(P: Point, p: F.Modulus)
    requires IsPrime(p) && p > 2 && OverField(P, p) && P.Fin? && P.y.value != 0
    ensures F.Divisible(F.Scale(P.y, 2))
  {
    OddPrime(p);
    TwiceNonzero(p, P.y.value);
    F.DivRoundTrip(P.y, F.Scale(P.y, 2), p);
  }

  lemma MulDifference(s: int, a: int, b: int, c: int)
    ensures s * (a - c) - s * (b - c) == s * (a - b)
  {
  }

  lemma NegCongruent(x: int, y: int, p: F.Modulus)
    requires x % p == y % p
    ensures (-x) % p == (-y) % p
  {
    ModSub(0, x, p);
    ModSub(0, y, p);
  }

  /** Reversing a chord: the same slope serves, and the third point has the same y. */
  lemma ChordSymmetric(p: F.Modulus, s: int, x1: int, y1: int, x2: int, y2: int, x3: int)
    requires (s * (x1 - x2)) % p == (y1 - y2) % p
    ensures (s * (x2 - x1)) % p == (y2 - y1) % p
    ensures (s * (x2 - x3) - y2) % p == (s * (x1 - x3) - y1) % p
  {
    var w, u, v := s * (x1 - x2), s * (x2 - x3), s * (x1 - x3);
    MulDifference(s, x1, x2, x3);
    assert v - u == w;
    MulDifference(s, x2, x1, x2);
    assert s * (x2 - x1) == -w;
    NegCongruent(w, y1 - y2, p);
    CongruentIffDifference(w, y1 - y2, p);
    NegCongruent(w - (y1 - y2), 0, p);
    assert (u - y2) - (v - y1) == -(w - (y1 - y2));
    CongruentIffDifference(u - y2, v - y1, p);
  }

  /** The slope the chord branch computes solves s * (x1 - x2) = y1 - y2. */
  lemma ChordSlopeSolves(P: Point, Q: Point, p: F.Modulus) returns (s: int)
    requires IsPrime(p) && OverField(P, p) && OverField(Q, p) && P.Fin? && Q.Fin? && P.x.value != Q.x.value
    ensures 0 <= s < p && (s * (P.x.value - Q.x.value)) % p == (P.y.value - Q.y.value) % p
  {
    var x1, y1, x2, y2 := P.x.value, P.y.value, Q.x.value, Q.y.value;
    F.SubIsDifference(P.x, Q.x, p);
    F.SubIsDifference(P.y, Q.y, p);
    var d, n := F.Sub(P.x, Q.x), F.Sub(P.y, Q.y);
    DistinctResidues(p, x1, x2);
    F.DivRoundTrip(n, d, p);
    s := F.Div(n, d).value;
    assert (s * d.value) % p == n.value;
    ModMulLeft(x1 - x2, s, p);
    assert s * d.value == d.value * s;
    assert s * (x1 - x2) == (x1 - x2) * s;
  }

  /** The chord through P and Q and the chord through Q and P, with one slope, give the same point. */
  lemma ChordWithSymmetric(P: Point, Q: Point, p: F.Modulus, s: int)
    requires OverField(P, p) && OverField(Q, p) && P.Fin? && Q.Fin? && P.a == Q.a && P.b == Q.b
    requires 0 <= s < p && (s * (P.x.value - Q.x.value)) % p == (P.y.value - Q.y.value) % p
    ensures (s * (Q.x.value - P.x.value)) % p == (Q.y.value - P.y.value) % p
    ensures ChordWith(P, Q, F.FE(p, s)) == ChordWith(Q, P, F.FE(p, s))
  {
    var x1, y1, x2, y2 := P.x.value, P.y.value, Q.x.value, Q.y.value;
    var X := F.New(p, s * s - x1 - x2);
    ChordOrdinateSymmetric(p, s, x1, y1, x2, y2, X.value);
    assert F.New(p, s * s - x2 - x1) == X by {
      assert s * s - x2 - x1 == s * s - x1 - x2;
    }
    var Y := F.New(p, s * (x2 - X.value) - y2);
    ChordPointIs(P, Q, p, s, X, Y);
    ChordPointIs(Q, P, p, s, X, Y);
  }

  /** ChordCoordinates with the two coordinates named. */
  lemma ChordPointIs(P: Point, Q: Point, p: F.Modulus, s: int, X: F.FE, Y: F.FE)
    requires OverField(P, p) && OverField(Q, p) && P.Fin? && Q.Fin? && 0 <= s < p
    requires X == F.New(p, s * s - P.x.value - Q.x.value)
    requires Y == F.New(p, s * (Q.x.value - X.value) - Q.y.value)
    ensures ChordWith(P, Q, F.FE(p, s)) == New(X, Y, P.a, P.b)
  {
    ChordAbscissa(s, P.x, Q.x, p);
    assert F.Sub(F.Sub(F.Pow(F.FE(p, s), 2), P.x), Q.x) == X;
    LineThrough(s, Q.x, Q.y, X, p);
  }

  /** Both chord formulas give the same ordinate for the third intersection x3. */
  lemma ChordOrdinateSymmetric(p: F.Modulus, s: int, x1: int, y1: int, x2: int, y2: int, x3: int)
    requires (s * (x1 - x2)) % p == (y1 - y2) % p
    ensures (s * (x2 - x1)) % p == (y2 - y1) % p
    ensures F.New(p, s * (x2 - x3) - y2) == F.New(p, s * (x1 - x3) - y1)
  {
    ChordSymmetric(p, s, x1, y1, x2, y2, x3);
    F.NewCongruent(p, s * (x2 - x3) - y2, s * (x1 - x3) - y1);
  }

  /** The chord branch gives the same point from either side. */
  lemma ChordCommutes(P: Point, Q: Point, p: F.Modulus)
    requires IsPrime(p) && OverField(P, p) && OverField(Q, p)
    requires CaseOf(P, Q) == Chord
    ensures AddDefined(P, Q) && AddDefined(Q, P) && Add(P, Q) == Add(Q, P)
  {
    assert P.a == Q.a && P.b == Q.b && P.x.value != Q.x.value;
    var s := ChordSlopeSolves(P, Q, p);
    ChordWithSymmetric(P, Q, p, s);
    ChordFormula(P, Q, p, s);
    ChordFormula(Q, P, p, s);
  }

  /**
    Modulo a prime above 2, `add` never panics on points over the field, and
    it is commutative: P + Q and Q + P are the same `Option`.
  */
  lemma AddCommutative(P: Point, Q: Point, p: F.Modulus)
    requires IsPrime(p) && p > 2 && OverField(P, p) && OverField(Q, p)
    ensures AddDefined(P, Q) && AddDefined(Q, P)
    ensures Add(P, Q) == Add(Q, P)
  {
    var c := CaseOf(P, Q);
    if c == Chord {
      ChordCommutes(P, Q, p);
    } else if c == Doubling || c == Torsion {
      assert P == Q;
      if c == Doubling {
        DoublingDefined(P, p);
      }
    } else if c == Vertical {
      assert CaseOf(Q, P) == Vertical;
    } else if c == LeftIdentity && Q.Inf? {
      assert P == Q;
    }
  }
}
