/**
  The elliptic-curve Diffie-Hellman agreement `Agreement`
  (src/agreement.rs; the test module of src/point_eliptic_curve.rs holds a
  copy with the same code): `new` finds the order of the generator and
  counts the affine points of the curve by exhaustive search, and the keys
  are scalar multiples.

  The structure is never changed after `new`, so it is a value. The two
  searches of `new` are specified by the functions OrderSearch and
  CurvePointCount; NewAgreement runs the loops and is proved to compute them.
*/
module KeyAgreement {
  import opened Wrappers
  import F = Field
  import opened Curve

  /** The fields of `Agreement`, as `new` sets them. */
  datatype Agreement = Agreement(p: int, a: F.FE, b: F.FE, g: Point, orderG: nat, countPoints: nat)

  // ---------------------------------------------------------------------------
  // The order of the generator

  /** g * k is defined and is the point at infinity of (a, b), compared with `==`. */
  predicate Hits(a: F.FE, b: F.FE, g: Point, k: nat)
  {
    Multiple(g, k).Some? && PEq(Multiple(g, k).value, NewInf(a, b))
  }

  /** Every g * k with lo <= k < hi is defined and is not the point at infinity of (a, b). */
  predicate Misses(a: F.FE, b: F.FE, g: Point, lo: nat, hi: int)
  {
    forall k :: lo <= k < hi ==> Multiple(g, k).Some? && !PEq(Multiple(g, k).value, NewInf(a, b))
  }

  /**
    The search loop of `new` from k: the first k < p with g * k equal to
    `new_inf(a, b)`, 0 when there is none, `None` when some g * k panics first.
  */
  function OrderSearch(a: F.FE, b: F.FE, g: Point, p: int, k: nat): (r: Option<nat>)
    ensures r.Some? && r.value != 0 ==> k <= r.value < p
    decreases p - k
  {
    if k >= p then Some(0)
    else match Multiple(g, k)
      case None => None
      case Some(R) => if PEq(R, NewInf(a, b)) then Some(k) else OrderSearch(a, b, g, p, k + 1)
  }

  /** One step of the search, spelled out: g * k must not panic, then it hits or the search goes on. */
  lemma OrderSearchStep(a: F.FE, b: F.FE, g: Point, p: int, k: nat)
    requires k < p && OrderSearch(a, b, g, p, k).Some?
    ensures Multiple(g, k).Some?
    ensures PEq(Multiple(g, k).value, NewInf(a, b)) ==> OrderSearch(a, b, g, p, k) == Some(k)
    ensures !PEq(Multiple(g, k).value, NewInf(a, b)) ==> OrderSearch(a, b, g, p, k) == OrderSearch(a, b, g, p, k + 1)
  {
  }

  /** The answer n of the search from k: the least hit in [k, p), or 0 when every step in [k, p) misses. */
  predicate SearchResult(a: F.FE, b: F.FE, g: Point, p: int, k: nat, n: nat)
  {
    (n == 0 && Misses(a, b, g, k, p)) || (k <= n < p && Hits(a, b, g, n) && Misses(a, b, g, k, n))
  }

  /** Misses over [k, hi) is the miss at k together with misses over [k + 1, hi). */
  lemma MissesSplit(a: F.FE, b: F.FE, g: Point, k: nat, hi: int)
    requires k < hi
    ensures Misses(a, b, g, k, hi) <==>
      Multiple(g, k).Some? && !PEq(Multiple(g, k).value, NewInf(a, b)) && Misses(a, b, g, k + 1, hi)
  {
    if Multiple(g, k).Some? && !PEq(Multiple(g, k).value, NewInf(a, b)) && Misses(a, b, g, k + 1, hi) {
      forall j | k <= j < hi
        ensures Multiple(g, j).Some? && !PEq(Multiple(g, j).value, NewInf(a, b))
      {
        if j > k {
          assert k + 1 <= j < hi;
        }
      }
    }
  }

  /** What the search from k >= 1 answers is the least hit in [k, p), or 0 with no hit. */
  lemma {:induction false} OrderSearchSound(a: F.FE, b: F.FE, g: Point, p: int, k: nat, n: nat)
    requires k >= 1 && OrderSearch(a, b, g, p, k) == Some(n)
    ensures SearchResult(a, b, g, p, k, n)
    decreases p - k
  {
    if k >= p {
      assert Misses(a, b, g, k, p);
    } else {
      var R := Multiple(g, k).value;
      if PEq(R, NewInf(a, b)) {
        assert n == k && Misses(a, b, g, k, n);
      } else {
        OrderSearchSound(a, b, g, p, k + 1, n);
        MissesSplit(a, b, g, k, p);
        if n > k {
          MissesSplit(a, b, g, k, n);
        }
      }
    }
  }

  /** The least hit in [k, p), or 0 with no hit, is what the search from k >= 1 answers. */
  lemma {:induction false} OrderSearchComplete(a: F.FE, b: F.FE, g: Point, p: int, k: nat, n: nat)
    requires k >= 1 && SearchResult(a, b, g, p, k, n)
    ensures OrderSearch(a, b, g, p, k) == Some(n)
    decreases p - k
  {
    if k < p {
      if n == k {
        assert Hits(a, b, g, k);
      } else {
        MissesSplit(a, b, g, k, if n == 0 then p else n);
        OrderSearchComplete(a, b, g, p, k + 1, n);
      }
    }
  }

  /** The search from k >= 1 answers n exactly when n is the least hit in [k, p), or 0 with no hit. */
  lemma OrderSearchSpec(a: F.FE, b: F.FE, g: Point, p: int, k: nat, n: nat)
    requires k >= 1
    ensures OrderSearch(a, b, g, p, k) == Some(n) <==> SearchResult(a, b, g, p, k, n)
  {
    if OrderSearch(a, b, g, p, k) == Some(n) {
      OrderSearchSound(a, b, g, p, k, n);
    }
    if SearchResult(a, b, g, p, k, n) {
      OrderSearchComplete(a, b, g, p, k, n);
    }
  }

  // ---------------------------------------------------------------------------
  // The number of affine points

  /** A test on the pairs (x, y) the counting loops visit. */
  type PairTest = (int, int) -> bool

  /** The test of the counting loop: x^3 + a * x + b against y^2, with x and y reduced modulo p. */
  predicate Counted(p: F.Modulus, a: F.FE, b: F.FE, x: int, y: int)
  {
    var X, Y := F.New(p, x), F.New(p, y);
    F.Eq(F.Add(F.Add(F.Pow(X, 3), F.Mul(a, X)), b), F.Pow(Y, 2))
  }

  /** The test is the one of `new`: (x, y) is counted exactly when `new` accepts it. */
  lemma CountedIffNew(p: F.Modulus, a: F.FE, b: F.FE, x: int, y: int)
    ensures Counted(p, a, b, x, y) <==> New(F.New(p, x), F.New(p, y), a, b).Some?
  {
  }

  /** The test of the counting loops for the curve (a, b) modulo p, as a function of x and y. */
  function CountTest(p: F.Modulus, a: F.FE, b: F.FE): PairTest
  {
    (x: int, y: int) => Counted(p, a, b, x, y)
  }

  /** The inner loop after n steps: the number of y in [0, n) that pass the test with x. */
  function RowCount(test: PairTest, x: int, n: nat): nat
  {
    if n == 0 then 0 else RowCount(test, x, n - 1) + (if test(x, n - 1) then 1 else 0)
  }

  /** The outer loop after n steps: the rows x in [0, n), each over y in [0, p). */
  function PointCount(test: PairTest, p: nat, n: nat): nat
  {
    if n == 0 then 0 else PointCount(test, p, n - 1) + RowCount(test, n - 1, p)
  }

  /** `cuantity_points_curve` as `new` leaves it: the loops do not run when p <= 0. */
  function CurvePointCount(p: int, a: F.FE, b: F.FE): nat
  {
    if p <= 0 then 0 else PointCount(CountTest(p, a, b), p, p)
  }

  /** The pairs of row x with y < n that pass the test. */
  function RowPairs(test: PairTest, x: int, n: nat): set<(int, int)>
  {
    set y | 0 <= y < n && test(x, y) :: (x, y)
  }

  /** The pairs with x < n and y < p that pass the test. */
  function Pairs(test: PairTest, p: nat, n: nat): set<(int, int)>
  {
    set x, y | 0 <= x < n && 0 <= y < p && test(x, y) :: (x, y)
  }

  /** The pairs (x, y) in [0, p) x [0, p) that `new` accepts as points of y^2 = x^3 + a * x + b. */
  function Accepted(p: F.Modulus, a: F.FE, b: F.FE): set<(int, int)>
  {
    set x, y | 0 <= x < p && 0 <= y < p && New(F.New(p, x), F.New(p, y), a, b).Some? :: (x, y)
  }

  /** The inner loop counts the pairs of its row that pass the test. */
  lemma {:induction false} RowCountIsSize(test: PairTest, x: int, n: nat)
    ensures RowCount(test, x, n) == |RowPairs(test, x, n)|
  {
    if n > 0 {
      RowCountIsSize(test, x, n - 1);
      var before, after := RowPairs(test, x, n - 1), RowPairs(test, x, n);
      assert (x, n - 1) !in before;
      if test(x, n - 1) {
        assert after == before + {(x, n - 1)};
      } else {
        assert after == before;
      }
    }
  }

  /** The pairs of the first n rows are those of the first n - 1 rows and, apart from them, row n - 1. */
  lemma PairsSplit(test: PairTest, p: nat, n: nat)
    requires n > 0
    ensures Pairs(test, p, n) == Pairs(test, p, n - 1) + RowPairs(test, n - 1, p)
    ensures Pairs(test, p, n - 1) * RowPairs(test, n - 1, p) == {}
  {
    var before, row := Pairs(test, p, n - 1), RowPairs(test, n - 1, p);
    forall q | q in Pairs(test, p, n)
      ensures q in before + row
    {
      if q.0 < n - 1 {
        assert q in before;
      } else {
        assert q in row;
      }
    }
    forall q | q in row
      ensures q !in before
    {
      assert q.0 == n - 1;
    }
  }

  /** The outer loop counts the pairs of its rows that pass the test. */
  lemma {:induction false} PointCountIsSize(test: PairTest, p: nat, n: nat)
    ensures PointCount(test, p, n) == |Pairs(test, p, n)|
  {
    if n > 0 {
      PointCountIsSize(test, p, n - 1);
      RowCountIsSize(test, n - 1, p);
      PairsSplit(test, p, n);
      assert |Pairs(test, p, n)| == |Pairs(test, p, n - 1)| + |RowPairs(test, n - 1, p)|;
    } else {
      assert Pairs(test, p, n) == {};
    }
  }

  /** `cuantity_points_curve` is the number of pairs in [0, p) x [0, p) that `new` accepts. */
  lemma CurvePointCountIsAccepted(p: F.Modulus, a: F.FE, b: F.FE)
    ensures CurvePointCount(p, a, b) == |Accepted(p, a, b)|
  {
    var test := CountTest(p, a, b);
    PointCountIsSize(test, p, p);
    forall x, y | 0 <= x < p && 0 <= y < p
      ensures test(x, y) <==> New(F.New(p, x), F.New(p, y), a, b).Some?
    {
      CountedIffNew(p, a, b, x, y);
    }
    assert Pairs(test, p, p) == Accepted(p, a, b);
  }

  // ---------------------------------------------------------------------------
  // `new` and the getters

  /** The agreement `new(p, a, b, g)` builds, when its search does not panic. */
  function Setup(p: int, a: F.FE, b: F.FE, g: Point): Agreement
    requires OrderSearch(a, b, g, p, 1).Some?
  {
    Agreement(p, a, b, g, OrderSearch(a, b, g, p, 1).value, CurvePointCount(p, a, b))
  }

  /** The search loop of `new`: k = 1, 2, ... below p, breaking at the first g * k equal to infinity. */
  method FindOrder(a: F.FE, b: F.FE, g: Point, p: int) returns (orderG: nat)
    requires OrderSearch(a, b, g, p, 1).Some?
    ensures OrderSearch(a, b, g, p, 1) == Some(orderG)
  {
    orderG := 0;
    var k := 1;
    while k < p
      invariant 1 <= k && orderG == 0
      invariant OrderSearch(a, b, g, p, k) == OrderSearch(a, b, g, p, 1)
      decreases p - k
    {
      OrderSearchStep(a, b, g, p, k);
      var res := ScalarMul(g, k);
      if PEq(res, NewInf(a, b)) {
        orderG := k;
        break;
      }
      k := k + 1;
    }
  }

  /** The counting loops of `new`: every x and y in [0, p), comparing x^3 + a * x + b with y^2. */
  method CountPoints(p: int, a: F.FE, b: F.FE) returns (count: nat)
    ensures count == CurvePointCount(p, a, b)
  {
    count := 0;
    var x := 0;
    while x < p
      invariant 0 <= x && (p > 0 ==> x <= p && count == PointCount(CountTest(p, a, b), p, x))
      invariant p <= 0 ==> x == 0 && count == 0
    {
      var xVal := F.New(p, x);
      var ySquared := F.Add(F.Add(F.Pow(xVal, 3), F.Mul(a, xVal)), b);
      var y := 0;
      while y < p
        invariant 0 <= y <= p
        invariant count == PointCount(CountTest(p, a, b), p, x) + RowCount(CountTest(p, a, b), x, y)
      {
        var yVal := F.New(p, y);
        if F.Eq(ySquared, F.Pow(yVal, 2)) {
          count := count + 1;
        }
        y := y + 1;
      }
      x := x + 1;
    }
  }

  /** `Agreement::new(p, a, b, g)`. */
  method NewAgreement(p: int, a: F.FE, b: F.FE, g: Point) returns (ag: Agreement)
    requires OrderSearch(a, b, g, p, 1).Some?
    ensures ag == Setup(p, a, b, g)
  {
    var orderG := FindOrder(a, b, g, p);
    var count := CountPoints(p, a, b);
    ag := Agreement(p, a, b, g, orderG, count);
  }

  /** `order_g()`: the stored order. */
  function OrderG(ag: Agreement): nat
  {
    ag.orderG
  }

  /** `quantity_points_curve()`: the stored count plus the point at infinity. */
  function QuantityPointsCurve(ag: Agreement): nat
  {
    ag.countPoints + 1
  }

  /**
    What `new` establishes: the order is the least n in [1, p) with g * n
    equal to infinity, or 0 with every multiple in [1, p) finite; the
    quantity of points is one more than the pairs `new` accepts.
  */
  lemma AgreementFacts(p: int, a: F.FE, b: F.FE, g: Point)
    requires OrderSearch(a, b, g, p, 1).Some?
    ensures SearchResult(a, b, g, p, 1, OrderG(Setup(p, a, b, g)))
    ensures p > 0 ==> QuantityPointsCurve(Setup(p, a, b, g)) == |Accepted(p, a, b)| + 1
    ensures p <= 0 ==> QuantityPointsCurve(Setup(p, a, b, g)) == 1
  {
    OrderSearchSpec(a, b, g, p, 1, OrderSearch(a, b, g, p, 1).value);
    if p > 0 {
      CurvePointCountIsAccepted(p, a, b);
    }
  }

  // ---------------------------------------------------------------------------
  // Keys

  /** `generate_public_key(k)`: g * k, `None` where `Mul<usize>` panics. */
  function GeneratePublicKey(ag: Agreement, privateKey: nat): (r: Option<Point>)
    ensures r.Some? ==> r.value.a == ag.g.a && r.value.b == ag.g.b
  {
    Multiple(ag.g, privateKey)
  }

  /** `generate_shared_secret(public_key, k)`: public_key * k; the agreement's own g plays no part. */
  function GenerateSharedSecret(ag: Agreement, publicKey: Point, privateKey: nat): (r: Option<Point>)
    ensures r.Some? ==> r.value.a == publicKey.a && r.value.b == publicKey.b
  {
    Multiple(publicKey, privateKey)
  }

  /**
    With a and b those of g (by value), a private key in [1, order_g) gives a
    public key that is a finite point of g's curve: the search found none of
    these multiples to be infinity.
  */
  lemma PublicKeyFinite(p: int, a: F.FE, b: F.FE, g: Point, k: nat)
    requires F.Eq(a, g.a) && F.Eq(b, g.b) && OrderSearch(a, b, g, p, 1).Some?
    requires 1 <= k < OrderG(Setup(p, a, b, g))
    ensures GeneratePublicKey(Setup(p, a, b, g), k).Some?
    ensures GeneratePublicKey(Setup(p, a, b, g), k).value.Fin?
    ensures GeneratePublicKey(Setup(p, a, b, g), k).value.a == g.a
  {
    AgreementFacts(p, a, b, g);
  }

  /**
    With a and b those of g and a nonzero order n, private keys act modulo n:
    k and k % n give the same public key, and every public key is defined.
  */
  lemma PublicKeyModOrder(p: int, a: F.FE, b: F.FE, g: Point, k: nat)
    requires F.Eq(a, g.a) && F.Eq(b, g.b) && OrderSearch(a, b, g, p, 1).Some?
    requires OrderG(Setup(p, a, b, g)) > 0
    ensures GeneratePublicKey(Setup(p, a, b, g), k).Some?
    ensures GeneratePublicKey(Setup(p, a, b, g), k) == GeneratePublicKey(Setup(p, a, b, g), k % OrderG(Setup(p, a, b, g)))
  {
    var n := OrderG(Setup(p, a, b, g));
    AgreementFacts(p, a, b, g);
    assert Multiple(g, n) == Some(Inf(g.a, g.b));
    MultipleCycle(g, n, k);
  }

  /** The shared secret depends on the public key and the private key only, not on the agreement. */
  lemma SharedSecretIgnoresGenerator(ag1: Agreement, ag2: Agreement, publicKey: Point, privateKey: nat)
    ensures GenerateSharedSecret(ag1, publicKey, privateKey) == GenerateSharedSecret(ag2, publicKey, privateKey)
  {
  }

  /**
    The group law on the multiples of g, as far as scalar multiplication needs
    it: the sum of g * i and g * j is g * (i + j). This follows from the
    associativity of the chord-and-tangent law, which is not part of this model.
  */
  ghost predicate MultiplesAdd(g: Point)
  {
    forall i: nat, j: nat :: Multiple(g, i).Some? && Multiple(g, j).Some? ==>
      AddDefined(Multiple(g, i).value, Multiple(g, j).value)
      && Add(Multiple(g, i).value, Multiple(g, j).value) == Multiple(g, i + j)
  }

  /** i * j, a natural number. */
  function Product(i: nat, j: nat): nat
  {
    i * j
  }

  lemma ProductStep(i: nat, j: nat)
    requires j > 0
    ensures Product(i, j - 1) + i == Product(i, j)
  {
  }

  /** Given the group law on the multiples of g, (g * i) * j is g * (i * j). */
  lemma {:induction false} MultipleOfMultiple(g: Point, i: nat, j: nat)
    requires MultiplesAdd(g) && Multiple(g, i).Some?
    ensures Multiple(Multiple(g, i).value, j) == Multiple(g, Product(i, j))
  {
    var P := Multiple(g, i).value;
    if j == 0 {
      assert Product(i, j) == 0;
    } else {
      MultipleOfMultiple(g, i, j - 1);
      var before, after := Product(i, j - 1), Product(i, j);
      ProductStep(i, j);
      var previous := Multiple(g, before);
      assert Multiple(P, j - 1) == previous;
      if previous.None? {
        assert Multiple(P, j) == None;
        if Multiple(g, after).Some? {
          MultiplePrefix(g, before, after);
        }
      } else {
        var R := previous.value;
        assert AddDefined(R, P) && Add(R, P) == Multiple(g, before + i);
        assert Multiple(P, j) == Add(R, P);
      }
    }
  }

  /**
    Diffie-Hellman, given the group law on the multiples of g: Alice's secret
    (Bob's public key times her private key) is Bob's (Alice's public key times
    his private key); both are g * (ka * kb).
  */
  lemma SharedSecretsAgree(ag: Agreement, ka: nat, kb: nat)
    requires MultiplesAdd(ag.g)
    requires GeneratePublicKey(ag, ka).Some? && GeneratePublicKey(ag, kb).Some?
    ensures GenerateSharedSecret(ag, GeneratePublicKey(ag, kb).value, ka)
         == GenerateSharedSecret(ag, GeneratePublicKey(ag, ka).value, kb)
    ensures GenerateSharedSecret(ag, GeneratePublicKey(ag, kb).value, ka) == Multiple(ag.g, Product(ka, kb))
  {
    MultipleOfMultiple(ag.g, kb, ka);
    MultipleOfMultiple(ag.g, ka, kb);
    assert Product(kb, ka) == Product(ka, kb);
  }
}
