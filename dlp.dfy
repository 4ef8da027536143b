/**
  The discrete-logarithm solvers of `AlgorithmsDLP`
  (src/elliptic_curve/discrete_logarithm_problem.rs; the test module of
  src/point_eliptic_curve.rs repeats `bsgs` and the exhaustive loop):
  exhaustive search for the least k with G * k == K, and baby-step/giant-step.

  The baby-step `HashMap` is a `map<Point, int>`: a lookup finds a key
  structurally equal to the point, which on points over one field is the
  points' `==` (Curve.EqualityLaws). The `giant_steps` map is written and
  never read; the method keeps it as a local that nothing looks at.
*/
module Dlp {
  import opened Wrappers
  import F = Field
  import opened Curve

  // ---------------------------------------------------------------------------
  // The block size m = ceil(sqrt(p))

  /** The least m >= 0 with m * m >= n (0 for n <= 0, where the float square root gives 0 or NaN). */
  function CeilSqrt(n: int): (m: nat)
    ensures m * m >= n
    ensures m == 0 || (m - 1) * (m - 1) < n
  {
    CeilSqrtFrom(n, 0)
  }

  function CeilSqrtFrom(n: int, m: nat): (r: nat)
    requires m == 0 || (m - 1) * (m - 1) < n
    ensures r * r >= n && (r == 0 || (r - 1) * (r - 1) < n)
    decreases n - m * m
  {
    if m * m >= n then m else CeilSqrtFrom(n, m + 1)
  }

  lemma SquareMonotone(u: nat, v: nat)
    requires u <= v
    ensures u * u <= v * v
  {
    assert u * u <= u * v;
  }

  /** No smaller m has m * m >= n: the block size is the integer ceiling of the square root. */
  lemma CeilSqrtLeast(n: int, m: nat)
    requires m * m >= n
    ensures CeilSqrt(n) <= m
  {
    var c := CeilSqrt(n);
    if m < c {
      SquareMonotone(m, c - 1);
    }
  }

  // ---------------------------------------------------------------------------
  // Baby steps

  /** The loop of n baby steps computes G * j for every j < n, which must not panic. */
  predicate BabyStepsDefined(G: Point, n: nat)
  {
    forall j :: 0 <= j < n ==> Multiple(G, j).Some?
  }

  /** The key that iteration j inserts: `new_inf(a, b)` first, then G * (j - 1). */
  function BabyKey(a: F.FE, b: F.FE, G: Point, j: nat): Point
    requires j == 0 || Multiple(G, j - 1).Some?
  {
    if j == 0 then NewInf(a, b) else Multiple(G, j - 1).value
  }

  /** A source of table keys: key j, defined on the indices its `requires` admits. */
  type KeySource = nat --> Point

  /** A sequence of giant steps: the point of step i, `None` where computing it panics. */
  type GiantStepSource = nat -> Option<Point>

  /** The key function is defined on every index below n. */
  ghost predicate KeysDefined(key: KeySource, n: nat)
  {
    forall j :: 0 <= j < n ==> key.requires(j)
  }

  /** The first n values of a key function, in order. */
  function Keys(key: KeySource, n: nat): (keys: seq<Point>)
    requires KeysDefined(key, n)
    ensures |keys| == n
  {
    if n == 0 then [] else Keys(key, n - 1) + [key(n - 1)]
  }

  /** Position j of the key sequence holds the key function's value at j. */
  lemma {:induction false} KeysAt(key: KeySource, n: nat, j: nat)
    requires KeysDefined(key, n) && j < n
    ensures Keys(key, n)[j] == key(j)
  {
    if j < n - 1 {
      KeysAt(key, n - 1, j);
    }
  }

  /** The key of each iteration, as a function of the iteration. */
  function BabyKeyOf(a: F.FE, b: F.FE, G: Point): KeySource
  {
    (j: nat) requires j == 0 || Multiple(G, j - 1).Some? => BabyKey(a, b, G, j)
  }

  /** The keys of the first n iterations, in insertion order. */
  function BabyKeys(a: F.FE, b: F.FE, G: Point, n: nat): (keys: seq<Point>)
    requires BabyStepsDefined(G, n)
    ensures |keys| == n
  {
    assert KeysDefined(BabyKeyOf(a, b, G), n);
    Keys(BabyKeyOf(a, b, G), n)
  }

  /** Position j of the key sequence is the key of iteration j. */
  lemma BabyKeysAt(a: F.FE, b: F.FE, G: Point, n: nat, j: nat)
    requires BabyStepsDefined(G, n) && j < n
    ensures BabyKeys(a, b, G, n)[j] == BabyKey(a, b, G, j)
  {
    KeysAt(BabyKeyOf(a, b, G), n, j);
  }

  /** Inserting keys[j] := j for j = 0, 1, ... into an empty map: a later insertion overwrites. */
  function IndexTable(keys: seq<Point>): map<Point, int>
  {
    if |keys| == 0 then map[] else IndexTable(keys[..|keys| - 1])[keys[|keys| - 1] := |keys| - 1]
  }

  /** Every key is in the table. */
  lemma {:induction false} IndexTableKeys(keys: seq<Point>, j: int)
    requires 0 <= j < |keys|
    ensures keys[j] in IndexTable(keys)
  {
    var n := |keys|;
    if j < n - 1 {
      IndexTableKeys(keys[..n - 1], j);
    }
  }

  /** A key maps to the LAST index that holds it. */
  lemma {:induction false} IndexTableLast(keys: seq<Point>, P: Point)
    requires P in IndexTable(keys)
    ensures var i := IndexTable(keys)[P];
      0 <= i < |keys| && keys[i] == P && forall j :: i < j < |keys| ==> keys[j] != P
  {
    var n := |keys|;
    var init := keys[..n - 1];
    if P != keys[n - 1] {
      IndexTableLast(init, P);
      var i := IndexTable(init)[P];
      assert IndexTable(keys)[P] == i;
      forall j | i < j < n
        ensures keys[j] != P
      {
        if j < n - 1 {
          assert init[j] == keys[j];
        }
      }
    }
  }

  /** Below m, iteration j + 1 is defined and its key is G * j. */
  lemma BabyStepNext(a: F.FE, b: F.FE, G: Point, m: nat, j: nat)
    requires BabyStepsDefined(G, m) && j < m
    ensures BabyStepsDefined(G, j + 1) && Multiple(G, j).Some?
    ensures BabyKey(a, b, G, j + 1) == Multiple(G, j).value
  {
  }

  /** The table after n iterations: iteration j maps its key to j, overwriting an earlier entry. */
  function BabyTable(a: F.FE, b: F.FE, G: Point, n: nat): map<Point, int>
    requires BabyStepsDefined(G, n)
  {
    IndexTable(BabyKeys(a, b, G, n))
  }

  /** Iteration n inserts its key with value n into the table of the first n iterations. */
  lemma BabyTableStep(a: F.FE, b: F.FE, G: Point, n: nat)
    requires BabyStepsDefined(G, n + 1)
    ensures BabyTable(a, b, G, n + 1) == BabyTable(a, b, G, n)[BabyKey(a, b, G, n) := n]
  {
    var keys, init, key := BabyKeys(a, b, G, n + 1), BabyKeys(a, b, G, n), BabyKey(a, b, G, n);
    assert keys == init + [key];
    assert keys[..n] == init;
    assert keys[n] == key;
    assert IndexTable(keys) == IndexTable(init)[key := n];
  }

  /** Every key of the first n iterations is in the table. */
  lemma BabyTableKeys(a: F.FE, b: F.FE, G: Point, n: nat, j: nat)
    requires BabyStepsDefined(G, n) && j < n
    ensures BabyKey(a, b, G, j) in BabyTable(a, b, G, n)
  {
    IndexTableKeys(BabyKeys(a, b, G, n), j);
    BabyKeysAt(a, b, G, n, j);
  }

  /** A key maps to the LAST iteration below n that inserted it. */
  lemma BabyTableLast(a: F.FE, b: F.FE, G: Point, n: nat, P: Point)
    requires BabyStepsDefined(G, n) && P in BabyTable(a, b, G, n)
    ensures var i := BabyTable(a, b, G, n)[P];
      0 <= i < n && BabyKey(a, b, G, i) == P && forall j :: i < j < n ==> BabyKey(a, b, G, j) != P
  {
    var keys := BabyKeys(a, b, G, n);
    IndexTableLast(keys, P);
    var i := IndexTable(keys)[P];
    BabyKeysAt(a, b, G, n, i);
    forall j | i < j < n
      ensures BabyKey(a, b, G, j) != P
    {
      BabyKeysAt(a, b, G, n, j);
    }
  }

  /** The key of iteration i < n is in the table, mapped to i or to a later iteration. */
  lemma BabyTableAtLeast(a: F.FE, b: F.FE, G: Point, n: nat, i: nat)
    requires BabyStepsDefined(G, n) && i < n
    ensures BabyKey(a, b, G, i) in BabyTable(a, b, G, n)
    ensures BabyTable(a, b, G, n)[BabyKey(a, b, G, i)] >= i
  {
    BabyTableKeys(a, b, G, n, i);
    BabyTableLast(a, b, G, n, BabyKey(a, b, G, i));
  }

  /**
    With a and b those of G and n >= 2 iterations, every multiple j * G with
    0 <= j <= n - 2 is a key, mapped to at least j + 1.
  */
  lemma BabyTableHas(G: Point, n: nat, j: nat)
    requires n >= 2 && BabyStepsDefined(G, n) && j <= n - 2
    ensures Multiple(G, j).value in BabyTable(G.a, G.b, G, n)
    ensures BabyTable(G.a, G.b, G, n)[Multiple(G, j).value] >= j + 1
  {
    BabyStepNext(G.a, G.b, G, n, j);
    BabyTableAtLeast(G.a, G.b, G, n, j + 1);
  }

  /**
    With a and b those of G and n >= 2 iterations, a key P maps to j + 1 where
    j <= n - 2 is the LARGEST index with j * G == P (infinity, inserted with 0
    first, is inserted again with 1).
  */
  lemma BabyTableHit(G: Point, n: nat, P: Point)
    requires n >= 2 && BabyStepsDefined(G, n) && P in BabyTable(G.a, G.b, G, n)
    ensures var i := BabyTable(G.a, G.b, G, n)[P];
      1 <= i <= n - 1 && Multiple(G, i - 1) == Some(P)
      && forall j :: i - 1 < j <= n - 2 ==> Multiple(G, j) != Some(P)
  {
    var T := BabyTable(G.a, G.b, G, n);
    BabyTableLast(G.a, G.b, G, n, P);
    var i := T[P];
    assert BabyKey(G.a, G.b, G, 0) == BabyKey(G.a, G.b, G, 1);
    forall j | i - 1 < j <= n - 2
      ensures Multiple(G, j) != Some(P)
    {
      assert BabyKey(G.a, G.b, G, j + 1) == Multiple(G, j).value;
    }
  }

  // ---------------------------------------------------------------------------
  // Giant steps

  /** Giant step i: K + (-(G * (i * m))), or `None` where one of its `unwrap`s panics. */
  function GiantStep(G: Point, K: Point, m: nat, i: nat): Option<Point>
  {
    match Multiple(G, i * m)
    case None => None
    case Some(Q) =>
      match Neg(Q)
      case None => None
      case Some(N) => if AddDefined(K, N) then Add(K, N) else None
  }

  /** The giant steps of K against G with block size m, as a function of the step index. */
  function GiantStepsOf(G: Point, K: Point, m: nat): GiantStepSource
  {
    (i: nat) => GiantStep(G, K, m, i)
  }

  /** Step i has a point, and the point is not a key of the table. */
  predicate Miss(steps: GiantStepSource, table: map<Point, int>, i: nat)
  {
    steps(i).Some? && steps(i).value !in table
  }

  /**
    The giant-step loop from step i: at the first step whose point is a key,
    i * m + table[point] - 1; 0 when no step below m hits; `None` where a
    step panics.
  */
  function GiantSearch(steps: GiantStepSource, m: nat, table: map<Point, int>, i: nat): Option<int>
    decreases m - i
  {
    if i >= m then Some(0)
    else match steps(i)
      case None => None
      case Some(R) => if R in table then Some(i * m + table[R] - 1) else GiantSearch(steps, m, table, i + 1)
  }

  /** One iteration of the giant-step loop: the step must not panic, then it hits or the loop goes on. */
  lemma GiantSearchStep(steps: GiantStepSource, m: nat, table: map<Point, int>, i: nat)
    requires i < m && GiantSearch(steps, m, table, i).Some?
    ensures steps(i).Some?
    ensures GiantSearch(steps, m, table, i)
      == if steps(i).value in table then Some(i * m + table[steps(i).value] - 1) else GiantSearch(steps, m, table, i + 1)
  {
  }

  /**
    What the giant-step loop returns: 0 after m misses, or the value at the
    first hit, all earlier steps having missed.
  */
  lemma {:induction false} GiantSearchOutcome(steps: GiantStepSource, m: nat, table: map<Point, int>, i: nat, k: int)
    requires GiantSearch(steps, m, table, i) == Some(k)
    ensures (k == 0 && forall h :: i <= h < m ==> Miss(steps, table, h))
         || exists h :: i <= h < m && steps(h).Some? && steps(h).value in table
              && k == h * m + table[steps(h).value] - 1
              && forall e :: i <= e < h ==> Miss(steps, table, e)
    decreases m - i
  {
    if i < m && Miss(steps, table, i) {
      GiantSearchOutcome(steps, m, table, i + 1, k);
    }
  }

  // ---------------------------------------------------------------------------
  // The two solvers

  /** The state of the baby-step loop after j iterations: the table so far and the key to insert next. */
  predicate BabyLoop(a: F.FE, b: F.FE, G: Point, j: nat, table: map<Point, int>, key: Point)
  {
    BabyStepsDefined(G, j) && table == BabyTable(a, b, G, j) && key == BabyKey(a, b, G, j)
  }

  /** The baby-step loop of `bsgs`: m insertions into an empty table, starting from `new_inf(a, b)`. */
  method BabySteps(a: F.FE, b: F.FE, G: Point, m: nat) returns (babySteps: map<Point, int>)
    requires BabyStepsDefined(G, m)
    ensures babySteps == BabyTable(a, b, G, m)
  {
    babySteps := map[];
    var res := NewInf(a, b);
    for j := 0 to m
      invariant BabyLoop(a, b, G, j, babySteps, res)
    {
      babySteps, res := BabyStep(a, b, G, m, j, babySteps, res);
    }
  }

  /** Iteration j of the baby-step loop: insert the current key with value j, then compute G * j. */
  method BabyStep(a: F.FE, b: F.FE, G: Point, m: nat, j: nat, table: map<Point, int>, key: Point)
    returns (nextTable: map<Point, int>, nextKey: Point)
    requires BabyStepsDefined(G, m) && j < m && BabyLoop(a, b, G, j, table, key)
    ensures BabyLoop(a, b, G, j + 1, nextTable, nextKey)
  {
    BabyStepNext(a, b, G, m, j);
    BabyTableStep(a, b, G, j);
    nextTable := table[key := j];
    nextKey := ScalarMul(G, j);
  }

  /** A giant step that does not panic: the multiple, its negation and the sum are all defined. */
  lemma GiantStepDefined(G: Point, K: Point, m: nat, i: nat)
    requires GiantStep(G, K, m, i).Some?
    ensures Multiple(G, i * m).Some? && Neg(Multiple(G, i * m).value).Some?
    ensures AddDefined(K, Neg(Multiple(G, i * m).value).value)
    ensures GiantStep(G, K, m, i) == Add(K, Neg(Multiple(G, i * m).value).value)
  {
  }

  /** One giant step of the loop: K + (-(G * (i * m))). */
  method GiantStepAt(G: Point, K: Point, m: nat, i: nat) returns (r: Point)
    requires GiantStep(G, K, m, i).Some?
    ensures GiantStepsOf(G, K, m)(i) == Some(r)
  {
    GiantStepDefined(G, K, m, i);
    var q := ScalarMul(G, i * m);
    var n := Neg(q).value;
    r := Add(K, n).value;
  }

  /** The giant-step loop of `bsgs`, which breaks at the first hit. */
  method GiantSteps(G: Point, K: Point, m: nat, babySteps: map<Point, int>) returns (k: int)
    requires GiantSearch(GiantStepsOf(G, K, m), m, babySteps, 0).Some?
    ensures GiantSearch(GiantStepsOf(G, K, m), m, babySteps, 0) == Some(k)
  {
    ghost var steps := GiantStepsOf(G, K, m);
    var giantSteps: map<Point, int> := map[];
    k := 0;
    var i := 0;
    while i < m
      invariant 0 <= i <= m && k == 0
      invariant GiantSearch(steps, m, babySteps, i) == GiantSearch(steps, m, babySteps, 0)
    {
      GiantSearchStep(steps, m, babySteps, i);
      var r := GiantStepAt(G, K, m, i);
      giantSteps := giantSteps[r := i];
      if r in babySteps {
        k := i * m + babySteps[r] - 1;
        break;
      }
      i := i + 1;
    }
  }

  /** `bsgs(p, a, b, g, k_g)`: m = ceil(sqrt(p)), the baby steps, then the giant steps. */
  method Bsgs(p: int, a: F.FE, b: F.FE, G: Point, K: Point) returns (k: int)
    requires BabyStepsDefined(G, CeilSqrt(p))
    requires GiantSearch(GiantStepsOf(G, K, CeilSqrt(p)), CeilSqrt(p), BabyTable(a, b, G, CeilSqrt(p)), 0).Some?
    ensures GiantSearch(GiantStepsOf(G, K, CeilSqrt(p)), CeilSqrt(p), BabyTable(a, b, G, CeilSqrt(p)), 0) == Some(k)
  {
    var m := CeilSqrt(p);
    var babySteps := BabySteps(a, b, G, m);
    k := GiantSteps(G, K, m, babySteps);
  }

  /**
    The answer of `bsgs` with a and b those of G and m >= 2: either 0 with
    every giant step missing, or h * m + j for the first giant step h whose
    point K + (-(G * (h * m))) is j * G, with j <= m - 2 the LARGEST such
    index: the nextTables j + 1 and the final -1 cancel.
  */
  lemma BsgsResult(p: int, G: Point, K: Point, k: int)
    requires CeilSqrt(p) >= 2 && BabyStepsDefined(G, CeilSqrt(p))
    requires GiantSearch(GiantStepsOf(G, K, CeilSqrt(p)), CeilSqrt(p), BabyTable(G.a, G.b, G, CeilSqrt(p)), 0) == Some(k)
    ensures var m := CeilSqrt(p); var steps := GiantStepsOf(G, K, m);
      (k == 0 && forall h :: 0 <= h < m ==> Miss(steps, BabyTable(G.a, G.b, G, m), h))
      || exists h, j :: 0 <= h < m && 0 <= j <= m - 2 && steps(h).Some?
           && Multiple(G, j) == steps(h) && k == h * m + j
           && (forall l :: j < l <= m - 2 ==> Multiple(G, l) != steps(h))
           && forall e :: 0 <= e < h ==> Miss(steps, BabyTable(G.a, G.b, G, m), e)
  {
    var m, steps := CeilSqrt(p), GiantStepsOf(G, K, CeilSqrt(p));
    var T := BabyTable(G.a, G.b, G, m);
    GiantSearchOutcome(steps, m, T, 0, k);
    if !(k == 0 && forall h :: 0 <= h < m ==> Miss(steps, T, h)) {
      var h :| 0 <= h < m && steps(h).Some? && steps(h).value in T
              && k == h * m + T[steps(h).value] - 1
              && forall e :: 0 <= e < h ==> Miss(steps, T, e);
      var j := BsgsHit(G, m, steps(h));
      assert 0 <= h < m && 0 <= j <= m - 2 && steps(h).Some?
           && Multiple(G, j) == steps(h) && k == h * m + j
           && (forall l :: j < l <= m - 2 ==> Multiple(G, l) != steps(h))
           && forall e :: 0 <= e < h ==> Miss(steps, T, e);
    }
  }

  /** A giant-step point found in the table is j * G for the j the table gives, less one. */
  lemma BsgsHit(G: Point, m: nat, S: Option<Point>) returns (j: int)
    requires m >= 2 && BabyStepsDefined(G, m) && S.Some? && S.value in BabyTable(G.a, G.b, G, m)
    ensures j == BabyTable(G.a, G.b, G, m)[S.value] - 1
    ensures 0 <= j <= m - 2 && Multiple(G, j) == S
    ensures forall l :: j < l <= m - 2 ==> Multiple(G, l) != S
  {
    BabyTableHit(G, m, S.value);
    j := BabyTable(G.a, G.b, G, m)[S.value] - 1;
  }

  /** n is the least k >= 1 with G * k == K, and the multiples up to n are defined. */
  predicate IsLeastLog(G: Point, K: Point, n: nat)
  {
    && n >= 1 && Multiple(G, n).Some? && PEq(Multiple(G, n).value, K)
    && forall j :: 1 <= j < n ==> Multiple(G, j).Some? && !PEq(Multiple(G, j).value, K)
  }

  /** The least logarithm is unique. */
  lemma LeastLogUnique(G: Point, K: Point, n1: nat, n2: nat)
    requires IsLeastLog(G, K, n1) && IsLeastLog(G, K, n2)
    ensures n1 == n2
  {
  }

  /**
    `brute_force`: k = 1, 2, ... until G * k == K. The loop only ends when
    some multiple equals K, so that is required; it then returns the least.
  */
  method BruteForce(G: Point, K: Point) returns (k: nat)
    requires exists n: nat :: n >= 1 && Multiple(G, n).Some? && PEq(Multiple(G, n).value, K)
    ensures IsLeastLog(G, K, k)
  {
    ghost var n: nat :| n >= 1 && Multiple(G, n).Some? && PEq(Multiple(G, n).value, K);
    k := 1;
    MultiplePrefix(G, 1, n);
    var res := ScalarMul(G, 1);
    while !PEq(res, K)
      invariant 1 <= k <= n && Multiple(G, k) == Some(res)
      invariant forall j :: 1 <= j < k ==> Multiple(G, j).Some? && !PEq(Multiple(G, j).value, K)
      decreases n - k
    {
      ghost var passed := k;
      assert forall j :: 1 <= j <= passed ==> Multiple(G, j).Some? && !PEq(Multiple(G, j).value, K) by {
        assert Multiple(G, passed).value == res;
      }
      k := k + 1;
      MultiplePrefix(G, k, n);
      res := ScalarMul(G, k);
    }
  }
}
