/**
  The two discrete-logarithm solvers on a small instance: the generator
  (15, 86) of order 7 on y^2 = x^3 + 7 modulo 223, and K = 6 * G = (15, 137).
  The block size is 15, larger than the order, so the table holds every
  multiple several times; `bsgs` answers 13 and `brute_force` answers 6,
  two logarithms of K that agree modulo the order.
*/
module DlpVectors {
  import opened Wrappers
  import F = Field
  import opened Curve
  import opened CurveVectors
  import opened Dlp

  /** K = (15, 137), the negation of the generator. */
  const Order7Target: Point := Fin(F.FE(223, 15), F.FE(223, 137), F.FE(223, 0), F.FE(223, 7))

  /** The block size for p = 223 is 15, since 14 * 14 < 223 <= 15 * 15. */
  lemma BlockSize223()
    ensures CeilSqrt(223) == 15
  {
    var m := CeilSqrt(223);
    CeilSqrtLeast(223, 15);
    if m < 15 {
      SquareMonotone(m, 14);
    }
  }

  /** The first six multiples of the generator, one addition at a time. */
  lemma Order7Prefix(G: Point)
    requires G == Order7Generator
    ensures Multiple(G, 1) == Some(G)
    ensures Multiple(G, 2) == Some(Fin(F.FE(223, 139), F.FE(223, 86), F.FE(223, 0), F.FE(223, 7)))
    ensures Multiple(G, 3) == Some(Fin(F.FE(223, 69), F.FE(223, 137), F.FE(223, 0), F.FE(223, 7)))
    ensures Multiple(G, 4) == Some(Fin(F.FE(223, 69), F.FE(223, 86), F.FE(223, 0), F.FE(223, 7)))
    ensures Multiple(G, 5) == Some(Fin(F.FE(223, 139), F.FE(223, 137), F.FE(223, 0), F.FE(223, 7)))
    ensures Multiple(G, 6) == Some(Order7Target)
  {
    MultipleBasics(G);
    Order7Step2(G);
    Order7Step3(G);
    Order7Step4(G);
    Order7Step5(G);
    Order7Step6(G);
  }

  /** Every multiple of the generator exists, so no baby step panics. */
  lemma Order7BabyStepsDefined(n: nat)
    ensures BabyStepsDefined(Order7Generator, n)
  {
    Order7Multiples();
    forall j | 0 <= j < n
      ensures Multiple(Order7Generator, j).Some?
    {
      MultipleCycle(Order7Generator, 7, j);
    }
  }

  /** 13 * G is K again, 13 being 6 plus the order. */
  lemma Order7Log13(G: Point)
    requires G == Order7Generator
    ensures Multiple(G, 13) == Some(Order7Target)
  {
    Order7Multiples();
    MultiplePeriodic(G, 7, 6);
    Order7Prefix(G);
  }

  /** Giant step 0 is K itself: K + (-(G * 0)) adds the negated infinity. */
  lemma Order7FirstGiantStep()
    ensures GiantStep(Order7Generator, Order7Target, 15, 0) == Some(Order7Target)
  {
    var G := Order7Generator;
    MultipleBasics(G);
    AddIdentity(Order7Target, Inf(G.a, G.b));
  }

  /** In the table of 15 baby steps, K maps to 14: its last insertion is G * 13. */
  lemma Order7TableEntry()
    ensures BabyStepsDefined(Order7Generator, 15)
    ensures Order7Target in BabyTable(Order7Generator.a, Order7Generator.b, Order7Generator, 15)
    ensures BabyTable(Order7Generator.a, Order7Generator.b, Order7Generator, 15)[Order7Target] == 14
  {
    var G := Order7Generator;
    Order7BabyStepsDefined(15);
    Order7Log13(G);
    BabyTableHas(G, 15, 13);
    BabyTableHit(G, 15, Order7Target);
  }

  /** `bsgs(223, 0, 7, G, K)` hits at giant step 0 and answers 0 * 15 + 14 - 1 = 13. */
  lemma Order7Bsgs()
    ensures BabyStepsDefined(Order7Generator, CeilSqrt(223))
    ensures GiantSearch(GiantStepsOf(Order7Generator, Order7Target, CeilSqrt(223)), CeilSqrt(223),
      BabyTable(Order7Generator.a, Order7Generator.b, Order7Generator, CeilSqrt(223)), 0) == Some(13)
  {
    BlockSize223();
    Order7TableEntry();
    Order7FirstGiantStep();
  }

  /** `brute_force(223, 0, 7, G, K)` answers 6, the least logarithm. */
  lemma Order7BruteForce(G: Point, K: Point)
    requires G == Order7Generator && K == Order7Target
    ensures IsLeastLog(G, K, 6)
  {
    Order7Prefix(G);
    forall j | 1 <= j < 6
      ensures Multiple(G, j).Some? && !PEq(Multiple(G, j).value, K)
    {
      if j == 1 {
      } else if j == 2 {
      } else if j == 3 {
      } else if j == 4 {
      } else {
        assert j == 5;
      }
    }
  }
}
