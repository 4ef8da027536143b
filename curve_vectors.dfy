/**
  The curve vectors of the test suites, checked on the model: points that
  `new` accepts or refuses, the sums of the chord and doubling branches, the
  group orders 21 and 7 of two generators modulo 223, and the primality of
  the moduli 37, 43, 103 and 223. Every step goes through Curve.ChordSum or
  Curve.TangentSum, so only integer arithmetic on literals is left to check.

  The lemmas Order21StepK and Order7StepK, with their Order21AddK and
  Order7AddK companions, unfold the loops of the two order tests one
  multiple at a time: each is an instance check of G * K or of one sum,
  built on the previous one, and states nothing beyond that value.

  test_01 and test_03 instantiate the curve over plain `i32`; their points
  are read here as field elements modulo 103, where the same equations hold.
*/
module CurveVectors {
  import opened Arith
  import opened Wrappers
  import F = Field
  import opened Curve

  lemma Prime37()
    ensures IsPrime(37)
  {
    forall d | 1 < d < 37
      ensures 37 % d != 0
    {
      if d > 6 {
        assert 37 / d <= 6;
      }
    }
  }

  lemma Prime43()
    ensures IsPrime(43)
  {
    forall d | 1 < d < 43
      ensures 43 % d != 0
    {
      if d > 6 {
        assert 43 / d <= 6;
      }
    }
  }

  lemma Prime103()
    ensures IsPrime(103)
  {
    forall d | 1 < d < 103
      ensures 103 % d != 0
    {
      if d > 10 {
        assert 103 / d <= 10;
      }
    }
  }

  lemma Prime223()
    ensures IsPrime(223)
  {
    forall d | 1 < d < 223
      ensures 223 % d != 0
    {
      if d > 14 {
        assert 223 / d <= 14;
      }
    }
  }

  // ---------------------------------------------------------------------------
  // Construction, identity and negation
  //
  // The integer points (-1, -1) and (-1, 1) of y^2 = x^3 + 5x + 7 are read
  // modulo the prime 103, where -1 is 102.

  /** `new` accepts (-1, -1) on y^2 = x^3 + 5x + 7. */
  lemma SmallCurvePoint()
    ensures New(F.FE(103, 102), F.FE(103, 102), F.FE(103, 5), F.FE(103, 7)) == Some(Fin(F.FE(103, 102), F.FE(103, 102), F.FE(103, 5), F.FE(103, 7)))
  {
    NewAccepts(Fin(F.FE(103, 102), F.FE(103, 102), F.FE(103, 5), F.FE(103, 7)), 103);
  }

  /** `new` accepts (-1, 1) on y^2 = x^3 + 5x + 7. */
  lemma SmallCurveMirror()
    ensures New(F.FE(103, 102), F.FE(103, 1), F.FE(103, 5), F.FE(103, 7)) == Some(Fin(F.FE(103, 102), F.FE(103, 1), F.FE(103, 5), F.FE(103, 7)))
  {
    NewAccepts(Fin(F.FE(103, 102), F.FE(103, 1), F.FE(103, 5), F.FE(103, 7)), 103);
  }

  /** `new` refuses (-1, -2) on y^2 = x^3 + 5x + 7. */
  lemma SmallCurveRefused()
    ensures New(F.FE(103, 102), F.FE(103, 101), F.FE(103, 5), F.FE(103, 7)) == None
  {
    NewRejects(Fin(F.FE(103, 102), F.FE(103, 101), F.FE(103, 5), F.FE(103, 7)), 103);
  }

  /** `new` accepts (17, 64) on y^2 = x^3 + 7 modulo 103. */
  lemma Curve103Point()
    ensures New(F.FE(103, 17), F.FE(103, 64), F.FE(103, 0), F.FE(103, 7)) == Some(Fin(F.FE(103, 17), F.FE(103, 64), F.FE(103, 0), F.FE(103, 7)))
  {
    NewAccepts(Fin(F.FE(103, 17), F.FE(103, 64), F.FE(103, 0), F.FE(103, 7)), 103);
  }

  /** (-1, -1) + (-1, 1) is infinity, and infinity is an identity for both points. */
  lemma SmallCurveAdd()
    ensures AddDefined(Fin(F.FE(103, 102), F.FE(103, 102), F.FE(103, 5), F.FE(103, 7)), Fin(F.FE(103, 102), F.FE(103, 1), F.FE(103, 5), F.FE(103, 7))) && Add(Fin(F.FE(103, 102), F.FE(103, 102), F.FE(103, 5), F.FE(103, 7)), Fin(F.FE(103, 102), F.FE(103, 1), F.FE(103, 5), F.FE(103, 7))) == Some(Inf(F.FE(103, 5), F.FE(103, 7)))
    ensures AddDefined(Fin(F.FE(103, 102), F.FE(103, 102), F.FE(103, 5), F.FE(103, 7)), Inf(F.FE(103, 5), F.FE(103, 7))) && Add(Fin(F.FE(103, 102), F.FE(103, 102), F.FE(103, 5), F.FE(103, 7)), Inf(F.FE(103, 5), F.FE(103, 7))) == Some(Fin(F.FE(103, 102), F.FE(103, 102), F.FE(103, 5), F.FE(103, 7)))
    ensures AddDefined(Fin(F.FE(103, 102), F.FE(103, 1), F.FE(103, 5), F.FE(103, 7)), Inf(F.FE(103, 5), F.FE(103, 7))) && Add(Fin(F.FE(103, 102), F.FE(103, 1), F.FE(103, 5), F.FE(103, 7)), Inf(F.FE(103, 5), F.FE(103, 7))) == Some(Fin(F.FE(103, 102), F.FE(103, 1), F.FE(103, 5), F.FE(103, 7)))
  {
    assert CaseOf(Fin(F.FE(103, 102), F.FE(103, 102), F.FE(103, 5), F.FE(103, 7)), Fin(F.FE(103, 102), F.FE(103, 1), F.FE(103, 5), F.FE(103, 7))) == Vertical;
    AddIdentity(Fin(F.FE(103, 102), F.FE(103, 102), F.FE(103, 5), F.FE(103, 7)), Inf(F.FE(103, 5), F.FE(103, 7)));
    AddIdentity(Fin(F.FE(103, 102), F.FE(103, 1), F.FE(103, 5), F.FE(103, 7)), Inf(F.FE(103, 5), F.FE(103, 7)));
  }

  /** The negation of (-1, -1) is (-1, 1). */
  lemma SmallCurveNeg()
    ensures Neg(Fin(F.FE(103, 102), F.FE(103, 102), F.FE(103, 5), F.FE(103, 7))) == Some(Fin(F.FE(103, 102), F.FE(103, 1), F.FE(103, 5), F.FE(103, 7)))
  {
    assert F.Neg(F.FE(103, 102)) == F.FE(103, 1);
    NewAccepts(Fin(F.FE(103, 102), F.FE(103, 1), F.FE(103, 5), F.FE(103, 7)), 103);
  }

  /** The negation of (-1, 1) is (-1, -1). */
  lemma SmallCurveNegMirror()
    ensures Neg(Fin(F.FE(103, 102), F.FE(103, 1), F.FE(103, 5), F.FE(103, 7))) == Some(Fin(F.FE(103, 102), F.FE(103, 102), F.FE(103, 5), F.FE(103, 7)))
  {
    assert F.Neg(F.FE(103, 1)) == F.FE(103, 102);
    NewAccepts(Fin(F.FE(103, 102), F.FE(103, 102), F.FE(103, 5), F.FE(103, 7)), 103);
  }

  // ---------------------------------------------------------------------------
  // The chord and doubling branches

  /** Modulo 37 on y^2 = x^3 + 7: (6, 1) + (8, 1) = (23, 36). */
  lemma Curve37Chord()
    ensures AddDefined(Fin(F.FE(37, 6), F.FE(37, 1), F.FE(37, 0), F.FE(37, 7)), Fin(F.FE(37, 8), F.FE(37, 1), F.FE(37, 0), F.FE(37, 7)))
    ensures Add(Fin(F.FE(37, 6), F.FE(37, 1), F.FE(37, 0), F.FE(37, 7)), Fin(F.FE(37, 8), F.FE(37, 1), F.FE(37, 0), F.FE(37, 7))) == Some(Fin(F.FE(37, 23), F.FE(37, 36), F.FE(37, 0), F.FE(37, 7)))
  {
    Prime37();
    ChordSum(Fin(F.FE(37, 6), F.FE(37, 1), F.FE(37, 0), F.FE(37, 7)), Fin(F.FE(37, 8), F.FE(37, 1), F.FE(37, 0), F.FE(37, 7)), Fin(F.FE(37, 23), F.FE(37, 36), F.FE(37, 0), F.FE(37, 7)), 37, 0);
  }

  /** Modulo 37 on y^2 = x^3 + 7: (6, 1) + (6, 1) = (18, 17). */
  lemma Curve37Doubling()
    ensures AddDefined(Fin(F.FE(37, 6), F.FE(37, 1), F.FE(37, 0), F.FE(37, 7)), Fin(F.FE(37, 6), F.FE(37, 1), F.FE(37, 0), F.FE(37, 7)))
    ensures Add(Fin(F.FE(37, 6), F.FE(37, 1), F.FE(37, 0), F.FE(37, 7)), Fin(F.FE(37, 6), F.FE(37, 1), F.FE(37, 0), F.FE(37, 7))) == Some(Fin(F.FE(37, 18), F.FE(37, 17), F.FE(37, 0), F.FE(37, 7)))
  {
    Prime37();
    TangentSum(Fin(F.FE(37, 6), F.FE(37, 1), F.FE(37, 0), F.FE(37, 7)), Fin(F.FE(37, 18), F.FE(37, 17), F.FE(37, 0), F.FE(37, 7)), 37, 17);
  }

  /** Modulo 223 on y^2 = x^3 + 7: (192, 105) + (17, 56) = (170, 142). */
  lemma Curve223Chord()
    ensures AddDefined(Fin(F.FE(223, 192), F.FE(223, 105), F.FE(223, 0), F.FE(223, 7)), Fin(F.FE(223, 17), F.FE(223, 56), F.FE(223, 0), F.FE(223, 7)))
    ensures Add(Fin(F.FE(223, 192), F.FE(223, 105), F.FE(223, 0), F.FE(223, 7)), Fin(F.FE(223, 17), F.FE(223, 56), F.FE(223, 0), F.FE(223, 7))) == Some(Fin(F.FE(223, 170), F.FE(223, 142), F.FE(223, 0), F.FE(223, 7)))
  {
    Prime223();
    ChordSum(Fin(F.FE(223, 192), F.FE(223, 105), F.FE(223, 0), F.FE(223, 7)), Fin(F.FE(223, 17), F.FE(223, 56), F.FE(223, 0), F.FE(223, 7)), Fin(F.FE(223, 170), F.FE(223, 142), F.FE(223, 0), F.FE(223, 7)), 223, 143);
  }

  // ---------------------------------------------------------------------------
  // Group orders: the partial sums of `Mul<usize>` one addition at a time

  /** (47, 71) on y^2 = x^3 + 7 modulo 223, a generator of order 21. */
  const Order21Generator: Point := Fin(F.FE(223, 47), F.FE(223, 71), F.FE(223, 0), F.FE(223, 7))

  lemma Order21Step2(G: Point)
    requires G == Order21Generator
    ensures Multiple(G, 2) == Some(Fin(F.FE(223, 36), F.FE(223, 111), F.FE(223, 0), F.FE(223, 7)))
  {
    Prime223();
    TangentSum(G, Fin(F.FE(223, 36), F.FE(223, 111), F.FE(223, 0), F.FE(223, 7)), 223, 199);
    MultipleBasics(G);
  }

  lemma Order21Add3()
    ensures AddDefined(Fin(F.FE(223, 36), F.FE(223, 111), F.FE(223, 0), F.FE(223, 7)), Order21Generator) && Add(Fin(F.FE(223, 36), F.FE(223, 111), F.FE(223, 0), F.FE(223, 7)), Order21Generator) == Some(Fin(F.FE(223, 15), F.FE(223, 137), F.FE(223, 0), F.FE(223, 7)))
  {
    Prime223();
    ChordSum(Fin(F.FE(223, 36), F.FE(223, 111), F.FE(223, 0), F.FE(223, 7)), Order21Generator, Fin(F.FE(223, 15), F.FE(223, 137), F.FE(223, 0), F.FE(223, 7)), 223, 118);
  }

  lemma Order21Step3(G: Point)
    requires G == Order21Generator && Multiple(G, 2) == Some(Fin(F.FE(223, 36), F.FE(223, 111), F.FE(223, 0), F.FE(223, 7)))
    ensures Multiple(G, 3) == Some(Fin(F.FE(223, 15), F.FE(223, 137), F.FE(223, 0), F.FE(223, 7)))
  {
    Order21Add3();
    MultipleStep(G, 2, Fin(F.FE(223, 36), F.FE(223, 111), F.FE(223, 0), F.FE(223, 7)));
  }

  lemma Order21Add4()
    ensures AddDefined(Fin(F.FE(223, 15), F.FE(223, 137), F.FE(223, 0), F.FE(223, 7)), Order21Generator) && Add(Fin(F.FE(223, 15), F.FE(223, 137), F.FE(223, 0), F.FE(223, 7)), Order21Generator) == Some(Fin(F.FE(223, 194), F.FE(223, 51), F.FE(223, 0), F.FE(223, 7)))
  {
    Prime223();
    ChordSum(Fin(F.FE(223, 15), F.FE(223, 137), F.FE(223, 0), F.FE(223, 7)), Order21Generator, Fin(F.FE(223, 194), F.FE(223, 51), F.FE(223, 0), F.FE(223, 7)), 223, 207);
  }

  lemma Order21Step4(G: Point)
    requires G == Order21Generator && Multiple(G, 3) == Some(Fin(F.FE(223, 15), F.FE(223, 137), F.FE(223, 0), F.FE(223, 7)))
    ensures Multiple(G, 4) == Some(Fin(F.FE(223, 194), F.FE(223, 51), F.FE(223, 0), F.FE(223, 7)))
  {
    Order21Add4();
    MultipleStep(G, 3, Fin(F.FE(223, 15), F.FE(223, 137), F.FE(223, 0), F.FE(223, 7)));
  }

  lemma Order21Add5()
    ensures AddDefined(Fin(F.FE(223, 194), F.FE(223, 51), F.FE(223, 0), F.FE(223, 7)), Order21Generator) && Add(Fin(F.FE(223, 194), F.FE(223, 51), F.FE(223, 0), F.FE(223, 7)), Order21Generator) == Some(Fin(F.FE(223, 126), F.FE(223, 96), F.FE(223, 0), F.FE(223, 7)))
  {
    Prime223();
    ChordSum(Fin(F.FE(223, 194), F.FE(223, 51), F.FE(223, 0), F.FE(223, 7)), Order21Generator, Fin(F.FE(223, 126), F.FE(223, 96), F.FE(223, 0), F.FE(223, 7)), 223, 12);
  }

  lemma Order21Step5(G: Point)
    requires G == Order21Generator && Multiple(G, 4) == Some(Fin(F.FE(223, 194), F.FE(223, 51), F.FE(223, 0), F.FE(223, 7)))
    ensures Multiple(G, 5) == Some(Fin(F.FE(223, 126), F.FE(223, 96), F.FE(223, 0), F.FE(223, 7)))
  {
    Order21Add5();
    MultipleStep(G, 4, Fin(F.FE(223, 194), F.FE(223, 51), F.FE(223, 0), F.FE(223, 7)));
  }

  lemma Order21Add6()
    ensures AddDefined(Fin(F.FE(223, 126), F.FE(223, 96), F.FE(223, 0), F.FE(223, 7)), Order21Generator) && Add(Fin(F.FE(223, 126), F.FE(223, 96), F.FE(223, 0), F.FE(223, 7)), Order21Generator) == Some(Fin(F.FE(223, 139), F.FE(223, 137), F.FE(223, 0), F.FE(223, 7)))
  {
    Prime223();
    ChordSum(Fin(F.FE(223, 126), F.FE(223, 96), F.FE(223, 0), F.FE(223, 7)), Order21Generator, Fin(F.FE(223, 139), F.FE(223, 137), F.FE(223, 0), F.FE(223, 7)), 223, 85);
  }

  lemma Order21Step6(G: Point)
    requires G == Order21Generator && Multiple(G, 5) == Some(Fin(F.FE(223, 126), F.FE(223, 96), F.FE(223, 0), F.FE(223, 7)))
    ensures Multiple(G, 6) == Some(Fin(F.FE(223, 139), F.FE(223, 137), F.FE(223, 0), F.FE(223, 7)))
  {
    Order21Add6();
    MultipleStep(G, 5, Fin(F.FE(223, 126), F.FE(223, 96), F.FE(223, 0), F.FE(223, 7)));
  }

  lemma Order21Add7()
    ensures AddDefined(Fin(F.FE(223, 139), F.FE(223, 137), F.FE(223, 0), F.FE(223, 7)), Order21Generator) && Add(Fin(F.FE(223, 139), F.FE(223, 137), F.FE(223, 0), F.FE(223, 7)), Order21Generator) == Some(Fin(F.FE(223, 92), F.FE(223, 47), F.FE(223, 0), F.FE(223, 7)))
  {
    Prime223();
    ChordSum(Fin(F.FE(223, 139), F.FE(223, 137), F.FE(223, 0), F.FE(223, 7)), Order21Generator, Fin(F.FE(223, 92), F.FE(223, 47), F.FE(223, 0), F.FE(223, 7)), 223, 151);
  }

  lemma Order21Step7(G: Point)
    requires G == Order21Generator && Multiple(G, 6) == Some(Fin(F.FE(223, 139), F.FE(223, 137), F.FE(223, 0), F.FE(223, 7)))
    ensures Multiple(G, 7) == Some(Fin(F.FE(223, 92), F.FE(223, 47), F.FE(223, 0), F.FE(223, 7)))
  {
    Order21Add7();
    MultipleStep(G, 6, Fin(F.FE(223, 139), F.FE(223, 137), F.FE(223, 0), F.FE(223, 7)));
  }

  lemma Order21Add8()
    ensures AddDefined(Fin(F.FE(223, 92), F.FE(223, 47), F.FE(223, 0), F.FE(223, 7)), Order21Generator) && Add(Fin(F.FE(223, 92), F.FE(223, 47), F.FE(223, 0), F.FE(223, 7)), Order21Generator) == Some(Fin(F.FE(223, 116), F.FE(223, 55), F.FE(223, 0), F.FE(223, 7)))
  {
    Prime223();
    ChordSum(Fin(F.FE(223, 92), F.FE(223, 47), F.FE(223, 0), F.FE(223, 7)), Order21Generator, Fin(F.FE(223, 116), F.FE(223, 55), F.FE(223, 0), F.FE(223, 7)), 223, 163);
  }

  lemma Order21Step8(G: Point)
    requires G == Order21Generator && Multiple(G, 7) == Some(Fin(F.FE(223, 92), F.FE(223, 47), F.FE(223, 0), F.FE(223, 7)))
    ensures Multiple(G, 8) == Some(Fin(F.FE(223, 116), F.FE(223, 55), F.FE(223, 0), F.FE(223, 7)))
  {
    Order21Add8();
    MultipleStep(G, 7, Fin(F.FE(223, 92), F.FE(223, 47), F.FE(223, 0), F.FE(223, 7)));
  }

  lemma Order21Add9()
    ensures AddDefined(Fin(F.FE(223, 116), F.FE(223, 55), F.FE(223, 0), F.FE(223, 7)), Order21Generator) && Add(Fin(F.FE(223, 116), F.FE(223, 55), F.FE(223, 0), F.FE(223, 7)), Order21Generator) == Some(Fin(F.FE(223, 69), F.FE(223, 86), F.FE(223, 0), F.FE(223, 7)))
  {
    Prime223();
    ChordSum(Fin(F.FE(223, 116), F.FE(223, 55), F.FE(223, 0), F.FE(223, 7)), Order21Generator, Fin(F.FE(223, 69), F.FE(223, 86), F.FE(223, 0), F.FE(223, 7)), 223, 3);
  }

  lemma Order21Step9(G: Point)
    requires G == Order21Generator && Multiple(G, 8) == Some(Fin(F.FE(223, 116), F.FE(223, 55), F.FE(223, 0), F.FE(223, 7)))
    ensures Multiple(G, 9) == Some(Fin(F.FE(223, 69), F.FE(223, 86), F.FE(223, 0), F.FE(223, 7)))
  {
    Order21Add9();
    MultipleStep(G, 8, Fin(F.FE(223, 116), F.FE(223, 55), F.FE(223, 0), F.FE(223, 7)));
  }

  lemma Order21Add10()
    ensures AddDefined(Fin(F.FE(223, 69), F.FE(223, 86), F.FE(223, 0), F.FE(223, 7)), Order21Generator) && Add(Fin(F.FE(223, 69), F.FE(223, 86), F.FE(223, 0), F.FE(223, 7)), Order21Generator) == Some(Fin(F.FE(223, 154), F.FE(223, 150), F.FE(223, 0), F.FE(223, 7)))
  {
    Prime223();
    ChordSum(Fin(F.FE(223, 69), F.FE(223, 86), F.FE(223, 0), F.FE(223, 7)), Order21Generator, Fin(F.FE(223, 154), F.FE(223, 150), F.FE(223, 0), F.FE(223, 7)), 223, 173);
  }

  lemma Order21Step10(G: Point)
    requires G == Order21Generator && Multiple(G, 9) == Some(Fin(F.FE(223, 69), F.FE(223, 86), F.FE(223, 0), F.FE(223, 7)))
    ensures Multiple(G, 10) == Some(Fin(F.FE(223, 154), F.FE(223, 150), F.FE(223, 0), F.FE(223, 7)))
  {
    Order21Add10();
    MultipleStep(G, 9, Fin(F.FE(223, 69), F.FE(223, 86), F.FE(223, 0), F.FE(223, 7)));
  }

  lemma Order21Add11()
    ensures AddDefined(Fin(F.FE(223, 154), F.FE(223, 150), F.FE(223, 0), F.FE(223, 7)), Order21Generator) && Add(Fin(F.FE(223, 154), F.FE(223, 150), F.FE(223, 0), F.FE(223, 7)), Order21Generator) == Some(Fin(F.FE(223, 154), F.FE(223, 73), F.FE(223, 0), F.FE(223, 7)))
  {
    Prime223();
    ChordSum(Fin(F.FE(223, 154), F.FE(223, 150), F.FE(223, 0), F.FE(223, 7)), Order21Generator, Fin(F.FE(223, 154), F.FE(223, 73), F.FE(223, 0), F.FE(223, 7)), 223, 32);
  }

  lemma Order21Step11(G: Point)
    requires G == Order21Generator && Multiple(G, 10) == Some(Fin(F.FE(223, 154), F.FE(223, 150), F.FE(223, 0), F.FE(223, 7)))
    ensures Multiple(G, 11) == Some(Fin(F.FE(223, 154), F.FE(223, 73), F.FE(223, 0), F.FE(223, 7)))
  {
    Order21Add11();
    MultipleStep(G, 10, Fin(F.FE(223, 154), F.FE(223, 150), F.FE(223, 0), F.FE(223, 7)));
  }

  lemma Order21Add12()
    ensures AddDefined(Fin(F.FE(223, 154), F.FE(223, 73), F.FE(223, 0), F.FE(223, 7)), Order21Generator) && Add(Fin(F.FE(223, 154), F.FE(223, 73), F.FE(223, 0), F.FE(223, 7)), Order21Generator) == Some(Fin(F.FE(223, 69), F.FE(223, 137), F.FE(223, 0), F.FE(223, 7)))
  {
    Prime223();
    ChordSum(Fin(F.FE(223, 154), F.FE(223, 73), F.FE(223, 0), F.FE(223, 7)), Order21Generator, Fin(F.FE(223, 69), F.FE(223, 137), F.FE(223, 0), F.FE(223, 7)), 223, 173);
  }

  lemma Order21Step12(G: Point)
    requires G == Order21Generator && Multiple(G, 11) == Some(Fin(F.FE(223, 154), F.FE(223, 73), F.FE(223, 0), F.FE(223, 7)))
    ensures Multiple(G, 12) == Some(Fin(F.FE(223, 69), F.FE(223, 137), F.FE(223, 0), F.FE(223, 7)))
  {
    Order21Add12();
    MultipleStep(G, 11, Fin(F.FE(223, 154), F.FE(223, 73), F.FE(223, 0), F.FE(223, 7)));
  }

  lemma Order21Add13()
    ensures AddDefined(Fin(F.FE(223, 69), F.FE(223, 137), F.FE(223, 0), F.FE(223, 7)), Order21Generator) && Add(Fin(F.FE(223, 69), F.FE(223, 137), F.FE(223, 0), F.FE(223, 7)), Order21Generator) == Some(Fin(F.FE(223, 116), F.FE(223, 168), F.FE(223, 0), F.FE(223, 7)))
  {
    Prime223();
    ChordSum(Fin(F.FE(223, 69), F.FE(223, 137), F.FE(223, 0), F.FE(223, 7)), Order21Generator, Fin(F.FE(223, 116), F.FE(223, 168), F.FE(223, 0), F.FE(223, 7)), 223, 3);
  }

  lemma Order21Step13(G: Point)
    requires G == Order21Generator && Multiple(G, 12) == Some(Fin(F.FE(223, 69), F.FE(223, 137), F.FE(223, 0), F.FE(223, 7)))
    ensures Multiple(G, 13) == Some(Fin(F.FE(223, 116), F.FE(223, 168), F.FE(223, 0), F.FE(223, 7)))
  {
    Order21Add13();
    MultipleStep(G, 12, Fin(F.FE(223, 69), F.FE(223, 137), F.FE(223, 0), F.FE(223, 7)));
  }

  lemma Order21Add14()
    ensures AddDefined(Fin(F.FE(223, 116), F.FE(223, 168), F.FE(223, 0), F.FE(223, 7)), Order21Generator) && Add(Fin(F.FE(223, 116), F.FE(223, 168), F.FE(223, 0), F.FE(223, 7)), Order21Generator) == Some(Fin(F.FE(223, 92), F.FE(223, 176), F.FE(223, 0), F.FE(223, 7)))
  {
    Prime223();
    ChordSum(Fin(F.FE(223, 116), F.FE(223, 168), F.FE(223, 0), F.FE(223, 7)), Order21Generator, Fin(F.FE(223, 92), F.FE(223, 176), F.FE(223, 0), F.FE(223, 7)), 223, 163);
  }

  lemma Order21Step14(G: Point)
    requires G == Order21Generator && Multiple(G, 13) == Some(Fin(F.FE(223, 116), F.FE(223, 168), F.FE(223, 0), F.FE(223, 7)))
    ensures Multiple(G, 14) == Some(Fin(F.FE(223, 92), F.FE(223, 176), F.FE(223, 0), F.FE(223, 7)))
  {
    Order21Add14();
    MultipleStep(G, 13, Fin(F.FE(223, 116), F.FE(223, 168), F.FE(223, 0), F.FE(223, 7)));
  }

  lemma Order21Add15()
    ensures AddDefined(Fin(F.FE(223, 92), F.FE(223, 176), F.FE(223, 0), F.FE(223, 7)), Order21Generator) && Add(Fin(F.FE(223, 92), F.FE(223, 176), F.FE(223, 0), F.FE(223, 7)), Order21Generator) == Some(Fin(F.FE(223, 139), F.FE(223, 86), F.FE(223, 0), F.FE(223, 7)))
  {
    Prime223();
    ChordSum(Fin(F.FE(223, 92), F.FE(223, 176), F.FE(223, 0), F.FE(223, 7)), Order21Generator, Fin(F.FE(223, 139), F.FE(223, 86), F.FE(223, 0), F.FE(223, 7)), 223, 151);
  }

  lemma Order21Step15(G: Point)
    requires G == Order21Generator && Multiple(G, 14) == Some(Fin(F.FE(223, 92), F.FE(223, 176), F.FE(223, 0), F.FE(223, 7)))
    ensures Multiple(G, 15) == Some(Fin(F.FE(223, 139), F.FE(223, 86), F.FE(223, 0), F.FE(223, 7)))
  {
    Order21Add15();
    MultipleStep(G, 14, Fin(F.FE(223, 92), F.FE(223, 176), F.FE(223, 0), F.FE(223, 7)));
  }

  lemma Order21Add16()
    ensures AddDefined(Fin(F.FE(223, 139), F.FE(223, 86), F.FE(223, 0), F.FE(223, 7)), Order21Generator) && Add(Fin(F.FE(223, 139), F.FE(223, 86), F.FE(223, 0), F.FE(223, 7)), Order21Generator) == Some(Fin(F.FE(223, 126), F.FE(223, 127), F.FE(223, 0), F.FE(223, 7)))
  {
    Prime223();
    ChordSum(Fin(F.FE(223, 139), F.FE(223, 86), F.FE(223, 0), F.FE(223, 7)), Order21Generator, Fin(F.FE(223, 126), F.FE(223, 127), F.FE(223, 0), F.FE(223, 7)), 223, 85);
  }

  lemma Order21Step16(G: Point)
    requires G == Order21Generator && Multiple(G, 15) == Some(Fin(F.FE(223, 139), F.FE(223, 86), F.FE(223, 0), F.FE(223, 7)))
    ensures Multiple(G, 16) == Some(Fin(F.FE(223, 126), F.FE(223, 127), F.FE(223, 0), F.FE(223, 7)))
  {
    Order21Add16();
    MultipleStep(G, 15, Fin(F.FE(223, 139), F.FE(223, 86), F.FE(223, 0), F.FE(223, 7)));
  }

  lemma Order21Add17()
    ensures AddDefined(Fin(F.FE(223, 126), F.FE(223, 127), F.FE(223, 0), F.FE(223, 7)), Order21Generator) && Add(Fin(F.FE(223, 126), F.FE(223, 127), F.FE(223, 0), F.FE(223, 7)), Order21Generator) == Some(Fin(F.FE(223, 194), F.FE(223, 172), F.FE(223, 0), F.FE(223, 7)))
  {
    Prime223();
    ChordSum(Fin(F.FE(223, 126), F.FE(223, 127), F.FE(223, 0), F.FE(223, 7)), Order21Generator, Fin(F.FE(223, 194), F.FE(223, 172), F.FE(223, 0), F.FE(223, 7)), 223, 12);
  }

  lemma Order21Step17(G: Point)
    requires G == Order21Generator && Multiple(G, 16) == Some(Fin(F.FE(223, 126), F.FE(223, 127), F.FE(223, 0), F.FE(223, 7)))
    ensures Multiple(G, 17) == Some(Fin(F.FE(223, 194), F.FE(223, 172), F.FE(223, 0), F.FE(223, 7)))
  {
    Order21Add17();
    MultipleStep(G, 16, Fin(F.FE(223, 126), F.FE(223, 127), F.FE(223, 0), F.FE(223, 7)));
  }

  lemma Order21Add18()
    ensures AddDefined(Fin(F.FE(223, 194), F.FE(223, 172), F.FE(223, 0), F.FE(223, 7)), Order21Generator) && Add(Fin(F.FE(223, 194), F.FE(223, 172), F.FE(223, 0), F.FE(223, 7)), Order21Generator) == Some(Fin(F.FE(223, 15), F.FE(223, 86), F.FE(223, 0), F.FE(223, 7)))
  {
    Prime223();
    ChordSum(Fin(F.FE(223, 194), F.FE(223, 172), F.FE(223, 0), F.FE(223, 7)), Order21Generator, Fin(F.FE(223, 15), F.FE(223, 86), F.FE(223, 0), F.FE(223, 7)), 223, 207);
  }

  lemma Order21Step18(G: Point)
    requires G == Order21Generator && Multiple(G, 17) == Some(Fin(F.FE(223, 194), F.FE(223, 172), F.FE(223, 0), F.FE(223, 7)))
    ensures Multiple(G, 18) == Some(Fin(F.FE(223, 15), F.FE(223, 86), F.FE(223, 0), F.FE(223, 7)))
  {
    Order21Add18();
    MultipleStep(G, 17, Fin(F.FE(223, 194), F.FE(223, 172), F.FE(223, 0), F.FE(223, 7)));
  }

  lemma Order21Add19()
    ensures AddDefined(Fin(F.FE(223, 15), F.FE(223, 86), F.FE(223, 0), F.FE(223, 7)), Order21Generator) && Add(Fin(F.FE(223, 15), F.FE(223, 86), F.FE(223, 0), F.FE(223, 7)), Order21Generator) == Some(Fin(F.FE(223, 36), F.FE(223, 112), F.FE(223, 0), F.FE(223, 7)))
  {
    Prime223();
    ChordSum(Fin(F.FE(223, 15), F.FE(223, 86), F.FE(223, 0), F.FE(223, 7)), Order21Generator, Fin(F.FE(223, 36), F.FE(223, 112), F.FE(223, 0), F.FE(223, 7)), 223, 118);
  }

  lemma Order21Step19(G: Point)
    requires G == Order21Generator && Multiple(G, 18) == Some(Fin(F.FE(223, 15), F.FE(223, 86), F.FE(223, 0), F.FE(223, 7)))
    ensures Multiple(G, 19) == Some(Fin(F.FE(223, 36), F.FE(223, 112), F.FE(223, 0), F.FE(223, 7)))
  {
    Order21Add19();
    MultipleStep(G, 18, Fin(F.FE(223, 15), F.FE(223, 86), F.FE(223, 0), F.FE(223, 7)));
  }

  lemma Order21Add20()
    ensures AddDefined(Fin(F.FE(223, 36), F.FE(223, 112), F.FE(223, 0), F.FE(223, 7)), Order21Generator) && Add(Fin(F.FE(223, 36), F.FE(223, 112), F.FE(223, 0), F.FE(223, 7)), Order21Generator) == Some(Fin(F.FE(223, 47), F.FE(223, 152), F.FE(223, 0), F.FE(223, 7)))
  {
    Prime223();
    ChordSum(Fin(F.FE(223, 36), F.FE(223, 112), F.FE(223, 0), F.FE(223, 7)), Order21Generator, Fin(F.FE(223, 47), F.FE(223, 152), F.FE(223, 0), F.FE(223, 7)), 223, 199);
  }

  lemma Order21Step20(G: Point)
    requires G == Order21Generator && Multiple(G, 19) == Some(Fin(F.FE(223, 36), F.FE(223, 112), F.FE(223, 0), F.FE(223, 7)))
    ensures Multiple(G, 20) == Some(Fin(F.FE(223, 47), F.FE(223, 152), F.FE(223, 0), F.FE(223, 7)))
  {
    Order21Add20();
    MultipleStep(G, 19, Fin(F.FE(223, 36), F.FE(223, 112), F.FE(223, 0), F.FE(223, 7)));
  }

  lemma Order21Step21(G: Point)
    requires G == Order21Generator && Multiple(G, 20) == Some(Fin(F.FE(223, 47), F.FE(223, 152), F.FE(223, 0), F.FE(223, 7)))
    ensures Multiple(G, 21) == Some(Inf(F.FE(223, 0), F.FE(223, 7)))
  {
    assert CaseOf(Fin(F.FE(223, 47), F.FE(223, 152), F.FE(223, 0), F.FE(223, 7)), G) == Vertical;
    MultipleStep(G, 20, Fin(F.FE(223, 47), F.FE(223, 152), F.FE(223, 0), F.FE(223, 7)));
  }

  /** The multiple 21 of (47, 71) is infinity; each smaller multiple is the finite point its step lemma names. */
  lemma Order21Multiples()
    ensures Multiple(Order21Generator, 21) == Some(NewInf(Order21Generator.a, Order21Generator.b))
  {
    MultipleBasics(Order21Generator);
    Order21Step2(Order21Generator);
    Order21Step3(Order21Generator);
    Order21Step4(Order21Generator);
    Order21Step5(Order21Generator);
    Order21Step6(Order21Generator);
    Order21Step7(Order21Generator);
    Order21Step8(Order21Generator);
    Order21Step9(Order21Generator);
    Order21Step10(Order21Generator);
    Order21Step11(Order21Generator);
    Order21Step12(Order21Generator);
    Order21Step13(Order21Generator);
    Order21Step14(Order21Generator);
    Order21Step15(Order21Generator);
    Order21Step16(Order21Generator);
    Order21Step17(Order21Generator);
    Order21Step18(Order21Generator);
    Order21Step19(Order21Generator);
    Order21Step20(Order21Generator);
    Order21Step21(Order21Generator);
  }

  /** (15, 86) on y^2 = x^3 + 7 modulo 223, a generator of order 7. */
  const Order7Generator: Point := Fin(F.FE(223, 15), F.FE(223, 86), F.FE(223, 0), F.FE(223, 7))

  lemma Order7Step2(G: Point)
    requires G == Order7Generator
    ensures Multiple(G, 2) == Some(Fin(F.FE(223, 139), F.FE(223, 86), F.FE(223, 0), F.FE(223, 7)))
  {
    Prime223();
    TangentSum(G, Fin(F.FE(223, 139), F.FE(223, 86), F.FE(223, 0), F.FE(223, 7)), 223, 13);
    MultipleBasics(G);
  }

  lemma Order7Add3()
    ensures AddDefined(Fin(F.FE(223, 139), F.FE(223, 86), F.FE(223, 0), F.FE(223, 7)), Order7Generator) && Add(Fin(F.FE(223, 139), F.FE(223, 86), F.FE(223, 0), F.FE(223, 7)), Order7Generator) == Some(Fin(F.FE(223, 69), F.FE(223, 137), F.FE(223, 0), F.FE(223, 7)))
  {
    Prime223();
    ChordSum(Fin(F.FE(223, 139), F.FE(223, 86), F.FE(223, 0), F.FE(223, 7)), Order7Generator, Fin(F.FE(223, 69), F.FE(223, 137), F.FE(223, 0), F.FE(223, 7)), 223, 0);
  }

  lemma Order7Step3(G: Point)
    requires G == Order7Generator && Multiple(G, 2) == Some(Fin(F.FE(223, 139), F.FE(223, 86), F.FE(223, 0), F.FE(223, 7)))
    ensures Multiple(G, 3) == Some(Fin(F.FE(223, 69), F.FE(223, 137), F.FE(223, 0), F.FE(223, 7)))
  {
    Order7Add3();
    MultipleStep(G, 2, Fin(F.FE(223, 139), F.FE(223, 86), F.FE(223, 0), F.FE(223, 7)));
  }

  lemma Order7Add4()
    ensures AddDefined(Fin(F.FE(223, 69), F.FE(223, 137), F.FE(223, 0), F.FE(223, 7)), Order7Generator) && Add(Fin(F.FE(223, 69), F.FE(223, 137), F.FE(223, 0), F.FE(223, 7)), Order7Generator) == Some(Fin(F.FE(223, 69), F.FE(223, 86), F.FE(223, 0), F.FE(223, 7)))
  {
    Prime223();
    ChordSum(Fin(F.FE(223, 69), F.FE(223, 137), F.FE(223, 0), F.FE(223, 7)), Order7Generator, Fin(F.FE(223, 69), F.FE(223, 86), F.FE(223, 0), F.FE(223, 7)), 223, 162);
  }

  lemma Order7Step4(G: Point)
    requires G == Order7Generator && Multiple(G, 3) == Some(Fin(F.FE(223, 69), F.FE(223, 137), F.FE(223, 0), F.FE(223, 7)))
    ensures Multiple(G, 4) == Some(Fin(F.FE(223, 69), F.FE(223, 86), F.FE(223, 0), F.FE(223, 7)))
  {
    Order7Add4();
    MultipleStep(G, 3, Fin(F.FE(223, 69), F.FE(223, 137), F.FE(223, 0), F.FE(223, 7)));
  }

  lemma Order7Add5()
    ensures AddDefined(Fin(F.FE(223, 69), F.FE(223, 86), F.FE(223, 0), F.FE(223, 7)), Order7Generator) && Add(Fin(F.FE(223, 69), F.FE(223, 86), F.FE(223, 0), F.FE(223, 7)), Order7Generator) == Some(Fin(F.FE(223, 139), F.FE(223, 137), F.FE(223, 0), F.FE(223, 7)))
  {
    Prime223();
    ChordSum(Fin(F.FE(223, 69), F.FE(223, 86), F.FE(223, 0), F.FE(223, 7)), Order7Generator, Fin(F.FE(223, 139), F.FE(223, 137), F.FE(223, 0), F.FE(223, 7)), 223, 0);
  }

  lemma Order7Step5(G: Point)
    requires G == Order7Generator && Multiple(G, 4) == Some(Fin(F.FE(223, 69), F.FE(223, 86), F.FE(223, 0), F.FE(223, 7)))
    ensures Multiple(G, 5) == Some(Fin(F.FE(223, 139), F.FE(223, 137), F.FE(223, 0), F.FE(223, 7)))
  {
    Order7Add5();
    MultipleStep(G, 4, Fin(F.FE(223, 69), F.FE(223, 86), F.FE(223, 0), F.FE(223, 7)));
  }

  lemma Order7Add6()
    ensures AddDefined(Fin(F.FE(223, 139), F.FE(223, 137), F.FE(223, 0), F.FE(223, 7)), Order7Generator) && Add(Fin(F.FE(223, 139), F.FE(223, 137), F.FE(223, 0), F.FE(223, 7)), Order7Generator) == Some(Fin(F.FE(223, 15), F.FE(223, 137), F.FE(223, 0), F.FE(223, 7)))
  {
    Prime223();
    ChordSum(Fin(F.FE(223, 139), F.FE(223, 137), F.FE(223, 0), F.FE(223, 7)), Order7Generator, Fin(F.FE(223, 15), F.FE(223, 137), F.FE(223, 0), F.FE(223, 7)), 223, 13);
  }

  lemma Order7Step6(G: Point)
    requires G == Order7Generator && Multiple(G, 5) == Some(Fin(F.FE(223, 139), F.FE(223, 137), F.FE(223, 0), F.FE(223, 7)))
    ensures Multiple(G, 6) == Some(Fin(F.FE(223, 15), F.FE(223, 137), F.FE(223, 0), F.FE(223, 7)))
  {
    Order7Add6();
    MultipleStep(G, 5, Fin(F.FE(223, 139), F.FE(223, 137), F.FE(223, 0), F.FE(223, 7)));
  }

  lemma Order7Step7(G: Point)
    requires G == Order7Generator && Multiple(G, 6) == Some(Fin(F.FE(223, 15), F.FE(223, 137), F.FE(223, 0), F.FE(223, 7)))
    ensures Multiple(G, 7) == Some(Inf(F.FE(223, 0), F.FE(223, 7)))
  {
    assert CaseOf(Fin(F.FE(223, 15), F.FE(223, 137), F.FE(223, 0), F.FE(223, 7)), G) == Vertical;
    MultipleStep(G, 6, Fin(F.FE(223, 15), F.FE(223, 137), F.FE(223, 0), F.FE(223, 7)));
  }

  /** The multiple 7 of (15, 86) is infinity; each smaller multiple is the finite point its step lemma names. */
  lemma Order7Multiples()
    ensures Multiple(Order7Generator, 7) == Some(NewInf(Order7Generator.a, Order7Generator.b))
  {
    MultipleBasics(Order7Generator);
    Order7Step2(Order7Generator);
    Order7Step3(Order7Generator);
    Order7Step4(Order7Generator);
    Order7Step5(Order7Generator);
    Order7Step6(Order7Generator);
    Order7Step7(Order7Generator);
  }
}
