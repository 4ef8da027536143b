/**
  The key agreement of the test suites on y^2 = x^3 + 6 modulo 43: the
  generator (13, 15) has order 13 and (9, 2) has order 39, and with the
  private keys 2 and 3 on the first generator both sides reach the same
  secret. Every addition goes through Curve.ChordSum or Curve.TangentSum.

  The lemmas Order13StepK and Order39StepK, with their OrderNNAddK
  companions, unfold the order search one multiple at a time: each is an
  instance check of G * K, built on the previous one.
*/
module AgreementVectors {
  import opened Wrappers
  import F = Field
  import opened Curve
  import opened CurveVectors
  import opened KeyAgreement

  // ---------------------------------------------------------------------------
  // The order of (13, 15)

  /** (13, 15) on y^2 = x^3 + 6 modulo 43, the generator G1 of the tests. */
  const AgreementG1: Point := Fin(F.FE(43, 13), F.FE(43, 15), F.FE(43, 0), F.FE(43, 6))

  lemma Order13Step2(G: Point)
    requires G == AgreementG1
    ensures Multiple(G, 2) == Some(Fin(F.FE(43, 33), F.FE(43, 34), F.FE(43, 0), F.FE(43, 6)))
  {
    Prime43();
    TangentSum(G, Fin(F.FE(43, 33), F.FE(43, 34), F.FE(43, 0), F.FE(43, 6)), 43, 4);
    MultipleBasics(G);
  }

  lemma Order13Add3()
    ensures AddDefined(Fin(F.FE(43, 33), F.FE(43, 34), F.FE(43, 0), F.FE(43, 6)), AgreementG1) && Add(Fin(F.FE(43, 33), F.FE(43, 34), F.FE(43, 0), F.FE(43, 6)), AgreementG1) == Some(Fin(F.FE(43, 38), F.FE(43, 15), F.FE(43, 0), F.FE(43, 6)))
  {
    Prime43();
    ChordSum(Fin(F.FE(43, 33), F.FE(43, 34), F.FE(43, 0), F.FE(43, 6)), AgreementG1, Fin(F.FE(43, 38), F.FE(43, 15), F.FE(43, 0), F.FE(43, 6)), 43, 16);
  }

  lemma Order13Step3(G: Point)
    requires G == AgreementG1 && Multiple(G, 2) == Some(Fin(F.FE(43, 33), F.FE(43, 34), F.FE(43, 0), F.FE(43, 6)))
    ensures Multiple(G, 3) == Some(Fin(F.FE(43, 38), F.FE(43, 15), F.FE(43, 0), F.FE(43, 6)))
  {
    Order13Add3();
    MultipleStep(G, 2, Fin(F.FE(43, 33), F.FE(43, 34), F.FE(43, 0), F.FE(43, 6)));
  }

  lemma Order13Add4()
    ensures AddDefined(Fin(F.FE(43, 38), F.FE(43, 15), F.FE(43, 0), F.FE(43, 6)), AgreementG1) && Add(Fin(F.FE(43, 38), F.FE(43, 15), F.FE(43, 0), F.FE(43, 6)), AgreementG1) == Some(Fin(F.FE(43, 35), F.FE(43, 28), F.FE(43, 0), F.FE(43, 6)))
  {
    Prime43();
    ChordSum(Fin(F.FE(43, 38), F.FE(43, 15), F.FE(43, 0), F.FE(43, 6)), AgreementG1, Fin(F.FE(43, 35), F.FE(43, 28), F.FE(43, 0), F.FE(43, 6)), 43, 0);
  }

  lemma Order13Step4(G: Point)
    requires G == AgreementG1 && Multiple(G, 3) == Some(Fin(F.FE(43, 38), F.FE(43, 15), F.FE(43, 0), F.FE(43, 6)))
    ensures Multiple(G, 4) == Some(Fin(F.FE(43, 35), F.FE(43, 28), F.FE(43, 0), F.FE(43, 6)))
  {
    Order13Add4();
    MultipleStep(G, 3, Fin(F.FE(43, 38), F.FE(43, 15), F.FE(43, 0), F.FE(43, 6)));
  }

  lemma Order13Add5()
    ensures AddDefined(Fin(F.FE(43, 35), F.FE(43, 28), F.FE(43, 0), F.FE(43, 6)), AgreementG1) && Add(Fin(F.FE(43, 35), F.FE(43, 28), F.FE(43, 0), F.FE(43, 6)), AgreementG1) == Some(Fin(F.FE(43, 26), F.FE(43, 34), F.FE(43, 0), F.FE(43, 6)))
  {
    Prime43();
    ChordSum(Fin(F.FE(43, 35), F.FE(43, 28), F.FE(43, 0), F.FE(43, 6)), AgreementG1, Fin(F.FE(43, 26), F.FE(43, 34), F.FE(43, 0), F.FE(43, 6)), 43, 26);
  }

  lemma Order13Step5(G: Point)
    requires G == AgreementG1 && Multiple(G, 4) == Some(Fin(F.FE(43, 35), F.FE(43, 28), F.FE(43, 0), F.FE(43, 6)))
    ensures Multiple(G, 5) == Some(Fin(F.FE(43, 26), F.FE(43, 34), F.FE(43, 0), F.FE(43, 6)))
  {
    Order13Add5();
    MultipleStep(G, 4, Fin(F.FE(43, 35), F.FE(43, 28), F.FE(43, 0), F.FE(43, 6)));
  }

  lemma Order13Add6()
    ensures AddDefined(Fin(F.FE(43, 26), F.FE(43, 34), F.FE(43, 0), F.FE(43, 6)), AgreementG1) && Add(Fin(F.FE(43, 26), F.FE(43, 34), F.FE(43, 0), F.FE(43, 6)), AgreementG1) == Some(Fin(F.FE(43, 27), F.FE(43, 34), F.FE(43, 0), F.FE(43, 6)))
  {
    Prime43();
    ChordSum(Fin(F.FE(43, 26), F.FE(43, 34), F.FE(43, 0), F.FE(43, 6)), AgreementG1, Fin(F.FE(43, 27), F.FE(43, 34), F.FE(43, 0), F.FE(43, 6)), 43, 18);
  }

  lemma Order13Step6(G: Point)
    requires G == AgreementG1 && Multiple(G, 5) == Some(Fin(F.FE(43, 26), F.FE(43, 34), F.FE(43, 0), F.FE(43, 6)))
    ensures Multiple(G, 6) == Some(Fin(F.FE(43, 27), F.FE(43, 34), F.FE(43, 0), F.FE(43, 6)))
  {
    Order13Add6();
    MultipleStep(G, 5, Fin(F.FE(43, 26), F.FE(43, 34), F.FE(43, 0), F.FE(43, 6)));
  }

  lemma Order13Add7()
    ensures AddDefined(Fin(F.FE(43, 27), F.FE(43, 34), F.FE(43, 0), F.FE(43, 6)), AgreementG1) && Add(Fin(F.FE(43, 27), F.FE(43, 34), F.FE(43, 0), F.FE(43, 6)), AgreementG1) == Some(Fin(F.FE(43, 27), F.FE(43, 9), F.FE(43, 0), F.FE(43, 6)))
  {
    Prime43();
    ChordSum(Fin(F.FE(43, 27), F.FE(43, 34), F.FE(43, 0), F.FE(43, 6)), AgreementG1, Fin(F.FE(43, 27), F.FE(43, 9), F.FE(43, 0), F.FE(43, 6)), 43, 29);
  }

  lemma Order13Step7(G: Point)
    requires G == AgreementG1 && Multiple(G, 6) == Some(Fin(F.FE(43, 27), F.FE(43, 34), F.FE(43, 0), F.FE(43, 6)))
    ensures Multiple(G, 7) == Some(Fin(F.FE(43, 27), F.FE(43, 9), F.FE(43, 0), F.FE(43, 6)))
  {
    Order13Add7();
    MultipleStep(G, 6, Fin(F.FE(43, 27), F.FE(43, 34), F.FE(43, 0), F.FE(43, 6)));
  }

  lemma Order13Add8()
    ensures AddDefined(Fin(F.FE(43, 27), F.FE(43, 9), F.FE(43, 0), F.FE(43, 6)), AgreementG1) && Add(Fin(F.FE(43, 27), F.FE(43, 9), F.FE(43, 0), F.FE(43, 6)), AgreementG1) == Some(Fin(F.FE(43, 26), F.FE(43, 9), F.FE(43, 0), F.FE(43, 6)))
  {
    Prime43();
    ChordSum(Fin(F.FE(43, 27), F.FE(43, 9), F.FE(43, 0), F.FE(43, 6)), AgreementG1, Fin(F.FE(43, 26), F.FE(43, 9), F.FE(43, 0), F.FE(43, 6)), 43, 18);
  }

  lemma Order13Step8(G: Point)
    requires G == AgreementG1 && Multiple(G, 7) == Some(Fin(F.FE(43, 27), F.FE(43, 9), F.FE(43, 0), F.FE(43, 6)))
    ensures Multiple(G, 8) == Some(Fin(F.FE(43, 26), F.FE(43, 9), F.FE(43, 0), F.FE(43, 6)))
  {
    Order13Add8();
    MultipleStep(G, 7, Fin(F.FE(43, 27), F.FE(43, 9), F.FE(43, 0), F.FE(43, 6)));
  }

  lemma Order13Add9()
    ensures AddDefined(Fin(F.FE(43, 26), F.FE(43, 9), F.FE(43, 0), F.FE(43, 6)), AgreementG1) && Add(Fin(F.FE(43, 26), F.FE(43, 9), F.FE(43, 0), F.FE(43, 6)), AgreementG1) == Some(Fin(F.FE(43, 35), F.FE(43, 15), F.FE(43, 0), F.FE(43, 6)))
  {
    Prime43();
    ChordSum(Fin(F.FE(43, 26), F.FE(43, 9), F.FE(43, 0), F.FE(43, 6)), AgreementG1, Fin(F.FE(43, 35), F.FE(43, 15), F.FE(43, 0), F.FE(43, 6)), 43, 26);
  }

  lemma Order13Step9(G: Point)
    requires G == AgreementG1 && Multiple(G, 8) == Some(Fin(F.FE(43, 26), F.FE(43, 9), F.FE(43, 0), F.FE(43, 6)))
    ensures Multiple(G, 9) == Some(Fin(F.FE(43, 35), F.FE(43, 15), F.FE(43, 0), F.FE(43, 6)))
  {
    Order13Add9();
    MultipleStep(G, 8, Fin(F.FE(43, 26), F.FE(43, 9), F.FE(43, 0), F.FE(43, 6)));
  }

  lemma Order13Add10()
    ensures AddDefined(Fin(F.FE(43, 35), F.FE(43, 15), F.FE(43, 0), F.FE(43, 6)), AgreementG1) && Add(Fin(F.FE(43, 35), F.FE(43, 15), F.FE(43, 0), F.FE(43, 6)), AgreementG1) == Some(Fin(F.FE(43, 38), F.FE(43, 28), F.FE(43, 0), F.FE(43, 6)))
  {
    Prime43();
    ChordSum(Fin(F.FE(43, 35), F.FE(43, 15), F.FE(43, 0), F.FE(43, 6)), AgreementG1, Fin(F.FE(43, 38), F.FE(43, 28), F.FE(43, 0), F.FE(43, 6)), 43, 0);
  }

  lemma Order13Step10(G: Point)
    requires G == AgreementG1 && Multiple(G, 9) == Some(Fin(F.FE(43, 35), F.FE(43, 15), F.FE(43, 0), F.FE(43, 6)))
    ensures Multiple(G, 10) == Some(Fin(F.FE(43, 38), F.FE(43, 28), F.FE(43, 0), F.FE(43, 6)))
  {
    Order13Add10();
    MultipleStep(G, 9, Fin(F.FE(43, 35), F.FE(43, 15), F.FE(43, 0), F.FE(43, 6)));
  }

  lemma Order13Add11()
    ensures AddDefined(Fin(F.FE(43, 38), F.FE(43, 28), F.FE(43, 0), F.FE(43, 6)), AgreementG1) && Add(Fin(F.FE(43, 38), F.FE(43, 28), F.FE(43, 0), F.FE(43, 6)), AgreementG1) == Some(Fin(F.FE(43, 33), F.FE(43, 9), F.FE(43, 0), F.FE(43, 6)))
  {
    Prime43();
    ChordSum(Fin(F.FE(43, 38), F.FE(43, 28), F.FE(43, 0), F.FE(43, 6)), AgreementG1, Fin(F.FE(43, 33), F.FE(43, 9), F.FE(43, 0), F.FE(43, 6)), 43, 16);
  }

  lemma Order13Step11(G: Point)
    requires G == AgreementG1 && Multiple(G, 10) == Some(Fin(F.FE(43, 38), F.FE(43, 28), F.FE(43, 0), F.FE(43, 6)))
    ensures Multiple(G, 11) == Some(Fin(F.FE(43, 33), F.FE(43, 9), F.FE(43, 0), F.FE(43, 6)))
  {
    Order13Add11();
    MultipleStep(G, 10, Fin(F.FE(43, 38), F.FE(43, 28), F.FE(43, 0), F.FE(43, 6)));
  }

  lemma Order13Add12()
    ensures AddDefined(Fin(F.FE(43, 33), F.FE(43, 9), F.FE(43, 0), F.FE(43, 6)), AgreementG1) && Add(Fin(F.FE(43, 33), F.FE(43, 9), F.FE(43, 0), F.FE(43, 6)), AgreementG1) == Some(Fin(F.FE(43, 13), F.FE(43, 28), F.FE(43, 0), F.FE(43, 6)))
  {
    Prime43();
    ChordSum(Fin(F.FE(43, 33), F.FE(43, 9), F.FE(43, 0), F.FE(43, 6)), AgreementG1, Fin(F.FE(43, 13), F.FE(43, 28), F.FE(43, 0), F.FE(43, 6)), 43, 4);
  }

  lemma Order13Step12(G: Point)
    requires G == AgreementG1 && Multiple(G, 11) == Some(Fin(F.FE(43, 33), F.FE(43, 9), F.FE(43, 0), F.FE(43, 6)))
    ensures Multiple(G, 12) == Some(Fin(F.FE(43, 13), F.FE(43, 28), F.FE(43, 0), F.FE(43, 6)))
  {
    Order13Add12();
    MultipleStep(G, 11, Fin(F.FE(43, 33), F.FE(43, 9), F.FE(43, 0), F.FE(43, 6)));
  }

  lemma Order13Step13(G: Point)
    requires G == AgreementG1 && Multiple(G, 12) == Some(Fin(F.FE(43, 13), F.FE(43, 28), F.FE(43, 0), F.FE(43, 6)))
    ensures Multiple(G, 13) == Some(Inf(F.FE(43, 0), F.FE(43, 6)))
  {
    assert CaseOf(Fin(F.FE(43, 13), F.FE(43, 28), F.FE(43, 0), F.FE(43, 6)), G) == Vertical;
    MultipleStep(G, 12, Fin(F.FE(43, 13), F.FE(43, 28), F.FE(43, 0), F.FE(43, 6)));
  }

  /** The multiples 1 to 13 of AgreementG1, one addition at a time. */
  lemma Order13Prefix(G: Point)
    requires G == AgreementG1
    ensures Multiple(G, 1) == Some(Fin(F.FE(43, 13), F.FE(43, 15), F.FE(43, 0), F.FE(43, 6)))
    ensures Multiple(G, 2) == Some(Fin(F.FE(43, 33), F.FE(43, 34), F.FE(43, 0), F.FE(43, 6)))
    ensures Multiple(G, 3) == Some(Fin(F.FE(43, 38), F.FE(43, 15), F.FE(43, 0), F.FE(43, 6)))
    ensures Multiple(G, 4) == Some(Fin(F.FE(43, 35), F.FE(43, 28), F.FE(43, 0), F.FE(43, 6)))
    ensures Multiple(G, 5) == Some(Fin(F.FE(43, 26), F.FE(43, 34), F.FE(43, 0), F.FE(43, 6)))
    ensures Multiple(G, 6) == Some(Fin(F.FE(43, 27), F.FE(43, 34), F.FE(43, 0), F.FE(43, 6)))
    ensures Multiple(G, 7) == Some(Fin(F.FE(43, 27), F.FE(43, 9), F.FE(43, 0), F.FE(43, 6)))
    ensures Multiple(G, 8) == Some(Fin(F.FE(43, 26), F.FE(43, 9), F.FE(43, 0), F.FE(43, 6)))
    ensures Multiple(G, 9) == Some(Fin(F.FE(43, 35), F.FE(43, 15), F.FE(43, 0), F.FE(43, 6)))
    ensures Multiple(G, 10) == Some(Fin(F.FE(43, 38), F.FE(43, 28), F.FE(43, 0), F.FE(43, 6)))
    ensures Multiple(G, 11) == Some(Fin(F.FE(43, 33), F.FE(43, 9), F.FE(43, 0), F.FE(43, 6)))
    ensures Multiple(G, 12) == Some(Fin(F.FE(43, 13), F.FE(43, 28), F.FE(43, 0), F.FE(43, 6)))
    ensures Multiple(G, 13) == Some(Inf(F.FE(43, 0), F.FE(43, 6)))
  {
    MultipleBasics(G);
    Order13Step2(G);
    Order13Step3(G);
    Order13Step4(G);
    Order13Step5(G);
    Order13Step6(G);
    Order13Step7(G);
    Order13Step8(G);
    Order13Step9(G);
    Order13Step10(G);
    Order13Step11(G);
    Order13Step12(G);
    Order13Step13(G);
  }

  /** The search of `new` finds the order 13 for G1: 13 * G1 is infinity and no smaller multiple is. */
  lemma Order13Order(G: Point)
    requires G == AgreementG1
    ensures OrderSearch(G.a, G.b, G, 43, 1) == Some(13)
  {
    Order13Prefix(G);
    forall k | 1 <= k < 13
      ensures Multiple(G, k).Some? && !PEq(Multiple(G, k).value, NewInf(G.a, G.b))
    {
      if k == 1 {
      } else if k == 2 {
      } else if k == 3 {
      } else if k == 4 {
      } else if k == 5 {
      } else if k == 6 {
      } else if k == 7 {
      } else if k == 8 {
      } else if k == 9 {
      } else if k == 10 {
      } else if k == 11 {
      } else {
        assert k == 12;
      }
    }
    assert Misses(G.a, G.b, G, 1, 13);
    assert Hits(G.a, G.b, G, 13);
    assert SearchResult(G.a, G.b, G, 43, 1, 13);
    OrderSearchComplete(G.a, G.b, G, 43, 1, 13);
  }

  // ---------------------------------------------------------------------------
  // The order of (9, 2)

  /** (9, 2) on y^2 = x^3 + 6 modulo 43, the generator G2 of the tests. */
  const AgreementG2: Point := Fin(F.FE(43, 9), F.FE(43, 2), F.FE(43, 0), F.FE(43, 6))

  lemma Order39Step2(G: Point)
    requires G == AgreementG2
    ensures Multiple(G, 2) == Some(Fin(F.FE(43, 31), F.FE(43, 16), F.FE(43, 0), F.FE(43, 6)))
  {
    Prime43();
    TangentSum(G, Fin(F.FE(43, 31), F.FE(43, 16), F.FE(43, 0), F.FE(43, 6)), 43, 7);
    MultipleBasics(G);
  }

  lemma Order39Add3()
    ensures AddDefined(Fin(F.FE(43, 31), F.FE(43, 16), F.FE(43, 0), F.FE(43, 6)), AgreementG2) && Add(Fin(F.FE(43, 31), F.FE(43, 16), F.FE(43, 0), F.FE(43, 6)), AgreementG2) == Some(Fin(F.FE(43, 13), F.FE(43, 15), F.FE(43, 0), F.FE(43, 6)))
  {
    Prime43();
    ChordSum(Fin(F.FE(43, 31), F.FE(43, 16), F.FE(43, 0), F.FE(43, 6)), AgreementG2, Fin(F.FE(43, 13), F.FE(43, 15), F.FE(43, 0), F.FE(43, 6)), 43, 28);
  }

  lemma Order39Step3(G: Point)
    requires G == AgreementG2 && Multiple(G, 2) == Some(Fin(F.FE(43, 31), F.FE(43, 16), F.FE(43, 0), F.FE(43, 6)))
    ensures Multiple(G, 3) == Some(Fin(F.FE(43, 13), F.FE(43, 15), F.FE(43, 0), F.FE(43, 6)))
  {
    Order39Add3();
    MultipleStep(G, 2, Fin(F.FE(43, 31), F.FE(43, 16), F.FE(43, 0), F.FE(43, 6)));
  }

  lemma Order39Add4()
    ensures AddDefined(Fin(F.FE(43, 13), F.FE(43, 15), F.FE(43, 0), F.FE(43, 6)), AgreementG2) && Add(Fin(F.FE(43, 13), F.FE(43, 15), F.FE(43, 0), F.FE(43, 6)), AgreementG2) == Some(Fin(F.FE(43, 2), F.FE(43, 10), F.FE(43, 0), F.FE(43, 6)))
  {
    Prime43();
    ChordSum(Fin(F.FE(43, 13), F.FE(43, 15), F.FE(43, 0), F.FE(43, 6)), AgreementG2, Fin(F.FE(43, 2), F.FE(43, 10), F.FE(43, 0), F.FE(43, 6)), 43, 14);
  }

  lemma Order39Step4(G: Point)
    requires G == AgreementG2 && Multiple(G, 3) == Some(Fin(F.FE(43, 13), F.FE(43, 15), F.FE(43, 0), F.FE(43, 6)))
    ensures Multiple(G, 4) == Some(Fin(F.FE(43, 2), F.FE(43, 10), F.FE(43, 0), F.FE(43, 6)))
  {
    Order39Add4();
    MultipleStep(G, 3, Fin(F.FE(43, 13), F.FE(43, 15), F.FE(43, 0), F.FE(43, 6)));
  }

  lemma Order39Add5()
    ensures AddDefined(Fin(F.FE(43, 2), F.FE(43, 10), F.FE(43, 0), F.FE(43, 6)), AgreementG2) && Add(Fin(F.FE(43, 2), F.FE(43, 10), F.FE(43, 0), F.FE(43, 6)), AgreementG2) == Some(Fin(F.FE(43, 14), F.FE(43, 16), F.FE(43, 0), F.FE(43, 6)))
  {
    Prime43();
    ChordSum(Fin(F.FE(43, 2), F.FE(43, 10), F.FE(43, 0), F.FE(43, 6)), AgreementG2, Fin(F.FE(43, 14), F.FE(43, 16), F.FE(43, 0), F.FE(43, 6)), 43, 5);
  }

  lemma Order39Step5(G: Point)
    requires G == AgreementG2 && Multiple(G, 4) == Some(Fin(F.FE(43, 2), F.FE(43, 10), F.FE(43, 0), F.FE(43, 6)))
    ensures Multiple(G, 5) == Some(Fin(F.FE(43, 14), F.FE(43, 16), F.FE(43, 0), F.FE(43, 6)))
  {
    Order39Add5();
    MultipleStep(G, 4, Fin(F.FE(43, 2), F.FE(43, 10), F.FE(43, 0), F.FE(43, 6)));
  }

  lemma Order39Add6()
    ensures AddDefined(Fin(F.FE(43, 14), F.FE(43, 16), F.FE(43, 0), F.FE(43, 6)), AgreementG2) && Add(Fin(F.FE(43, 14), F.FE(43, 16), F.FE(43, 0), F.FE(43, 6)), AgreementG2) == Some(Fin(F.FE(43, 33), F.FE(43, 34), F.FE(43, 0), F.FE(43, 6)))
  {
    Prime43();
    ChordSum(Fin(F.FE(43, 14), F.FE(43, 16), F.FE(43, 0), F.FE(43, 6)), AgreementG2, Fin(F.FE(43, 33), F.FE(43, 34), F.FE(43, 0), F.FE(43, 6)), 43, 20);
  }

  lemma Order39Step6(G: Point)
    requires G == AgreementG2 && Multiple(G, 5) == Some(Fin(F.FE(43, 14), F.FE(43, 16), F.FE(43, 0), F.FE(43, 6)))
    ensures Multiple(G, 6) == Some(Fin(F.FE(43, 33), F.FE(43, 34), F.FE(43, 0), F.FE(43, 6)))
  {
    Order39Add6();
    MultipleStep(G, 5, Fin(F.FE(43, 14), F.FE(43, 16), F.FE(43, 0), F.FE(43, 6)));
  }

  lemma Order39Add7()
    ensures AddDefined(Fin(F.FE(43, 33), F.FE(43, 34), F.FE(43, 0), F.FE(43, 6)), AgreementG2) && Add(Fin(F.FE(43, 33), F.FE(43, 34), F.FE(43, 0), F.FE(43, 6)), AgreementG2) == Some(Fin(F.FE(43, 41), F.FE(43, 27), F.FE(43, 0), F.FE(43, 6)))
  {
    Prime43();
    ChordSum(Fin(F.FE(43, 33), F.FE(43, 34), F.FE(43, 0), F.FE(43, 6)), AgreementG2, Fin(F.FE(43, 41), F.FE(43, 27), F.FE(43, 0), F.FE(43, 6)), 43, 30);
  }

  lemma Order39Step7(G: Point)
    requires G == AgreementG2 && Multiple(G, 6) == Some(Fin(F.FE(43, 33), F.FE(43, 34), F.FE(43, 0), F.FE(43, 6)))
    ensures Multiple(G, 7) == Some(Fin(F.FE(43, 41), F.FE(43, 27), F.FE(43, 0), F.FE(43, 6)))
  {
    Order39Add7();
    MultipleStep(G, 6, Fin(F.FE(43, 33), F.FE(43, 34), F.FE(43, 0), F.FE(43, 6)));
  }

  lemma Order39Add8()
    ensures AddDefined(Fin(F.FE(43, 41), F.FE(43, 27), F.FE(43, 0), F.FE(43, 6)), AgreementG2) && Add(Fin(F.FE(43, 41), F.FE(43, 27), F.FE(43, 0), F.FE(43, 6)), AgreementG2) == Some(Fin(F.FE(43, 17), F.FE(43, 24), F.FE(43, 0), F.FE(43, 6)))
  {
    Prime43();
    ChordSum(Fin(F.FE(43, 41), F.FE(43, 27), F.FE(43, 0), F.FE(43, 6)), AgreementG2, Fin(F.FE(43, 17), F.FE(43, 24), F.FE(43, 0), F.FE(43, 6)), 43, 29);
  }

  lemma Order39Step8(G: Point)
    requires G == AgreementG2 && Multiple(G, 7) == Some(Fin(F.FE(43, 41), F.FE(43, 27), F.FE(43, 0), F.FE(43, 6)))
    ensures Multiple(G, 8) == Some(Fin(F.FE(43, 17), F.FE(43, 24), F.FE(43, 0), F.FE(43, 6)))
  {
    Order39Add8();
    MultipleStep(G, 7, Fin(F.FE(43, 41), F.FE(43, 27), F.FE(43, 0), F.FE(43, 6)));
  }

  lemma Order39Add9()
    ensures AddDefined(Fin(F.FE(43, 17), F.FE(43, 24), F.FE(43, 0), F.FE(43, 6)), AgreementG2) && Add(Fin(F.FE(43, 17), F.FE(43, 24), F.FE(43, 0), F.FE(43, 6)), AgreementG2) == Some(Fin(F.FE(43, 38), F.FE(43, 15), F.FE(43, 0), F.FE(43, 6)))
  {
    Prime43();
    ChordSum(Fin(F.FE(43, 17), F.FE(43, 24), F.FE(43, 0), F.FE(43, 6)), AgreementG2, Fin(F.FE(43, 38), F.FE(43, 15), F.FE(43, 0), F.FE(43, 6)), 43, 35);
  }

  lemma Order39Step9(G: Point)
    requires G == AgreementG2 && Multiple(G, 8) == Some(Fin(F.FE(43, 17), F.FE(43, 24), F.FE(43, 0), F.FE(43, 6)))
    ensures Multiple(G, 9) == Some(Fin(F.FE(43, 38), F.FE(43, 15), F.FE(43, 0), F.FE(43, 6)))
  {
    Order39Add9();
    MultipleStep(G, 8, Fin(F.FE(43, 17), F.FE(43, 24), F.FE(43, 0), F.FE(43, 6)));
  }

  lemma Order39Add10()
    ensures AddDefined(Fin(F.FE(43, 38), F.FE(43, 15), F.FE(43, 0), F.FE(43, 6)), AgreementG2) && Add(Fin(F.FE(43, 38), F.FE(43, 15), F.FE(43, 0), F.FE(43, 6)), AgreementG2) == Some(Fin(F.FE(43, 12), F.FE(43, 10), F.FE(43, 0), F.FE(43, 6)))
  {
    Prime43();
    ChordSum(Fin(F.FE(43, 38), F.FE(43, 15), F.FE(43, 0), F.FE(43, 6)), AgreementG2, Fin(F.FE(43, 12), F.FE(43, 10), F.FE(43, 0), F.FE(43, 6)), 43, 39);
  }

  lemma Order39Step10(G: Point)
    requires G == AgreementG2 && Multiple(G, 9) == Some(Fin(F.FE(43, 38), F.FE(43, 15), F.FE(43, 0), F.FE(43, 6)))
    ensures Multiple(G, 10) == Some(Fin(F.FE(43, 12), F.FE(43, 10), F.FE(43, 0), F.FE(43, 6)))
  {
    Order39Add10();
    MultipleStep(G, 9, Fin(F.FE(43, 38), F.FE(43, 15), F.FE(43, 0), F.FE(43, 6)));
  }

  lemma Order39Add11()
    ensures AddDefined(Fin(F.FE(43, 12), F.FE(43, 10), F.FE(43, 0), F.FE(43, 6)), AgreementG2) && Add(Fin(F.FE(43, 12), F.FE(43, 10), F.FE(43, 0), F.FE(43, 6)), AgreementG2) == Some(Fin(F.FE(43, 10), F.FE(43, 24), F.FE(43, 0), F.FE(43, 6)))
  {
    Prime43();
    ChordSum(Fin(F.FE(43, 12), F.FE(43, 10), F.FE(43, 0), F.FE(43, 6)), AgreementG2, Fin(F.FE(43, 10), F.FE(43, 24), F.FE(43, 0), F.FE(43, 6)), 43, 17);
  }

  lemma Order39Step11(G: Point)
    requires G == AgreementG2 && Multiple(G, 10) == Some(Fin(F.FE(43, 12), F.FE(43, 10), F.FE(43, 0), F.FE(43, 6)))
    ensures Multiple(G, 11) == Some(Fin(F.FE(43, 10), F.FE(43, 24), F.FE(43, 0), F.FE(43, 6)))
  {
    Order39Add11();
    MultipleStep(G, 10, Fin(F.FE(43, 12), F.FE(43, 10), F.FE(43, 0), F.FE(43, 6)));
  }

  lemma Order39Add12()
    ensures AddDefined(Fin(F.FE(43, 10), F.FE(43, 24), F.FE(43, 0), F.FE(43, 6)), AgreementG2) && Add(Fin(F.FE(43, 10), F.FE(43, 24), F.FE(43, 0), F.FE(43, 6)), AgreementG2) == Some(Fin(F.FE(43, 35), F.FE(43, 28), F.FE(43, 0), F.FE(43, 6)))
  {
    Prime43();
    ChordSum(Fin(F.FE(43, 10), F.FE(43, 24), F.FE(43, 0), F.FE(43, 6)), AgreementG2, Fin(F.FE(43, 35), F.FE(43, 28), F.FE(43, 0), F.FE(43, 6)), 43, 22);
  }

  lemma Order39Step12(G: Point)
    requires G == AgreementG2 && Multiple(G, 11) == Some(Fin(F.FE(43, 10), F.FE(43, 24), F.FE(43, 0), F.FE(43, 6)))
    ensures Multiple(G, 12) == Some(Fin(F.FE(43, 35), F.FE(43, 28), F.FE(43, 0), F.FE(43, 6)))
  {
    Order39Add12();
    MultipleStep(G, 11, Fin(F.FE(43, 10), F.FE(43, 24), F.FE(43, 0), F.FE(43, 6)));
  }

  lemma Order39Add13()
    ensures AddDefined(Fin(F.FE(43, 35), F.FE(43, 28), F.FE(43, 0), F.FE(43, 6)), AgreementG2) && Add(Fin(F.FE(43, 35), F.FE(43, 28), F.FE(43, 0), F.FE(43, 6)), AgreementG2) == Some(Fin(F.FE(43, 0), F.FE(43, 7), F.FE(43, 0), F.FE(43, 6)))
  {
    Prime43();
    ChordSum(Fin(F.FE(43, 35), F.FE(43, 28), F.FE(43, 0), F.FE(43, 6)), AgreementG2, Fin(F.FE(43, 0), F.FE(43, 7), F.FE(43, 0), F.FE(43, 6)), 43, 1);
  }

  lemma Order39Step13(G: Point)
    requires G == AgreementG2 && Multiple(G, 12) == Some(Fin(F.FE(43, 35), F.FE(43, 28), F.FE(43, 0), F.FE(43, 6)))
    ensures Multiple(G, 13) == Some(Fin(F.FE(43, 0), F.FE(43, 7), F.FE(43, 0), F.FE(43, 6)))
  {
    Order39Add13();
    MultipleStep(G, 12, Fin(F.FE(43, 35), F.FE(43, 28), F.FE(43, 0), F.FE(43, 6)));
  }

  lemma Order39Add14()
    ensures AddDefined(Fin(F.FE(43, 0), F.FE(43, 7), F.FE(43, 0), F.FE(43, 6)), AgreementG2) && Add(Fin(F.FE(43, 0), F.FE(43, 7), F.FE(43, 0), F.FE(43, 6)), AgreementG2) == Some(Fin(F.FE(43, 29), F.FE(43, 33), F.FE(43, 0), F.FE(43, 6)))
  {
    Prime43();
    ChordSum(Fin(F.FE(43, 0), F.FE(43, 7), F.FE(43, 0), F.FE(43, 6)), AgreementG2, Fin(F.FE(43, 29), F.FE(43, 33), F.FE(43, 0), F.FE(43, 6)), 43, 9);
  }

  lemma Order39Step14(G: Point)
    requires G == AgreementG2 && Multiple(G, 13) == Some(Fin(F.FE(43, 0), F.FE(43, 7), F.FE(43, 0), F.FE(43, 6)))
    ensures Multiple(G, 14) == Some(Fin(F.FE(43, 29), F.FE(43, 33), F.FE(43, 0), F.FE(43, 6)))
  {
    Order39Add14();
    MultipleStep(G, 13, Fin(F.FE(43, 0), F.FE(43, 7), F.FE(43, 0), F.FE(43, 6)));
  }

  lemma Order39Add15()
    ensures AddDefined(Fin(F.FE(43, 29), F.FE(43, 33), F.FE(43, 0), F.FE(43, 6)), AgreementG2) && Add(Fin(F.FE(43, 29), F.FE(43, 33), F.FE(43, 0), F.FE(43, 6)), AgreementG2) == Some(Fin(F.FE(43, 26), F.FE(43, 34), F.FE(43, 0), F.FE(43, 6)))
  {
    Prime43();
    ChordSum(Fin(F.FE(43, 29), F.FE(43, 33), F.FE(43, 0), F.FE(43, 6)), AgreementG2, Fin(F.FE(43, 26), F.FE(43, 34), F.FE(43, 0), F.FE(43, 6)), 43, 8);
  }

  lemma Order39Step15(G: Point)
    requires G == AgreementG2 && Multiple(G, 14) == Some(Fin(F.FE(43, 29), F.FE(43, 33), F.FE(43, 0), F.FE(43, 6)))
    ensures Multiple(G, 15) == Some(Fin(F.FE(43, 26), F.FE(43, 34), F.FE(43, 0), F.FE(43, 6)))
  {
    Order39Add15();
    MultipleStep(G, 14, Fin(F.FE(43, 29), F.FE(43, 33), F.FE(43, 0), F.FE(43, 6)));
  }

  lemma Order39Add16()
    ensures AddDefined(Fin(F.FE(43, 26), F.FE(43, 34), F.FE(43, 0), F.FE(43, 6)), AgreementG2) && Add(Fin(F.FE(43, 26), F.FE(43, 34), F.FE(43, 0), F.FE(43, 6)), AgreementG2) == Some(Fin(F.FE(43, 23), F.FE(43, 2), F.FE(43, 0), F.FE(43, 6)))
  {
    Prime43();
    ChordSum(Fin(F.FE(43, 26), F.FE(43, 34), F.FE(43, 0), F.FE(43, 6)), AgreementG2, Fin(F.FE(43, 23), F.FE(43, 2), F.FE(43, 0), F.FE(43, 6)), 43, 12);
  }

  lemma Order39Step16(G: Point)
    requires G == AgreementG2 && Multiple(G, 15) == Some(Fin(F.FE(43, 26), F.FE(43, 34), F.FE(43, 0), F.FE(43, 6)))
    ensures Multiple(G, 16) == Some(Fin(F.FE(43, 23), F.FE(43, 2), F.FE(43, 0), F.FE(43, 6)))
  {
    Order39Add16();
    MultipleStep(G, 15, Fin(F.FE(43, 26), F.FE(43, 34), F.FE(43, 0), F.FE(43, 6)));
  }

  lemma Order39Add17()
    ensures AddDefined(Fin(F.FE(43, 23), F.FE(43, 2), F.FE(43, 0), F.FE(43, 6)), AgreementG2) && Add(Fin(F.FE(43, 23), F.FE(43, 2), F.FE(43, 0), F.FE(43, 6)), AgreementG2) == Some(Fin(F.FE(43, 11), F.FE(43, 41), F.FE(43, 0), F.FE(43, 6)))
  {
    Prime43();
    ChordSum(Fin(F.FE(43, 23), F.FE(43, 2), F.FE(43, 0), F.FE(43, 6)), AgreementG2, Fin(F.FE(43, 11), F.FE(43, 41), F.FE(43, 0), F.FE(43, 6)), 43, 0);
  }

  lemma Order39Step17(G: Point)
    requires G == AgreementG2 && Multiple(G, 16) == Some(Fin(F.FE(43, 23), F.FE(43, 2), F.FE(43, 0), F.FE(43, 6)))
    ensures Multiple(G, 17) == Some(Fin(F.FE(43, 11), F.FE(43, 41), F.FE(43, 0), F.FE(43, 6)))
  {
    Order39Add17();
    MultipleStep(G, 16, Fin(F.FE(43, 23), F.FE(43, 2), F.FE(43, 0), F.FE(43, 6)));
  }

  lemma Order39Add18()
    ensures AddDefined(Fin(F.FE(43, 11), F.FE(43, 41), F.FE(43, 0), F.FE(43, 6)), AgreementG2) && Add(Fin(F.FE(43, 11), F.FE(43, 41), F.FE(43, 0), F.FE(43, 6)), AgreementG2) == Some(Fin(F.FE(43, 27), F.FE(43, 34), F.FE(43, 0), F.FE(43, 6)))
  {
    Prime43();
    ChordSum(Fin(F.FE(43, 11), F.FE(43, 41), F.FE(43, 0), F.FE(43, 6)), AgreementG2, Fin(F.FE(43, 27), F.FE(43, 34), F.FE(43, 0), F.FE(43, 6)), 43, 41);
  }

  lemma Order39Step18(G: Point)
    requires G == AgreementG2 && Multiple(G, 17) == Some(Fin(F.FE(43, 11), F.FE(43, 41), F.FE(43, 0), F.FE(43, 6)))
    ensures Multiple(G, 18) == Some(Fin(F.FE(43, 27), F.FE(43, 34), F.FE(43, 0), F.FE(43, 6)))
  {
    Order39Add18();
    MultipleStep(G, 17, Fin(F.FE(43, 11), F.FE(43, 41), F.FE(43, 0), F.FE(43, 6)));
  }

  lemma Order39Add19()
    ensures AddDefined(Fin(F.FE(43, 27), F.FE(43, 34), F.FE(43, 0), F.FE(43, 6)), AgreementG2) && Add(Fin(F.FE(43, 27), F.FE(43, 34), F.FE(43, 0), F.FE(43, 6)), AgreementG2) == Some(Fin(F.FE(43, 16), F.FE(43, 19), F.FE(43, 0), F.FE(43, 6)))
  {
    Prime43();
    ChordSum(Fin(F.FE(43, 27), F.FE(43, 34), F.FE(43, 0), F.FE(43, 6)), AgreementG2, Fin(F.FE(43, 16), F.FE(43, 19), F.FE(43, 0), F.FE(43, 6)), 43, 40);
  }

  lemma Order39Step19(G: Point)
    requires G == AgreementG2 && Multiple(G, 18) == Some(Fin(F.FE(43, 27), F.FE(43, 34), F.FE(43, 0), F.FE(43, 6)))
    ensures Multiple(G, 19) == Some(Fin(F.FE(43, 16), F.FE(43, 19), F.FE(43, 0), F.FE(43, 6)))
  {
    Order39Add19();
    MultipleStep(G, 18, Fin(F.FE(43, 27), F.FE(43, 34), F.FE(43, 0), F.FE(43, 6)));
  }

  lemma Order39Add20()
    ensures AddDefined(Fin(F.FE(43, 16), F.FE(43, 19), F.FE(43, 0), F.FE(43, 6)), AgreementG2) && Add(Fin(F.FE(43, 16), F.FE(43, 19), F.FE(43, 0), F.FE(43, 6)), AgreementG2) == Some(Fin(F.FE(43, 16), F.FE(43, 24), F.FE(43, 0), F.FE(43, 6)))
  {
    Prime43();
    ChordSum(Fin(F.FE(43, 16), F.FE(43, 19), F.FE(43, 0), F.FE(43, 6)), AgreementG2, Fin(F.FE(43, 16), F.FE(43, 24), F.FE(43, 0), F.FE(43, 6)), 43, 27);
  }

  lemma Order39Step20(G: Point)
    requires G == AgreementG2 && Multiple(G, 19) == Some(Fin(F.FE(43, 16), F.FE(43, 19), F.FE(43, 0), F.FE(43, 6)))
    ensures Multiple(G, 20) == Some(Fin(F.FE(43, 16), F.FE(43, 24), F.FE(43, 0), F.FE(43, 6)))
  {
    Order39Add20();
    MultipleStep(G, 19, Fin(F.FE(43, 16), F.FE(43, 19), F.FE(43, 0), F.FE(43, 6)));
  }

  lemma Order39Add21()
    ensures AddDefined(Fin(F.FE(43, 16), F.FE(43, 24), F.FE(43, 0), F.FE(43, 6)), AgreementG2) && Add(Fin(F.FE(43, 16), F.FE(43, 24), F.FE(43, 0), F.FE(43, 6)), AgreementG2) == Some(Fin(F.FE(43, 27), F.FE(43, 9), F.FE(43, 0), F.FE(43, 6)))
  {
    Prime43();
    ChordSum(Fin(F.FE(43, 16), F.FE(43, 24), F.FE(43, 0), F.FE(43, 6)), AgreementG2, Fin(F.FE(43, 27), F.FE(43, 9), F.FE(43, 0), F.FE(43, 6)), 43, 40);
  }

  lemma Order39Step21(G: Point)
    requires G == AgreementG2 && Multiple(G, 20) == Some(Fin(F.FE(43, 16), F.FE(43, 24), F.FE(43, 0), F.FE(43, 6)))
    ensures Multiple(G, 21) == Some(Fin(F.FE(43, 27), F.FE(43, 9), F.FE(43, 0), F.FE(43, 6)))
  {
    Order39Add21();
    MultipleStep(G, 20, Fin(F.FE(43, 16), F.FE(43, 24), F.FE(43, 0), F.FE(43, 6)));
  }

  lemma Order39Add22()
    ensures AddDefined(Fin(F.FE(43, 27), F.FE(43, 9), F.FE(43, 0), F.FE(43, 6)), AgreementG2) && Add(Fin(F.FE(43, 27), F.FE(43, 9), F.FE(43, 0), F.FE(43, 6)), AgreementG2) == Some(Fin(F.FE(43, 11), F.FE(43, 2), F.FE(43, 0), F.FE(43, 6)))
  {
    Prime43();
    ChordSum(Fin(F.FE(43, 27), F.FE(43, 9), F.FE(43, 0), F.FE(43, 6)), AgreementG2, Fin(F.FE(43, 11), F.FE(43, 2), F.FE(43, 0), F.FE(43, 6)), 43, 41);
  }

  lemma Order39Step22(G: Point)
    requires G == AgreementG2 && Multiple(G, 21) == Some(Fin(F.FE(43, 27), F.FE(43, 9), F.FE(43, 0), F.FE(43, 6)))
    ensures Multiple(G, 22) == Some(Fin(F.FE(43, 11), F.FE(43, 2), F.FE(43, 0), F.FE(43, 6)))
  {
    Order39Add22();
    MultipleStep(G, 21, Fin(F.FE(43, 27), F.FE(43, 9), F.FE(43, 0), F.FE(43, 6)));
  }

  lemma Order39Add23()
    ensures AddDefined(Fin(F.FE(43, 11), F.FE(43, 2), F.FE(43, 0), F.FE(43, 6)), AgreementG2) && Add(Fin(F.FE(43, 11), F.FE(43, 2), F.FE(43, 0), F.FE(43, 6)), AgreementG2) == Some(Fin(F.FE(43, 23), F.FE(43, 41), F.FE(43, 0), F.FE(43, 6)))
  {
    Prime43();
    ChordSum(Fin(F.FE(43, 11), F.FE(43, 2), F.FE(43, 0), F.FE(43, 6)), AgreementG2, Fin(F.FE(43, 23), F.FE(43, 41), F.FE(43, 0), F.FE(43, 6)), 43, 0);
  }

  lemma Order39Step23(G: Point)
    requires G == AgreementG2 && Multiple(G, 22) == Some(Fin(F.FE(43, 11), F.FE(43, 2), F.FE(43, 0), F.FE(43, 6)))
    ensures Multiple(G, 23) == Some(Fin(F.FE(43, 23), F.FE(43, 41), F.FE(43, 0), F.FE(43, 6)))
  {
    Order39Add23();
    MultipleStep(G, 22, Fin(F.FE(43, 11), F.FE(43, 2), F.FE(43, 0), F.FE(43, 6)));
  }

  lemma Order39Add24()
    ensures AddDefined(Fin(F.FE(43, 23), F.FE(43, 41), F.FE(43, 0), F.FE(43, 6)), AgreementG2) && Add(Fin(F.FE(43, 23), F.FE(43, 41), F.FE(43, 0), F.FE(43, 6)), AgreementG2) == Some(Fin(F.FE(43, 26), F.FE(43, 9), F.FE(43, 0), F.FE(43, 6)))
  {
    Prime43();
    ChordSum(Fin(F.FE(43, 23), F.FE(43, 41), F.FE(43, 0), F.FE(43, 6)), AgreementG2, Fin(F.FE(43, 26), F.FE(43, 9), F.FE(43, 0), F.FE(43, 6)), 43, 12);
  }

  lemma Order39Step24(G: Point)
    requires G == AgreementG2 && Multiple(G, 23) == Some(Fin(F.FE(43, 23), F.FE(43, 41), F.FE(43, 0), F.FE(43, 6)))
    ensures Multiple(G, 24) == Some(Fin(F.FE(43, 26), F.FE(43, 9), F.FE(43, 0), F.FE(43, 6)))
  {
    Order39Add24();
    MultipleStep(G, 23, Fin(F.FE(43, 23), F.FE(43, 41), F.FE(43, 0), F.FE(43, 6)));
  }

  lemma Order39Add25()
    ensures AddDefined(Fin(F.FE(43, 26), F.FE(43, 9), F.FE(43, 0), F.FE(43, 6)), AgreementG2) && Add(Fin(F.FE(43, 26), F.FE(43, 9), F.FE(43, 0), F.FE(43, 6)), AgreementG2) == Some(Fin(F.FE(43, 29), F.FE(43, 10), F.FE(43, 0), F.FE(43, 6)))
  {
    Prime43();
    ChordSum(Fin(F.FE(43, 26), F.FE(43, 9), F.FE(43, 0), F.FE(43, 6)), AgreementG2, Fin(F.FE(43, 29), F.FE(43, 10), F.FE(43, 0), F.FE(43, 6)), 43, 8);
  }

  lemma Order39Step25(G: Point)
    requires G == AgreementG2 && Multiple(G, 24) == Some(Fin(F.FE(43, 26), F.FE(43, 9), F.FE(43, 0), F.FE(43, 6)))
    ensures Multiple(G, 25) == Some(Fin(F.FE(43, 29), F.FE(43, 10), F.FE(43, 0), F.FE(43, 6)))
  {
    Order39Add25();
    MultipleStep(G, 24, Fin(F.FE(43, 26), F.FE(43, 9), F.FE(43, 0), F.FE(43, 6)));
  }

  lemma Order39Add26()
    ensures AddDefined(Fin(F.FE(43, 29), F.FE(43, 10), F.FE(43, 0), F.FE(43, 6)), AgreementG2) && Add(Fin(F.FE(43, 29), F.FE(43, 10), F.FE(43, 0), F.FE(43, 6)), AgreementG2) == Some(Fin(F.FE(43, 0), F.FE(43, 36), F.FE(43, 0), F.FE(43, 6)))
  {
    Prime43();
    ChordSum(Fin(F.FE(43, 29), F.FE(43, 10), F.FE(43, 0), F.FE(43, 6)), AgreementG2, Fin(F.FE(43, 0), F.FE(43, 36), F.FE(43, 0), F.FE(43, 6)), 43, 9);
  }

  lemma Order39Step26(G: Point)
    requires G == AgreementG2 && Multiple(G, 25) == Some(Fin(F.FE(43, 29), F.FE(43, 10), F.FE(43, 0), F.FE(43, 6)))
    ensures Multiple(G, 26) == Some(Fin(F.FE(43, 0), F.FE(43, 36), F.FE(43, 0), F.FE(43, 6)))
  {
    Order39Add26();
    MultipleStep(G, 25, Fin(F.FE(43, 29), F.FE(43, 10), F.FE(43, 0), F.FE(43, 6)));
  }

  lemma Order39Add27()
    ensures AddDefined(Fin(F.FE(43, 0), F.FE(43, 36), F.FE(43, 0), F.FE(43, 6)), AgreementG2) && Add(Fin(F.FE(43, 0), F.FE(43, 36), F.FE(43, 0), F.FE(43, 6)), AgreementG2) == Some(Fin(F.FE(43, 35), F.FE(43, 15), F.FE(43, 0), F.FE(43, 6)))
  {
    Prime43();
    ChordSum(Fin(F.FE(43, 0), F.FE(43, 36), F.FE(43, 0), F.FE(43, 6)), AgreementG2, Fin(F.FE(43, 35), F.FE(43, 15), F.FE(43, 0), F.FE(43, 6)), 43, 1);
  }

  lemma Order39Step27(G: Point)
    requires G == AgreementG2 && Multiple(G, 26) == Some(Fin(F.FE(43, 0), F.FE(43, 36), F.FE(43, 0), F.FE(43, 6)))
    ensures Multiple(G, 27) == Some(Fin(F.FE(43, 35), F.FE(43, 15), F.FE(43, 0), F.FE(43, 6)))
  {
    Order39Add27();
    MultipleStep(G, 26, Fin(F.FE(43, 0), F.FE(43, 36), F.FE(43, 0), F.FE(43, 6)));
  }

  lemma Order39Add28()
    ensures AddDefined(Fin(F.FE(43, 35), F.FE(43, 15), F.FE(43, 0), F.FE(43, 6)), AgreementG2) && Add(Fin(F.FE(43, 35), F.FE(43, 15), F.FE(43, 0), F.FE(43, 6)), AgreementG2) == Some(Fin(F.FE(43, 10), F.FE(43, 19), F.FE(43, 0), F.FE(43, 6)))
  {
    Prime43();
    ChordSum(Fin(F.FE(43, 35), F.FE(43, 15), F.FE(43, 0), F.FE(43, 6)), AgreementG2, Fin(F.FE(43, 10), F.FE(43, 19), F.FE(43, 0), F.FE(43, 6)), 43, 22);
  }

  lemma Order39Step28(G: Point)
    requires G == AgreementG2 && Multiple(G, 27) == Some(Fin(F.FE(43, 35), F.FE(43, 15), F.FE(43, 0), F.FE(43, 6)))
    ensures Multiple(G, 28) == Some(Fin(F.FE(43, 10), F.FE(43, 19), F.FE(43, 0), F.FE(43, 6)))
  {
    Order39Add28();
    MultipleStep(G, 27, Fin(F.FE(43, 35), F.FE(43, 15), F.FE(43, 0), F.FE(43, 6)));
  }

  lemma Order39Add29()
    ensures AddDefined(Fin(F.FE(43, 10), F.FE(43, 19), F.FE(43, 0), F.FE(43, 6)), AgreementG2) && Add(Fin(F.FE(43, 10), F.FE(43, 19), F.FE(43, 0), F.FE(43, 6)), AgreementG2) == Some(Fin(F.FE(43, 12), F.FE(43, 33), F.FE(43, 0), F.FE(43, 6)))
  {
    Prime43();
    ChordSum(Fin(F.FE(43, 10), F.FE(43, 19), F.FE(43, 0), F.FE(43, 6)), AgreementG2, Fin(F.FE(43, 12), F.FE(43, 33), F.FE(43, 0), F.FE(43, 6)), 43, 17);
  }

  lemma Order39Step29(G: Point)
    requires G == AgreementG2 && Multiple(G, 28) == Some(Fin(F.FE(43, 10), F.FE(43, 19), F.FE(43, 0), F.FE(43, 6)))
    ensures Multiple(G, 29) == Some(Fin(F.FE(43, 12), F.FE(43, 33), F.FE(43, 0), F.FE(43, 6)))
  {
    Order39Add29();
    MultipleStep(G, 28, Fin(F.FE(43, 10), F.FE(43, 19), F.FE(43, 0), F.FE(43, 6)));
  }

  lemma Order39Add30()
    ensures AddDefined(Fin(F.FE(43, 12), F.FE(43, 33), F.FE(43, 0), F.FE(43, 6)), AgreementG2) && Add(Fin(F.FE(43, 12), F.FE(43, 33), F.FE(43, 0), F.FE(43, 6)), AgreementG2) == Some(Fin(F.FE(43, 38), F.FE(43, 28), F.FE(43, 0), F.FE(43, 6)))
  {
    Prime43();
    ChordSum(Fin(F.FE(43, 12), F.FE(43, 33), F.FE(43, 0), F.FE(43, 6)), AgreementG2, Fin(F.FE(43, 38), F.FE(43, 28), F.FE(43, 0), F.FE(43, 6)), 43, 39);
  }

  lemma Order39Step30(G: Point)
    requires G == AgreementG2 && Multiple(G, 29) == Some(Fin(F.FE(43, 12), F.FE(43, 33), F.FE(43, 0), F.FE(43, 6)))
    ensures Multiple(G, 30) == Some(Fin(F.FE(43, 38), F.FE(43, 28), F.FE(43, 0), F.FE(43, 6)))
  {
    Order39Add30();
    MultipleStep(G, 29, Fin(F.FE(43, 12), F.FE(43, 33), F.FE(43, 0), F.FE(43, 6)));
  }

  lemma Order39Add31()
    ensures AddDefined(Fin(F.FE(43, 38), F.FE(43, 28), F.FE(43, 0), F.FE(43, 6)), AgreementG2) && Add(Fin(F.FE(43, 38), F.FE(43, 28), F.FE(43, 0), F.FE(43, 6)), AgreementG2) == Some(Fin(F.FE(43, 17), F.FE(43, 19), F.FE(43, 0), F.FE(43, 6)))
  {
    Prime43();
    ChordSum(Fin(F.FE(43, 38), F.FE(43, 28), F.FE(43, 0), F.FE(43, 6)), AgreementG2, Fin(F.FE(43, 17), F.FE(43, 19), F.FE(43, 0), F.FE(43, 6)), 43, 35);
  }

  lemma Order39Step31(G: Point)
    requires G == AgreementG2 && Multiple(G, 30) == Some(Fin(F.FE(43, 38), F.FE(43, 28), F.FE(43, 0), F.FE(43, 6)))
    ensures Multiple(G, 31) == Some(Fin(F.FE(43, 17), F.FE(43, 19), F.FE(43, 0), F.FE(43, 6)))
  {
    Order39Add31();
    MultipleStep(G, 30, Fin(F.FE(43, 38), F.FE(43, 28), F.FE(43, 0), F.FE(43, 6)));
  }

  lemma Order39Add32()
    ensures AddDefined(Fin(F.FE(43, 17), F.FE(43, 19), F.FE(43, 0), F.FE(43, 6)), AgreementG2) && Add(Fin(F.FE(43, 17), F.FE(43, 19), F.FE(43, 0), F.FE(43, 6)), AgreementG2) == Some(Fin(F.FE(43, 41), F.FE(43, 16), F.FE(43, 0), F.FE(43, 6)))
  {
    Prime43();
    ChordSum(Fin(F.FE(43, 17), F.FE(43, 19), F.FE(43, 0), F.FE(43, 6)), AgreementG2, Fin(F.FE(43, 41), F.FE(43, 16), F.FE(43, 0), F.FE(43, 6)), 43, 29);
  }

  lemma Order39Step32(G: Point)
    requires G == AgreementG2 && Multiple(G, 31) == Some(Fin(F.FE(43, 17), F.FE(43, 19), F.FE(43, 0), F.FE(43, 6)))
    ensures Multiple(G, 32) == Some(Fin(F.FE(43, 41), F.FE(43, 16), F.FE(43, 0), F.FE(43, 6)))
  {
    Order39Add32();
    MultipleStep(G, 31, Fin(F.FE(43, 17), F.FE(43, 19), F.FE(43, 0), F.FE(43, 6)));
  }

  lemma Order39Add33()
    ensures AddDefined(Fin(F.FE(43, 41), F.FE(43, 16), F.FE(43, 0), F.FE(43, 6)), AgreementG2) && Add(Fin(F.FE(43, 41), F.FE(43, 16), F.FE(43, 0), F.FE(43, 6)), AgreementG2) == Some(Fin(F.FE(43, 33), F.FE(43, 9), F.FE(43, 0), F.FE(43, 6)))
  {
    Prime43();
    ChordSum(Fin(F.FE(43, 41), F.FE(43, 16), F.FE(43, 0), F.FE(43, 6)), AgreementG2, Fin(F.FE(43, 33), F.FE(43, 9), F.FE(43, 0), F.FE(43, 6)), 43, 30);
  }

  lemma Order39Step33(G: Point)
    requires G == AgreementG2 && Multiple(G, 32) == Some(Fin(F.FE(43, 41), F.FE(43, 16), F.FE(43, 0), F.FE(43, 6)))
    ensures Multiple(G, 33) == Some(Fin(F.FE(43, 33), F.FE(43, 9), F.FE(43, 0), F.FE(43, 6)))
  {
    Order39Add33();
    MultipleStep(G, 32, Fin(F.FE(43, 41), F.FE(43, 16), F.FE(43, 0), F.FE(43, 6)));
  }

  lemma Order39Add34()
    ensures AddDefined(Fin(F.FE(43, 33), F.FE(43, 9), F.FE(43, 0), F.FE(43, 6)), AgreementG2) && Add(Fin(F.FE(43, 33), F.FE(43, 9), F.FE(43, 0), F.FE(43, 6)), AgreementG2) == Some(Fin(F.FE(43, 14), F.FE(43, 27), F.FE(43, 0), F.FE(43, 6)))
  {
    Prime43();
    ChordSum(Fin(F.FE(43, 33), F.FE(43, 9), F.FE(43, 0), F.FE(43, 6)), AgreementG2, Fin(F.FE(43, 14), F.FE(43, 27), F.FE(43, 0), F.FE(43, 6)), 43, 20);
  }

  lemma Order39Step34(G: Point)
    requires G == AgreementG2 && Multiple(G, 33) == Some(Fin(F.FE(43, 33), F.FE(43, 9), F.FE(43, 0), F.FE(43, 6)))
    ensures Multiple(G, 34) == Some(Fin(F.FE(43, 14), F.FE(43, 27), F.FE(43, 0), F.FE(43, 6)))
  {
    Order39Add34();
    MultipleStep(G, 33, Fin(F.FE(43, 33), F.FE(43, 9), F.FE(43, 0), F.FE(43, 6)));
  }

  lemma Order39Add35()
    ensures AddDefined(Fin(F.FE(43, 14), F.FE(43, 27), F.FE(43, 0), F.FE(43, 6)), AgreementG2) && Add(Fin(F.FE(43, 14), F.FE(43, 27), F.FE(43, 0), F.FE(43, 6)), AgreementG2) == Some(Fin(F.FE(43, 2), F.FE(43, 33), F.FE(43, 0), F.FE(43, 6)))
  {
    Prime43();
    ChordSum(Fin(F.FE(43, 14), F.FE(43, 27), F.FE(43, 0), F.FE(43, 6)), AgreementG2, Fin(F.FE(43, 2), F.FE(43, 33), F.FE(43, 0), F.FE(43, 6)), 43, 5);
  }

  lemma Order39Step35(G: Point)
    requires G == AgreementG2 && Multiple(G, 34) == Some(Fin(F.FE(43, 14), F.FE(43, 27), F.FE(43, 0), F.FE(43, 6)))
    ensures Multiple(G, 35) == Some(Fin(F.FE(43, 2), F.FE(43, 33), F.FE(43, 0), F.FE(43, 6)))
  {
    Order39Add35();
    MultipleStep(G, 34, Fin(F.FE(43, 14), F.FE(43, 27), F.FE(43, 0), F.FE(43, 6)));
  }

  lemma Order39Add36()
    ensures AddDefined(Fin(F.FE(43, 2), F.FE(43, 33), F.FE(43, 0), F.FE(43, 6)), AgreementG2) && Add(Fin(F.FE(43, 2), F.FE(43, 33), F.FE(43, 0), F.FE(43, 6)), AgreementG2) == Some(Fin(F.FE(43, 13), F.FE(43, 28), F.FE(43, 0), F.FE(43, 6)))
  {
    Prime43();
    ChordSum(Fin(F.FE(43, 2), F.FE(43, 33), F.FE(43, 0), F.FE(43, 6)), AgreementG2, Fin(F.FE(43, 13), F.FE(43, 28), F.FE(43, 0), F.FE(43, 6)), 43, 14);
  }

  lemma Order39Step36(G: Point)
    requires G == AgreementG2 && Multiple(G, 35) == Some(Fin(F.FE(43, 2), F.FE(43, 33), F.FE(43, 0), F.FE(43, 6)))
    ensures Multiple(G, 36) == Some(Fin(F.FE(43, 13), F.FE(43, 28), F.FE(43, 0), F.FE(43, 6)))
  {
    Order39Add36();
    MultipleStep(G, 35, Fin(F.FE(43, 2), F.FE(43, 33), F.FE(43, 0), F.FE(43, 6)));
  }

  lemma Order39Add37()
    ensures AddDefined(Fin(F.FE(43, 13), F.FE(43, 28), F.FE(43, 0), F.FE(43, 6)), AgreementG2) && Add(Fin(F.FE(43, 13), F.FE(43, 28), F.FE(43, 0), F.FE(43, 6)), AgreementG2) == Some(Fin(F.FE(43, 31), F.FE(43, 27), F.FE(43, 0), F.FE(43, 6)))
  {
    Prime43();
    ChordSum(Fin(F.FE(43, 13), F.FE(43, 28), F.FE(43, 0), F.FE(43, 6)), AgreementG2, Fin(F.FE(43, 31), F.FE(43, 27), F.FE(43, 0), F.FE(43, 6)), 43, 28);
  }

  lemma Order39Step37(G: Point)
    requires G == AgreementG2 && Multiple(G, 36) == Some(Fin(F.FE(43, 13), F.FE(43, 28), F.FE(43, 0), F.FE(43, 6)))
    ensures Multiple(G, 37) == Some(Fin(F.FE(43, 31), F.FE(43, 27), F.FE(43, 0), F.FE(43, 6)))
  {
    Order39Add37();
    MultipleStep(G, 36, Fin(F.FE(43, 13), F.FE(43, 28), F.FE(43, 0), F.FE(43, 6)));
  }

  lemma Order39Add38()
    ensures AddDefined(Fin(F.FE(43, 31), F.FE(43, 27), F.FE(43, 0), F.FE(43, 6)), AgreementG2) && Add(Fin(F.FE(43, 31), F.FE(43, 27), F.FE(43, 0), F.FE(43, 6)), AgreementG2) == Some(Fin(F.FE(43, 9), F.FE(43, 41), F.FE(43, 0), F.FE(43, 6)))
  {
    Prime43();
    ChordSum(Fin(F.FE(43, 31), F.FE(43, 27), F.FE(43, 0), F.FE(43, 6)), AgreementG2, Fin(F.FE(43, 9), F.FE(43, 41), F.FE(43, 0), F.FE(43, 6)), 43, 7);
  }

  lemma Order39Step38(G: Point)
    requires G == AgreementG2 && Multiple(G, 37) == Some(Fin(F.FE(43, 31), F.FE(43, 27), F.FE(43, 0), F.FE(43, 6)))
    ensures Multiple(G, 38) == Some(Fin(F.FE(43, 9), F.FE(43, 41), F.FE(43, 0), F.FE(43, 6)))
  {
    Order39Add38();
    MultipleStep(G, 37, Fin(F.FE(43, 31), F.FE(43, 27), F.FE(43, 0), F.FE(43, 6)));
  }

  lemma Order39Step39(G: Point)
    requires G == AgreementG2 && Multiple(G, 38) == Some(Fin(F.FE(43, 9), F.FE(43, 41), F.FE(43, 0), F.FE(43, 6)))
    ensures Multiple(G, 39) == Some(Inf(F.FE(43, 0), F.FE(43, 6)))
  {
    assert CaseOf(Fin(F.FE(43, 9), F.FE(43, 41), F.FE(43, 0), F.FE(43, 6)), G) == Vertical;
    MultipleStep(G, 38, Fin(F.FE(43, 9), F.FE(43, 41), F.FE(43, 0), F.FE(43, 6)));
  }

  /** The multiples 1 to 39 of AgreementG2, one addition at a time. */
  lemma Order39Prefix(G: Point)
    requires G == AgreementG2
    ensures Multiple(G, 1) == Some(Fin(F.FE(43, 9), F.FE(43, 2), F.FE(43, 0), F.FE(43, 6)))
    ensures Multiple(G, 2) == Some(Fin(F.FE(43, 31), F.FE(43, 16), F.FE(43, 0), F.FE(43, 6)))
    ensures Multiple(G, 3) == Some(Fin(F.FE(43, 13), F.FE(43, 15), F.FE(43, 0), F.FE(43, 6)))
    ensures Multiple(G, 4) == Some(Fin(F.FE(43, 2), F.FE(43, 10), F.FE(43, 0), F.FE(43, 6)))
    ensures Multiple(G, 5) == Some(Fin(F.FE(43, 14), F.FE(43, 16), F.FE(43, 0), F.FE(43, 6)))
    ensures Multiple(G, 6) == Some(Fin(F.FE(43, 33), F.FE(43, 34), F.FE(43, 0), F.FE(43, 6)))
    ensures Multiple(G, 7) == Some(Fin(F.FE(43, 41), F.FE(43, 27), F.FE(43, 0), F.FE(43, 6)))
    ensures Multiple(G, 8) == Some(Fin(F.FE(43, 17), F.FE(43, 24), F.FE(43, 0), F.FE(43, 6)))
    ensures Multiple(G, 9) == Some(Fin(F.FE(43, 38), F.FE(43, 15), F.FE(43, 0), F.FE(43, 6)))
    ensures Multiple(G, 10) == Some(Fin(F.FE(43, 12), F.FE(43, 10), F.FE(43, 0), F.FE(43, 6)))
    ensures Multiple(G, 11) == Some(Fin(F.FE(43, 10), F.FE(43, 24), F.FE(43, 0), F.FE(43, 6)))
    ensures Multiple(G, 12) == Some(Fin(F.FE(43, 35), F.FE(43, 28), F.FE(43, 0), F.FE(43, 6)))
    ensures Multiple(G, 13) == Some(Fin(F.FE(43, 0), F.FE(43, 7), F.FE(43, 0), F.FE(43, 6)))
    ensures Multiple(G, 14) == Some(Fin(F.FE(43, 29), F.FE(43, 33), F.FE(43, 0), F.FE(43, 6)))
    ensures Multiple(G, 15) == Some(Fin(F.FE(43, 26), F.FE(43, 34), F.FE(43, 0), F.FE(43, 6)))
    ensures Multiple(G, 16) == Some(Fin(F.FE(43, 23), F.FE(43, 2), F.FE(43, 0), F.FE(43, 6)))
    ensures Multiple(G, 17) == Some(Fin(F.FE(43, 11), F.FE(43, 41), F.FE(43, 0), F.FE(43, 6)))
    ensures Multiple(G, 18) == Some(Fin(F.FE(43, 27), F.FE(43, 34), F.FE(43, 0), F.FE(43, 6)))
    ensures Multiple(G, 19) == Some(Fin(F.FE(43, 16), F.FE(43, 19), F.FE(43, 0), F.FE(43, 6)))
    ensures Multiple(G, 20) == Some(Fin(F.FE(43, 16), F.FE(43, 24), F.FE(43, 0), F.FE(43, 6)))
    ensures Multiple(G, 21) == Some(Fin(F.FE(43, 27), F.FE(43, 9), F.FE(43, 0), F.FE(43, 6)))
    ensures Multiple(G, 22) == Some(Fin(F.FE(43, 11), F.FE(43, 2), F.FE(43, 0), F.FE(43, 6)))
    ensures Multiple(G, 23) == Some(Fin(F.FE(43, 23), F.FE(43, 41), F.FE(43, 0), F.FE(43, 6)))
    ensures Multiple(G, 24) == Some(Fin(F.FE(43, 26), F.FE(43, 9), F.FE(43, 0), F.FE(43, 6)))
    ensures Multiple(G, 25) == Some(Fin(F.FE(43, 29), F.FE(43, 10), F.FE(43, 0), F.FE(43, 6)))
    ensures Multiple(G, 26) == Some(Fin(F.FE(43, 0), F.FE(43, 36), F.FE(43, 0), F.FE(43, 6)))
    ensures Multiple(G, 27) == Some(Fin(F.FE(43, 35), F.FE(43, 15), F.FE(43, 0), F.FE(43, 6)))
    ensures Multiple(G, 28) == Some(Fin(F.FE(43, 10), F.FE(43, 19), F.FE(43, 0), F.FE(43, 6)))
    ensures Multiple(G, 29) == Some(Fin(F.FE(43, 12), F.FE(43, 33), F.FE(43, 0), F.FE(43, 6)))
    ensures Multiple(G, 30) == Some(Fin(F.FE(43, 38), F.FE(43, 28), F.FE(43, 0), F.FE(43, 6)))
    ensures Multiple(G, 31) == Some(Fin(F.FE(43, 17), F.FE(43, 19), F.FE(43, 0), F.FE(43, 6)))
    ensures Multiple(G, 32) == Some(Fin(F.FE(43, 41), F.FE(43, 16), F.FE(43, 0), F.FE(43, 6)))
    ensures Multiple(G, 33) == Some(Fin(F.FE(43, 33), F.FE(43, 9), F.FE(43, 0), F.FE(43, 6)))
    ensures Multiple(G, 34) == Some(Fin(F.FE(43, 14), F.FE(43, 27), F.FE(43, 0), F.FE(43, 6)))
    ensures Multiple(G, 35) == Some(Fin(F.FE(43, 2), F.FE(43, 33), F.FE(43, 0), F.FE(43, 6)))
    ensures Multiple(G, 36) == Some(Fin(F.FE(43, 13), F.FE(43, 28), F.FE(43, 0), F.FE(43, 6)))
    ensures Multiple(G, 37) == Some(Fin(F.FE(43, 31), F.FE(43, 27), F.FE(43, 0), F.FE(43, 6)))
    ensures Multiple(G, 38) == Some(Fin(F.FE(43, 9), F.FE(43, 41), F.FE(43, 0), F.FE(43, 6)))
    ensures Multiple(G, 39) == Some(Inf(F.FE(43, 0), F.FE(43, 6)))
  {
    MultipleBasics(G);
    Order39Step2(G);
    Order39Step3(G);
    Order39Step4(G);
    Order39Step5(G);
    Order39Step6(G);
    Order39Step7(G);
    Order39Step8(G);
    Order39Step9(G);
    Order39Step10(G);
    Order39Step11(G);
    Order39Step12(G);
    Order39Step13(G);
    Order39Step14(G);
    Order39Step15(G);
    Order39Step16(G);
    Order39Step17(G);
    Order39Step18(G);
    Order39Step19(G);
    Order39Step20(G);
    Order39Step21(G);
    Order39Step22(G);
    Order39Step23(G);
    Order39Step24(G);
    Order39Step25(G);
    Order39Step26(G);
    Order39Step27(G);
    Order39Step28(G);
    Order39Step29(G);
    Order39Step30(G);
    Order39Step31(G);
    Order39Step32(G);
    Order39Step33(G);
    Order39Step34(G);
    Order39Step35(G);
    Order39Step36(G);
    Order39Step37(G);
    Order39Step38(G);
    Order39Step39(G);
  }

  /** The search of `new` finds the order 39 for G2: 39 * G2 is infinity and no smaller multiple is. */
  lemma Order39Order(G: Point)
    requires G == AgreementG2
    ensures OrderSearch(G.a, G.b, G, 43, 1) == Some(39)
  {
    Order39Prefix(G);
    forall k | 1 <= k < 39
      ensures Multiple(G, k).Some? && !PEq(Multiple(G, k).value, NewInf(G.a, G.b))
    {
      if k == 1 {
      } else if k == 2 {
      } else if k == 3 {
      } else if k == 4 {
      } else if k == 5 {
      } else if k == 6 {
      } else if k == 7 {
      } else if k == 8 {
      } else if k == 9 {
      } else if k == 10 {
      } else if k == 11 {
      } else if k == 12 {
      } else if k == 13 {
      } else if k == 14 {
      } else if k == 15 {
      } else if k == 16 {
      } else if k == 17 {
      } else if k == 18 {
      } else if k == 19 {
      } else if k == 20 {
      } else if k == 21 {
      } else if k == 22 {
      } else if k == 23 {
      } else if k == 24 {
      } else if k == 25 {
      } else if k == 26 {
      } else if k == 27 {
      } else if k == 28 {
      } else if k == 29 {
      } else if k == 30 {
      } else if k == 31 {
      } else if k == 32 {
      } else if k == 33 {
      } else if k == 34 {
      } else if k == 35 {
      } else if k == 36 {
      } else if k == 37 {
      } else {
        assert k == 38;
      }
    }
    assert Misses(G.a, G.b, G, 1, 39);
    assert Hits(G.a, G.b, G, 39);
    assert SearchResult(G.a, G.b, G, 43, 1, 39);
    OrderSearchComplete(G.a, G.b, G, 43, 1, 39);
  }

  // ---------------------------------------------------------------------------
  // A key exchange on G1 with the private keys 2 and 3

  /** Bob's public key 3 * G1. */
  const BobPublicKey: Point := Fin(F.FE(43, 38), F.FE(43, 15), F.FE(43, 0), F.FE(43, 6))

  lemma BobPublicStep2(G: Point)
    requires G == BobPublicKey
    ensures Multiple(G, 2) == Some(Fin(F.FE(43, 27), F.FE(43, 34), F.FE(43, 0), F.FE(43, 6)))
  {
    Prime43();
    TangentSum(G, Fin(F.FE(43, 27), F.FE(43, 34), F.FE(43, 0), F.FE(43, 6)), 43, 24);
    MultipleBasics(G);
  }

  /** Alice's public key 2 * G1. */
  const AlicePublicKey: Point := Fin(F.FE(43, 33), F.FE(43, 34), F.FE(43, 0), F.FE(43, 6))

  lemma AlicePublicStep2(G: Point)
    requires G == AlicePublicKey
    ensures Multiple(G, 2) == Some(Fin(F.FE(43, 35), F.FE(43, 28), F.FE(43, 0), F.FE(43, 6)))
  {
    Prime43();
    TangentSum(G, Fin(F.FE(43, 35), F.FE(43, 28), F.FE(43, 0), F.FE(43, 6)), 43, 12);
    MultipleBasics(G);
  }

  lemma AlicePublicAdd3()
    ensures AddDefined(Fin(F.FE(43, 35), F.FE(43, 28), F.FE(43, 0), F.FE(43, 6)), AlicePublicKey) && Add(Fin(F.FE(43, 35), F.FE(43, 28), F.FE(43, 0), F.FE(43, 6)), AlicePublicKey) == Some(Fin(F.FE(43, 27), F.FE(43, 34), F.FE(43, 0), F.FE(43, 6)))
  {
    Prime43();
    ChordSum(Fin(F.FE(43, 35), F.FE(43, 28), F.FE(43, 0), F.FE(43, 6)), AlicePublicKey, Fin(F.FE(43, 27), F.FE(43, 34), F.FE(43, 0), F.FE(43, 6)), 43, 40);
  }

  lemma AlicePublicStep3(G: Point)
    requires G == AlicePublicKey && Multiple(G, 2) == Some(Fin(F.FE(43, 35), F.FE(43, 28), F.FE(43, 0), F.FE(43, 6)))
    ensures Multiple(G, 3) == Some(Fin(F.FE(43, 27), F.FE(43, 34), F.FE(43, 0), F.FE(43, 6)))
  {
    AlicePublicAdd3();
    MultipleStep(G, 2, Fin(F.FE(43, 35), F.FE(43, 28), F.FE(43, 0), F.FE(43, 6)));
  }

  /** The public keys: 2 * G1 = (33, 34) and 3 * G1 = (38, 15). */
  lemma PublicKeys(ag: Agreement)
    requires ag.g == AgreementG1
    ensures GeneratePublicKey(ag, 2) == Some(AlicePublicKey)
    ensures GeneratePublicKey(ag, 3) == Some(BobPublicKey)
  {
    Order13Prefix(ag.g);
  }

  /** Alice computes (3 * G1) * 2 and Bob computes (2 * G1) * 3; both get (27, 34) = 6 * G1. */
  lemma SharedSecrets(ag: Agreement)
    requires ag.g == AgreementG1
    ensures GenerateSharedSecret(ag, BobPublicKey, 2) == Some(Fin(F.FE(43, 27), F.FE(43, 34), F.FE(43, 0), F.FE(43, 6)))
    ensures GenerateSharedSecret(ag, AlicePublicKey, 3) == Some(Fin(F.FE(43, 27), F.FE(43, 34), F.FE(43, 0), F.FE(43, 6)))
    ensures GenerateSharedSecret(ag, BobPublicKey, 2) == Multiple(ag.g, 6)
  {
    Order13Prefix(ag.g);
    var bob, alice := BobPublicKey, AlicePublicKey;
    BobPublicStep2(bob);
    AlicePublicStep2(alice);
    AlicePublicStep3(alice);
  }
}
