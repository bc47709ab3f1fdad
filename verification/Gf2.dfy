/**
 Polynomials over GF(2), written as the numbers whose binary digits are the coefficients. Addition is exclusive or.
 */
module Gf2 {
  import opened Bits

  /** x^16 + x^12 + x^5 + 1. */
  const CCITT: nat := 0x1_1021

  /** Polynomial multiplication: schoolbook, without carries. */
  function Times(q: nat, g: nat): nat {
    if q == 0 then 0 else Xor(2 * Times(q / 2, g), Term(q, g))
  }

  /** Divisible by the generator. */
  ghost predicate Multiple(x: nat) {
    exists q: nat :: Times(q, CCITT) == x
  }

  ghost predicate Congruent(x: nat, y: nat) {
    Multiple(Xor(x, y))
  }

  lemma XorFour(a: nat, b: nat, c: nat, d: nat)
    ensures Xor(Xor(a, b), Xor(c, d)) == Xor(Xor(a, c), Xor(b, d))
  {
    XorAssociates(a, b, Xor(c, d));
    XorAssociates(b, c, d);
    XorCommutes(b, c);
    XorAssociates(c, b, d);
    XorAssociates(a, c, Xor(b, d));
  }

  /** Xor commutes with shifting. */
  lemma {:induction false} XorShifted(x: nat, y: nat, n: nat)
    ensures Xor(Pow2(n) * x, Pow2(n) * y) == Pow2(n) * Xor(x, y)
  {
    hide Xor;
    if n > 0 {
      var p := Pow2(n - 1);
      assert Pow2(n) == 2 * p;
      XorShifted(x, y, n - 1);
      hide Pow2;
      TwiceProduct(p, x);
      TwiceProduct(p, y);
      TwiceProduct(p, Xor(x, y));
      XorTwofold(p * x, p * y);
    }
  }

  lemma XorTwofold(x: nat, y: nat)
    ensures Xor(2 * x, 2 * y) == 2 * Xor(x, y)
  {
    hide Xor;
    XorHalves(2 * x, 2 * y);
    FromHalves(Xor(2 * x, 2 * y), 2 * Xor(x, y));
  }

  function Term(q: nat, g: nat): nat {
    if q % 2 == 1 then g else 0
  }

  lemma TimesStep(q: nat, g: nat)
    ensures Times(q, g) == Xor(2 * Times(q / 2, g), Term(q, g))
  {}

  lemma TermAdds(p: nat, q: nat, g: nat)
    ensures Term(Xor(p, q), g) == Xor(Term(p, g), Term(q, g))
  {
    hide Xor;
    XorHalves(p, q);
    SumParity(p, q);
    XorSelf(g);
    XorZero(g);
    XorZero(0);
  }

  lemma SumParity(p: nat, q: nat)
    ensures (p + q) % 2 == if p % 2 == q % 2 then 0 else 1
  {}

  lemma {:induction false} TimesAdds(p: nat, q: nat, g: nat)
    ensures Times(Xor(p, q), g) == Xor(Times(p, g), Times(q, g))
    decreases p + q
  {
    if p != 0 && q != 0 {
      hide Xor, Times, Term;
      TimesAdds(p / 2, q / 2, g);
      XorHalves(p, q);
      TermAdds(p, q, g);
      TimesStep(Xor(p, q), g);
      TimesStep(p, g);
      TimesStep(q, g);
      var a, b := Times(p / 2, g), Times(q / 2, g);
      XorTwofold(a, b);
      XorFour(2 * a, Term(p, g), 2 * b, Term(q, g));
    }
  }

  lemma XorZero(a: nat)
    ensures Xor(a, 0) == Xor(0, a) == a
  {}

  lemma TimesDoubled(q: nat, g: nat)
    ensures Times(2 * q, g) == 2 * Times(q, g)
  {}

  /** A product is at least as long as the generator. */
  lemma {:induction false} TimesLong(q: nat)
    requires q > 0
    ensures Times(q, CCITT) >= 0x1_0000
  {
    if q > 1 {
      TimesLong(q / 2);
      var a, b := 2 * Times(q / 2, CCITT), Term(q, CCITT);
      if Xor(a, b) < 0x2_0000 {
        Pow2Word();
        assert Pow2(17) == 0x2_0000;
        XorBelow(Xor(a, b), b, 17);
        XorTwice(a, b);
      }
    } else {
      assert Times(1, CCITT) == CCITT;
    }
  }

  lemma ZeroMultiple()
    ensures Multiple(0)
  {
    assert Times(0, CCITT) == 0;
  }

  lemma ShortMultiple(x: nat)
    requires Multiple(x) && x < 0x1_0000
    ensures x == 0
  {
    var q: nat :| Times(q, CCITT) == x;
    if q > 0 { TimesLong(q); }
  }

  lemma SumMultiple(x: nat, y: nat)
    requires Multiple(x) && Multiple(y)
    ensures Multiple(Xor(x, y))
  {
    var p: nat :| Times(p, CCITT) == x;
    var q: nat :| Times(q, CCITT) == y;
    TimesAdds(p, q, CCITT);
  }

  /** x does not divide the generator, so it can be cancelled. */
  /** The generator is odd, so an even multiple has an even factor. */
  lemma HalfFactor(q: nat, x: nat)
    requires Times(q, CCITT) == 2 * x
    ensures Times(q / 2, CCITT) == x
  {
    hide Xor, Times;
    TimesStep(q, CCITT);
    var half := Times(q / 2, CCITT);
    XorHalves(2 * half, Term(q, CCITT));
    assert Term(q, CCITT) == 0;
    XorZero(2 * half);
  }

  lemma DoubledMultiple(x: nat)
    ensures Multiple(2 * x) <==> Multiple(x)
  {
    if Multiple(x) {
      var q: nat :| Times(q, CCITT) == x;
      TimesDoubled(q, CCITT);
    }
    if Multiple(2 * x) {
      var q: nat :| Times(q, CCITT) == 2 * x;
      HalfFactor(q, x);
    }
  }

  lemma {:induction false} ShiftedMultiple(x: nat, n: nat)
    ensures Multiple(Pow2(n) * x) <==> Multiple(x)
  {
    if n > 0 {
      ShiftedMultiple(x, n - 1);
      DoubledMultiple(Pow2(n - 1) * x);
      assert Pow2(n) * x == 2 * (Pow2(n - 1) * x) by { TwiceProduct(Pow2(n - 1), x); }
    }
  }

  lemma CongruentSwap(x: nat, y: nat)
    requires Congruent(x, y)
    ensures Congruent(y, x)
  {
    XorCommutes(x, y);
  }

  lemma CongruentChain(x: nat, y: nat, z: nat)
    requires Congruent(x, y) && Congruent(y, z)
    ensures Congruent(x, z)
  {
    SumMultiple(Xor(x, y), Xor(y, z));
    XorAssociates(x, y, Xor(y, z));
    XorAssociates(y, y, z);
    XorSelf(y);
    XorZero(z);
  }

  lemma CongruentShifted(x: nat, y: nat, n: nat)
    ensures Congruent(Pow2(n) * x, Pow2(n) * y) <==> Congruent(x, y)
  {
    XorShifted(x, y, n);
    ShiftedMultiple(Xor(x, y), n);
  }

  lemma CongruentAdd(x: nat, y: nat, z: nat)
    requires Congruent(x, y)
    ensures Congruent(Xor(x, z), Xor(y, z))
  {
    XorFour(x, z, y, z);
    XorSelf(z);
    XorZero(Xor(x, y));
  }

  /** Remainders modulo the generator are unique. */
  lemma RemainderUnique(r: nat, s: nat)
    requires r < 0x1_0000 && s < 0x1_0000 && Congruent(r, s)
    ensures r == s
  {
    Pow2Word();
    XorBelow(r, s, 16);
    ShortMultiple(Xor(r, s));
    XorSelf(s);
    XorCancels(r, s, s);
  }
}
