/**
 The register as a polynomial: after any message the CRC is the remainder of message(X) * X^18 modulo
 X^18 + X^5 + X^4 + 1. A polynomial over GF(2) is the finite set of the exponents it contains.
 */
module CrcPolynomial {
  import opened CrcTheory

  type Poly = set<nat>

  predicate Coef(p: Poly, i: int) { i >= 0 && i in p }

  function Add(p: Poly, q: Poly): Poly { (p - q) + (q - p) }

  function TimesX(p: Poly, k: nat): Poly { set x | x in p :: x + k }

  /** The product with the generator X^18 + X^5 + X^4 + 1. */
  function TimesG(q: Poly): Poly { Add(Add(TimesX(q, 18), TimesX(q, 5)), Add(TimesX(q, 4), q)) }

  lemma CoefAdd(p: Poly, q: Poly, i: int)
    ensures Coef(Add(p, q), i) == (Coef(p, i) != Coef(q, i))
  {
  }

  lemma CoefTimesX(p: Poly, k: nat, i: int)
    ensures Coef(TimesX(p, k), i) == Coef(p, i - k)
  {
    if Coef(p, i - k) { assert (i - k) + k in TimesX(p, k); }
  }

  lemma CoefTimesG(q: Poly, i: int)
    ensures Coef(TimesG(q), i)
         == ((Coef(q, i - 18) != Coef(q, i - 5)) != (Coef(q, i - 4) != Coef(q, i)))
  {
    hide Add, TimesX, Coef;
    CoefAdd(Add(TimesX(q, 18), TimesX(q, 5)), Add(TimesX(q, 4), q), i);
    CoefAdd(TimesX(q, 18), TimesX(q, 5), i);
    CoefAdd(TimesX(q, 4), q, i);
    CoefTimesX(q, 18, i);
    CoefTimesX(q, 5, i);
    CoefTimesX(q, 4, i);
  }

  lemma SameCoefs(p: Poly, q: Poly)
    requires forall i: nat :: Coef(p, i) == Coef(q, i)
    ensures p == q
  {
    forall i: nat ensures (i in p) == (i in q) { assert Coef(p, i) == Coef(q, i); }
  }

  function One(b: bool): Poly { if b then {0} else {} }

  /** The message, first bit highest: each further bit multiplies by X and enters at X^0. */
  function MessagePoly(bits: seq<bool>): Poly
    decreases |bits|
  {
    if bits == [] then {} else Add(TimesX(MessagePoly(bits[..|bits| - 1]), 1), One(bits[|bits| - 1]))
  }

  /** The register: bit i is the coefficient of X^(17-i). */
  function RegPoly(r: seq<bool>): Poly
    requires |r| == WIDTH
  {
    set e: nat | e < WIDTH && Term(r, e)
  }

  predicate Term(r: seq<bool>, e: nat)
    requires |r| == WIDTH && e < WIDTH
  {
    r[17 - e]
  }

  /** The quotient, bit by bit: the feedback bits. */
  function Quotient(bits: seq<bool>): Poly
    decreases |bits|
  {
    if bits == [] then {}
    else
      var m := bits[..|bits| - 1];
      Add(TimesX(Quotient(m), 1), One(Run(Zeros(WIDTH), m)[0] != bits[|bits| - 1]))
  }

  lemma CoefShiftIn(p: Poly, b: bool, i: int)
    ensures Coef(Add(TimesX(p, 1), One(b)), i) == (Coef(p, i - 1) != (b && i == 0))
  {
    hide Add, TimesX;
    CoefAdd(TimesX(p, 1), One(b), i);
    CoefTimesX(p, 1, i);
  }

  /** One step of the register, coefficient by coefficient: R' = X*R + b*X^18 + fb*G. */
  lemma CoefStep(r: seq<bool>, b: bool, i: nat)
    requires |r| == WIDTH
    ensures Coef(RegPoly(StepB(r, b)), i)
         == ((Coef(RegPoly(r), i - 1) != (b && i == 18))
             != ((r[0] != b) && (i == 18 || i == 5 || i == 4 || i == 0)))
  {
  }

  /** message * X^18 = quotient * G + register, after every message. */
  lemma {:induction false} RegisterIsRemainder(bits: seq<bool>)
    ensures TimesX(MessagePoly(bits), 18)
         == Add(TimesG(Quotient(bits)), RegPoly(Run(Zeros(WIDTH), bits)))
    decreases |bits|
  {
    if bits == [] {
      assert RegPoly(Zeros(WIDTH)) == {};
    } else {
      var n := |bits| - 1;
      var m, b := bits[..n], bits[n];
      RegisterIsRemainder(m);
      var r := Run(Zeros(WIDTH), m);
      assert bits == m + [b];
      RunAppend(Zeros(WIDTH), m, [b]);
      OneStep(r, b);
      forall i: nat
        ensures Coef(TimesX(MessagePoly(bits), 18), i)
             == Coef(Add(TimesG(Quotient(bits)), RegPoly(StepB(r, b))), i)
      {
        RemainderStep(MessagePoly(m), Quotient(m), r, b, i);
      }
      SameCoefs(TimesX(MessagePoly(bits), 18), Add(TimesG(Quotient(bits)), RegPoly(StepB(r, b))));
    }
  }

  lemma OneStep(r: seq<bool>, b: bool)
    requires |r| == WIDTH
    ensures Run(r, [b]) == StepB(r, b)
  {
    assert [b][1..] == [];
    assert Run(StepB(r, b), []) == StepB(r, b);
  }

  lemma RemainderStep(mp: Poly, q: Poly, r: seq<bool>, b: bool, i: nat)
    requires |r| == WIDTH
    requires TimesX(mp, 18) == Add(TimesG(q), RegPoly(r))
    ensures Coef(TimesX(Add(TimesX(mp, 1), One(b)), 18), i)
         == Coef(Add(TimesG(Add(TimesX(q, 1), One(r[0] != b))), RegPoly(StepB(r, b))), i)
  {
    hide Add, TimesX, TimesG, Coef, RegPoly, StepB, One;
    var fb := r[0] != b;
    var mp', q' := Add(TimesX(mp, 1), One(b)), Add(TimesX(q, 1), One(fb));
    // the left side
    CoefTimesX(mp', 18, i);
    CoefShiftIn(mp, b, i - 18);
    // the right side
    CoefAdd(TimesG(q'), RegPoly(StepB(r, b)), i);
    CoefTimesG(q', i);
    CoefShiftIn(q, fb, i - 18);
    CoefShiftIn(q, fb, i - 5);
    CoefShiftIn(q, fb, i - 4);
    CoefShiftIn(q, fb, i);
    CoefStep(r, b, i);
    // what is known one place lower
    CoefTimesX(mp, 18, i - 1);
    CoefAdd(TimesG(q), RegPoly(r), i - 1);
    CoefTimesG(q, i - 1);
  }

  lemma Highest(p: Poly) returns (m: nat)
    requires p != {}
    ensures m in p && forall x :: x in p ==> x <= m
  {
    var x :| x in p;
    if p == {x} {
      m := x;
    } else {
      var rest := p - {x};
      assert p == rest + {x};
      var h := Highest(rest);
      m := if h < x then x else h;
    }
  }

  /** Dividing by G leaves one remainder of degree below 18 and one quotient. */
  lemma DivisionIsUnique(q: Poly, r: Poly, q': Poly, r': Poly)
    requires Add(TimesG(q), r) == Add(TimesG(q'), r')
    requires (forall e :: e in r ==> e < WIDTH) && (forall e :: e in r' ==> e < WIDTH)
    ensures q == q' && r == r'
  {
    var d := Add(q, q');
    if d != {} {
      var m := Highest(d);
      CoefAdd(TimesG(q), r, m + 18);
      CoefAdd(TimesG(q'), r', m + 18);
      TopCoefDiffers(q, q', m);
      assert false;
    }
    EmptySum(q, q');
    forall i: nat ensures Coef(r, i) == Coef(r', i) {
      CoefAdd(TimesG(q), r, i);
      CoefAdd(TimesG(q'), r', i);
    }
    SameCoefs(r, r');
  }

  lemma EmptySum(q: Poly, q': Poly)
    requires Add(q, q') == {}
    ensures q == q'
  {
    forall x: nat ensures (x in q) == (x in q') {
      assert x !in Add(q, q');
    }
  }

  lemma TopCoefDiffers(q: Poly, q': Poly, m: nat)
    requires m in Add(q, q') && forall x :: x in Add(q, q') ==> x <= m
    ensures Coef(TimesG(q), m + 18) != Coef(TimesG(q'), m + 18)
  {
    CoefTimesG(q, m + 18);
    CoefTimesG(q', m + 18);
    CoefAdd(q, q', m);
    CoefAdd(q, q', m + 13);
    CoefAdd(q, q', m + 14);
    CoefAdd(q, q', m + 18);
  }

  /** The CRC of a message is the remainder of message * X^18 modulo the generator, and nothing else is. */
  lemma CrcIsTheRemainder(bits: seq<bool>, r: Poly)
    requires forall e :: e in r ==> e < WIDTH
    ensures r == RegPoly(Run(Zeros(WIDTH), bits))
       <==> exists q :: TimesX(MessagePoly(bits), 18) == Add(TimesG(q), r)
  {
    var reg := RegPoly(Run(Zeros(WIDTH), bits));
    RegisterIsRemainder(bits);
    forall q | TimesX(MessagePoly(bits), 18) == Add(TimesG(q), r)
      ensures r == reg
    {
      DivisionIsUnique(q, r, Quotient(bits), reg);
    }
  }
}
