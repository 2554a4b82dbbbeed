/**
 What the shift register of SMPTE ST 292-1:2012, section 5.4, computes: the remainder of the message,
 shifted up by 18, modulo X^18 + X^5 + X^4 + 1; and which errors change it. The register is a sequence
 of 18 bits whose index is the bit number; bit i stands for the coefficient of X^(17-i).
 */
module CrcTheory {

  const WIDTH: nat := 18

  function Zeros(n: nat): (z: seq<bool>)
    ensures |z| == n
  {
    seq(n, _ => false)
  }

  /** One incoming bit. */
  function StepB(r: seq<bool>, b: bool): (r': seq<bool>)
    requires |r| == WIDTH
    ensures |r'| == WIDTH
  {
    var fb := r[0] != b;
    seq(WIDTH, i requires 0 <= i < WIDTH =>
      if i == 17 then fb else if i == 12 || i == 13 then r[i + 1] != fb else r[i + 1])
  }

  /** A whole message, first bit first. */
  function Run(r: seq<bool>, bits: seq<bool>): (r': seq<bool>)
    requires |r| == WIDTH
    ensures |r'| == WIDTH
    decreases |bits|
  {
    if bits == [] then r else Run(StepB(r, bits[0]), bits[1..])
  }

  function Sum(a: seq<bool>, b: seq<bool>): (c: seq<bool>)
    requires |a| == |b|
    ensures |c| == |a|
  {
    seq(|a|, i requires 0 <= i < |a| => a[i] != b[i])
  }

  lemma {:induction false} RunAppend(r: seq<bool>, a: seq<bool>, b: seq<bool>)
    requires |r| == WIDTH
    ensures Run(r, a + b) == Run(Run(r, a), b)
    decreases |a|
  {
    if a == [] {
      assert a + b == b;
    } else {
      assert (a + b)[0] == a[0] && (a + b)[1..] == a[1..] + b;
      RunAppend(StepB(r, a[0]), a[1..], b);
    }
  }

  lemma {:induction false} RunIsLinear(r: seq<bool>, s: seq<bool>, a: seq<bool>, b: seq<bool>)
    requires |r| == WIDTH && |s| == WIDTH && |a| == |b|
    ensures Run(Sum(r, s), Sum(a, b)) == Sum(Run(r, a), Run(s, b))
    decreases |a|
  {
    if a != [] {
      assert StepB(Sum(r, s), Sum(a, b)[0]) == Sum(StepB(r, a[0]), StepB(s, b[0]));
      assert Sum(a, b)[1..] == Sum(a[1..], b[1..]);
      RunIsLinear(StepB(r, a[0]), StepB(s, b[0]), a[1..], b[1..]);
    }
  }

  /** Up to 18 bits bring the register to zero exactly when they are its own bits, lowest first. */
  lemma {:induction false} ZeroedOnlyByItself(r: seq<bool>, bits: seq<bool>)
    requires |r| == WIDTH && |bits| <= WIDTH
    ensures Run(r, bits) == Zeros(WIDTH) <==> r == bits + Zeros(WIDTH - |bits|)
    decreases |bits|
  {
    if bits != [] {
      var s, rest := StepB(r, bits[0]), bits[1..];
      ZeroedOnlyByItself(s, rest);
      var z, z' := rest + Zeros(WIDTH - |rest|), bits + Zeros(WIDTH - |bits|);
      if s == z {
        assert !s[17];
        forall i | 0 <= i < WIDTH ensures r[i] == z'[i] {
          if i > 0 { assert s[i - 1] == z[i - 1]; }
        }
      }
      if r == z' {
        assert r[0] == bits[0];
        forall i | 0 <= i < WIDTH ensures s[i] == z[i] {
          if i < 17 { assert r[i + 1] == z'[i + 1]; }
        }
      }
    }
  }

  lemma DeadOnlyFromDead(r: seq<bool>)
    requires |r| == WIDTH && StepB(r, false) == Zeros(WIDTH)
    ensures r == Zeros(WIDTH)
  {
    var s := StepB(r, false);
    assert r[0] == s[17];
    forall i | 0 < i < WIDTH ensures !r[i] {
      assert !s[i - 1];
    }
  }

  /** Without input the register never dies out. */
  lemma {:induction false} NonzeroStays(r: seq<bool>, n: nat)
    requires |r| == WIDTH && r != Zeros(WIDTH)
    ensures Run(r, Zeros(n)) != Zeros(WIDTH)
    decreases n
  {
    if n > 0 {
      assert StepB(r, false) != Zeros(WIDTH) by {
        if StepB(r, false) == Zeros(WIDTH) { DeadOnlyFromDead(r); }
      }
      assert Zeros(n)[1..] == Zeros(n - 1);
      NonzeroStays(StepB(r, false), n - 1);
    }
  }

  lemma {:induction false} ZeroStaysZero(n: nat)
    ensures Run(Zeros(WIDTH), Zeros(n)) == Zeros(WIDTH)
    decreases n
  {
    if n > 0 {
      assert StepB(Zeros(WIDTH), false) == Zeros(WIDTH);
      assert Zeros(n)[1..] == Zeros(n - 1);
      ZeroStaysZero(n - 1);
    }
  }

  lemma FirstOne(s: seq<bool>) returns (i: nat)
    requires s != Zeros(|s|)
    ensures i < |s| && s[i]
  {
    i :| 0 <= i < |s| && s[i] != Zeros(|s|)[i];
  }

  lemma SumWithItself(s: seq<bool>)
    ensures Sum(s, s) == Zeros(|s|)
  {
  }

  /** An error pattern confined to 18 consecutive places leaves a trace in the register. */
  lemma BurstLeavesTrace(before: nat, burst: seq<bool>, after: nat)
    requires |burst| <= WIDTH && burst != Zeros(|burst|)
    ensures Run(Zeros(WIDTH), Zeros(before) + burst + Zeros(after)) != Zeros(WIDTH)
  {
    var z := Zeros(WIDTH);
    RunAppend(z, Zeros(before) + burst, Zeros(after));
    RunAppend(z, Zeros(before), burst);
    ZeroStaysZero(before);
    ZeroedOnlyByItself(z, burst);
    var i := FirstOne(burst);
    assert (burst + Zeros(WIDTH - |burst|))[i] && !z[i];
    NonzeroStays(Run(z, burst), after);
  }

  /** An error pattern, cut into the burst and the zeros around it. */
  lemma BurstIsCut(m: seq<bool>, m': seq<bool>, lo: nat) returns (burst: seq<bool>, after: nat)
    requires |m| == |m'| && m != m'
    requires forall i :: 0 <= i < |m| && m[i] != m'[i] ==> lo <= i < lo + WIDTH
    ensures |burst| <= WIDTH && burst != Zeros(|burst|) && Sum(m, m') == Zeros(lo) + burst + Zeros(after)
  {
    var e := Sum(m, m');
    var k :| 0 <= k < |m| && m[k] != m'[k];
    var hi := if lo + WIDTH < |m| then lo + WIDTH else |m|;
    burst, after := e[lo..hi], |m| - hi;
    assert burst[k - lo];
    assert e == Zeros(lo) + burst + Zeros(after);
  }

  /** Every error confined to 18 consecutive bits is detected, in messages of any length. */
  lemma BurstsAreDetected(m: seq<bool>, m': seq<bool>, lo: nat)
    requires |m| == |m'| && m != m'
    requires forall i :: 0 <= i < |m| && m[i] != m'[i] ==> lo <= i < lo + WIDTH
    ensures Run(Zeros(WIDTH), m) != Run(Zeros(WIDTH), m')
  {
    hide Run, Sum, Zeros;
    var z := Zeros(WIDTH);
    var burst, after := BurstIsCut(m, m', lo);
    BurstLeavesTrace(lo, burst, after);
    RunIsLinear(z, z, m, m');
    SumWithItself(z);
    SumWithItself(Run(z, m));
  }

  /** Whether a sequence holds an odd number of ones. */
  predicate Odd(s: seq<bool>)
  {
    if s == [] then false else s[0] != Odd(s[1..])
  }

  lemma {:induction false} OddAppend(a: seq<bool>, b: seq<bool>)
    ensures Odd(a + b) == (Odd(a) != Odd(b))
    decreases |a|
  {
    if a == [] {
      assert a + b == b;
    } else {
      assert (a + b)[1..] == a[1..] + b;
      OddAppend(a[1..], b);
    }
  }

  lemma OddPair(x: bool, y: bool)
    ensures Odd([x, y]) == (x != y) && Odd([x]) == x
  {
    assert [x][1..] == [] && [y][1..] == [] && !Odd([]);
    assert Odd([x]) == x && Odd([y]) == y;
    assert [x, y][1..] == [y];
  }

  lemma StepOdd(r: seq<bool>, b: bool)
    requires |r| == WIDTH
    ensures Odd(StepB(r, b)) == (Odd(r) != b)
  {
    var s, fb := StepB(r, b), r[0] != b;
    var head, pair, tail := r[1..13], [r[13], r[14]], r[15..];
    var pair' := [r[13] != fb, r[14] != fb];
    assert r == [r[0]] + (head + (pair + tail));
    assert s == head + (pair' + (tail + [fb]));
    OddAppend([r[0]], head + (pair + tail));
    OddAppend(head, pair + tail);
    OddAppend(pair, tail);
    OddAppend(head, pair' + (tail + [fb]));
    OddAppend(pair', tail + [fb]);
    OddAppend(tail, [fb]);
    OddPair(r[13], r[14]);
    OddPair(r[13] != fb, r[14] != fb);
    OddPair(r[0], fb);
    OddPair(fb, fb);
    hide Odd;
    var rest := Odd(head) != (Odd(pair) != Odd(tail));
    assert Odd(r) == (r[0] != rest);
    assert Odd(pair') == Odd(pair);
    assert Odd(s) == (rest != fb);
  }

  /** The register's parity is the message's parity. */
  lemma {:induction false} RunOdd(r: seq<bool>, bits: seq<bool>)
    requires |r| == WIDTH
    ensures Odd(Run(r, bits)) == (Odd(r) != Odd(bits))
    decreases |bits|
  {
    if bits != [] {
      StepOdd(r, bits[0]);
      RunOdd(StepB(r, bits[0]), bits[1..]);
    }
  }

  /** So two messages whose parity differs, in particular by any odd number of errors, are told apart. */
  lemma OddErrorsAreDetected(m: seq<bool>, m': seq<bool>)
    requires Odd(m) != Odd(m')
    ensures Run(Zeros(WIDTH), m) != Run(Zeros(WIDTH), m')
  {
    RunOdd(Zeros(WIDTH), m);
    RunOdd(Zeros(WIDTH), m');
  }
}
