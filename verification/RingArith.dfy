/** Arithmetic under the tagged ring: masks, power-of-two capacities and wrapping 32-bit counters. */
module RingArith {

  /** Number of values of the C `int` counters `c.c` and `p.c`, read as a bit pattern. */
  const WRAP: nat := 0x1_0000_0000

  function Pow2(k: nat): (p: nat)
    ensures p > 0
  {
    if k == 0 then 1 else 2 * Pow2(k - 1)
  }

  /** The C operator `&` on non-negative operands, bit by bit. */
  function And(x: nat, y: nat): nat
    decreases x
  {
    if x == 0 || y == 0 then 0
    else 2 * And(x / 2, y / 2) + (if x % 2 == 1 && y % 2 == 1 then 1 else 0)
  }

  lemma ModDouble(x: nat, p: nat)
    requires p > 0
    ensures x % (2 * p) == 2 * ((x / 2) % p) + x % 2
  {
    var q, r := (x / 2) / p, (x / 2) % p;
    assert x / 2 == q * p + r;
    assert x == q * (2 * p) + (2 * r + x % 2);
    ModUnique(x, 2 * p, q, 2 * r + x % 2);
  }

  /** Division with remainder is unique. */
  lemma ModUnique(x: int, n: nat, q: int, r: nat)
    requires n > 0 && r < n && x == q * n + r
    ensures x % n == r && x / n == q
  {
    var d := q - x / n;
    assert d * n == x % n - r;
    assert d >= 1 ==> d * n >= n;
    assert d <= -1 ==> d * n + n <= 0;
  }

  /** Masking with capacity - 1 is reduction modulo the capacity, for every power of two. */
  lemma {:induction false} MaskIsMod(x: nat, k: nat)
    ensures And(x, Pow2(k) - 1) == x % Pow2(k)
    decreases k
  {
    if k == 0 {
      ModUnique(x, 1, x, 0);
    } else {
      var p, h := Pow2(k - 1), x / 2;
      assert And(h, p - 1) == h % p by { MaskIsMod(h, k - 1); }
      calc {
        x % (2 * p);
        { ModDouble(x, p); }
        2 * (h % p) + x % 2;
        2 * And(h, p - 1) + x % 2;
        { AndOddMask(x, p - 1); }
        And(x, 2 * (p - 1) + 1);
      }
    }
  }

  lemma AndOddMask(x: nat, m: nat)
    ensures And(x, 2 * m + 1) == 2 * And(x / 2, m) + x % 2
  {
    assert (2 * m + 1) / 2 == m && (2 * m + 1) % 2 == 1;
  }

  lemma {:induction false} Pow2Sum(a: nat, b: nat)
    ensures Pow2(a + b) == Pow2(a) * Pow2(b)
  {
    if a > 0 {
      Pow2Sum(a - 1, b);
      assert Pow2(a + b) == 2 * (Pow2(a - 1) * Pow2(b));
    }
  }

  lemma Pow2Wrap()
    ensures Pow2(32) == WRAP
  {
    Pow2Sum(8, 8);
    Pow2Sum(16, 16);
    assert Pow2(8) == 256;
  }

  lemma ModMod(t: nat, n: nat, m: nat)
    requires n > 0 && m > 0
    ensures (t % (n * m)) % n == t % n
  {
    var q, r := t / (n * m), t % (n * m);
    assert t == q * (n * m) + r;
    var q2, r2 := r / n, r % n;
    assert r == q2 * n + r2;
    assert t == (q * m + q2) * n + r2;
    ModUnique(t, n, q * m + q2, r2);
  }

  /** A counter that wraps at 32 bits still selects slot (true count) mod capacity. */
  lemma WrappedCounterSelectsSlot(t: nat, k: nat)
    requires k <= 32
    ensures And(t % WRAP, Pow2(k) - 1) == t % Pow2(k)
  {
    MaskIsMod(t % WRAP, k);
    Pow2Wrap();
    Pow2Sum(k, 32 - k);
    ModMod(t, Pow2(k), Pow2(32 - k));
  }

  /** Incrementing the wrapped counter is the wrapped increment of the true count. */
  lemma WrapStep(t: nat)
    ensures (t % WRAP + 1) % WRAP == (t + 1) % WRAP
  {
  }

  /** The slot of a position that never wraps: positions are laid out lap after lap. */
  function Slot(i: nat, n: nat): (slot: nat)
    requires n > 0
    ensures slot < n
    decreases i
  {
    if i < n then i else Slot(i - n, n)
  }

  lemma {:induction false} SlotIsMod(i: nat, n: nat)
    requires n > 0
    ensures Slot(i, n) == i % n
    decreases i
  {
    if i < n {
      ModUnique(i, n, 0, i);
    } else {
      SlotIsMod(i - n, n);
      ModUnique(i, n, (i - n) / n + 1, (i - n) % n);
    }
  }

  /** Two positions less than a lap apart never share a slot. */
  lemma {:induction false} SlotsDistinct(i: nat, j: nat, n: nat)
    requires n > 0 && i < j < i + n
    ensures Slot(i, n) != Slot(j, n)
    decreases i
  {
    if i >= n { SlotsDistinct(i - n, j - n, n); }
  }

  /** Every slot is the slot of exactly one position of a lap. */
  lemma {:induction false} SlotOfWindow(slot: nat, g: nat, n: nat) returns (i: nat)
    requires n > 0 && slot < n
    ensures g <= i < g + n && Slot(i, n) == slot
    decreases g
  {
    if g >= n {
      i := SlotOfWindow(slot, g - n, n);
      i := i + n;
    } else {
      i := if slot >= g then slot else slot + n;
    }
  }
}
