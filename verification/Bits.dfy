/** 64-bit words as natural numbers: wrapping, bitwise and, and rounding up with a mask. */
module Bits {

  const WORD: nat := 0x1_0000_0000_0000_0000

  function Wrap(x: int): (w: nat)
    ensures w < WORD && (0 <= x < WORD ==> w == x)
  {
    x % WORD
  }

  function Pow2(k: nat): (p: nat)
    ensures p > 0
  {
    if k == 0 then 1 else 2 * Pow2(k - 1)
  }

  /** Bitwise and. */
  function And(a: nat, b: nat): nat {
    if a == 0 || b == 0 then 0
    else 2 * And(a / 2, b / 2) + (if a % 2 == 1 && b % 2 == 1 then 1 else 0)
  }

  /** Bitwise complement of a word. */
  function Not(x: nat): nat
    requires x < WORD
  {
    WORD - 1 - x
  }

  predicate IsPowerOf2(a: nat) {
    exists k: nat :: k < 64 && a == Pow2(k)
  }

  lemma {:induction false} MultiplesApart(m: nat, a: nat, b: nat)
    ensures a < b ==> m * a + m <= m * b
    decreases b
  {
    if a < b {
      MultiplesApart(m, a, b - 1);
      assert m * b == m * (b - 1) + m;
    }
  }

  lemma {:induction false} QuotientUnique(x: nat, m: nat, d: nat, e: nat)
    requires m > 0 && x == m * d + e && e < m
    ensures x / m == d && x % m == e
  {
    var d2, e2 := x / m, x % m;
    assert x == m * d2 + e2;
    MultiplesApart(m, d, d2);
    MultiplesApart(m, d2, d);
  }

  /** Halving a remainder. */
  lemma {:induction false} HalfRemainder(x: nat, m: nat)
    requires m > 0
    ensures x % (2 * m) == 2 * ((x / 2) % m) + x % 2
  {
    var q, r := x / 2, x % 2;
    var d, e := q / m, q % m;
    assert q == m * d + e;
    assert 2 * (m * d) == (2 * m) * d;
    QuotientUnique(x, 2 * m, d, 2 * e + r);
  }

  /** Anding with the bits from `k` up clears the bits below `k`. */
  lemma {:induction false} MaskClears(x: nat, n: nat, k: nat)
    requires k <= n && x < Pow2(n)
    ensures Pow2(k) <= Pow2(n) && And(x, Pow2(n) - Pow2(k)) == x - x % Pow2(k)
    decreases n
  {
    if n == 0 {
    } else if k == 0 {
      AllOnes(x, n);
    } else {
      var mask := Pow2(n) - Pow2(k);
      assert mask / 2 == Pow2(n - 1) - Pow2(k - 1) && mask % 2 == 0;
      MaskClears(x / 2, n - 1, k - 1);
      HalfRemainder(x, Pow2(k - 1));
    }
  }

  lemma {:induction false} AllOnes(x: nat, n: nat)
    requires x < Pow2(n)
    ensures And(x, Pow2(n) - 1) == x
  {
    if n > 0 && x > 0 {
      var mask := Pow2(n) - 1;
      assert mask / 2 == Pow2(n - 1) - 1 && mask % 2 == 1;
      AllOnes(x / 2, n - 1);
    }
  }

  lemma {:induction false} WordIsPow64()
    ensures Pow2(64) == WORD
  {
    hide Pow2;
    EightMore(0);
    EightMore(8);
    EightMore(16);
    EightMore(24);
    EightMore(32);
    EightMore(40);
    EightMore(48);
    EightMore(56);
    PowZero();
  }

  lemma PowZero()
    ensures Pow2(0) == 1
  {
  }

  lemma {:induction false} EightMore(k: nat)
    ensures Pow2(k + 8) == 256 * Pow2(k)
  {
    FourMore(k);
    FourMore(k + 4);
  }

  lemma {:induction false} FourMore(k: nat)
    ensures Pow2(k + 4) == 16 * Pow2(k)
  {
    assert Pow2(k + 2) == 2 * Pow2(k + 1) == 4 * Pow2(k);
  }

  lemma {:induction false} PowersGrow(k: nat, n: nat)
    requires k < n
    ensures Pow2(k) < Pow2(n)
  {
    if k < n - 1 { PowersGrow(k, n - 1); }
  }

  /** The first multiple of `align` that is not below `x`. */
  function RoundUp(x: nat, align: nat): (r: nat)
    requires align > 0
    ensures x <= r < x + align
  {
    x + (align - 1) - (x + (align - 1)) % align
  }

  /** Masking `x + (align - 1)` rounds `x` up to a multiple of a power of two. */
  lemma {:induction false} MaskRoundsUp(x: nat, align: nat)
    requires IsPowerOf2(align) && x + (align - 1) < WORD
    ensures align - 1 < WORD && And(x + (align - 1), Not(align - 1)) == RoundUp(x, align)
    ensures RoundUp(x, align) % align == 0
    ensures forall r: nat :: x <= r && r % align == 0 ==> RoundUp(x, align) <= r
  {
    hide And;
    var k: nat :| k < 64 && align == Pow2(k);
    WordIsPow64();
    PowersGrow(k, 64);
    MaskClears(x + (align - 1), 64, k);
    assert Not(align - 1) == Pow2(64) - Pow2(k);
    RoundsToMultiple(x, align);
  }

  lemma {:induction false} RoundsToMultiple(x: nat, align: nat)
    requires align > 0
    ensures RoundUp(x, align) % align == 0
    ensures forall r: nat :: x <= r && r % align == 0 ==> RoundUp(x, align) <= r
  {
    var y, up := x + (align - 1), RoundUp(x, align);
    var d := y / align;
    assert y == align * d + y % align;
    QuotientUnique(up, align, d, 0);
    forall r: nat | x <= r && r % align == 0 ensures up <= r {
      assert r == align * (r / align);
      MultiplesApart(align, r / align, d);
    }
  }
}
