/** Bits of natural numbers. */
module Bits {

  function Pow2(k: nat): (p: nat)
    ensures p >= 1
  {
    if k == 0 then 1 else 2 * Pow2(k - 1)
  }

  /** n >> k. */
  function Shr(n: nat, k: nat): nat
    decreases k
  {
    if k == 0 then n else Shr(n / 2, k - 1)
  }

  /** Bit k of n. */
  predicate Bit(n: nat, k: nat) { Shr(n, k) % 2 == 1 }

  /** Index of the highest set bit. */
  function Fls(n: nat): nat
    requires n > 0
  {
    if n == 1 then 0 else 1 + Fls(n / 2)
  }

  lemma {:induction false} FlsBounds(n: nat, k: nat)
    requires n > 0
    ensures Fls(n) < k <==> n < Pow2(k)
    decreases n, k
  {
    if n > 1 && k > 0 { FlsBounds(n / 2, k - 1); }
  }

  lemma {:induction false} FlsMonotone(a: nat, b: nat)
    requires 0 < a <= b
    ensures Fls(a) <= Fls(b)
  {
    if a > 1 { FlsMonotone(a / 2, b / 2); }
  }

  /** The highest set bit stands alone when the bits below it are dropped. */
  lemma {:induction false} FlsTop(n: nat)
    requires n > 0
    ensures Shr(n, Fls(n)) == 1
  {
    if n > 1 { FlsTop(n / 2); }
  }

  lemma {:induction false} ShrAdd(n: nat, j: nat, k: nat)
    ensures Shr(Shr(n, j), k) == Shr(n, j + k)
    decreases j
  {
    if j > 0 { ShrAdd(n / 2, j - 1, k); }
  }

  /** One more bit. */
  lemma ShrStep(n: nat, k: nat)
    ensures Shr(n, k + 1) == Shr(n, k) / 2 && Shr(n, k) == 2 * Shr(n, k + 1) + if Bit(n, k) then 1 else 0
  {
    ShrAdd(n, k, 1);
    assert Shr(Shr(n, k), 1) == Shr(Shr(n, k) / 2, 0);
  }

  lemma {:induction false} ShrMonotone(a: nat, b: nat, k: nat)
    ensures a <= b ==> Shr(a, k) <= Shr(b, k)
    ensures Shr(a, k) < Shr(b, k) ==> a < b
    decreases k
  {
    if k > 0 { ShrMonotone(a / 2, b / 2, k - 1); }
  }

  lemma {:induction false} ShrSmall(n: nat, k: nat)
    ensures n < Pow2(k) <==> Shr(n, k) == 0
    decreases k
  {
    if k > 0 { ShrSmall(n / 2, k - 1); }
  }

  // ---------------------------------------------------------------- sets of bits

  /** n with bit k set. */
  function Mark(n: nat, k: nat): nat
    decreases k
  {
    if k == 0 then (if n % 2 == 1 then n else n + 1) else 2 * Mark(n / 2, k - 1) + n % 2
  }

  /** n with bit k cleared. */
  function Clear(n: nat, k: nat): nat
    decreases k
  {
    if k == 0 then n / 2 * 2 else 2 * Clear(n / 2, k - 1) + n % 2
  }

  lemma {:induction false} MarkBits(n: nat, k: nat, j: nat)
    ensures Bit(Mark(n, k), j) <==> j == k || Bit(n, j)
    decreases k
  {
    if k > 0 && j > 0 {
      MarkBits(n / 2, k - 1, j - 1);
    }
  }

  lemma {:induction false} ClearBits(n: nat, k: nat, j: nat)
    ensures Bit(Clear(n, k), j) <==> j != k && Bit(n, j)
    decreases k
  {
    if k > 0 && j > 0 {
      ClearBits(n / 2, k - 1, j - 1);
    }
  }

  /** Index of the lowest set bit. */
  function Ffs(n: nat): (k: nat)
    requires n > 0
  {
    if n % 2 == 1 then 0 else 1 + Ffs(n / 2)
  }

  lemma {:induction false} FfsBit(n: nat, j: nat)
    requires n > 0
    ensures Bit(n, Ffs(n)) && (j < Ffs(n) ==> !Bit(n, j))
    decreases n
  {
    if n % 2 == 0 { FfsBit(n / 2, if j > 0 then j - 1 else 0); }
  }

  lemma {:induction false} NoBits(n: nat, k: nat)
    ensures n == 0 ==> !Bit(n, k)
    decreases k
  {
    if k > 0 { NoBits(n / 2, k - 1); }
  }

  /** n with the bits up to k cleared: `left_bits(idx2bit(k)) & n`. */
  function Above(n: nat, k: nat): nat
    decreases k
  {
    if k == 0 then n / 2 * 2 else 2 * Above(n / 2, k - 1)
  }

  lemma {:induction false} AboveBits(n: nat, k: nat, j: nat)
    ensures Bit(Above(n, k), j) <==> j > k && Bit(n, j)
    decreases k
  {
    if k > 0 && j > 0 { AboveBits(n / 2, k - 1, j - 1); }
  }

  // ---------------------------------------------------------------- 64 bit words

  const W64: nat := 0x1_0000_0000_0000_0000

  /** The highest bit of a 64 bit word. */
  predicate SignBit(k: nat) { k / 0x8000_0000_0000_0000 % 2 == 1 }

  /** n << k in 64 bits. */
  function Shl(n: nat, k: nat): nat { if k == 0 then n % W64 else Shl(n, k - 1) * 2 % W64 }

  lemma {:induction false} ShrModulo(n: nat, k: nat, j: nat)
    requires j < k
    ensures Bit(n % Pow2(k), j) <==> Bit(n, j)
    decreases j
  {
    var p := Pow2(k - 1);
    ModHalf(n, p);
    if j > 0 { ShrModulo(n / 2, k - 1, j - 1); }
  }

  lemma ModHalf(n: nat, p: nat)
    requires p > 0
    ensures n % (2 * p) / 2 == n / 2 % p && n % (2 * p) % 2 == n % 2
  {
    var q, r := n / 2 / p, n / 2 % p;
    DivMod(n / 2, p);
    DoubleProduct(p, q);
    Remainder(n, 2 * p, q, 2 * r + n % 2);
  }

  lemma Remainder(n: nat, d: nat, q: nat, r: nat)
    requires d > 0 && r < d && n == d * q + r
    ensures n % d == r && n / d == q
  {
    var e := n / d - q;
    assert n == d * (n / d) + n % d;
    assert d * (n / d) - d * q == d * e;
    assert d * e == r - n % d;
    assert e >= 1 ==> d * e >= d * 1;
    assert e <= -1 ==> d * e <= d * -1;
  }

  lemma Pow2Of64()
    ensures Pow2(64) == W64 && Pow2(63) == 0x8000_0000_0000_0000
  {
    assert Pow2(8) == 256;
    assert Pow2(16) == 0x1_0000 by { assert Pow2(12) == 0x1000; }
    assert Pow2(24) == 0x100_0000 by { assert Pow2(20) == 0x10_0000; }
    assert Pow2(32) == 0x1_0000_0000 by { assert Pow2(28) == 0x1000_0000; }
    assert Pow2(40) == 0x100_0000_0000 by { assert Pow2(36) == 0x10_0000_0000; }
    assert Pow2(48) == 0x1_0000_0000_0000 by { assert Pow2(44) == 0x1000_0000_0000; }
    assert Pow2(56) == 0x100_0000_0000_0000 by { assert Pow2(52) == 0x10_0000_0000_0000; }
    assert Pow2(60) == 0x1000_0000_0000_0000;
  }

  lemma Powers()
    ensures Pow2(6) == 0x40 && Pow2(7) == 0x80 && Pow2(14) == 0x4000 && Pow2(21) == 0x20_0000
    ensures Pow2(28) == 0x1000_0000 && Pow2(32) == 0x1_0000_0000
  {
    assert Pow2(14) == 0x4000 by { assert Pow2(10) == 0x400; }
    assert Pow2(21) == 0x20_0000 by { assert Pow2(18) == 0x4_0000; }
    assert Pow2(28) == 0x1000_0000 by { assert Pow2(25) == 0x200_0000; }
    assert Pow2(32) == 0x1_0000_0000 by { assert Pow2(28) == 0x1000_0000; }
  }

  /** After a shift to the left by k, bit 63 is what was bit 63 - k; more generally, bit j + k is
      what was bit j. */
  lemma {:induction false} ShlBits(n: nat, k: nat, j: nat)
    requires j + k < 64
    ensures Bit(Shl(n, k), j + k) <==> Bit(n, j)
    decreases k
  {
    Pow2Of64();
    if k == 0 {
      ShrModulo(n, 64, j);
    } else {
      ShlBits(n, k - 1, j);
      var x := Shl(n, k - 1);
      ShrModulo(x * 2, 64, j + k);
      assert Bit(x * 2, j + k) <==> Bit(x, j + k - 1);
    }
  }

  lemma SignIsBit63(k: nat)
    ensures SignBit(k) <==> Bit(k, 63)
  {
    Pow2Of64();
    ShrDiv(k, 63);
  }

  lemma {:induction false} ShrDiv(n: nat, k: nat)
    ensures Shr(n, k) == n / Pow2(k)
    decreases k
  {
    if k > 0 {
      ShrDiv(n / 2, k - 1);
      HalfTwice(n, Pow2(k - 1));
    }
  }

  /** Dividing by 2 and then by p. */
  lemma HalfTwice(n: nat, p: nat)
    requires p > 0
    ensures n / 2 / p == n / (2 * p)
  {
    var q, r := n / 2 / p, n / 2 % p;
    DivMod(n / 2, p);
    DoubleProduct(p, q);
    Remainder(n, 2 * p, q, 2 * r + n % 2);
  }

  lemma DivMod(n: nat, p: nat)
    requires p > 0
    ensures n == p * (n / p) + n % p && n % p < p
  {}

  lemma DoubleProduct(p: nat, q: nat)
    ensures 2 * (p * q) == (2 * p) * q
  {}
}
