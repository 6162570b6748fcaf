/** 64 bit modular power (luajit/lj_carith.c). */
module Carith {

  const M := 0x1_0000_0000_0000_0000  // 2^64

  type u64 = x: int | 0 <= x < 0x1_0000_0000_0000_0000
  type i64 = x: int | -0x8000_0000_0000_0000 <= x < 0x8000_0000_0000_0000

  /** x to the power of k, over the integers. */
  function Pow(x: int, k: nat): int { if k == 0 then 1 else x * Pow(x, k - 1) }

  /** a and b are the same 64 bit pattern. */
  ghost predicate Same(a: int, b: int) { exists q: int :: a == b + M * q }

  lemma SameMul(a: int, b: int, c: int, d: int)
    requires Same(a, b) && Same(c, d)
    ensures Same(a * c, b * d)
  {
    var p: int :| a == b + M * p;
    var q: int :| c == d + M * q;
    var r := b * q + p * d + M * p * q;
    calc {
      a * c;
      (b + M * p) * (d + M * q);
      b * d + b * (M * q) + (M * p) * d + (M * p) * (M * q);
      { assert b * (M * q) == M * (b * q); assert (M * p) * d == M * (p * d); assert (M * p) * (M * q) == M * (M * p * q); }
      b * d + (M * (b * q) + M * (p * d) + M * (M * p * q));
      b * d + M * r;
    }
  }

  lemma SameWrapped(a: int)
    ensures Same(a % M, a) && Same(a, a)
  {
    assert a % M == a + M * -(a / M);
    assert a == a + M * 0;
  }

  lemma SameTrans(a: int, b: int, c: int)
    requires Same(a, b) && Same(b, c)
    ensures Same(a, c)
  {
    var p: int :| a == b + M * p;
    var q: int :| b == c + M * q;
    assert a == c + M * (p + q);
  }

  lemma {:induction false} SamePow(a: int, b: int, k: nat)
    requires Same(a, b)
    ensures Same(Pow(a, k), Pow(b, k))
  {
    if k == 0 {
      SameWrapped(1);
    } else {
      SamePow(a, b, k - 1);
      SameMul(a, b, Pow(a, k - 1), Pow(b, k - 1));
    }
  }

  /** Squaring halves the exponent. */
  lemma {:induction false} PowSquare(x: int, k: nat)
    ensures Pow(x, 2 * k) == Pow(x * x, k)
  {
    if k > 0 {
      PowSquare(x, k - 1);
      assert Pow(x, 2 * k) == x * (x * Pow(x, 2 * k - 2));
      assert x * (x * Pow(x, 2 * k - 2)) == (x * x) * Pow(x, 2 * k - 2);
    }
  }

  /** The product y * x^k stays the same pattern when x is squared (with wrap-around), the lowest
      bit of k moves into y, and k is halved. */
  lemma PowStep(n: int, y: int, x: int, k: nat, y1: int, x1: int)
    requires Same(n, y * Pow(x, k)) && x1 == x * x % M
    requires y1 == if k % 2 == 1 then y * x % M else y
    ensures Same(n, y1 * Pow(x1, k / 2))
  {
    var h := k / 2;
    var y0 := if k % 2 == 1 then y * x else y;
    assert y * Pow(x, k) == y0 * Pow(x * x, h) by {
      PowSquare(x, h);
      if k % 2 == 1 {
        assert Pow(x, k) == x * Pow(x, 2 * h);
        assert y * (x * Pow(x, 2 * h)) == (y * x) * Pow(x, 2 * h);
      }
    }
    SameWrapped(x * x);
    SamePow(x1, x * x, h);
    SameWrapped(y0);
    SameSym(y1, y0);
    SameSym(Pow(x1, h), Pow(x * x, h));
    SameMul(y0, y1, Pow(x * x, h), Pow(x1, h));
    SameTrans(n, y0 * Pow(x * x, h), y1 * Pow(x1, h));
  }

  lemma SameSym(a: int, b: int)
    requires Same(a, b)
    ensures Same(b, a)
  {
    var q: int :| a == b + M * q;
    assert b == a + M * -q;
  }

  lemma SameUnique(a: u64, b: int)
    requires Same(a, b)
    ensures a == b % M
  {
    var q: int :| a == b + M * q;
    assert b == M * -q + a;
  }

  /** `lj_carith_powu64`: the power modulo 2^64, although every product wraps around. */
  method PowU64(x0: u64, k0: u64) returns (y: u64)
    ensures y == Pow(x0, k0) % M
  {
    hide Same;
    var x, k: int := x0, k0;
    if k == 0 { return 1; }
    ghost var n := Pow(x0, k0);
    SameWrapped(n);
    while k % 2 == 0
      invariant 0 < k <= k0 && 0 <= x < M && Same(n, 1 * Pow(x, k))
      decreases k
    {
      PowStep(n, 1, x, k, 1, x * x % M);
      x := x * x % M;
      k := k / 2;
    }
    PowStep(n, 1, x, k, 1 * x % M, x * x % M);
    y := x;
    k := k / 2;
    if k != 0 {
      while true
        invariant k > 0 && 0 <= x < M && Same(n, y * Pow(x * x % M, k))
        decreases k
      {
        x := x * x % M;
        PowStep(n, y, x, k, if k % 2 == 1 then y * x % M else y, x * x % M);
        if k == 1 { break; }
        if k % 2 == 1 { y := y * x % M; }
        k := k / 2;
      }
      y := y * x % M;
    }
    assert y * Pow(x * x % M, 0) == y;
    SameSym(n, y);
    SameUnique(y, n);
  }

  function ToU64(x: i64): u64 { if x < 0 then x + M else x }
  function ToI64(x: u64): i64 { if x >= 0x8000_0000_0000_0000 then x - M else x }

  /** Division that rounds towards zero, as in C. */
  function TruncDiv(a: int, b: int): int
    requires b != 0
  {
    if a >= 0 then (if b > 0 then a / b else -(a / -b)) else if b > 0 then -(-a / b) else -a / -b
  }

  lemma {:induction false} PowNonzero(x: int, k: nat)
    requires x != 0
    ensures Pow(x, k) != 0
    ensures x == 1 ==> Pow(x, k) == 1
    ensures x == -1 ==> Pow(x, k) == if k % 2 == 0 then 1 else -1
    ensures (x >= 2 || x <= -2) && k > 0 ==> Pow(x, k) >= 2 || Pow(x, k) <= -2
  {
    if k > 0 {
      PowNonzero(x, k - 1);
      var p := Pow(x, k - 1);
      if x >= 2 || x <= -2 {
        if p >= 1 && x >= 2 { assert x * p >= 2 * 1; }
        if p >= 1 && x <= -2 { assert -x * p >= 2 * 1; assert x * p == -(-x * p); }
        if p <= -1 && x >= 2 { assert x * -p >= 2 * 1; assert x * p == -(x * -p); }
        if p <= -1 && x <= -2 { assert -x * -p >= 2 * 1; assert x * p == -x * -p; }
      }
    }
  }

  /** `lj_carith_powi64`: for k >= 0 the two's complement of the power; for k < 0 the quotient
      1 / x^-k rounded towards zero, and the largest number if x is zero. */
  method PowI64(x: i64, k: i64) returns (r: i64)
    ensures k >= 0 ==> (r - Pow(x, k)) % M == 0
    ensures k < 0 && x != 0 ==> Pow(x, -(k as int)) != 0 && r == TruncDiv(1, Pow(x, -(k as int)))
    ensures k < 0 && x == 0 ==> r == 0x7fff_ffff_ffff_ffff
  {
    if k == 0 { return 1; }
    if k < 0 {
      if x != 0 { PowNonzero(x, -(k as int)); }
      if x == 0 {
        return 0x7fff_ffff_ffff_ffff;
      } else if x == 1 {
        return 1;
      } else if x == -1 {
        return if k % 2 == 1 then -1 else 1;
      } else {
        return 0;
      }
    }
    var y := PowU64(ToU64(x), k);
    r := ToI64(y);
    assert Same(ToU64(x), x) by { assert ToU64(x) == x + M * (if x < 0 then 1 else 0); }
    SamePow(ToU64(x), x, k);
    SameWrapped(Pow(ToU64(x), k));
    SameTrans(y, Pow(ToU64(x), k), Pow(x, k));
    var q: int :| y == Pow(x, k) + M * q;
    assert r - Pow(x, k) == M * (if r == y then q else q - 1);
  }
}
