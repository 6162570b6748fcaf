/** The bytes of memory: words are little-endian (luajit/lj_alloc.c copies blocks with `memcpy`). */
module AllocBytes {
  import opened Bits
  import opened AllocMem

  /** The weight of byte j of a word. */
  function Weight(j: nat): nat { Pow2(8 * j) }

  /** The first k bytes of a word. */
  function Low(w: int, k: nat): int { w % Weight(k) }

  /** Byte j of a word. */
  function ByteOf(w: int, j: nat): (b: int)
    ensures 0 <= b < 256
  {
    w / Weight(j) % 256
  }

  /** A word with byte j replaced. */
  function PutByte(w: int, j: nat, v: int): int { w + (v - ByteOf(w, j)) * Weight(j) }

  // ---------------------------------------------------------------- arithmetic

  lemma {:induction false} PowSum(i: nat, j: nat)
    ensures Pow2(i + j) == Pow2(i) * Pow2(j)
    decreases i
  {
    if i > 0 {
      PowSum(i - 1, j);
      var a, b := Pow2(i - 1), Pow2(j);
      assert (2 * a) * b == 2 * (a * b);
    }
  }

  lemma WeightSum(i: nat, j: nat)
    ensures Weight(i + j) == Weight(i) * Weight(j) && Weight(i) >= 1
  {
    PowSum(8 * i, 8 * j);
    assert 8 * (i + j) == 8 * i + 8 * j;
  }

  lemma WeightNext(j: nat)
    ensures Weight(j + 1) == Weight(j) * 256
  {
    WeightSum(j, 1);
    assert Pow2(8) == 256;
  }

  /** Quotient and remainder are unique, for negative numbers too. */
  lemma Quotient(x: int, d: int, q: int, r: int)
    requires d > 0 && 0 <= r < d && x == d * q + r
    ensures x / d == q && x % d == r
  {
    var e := x / d - q;
    DivisionOf(x, d);
    assert d * (x / d) - d * q == d * e;
    assert e >= 1 ==> d * e >= d * 1;
    assert e <= -1 ==> d * e <= d * (0 - 1);
  }

  lemma DivisionOf(x: int, d: int)
    requires d > 0
    ensures x == d * (x / d) + x % d && 0 <= x % d < d
  {}

  lemma Distribute(a: int, b: int, c: int)
    ensures a * (b + c) == a * b + a * c
  {}

  lemma Associate(a: int, b: int, c: int)
    ensures (a * b) * c == a * (b * c)
  {}

  /** Dividing by a and then by b. */
  lemma DivideTwice(x: int, a: int, b: int)
    requires a > 0 && b > 0
    ensures a * b > 0 && x / (a * b) == x / a / b
  {
    var y, r := x / a, x % a;
    var q, s := y / b, y % b;
    DivisionOf(x, a);
    DivisionOf(y, b);
    Distribute(a, b * q, s);
    Associate(a, b, q);
    Product(a, s, b - 1);
    Distribute(a, b - 1, 1);
    Quotient(x, a * b, q, a * s + r);
  }

  lemma Product(a: int, s: int, t: int)
    requires a > 0 && 0 <= s <= t
    ensures 0 <= a * s <= a * t
  {}

  /** Numbers with the same remainder have the same low digits. */
  lemma LowByte(v: int, w: int, k: nat, j: nat)
    requires Low(v, k) == Low(w, k) && j < k
    ensures ByteOf(v, j) == ByteOf(w, j)
  {
    LowByteOf(v, k, j);
    LowByteOf(w, k, j);
  }

  /** A byte depends only on the bytes up to it. */
  lemma LowByteOf(v: int, k: nat, j: nat)
    requires j < k
    ensures ByteOf(v, j) == ByteOf(Low(v, k), j)
  {
    var p, c := Weight(j), Weight(k - j - 1);
    WeightSum(j + 1, k - j - 1);
    WeightNext(j);
    var q, x := v / Weight(k), Low(v, k);
    DivisionOf(v, Weight(k));
    var y, r := x / p, x % p;
    DivisionOf(x, p);
    Associate(p, 256, c);
    Associate(p, 256 * c, q);
    Associate(256, c, q);
    Distribute(p, 256 * (c * q), y);
    Quotient(v, p, 256 * (c * q) + y, r);
    DivisionOf(y, 256);
    Distribute(256, c * q, y / 256);
    Quotient(256 * (c * q) + y, 256, c * q + y / 256, y % 256);
  }

  /** A byte is replaced, and no other. */
  lemma PutOne(w: int, j: nat, v: int, i: nat)
    requires 0 <= v < 256
    ensures ByteOf(PutByte(w, j, v), i) == if i == j then v else ByteOf(w, i)
  {
    var p, x := Weight(j), PutByte(w, j, v);
    WeightNext(j);
    WeightSum(j, 0);
    var y, b := w / p, w % p;
    DivisionOf(w, p);
    var a, c := y / 256, y % 256;
    DivisionOf(y, 256);
    Distribute(p, 256 * a + c, v - c);
    var y1 := 256 * a + v;
    assert x == p * y1 + b;
    Quotient(x, p, y1, b);
    Quotient(y1, 256, a, v);
    if i < j {
      LowByte(x, w, j, i);
    } else if i > j {
      var e := Weight(i - j - 1);
      WeightSum(j + 1, i - j - 1);
      WeightSum(i - j - 1, 0);
      DivideTwice(x, p, 256);
      DivideTwice(w, p, 256);
      DivideTwice(x, p * 256, e);
      DivideTwice(w, p * 256, e);
    }
  }

  // ---------------------------------------------------------------- memory

  /** The byte at an address. */
  function ByteAt(m: Mem, a: int): (b: int)
    ensures 0 <= b < 256
  {
    ByteOf(R(m, a - a % 8), a % 8)
  }

  /** Byte k behind an aligned address. */
  lemma ByteIn(m: Mem, a: int, k: nat)
    requires a % 8 == 0
    ensures ByteAt(m, a + k) == ByteOf(R(m, a + 8 * (k / 8)), k % 8)
  {
    assert (a + k) % 8 == k % 8 && a + k - k % 8 == a + 8 * (k / 8);
  }

  /** n bytes are the same at a in m and at b in m1. */
  ghost predicate Same(m: Mem, a: int, m1: Mem, b: int, n: nat) {
    && (forall k :: 0 <= k < n / 8 ==> R(m1, b + 8 * k) == R(m, a + 8 * k))
    && Low(R(m1, b + n / 8 * 8), n % 8) == Low(R(m, a + n / 8 * 8), n % 8)
  }

  /** What it means, byte by byte. */
  lemma SameBytes(m: Mem, a: int, m1: Mem, b: int, n: nat, k: nat)
    requires Same(m, a, m1, b, n) && a % 8 == 0 && b % 8 == 0 && k < n
    ensures ByteAt(m1, b + k) == ByteAt(m, a + k)
  {
    hide Low, ByteOf, ByteAt;
    ByteIn(m, a, k);
    ByteIn(m1, b, k);
    var i := k / 8;
    if i < n / 8 {
      assert R(m1, b + 8 * i) == R(m, a + 8 * i);
    } else {
      assert i == n / 8 && 8 * i == n / 8 * 8;
      LowByte(R(m1, b + 8 * i), R(m, a + 8 * i), n % 8, k % 8);
    }
  }

  /** The owner of a block writes a byte. */
  function StoreByte(m: Mem, a: int, v: int): Mem { m[a - a % 8 := PutByte(R(m, a - a % 8), a % 8, v)] }

  lemma ByteStored(m: Mem, a: int, v: int, c: int)
    requires 0 <= v < 256
    ensures ByteAt(StoreByte(m, a, v), c) == if c == a then v else ByteAt(m, c)
  {
    hide ByteOf, PutByte;
    if c - c % 8 == a - a % 8 { PutOne(R(m, a - a % 8), a % 8, v, c % 8); }
  }
}
