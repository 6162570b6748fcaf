/** Memory of the allocator (luajit/lj_alloc.c) as words at addresses, chunk fields, bin indexes,
    and circular lists.  All words are 8 bytes wide and aligned; a word is kept in the cell of its
    first byte. */
module AllocMem {
  import opened Bits

  type Mem = map<int, int>

  function R(m: Mem, a: int): int { if a in m then m[a] else 0 }

  const MIN_CHUNK_SIZE := 32
  const CHUNK_OVERHEAD := 8
  const TOP_FOOT_SIZE := 64
  const FENCEPOST_HEAD := 11
  const NSMALLBINS := 32
  const NTREEBINS := 32
  const MAX_SIZE_T := 0xffff_ffff_ffff_ffff

  // Fields of a chunk and of a tree chunk.
  function PrevFoot(m: Mem, p: int): int { R(m, p) }
  function Head(m: Mem, p: int): int { R(m, p + 8) }
  function Fd(m: Mem, p: int): int { R(m, p + 16) }
  function Bk(m: Mem, p: int): int { R(m, p + 24) }
  function Child(m: Mem, p: int, b: nat): int
    requires b < 2
  {
    R(m, p + 32 + 8 * b)
  }
  function Parent(m: Mem, p: int): int { R(m, p + 48) }
  function Index(m: Mem, p: int): int { R(m, p + 56) }

  predicate CInuse(m: Mem, p: int) { Head(m, p) / 2 % 2 == 1 }
  predicate PInuse(m: Mem, p: int) { Head(m, p) % 2 == 1 }
  function ChunkSize(m: Mem, p: int): int { Head(m, p) - Head(m, p) % 4 }

  /** Bin headers lie in the allocator state, which is given negative addresses: the header of a
      small bin is addressed as if it were a chunk, of which only fd and bk are used. */
  function SmallBinAt(i: nat): int { 16 * i - 2048 }
  function TreeBinAt(i: nat): int { 8 * i - 1024 }

  predicate IsSmall(s: nat) { s / 8 < NSMALLBINS }

  // ---------------------------------------------------------------- tree indexes

  /** `compute_tree_index`. */
  function TreeIndex(s: nat): (i: nat)
    ensures i < NTREEBINS
  {
    var x := s / 256 % 0x1_0000_0000;
    if x == 0 then 0
    else if x > 0xffff then 31
    else
      FlsBounds(x, 16);
      Powers16();
      2 * Fls(x) + if Bit(s, Fls(x) + 7) then 1 else 0
  }

  lemma Powers16()
    ensures Pow2(8) == 256 && Pow2(16) == 0x1_0000
  {
    assert Pow2(12) == 0x1000;
  }

  /** Number of low bits that tell the sizes in a tree bin apart. */
  function Width(i: nat): nat { if i == NTREEBINS - 1 then 64 else i / 2 + 7 }

  /** `leftshift_for_tree_index`. */
  function LeftShift(i: nat): nat
    requires i < NTREEBINS
  {
    64 - Width(i)
  }

  const MAX_ADDR := 0x8000_0000

  /** A chunk of this size belongs in a tree bin. */
  predicate Large(s: int) { 256 <= s < 0x8000_0000 }

  lemma IndexBits(s: nat)
    requires Large(s)
    ensures TreeIndex(s) < 31 ==> Shr(s, Width(TreeIndex(s))) == 2 + TreeIndex(s) % 2
    ensures TreeIndex(s) == 31 ==> Shr(s, 64) == 0
  {
    var x := s / 256;
    assert x % 0x1_0000_0000 == x;
    if x <= 0xffff { SmallIndexBits(s); }
    Pow2Of64();
    ShrSmall(s, 64);
  }

  lemma SmallIndexBits(s: nat)
    requires Large(s) && s / 256 <= 0xffff
    ensures Shr(s, Fls(s / 256) + 7) == 2 + if Bit(s, Fls(s / 256) + 7) then 1 else 0
    ensures Fls(s / 256) < 16
  {
    var x := s / 256;
    var k := Fls(x);
    FlsTop(x);
    Powers16();
    FlsBounds(x, 16);
    ShrOf256(s);
    ShrAdd(s, 8, k);
    assert Shr(s, k + 8) == 1;
    ShrStep(s, k + 7);
  }

  lemma ShrOf256(s: nat)
    ensures Shr(s, 8) == s / 256
  {
    Powers16();
    ShrDiv(s, 8);
  }

  /** Larger sizes are in the same or later bins. */
  lemma IndexMonotone(s: nat, t: nat)
    requires Large(s) && Large(t) && s <= t
    ensures TreeIndex(s) <= TreeIndex(t)
  {
    var x, y := s / 256, t / 256;
    assert x % 0x1_0000_0000 == x && y % 0x1_0000_0000 == y;
    if y <= 0xffff {
      FlsMonotone(x, y);
      if Fls(x) == Fls(y) {
        var k := Fls(x);
        Top2(s, k);
        Top2(t, k);
        ShrMonotone(s, t, k + 7);
      }
    } else if x <= 0xffff {
      FlsBounds(x, 16);
      Powers16();
    }
  }

  lemma Top2(s: nat, k: nat)
    requires Large(s) && k == Fls(s / 256)
    ensures Shr(s, k + 7) == 2 + if Bit(s, k + 7) then 1 else 0
  {
    FlsTop(s / 256);
    ShrOf256(s);
    ShrAdd(s, 8, k);
    ShrStep(s, k + 7);
  }

  // ---------------------------------------------------------------- circular lists

  function Next(n: nat, k: nat): nat
    requires k < n
  {
    if k + 1 < n then k + 1 else 0
  }

  /** xs is linked into a circle. */
  ghost predicate Ring(m: Mem, xs: seq<int>) {
    xs != [] && forall k :: 0 <= k < |xs| ==> Linked(m, xs[k], xs[Next(|xs|, k)])
  }

  predicate Linked(m: Mem, a: int, b: int) { Fd(m, a) == b && Bk(m, b) == a }

  /** The link fields of the elements do not overlap. */
  ghost predicate Apart(xs: seq<int>) {
    forall i, j :: 0 <= i < |xs| && 0 <= j < |xs| && i != j ==> Away(xs[i], xs[j])
  }

  predicate Away(a: int, b: int) { a + 32 <= b || b + 32 <= a }

  /** x is linked in behind the first element. */
  function LinkIn(m: Mem, b: int, f: int, x: int): Mem { m[b + 16 := x][f + 24 := x][x + 16 := f][x + 24 := b] }

  lemma RingInsert(m: Mem, xs: seq<int>, x: int)
    requires Ring(m, xs) && Apart(xs) && forall i :: 0 <= i < |xs| ==> Away(xs[i], x)
    ensures Ring(LinkIn(m, xs[0], Fd(m, xs[0]), x), [xs[0], x] + xs[1..])
  {
    assert Linked(m, xs[0], xs[Next(|xs|, 0)]);
    var f := Fd(m, xs[0]);
    var m1, ys := LinkIn(m, xs[0], f, x), [xs[0], x] + xs[1..];
    forall k | 0 <= k < |ys|
      ensures Linked(m1, ys[k], ys[Next(|ys|, k)])
    {
      if k >= 2 {
        assert Linked(m, xs[k - 1], xs[Next(|xs|, k - 1)]);
        assert ys[k] == xs[k - 1] && ys[Next(|ys|, k)] == xs[Next(|xs|, k - 1)];
      }
    }
  }

  /** An element is linked out. */
  function LinkOut(m: Mem, f: int, b: int): Mem { m[f + 24 := b][b + 16 := f] }

  lemma RingRemove(m: Mem, xs: seq<int>, i: nat)
    requires Ring(m, xs) && Apart(xs) && i < |xs| && |xs| >= 2
    ensures Ring(LinkOut(m, Fd(m, xs[i]), Bk(m, xs[i])), xs[..i] + xs[i + 1..])
  {
    var n := |xs|;
    var prev := if i > 0 then i - 1 else n - 1;
    assert Linked(m, xs[prev], xs[Next(n, prev)]) && Linked(m, xs[i], xs[Next(n, i)]);
    var f, b := xs[Next(n, i)], xs[prev];
    var m1, ys := LinkOut(m, f, b), xs[..i] + xs[i + 1..];
    forall k | 0 <= k < |ys|
      ensures Linked(m1, ys[k], ys[Next(|ys|, k)])
    {
      var k0 := if k < i then k else k + 1;
      assert ys[k] == xs[k0] && Linked(m, xs[k0], xs[Next(n, k0)]);
      if k0 != prev { assert ys[Next(|ys|, k)] == xs[Next(n, k0)]; } else { assert ys[Next(|ys|, k)] == f; }
    }
  }

  /** A circle can be entered anywhere. */
  lemma RingRotate(m: Mem, xs: seq<int>)
    requires Ring(m, xs)
    ensures Ring(m, [xs[|xs| - 1]] + xs[..|xs| - 1])
  {
    var n := |xs|;
    var ys := [xs[n - 1]] + xs[..n - 1];
    forall k | 0 <= k < n
      ensures Linked(m, ys[k], ys[Next(n, k)])
    {
      var k0 := if k > 0 then k - 1 else n - 1;
      assert Linked(m, xs[k0], xs[Next(n, k0)]);
    }
  }

  /** In a circle of one, and only there, the links of an element are equal. */
  lemma RingOfTwo(m: Mem, xs: seq<int>, i: nat)
    requires Ring(m, xs) && Apart(xs) && i < |xs|
    ensures |xs| == 1 <==> Bk(m, xs[i]) == xs[i]
    ensures |xs| <= 2 <==> Fd(m, xs[i]) == Bk(m, xs[i])
    ensures Fd(m, xs[i]) == xs[Next(|xs|, i)] && Bk(m, xs[i]) == xs[if i > 0 then i - 1 else |xs| - 1]
  {
    var n := |xs|;
    var prev := if i > 0 then i - 1 else n - 1;
    assert Linked(m, xs[prev], xs[Next(n, prev)]) && Linked(m, xs[i], xs[Next(n, i)]);
  }

  /** A circle does not see changes of other words. */
  lemma RingFrame(m: Mem, m1: Mem, xs: seq<int>)
    requires Ring(m, xs) && forall k :: 0 <= k < |xs| ==> Fd(m1, xs[k]) == Fd(m, xs[k]) && Bk(m1, xs[k]) == Bk(m, xs[k])
    ensures Ring(m1, xs)
  {
    forall k | 0 <= k < |xs|
      ensures Linked(m1, xs[k], xs[Next(|xs|, k)])
    {
      assert Linked(m, xs[k], xs[Next(|xs|, k)]);
    }
  }
}
