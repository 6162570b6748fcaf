/** Operations on the small bins of the allocator (luajit/lj_alloc.c), and the reason why an
    operation on one bin leaves the other bins alone. */
module AllocBinOps {
  import opened Bits
  import opened AllocMem
  import opened AllocTrie
  import opened AllocBins

  /** sz1 differs from sz only in chunks that belong to the given bins; all includes both. */
  ghost predicate Resized(sz: Sizes, sz1: Sizes, all: Sizes) {
    && Spread(all)
    && (forall a :: a in sz ==> a in all && all[a] == sz[a])
    && (forall a :: a in sz1 ==> a in all && all[a] == sz1[a])
  }

  lemma ResizedSpread(sz: Sizes, sz1: Sizes, all: Sizes)
    requires Resized(sz, sz1, all)
    ensures Spread(sz) && Spread(sz1)
  {}

  lemma ResizedAt(sz: Sizes, sz1: Sizes, all: Sizes, a: int)
    requires Resized(sz, sz1, all)
    ensures a in sz ==> a in all && all[a] == sz[a]
    ensures a in sz1 ==> a in all && all[a] == sz1[a]
  {}

  /** One of the bins. */
  datatype Bin = SmallBin(i: nat) | TreeBin(i: nat)

  predicate Takes(bin: Bin, s: nat) {
    match bin
    case SmallBin(i) => s == 8 * i
    case TreeBin(i) => Large(s) && TreeIndex(s) == i
  }

  /** The chunks outside of one bin stay. */
  ghost predicate KeptOutside(sz: Sizes, sz1: Sizes, bin: Bin) {
    && (forall a :: a in sz && !Takes(bin, sz[a]) ==> a in sz1)
    && (forall a :: a in sz1 && !Takes(bin, sz1[a]) ==> a in sz)
  }

  predicate Proper(bin: Bin) { bin.SmallBin? ==> bin.i < NSMALLBINS }

  lemma OtherBin(a: Bin, b: Bin, s: nat)
    requires Proper(a) && Proper(b) && a != b && Takes(a, s)
    ensures !Takes(b, s)
  {}

  lemma NotOfBin(S: set<int>, all: Sizes, bin: Bin, a: int)
    requires (forall b :: b in S ==> b in all && Takes(bin, all[b])) && a in all && !Takes(bin, all[a])
    ensures a !in S
  {}

  lemma OtherSmall(m: Mem, m1: Mem, neg: set<int>, S: set<int>, sz: Sizes, sz1: Sizes, all: Sizes, bin: Bin,
                   i: nat, xs: seq<int>)
    requires SmallOk(m, i, xs, sz) && Resized(sz, sz1, all) && KeptOutside(sz, sz1, bin) && i < NSMALLBINS
    requires Changed(m, m1, neg, S, all) && (forall a :: a in S ==> a in all && Takes(bin, all[a])) && bin != SmallBin(i) && Proper(bin)
    requires (forall n :: n in neg ==> n < 0) && SmallBinAt(i) + 16 !in neg && SmallBinAt(i) + 24 !in neg
    ensures SmallOk(m1, i, xs, sz1)
  {
    hide Changed, Ring;
    SmallSizes(m, i, xs, sz, all);
    forall j | 0 <= j < |xs|
      ensures xs[j] !in S
    {
      assert all[xs[j]] == sz[xs[j]] == 8 * i;
      OtherBin(SmallBin(i), bin, 8 * i);
      NotOfBin(S, all, bin, xs[j]);
    }
    SmallFrame(m, m1, neg, S, all, i, xs);
    forall a | a in xs
      ensures a in sz1 && sz1[a] == all[a]
    {
      var j :| 0 <= j < |xs| && xs[j] == a;
      assert sz[xs[j]] == 8 * i;
    }
    SmallSizes(m1, i, xs, all, sz1);
  }

  lemma OtherTree(m: Mem, m1: Mem, neg: set<int>, S: set<int>, sz: Sizes, sz1: Sizes, all: Sizes, bin: Bin,
                  i: nat, t: Trie)
    requires TrieOk(m, i, t, sz) && Resized(sz, sz1, all) && KeptOutside(sz, sz1, bin) && i < NTREEBINS
    requires Changed(m, m1, neg, S, all) && (forall a :: a in S ==> a in all && Takes(bin, all[a]))
    requires bin != TreeBin(i) && Proper(bin)
    requires (forall n :: n in neg ==> n < 0) && TreeBinAt(i) !in neg
    ensures TrieOk(m1, i, t, sz1)
  {
    hide Changed, KeysOk, TrieOk;
    TreeSizes(m, i, t, sz, all);
    forall k, j | k in t && 0 <= j < |t[k]|
      ensures t[k][j] !in S && t[k][j] in sz && !Takes(bin, sz[t[k][j]])
    {
      KeysOfTrie(m, i, t, sz);
      SizesOfNodes(i, t, sz, k, j);
      ResizedAt(sz, sz1, all, t[k][j]);
      OtherBin(TreeBin(i), bin, sz[t[k][j]]);
      NotOfBin(S, all, bin, t[k][j]);
    }
    TreeFrame(m, m1, neg, S, all, i, t);
    forall a | a in all && In(t, a)
      ensures a in sz1 && sz1[a] == all[a]
    {
      var k :| k in t && a in t[k];
      var j :| 0 <= j < |t[k]| && t[k][j] == a;
      assert t[k][j] !in S;
    }
    TreeSizes(m1, i, t, all, sz1);
  }

  /** Small bin i is changed, the other bins are not. */
  lemma BinsUpdateSmall(m: Mem, m1: Mem, smallmap: nat, smallmap1: nat, treemap: nat, small: seq<seq<int>>, tries: seq<Trie>,
                        sz: Sizes, sz1: Sizes, all: Sizes, i: nat, S: set<int>, xs: seq<int>)
    requires BinsOk(m, smallmap, treemap, small, tries, sz) && Resized(sz, sz1, all) && i < NSMALLBINS
    requires KeptOutside(sz, sz1, SmallBin(i)) && SmallOk(m1, i, xs, sz1)
    requires Changed(m, m1, {SmallBinAt(i) + 16, SmallBinAt(i) + 24}, S, all) && forall a :: a in S ==> a in all && all[a] == 8 * i
    requires forall j: nat :: Bit(smallmap1, j) <==> if j == i then xs != [] else Bit(smallmap, j)
    requires forall a :: a in sz1 && sz1[a] == 8 * i ==> a in xs
    ensures BinsOk(m1, smallmap1, treemap, small[i := xs], tries, sz1)
  {
    hide Changed, SmallOk, TrieOk, Spread;
    var neg, small1 := {SmallBinAt(i) + 16, SmallBinAt(i) + 24}, small[i := xs];
    ResizedSpread(sz, sz1, all);
    forall j | 0 <= j < NSMALLBINS
      ensures SmallOk(m1, j, small1[j], sz1)
    {
      if j != i { OtherSmall(m, m1, neg, S, sz, sz1, all, SmallBin(i), j, small[j]); }
    }
    forall j | 0 <= j < NTREEBINS
      ensures TrieOk(m1, j, tries[j], sz1)
    {
      OtherTree(m, m1, neg, S, sz, sz1, all, SmallBin(i), j, tries[j]);
    }
    forall a | a in sz1
      ensures Binned(small1, tries, sz1, a)
    {
      assert sz1[a] != 8 * i ==> a in sz && sz[a] == sz1[a] && Binned(small, tries, sz, a);
      assert a > 0 && sz1[a] % 8 == 0 by { SpreadAt(sz1, a); }
    }
  }

  lemma SpreadAt(sz: Sizes, a: int)
    requires Spread(sz) && a in sz
    ensures a > 0 && sz[a] % 8 == 0 && sz[a] >= MIN_CHUNK_SIZE
  {}

  /** Tree bin i is changed, the other bins are not. */
  lemma BinsUpdateTree(m: Mem, m1: Mem, smallmap: nat, treemap: nat, treemap1: nat, small: seq<seq<int>>, tries: seq<Trie>,
                       sz: Sizes, sz1: Sizes, all: Sizes, i: nat, S: set<int>, t: Trie)
    requires BinsOk(m, smallmap, treemap, small, tries, sz) && Resized(sz, sz1, all) && i < NTREEBINS
    requires KeptOutside(sz, sz1, TreeBin(i)) && TrieOk(m1, i, t, sz1)
    requires Changed(m, m1, {TreeBinAt(i)}, S, all) && forall a :: a in S ==> a in all && Large(all[a]) && TreeIndex(all[a]) == i
    requires forall j: nat :: Bit(treemap1, j) <==> if j == i then t != map[] else Bit(treemap, j)
    requires forall a :: a in sz1 && Large(sz1[a]) && TreeIndex(sz1[a]) == i ==> In(t, a)
    ensures BinsOk(m1, smallmap, treemap1, small, tries[i := t], sz1)
  {
    hide Changed, SmallOk, TrieOk, Spread, In;
    var neg, tries1 := {TreeBinAt(i)}, tries[i := t];
    ResizedSpread(sz, sz1, all);
    forall j | 0 <= j < NSMALLBINS
      ensures SmallOk(m1, j, small[j], sz1)
    {
      OtherSmall(m, m1, neg, S, sz, sz1, all, TreeBin(i), j, small[j]);
    }
    forall j | 0 <= j < NTREEBINS
      ensures TrieOk(m1, j, tries1[j], sz1)
    {
      if j != i { OtherTree(m, m1, neg, S, sz, sz1, all, TreeBin(i), j, tries[j]); }
    }
    forall a | a in sz1
      ensures Binned(small, tries1, sz1, a)
    {
      assert !Takes(TreeBin(i), sz1[a]) ==> a in sz && sz[a] == sz1[a] && Binned(small, tries, sz, a);
    }
  }

  // ---------------------------------------------------------------- methods

  /** `insert_small_chunk`. */
  method InsertSmall(ms: MallocState, p: int, s: nat)
    requires ms.BinsValid() && p !in ms.free && Spread(ms.free[p := s]) && IsSmall(s)
    modifies ms`mem, ms`smallmap, ms`small, ms`free
    ensures ms.BinsValid() && ms.free == old(ms.free)[p := s]
    ensures OnlyFree(old(ms.mem), ms.mem, ms.free)
  {
    hide Changed, Ring, TrieOk, Spread;
    var i := s / 8;
    var b := SmallBinAt(i);
    var f := b;
    ghost var sz, sz1, m, xs := ms.free, ms.free[p := s], ms.mem, ms.small[i];
    assert s == 8 * i by { SpreadAt(sz1, p); }
    SmallSizes(m, i, xs, sz, sz1);
    SmallInserted(m, i, xs, sz1, p);
    if !Bit(ms.smallmap, i) {
      MarkAll(ms.smallmap, i);
      ms.smallmap := Mark(ms.smallmap, i);
    } else {
      f := Fd(ms.mem, b);
    }
    ms.mem := ms.mem[b + 16 := p][f + 24 := p][p + 16 := f][p + 24 := b];
    assert ms.mem == LinkIn(m, b, f, p);
    SmallSet(i, [p] + xs, sz1);
    ChangedFree(m, ms.mem, {b + 16, b + 24}, SetOf([p] + xs), sz1);
    BinsUpdateSmall(m, ms.mem, old(ms.smallmap), ms.smallmap, ms.treemap, ms.small, ms.tries, sz, sz1, sz1, i, SetOf([p] + xs), [p] + xs);
    ms.small := ms.small[i := [p] + xs];
    ms.free := sz1;
  }

  lemma MarkAll(n: nat, i: nat)
    ensures forall j: nat :: Bit(Mark(n, i), j) <==> j == i || Bit(n, j)
  {
    forall j: nat ensures Bit(Mark(n, i), j) <==> j == i || Bit(n, j) { MarkBits(n, i, j); }
  }

  lemma ClearAll(n: nat, i: nat)
    ensures forall j: nat :: Bit(Clear(n, i), j) <==> j != i && Bit(n, j)
  {
    forall j: nat ensures Bit(Clear(n, i), j) <==> j != i && Bit(n, j) { ClearBits(n, i, j); }
  }

  lemma SmallSet(i: nat, xs: seq<int>, sz: Sizes)
    requires forall j :: 0 <= j < |xs| ==> xs[j] in sz && sz[xs[j]] == 8 * i
    ensures forall a :: a in SetOf(xs) ==> a in sz && sz[a] == 8 * i
  {}

  /** Only words that belong to the bins differ. */
  ghost predicate OnlyFree(m: Mem, m1: Mem, sz: Sizes) {
    forall c :: R(m1, c) != R(m, c) ==> c < 0 || exists a :: InChunk(sz, a, c)
  }

  lemma ChangedFree(m: Mem, m1: Mem, neg: set<int>, S: set<int>, sz: Sizes)
    requires Changed(m, m1, neg, S, sz) && forall n :: n in neg ==> n < 0
    ensures OnlyFree(m, m1, sz)
  {}

  /** What is left when a chunk is removed. */
  lemma SpreadLess(sz: Sizes, p: int)
    requires Spread(sz)
    ensures Spread(sz - {p}) && Resized(sz, sz - {p}, sz)
  {}

  /** `unlink_small_chunk`: the chunk may be anywhere in its list. */
  method UnlinkSmall(ms: MallocState, p: int, s: nat)
    requires ms.BinsValid() && p in ms.free && ms.free[p] == s && IsSmall(s)
    modifies ms`mem, ms`smallmap, ms`small, ms`free
    ensures ms.BinsValid() && ms.free == old(ms.free) - {p} && OnlyFree(old(ms.mem), ms.mem, old(ms.free))
  {
    hide Changed, Ring, TrieOk, Spread;
    var i := s / 8;
    var f, b := Fd(ms.mem, p), Bk(ms.mem, p);
    ghost var sz, m, xs := ms.free, ms.mem, ms.small[i];
    SpreadAt(sz, p);
    assert Binned(ms.small, ms.tries, sz, p);
    ghost var j :| 0 <= j < |xs| && xs[j] == p;
    SmallRemoved(m, i, xs, sz, j);
    ghost var ys := xs[..j] + xs[j + 1..];
    if f == b {
      ClearAll(ms.smallmap, i);
      ms.smallmap := Clear(ms.smallmap, i);
    } else {
      ms.mem := ms.mem[f + 24 := b][b + 16 := f];
    }
    Unlinked(ms, m, old(ms.smallmap), sz, i, j, xs);
    ms.small := ms.small[i := ys];
    ms.free := sz - {p};
  }

  /** `unlink_first_small_chunk`. */
  method UnlinkFirstSmall(ms: MallocState, b: int, p: int, i: nat)
    requires ms.BinsValid() && i < NSMALLBINS && ms.small[i] != [] && b == SmallBinAt(i) && p == Fd(ms.mem, b)
    modifies ms`mem, ms`smallmap, ms`small, ms`free
    ensures old(p in ms.free && ms.free[p] == 8 * i)
    ensures ms.BinsValid() && ms.free == old(ms.free) - {p} && OnlyFree(old(ms.mem), ms.mem, old(ms.free))
  {
    hide Changed, Ring, TrieOk, Spread;
    ghost var sz, m, xs := ms.free, ms.mem, ms.small[i];
    SmallRemoved(m, i, xs, sz, 0);
    ghost var ys := xs[..0] + xs[1..];
    var f := Fd(ms.mem, p);
    assert f != b ==> f > 0 by { if f in xs { InSmall(m, i, xs, sz, f); } }
    if b == f {
      ClearAll(ms.smallmap, i);
      ms.smallmap := Clear(ms.smallmap, i);
    } else {
      ms.mem := ms.mem[b + 16 := f][f + 24 := b];
      assert ms.mem == LinkOut(m, f, b);
    }
    Unlinked(ms, m, old(ms.smallmap), sz, i, 0, xs);
    ms.small := ms.small[i := ys];
    ms.free := sz - {p};
  }

  lemma InSmall(m: Mem, i: nat, xs: seq<int>, sz: Sizes, a: int)
    requires SmallOk(m, i, xs, sz) && Spread(sz) && a in xs
    ensures a in sz && a > 0
  {}

  /** The state after a chunk was unlinked from a small bin. */
  lemma Unlinked(ms: MallocState, m: Mem, smallmap: nat, sz: Sizes, i: nat, j: nat, xs: seq<int>)
    requires BinsOk(m, smallmap, ms.treemap, ms.small, ms.tries, sz) && i < NSMALLBINS && xs == ms.small[i] && j < |xs|
    requires if |xs| == 1
             then ms.mem == m && forall k: nat :: Bit(ms.smallmap, k) <==> k != i && Bit(smallmap, k)
             else ms.mem == LinkOut(m, Fd(m, xs[j]), Bk(m, xs[j])) && ms.smallmap == smallmap
    ensures BinsOk(ms.mem, ms.smallmap, ms.treemap, ms.small[i := xs[..j] + xs[j + 1..]], ms.tries, sz - {xs[j]})
    ensures OnlyFree(m, ms.mem, sz)
  {
    hide Changed, Ring, TrieOk, Spread, LinkOut;
    var ys, sz1, neg := xs[..j] + xs[j + 1..], sz - {xs[j]}, {SmallBinAt(i) + 16, SmallBinAt(i) + 24};
    SmallRemoved(m, i, xs, sz, j);
    ShorterDistinct(xs, j);
    SpreadLess(sz, xs[j]);
    SmallSet(i, xs, sz);
    if |xs| == 1 { Unchanged(m, neg, SetOf(xs), sz); } else { SmallSizes(ms.mem, i, ys, sz, sz1); }
    ChangedFree(m, ms.mem, neg, SetOf(xs), sz);
    forall a | a in sz1 && sz1[a] == 8 * i
      ensures a in ys
    {
      assert Binned(ms.small, ms.tries, sz, a);
      assert a in xs && a != xs[j];
    }
    BinsUpdateSmall(m, ms.mem, smallmap, ms.smallmap, ms.treemap, ms.small, ms.tries, sz, sz1, sz, i, SetOf(xs), ys);
  }

  lemma Unchanged(m: Mem, neg: set<int>, S: set<int>, sz: Sizes)
    ensures Changed(m, m, neg, S, sz)
  {}
}
