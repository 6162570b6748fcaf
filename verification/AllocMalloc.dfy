/** Allocation from free chunks (luajit/lj_alloc.c): `lj_alloc_malloc` up to the system allocator. */
module AllocMalloc {
  import opened Bits
  import opened AllocMem
  import opened AllocTrie
  import opened AllocBins
  import opened AllocBinOps
  import opened AllocTreeOps
  import opened AllocUnlinkOps
  import opened AllocSearch
  import opened AllocHeap
  import opened AllocSteps

  ghost predicate HeapValid(ms: MallocState)
    reads ms
  {
    HeapOk(ms.mem, ms.chunks, ms.segs, ms.dv, ms.dvsize, ms.top, ms.topsize)
  }

  /** The invariant of the allocator: the heap is laid out as its heads and feet say, and the bins
      hold exactly the free chunks other than the designated victim and the top chunk. */
  ghost predicate Valid(ms: MallocState)
    reads ms
  {
    HeapValid(ms) && ms.BinsValid() && ms.free == FreeOf(ms.chunks)
  }

  /** p is a chunk in use that was not in use before; what it has too much could not be a chunk. */
  predicate NewBlock(cs: Chunks, cs1: Chunks, p: int, size: nat) {
    p in cs1 && cs1[p].use == Used && size <= cs1[p].size < size + MIN_CHUNK_SIZE && !(p in cs && cs[p].use == Used)
  }

  // ---------------------------------------------------------------- bins and layout

  lemma FreeLaid(cs: Chunks, out: set<int>)
    requires Laid(cs)
    ensures InLayout(cs, FreeOf(cs) - out) && Spread(FreeOf(cs) - out)
  {
    hide Laid;
    var sz := FreeOf(cs) - out;
    forall a | a in sz
      ensures a > 0 && a % 8 == 0 && sz[a] >= MIN_CHUNK_SIZE && sz[a] % 8 == 0
    {
      LaidAt(cs, a);
    }
    forall a, b | a in sz && b in sz && a != b
      ensures a + sz[a] <= b || b + sz[b] <= a
    {
      ClearAt(cs, a, b);
      ClearAt(cs, b, a);
    }
  }

  lemma FreeHeads(m: Mem, cs: Chunks, out: set<int>)
    requires Laid(cs) && Written(m, cs)
    ensures HeadsOf(m, FreeOf(cs) - out) && forall a :: a in FreeOf(cs) ==> FreeOf(cs)[a] < MAX_ADDR
  {
    hide Laid, Written;
    forall a | a in FreeOf(cs)
      ensures ChunkSize(m, a) == FreeOf(cs)[a] < MAX_ADDR
    {
      HeadSays(m, cs, a);
      LaidAt(cs, a);
    }
  }

  /** All free chunks of the layout. */
  lemma AllFree(m: Mem, cs: Chunks, p: int)
    requires Laid(cs) && Written(m, cs)
    ensures InLayout(cs, FreeOf(cs)) && Spread(FreeOf(cs)) && HeadsOf(m, FreeOf(cs))
    ensures p in FreeOf(cs) <==> p in cs && cs[p].use == Free
    ensures p in FreeOf(cs) ==> FreeOf(cs)[p] == cs[p].size < MAX_ADDR && (FreeOf(cs) - {p})[p := cs[p].size] == FreeOf(cs)
    ensures p !in FreeOf(cs) - {p}
  {
    hide Laid, Written, Spread, HeadsOf, InLayout;
    FreeLaid(cs, {});
    FreeHeads(m, cs, {});
    assert FreeOf(cs) - {} == FreeOf(cs);
  }

  /** What the bins write keeps the heap. */
  lemma HeapBins(m: Mem, m1: Mem, cs: Chunks, segs: seq<Segment>, dv: int, dvsize: int, top: int, topsize: int, sz: Sizes)
    requires HeapOk(m, cs, segs, dv, dvsize, top, topsize) && OnlyFree(m, m1, sz) && InLayout(cs, sz)
    ensures HeapOk(m1, cs, segs, dv, dvsize, top, topsize) && Preserves(m, cs, m1, cs, {})
  {
    hide Laid, SegmentsOk, Marked, Written, OnlyFree;
    BinsWritten(m, m1, cs, sz);
  }

  /** `unlink_chunk`; some other chunks may be out of the bins already. */
  method Unlink(ms: MallocState, p: int, s: nat, ghost out: set<int>)
    requires p in ms.free && ms.free[p] == s && HeapValid(ms) && ms.BinsValid() && ms.free == FreeOf(ms.chunks) - out
    modifies ms`mem, ms`smallmap, ms`treemap, ms`small, ms`tries, ms`free
    ensures HeapValid(ms) && ms.BinsValid() && ms.free == FreeOf(ms.chunks) - (out + {p})
    ensures Preserves(old(ms.mem), ms.chunks, ms.mem, ms.chunks, {})
  {
    hide HeapOk, BinsOk, OnlyFree, Preserves, FreeOf, InLayout, HeadsOf, Spread, Laid, Written, SegmentsOk, Marked;
    ghost var m, sz := ms.mem, ms.free;
    HeapParts(ms);
    AllFree(ms.mem, ms.chunks, p);
    FreeLaid(ms.chunks, out);
    OutMore(FreeOf(ms.chunks), out, p);
    if IsSmall(s) { UnlinkSmall(ms, p, s); } else { UnlinkLarge(ms, p); }
    HeapBins(m, ms.mem, ms.chunks, ms.segs, ms.dv, ms.dvsize, ms.top, ms.topsize, sz);
  }

  lemma OutMore(sz: Sizes, out: set<int>, p: int)
    ensures sz - out - {p} == sz - (out + {p})
    ensures p in sz - out ==> p in sz && (sz - out)[p] == sz[p]
  {}

  lemma HeapParts(ms: MallocState)
    requires HeapValid(ms)
    ensures Laid(ms.chunks) && Written(ms.mem, ms.chunks) && SegmentsOk(ms.chunks, ms.segs)
    ensures Marked(ms.chunks, ms.dv, ms.dvsize, ms.top, ms.topsize)
  {}

  /** `insert_chunk` of a free chunk of the layout. */
  method Insert(ms: MallocState, p: int, s: nat)
    requires HeapValid(ms) && ms.BinsValid() && ms.free == FreeOf(ms.chunks) - {p}
    requires p in ms.chunks && ms.chunks[p].use == Free && ms.chunks[p].size == s
    modifies ms`mem, ms`smallmap, ms`treemap, ms`small, ms`tries, ms`free
    ensures Valid(ms) && Preserves(old(ms.mem), ms.chunks, ms.mem, ms.chunks, {})
  {
    hide HeapOk, BinsOk, OnlyFree, Preserves, Spread, HeadsOf, FreeOf, InLayout, Laid, Written, SegmentsOk, Marked;
    ghost var m := ms.mem;
    HeapParts(ms);
    AllFree(ms.mem, ms.chunks, p);
    InsertChunk(ms, p, s);
    HeapBins(m, ms.mem, ms.chunks, ms.segs, ms.dv, ms.dvsize, ms.top, ms.topsize, ms.free);
  }

  // ---------------------------------------------------------------- heads do not concern the bins

  /** c is not a word that the bins use. */
  ghost predicate Foreign(sz: Sizes, c: int) { c > 0 && forall a :: a in sz ==> !InChunk(sz, a, c) }

  ghost predicate OnlyForeign(m: Mem, m1: Mem, sz: Sizes) { forall c :: R(m1, c) != R(m, c) ==> Foreign(sz, c) }

  lemma NotForeign(m: Mem, m1: Mem, sz: Sizes, a: int, c: int)
    requires OnlyForeign(m, m1, sz) && InChunk(sz, a, c)
    ensures R(m1, c) == R(m, c)
  {}

  lemma Negative(m: Mem, m1: Mem, sz: Sizes, c: int)
    requires OnlyForeign(m, m1, sz) && c <= 0
    ensures R(m1, c) == R(m, c)
  {}

  lemma SmallUntouched(m: Mem, m1: Mem, i: nat, xs: seq<int>, sz: Sizes)
    requires SmallOk(m, i, xs, sz) && Spread(sz) && OnlyForeign(m, m1, sz) && i < NSMALLBINS
    ensures SmallOk(m1, i, xs, sz)
  {
    hide OnlyForeign;
    if xs != [] {
      var ys := [SmallBinAt(i)] + xs;
      forall j | 0 <= j < |ys|
        ensures Fd(m1, ys[j]) == Fd(m, ys[j]) && Bk(m1, ys[j]) == Bk(m, ys[j])
      {
        if j == 0 {
          Negative(m, m1, sz, ys[0] + 16);
          Negative(m, m1, sz, ys[0] + 24);
        } else {
          assert ys[j] == xs[j - 1];
          NotForeign(m, m1, sz, ys[j], ys[j] + 16);
          NotForeign(m, m1, sz, ys[j], ys[j] + 24);
        }
      }
      RingFrame(m, m1, ys);
    }
  }

  lemma TrieUntouched(m: Mem, m1: Mem, i: nat, t: Trie, sz: Sizes)
    requires TrieOk(m, i, t, sz) && Spread(sz) && OnlyForeign(m, m1, sz) && i < NTREEBINS
    ensures TrieOk(m1, i, t, sz)
  {
    hide OnlyForeign, KeysOk, TreeLinked, RingLinked, TrieOk;
    forall k, j | k in t && 0 <= j < |t[k]|
      ensures SameWords(m, m1, t[k][j])
    {
      var a := t[k][j];
      assert a in sz && Large(sz[a]) by { KeysOfTrie(m, i, t, sz); SizesOfNodes(i, t, sz, k, j); }
      NotForeign(m, m1, sz, a, a + 16);
      NotForeign(m, m1, sz, a, a + 24);
      NotForeign(m, m1, sz, a, a + 32);
      NotForeign(m, m1, sz, a, a + 40);
      NotForeign(m, m1, sz, a, a + 48);
      NotForeign(m, m1, sz, a, a + 56);
    }
    Negative(m, m1, sz, TreeBinAt(i));
    TrieFrame(m, m1, i, t, sz);
  }

  lemma BinsUntouched(m: Mem, m1: Mem, smallmap: nat, treemap: nat, small: seq<seq<int>>, tries: seq<Trie>, sz: Sizes)
    requires BinsOk(m, smallmap, treemap, small, tries, sz) && OnlyForeign(m, m1, sz)
    ensures BinsOk(m1, smallmap, treemap, small, tries, sz)
  {
    hide OnlyForeign, SmallOk, TrieOk, Spread;
    forall i | 0 <= i < NSMALLBINS
      ensures SmallOk(m1, i, small[i], sz)
    {
      SmallUntouched(m, m1, i, small[i], sz);
    }
    forall i | 0 <= i < NTREEBINS
      ensures TrieOk(m1, i, tries[i], sz)
    {
      TrieUntouched(m, m1, i, tries[i], sz);
    }
  }

  /** Heads and feet at the borders of a chunk that is in no bin, and words within it. */
  lemma HeadsForeign(m: Mem, m1: Mem, cs: Chunks, sz: Sizes, lo: int, mid: int, hi: int)
    requires Laid(cs) && InLayout(cs, sz) && lo in cs && hi in cs && lo <= mid < hi && OnlyHeads(m, m1, lo, mid, hi)
    requires forall a :: a in sz ==> a < lo || a >= hi
    ensures OnlyForeign(m, m1, sz)
  {
    hide Laid, OnlyHeads;
    LaidAt(cs, lo);
    forall c | R(m1, c) != R(m, c)
      ensures Foreign(sz, c)
    {
      HeadCells(m, m1, lo, mid, hi, c);
      forall a | a in sz
        ensures !InChunk(sz, a, c)
      {
        ClearAt(cs, a, lo);
        ClearAt(cs, a, hi);
      }
    }
  }

  lemma HeadCells(m: Mem, m1: Mem, lo: int, mid: int, hi: int, c: int)
    requires OnlyHeads(m, m1, lo, mid, hi) && R(m1, c) != R(m, c)
    ensures c == lo + 8 || c == mid + 8 || c == hi + 8 || c == hi
  {}

  lemma WholeOnly(m: Mem, p: int, s: int)
    ensures OnlyHeads(m, SetInuseAndPinuse(m, p, s), p, p, p + s)
  {}

  // ---------------------------------------------------------------- using a free chunk

  /** `set_inuse_and_pinuse` for a chunk that was taken out of its bin. */
  method TakeWhole(ms: MallocState, p: int, s: nat)
    requires HeapValid(ms) && ms.BinsValid() && ms.free == FreeOf(ms.chunks) - {p}
    requires p in ms.chunks && ms.chunks[p].use == Free && ms.chunks[p].size == s
    modifies ms`mem, ms`chunks
    ensures Valid(ms) && NewBlock(old(ms.chunks), ms.chunks, p, s) && ms.chunks[p].size == s
    ensures Preserves(old(ms.mem), old(ms.chunks), ms.mem, ms.chunks, {})
  {
    hide HeapOk, BinsOk, Preserves, Reuse, OnlyForeign;
    ghost var m := ms.mem;
    ms.mem := ms.mem[p + 8 := s + 3];
    ms.mem := ms.mem[p + s + 8 := Or1(Head(ms.mem, p + s))];
    assert ms.mem == SetInuseAndPinuse(m, p, s);
    UseWhole(m, ms.mem, ms.chunks, ms.segs, ms.dv, ms.dvsize, ms.top, ms.topsize, p, ms.dv, ms.dvsize);
    WholeOnly(m, p, s);
    OutOfBins(m, ms.mem, ms.chunks, ms.segs, ms.dv, ms.dvsize, ms.top, ms.topsize, ms.free, p, p);
    BinsUntouched(m, ms.mem, ms.smallmap, ms.treemap, ms.small, ms.tries, ms.free);
    ms.chunks := Reuse(ms.chunks, p, Used);
  }

  /** Heads at and within a chunk that is in no bin. */
  lemma OutOfBins(m: Mem, m1: Mem, cs: Chunks, segs: seq<Segment>, dv: int, dvsize: int, top: int, topsize: int, sz: Sizes,
                  p: int, mid: int)
    requires HeapOk(m, cs, segs, dv, dvsize, top, topsize) && InLayout(cs, sz) && p in cs && p !in sz && !IsEnd(cs[p].use)
    requires p <= mid < p + cs[p].size && OnlyHeads(m, m1, p, mid, p + cs[p].size)
    ensures OnlyForeign(m, m1, sz)
  {
    hide Laid, SegmentsOk, Marked, Written, OnlyHeads, OnlyForeign;
    OnlyOne(cs, p);
    Neighbours(cs, p);
    HeadsForeign(m, m1, cs, sz, p, mid, p + cs[p].size);
  }

  lemma SplitOnly(m: Mem, p: int, nb: int, s: int)
    ensures OnlyHeads(m, SetSizeAndPinuseOfFree(SetSizeAndPinuseOfInuse(m, p, nb), p + nb, s - nb), p, p + nb, p + s)
    ensures OnlyHeads(m, SetSizeAndPinuseOfInuse(SetSizeAndPinuseOfFree(m, p + nb, s - nb), p, nb), p, p + nb, p + s)
    ensures OnlyHeads(m, SetSizeAndPinuseOfInuse(m[p + nb + 8 := s - nb + 1], p, nb), p, p + nb, p + s)
  {}

  /** The end of `tmalloc_large`: the chunk is split, and the rest goes into a bin. */
  method TakeSplit(ms: MallocState, p: int, s: nat, nb: nat)
    requires HeapValid(ms) && ms.BinsValid() && ms.free == FreeOf(ms.chunks) - {p}
    requires p in ms.chunks && ms.chunks[p].use == Free && ms.chunks[p].size == s
    requires nb % 8 == 0 && MIN_CHUNK_SIZE <= nb && nb + MIN_CHUNK_SIZE <= s
    modifies ms`mem, ms`chunks, ms`smallmap, ms`treemap, ms`small, ms`tries, ms`free
    ensures Valid(ms) && NewBlock(old(ms.chunks), ms.chunks, p, nb)
    ensures Preserves(old(ms.mem), old(ms.chunks), ms.mem, ms.chunks, {})
  {
    hide HeapOk, BinsOk, Preserves, Split, OnlyForeign, FreeOf, InLayout, Laid, Written, SegmentsOk, Marked, OnlyHeads;
    ghost var m, cs := ms.mem, ms.chunks;
    HeapParts(ms);
    AllFree(m, cs, p);
    FreeLaid(cs, {p});
    LaidAt(cs, p);
    var r := p + nb;
    ms.mem := ms.mem[p + 8 := nb + 3];
    ms.mem := ms.mem[r + 8 := s - nb + 1][r + (s - nb) := s - nb];
    assert ms.mem == SetSizeAndPinuseOfFree(SetSizeAndPinuseOfInuse(m, p, nb), r, s - nb);
    UseSplit(m, ms.mem, cs, ms.segs, ms.dv, ms.dvsize, ms.top, ms.topsize, p, nb, Free, ms.dv, ms.dvsize, ms.top, ms.topsize);
    SplitIs(cs, p, nb, Free);
    SplitOnly(m, p, nb, s);
    OutOfBins(m, ms.mem, cs, ms.segs, ms.dv, ms.dvsize, ms.top, ms.topsize, ms.free, p, r);
    BinsUntouched(m, ms.mem, ms.smallmap, ms.treemap, ms.small, ms.tries, ms.free);
    ms.chunks := Split(cs, p, nb, Free);
    WithoutLast(FreeOf(cs) - {p}, r, s - nb);
    ghost var m2 := ms.mem;
    Insert(ms, r, s - nb);
    PreservesTrans(m, cs, m2, ms.chunks, ms.mem, ms.chunks, {});
  }

  lemma WithoutLast(sz: Sizes, r: int, s: nat)
    requires r !in sz
    ensures sz[r := s] - {r} == sz
  {}

  /** `replace_dv`, when the new designated victim p is in place already; the old one is small. */
  method ReplaceDv(ms: MallocState, p: int, s: nat)
    requires HeapOk(ms.mem, ms.chunks, ms.segs, p, s, ms.top, ms.topsize) && ms.BinsValid() && s > 0
    requires ms.free == FreeOf(ms.chunks) - {ms.dv} && 0 <= ms.dvsize < 256
    requires if ms.dvsize == 0 then ms.dv == 0 else ms.dv in ms.chunks && ms.chunks[ms.dv].use == Free && ms.chunks[ms.dv].size == ms.dvsize
    modifies ms`mem, ms`dv, ms`dvsize, ms`smallmap, ms`small, ms`free
    ensures Valid(ms) && Preserves(old(ms.mem), ms.chunks, ms.mem, ms.chunks, {}) && ms.dv == p && ms.dvsize == s
  {
    hide HeapOk, BinsOk, OnlyFree, Preserves, Spread, HeadsOf, FreeOf, InLayout, Laid, Written, SegmentsOk, Marked;
    ghost var m, cs := ms.mem, ms.chunks;
    OkParts(m, cs, ms.segs, p, s, ms.top, ms.topsize);
    AllFree(m, cs, ms.dv);
    var dvs := ms.dvsize;
    if dvs != 0 {
      InsertSmall(ms, ms.dv, dvs);
      HeapBins(m, ms.mem, cs, ms.segs, p, s, ms.top, ms.topsize, ms.free);
    } else {
      NoZero(cs);
      PreservesSelf(m, cs);
    }
    ms.dvsize := s;
    ms.dv := p;
  }

  lemma OkParts(m: Mem, cs: Chunks, segs: seq<Segment>, dv: int, dvsize: int, top: int, topsize: int)
    requires HeapOk(m, cs, segs, dv, dvsize, top, topsize)
    ensures Laid(cs) && Written(m, cs) && SegmentsOk(cs, segs) && Marked(cs, dv, dvsize, top, topsize)
  {}

  lemma PreservesSelf(m: Mem, cs: Chunks)
    ensures Preserves(m, cs, m, cs, {})
  {}

  /** There is no chunk at address 0. */
  lemma NoZero(cs: Chunks)
    requires Laid(cs)
    ensures 0 !in cs && FreeOf(cs) - {0} == FreeOf(cs)
  {
    hide Laid;
    if 0 in cs { LaidAt(cs, 0); }
  }

  /** A chunk is split, and the rest becomes the designated victim. */
  method TakeSplitDv(ms: MallocState, p: int, s: nat, nb: nat)
    requires HeapValid(ms) && ms.BinsValid() && ms.free == FreeOf(ms.chunks) - {p} && 0 <= ms.dvsize < 256
    requires p in ms.chunks && ms.chunks[p].use == Free && ms.chunks[p].size == s
    requires nb % 8 == 0 && MIN_CHUNK_SIZE <= nb && nb + MIN_CHUNK_SIZE <= s
    modifies ms`mem, ms`chunks, ms`smallmap, ms`small, ms`free, ms`dv, ms`dvsize
    ensures Valid(ms) && NewBlock(old(ms.chunks), ms.chunks, p, nb)
    ensures Preserves(old(ms.mem), old(ms.chunks), ms.mem, ms.chunks, {})
  {
    hide HeapOk, BinsOk, Preserves, Split, OnlyForeign, FreeOf, InLayout, Laid, Written, SegmentsOk, Marked, OnlyHeads;
    ghost var m, cs := ms.mem, ms.chunks;
    HeapParts(ms);
    AllFree(m, cs, p);
    AllFree(m, cs, ms.dv);
    NoZero(cs);
    FreeLaid(cs, {p});
    LaidAt(cs, p);
    ghost var cs1 := RetireDv(ms);
    var r := p + nb;
    ms.mem := ms.mem[p + 8 := nb + 3];
    ms.mem := ms.mem[r + 8 := s - nb + 1][r + (s - nb) := s - nb];
    assert ms.mem == SetSizeAndPinuseOfFree(SetSizeAndPinuseOfInuse(m, p, nb), r, s - nb);
    UseSplit(m, ms.mem, cs1, ms.segs, 0, 0, ms.top, ms.topsize, p, nb, Dv, r, s - nb, ms.top, ms.topsize);
    SplitIs(cs1, p, nb, Dv);
    SplitOnly(m, p, nb, s);
    OutOfBins(m, ms.mem, cs, ms.segs, ms.dv, ms.dvsize, ms.top, ms.topsize, ms.free, p, r);
    BinsUntouched(m, ms.mem, ms.smallmap, ms.treemap, ms.small, ms.tries, ms.free);
    ms.chunks := Split(cs1, p, nb, Dv);
    PreservesTrans(m, cs, m, cs1, ms.mem, ms.chunks, {});
    DvSplitFree(cs, p, ms.dv, ms.dvsize, FreeOf(ms.chunks), FreeOf(cs1));
    DvSplitAt(cs1, p, nb, ms.dv, ms.dvsize);
    ghost var m2 := ms.mem;
    ReplaceDv(ms, r, s - nb);
    PreservesTrans(m, cs, m2, ms.chunks, ms.mem, ms.chunks, {});
  }

  /** The designated victim, if there is one, is an ordinary free chunk in cs1. */
  ghost predicate Retired(cs: Chunks, cs1: Chunks, dv: int, dvsize: int) {
    && (if dvsize == 0 then dv == 0 && cs1 == cs
        else dv in cs && cs[dv].use == Dv && cs[dv].size == dvsize && cs1 == cs[dv := cs[dv].(use := Free)])
    && FreeOf(cs1) == if dvsize > 0 then FreeOf(cs)[dv := dvsize] else FreeOf(cs)
  }

  lemma RetireDv(ms: MallocState) returns (cs1: Chunks)
    requires ms.dvsize >= 0 && HeapValid(ms)
    ensures Retired(ms.chunks, cs1, ms.dv, ms.dvsize)
    ensures Preserves(ms.mem, ms.chunks, ms.mem, cs1, {}) && HeapOk(ms.mem, cs1, ms.segs, 0, 0, ms.top, ms.topsize)
  {
    hide HeapOk, Preserves, FreeOf, Laid, Written, SegmentsOk, Marked;
    HeapParts(ms);
    cs1 := ms.chunks;
    DvAt(cs1, ms.dv, ms.dvsize, ms.top, ms.topsize);
    if ms.dvsize != 0 {
      Retire(ms.mem, cs1, ms.segs, ms.dv, ms.dvsize, ms.top, ms.topsize);
      cs1 := cs1[ms.dv := cs1[ms.dv].(use := Free)];
    } else {
      PreservesSelf(ms.mem, cs1);
    }
  }

  lemma DvSplitFree(cs: Chunks, p: int, dv: int, dvsize: nat, free: Sizes, free1: Sizes)
    requires free == free1 - {p} && p != dv && dv !in FreeOf(cs)
    requires if dvsize != 0 then free1 == FreeOf(cs)[dv := dvsize] else free1 == FreeOf(cs)
    ensures free - {dv} == FreeOf(cs) - {p}
  {}

  lemma DvSplitAt(cs: Chunks, p: int, nb: int, dv: int, dvsize: int)
    requires p in cs && 0 < nb < cs[p].size && p + cs[p].size in cs && p + nb !in cs && cs[p].use == Free
    requires dvsize != 0 ==> dv in cs && cs[dv].use == Free && cs[dv].size == dvsize && p != dv
    ensures dvsize != 0 ==> var cs1 := Split(cs, p, nb, Dv); dv in cs1 && cs1[dv].use == Free && cs1[dv].size == dvsize
  {}

  // ---------------------------------------------------------------- tree bins

  /** Chunk a of the bins can hold nb bytes. */
  predicate Fitting(sz: Sizes, nb: nat, a: int) { a in sz && sz[a] >= nb }

  /** `tmalloc_large`: takes a chunk of the least size that is large enough.  It takes none exactly
      if there is none, or the designated victim fits and no chunk that fits is smaller. */
  method TmallocLarge(ms: MallocState, nb: nat) returns (mem: int)
    requires Valid(ms) && nb % 8 == 0 && 256 <= nb < W64
    modifies ms`mem, ms`chunks, ms`smallmap, ms`treemap, ms`small, ms`tries, ms`free
    ensures mem == 0 <==> forall a :: Fitting(old(ms.free), nb, a) ==> nb <= ms.dvsize <= old(ms.free)[a]
    ensures mem == 0 ==> ms.mem == old(ms.mem) && ms.chunks == old(ms.chunks)
    ensures mem != 0 ==> mem > 16 && NewBlock(old(ms.chunks), ms.chunks, mem - 16, nb) && Fitting(old(ms.free), nb, mem - 16)
    ensures mem != 0 ==> forall a :: Fitting(old(ms.free), nb, a) ==> old(ms.free)[a] >= old(ms.free)[mem - 16]
    ensures Valid(ms) && Preserves(old(ms.mem), old(ms.chunks), ms.mem, ms.chunks, {})
  {
    hide HeapOk, BinsOk, Preserves, FreeOf, HeadsOf, Laid, Written, SegmentsOk, Marked, NewBlock, InLayout, Spread;
    ghost var m, cs, sz := ms.mem, ms.chunks, ms.free;
    HeapParts(ms);
    AllFree(m, cs, 0);
    DvSmall(ms);
    var v, rsize := FindLarge(ms.mem, ms.treemap, nb, ms.smallmap, ms.small, ms.tries, ms.free);
    if v != 0 && rsize < (ms.dvsize - nb) % W64 {
      AllFree(m, cs, v);
      OutNone(cs, v);
      LaidAt(cs, v);
      var r := v + nb;
      Unlink(ms, v, rsize + nb, {});
      ghost var m2 := ms.mem;
      if rsize < MIN_CHUNK_SIZE {
        TakeWhole(ms, v, rsize + nb);
        BlockLess(cs, ms.chunks, v, rsize + nb, nb);
      } else {
        TakeSplit(ms, v, rsize + nb, nb);
      }
      PreservesTrans(m, cs, m2, cs, ms.mem, ms.chunks, {});
      return v + 16;
    }
    PreservesSelf(m, cs);
    mem := 0;
  }

  lemma OutNone(cs: Chunks, p: int)
    ensures FreeOf(cs) - {} == FreeOf(cs) && {} + {p} == {p}
  {}

  lemma BlockLess(cs: Chunks, cs1: Chunks, p: int, size: nat, less: nat)
    requires NewBlock(cs, cs1, p, size) && cs1[p].size == size && less <= size < less + MIN_CHUNK_SIZE
    ensures NewBlock(cs, cs1, p, less)
  {}

  lemma DvSmall(ms: MallocState)
    requires HeapValid(ms)
    ensures 0 <= ms.dvsize < MAX_ADDR && ms.dvsize % 8 == 0 && 8 <= ms.topsize < MAX_ADDR && ms.topsize % 8 == 0 && ms.top > 0
    ensures ms.dvsize != 0 ==> ms.dv > 0
  {
    hide Laid, SegmentsOk, Written, Marked;
    DvAt(ms.chunks, ms.dv, ms.dvsize, ms.top, ms.topsize);
    LaidAt(ms.chunks, ms.top);
    if ms.dvsize != 0 { LaidAt(ms.chunks, ms.dv); }
  }

  /** `tmalloc_small`: takes the smallest chunk of all tree bins. */
  method TmallocSmall(ms: MallocState, nb: nat) returns (mem: int)
    requires Valid(ms) && nb % 8 == 0 && MIN_CHUNK_SIZE <= nb < 256 && ms.treemap != 0 && ms.dvsize < nb
    modifies ms`mem, ms`chunks, ms`smallmap, ms`treemap, ms`small, ms`tries, ms`free, ms`dv, ms`dvsize
    ensures Valid(ms) && Preserves(old(ms.mem), old(ms.chunks), ms.mem, ms.chunks, {})
    ensures mem > 16 && NewBlock(old(ms.chunks), ms.chunks, mem - 16, nb) && mem - 16 in old(ms.free) && old(ms.free)[mem - 16] >= 256
    ensures forall a :: a in old(ms.free) && old(ms.free)[a] >= 256 ==> old(ms.free)[a] >= old(ms.free)[mem - 16] >= 256
  {
    hide HeapOk, BinsOk, Preserves, FreeOf, HeadsOf, Laid, Written, SegmentsOk, Marked, NewBlock, InLayout, Spread;
    ghost var m, cs, sz := ms.mem, ms.chunks, ms.free;
    HeapParts(ms);
    DvSmall(ms);
    AllFree(m, cs, 0);
    FreeBound(m, cs);
    var v, rsize := FindSmall(ms.mem, ms.treemap, nb, ms.smallmap, ms.small, ms.tries, ms.free);
    AllFree(m, cs, v);
    OutNone(cs, v);
    LaidAt(cs, v);
    Unlink(ms, v, rsize + nb, {});
    ghost var m2 := ms.mem;
    if rsize < MIN_CHUNK_SIZE {
      TakeWhole(ms, v, rsize + nb);
      BlockLess(cs, ms.chunks, v, rsize + nb, nb);
    } else {
      TakeSplitDv(ms, v, rsize + nb, nb);
    }
    PreservesTrans(m, cs, m2, cs, ms.mem, ms.chunks, {});
    mem := v + 16;
  }

  lemma FreeBound(m: Mem, cs: Chunks)
    requires Laid(cs) && Written(m, cs)
    ensures forall a :: a in FreeOf(cs) ==> 0 < FreeOf(cs)[a] < MAX_ADDR
  {
    hide Laid, Written, FreeOf;
    forall a | a in FreeOf(cs)
      ensures 0 < FreeOf(cs)[a] < MAX_ADDR
    {
      AllFree(m, cs, a);
      LaidAt(cs, a);
    }
  }

  // ---------------------------------------------------------------- the designated victim and the top chunk

  /** The designated victim is split, or used up. */
  method FromDv(ms: MallocState, nb: nat) returns (mem: int)
    requires Valid(ms) && nb % 8 == 0 && MIN_CHUNK_SIZE <= nb <= ms.dvsize
    modifies ms`mem, ms`chunks, ms`dv, ms`dvsize
    ensures Valid(ms) && Preserves(old(ms.mem), old(ms.chunks), ms.mem, ms.chunks, {})
    ensures mem == old(ms.dv) + 16 && mem > 16 && NewBlock(old(ms.chunks), ms.chunks, mem - 16, nb)
  {
    hide HeapOk, BinsOk, Preserves, FreeOf, Laid, Written, SegmentsOk, Marked, InLayout, OnlyForeign, Split, Reuse, OnlyHeads;
    ghost var m, cs := ms.mem, ms.chunks;
    HeapParts(ms);
    DvSmall(ms);
    DvAt(cs, ms.dv, ms.dvsize, ms.top, ms.topsize);
    AllFree(m, cs, ms.dv);
    LaidAt(cs, ms.dv);
    NotInMap(cs, ms.dv);
    var rsize := ms.dvsize - nb;
    var p := ms.dv;
    if rsize >= MIN_CHUNK_SIZE {
      var r := p + nb;
      ms.mem := ms.mem[r + 8 := rsize + 1][r + rsize := rsize];
      ms.mem := ms.mem[p + 8 := nb + 3];
      assert ms.mem == SetSizeAndPinuseOfInuse(SetSizeAndPinuseOfFree(m, r, rsize), p, nb);
      UseSplit(m, ms.mem, cs, ms.segs, ms.dv, ms.dvsize, ms.top, ms.topsize, p, nb, Dv, r, rsize, ms.top, ms.topsize);
      SplitIs(cs, p, nb, Dv);
      SplitOnly(m, p, nb, ms.dvsize);
      OutOfBins(m, ms.mem, cs, ms.segs, ms.dv, ms.dvsize, ms.top, ms.topsize, ms.free, p, r);
      ms.dv := r;
      ms.dvsize := rsize;
      ms.chunks := Split(cs, p, nb, Dv);
    } else {
      var dvs := ms.dvsize;
      ms.mem := ms.mem[p + 8 := dvs + 3];
      ms.mem := ms.mem[p + dvs + 8 := Or1(Head(ms.mem, p + dvs))];
      assert ms.mem == SetInuseAndPinuse(m, p, dvs);
      UseWhole(m, ms.mem, cs, ms.segs, ms.dv, ms.dvsize, ms.top, ms.topsize, p, 0, 0);
      WholeOnly(m, p, dvs);
      OutOfBins(m, ms.mem, cs, ms.segs, ms.dv, ms.dvsize, ms.top, ms.topsize, ms.free, p, p);
      ms.dvsize := 0;
      ms.dv := 0;
      ms.chunks := Reuse(cs, p, Used);
    }
    BinsUntouched(m, ms.mem, ms.smallmap, ms.treemap, ms.small, ms.tries, ms.free);
    mem := p + 16;
  }

  lemma NotInMap(cs: Chunks, p: int)
    requires p in cs && cs[p].use != Free
    ensures p !in FreeOf(cs) && FreeOf(cs) - {p} == FreeOf(cs)
  {}

  /** The top chunk is split. */
  method FromTop(ms: MallocState, nb: nat) returns (mem: int)
    requires Valid(ms) && nb % 8 == 0 && MIN_CHUNK_SIZE <= nb < ms.topsize
    modifies ms`mem, ms`chunks, ms`top, ms`topsize
    ensures Valid(ms) && Preserves(old(ms.mem), old(ms.chunks), ms.mem, ms.chunks, {})
    ensures mem == old(ms.top) + 16 && mem > 16 && NewBlock(old(ms.chunks), ms.chunks, mem - 16, nb)
  {
    hide HeapOk, BinsOk, Preserves, FreeOf, Laid, Written, SegmentsOk, Marked, InLayout, OnlyForeign, Split, OnlyHeads;
    ghost var m, cs := ms.mem, ms.chunks;
    HeapParts(ms);
    DvSmall(ms);
    DvAt(cs, ms.dv, ms.dvsize, ms.top, ms.topsize);
    AllFree(m, cs, ms.top);
    LaidAt(cs, ms.top);
    NotInMap(cs, ms.top);
    var s := ms.topsize;
    var rsize := s - nb;
    var p := ms.top;
    var r := p + nb;
    ms.mem := ms.mem[r + 8 := rsize + 1];
    ms.mem := ms.mem[p + 8 := nb + 3];
    UseSplit(m, ms.mem, cs, ms.segs, ms.dv, ms.dvsize, ms.top, ms.topsize, p, nb, Top, ms.dv, ms.dvsize, r, rsize);
    SplitIs(cs, p, nb, Top);
    SplitOnly(m, p, nb, s);
    OutOfBins(m, ms.mem, cs, ms.segs, ms.dv, ms.dvsize, ms.top, ms.topsize, ms.free, p, r);
    BinsUntouched(m, ms.mem, ms.smallmap, ms.treemap, ms.small, ms.tries, ms.free);
    ms.topsize := rsize;
    ms.top := r;
    ms.chunks := Split(cs, p, nb, Top);
    mem := p + 16;
  }
}
