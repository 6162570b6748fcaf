/** `lj_alloc_free` (luajit/lj_alloc.c): a chunk is merged with its free neighbours. */
module AllocFree {
  import opened AllocMem
  import opened AllocTrie
  import opened AllocBins
  import opened AllocHeap
  import opened AllocSteps
  import opened AllocMalloc

  /** How the marks follow chunks that are merged. */
  predicate Merged(lo: int, hi: int, use: Use, dv: int, dvsize: int, top: int, topsize: int,
                   dv1: int, dvsize1: int, top1: int, topsize1: int) {
    var dvIn := dvsize != 0 && lo <= dv < hi;
    match use
    case Free => !dvIn && !(lo <= top < hi) && dv1 == dv && dvsize1 == dvsize && top1 == top && topsize1 == topsize
    case Dv => dvIn && !(lo <= top < hi) && dv1 == lo && dvsize1 == hi - lo && top1 == top && topsize1 == topsize
    case Top =>
      && lo <= top < hi && hi == top + topsize && top1 == lo && topsize1 == hi - lo
      && if dvIn then dv1 == dvsize1 == 0 else dv1 == dv && dvsize1 == dvsize
    case _ => false
  }

  lemma MarksMerged(cs: Chunks, lo: int, hi: int, use: Use, dv: int, dvsize: int, top: int, topsize: int,
                    dv1: int, dvsize1: int, top1: int, topsize1: int)
    requires Marked(cs, dv, dvsize, top, topsize) && lo in cs && hi in cs && 0 < lo < hi && !IsFree(cs[hi].use)
    requires Merged(lo, hi, use, dv, dvsize, top, topsize, dv1, dvsize1, top1, topsize1)
    requires forall q :: q in cs && lo <= q < hi ==> !IsEnd(cs[q].use)
    ensures Marked(Carve1(cs, lo, hi, use), dv1, dvsize1, top1, topsize1)
  {}

  /** Whole chunks become one free chunk. */
  lemma MergeFree(m: Mem, m1: Mem, cs: Chunks, segs: seq<Segment>, dv: int, dvsize: int, top: int, topsize: int,
                  lo: int, hi: int, use: Use, dv1: int, dvsize1: int, top1: int, topsize1: int, p: int)
    requires lo in cs && hi in cs && Chain(cs, lo, hi) && lo < hi && cs[lo].pin
    requires IsFree(use) && !IsFree(cs[hi].use) && OnlyHeads(m, m1, lo, lo, hi) && hi - lo >= MIN_CHUNK_SIZE
    requires Head(m1, lo) == hi - lo + 1 && Head(m1, hi) == HeadWord(cs[hi].(pin := false)) && (use != Top ==> PrevFoot(m1, hi) == hi - lo)
    requires Merged(lo, hi, use, dv, dvsize, top, topsize, dv1, dvsize1, top1, topsize1)
    requires forall q :: q in cs && lo <= q < hi && cs[q].use == Used ==> q == p
    requires HeapOk(m, cs, segs, dv, dvsize, top, topsize)
    ensures var cs1 := Carve1(cs, lo, hi, use);
            && Preserves(m, cs, m1, cs1, {p}) && HeapOk(m1, cs1, segs, dv1, dvsize1, top1, topsize1)
  {
    hide Laid, SegmentsOk, Written, Preserves, Marked, Carve1, OnlyHeads, Chain, FreeOf, Removed, Merged;
    MergeLaid(cs, segs, lo, hi, use);
    Carve1Written(m, m1, cs, lo, hi, use);
    OnlyUsed(m, cs, m1, Carve1(cs, lo, hi, use), lo, hi, p);
    MarksMerged(cs, lo, hi, use, dv, dvsize, top, topsize, dv1, dvsize1, top1, topsize1);
  }

  lemma MergeLaid(cs: Chunks, segs: seq<Segment>, lo: int, hi: int, use: Use)
    requires lo in cs && hi in cs && lo < hi && cs[lo].pin && IsFree(use) && !IsFree(cs[hi].use) && hi - lo >= MIN_CHUNK_SIZE
    requires Laid(cs) && SegmentsOk(cs, segs) && Chain(cs, lo, hi)
    ensures Laid(Carve1(cs, lo, hi, use)) && SegmentsOk(Carve1(cs, lo, hi, use), segs)
    ensures 0 < lo && forall q :: q in cs && lo <= q < hi ==> !IsEnd(cs[q].use)
  {
    hide Laid, SegmentsOk, Chain, Carve1;
    LaidAt(cs, lo);
    LaidAt(cs, hi);
    ChainAligned(cs, segs, lo, hi);
    Carve1Laid(cs, lo, hi, use);
    Carve1Segments(cs, segs, lo, hi, use);
  }

  function Removed(sz: Sizes, lo: int, hi: int): Sizes { map a | a in sz && !(lo <= a < hi) :: sz[a] }

  lemma FreeMerged(cs: Chunks, lo: int, hi: int, use: Use)
    requires lo in cs && hi in cs && lo < hi
    ensures var cs1 := Carve1(cs, lo, hi, use);
            && lo in cs1 && cs1[lo] == Chunk(hi - lo, use, cs[lo].pin)
            && FreeOf(cs1) == if use == Free then Removed(FreeOf(cs), lo, hi)[lo := hi - lo] else Removed(FreeOf(cs), lo, hi)
  {
    var f1 := FreeOf(Carve1(cs, lo, hi, use));
    var f2 := if use == Free then Removed(FreeOf(cs), lo, hi)[lo := hi - lo] else Removed(FreeOf(cs), lo, hi);
    assert forall q :: q in f1 <==> q in f2;
    assert forall q :: q in f1 ==> f1[q] == f2[q];
  }

  lemma OnlyUsed(m: Mem, cs: Chunks, m1: Mem, cs1: Chunks, lo: int, hi: int, p: int)
    requires Preserves(m, cs, m1, cs1, set q | q in cs && lo <= q < hi)
    requires forall q :: q in cs && lo <= q < hi && cs[q].use == Used ==> q == p
    ensures Preserves(m, cs, m1, cs1, {p})
  {
    hide Kept;
  }

  /** A chain ends within a segment. */
  lemma ChainAligned(cs: Chunks, segs: seq<Segment>, lo: int, hi: int)
    requires Laid(cs) && SegmentsOk(cs, segs) && Chain(cs, lo, hi) && lo < hi && lo in cs && hi in cs
    ensures hi <= MAX_ADDR && lo % 8 == 0 && hi % 8 == 0
    ensures forall q :: q in cs && lo <= q < hi ==> !IsEnd(cs[q].use)
  {
    hide Laid, SegmentsOk, Chain;
    var i := ChainSegment(cs, segs, lo, hi);
    LaidAt(cs, lo);
    LaidAt(cs, hi);
  }

  /** The bins do not notice that whole chunks have become one. */
  lemma MergeBins(m: Mem, m1: Mem, cs: Chunks, lo: int, hi: int, smallmap: nat, treemap: nat, small: seq<seq<int>>,
                  tries: seq<Trie>, sz: Sizes)
    requires lo in cs && hi in cs && lo < hi && OnlyHeads(m, m1, lo, lo, hi) && sz == Removed(FreeOf(cs), lo, hi)
    requires Laid(cs) && BinsOk(m, smallmap, treemap, small, tries, sz)
    ensures lo !in sz && BinsOk(m1, smallmap, treemap, small, tries, sz)
  {
    hide BinsOk, FreeOf, Laid, InLayout, OnlyForeign, OnlyHeads;
    RemovedLaid(cs, lo, hi);
    HeadsForeign(m, m1, cs, sz, lo, lo, hi);
    BinsUntouched(m, m1, smallmap, treemap, small, tries, sz);
  }

  /** p0 is no longer in use. */
  predicate Freed(cs: Chunks, p0: int) { !(p0 in cs && cs[p0].use == Used) }

  /** A free chunk with n bytes from p on. */
  predicate FreeAround(q: int, c: Chunk, p: int, n: int) { IsFree(c.use) && q <= p && p + n <= q + c.size }

  /** p0 is no longer in use, and all its bytes are in a free chunk. */
  ghost predicate Released(cs: Chunks, cs1: Chunks, p0: int) {
    Freed(cs1, p0) && (p0 in cs ==> exists q :: q in cs1 && FreeAround(q, cs1[q], p0, cs[p0].size))
  }

  lemma ReleasedIs(cs: Chunks, cs1: Chunks, p0: int)
    requires Released(cs, cs1, p0)
    ensures Freed(cs1, p0)
  {}

  lemma GoneFrom(cs: Chunks, lo: int, hi: int, use: Use, p: int)
    requires Laid(cs) && lo in cs && hi in cs && lo <= p < hi && p in cs && IsFree(use)
    ensures Released(cs, Carve1(cs, lo, hi, use), p)
  {
    hide Laid;
    ClearAt(cs, p, hi);
    assert FreeAround(lo, Carve1(cs, lo, hi, use)[lo], p, cs[p].size);
  }

  lemma RemovedLaid(cs: Chunks, lo: int, hi: int)
    requires Laid(cs)
    ensures InLayout(cs, Removed(FreeOf(cs), lo, hi))
    ensures forall a :: a in Removed(FreeOf(cs), lo, hi) ==> a < lo || a >= hi
  {
    hide Laid;
    FreeLaid(cs, {});
  }

  lemma RemovedIs(cs: Chunks, lo: int, hi: int, out: set<int>)
    requires forall a :: a in cs && cs[a].use == Free ==> (lo <= a < hi <==> a in out)
    ensures Removed(FreeOf(cs), lo, hi) == FreeOf(cs) - out
  {
    var f1, f2 := Removed(FreeOf(cs), lo, hi), FreeOf(cs) - out;
    assert forall q :: q in f1 <==> q in f2;
    assert forall q :: q in f1 ==> f1[q] == f2[q];
  }

  /** One more chunk. */
  lemma {:induction false} ChainOn(cs: Chunks, lo: int, n: int)
    requires Chain(cs, lo, n) && n in cs && cs[n].size > 0 && !IsEnd(cs[n].use)
    ensures Chain(cs, lo, n + cs[n].size)
    decreases n - lo
  {
    if lo == n {
      assert Chain(cs, n + cs[n].size, n + cs[n].size);
    } else {
      ChainOn(cs, lo + cs[lo].size, n);
    }
  }

  // ---------------------------------------------------------------- the method

  /** The chunks that are being merged so far: from p to next, with the freed chunk p0 among them. */
  ghost predicate Merging(cs: Chunks, dv: int, dvsize: int, p: int, next: int, p0: int, out: set<int>) {
    && 0 < p && p in cs && next in cs && p < next && Chain(cs, p, next) && cs[p].pin && next - p >= MIN_CHUNK_SIZE
    && p <= p0 < next && p0 in cs && cs[p0].use == Used
    && (forall q :: q in cs && p <= q < next ==> q == p || q == p0)
    && (p != p0 ==> cs[p].use == Free || cs[p].use == Dv)
    && out == (if p != p0 && cs[p].use == Free then {p} else {})
    && cs[next].use != Foot
  }

  /** The chunk that follows is free: it can be merged too. */
  lemma NextFree(cs: Chunks, dv: int, dvsize: int, top: int, topsize: int, p: int, next: int, p0: int, out: set<int>)
    requires Merging(cs, dv, dvsize, p, next, p0, out) && Laid(cs) && Marked(cs, dv, dvsize, top, topsize) && IsFree(cs[next].use)
    ensures var hi := next + cs[next].size;
            && hi in cs && !IsFree(cs[hi].use) && !cs[hi].pin && Chain(cs, p, hi) && p < next < hi
            && (forall q :: q in cs && p <= q < hi && cs[q].use == Used ==> q == p0)
            && Removed(FreeOf(cs), p, hi) == FreeOf(cs) - (if cs[next].use == Free then out + {next} else out)
            && (forall q :: q in cs && p <= q < hi ==> q == p || q == p0 || q == next)
  {
    hide Laid, Marked;
    var hi := next + cs[next].size;
    Neighbours(cs, next);
    LaidAt(cs, next);
    OnlyOne(cs, next);
    ChainOn(cs, p, next);
    RemovedIs(cs, p, hi, if cs[next].use == Free then out + {next} else out);
  }

  lemma FreeHeads1(m: Mem, p: int, s: int)
    ensures OnlyHeads(m, SetSizeAndPinuseOfFree(m, p, s), p, p, p + s) && OnlyHeads(m, m[p + 8 := s + 1], p, p, p + s)
    ensures s >= 16 ==> Head(SetSizeAndPinuseOfFree(m, p, s), p) == s + 1 && PrevFoot(SetSizeAndPinuseOfFree(m, p, s), p + s) == s
    ensures s >= 16 ==> Head(SetSizeAndPinuseOfFree(m, p, s), p + s) == Head(m, p + s)
    ensures s > 0 ==> Head(m[p + 8 := s + 1], p) == s + 1 && Head(m[p + 8 := s + 1], p + s) == Head(m, p + s)
  {}

  lemma FreeHeads2(m: Mem, p: int, s: int)
    ensures OnlyHeads(m, SetFreeWithPinuse(m, p, s, p + s), p, p, p + s)
    ensures s >= 16 ==> Head(SetFreeWithPinuse(m, p, s, p + s), p) == s + 1 && PrevFoot(SetFreeWithPinuse(m, p, s, p + s), p + s) == s
    ensures s >= 16 ==> Head(SetFreeWithPinuse(m, p, s, p + s), p + s) == Head(m, p + s) - Head(m, p + s) % 2
  {}

  /** What one of the ends of `lj_alloc_free` has written: whole chunks are one free chunk. */
  lemma Finish(ms: MallocState, m: Mem, cs: Chunks, dv: int, dvsize: int, top: int, topsize: int, lo: int, hi: int, use: Use, p: int)
    requires lo in cs && hi in cs && Chain(cs, lo, hi) && lo <= p < hi && p in cs && cs[lo].pin
    requires IsFree(use) && !IsFree(cs[hi].use) && OnlyHeads(m, ms.mem, lo, lo, hi) && hi - lo >= MIN_CHUNK_SIZE
    requires Head(ms.mem, lo) == hi - lo + 1 && Head(ms.mem, hi) == HeadWord(cs[hi].(pin := false))
    requires use != Top ==> PrevFoot(ms.mem, hi) == hi - lo
    requires Merged(lo, hi, use, dv, dvsize, top, topsize, ms.dv, ms.dvsize, ms.top, ms.topsize)
    requires forall q :: q in cs && lo <= q < hi && cs[q].use == Used ==> q == p
    requires ms.free == Removed(FreeOf(cs), lo, hi)
    requires HeapOk(m, cs, ms.segs, dv, dvsize, top, topsize) && BinsOk(m, ms.smallmap, ms.treemap, ms.small, ms.tries, ms.free)
    ensures Finished(ms, m, cs, lo, hi, use, p)
  {
    hide HeapOk, BinsOk, Preserves, FreeOf, Laid, Written, SegmentsOk, Marked, InLayout, OnlyForeign, OnlyHeads, Carve1, Chain;
    OkParts(m, cs, ms.segs, dv, dvsize, top, topsize);
    MergeFree(m, ms.mem, cs, ms.segs, dv, dvsize, top, topsize, lo, hi, use, ms.dv, ms.dvsize, ms.top, ms.topsize, p);
    FreeMerged(cs, lo, hi, use);
    GoneFrom(cs, lo, hi, use, p);
    MergeBins(m, ms.mem, cs, lo, hi, ms.smallmap, ms.treemap, ms.small, ms.tries, ms.free);
  }

  ghost predicate Finished(ms: MallocState, m: Mem, cs: Chunks, lo: int, hi: int, use: Use, p: int)
    requires lo in cs && hi in cs && lo < hi
    reads ms
  {
    var cs1 := Carve1(cs, lo, hi, use);
    && Released(cs, cs1, p) && lo in cs1 && cs1[lo] == Chunk(hi - lo, use, true) && lo !in ms.free
    && FreeOf(cs1) == (if use == Free then ms.free[lo := hi - lo] else ms.free)
    && Preserves(m, cs, ms.mem, cs1, {p}) && ms.BinsValid()
    && HeapOk(ms.mem, cs1, ms.segs, ms.dv, ms.dvsize, ms.top, ms.topsize)
  }

  /** The chunk that follows is the top chunk. */
  method MergeTop(ms: MallocState, p: int, psize: nat, next: int, ghost p0: int, ghost out: set<int>)
    requires Merging(ms.chunks, ms.dv, ms.dvsize, p, next, p0, out) && psize == next - p
    requires next == ms.top && ms.free == FreeOf(ms.chunks) - out
    requires HeapValid(ms) && ms.BinsValid()
    modifies ms`mem, ms`chunks, ms`smallmap, ms`treemap, ms`small, ms`tries, ms`free, ms`dv, ms`dvsize, ms`top, ms`topsize
    ensures Released(old(ms.chunks), ms.chunks, p0) && Preserves(old(ms.mem), old(ms.chunks), ms.mem, ms.chunks, {p0}) && Valid(ms)
  {
    hide Released, HeapOk, BinsOk, Preserves, FreeOf, Laid, Written, SegmentsOk, Marked, InLayout, OnlyHeads, Carve1, Chain,
         Removed, Merging;
    ghost var m, cs, dv, dvsize, top, topsize := ms.mem, ms.chunks, ms.dv, ms.dvsize, ms.top, ms.topsize;
    HeapParts(ms);
    DvSmall(ms);
    DvAt(cs, dv, dvsize, top, topsize);
    MergingAt(cs, dv, dvsize, p, next, p0, out);
    MarkedFree(cs, dv, dvsize, top, topsize, next);
    NextFree(cs, dv, dvsize, top, topsize, p, next, p0, out);
    NextSizes(m, cs, next);
    ghost var hi := next + cs[next].size;
    HeadSays(m, cs, hi);
    ms.topsize := ms.topsize + psize;
    var tsize := ms.topsize;
    ms.top := p;
    ms.mem := ms.mem[p + 8 := tsize + 1];
    if p == ms.dv {
      ms.dv := 0;
      ms.dvsize := 0;
    }
    FreeHeads1(m, p, tsize);
    Finish(ms, m, cs, dv, dvsize, top, topsize, p, hi, Top, p0);
    ms.chunks := Carve1(cs, p, hi, Top);
  }

  /** The chunk that follows is the designated victim. */
  method MergeDv(ms: MallocState, p: int, psize: nat, next: int, ghost p0: int, ghost out: set<int>)
    requires Merging(ms.chunks, ms.dv, ms.dvsize, p, next, p0, out) && psize == next - p
    requires next == ms.dv && ms.free == FreeOf(ms.chunks) - out
    requires HeapValid(ms) && ms.BinsValid()
    modifies ms`mem, ms`chunks, ms`smallmap, ms`treemap, ms`small, ms`tries, ms`free, ms`dv, ms`dvsize, ms`top, ms`topsize
    ensures Released(old(ms.chunks), ms.chunks, p0) && Preserves(old(ms.mem), old(ms.chunks), ms.mem, ms.chunks, {p0}) && Valid(ms)
  {
    hide Released, HeapOk, BinsOk, Preserves, FreeOf, Laid, Written, SegmentsOk, Marked, InLayout, OnlyHeads, Carve1, Chain,
         Removed, Merging;
    ghost var m, cs, dv, dvsize, top, topsize := ms.mem, ms.chunks, ms.dv, ms.dvsize, ms.top, ms.topsize;
    HeapParts(ms);
    DvSmall(ms);
    DvAt(cs, dv, dvsize, top, topsize);
    MergingAt(cs, dv, dvsize, p, next, p0, out);
    MarkedFree(cs, dv, dvsize, top, topsize, next);
    NextFree(cs, dv, dvsize, top, topsize, p, next, p0, out);
    NextSizes(m, cs, next);
    ghost var hi := next + cs[next].size;
    HeadSays(m, cs, hi);
    ms.dvsize := ms.dvsize + psize;
    var dsize := ms.dvsize;
    ms.dv := p;
    ms.mem := ms.mem[p + 8 := dsize + 1][p + dsize := dsize];
    FreeHeads1(m, p, dsize);
    Finish(ms, m, cs, dv, dvsize, top, topsize, p, hi, Dv, p0);
    ms.chunks := Carve1(cs, p, hi, Dv);
  }

  lemma MarkedFree(cs: Chunks, dv: int, dvsize: int, top: int, topsize: int, p: int)
    requires Marked(cs, dv, dvsize, top, topsize) && p > 0 && p in cs
    ensures p == top ==> cs[p].use == Top
    ensures p == dv ==> cs[p].use == Dv && dvsize != 0
    ensures cs[p].use == Top ==> p == top
    ensures cs[p].use == Dv ==> p == dv && dvsize != 0
  {}

  /** The chunk that follows is an ordinary free chunk. */
  method MergeNext(ms: MallocState, p: int, psize0: nat, next: int, ghost p0: int, ghost out: set<int>) returns (done: bool, psize: nat)
    requires Merging(ms.chunks, ms.dv, ms.dvsize, p, next, p0, out) && psize0 == next - p
    requires next in ms.chunks && ms.chunks[next].use == Free && ms.free == FreeOf(ms.chunks) - out
    requires HeapValid(ms) && ms.BinsValid()
    modifies ms`mem, ms`chunks, ms`smallmap, ms`treemap, ms`small, ms`tries, ms`free, ms`dv, ms`dvsize, ms`top, ms`topsize
    ensures Released(old(ms.chunks), ms.chunks, p0) && Preserves(old(ms.mem), old(ms.chunks), ms.mem, ms.chunks, {p0})
    ensures if done then Valid(ms) else Pending(ms, p, psize)
  {
    hide Released, HeapOk, BinsOk, Preserves, FreeOf, Laid, Written, SegmentsOk, Marked, InLayout, OnlyHeads, Carve1, Chain,
         Removed, Merging;
    ghost var m, cs, dv, dvsize, top, topsize := ms.mem, ms.chunks, ms.dv, ms.dvsize, ms.top, ms.topsize;
    HeapParts(ms);
    MergingAt(cs, dv, dvsize, p, next, p0, out);
    NextFree(cs, dv, dvsize, top, topsize, p, next, p0, out);
    NextSizes(m, cs, next);
    MarkedFree(cs, dv, dvsize, top, topsize, p);
    TopAfter(cs, dv, dvsize, top, topsize, p, next, p0, out);
    ghost var hi := next + cs[next].size;
    var nsize := ChunkSize(ms.mem, next);
    psize := psize0 + nsize;
    AllFree(m, cs, next);
    InOut(cs, out, next);
    Unlink(ms, next, nsize, out);
    ghost var m2 := ms.mem;
    OkParts(m2, cs, ms.segs, dv, dvsize, top, topsize);
    HeadSays(m2, cs, hi);
    ms.mem := ms.mem[p + 8 := psize + 1][p + psize := psize];
    FreeHeads1(m2, p, psize);
    PreservesLess(m, cs, m2, cs, {p0});
    done := p == ms.dv;
    if done {
      ms.dvsize := psize;
      Finish(ms, m2, cs, dv, dvsize, top, topsize, p, hi, Dv, p0);
      ms.chunks := Carve1(cs, p, hi, Dv);
    } else {
      Finish(ms, m2, cs, dv, dvsize, top, topsize, p, hi, Free, p0);
      WithoutLast(ms.free, p, psize);
      ms.chunks := Carve1(cs, p, hi, Free);
    }
    PreservesTrans(m, cs, m2, cs, ms.mem, ms.chunks, {p0});
  }

  /** A free chunk of the layout waits to be put into its bin. */
  ghost predicate Pending(ms: MallocState, p: int, psize: nat)
    reads ms
  {
    && p in ms.chunks && ms.chunks[p].use == Free && ms.chunks[p].size == psize && ms.free == FreeOf(ms.chunks) - {p}
    && HeapValid(ms) && ms.BinsValid()
  }

  /** The top chunk and the designated victim are not among chunks that are none of them. */
  lemma TopAfter(cs: Chunks, dv: int, dvsize: int, top: int, topsize: int, p: int, next: int, p0: int, out: set<int>)
    requires Merging(cs, dv, dvsize, p, next, p0, out) && Laid(cs) && Marked(cs, dv, dvsize, top, topsize) && cs[next].use == Free
    ensures var hi := next + cs[next].size; !(p <= top < hi) && (p <= dv < hi && dvsize != 0 ==> dv == p)
  {
    hide Laid, Chain;
    OnlyOne(cs, next);
  }

  /** The chunk that follows is in use. */
  method MergeNone(ms: MallocState, p: int, psize: nat, next: int, ghost p0: int, ghost out: set<int>)
    requires Merging(ms.chunks, ms.dv, ms.dvsize, p, next, p0, out) && psize == next - p && p != ms.dv
    requires next in ms.chunks && !IsFree(ms.chunks[next].use) && ms.free == FreeOf(ms.chunks) - out
    requires HeapValid(ms) && ms.BinsValid()
    modifies ms`mem, ms`chunks, ms`smallmap, ms`treemap, ms`small, ms`tries, ms`free, ms`dv, ms`dvsize, ms`top, ms`topsize
    ensures Released(old(ms.chunks), ms.chunks, p0) && Preserves(old(ms.mem), old(ms.chunks), ms.mem, ms.chunks, {p0})
    ensures Pending(ms, p, psize)
  {
    hide Released, HeapOk, BinsOk, Preserves, FreeOf, Laid, Written, SegmentsOk, Marked, InLayout, OnlyHeads, Carve1, Chain,
         Removed, Merging;
    ghost var m, cs, dv, dvsize, top, topsize := ms.mem, ms.chunks, ms.dv, ms.dvsize, ms.top, ms.topsize;
    HeapParts(ms);
    DvAt(cs, dv, dvsize, top, topsize);
    MergingAt(cs, dv, dvsize, p, next, p0, out);
    MarkedFree(cs, dv, dvsize, top, topsize, p);
    HeadSays(m, cs, next);
    ms.mem := ms.mem[next + 8 := Head(ms.mem, next) - Head(ms.mem, next) % 2];
    ms.mem := ms.mem[p + 8 := psize + 1][p + psize := psize];
    FreeHeads2(m, p, psize);
    NextUsed(cs, dv, dvsize, top, topsize, p, next, p0, out);
    Finish(ms, m, cs, dv, dvsize, top, topsize, p, next, Free, p0);
    WithoutLast(ms.free, p, psize);
    ms.chunks := Carve1(cs, p, next, Free);
  }

  /** The end of `lj_alloc_free`: merges with the chunk that follows, and puts the result into a bin,
      unless it is the designated victim or the top chunk. */
  method FreeForward(ms: MallocState, p: int, psize0: nat, next: int, ghost p0: int, ghost out: set<int>)
    requires Merging(ms.chunks, ms.dv, ms.dvsize, p, next, p0, out) && psize0 == next - p && (CInuse(ms.mem, next) ==> p != ms.dv)
    requires ms.free == FreeOf(ms.chunks) - out && HeapValid(ms) && ms.BinsValid()
    modifies ms`mem, ms`chunks, ms`smallmap, ms`treemap, ms`small, ms`tries, ms`free, ms`dv, ms`dvsize, ms`top, ms`topsize
    ensures Released(old(ms.chunks), ms.chunks, p0) && Preserves(old(ms.mem), old(ms.chunks), ms.mem, ms.chunks, {p0}) && Valid(ms)
  {
    hide Released, HeapOk, BinsOk, Preserves, FreeOf, Laid, Written, SegmentsOk, Marked, Merging;
    ghost var m, cs := ms.mem, ms.chunks;
    var psize, done := psize0, false;
    HeapParts(ms);
    MergingAt(cs, ms.dv, ms.dvsize, p, next, p0, out);
    HeadSays(m, cs, next);
    MarkedFree(cs, ms.dv, ms.dvsize, ms.top, ms.topsize, next);
    if !CInuse(ms.mem, next) {
      if next == ms.top {
        MergeTop(ms, p, psize, next, p0, out);
        return;
      } else if next == ms.dv {
        MergeDv(ms, p, psize, next, p0, out);
        return;
      }
      done, psize := MergeNext(ms, p, psize, next, p0, out);
      if done { return; }
    } else {
      MergeNone(ms, p, psize, next, p0, out);
    }
    ghost var m3, cs3 := ms.mem, ms.chunks;
    Insert(ms, p, psize);
    PreservesLess(m3, cs3, ms.mem, cs3, {p0});
    PreservesTrans(m, cs, m3, cs3, ms.mem, cs3, {p0});
  }

  lemma PreservesLess(m: Mem, cs: Chunks, m1: Mem, cs1: Chunks, out: set<int>)
    requires Preserves(m, cs, m1, cs1, {})
    ensures Preserves(m, cs, m1, cs1, out)
  {
    hide Kept;
  }

  lemma InOut(cs: Chunks, out: set<int>, p: int)
    requires p in FreeOf(cs) && p !in out
    ensures p in FreeOf(cs) - out && (FreeOf(cs) - out)[p] == FreeOf(cs)[p]
  {}

  lemma NextSizes(m: Mem, cs: Chunks, next: int)
    requires Laid(cs) && Written(m, cs) && next in cs && IsFree(cs[next].use)
    ensures ChunkSize(m, next) == cs[next].size && cs[next].size >= 8 && next > 0
  {
    hide Laid, Written;
    HeadSays(m, cs, next);
    LaidAt(cs, next);
  }

  lemma MergingAt(cs: Chunks, dv: int, dvsize: int, p: int, next: int, p0: int, out: set<int>)
    requires Merging(cs, dv, dvsize, p, next, p0, out)
    ensures 0 < p && p in cs && next in cs && p < next && Chain(cs, p, next) && cs[p].pin && next - p >= MIN_CHUNK_SIZE
    ensures p <= p0 < next && p0 in cs && cs[p0].use == Used && cs[next].use != Foot && next !in out
    ensures p == p0 || cs[p].use == Free || cs[p].use == Dv
  {}

  /** The chunk that follows is in use. */
  lemma NextUsed(cs: Chunks, dv: int, dvsize: int, top: int, topsize: int, p: int, next: int, p0: int, out: set<int>)
    requires Merging(cs, dv, dvsize, p, next, p0, out)
    ensures forall q :: q in cs && p <= q < next && cs[q].use == Used ==> q == p0
    ensures Removed(FreeOf(cs), p, next) == FreeOf(cs) - out
    ensures forall q :: q in cs && p <= q < next ==> q == p || q == p0
  {
    RemovedIs(cs, p, next, out);
  }

  // ---------------------------------------------------------------- merging with the chunk before

  /** mem is a block that the allocator handed out. */
  predicate Block(cs: Chunks, mem: int) { mem - 16 in cs && cs[mem - 16].use == Used }

  /** The free chunk before, as its foot says. */
  lemma ChunkBefore(m: Mem, cs: Chunks, dv: int, dvsize: int, top: int, topsize: int, p: int)
    requires Laid(cs) && Written(m, cs) && Marked(cs, dv, dvsize, top, topsize) && p in cs && cs[p].use == Used && !cs[p].pin
    ensures var prev := p - PrevFoot(m, p);
            && prev in cs && (cs[prev].use == Free || cs[prev].use == Dv) && prev + cs[prev].size == p && cs[prev].pin
            && PrevFoot(m, p) == cs[prev].size && PrevFoot(m, p) % 8 == 0 && prev > 0 && cs[prev].size >= MIN_CHUNK_SIZE
  {
    hide Laid, Written;
    var q := PrevFree(cs, p);
    LaidAt(cs, q);
    FootAt(m, cs, q);
  }

  /** The freed chunk alone. */
  lemma MergeStart(cs: Chunks, dv: int, dvsize: int, top: int, topsize: int, p: int)
    requires Laid(cs) && Marked(cs, dv, dvsize, top, topsize) && p in cs && cs[p].use == Used
    ensures var next := p + cs[p].size; next in cs && cs[next].use != Foot && p > 0 && cs[p].size >= MIN_CHUNK_SIZE
    ensures cs[p].pin ==> Merging(cs, dv, dvsize, p, p + cs[p].size, p, {})
    ensures p != dv
  {
    hide Laid, Marked;
    LaidAt(cs, p);
    Neighbours(cs, p);
    OnlyOne(cs, p);
    NotFoot(cs, dv, dvsize, top, topsize, p);
    MarkedNot(cs, dv, dvsize, top, topsize, p);
  }

  lemma MarkedNot(cs: Chunks, dv: int, dvsize: int, top: int, topsize: int, p: int)
    requires Marked(cs, dv, dvsize, top, topsize) && p in cs && p > 0 && cs[p].use != Dv
    ensures p != dv
  {}

  /** The freed chunk with the free chunk before it. */
  lemma MergeBack(cs: Chunks, dv: int, dvsize: int, top: int, topsize: int, p: int, prev: int)
    requires Laid(cs) && Marked(cs, dv, dvsize, top, topsize) && p in cs && cs[p].use == Used
    requires prev in cs && (cs[prev].use == Free || cs[prev].use == Dv) && prev + cs[prev].size == p && cs[prev].pin
    ensures p + cs[p].size in cs
    ensures Merging(cs, dv, dvsize, prev, p + cs[p].size, p, if cs[prev].use == Free then {prev} else {})
    ensures prev == dv <==> cs[prev].use == Dv
  {
    hide Laid, Marked;
    MergeStart(cs, dv, dvsize, top, topsize, p);
    LaidAt(cs, prev);
    Neighbours(cs, prev);
    Neighbours(cs, p);
    OnlyOne(cs, prev);
    OnlyOne(cs, p);
    ChainOn(cs, prev, p);
    MarkedFree(cs, dv, dvsize, top, topsize, prev);
  }

  /** The free chunk before is merged; done if the designated victim has grown and nothing else is to do. */
  method MergePrev(ms: MallocState, p0: int, psize0: nat) returns (done: bool, p: int, psize: nat, ghost out: set<int>)
    requires p0 in ms.chunks && ms.chunks[p0].use == Used && psize0 == ms.chunks[p0].size && !ms.chunks[p0].pin
    requires Valid(ms)
    modifies ms`mem, ms`chunks, ms`smallmap, ms`treemap, ms`small, ms`tries, ms`free, ms`dv, ms`dvsize, ms`top, ms`topsize
    ensures done ==> Released(old(ms.chunks), ms.chunks, p0) && Valid(ms)
    ensures !done ==> Ready(ms, old(ms.chunks), p, p0, psize, out) && p0 + psize0 == p + psize
    ensures Preserves(old(ms.mem), old(ms.chunks), ms.mem, ms.chunks, {p0})
  {
    hide Released, HeapOk, BinsOk, Preserves, FreeOf, Laid, Written, SegmentsOk, Marked, Merging, PInuse, CInuse, ChunkSize, PrevFoot;
    ghost var m, cs := ms.mem, ms.chunks;
    HeapParts(ms);
    ChunkBefore(m, cs, ms.dv, ms.dvsize, ms.top, ms.topsize, p0);
    var prevsize := PrevFoot(ms.mem, p0);
    assert prevsize % 2 == 0;  // IS_DIRECT_BIT is clear
    var next := p0 + psize0;
    psize := psize0 + prevsize;
    p := p0 - prevsize;
    out := {};
    done := false;
    MergeBack(cs, ms.dv, ms.dvsize, ms.top, ms.topsize, p0, p);
    Neighbours(cs, p0);
    HeadSays(m, cs, next);
    PreservesSelf(m, cs);
    NoneOut(cs);
    if p != ms.dv {
      AllFree(m, cs, p);
      Unlink(ms, p, prevsize, {});
      out := {p};
      NoneAnd(cs, p);
    } else if CInuse(ms.mem, next) && PInuse(ms.mem, next) {
      MergeStart(cs, ms.dv, ms.dvsize, ms.top, ms.topsize, p0);
      ExtendDv(ms, p, psize, next, p0);
      done := true;
      return;
    }
    PreservesLess(m, cs, ms.mem, cs, {p0});
    MergeStart(cs, ms.dv, ms.dvsize, ms.top, ms.topsize, p0);
    HeapParts(ms);
    HeadSays(ms.mem, cs, next);
  }

  /** The chunks from p on can be merged with what follows. */
  ghost predicate Ready(ms: MallocState, cs: Chunks, p: int, p0: int, psize: nat, out: set<int>)
    reads ms
  {
    && cs == ms.chunks && ms.free == FreeOf(cs) - out && (CInuse(ms.mem, p + psize) ==> p != ms.dv)
    && HeapValid(ms) && ms.BinsValid() && Merging(cs, ms.dv, ms.dvsize, p, p + psize, p0, out)
  }

  /** `lj_alloc_free`: the block is free, and no other block is touched. */
  method LjAllocFree(ms: MallocState, mem: int)
    requires mem == 0 || Block(ms.chunks, mem)
    requires Valid(ms)
    modifies ms`mem, ms`chunks, ms`smallmap, ms`treemap, ms`small, ms`tries, ms`free, ms`dv, ms`dvsize, ms`top, ms`topsize
    ensures mem != 0 ==> Freed(ms.chunks, mem - 16) && Released(old(ms.chunks), ms.chunks, mem - 16)
    ensures Preserves(old(ms.mem), old(ms.chunks), ms.mem, ms.chunks, if mem == 0 then {} else {mem - 16}) && Valid(ms)
  {
    hide Released, HeapOk, BinsOk, Preserves, FreeOf, Laid, Written, SegmentsOk, Marked, Merging, PInuse, CInuse, ChunkSize, PrevFoot;
    ghost var m, cs := ms.mem, ms.chunks;
    PreservesSelf(m, cs);
    if mem != 0 {
      HeapParts(ms);
      var p := mem - 16;
      HeadSays(m, cs, p);
      MergeStart(cs, ms.dv, ms.dvsize, ms.top, ms.topsize, p);
      NoneOut(cs);
      PreservesLess(m, cs, m, cs, {p});
      var psize := ChunkSize(ms.mem, p);
      var next := p + psize;
      ghost var p0, out: set<int> := p, {};
      if !PInuse(ms.mem, p) {
        var done;
        done, p, psize, out := MergePrev(ms, p, psize);
        if done {
          ReleasedIs(cs, ms.chunks, p0);
          return;
        }
      }
      ghost var m2 := ms.mem;
      FreeForward(ms, p, psize, next, p0, out);
      ReleasedIs(cs, ms.chunks, p0);
      PreservesTrans(m, cs, m2, cs, ms.mem, ms.chunks, {p0});
    }
  }

  lemma NoneOut(cs: Chunks)
    ensures FreeOf(cs) - {} == FreeOf(cs)
  {}

  lemma NoneAnd(cs: Chunks, p: int)
    ensures {} + {p} == {p} && FreeOf(cs) - ({} + {p}) == FreeOf(cs) - {p}
  {}

  /** The designated victim grows by the chunk behind it, and no further. */
  method ExtendDv(ms: MallocState, p: int, psize: nat, next: int, ghost p0: int)
    requires Merging(ms.chunks, ms.dv, ms.dvsize, p, next, p0, {}) && psize == next - p && p == ms.dv
    requires next in ms.chunks && !IsFree(ms.chunks[next].use)
    requires Valid(ms)
    modifies ms`mem, ms`chunks, ms`smallmap, ms`treemap, ms`small, ms`tries, ms`free, ms`dv, ms`dvsize, ms`top, ms`topsize
    ensures Released(old(ms.chunks), ms.chunks, p0) && Preserves(old(ms.mem), old(ms.chunks), ms.mem, ms.chunks, {p0}) && Valid(ms)
  {
    hide Released, HeapOk, BinsOk, Preserves, FreeOf, Laid, Written, SegmentsOk, Marked, InLayout, OnlyHeads, Carve1, Chain,
         Removed, Merging;
    ghost var m, cs, dv, dvsize, top, topsize := ms.mem, ms.chunks, ms.dv, ms.dvsize, ms.top, ms.topsize;
    HeapParts(ms);
    NoneOut(cs);
    DvAt(cs, dv, dvsize, top, topsize);
    MergingAt(cs, dv, dvsize, p, next, p0, {});
    MarkedFree(cs, dv, dvsize, top, topsize, p);
    HeadSays(m, cs, next);
    NextUsed(cs, dv, dvsize, top, topsize, p, next, p0, {});
    ms.dvsize := psize;
    ms.mem := ms.mem[next + 8 := Head(ms.mem, next) - Head(ms.mem, next) % 2];
    ms.mem := ms.mem[p + 8 := psize + 1][p + psize := psize];
    FreeHeads2(m, p, psize);
    Finish(ms, m, cs, dv, dvsize, top, topsize, p, next, Dv, p0);
    ms.chunks := Carve1(cs, p, next, Dv);
  }
}
