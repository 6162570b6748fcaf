/** `lj_alloc_realloc` (luajit/lj_alloc.c), and what the owner of a block may do. */
module AllocRealloc {
  import opened AllocMem
  import opened AllocBytes
  import opened AllocTrie
  import opened AllocBins
  import opened AllocHeap
  import opened AllocSteps
  import opened AllocMalloc
  import opened AllocFree
  import opened AllocRequest
  import opened AllocRecut
  import opened AllocSystem

  // ---------------------------------------------------------------- contents

  /** `memcpy` between blocks, which are aligned. */
  method MemCopy(m: Mem, dst: int, src: int, n: nat) returns (m1: Mem)
    requires dst + n <= src || src + n <= dst
    ensures Same(m, src, m1, dst, n) && forall c :: !(dst <= c < dst + n) ==> R(m1, c) == R(m, c)
  {
    m1 := m;
    for i := 0 to n / 8
      invariant forall k :: 0 <= k < i ==> R(m1, dst + 8 * k) == R(m, src + 8 * k)
      invariant forall c :: !(dst <= c < dst + 8 * i) ==> R(m1, c) == R(m, c)
    {
      m1 := m1[dst + 8 * i := R(m1, src + 8 * i)];
    }
    var r, d, s := n % 8, dst + n / 8 * 8, src + n / 8 * 8;
    if r > 0 {
      m1 := m1[d := R(m1, d) - Low(R(m1, d), r) + Low(R(m1, s), r)];
      LowOfSum(R(m, d), R(m, s), Weight(r));
    } else {
      Trivial(R(m1, d), R(m, s));
    }
  }

  lemma Trivial(v: int, w: int)
    ensures Low(v, 0) == Low(w, 0)
  {}

  lemma LowOfSum(v: int, w: int, p: nat)
    requires p > 0
    ensures (v - v % p + w % p) % p == w % p
  {
    DivisionOf(v, p);
    DivisionOf(w, p);
    Quotient(v - v % p + w % p, p, v / p, w % p);
  }

  lemma KeptSame(m: Mem, m1: Mem, p: int, size: nat, n: nat)
    requires Kept(m, m1, p, size) && n + 8 <= size && size % 8 == 0
    ensures Same(m, p + 16, m1, p + 16, n)
  {
    if n % 8 == 0 { Trivial(R(m, p + 16 + n / 8 * 8), R(m1, p + 16 + n / 8 * 8)); }
  }

  lemma SameTrans(m: Mem, a: int, m1: Mem, b: int, m2: Mem, c: int, n: nat)
    requires Same(m, a, m1, b, n) && Same(m1, b, m2, c, n)
    ensures Same(m, a, m2, c, n)
  {}

  // ---------------------------------------------------------------- the owner writes to a block

  /** Only words of block p differ. */
  ghost predicate OnlyBlock(m: Mem, m1: Mem, p: int, size: nat) { forall c :: R(m1, c) != R(m, c) ==> p + 16 <= c < p + size + 8 }

  lemma BlockWord(m: Mem, m1: Mem, p: int, size: nat, c: int)
    requires OnlyBlock(m, m1, p, size) && !(p + 16 <= c < p + size + 8)
    ensures R(m1, c) == R(m, c)
  {}

  lemma BlockWritten(m: Mem, m1: Mem, cs: Chunks, p: int)
    requires Laid(cs) && Written(m, cs) && p in cs && cs[p].use == Used && OnlyBlock(m, m1, p, cs[p].size)
    ensures Written(m1, cs) && Preserves(m, cs, m1, cs, {p}) && OnlyForeign(m, m1, FreeOf(cs))
  {
    hide Laid, OnlyBlock, Foreign, OnlyForeign;
    forall q | q in cs
      ensures Head(m1, q) == Head(m, q)
      ensures cs[q].use == Free || cs[q].use == Dv ==> PrevFoot(m1, q + cs[q].size) == PrevFoot(m, q + cs[q].size)
      ensures cs[q].use == Used && q != p ==> Kept(m, m1, q, cs[q].size)
    {
      LaidAt(cs, q);
      ClearAt(cs, p, q);
      ClearAt(cs, q, p);
      BlockWord(m, m1, p, cs[p].size, q + 8);
      if cs[q].use == Free || cs[q].use == Dv { BlockWord(m, m1, p, cs[p].size, q + cs[q].size); }
      if cs[q].use == Used && q != p {
        forall c | q + 16 <= c < q + cs[q].size + 8
          ensures R(m1, c) == R(m, c)
        {
          BlockWord(m, m1, p, cs[p].size, c);
        }
      }
    }
    BlockForeign(m, m1, cs, p);
  }

  lemma BlockForeign(m: Mem, m1: Mem, cs: Chunks, p: int)
    requires Laid(cs) && p in cs && cs[p].use == Used && OnlyBlock(m, m1, p, cs[p].size)
    ensures OnlyForeign(m, m1, FreeOf(cs))
  {
    hide Laid;
    LaidAt(cs, p);
    forall c | R(m1, c) != R(m, c)
      ensures Foreign(FreeOf(cs), c)
    {
      forall a | a in FreeOf(cs)
        ensures !InChunk(FreeOf(cs), a, c)
      {
        ClearAt(cs, a, p);
        ClearAt(cs, p, a);
      }
    }
  }

  /** The owner of a block may write to it. */
  lemma BlockOk(m: Mem, m1: Mem, cs: Chunks, segs: seq<Segment>, dv: int, dvsize: int, top: int, topsize: int, p: int,
                smallmap: nat, treemap: nat, small: seq<seq<int>>, tries: seq<Trie>)
    requires HeapOk(m, cs, segs, dv, dvsize, top, topsize) && BinsOk(m, smallmap, treemap, small, tries, FreeOf(cs))
    requires p in cs && cs[p].use == Used && OnlyBlock(m, m1, p, cs[p].size)
    ensures HeapOk(m1, cs, segs, dv, dvsize, top, topsize) && BinsOk(m1, smallmap, treemap, small, tries, FreeOf(cs))
    ensures Preserves(m, cs, m1, cs, {p})
  {
    hide Laid, SegmentsOk, Marked, Written, BinsOk, FreeOf, OnlyBlock, OnlyForeign, Preserves;
    BlockWritten(m, m1, cs, p);
    BinsUntouched(m, m1, smallmap, treemap, small, tries, FreeOf(cs));
  }

  // ---------------------------------------------------------------- lj_alloc_realloc

  /** Chunks other than p stay as they are; a chunk that is no longer there was never in use. */
  lemma PreservesPart(m: Mem, cs: Chunks, m1: Mem, cs1: Chunks, m2: Mem, cs2: Chunks, p: int, r: int)
    requires Preserves(m, cs, m1, cs1, {p}) && Preserves(m1, cs1, m2, cs2, {r}) && r !in cs
    ensures Preserves(m, cs, m2, cs2, {p})
  {
    hide Kept;
    forall q | q in cs && cs[q].use == Used && q != p
      ensures q in cs2 && cs2[q].use == Used && cs2[q].size == cs[q].size && Kept(m, m2, q, cs[q].size)
    {
      assert Kept(m, m1, q, cs[q].size) && Kept(m1, m2, q, cs[q].size);
      KeptTrans(m, m1, m2, q, cs[q].size);
    }
  }

  lemma KeptTrans(m: Mem, m1: Mem, m2: Mem, p: int, size: nat)
    requires Kept(m, m1, p, size) && Kept(m1, m2, p, size)
    ensures Kept(m, m2, p, size)
  {}

  lemma PreservesAt(m: Mem, cs: Chunks, m1: Mem, cs1: Chunks, out: set<int>, p: int)
    requires Preserves(m, cs, m1, cs1, out) && p in cs && cs[p].use == Used && p !in out
    ensures p in cs1 && cs1[p].use == Used && cs1[p].size == cs[p].size && Kept(m, m1, p, cs[p].size)
  {}

  /** The chunk that follows a block. */
  ghost predicate BlockEnds(cs: Chunks, p: int) {
    && p > 0 && p % 8 == 0 && p in cs && cs[p].use == Used && cs[p].size >= MIN_CHUNK_SIZE && cs[p].size % 8 == 0
    && p + cs[p].size in cs && cs[p + cs[p].size].use != Foot && cs[p + cs[p].size].pin && Chain(cs, p, p + cs[p].size)
    && forall q :: q in cs && p <= q < p + cs[p].size ==> q == p
  }

  lemma BlockShape(cs: Chunks, dv: int, dvsize: int, top: int, topsize: int, p: int)
    requires Laid(cs) && Marked(cs, dv, dvsize, top, topsize) && p in cs && cs[p].use == Used
    ensures BlockEnds(cs, p)
  {
    hide Laid, Marked;
    Neighbours(cs, p);
    OnlyOne(cs, p);
    NotFoot(cs, dv, dvsize, top, topsize, p);
  }

  lemma ShrinkHeads(m: Mem, m1: Mem, cs: Chunks, p: int, nb: int)
    requires Laid(cs) && Written(m, cs) && BlockEnds(cs, p) && 8 <= nb && nb + 16 <= cs[p].size
    requires m1 == SetInuse(SetInuse(m, p, nb), p + nb, cs[p].size - nb) && nb % 8 == 0
    ensures CutHeads(m, m1, cs, p, p + nb, p + cs[p].size, Used)
  {
    hide Laid, Written, Chain;
    HeadSays(m, cs, p);
    HeadSays(m, cs, p + cs[p].size);
  }

  lemma ShrinkMarks(cs: Chunks, p: int, mid: int, dv: int, dvsize: int, top: int, topsize: int)
    requires Marked(cs, dv, dvsize, top, topsize) && BlockEnds(cs, p)
    ensures Cutting(p, mid, p + cs[p].size, Used, dv, dvsize, top, topsize, dv, dvsize, top, topsize)
  {
    hide Chain;
  }

  lemma NothingRemoved(cs: Chunks, p: int)
    requires BlockEnds(cs, p)
    ensures Removed(FreeOf(cs), p, p + cs[p].size) == FreeOf(cs)
  {
    hide Chain;
    var f1, f2 := Removed(FreeOf(cs), p, p + cs[p].size), FreeOf(cs);
    assert forall q :: q in f1 <==> q in f2;
    assert forall q :: q in f1 ==> f1[q] == f2[q];
  }

  /** What was cut off a block is free: all its bytes are in the free chunk that follows the block. */
  ghost predicate CutOff(cs: Chunks, p: int, n: nat) {
    p in cs && var next := p + cs[p].size; next in cs && IsFree(cs[next].use) && cs[next].size >= n
  }

  lemma NextIsFree(cs: Chunks, cs1: Chunks, p: int, rem: int)
    requires Laid(cs1) && Released(cs, cs1, rem) && rem in cs && cs[rem].size > 0
    requires p in cs1 && cs1[p].use == Used && p < rem == p + cs1[p].size
    ensures CutOff(cs1, p, cs[rem].size)
  {
    var q :| q in cs1 && FreeAround(q, cs1[q], rem, cs[rem].size);
    ClearAt(cs1, p, q);
    ClearAt(cs1, q, p);
    LaidAt(cs1, p);
  }

  /** The end of a block is cut off and freed. */
  method Shrink(ms: MallocState, p: int, oldsize: nat, nb: nat)
    requires p in ms.chunks && ms.chunks[p].use == Used && ms.chunks[p].size == oldsize
    requires nb % 8 == 0 && MIN_CHUNK_SIZE <= nb && nb + MIN_CHUNK_SIZE <= oldsize
    requires Valid(ms)
    modifies ms`mem, ms`chunks, ms`smallmap, ms`treemap, ms`small, ms`tries, ms`free, ms`dv, ms`dvsize, ms`top, ms`topsize
    ensures p in ms.chunks && ms.chunks[p].use == Used && ms.chunks[p].size == nb && Kept(old(ms.mem), ms.mem, p, nb)
    ensures CutOff(ms.chunks, p, oldsize - nb)
    ensures Valid(ms) && Preserves(old(ms.mem), old(ms.chunks), ms.mem, ms.chunks, {p})
  {
    hide HeapOk, BinsOk, Laid, SegmentsOk, Marked, Written, Preserves, FreeOf, Released, CutOff, Carve2, OnlyHeads, Kept,
         SetInuse, BlockEnds, Removed, CutHeads;
    ghost var m, cs := ms.mem, ms.chunks;
    ghost var hi := p + oldsize;
    HeapParts(ms);
    BlockShape(cs, ms.dv, ms.dvsize, ms.top, ms.topsize, p);
    var rem := p + nb;
    BlockParts(cs, p, rem);
    ms.mem := SetInuse(ms.mem, p, nb);
    ms.mem := SetInuse(ms.mem, rem, oldsize - nb);
    ShrinkHeads(m, ms.mem, cs, p, nb);
    ShrinkMarks(cs, p, rem, ms.dv, ms.dvsize, ms.top, ms.topsize);
    NothingRemoved(cs, p);
    FreeCut(cs, p, rem, hi, Used);
    Recut(m, ms.mem, cs, ms.segs, ms.dv, ms.dvsize, ms.top, ms.topsize, p, rem, hi, Used, ms.dv, ms.dvsize, ms.top, ms.topsize);
    CutBins(m, ms.mem, cs, p, rem, hi, Used, ms.smallmap, ms.treemap, ms.small, ms.tries, ms.free);
    CutKept(m, ms.mem, cs, p, rem, hi, Used, nb);
    ms.chunks := Carve2(cs, p, rem, hi, Used, Used);
    ghost var m1, cs1 := ms.mem, ms.chunks;
    LjAllocFree(ms, rem + 16);
    PreservesAt(m1, cs1, ms.mem, ms.chunks, {rem}, p);
    KeptTrans(m, m1, ms.mem, p, nb);
    PreservesPart(m, cs, m1, cs1, ms.mem, ms.chunks, p, rem);
    HeapParts(ms);
    NextIsFree(cs1, ms.chunks, p, rem);
  }

  lemma BlockParts(cs: Chunks, p: int, mid: int)
    requires BlockEnds(cs, p)
    ensures p > 0 && p % 8 == 0 && p in cs && cs[p].use == Used && p + cs[p].size in cs && Chain(cs, p, p + cs[p].size)
    ensures p < mid < p + cs[p].size ==> mid !in cs
    ensures forall q :: q in cs && p <= q < p + cs[p].size && cs[q].use == Used ==> q == p
    ensures cs[p + cs[p].size].use != Foot && cs[p].size >= MIN_CHUNK_SIZE && cs[p].size % 8 == 0
  {
    hide Chain;
  }

  /** A block followed by the top chunk. */
  lemma ExpandMarks(cs: Chunks, p: int, mid: int, dv: int, dvsize: int, top: int, topsize: int)
    requires Laid(cs) && Marked(cs, dv, dvsize, top, topsize) && BlockEnds(cs, p) && p + cs[p].size == top
    ensures var hi := top + topsize;
            && hi in cs && cs[hi].use == Foot && Chain(cs, p, hi) && topsize >= 8 && topsize % 8 == 0
            && (forall q :: q in cs && p <= q < hi ==> q == p || q == top)
            && Cutting(p, mid, hi, Top, dv, dvsize, top, topsize, dv, dvsize, mid, hi - mid)
            && Removed(FreeOf(cs), p, hi) == FreeOf(cs)
  {
    hide Laid, Marked, Chain, BlockEnds, Removed;
    BlockParts(cs, p, mid);
    DvAt(cs, dv, dvsize, top, topsize);
    Neighbours(cs, top);
    OnlyOne(cs, top);
    ChainOn(cs, p, top);
    OnlyBefore(cs, p, top);
    RemovedIs(cs, p, top + topsize, {});
    NoneAnd(cs, top);
    NoneOut(cs);
  }

  lemma OnlyBefore(cs: Chunks, p: int, top: int)
    requires BlockEnds(cs, p) && p + cs[p].size == top
    ensures forall q :: q in cs && p <= q < top ==> q == p
  {
    hide Chain;
  }

  lemma ExpandHeads(m: Mem, m1: Mem, cs: Chunks, p: int, nb: int, hi: int)
    requires Laid(cs) && Written(m, cs) && BlockEnds(cs, p) && cs[p].size < nb && p + nb + 8 <= hi && nb % 8 == 0
    requires hi in cs && cs[hi].use == Foot && m1 == SetInuse(m, p, nb)[p + nb + 8 := hi - (p + nb) + 1]
    ensures CutHeads(m, m1, cs, p, p + nb, hi, Top)
  {
    hide Laid, Written, Chain;
    HeadSays(m, cs, p);
    HeadSays(m, cs, hi);
  }

  /** A block grows into the top chunk. */
  method Expand(ms: MallocState, p: int, oldsize: nat, nb: nat)
    requires p in ms.chunks && ms.chunks[p].use == Used && ms.chunks[p].size == oldsize && p + oldsize == ms.top
    requires nb % 8 == 0 && oldsize < nb < oldsize + ms.topsize
    requires Valid(ms)
    modifies ms`mem, ms`chunks, ms`top, ms`topsize
    ensures p in ms.chunks && ms.chunks[p].use == Used && ms.chunks[p].size == nb && Kept(old(ms.mem), ms.mem, p, oldsize)
    ensures Valid(ms) && Preserves(old(ms.mem), old(ms.chunks), ms.mem, ms.chunks, {p})
  {
    hide HeapOk, BinsOk, Laid, SegmentsOk, Marked, Written, Preserves, FreeOf, Carve2, OnlyHeads, Kept, SetInuse, BlockEnds,
         Removed, Cutting, CutHeads;
    ghost var m, cs, top, topsize := ms.mem, ms.chunks, ms.top, ms.topsize;
    ghost var hi := top + topsize;
    HeapParts(ms);
    BlockShape(cs, ms.dv, ms.dvsize, top, topsize, p);
    BlockParts(cs, p, p + nb);
    ExpandMarks(cs, p, p + nb, ms.dv, ms.dvsize, top, topsize);
    var newsize := oldsize + ms.topsize;
    var newtopsize := newsize - nb;
    var newtop := p + nb;
    ms.mem := SetInuse(ms.mem, p, nb);
    ms.mem := ms.mem[newtop + 8 := newtopsize + 1];
    ms.top := newtop;
    ms.topsize := newtopsize;
    ExpandHeads(m, ms.mem, cs, p, nb, hi);
    FreeCut(cs, p, newtop, hi, Top);
    Recut(m, ms.mem, cs, ms.segs, ms.dv, ms.dvsize, top, topsize, p, newtop, hi, Top, ms.dv, ms.dvsize, ms.top, ms.topsize);
    CutBins(m, ms.mem, cs, p, newtop, hi, Top, ms.smallmap, ms.treemap, ms.small, ms.tries, ms.free);
    CutKept(m, ms.mem, cs, p, newtop, hi, Top, oldsize);
    ms.chunks := Carve2(cs, p, newtop, hi, Used, Top);
  }

  /** What was asked for fits into a block of the padded size. */
  ghost predicate Holding(cs: Chunks, mem: int, n: nat) { Block(cs, mem) && RequestToSize(n) <= cs[mem - 16].size < RequestToSize(n) + MIN_CHUNK_SIZE }

  /** The contents are copied to another block, and the first block is freed. */
  method CopyAndFree(ms: MallocState, mem: int, newmem: int, n: nat)
    requires Block(ms.chunks, mem) && Block(ms.chunks, newmem) && mem != newmem
    requires n + 8 <= ms.chunks[mem - 16].size && n + 8 <= ms.chunks[newmem - 16].size
    requires Valid(ms)
    modifies ms`mem, ms`chunks, ms`smallmap, ms`treemap, ms`small, ms`tries, ms`free, ms`dv, ms`dvsize, ms`top, ms`topsize
    ensures Block(ms.chunks, newmem) && ms.chunks[newmem - 16].size == old(ms.chunks)[newmem - 16].size && Freed(ms.chunks, mem - 16)
    ensures Same(old(ms.mem), mem, ms.mem, newmem, n)
    ensures Valid(ms) && Preserves(old(ms.mem), old(ms.chunks), ms.mem, ms.chunks, {mem - 16, newmem - 16})
  {
    hide HeapOk, BinsOk, Laid, SegmentsOk, Marked, Written, Preserves, FreeOf, Kept, Same, OnlyBlock, Freed;
    ghost var m, cs, p, q := ms.mem, ms.chunks, mem - 16, newmem - 16;
    Apart(ms, p, q);
    var m1 := MemCopy(ms.mem, newmem, mem, n);
    ms.mem := m1;
    CopyOnly(m, m1, q, cs[q].size, n);
    BlockOk(m, m1, cs, ms.segs, ms.dv, ms.dvsize, ms.top, ms.topsize, q, ms.smallmap, ms.treemap, ms.small, ms.tries);
    LjAllocFree(ms, mem);
    PreservesAt(m1, cs, ms.mem, ms.chunks, {p}, q);
    KeptSame(m1, ms.mem, q, cs[q].size, n);
    SameTrans(m, mem, m1, newmem, ms.mem, newmem, n);
    PreservesMore(m, cs, m1, cs, {q}, {p, q});
    PreservesMore(m1, cs, ms.mem, ms.chunks, {p}, {p, q});
    PreservesTrans(m, cs, m1, cs, ms.mem, ms.chunks, {p, q});
  }

  lemma PreservesMore(m: Mem, cs: Chunks, m1: Mem, cs1: Chunks, out: set<int>, more: set<int>)
    requires Preserves(m, cs, m1, cs1, out) && out <= more
    ensures Preserves(m, cs, m1, cs1, more)
  {
    hide Kept;
  }

  lemma NewIs(cs: Chunks, cs1: Chunks, p: int, size: nat)
    requires NewBlock(cs, cs1, p, size)
    ensures Block(cs1, p + 16) && size <= cs1[p].size < size + MIN_CHUNK_SIZE && Freed(cs, p)
  {}

  /** The system was asked for memory at most once, and only if the heap was full, and if the request has
      failed, it was asked unless the size wraps around. */
  ghost predicate AskedOnce(ms: MallocState, asks: seq<Ask>, nsize: nat, mem: int, full: bool)
    reads ms
  {
    && (ms.asks == asks || (full && ms.asks == AsksFor(ms.system, asks, Wanted(nsize))))
    && (mem == 0 ==> ms.asks == AsksFor(ms.system, asks, Wanted(nsize)))
  }

  /** The block is moved: a new one is allocated, the contents copied, and the old one freed. */
  method Move(ms: MallocState, mem: int, oldsize: nat, nsize: nat) returns (newmem: int)
    requires Block(ms.chunks, mem) && ms.chunks[mem - 16].size == oldsize && nsize < MAX_REQUEST && oldsize >= CHUNK_OVERHEAD
    requires Valid(ms) && SpaceOk(ms)
    modifies ms
    ensures newmem == 0 <==> old(Unserved(ms, nsize))
    ensures SpaceOk(ms) && AskedOnce(ms, old(ms.asks), nsize, newmem, old(HeapFull(ms, nsize)))
    ensures newmem == 0 ==> ms.mem == old(ms.mem) && ms.chunks == old(ms.chunks)
    ensures newmem != 0 ==> newmem > 16 && newmem != mem && Holding(ms.chunks, newmem, nsize) && Freed(old(ms.chunks), newmem - 16)
    ensures newmem != 0 ==> Same(old(ms.mem), mem, ms.mem, newmem, if oldsize - 8 < nsize then oldsize - 8 else nsize)
    ensures newmem != 0 ==> Freed(ms.chunks, mem - 16)
    ensures Valid(ms) && Preserves(old(ms.mem), old(ms.chunks), ms.mem, ms.chunks, {mem - 16})
  {
    hide HeapFull, Chosen, HeapOk, BinsOk, Laid, SegmentsOk, Marked, Written, Preserves, FreeOf, Kept, RequestToSize, Same,
         NoFit, NewBlock, SameSpace, Answers, AsksFor, Unserved;
    ghost var m, cs, p := ms.mem, ms.chunks, mem - 16;
    RequestFits(nsize);
    PreservesSelf(m, cs);
    PreservesLess(m, cs, m, cs, {p});
    Apart(ms, p, p);
    newmem := LjAllocMalloc(ms, nsize);
    if newmem != 0 {
      ghost var m1, cs1, q := ms.mem, ms.chunks, newmem - 16;
      NewIs(cs, cs1, q, RequestToSize(nsize));
      PreservesAt(m, cs, m1, cs1, {}, p);
      var oc := oldsize - CHUNK_OVERHEAD;
      var n := if oc < nsize then oc else nsize;
      CopyAndFree(ms, mem, newmem, n);
      KeptSame(m, m1, p, oldsize, n);
      SameTrans(m, mem, m1, mem, ms.mem, newmem, n);
      PreservesMoved(m, cs, m1, cs1, ms.mem, ms.chunks, p, q);
    }
  }

  lemma PreservesMoved(m: Mem, cs: Chunks, m1: Mem, cs1: Chunks, m2: Mem, cs2: Chunks, p: int, q: int)
    requires Preserves(m, cs, m1, cs1, {}) && Preserves(m1, cs1, m2, cs2, {p, q}) && Freed(cs, q)
    ensures Preserves(m, cs, m2, cs2, {p})
  {
    hide Kept;
    forall a | a in cs && cs[a].use == Used && a != p
      ensures a in cs2 && cs2[a].use == Used && cs2[a].size == cs[a].size && Kept(m, m2, a, cs[a].size)
    {
      assert Kept(m, m1, a, cs[a].size) && Kept(m1, m2, a, cs[a].size);
      KeptTrans(m, m1, m2, a, cs[a].size);
    }
  }

  lemma CopyOnly(m: Mem, m1: Mem, q: int, size: nat, n: nat)
    requires n + 8 <= size && forall c :: !(q + 16 <= c < q + 16 + n) ==> R(m1, c) == R(m, c)
    ensures OnlyBlock(m, m1, q, size)
  {}

  /** Two blocks do not overlap. */
  lemma Apart(ms: MallocState, p: int, q: int)
    requires HeapValid(ms) && p in ms.chunks && q in ms.chunks && ms.chunks[p].use == Used && ms.chunks[q].use == Used
    ensures ms.chunks[p].size >= MIN_CHUNK_SIZE && ms.chunks[p].size % 8 == 0 && p % 8 == 0 && p > 0
    ensures ms.chunks[q].size >= MIN_CHUNK_SIZE && ms.chunks[q].size % 8 == 0 && q % 8 == 0 && q > 0
    ensures p != q ==> p + ms.chunks[p].size <= q || q + ms.chunks[q].size <= p
  {
    hide Laid, SegmentsOk, Marked, Written;
    HeapParts(ms);
    LaidAt(ms.chunks, p);
    LaidAt(ms.chunks, q);
    ClearAt(ms.chunks, p, q);
    ClearAt(ms.chunks, q, p);
  }

  /** The block is too small, and cannot grow into the top chunk. */
  ghost predicate CannotStay(ms: MallocState, p: int, nb: nat)
    reads ms
  {
    p in ms.chunks && var size := ms.chunks[p].size; size < nb && !(p + size == ms.top && size + ms.topsize > nb)
  }

  lemma LargeWraps(nsize: nat)
    requires nsize >= MAX_REQUEST
    ensures Wraps(Wanted(nsize))
  {}

  /** How many bytes a change of size to n keeps of a block. */
  function KeptBytes(cs: Chunks, mem: int, n: nat): nat {
    if mem - 16 in cs && cs[mem - 16].size - CHUNK_OVERHEAD < n then (if cs[mem - 16].size < CHUNK_OVERHEAD then 0 else cs[mem - 16].size - CHUNK_OVERHEAD)
    else n
  }

  /** `lj_alloc_realloc`: the block shrinks, grows or moves, and keeps its first bytes; or nothing has
      changed.  A block that is large enough, or can grow into the top chunk, stays where it is; what it
      then has too much is free, unless it is too small for a chunk. */
  method LjAllocRealloc(ms: MallocState, mem: int, nsize: nat) returns (newmem: int)
    requires Block(ms.chunks, mem) && ms.chunks[mem - 16].size >= CHUNK_OVERHEAD
    requires Valid(ms) && SpaceOk(ms)
    modifies ms
    ensures newmem == 0 <==> old(nsize >= MAX_REQUEST || (CannotStay(ms, mem - 16, RequestToSize(nsize)) && Unserved(ms, nsize)))
    ensures SpaceOk(ms) && AskedOnce(ms, old(ms.asks), nsize, newmem, old(HeapFull(ms, nsize)))
    ensures newmem == 0 ==> ms.mem == old(ms.mem) && ms.chunks == old(ms.chunks)
    ensures newmem != 0 ==> newmem > 16 && nsize < MAX_REQUEST && Holding(ms.chunks, newmem, nsize)
    ensures newmem != 0 ==> Same(old(ms.mem), mem, ms.mem, newmem, KeptBytes(old(ms.chunks), mem, nsize))
    ensures newmem != 0 && newmem != mem ==> Freed(ms.chunks, mem - 16) && Freed(old(ms.chunks), newmem - 16)
    ensures nsize < MAX_REQUEST && !old(CannotStay(ms, mem - 16, RequestToSize(nsize))) ==> newmem == mem
    ensures nsize < MAX_REQUEST && RequestToSize(nsize) + MIN_CHUNK_SIZE <= old(ms.chunks[mem - 16].size) ==>
              CutOff(ms.chunks, mem - 16, old(ms.chunks[mem - 16].size) - RequestToSize(nsize))
    ensures Valid(ms) && Preserves(old(ms.mem), old(ms.chunks), ms.mem, ms.chunks, {mem - 16})
  {
    hide HeapFull, Chosen, CutOff, HeapOk, BinsOk, Laid, SegmentsOk, Marked, Written, Preserves, FreeOf, Kept,
         RequestToSize, Same, BlockEnds, Freed, PInuse, PrevFoot, SameSpace, Answers, Unserved, Wraps, AskSize;
    ghost var m, cs := ms.mem, ms.chunks;
    PreservesSelf(m, cs);
    if nsize >= MAX_REQUEST {
      PreservesLess(m, cs, m, cs, {mem - 16});
      LargeWraps(nsize);
      return 0;
    }
    var oldp := mem - 16;
    HeapParts(ms);
    HeadSays(m, cs, oldp);
    BlockShape(cs, ms.dv, ms.dvsize, ms.top, ms.topsize, oldp);
    BlockParts(cs, oldp, oldp);
    var oldsize := ChunkSize(ms.mem, oldp);
    var next := oldp + oldsize;
    RequestFits(nsize);
    var nb := RequestToSize(nsize);
    NotDirect(ms, oldp);
    if oldsize >= nb {
      if oldsize - nb >= MIN_CHUNK_SIZE {
        Shrink(ms, oldp, oldsize, nb);
        KeptSame(m, ms.mem, oldp, nb, nsize);
      } else {
        KeptSelf(m, oldp, oldsize);
        KeptSame(m, m, oldp, oldsize, if oldsize - 8 < nsize then oldsize - 8 else nsize);
        PreservesLess(m, cs, m, cs, {oldp});
      }
      newmem := mem;
    } else if next == ms.top && oldsize + ms.topsize > nb {
      Expand(ms, oldp, oldsize, nb);
      KeptSame(m, ms.mem, oldp, oldsize, oldsize - 8);
      newmem := mem;
    } else {
      newmem := Move(ms, mem, oldsize, nsize);
    }
  }

  lemma KeptSelf(m: Mem, p: int, size: nat)
    ensures Kept(m, m, p, size)
  {}

  /** A block is never taken for a directly mapped one. */
  lemma NotDirect(ms: MallocState, p: int)
    requires Valid(ms) && p in ms.chunks && ms.chunks[p].use == Used
    ensures PInuse(ms.mem, p) || PrevFoot(ms.mem, p) % 2 == 0
  {
    hide Laid, SegmentsOk, Marked, Written, BinsOk;
    HeapParts(ms);
    MergeStart(ms.chunks, ms.dv, ms.dvsize, ms.top, ms.topsize, p);
    HeadSays(ms.mem, ms.chunks, p);
    if !ms.chunks[p].pin { ChunkBefore(ms.mem, ms.chunks, ms.dv, ms.dvsize, ms.top, ms.topsize, p); }
  }
}
