/** Steps of the allocator (luajit/lj_alloc.c) on the layout of the heap: chunks are used whole or
    split, freed and merged; each step keeps the layout, the heads and feet, and the contents of
    all other chunks in use. */
module AllocSteps {
  import opened Bits
  import opened AllocMem
  import opened AllocBins
  import opened AllocHeap

  ghost predicate HeapOk(m: Mem, cs: Chunks, segs: seq<Segment>, dv: int, dvsize: int, top: int, topsize: int) {
    Laid(cs) && SegmentsOk(cs, segs) && Marked(cs, dv, dvsize, top, topsize) && Written(m, cs)
  }

  // Macros that set heads and feet.
  function Or1(h: int): int { h - h % 2 + 1 }
  function SetInuseAndPinuse(m: Mem, p: int, s: int): Mem {
    var m1 := m[p + 8 := s + 3];
    m1[p + s + 8 := Or1(Head(m1, p + s))]
  }
  function SetSizeAndPinuseOfInuse(m: Mem, p: int, s: int): Mem { m[p + 8 := s + 3] }
  function SetSizeAndPinuseOfFree(m: Mem, p: int, s: int): Mem { m[p + 8 := s + 1][p + s := s] }
  function SetFreeWithPinuse(m: Mem, p: int, s: int, n: int): Mem {
    SetSizeAndPinuseOfFree(m[n + 8 := Head(m, n) - Head(m, n) % 2], p, s)
  }
  function SetInuse(m: Mem, p: int, s: int): Mem {
    var m1 := m[p + 8 := Head(m, p) % 2 + s + 2];
    m1[p + s + 8 := Or1(Head(m1, p + s))]
  }

  lemma HeadBits(c: Chunk)
    requires c.size % 8 == 0
    ensures c.use != Foot && c.use != Fence ==> HeadWord(c) - HeadWord(c) % 4 == c.size
    ensures c.use != Foot ==> (HeadWord(c) % 2 == 1 <==> c.pin) && (HeadWord(c) / 2 % 2 == 1 <==> !IsFree(c.use))
    ensures Or1(HeadWord(c.(pin := false))) == HeadWord(c.(pin := true)) || c.use == Foot
    ensures HeadWord(c) - HeadWord(c) % 2 == HeadWord(c.(pin := false))
  {
    var k, flags := 2 * (c.size / 8), (if c.use == Used then 2 else 0) + (if c.pin then 1 else 0);
    assert c.size == 4 * k;
    if c.use != Foot && c.use != Fence {
      assert HeadWord(c) == 4 * k + flags;
      FlagBits(k, flags);
    }
  }

  lemma FlagBits(k: nat, flags: nat)
    requires flags < 4
    ensures (4 * k + flags) % 4 == flags && (4 * k + flags) % 2 == flags % 2 && (4 * k + flags) / 2 % 2 == flags / 2
  {
    Remainder(4 * k + flags, 4, k, flags);
    Remainder(4 * k + flags, 2, 2 * k + flags / 2, flags % 2);
    Remainder(2 * k + flags / 2, 2, k, flags / 2);
  }

  /** What the heads say. */
  lemma HeadSays(m: Mem, cs: Chunks, p: int)
    requires Laid(cs) && Written(m, cs) && p in cs
    ensures Head(m, p) == HeadWord(cs[p])
    ensures cs[p].use != Foot && cs[p].use != Fence ==> ChunkSize(m, p) == cs[p].size
    ensures cs[p].use != Foot ==> (PInuse(m, p) <==> cs[p].pin) && (CInuse(m, p) <==> !IsFree(cs[p].use))
    ensures Or1(HeadWord(cs[p].(pin := false))) == HeadWord(cs[p].(pin := true)) || cs[p].use == Foot
    ensures HeadWord(cs[p]) - HeadWord(cs[p]) % 2 == HeadWord(cs[p].(pin := false))
  {
    hide Laid, Written, HeadWord, Or1;
    LaidAt(cs, p);
    FootAt(m, cs, p);
    HeadBits(cs[p]);
  }

  /** The neighbours of a chunk that is not the end of a segment. */
  lemma Neighbours(cs: Chunks, p: int)
    requires Laid(cs) && p in cs && !IsEnd(cs[p].use)
    ensures p + cs[p].size in cs && cs[p + cs[p].size].pin == !IsFree(cs[p].use) && Chain(cs, p, p + cs[p].size)
    ensures IsFree(cs[p].use) ==> !IsFree(cs[p + cs[p].size].use)
    ensures ChunkOk(p, cs[p])
  {
    hide Laid;
    LaidAt(cs, p);
    LaidAt(cs, p + cs[p].size);
    var s := cs[p].size;
    assert Chain(cs, p + s, p + s);
  }

  /** What follows a chunk other than the top chunk is not the foot of the top chunk. */
  lemma NotFoot(cs: Chunks, dv: int, dvsize: int, top: int, topsize: int, p: int)
    requires Laid(cs) && Marked(cs, dv, dvsize, top, topsize) && p in cs && cs[p].use != Top && !IsEnd(cs[p].use)
    ensures p + cs[p].size in cs && cs[p + cs[p].size].use != Foot
  {
    Neighbours(cs, p);
    hide Laid;
    if cs[p + cs[p].size].use == Foot {
      LaidAt(cs, top);
      LaidAt(cs, p);
      ClearAt(cs, p, top);
      ClearAt(cs, top, p);
    }
  }

  /** There is only one chunk from a chunk to the next. */
  lemma OnlyOne(cs: Chunks, p: int)
    requires Laid(cs) && p in cs && !IsEnd(cs[p].use)
    ensures forall q :: q in cs && p <= q < p + cs[p].size ==> q == p
  {
    hide Laid;
    forall q | q in cs && p <= q < p + cs[p].size
      ensures q == p
    {
      ClearAt(cs, p, q);
    }
  }

  /** A chunk gets another use. */
  function Reuse(cs: Chunks, p: int, use: Use): Chunks
    requires p in cs && p + cs[p].size in cs && cs[p].size > 0
  {
    cs[p := cs[p].(use := use)][p + cs[p].size := cs[p + cs[p].size].(pin := !IsFree(use))]
  }

  lemma CarveIsReuse(cs: Chunks, p: int, use: Use)
    requires Laid(cs) && p in cs && !IsEnd(cs[p].use)
    ensures p + cs[p].size in cs && cs[p].size > 0 && Carve1(cs, p, p + cs[p].size, use) == Reuse(cs, p, use)
  {
    hide Laid;
    Neighbours(cs, p);
    OnlyOne(cs, p);
    var cs1, cs2 := Carve1(cs, p, p + cs[p].size, use), Reuse(cs, p, use);
    assert forall q :: q in cs1 <==> q in cs2;
    assert forall q :: q in cs1 ==> cs1[q] == cs2[q];
  }

  lemma FreeReuse(cs: Chunks, p: int, use: Use)
    requires p in cs && p + cs[p].size in cs && cs[p].size > 0
    ensures FreeOf(Reuse(cs, p, use)) == if use == Free then FreeOf(cs)[p := cs[p].size] else FreeOf(cs) - {p}
  {
    var f1 := FreeOf(Reuse(cs, p, use));
    var f2 := if use == Free then FreeOf(cs)[p := cs[p].size] else FreeOf(cs) - {p};
    assert forall q :: q in f1 <==> q in f2;
    assert forall q :: q in f1 ==> f1[q] == f2[q];
  }

  /** The marks when a free chunk becomes used. */
  lemma MarksUsed(cs: Chunks, dv: int, dvsize: int, top: int, topsize: int, p: int, dv1: int, dvsize1: int)
    requires Marked(cs, dv, dvsize, top, topsize) && p in cs && p + cs[p].size in cs && cs[p].size > 0
    requires if cs[p].use == Dv then dv1 == dvsize1 == 0 else cs[p].use == Free && dv1 == dv && dvsize1 == dvsize
    ensures Marked(Reuse(cs, p, Used), dv1, dvsize1, top, topsize)
  {}

  /** Making a whole chunk used: heads. */
  lemma WholeHeads(m: Mem, cs: Chunks, p: int)
    requires Laid(cs) && Written(m, cs) && p in cs && (cs[p].use == Free || cs[p].use == Dv)
    requires p + cs[p].size in cs && cs[p + cs[p].size].use != Foot
    ensures var m1, hi := SetInuseAndPinuse(m, p, cs[p].size), p + cs[p].size;
            && OnlyHeads(m, m1, p, p, hi) && Head(m1, p) == HeadWord(Chunk(cs[p].size, Used, cs[p].pin))
            && Head(m1, hi) == HeadWord(cs[hi].(pin := true))
  {
    hide Laid, Written;
    Neighbours(cs, p);
    HeadSays(m, cs, p);
    HeadSays(m, cs, p + cs[p].size);
  }

  /** A free chunk that is in no bin becomes used as a whole. */
  lemma UseWhole(m: Mem, m1: Mem, cs: Chunks, segs: seq<Segment>, dv: int, dvsize: int, top: int, topsize: int, p: int,
                 dv1: int, dvsize1: int)
    requires HeapOk(m, cs, segs, dv, dvsize, top, topsize) && p in cs && m1 == SetInuseAndPinuse(m, p, cs[p].size)
    requires if cs[p].use == Dv then dv1 == dvsize1 == 0 else cs[p].use == Free && dv1 == dv && dvsize1 == dvsize
    ensures p + cs[p].size in cs && cs[p].size > 0
    ensures var cs1 := Reuse(cs, p, Used);
            && p in cs1 && cs1[p] == Chunk(cs[p].size, Used, true) && FreeOf(cs1) == FreeOf(cs) - {p}
            && Preserves(m, cs, m1, cs1, {}) && HeapOk(m1, cs1, segs, dv1, dvsize1, top, topsize)
  {
    hide Laid, SegmentsOk, Written, Preserves, Marked, Carve1, Reuse, SetInuseAndPinuse, OnlyHeads;
    var hi := p + cs[p].size;
    Neighbours(cs, p);
    NotFoot(cs, dv, dvsize, top, topsize, p);
    CarveIsReuse(cs, p, Used);
    WholeHeads(m, cs, p);
    Carve1Laid(cs, p, hi, Used);
    Carve1Segments(cs, segs, p, hi, Used);
    Carve1Written(m, m1, cs, p, hi, Used);
    OnlyFreeIn(m, cs, m1, Carve1(cs, p, hi, Used), p, hi);
    MarksUsed(cs, dv, dvsize, top, topsize, p, dv1, dvsize1);
    FreeReuse(cs, p, Used);
    ReuseAt(cs, p, Used);
  }

  lemma ReuseAt(cs: Chunks, p: int, use: Use)
    requires p in cs && p + cs[p].size in cs && cs[p].size > 0
    ensures p in Reuse(cs, p, use) && Reuse(cs, p, use)[p] == cs[p].(use := use)
  {}

  lemma Carve1Segments(cs: Chunks, segs: seq<Segment>, lo: int, hi: int, use: Use)
    requires Laid(cs) && SegmentsOk(cs, segs) && lo in cs && hi in cs && lo < hi && Chain(cs, lo, hi) && !IsEnd(use)
    ensures SegmentsOk(Carve1(cs, lo, hi, use), segs)
  {
    hide Laid, SegmentsOk, Chain;
    SegmentsKept(cs, Carve1(cs, lo, hi, use), segs, lo, hi);
  }

  lemma Carve2Segments(cs: Chunks, segs: seq<Segment>, lo: int, mid: int, hi: int, use1: Use, use2: Use)
    requires Laid(cs) && SegmentsOk(cs, segs) && lo in cs && hi in cs && lo < mid < hi && Chain(cs, lo, hi)
    requires !IsEnd(use1) && !IsEnd(use2)
    ensures SegmentsOk(Carve2(cs, lo, mid, hi, use1, use2), segs)
  {
    hide Laid, SegmentsOk, Chain;
    SegmentsKept(cs, Carve2(cs, lo, mid, hi, use1, use2), segs, lo, hi);
  }

  /** A chunk between lo and hi that was in use would have been preserved, if there is none. */
  lemma OnlyFreeIn(m: Mem, cs: Chunks, m1: Mem, cs1: Chunks, lo: int, hi: int)
    requires Laid(cs) && lo in cs && hi == lo + cs[lo].size && IsFree(cs[lo].use)
    requires Preserves(m, cs, m1, cs1, set p | p in cs && lo <= p < hi)
    ensures Preserves(m, cs, m1, cs1, {})
  {
    hide Laid, Kept;
    forall p | p in cs && cs[p].use == Used
      ensures !(lo <= p < hi)
    {
      ClearAt(cs, lo, p);
    }
  }

  // ---------------------------------------------------------------- splitting

  /** The first nb bytes of a chunk become used. */
  function Split(cs: Chunks, p: int, nb: int, use2: Use): Chunks
    requires p in cs && 0 < nb < cs[p].size && p + cs[p].size in cs
  {
    cs[p := Chunk(nb, Used, cs[p].pin)][p + nb := Chunk(cs[p].size - nb, use2, true)]
      [p + cs[p].size := cs[p + cs[p].size].(pin := !IsFree(use2))]
  }

  lemma CarveIsSplit(cs: Chunks, p: int, nb: int, use2: Use)
    requires Laid(cs) && p in cs && !IsEnd(cs[p].use) && 0 < nb < cs[p].size
    ensures p + cs[p].size in cs && Carve2(cs, p, p + nb, p + cs[p].size, Used, use2) == Split(cs, p, nb, use2)
    ensures p + nb !in cs
  {
    hide Laid;
    Neighbours(cs, p);
    OnlyOne(cs, p);
    var cs1, cs2 := Carve2(cs, p, p + nb, p + cs[p].size, Used, use2), Split(cs, p, nb, use2);
    assert forall q :: q in cs1 <==> q in cs2;
    assert forall q :: q in cs1 ==> cs1[q] == cs2[q];
  }

  lemma FreeSplit(cs: Chunks, p: int, nb: int, use2: Use)
    requires p in cs && 0 < nb < cs[p].size && p + cs[p].size in cs && p + nb !in cs
    ensures FreeOf(Split(cs, p, nb, use2)) == if use2 == Free then (FreeOf(cs) - {p})[p + nb := cs[p].size - nb] else FreeOf(cs) - {p}
  {
    var f1 := FreeOf(Split(cs, p, nb, use2));
    var f2 := if use2 == Free then (FreeOf(cs) - {p})[p + nb := cs[p].size - nb] else FreeOf(cs) - {p};
    assert forall q :: q in f1 <==> q in f2;
    assert forall q :: q in f1 ==> f1[q] == f2[q];
  }

  /** How the marks follow a chunk that is split. */
  predicate Follow(use: Use, use2: Use, p: int, nb: int, s: int, dv: int, dvsize: int, top: int, topsize: int,
                   dv1: int, dvsize1: int, top1: int, topsize1: int) {
    match use
    case Free =>
      && top1 == top && topsize1 == topsize
      && if use2 == Dv then dvsize == 0 && dv1 == p + nb && dvsize1 == s - nb else use2 == Free && dv1 == dv && dvsize1 == dvsize
    case Dv => use2 == Dv && dv1 == p + nb && dvsize1 == s - nb && top1 == top && topsize1 == topsize
    case Top => use2 == Top && dv1 == dv && dvsize1 == dvsize && top1 == p + nb && topsize1 == s - nb
    case _ => false
  }

  lemma MarksSplit(cs: Chunks, dv: int, dvsize: int, top: int, topsize: int, p: int, nb: int, use2: Use,
                   dv1: int, dvsize1: int, top1: int, topsize1: int)
    requires Marked(cs, dv, dvsize, top, topsize) && p in cs && 0 < nb < cs[p].size && p + cs[p].size in cs && p + nb !in cs
    requires Follow(cs[p].use, use2, p, nb, cs[p].size, dv, dvsize, top, topsize, dv1, dvsize1, top1, topsize1)
    ensures Marked(Split(cs, p, nb, use2), dv1, dvsize1, top1, topsize1)
  {}

  /** A free chunk is split; its first part is used. */
  lemma UseSplit(m: Mem, m1: Mem, cs: Chunks, segs: seq<Segment>, dv: int, dvsize: int, top: int, topsize: int, p: int, nb: int,
                 use2: Use, dv1: int, dvsize1: int, top1: int, topsize1: int)
    requires p in cs && nb % 8 == 0 && MIN_CHUNK_SIZE <= nb
    requires Follow(cs[p].use, use2, p, nb, cs[p].size, dv, dvsize, top, topsize, dv1, dvsize1, top1, topsize1)
    requires nb + (if use2 == Top then 8 else MIN_CHUNK_SIZE) <= cs[p].size
    requires if use2 == Top then m1 == SetSizeAndPinuseOfInuse(m[p + nb + 8 := cs[p].size - nb + 1], p, nb)
             else m1 == SetSizeAndPinuseOfFree(SetSizeAndPinuseOfInuse(m, p, nb), p + nb, cs[p].size - nb)
                  || m1 == SetSizeAndPinuseOfInuse(SetSizeAndPinuseOfFree(m, p + nb, cs[p].size - nb), p, nb)
    requires HeapOk(m, cs, segs, dv, dvsize, top, topsize)
    ensures p + cs[p].size in cs && p + nb !in cs
    ensures var cs1 := Split(cs, p, nb, use2);
            && Preserves(m, cs, m1, cs1, {}) && HeapOk(m1, cs1, segs, dv1, dvsize1, top1, topsize1)
  {
    hide Laid, SegmentsOk, Written, Preserves, Marked, Carve2, Split, OnlyHeads, HeadWord, Head, PrevFoot, FreeOf, Chain;
    hide SetSizeAndPinuseOfInuse, SetSizeAndPinuseOfFree;
    var hi := p + cs[p].size;
    Neighbours(cs, p);
    CarveIsSplit(cs, p, nb, use2);
    SplitHeads(m, m1, cs, p, nb, use2);
    Carve2Laid(cs, p, p + nb, hi, Used, use2);
    Carve2Segments(cs, segs, p, p + nb, hi, Used, use2);
    Carve2Written(m, m1, cs, p, p + nb, hi, Used, use2);
    OnlyFreeIn(m, cs, m1, Carve2(cs, p, p + nb, hi, Used, use2), p, hi);
    MarksSplit(cs, dv, dvsize, top, topsize, p, nb, use2, dv1, dvsize1, top1, topsize1);
  }

  /** The chunks after a split. */
  lemma SplitIs(cs: Chunks, p: int, nb: int, use2: Use)
    requires p in cs && 0 < nb < cs[p].size && p + cs[p].size in cs && p + nb !in cs
    ensures var cs1 := Split(cs, p, nb, use2);
            && p in cs1 && cs1[p] == Chunk(nb, Used, cs[p].pin) && p + nb in cs1 && cs1[p + nb] == Chunk(cs[p].size - nb, use2, true)
            && FreeOf(cs1) == (if use2 == Free then (FreeOf(cs) - {p})[p + nb := cs[p].size - nb] else FreeOf(cs) - {p})
  {
    hide FreeOf, Split;
    FreeSplit(cs, p, nb, use2);
    SplitAt(cs, p, nb, use2);
  }

  lemma SplitAt(cs: Chunks, p: int, nb: int, use2: Use)
    requires p in cs && 0 < nb < cs[p].size && p + cs[p].size in cs
    ensures var cs1 := Split(cs, p, nb, use2);
            && p in cs1 && cs1[p] == Chunk(nb, Used, cs[p].pin) && p + nb in cs1 && cs1[p + nb] == Chunk(cs[p].size - nb, use2, true)
  {}

  lemma SplitHeads(m: Mem, m1: Mem, cs: Chunks, p: int, nb: int, use2: Use)
    requires Laid(cs) && Written(m, cs) && p in cs && IsFree(cs[p].use) && IsFree(use2) && 8 <= nb && nb + 8 <= cs[p].size
    requires p + cs[p].size in cs && (use2 != Top ==> nb + 16 <= cs[p].size)
    requires if use2 == Top then m1 == SetSizeAndPinuseOfInuse(m[p + nb + 8 := cs[p].size - nb + 1], p, nb)
             else m1 == SetSizeAndPinuseOfFree(SetSizeAndPinuseOfInuse(m, p, nb), p + nb, cs[p].size - nb)
                  || m1 == SetSizeAndPinuseOfInuse(SetSizeAndPinuseOfFree(m, p + nb, cs[p].size - nb), p, nb)
    ensures var hi := p + cs[p].size;
            && OnlyHeads(m, m1, p, p + nb, hi) && Head(m1, p) == HeadWord(Chunk(nb, Used, cs[p].pin))
            && Head(m1, p + nb) == HeadWord(Chunk(cs[p].size - nb, use2, true))
            && Head(m1, hi) == HeadWord(cs[hi].(pin := false))
            && (use2 != Top ==> PrevFoot(m1, hi) == cs[p].size - nb)
  {
    hide Laid, Written;
    Neighbours(cs, p);
    HeadSays(m, cs, p);
    HeadSays(m, cs, p + cs[p].size);
  }

  /** The designated victim becomes an ordinary free chunk. */
  lemma Retire(m: Mem, cs: Chunks, segs: seq<Segment>, dv: int, dvsize: int, top: int, topsize: int)
    requires HeapOk(m, cs, segs, dv, dvsize, top, topsize) && dvsize != 0
    ensures dv in cs && cs[dv] == Chunk(dvsize, Dv, true)
    ensures var cs1 := cs[dv := cs[dv].(use := Free)];
            && FreeOf(cs1) == FreeOf(cs)[dv := dvsize] && Preserves(m, cs, m, cs1, {}) && HeapOk(m, cs1, segs, 0, 0, top, topsize)
  {
    hide Laid, SegmentsOk, Written, Preserves, Marked, Carve1, Reuse, OnlyHeads;
    DvAt(cs, dv, dvsize, top, topsize);
    LaidAt(cs, dv);
    Neighbours(cs, dv);
    CarveIsReuse(cs, dv, Free);
    var hi := dv + dvsize;
    ReuseSame(cs, dv);
    Carve1Laid(cs, dv, hi, Free);
    Carve1Segments(cs, segs, dv, hi, Free);
    HeadSays(m, cs, dv);
    HeadSays(m, cs, hi);
    FootAt(m, cs, dv);
    NoHeads(m, dv, hi);
    Carve1Written(m, m, cs, dv, hi, Free);
    OnlyFreeIn(m, cs, m, Carve1(cs, dv, hi, Free), dv, hi);
    MarksRetired(cs, dv, dvsize, top, topsize);
    FreeReuse(cs, dv, Free);
  }

  lemma NoHeads(m: Mem, lo: int, hi: int)
    ensures OnlyHeads(m, m, lo, lo, hi)
  {}

  lemma DvAt(cs: Chunks, dv: int, dvsize: int, top: int, topsize: int)
    requires Marked(cs, dv, dvsize, top, topsize)
    ensures dvsize != 0 ==> dv in cs && cs[dv].use == Dv && cs[dv].size == dvsize
    ensures top in cs && cs[top].use == Top && cs[top].size == topsize && top + topsize in cs && cs[top + topsize].use == Foot
    ensures dvsize == 0 ==> dv == 0
    ensures forall p :: p in cs && cs[p].use == Dv ==> p == dv && dvsize != 0
    ensures forall p :: p in cs && cs[p].use == Top ==> p == top
  {}

  lemma ReuseSame(cs: Chunks, dv: int)
    requires dv in cs && dv + cs[dv].size in cs && cs[dv].size > 0 && !cs[dv + cs[dv].size].pin
    ensures Reuse(cs, dv, Free) == cs[dv := cs[dv].(use := Free)]
  {}

  lemma MarksRetired(cs: Chunks, dv: int, dvsize: int, top: int, topsize: int)
    requires Marked(cs, dv, dvsize, top, topsize) && dvsize != 0
    ensures Marked(cs[dv := cs[dv].(use := Free)], 0, 0, top, topsize)
  {}
}
