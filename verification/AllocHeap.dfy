/** The layout of the heap of the allocator (luajit/lj_alloc.c): chunks tile each segment, their
    heads and feet agree with it, and no two free chunks touch. */
module AllocHeap {
  import opened AllocMem
  import opened AllocBins
  import opened AllocBinOps

  type Chunks = map<int, Chunk>

  predicate IsFree(u: Use) { u == Free || u == Dv || u == Top }
  predicate IsEnd(u: Use) { u == Foot || u == Fence }

  predicate ChunkOk(p: int, c: Chunk) {
    && 0 < p && p % 8 == 0 && c.size % 8 == 0 && c.size >= 8 && p + c.size <= MAX_ADDR
    && (c.use == Used || c.use == Free || c.use == Dv ==> c.size >= MIN_CHUNK_SIZE)
    && (c.use == Foot ==> c.size == TOP_FOOT_SIZE)
    && (IsFree(c.use) ==> c.pin)
  }

  /** A chunk does not run into another. */
  predicate Clear(p: int, c: Chunk, q: int) { q <= p || p + c.size <= q }

  /** The chunk before knows whether it is in use. */
  predicate NextOk(cs: Chunks, p: int)
    requires p in cs
  {
    IsEnd(cs[p].use) || (p + cs[p].size in cs && cs[p + cs[p].size].pin == !IsFree(cs[p].use))
  }

  /** A free chunk that ends at p. */
  predicate EndsAt(cs: Chunks, q: int, p: int) { q in cs && IsFree(cs[q].use) && q + cs[q].size == p }

  /** A clear pin bit means that there is one. */
  ghost predicate Preceded(cs: Chunks, p: int)
    requires p in cs
  {
    !cs[p].pin ==> exists q :: EndsAt(cs, q, p)
  }

  predicate InSegment(p: int, c: Chunk, s: Segment) {
    s.base <= p && if IsEnd(c.use) then p + c.size == s.base + s.size else p + c.size < s.base + s.size
  }

  /** Segments do not overlap, each starts with a chunk, and all chunks are in segments. */
  ghost predicate SegmentsOk(cs: Chunks, segs: seq<Segment>) { Based(cs, segs) && Disjoint(segs) && Covered(cs, segs) }

  predicate Based(cs: Chunks, segs: seq<Segment>) {
    forall i :: 0 <= i < |segs| ==> segs[i].base in cs && segs[i].base + segs[i].size <= MAX_ADDR && segs[i].size > 0
  }

  predicate Disjoint(segs: seq<Segment>) {
    forall i, j :: 0 <= i < |segs| && 0 <= j < |segs| && i != j ==>
      segs[i].base + segs[i].size <= segs[j].base || segs[j].base + segs[j].size <= segs[i].base
  }

  predicate Covered(cs: Chunks, segs: seq<Segment>) {
    forall p :: p in cs ==> InSome(p, cs[p], segs)
  }

  predicate InSome(p: int, c: Chunk, segs: seq<Segment>) { exists i :: 0 <= i < |segs| && InSegment(p, c, segs[i]) }

  /** Chunks tile the segments; boundary bits agree; no two free chunks are adjacent. */
  ghost predicate Laid(cs: Chunks) {
    && (forall p {:trigger ChunkOk(p, cs[p])} :: p in cs ==> ChunkOk(p, cs[p]))
    && (forall p, q {:trigger Clear(p, cs[p], q)} :: p in cs && q in cs ==> Clear(p, cs[p], q))
    && (forall p {:trigger NextOk(cs, p)} :: p in cs ==> NextOk(cs, p))
    && (forall p {:trigger Preceded(cs, p)} :: p in cs ==> Preceded(cs, p))
  }

  /** The designated victim and the top chunk are where the state says. */
  ghost predicate Marked(cs: Chunks, dv: int, dvsize: int, top: int, topsize: int) {
    && (forall p :: p in cs && cs[p].use == Dv ==> p == dv && dvsize != 0)
    && (if dvsize == 0 then dv == 0 else dv in cs && cs[dv].use == Dv && cs[dv].size == dvsize)
    && (forall p :: p in cs && cs[p].use == Top ==> p == top)
    && top in cs && cs[top].use == Top && cs[top].size == topsize
    && (forall p :: p in cs && cs[p].use == Foot ==> p == top + topsize)
    && top + topsize in cs && cs[top + topsize].use == Foot
  }

  function HeadWord(c: Chunk): int {
    if c.use == Foot then TOP_FOOT_SIZE
    else if c.use == Fence then FENCEPOST_HEAD - 1 + (if c.pin then 1 else 0)
    else c.size + (if c.use == Used then 2 else 0) + (if c.pin then 1 else 0)
  }

  /** Heads and feet in memory. */
  ghost predicate Written(m: Mem, cs: Chunks) {
    && (forall p :: p in cs ==> Head(m, p) == HeadWord(cs[p]))
    && (forall p :: p in cs && (cs[p].use == Free || cs[p].use == Dv) ==> PrevFoot(m, p + cs[p].size) == cs[p].size)
  }

  ghost function FreeOf(cs: Chunks): Sizes { map p | p in cs && cs[p].use == Free :: cs[p].size }

  // ---------------------------------------------------------------- replacing whole chunks by others

  /** The chunks from lo to hi become one. */
  function Carve1(cs: Chunks, lo: int, hi: int, use: Use): Chunks
    requires lo in cs && hi in cs && lo < hi
  {
    (map p | p in cs && !(lo <= p < hi) :: cs[p])[lo := Chunk(hi - lo, use, cs[lo].pin)][hi := cs[hi].(pin := !IsFree(use))]
  }

  /** The chunks from lo to hi become two. */
  function Carve2(cs: Chunks, lo: int, mid: int, hi: int, use1: Use, use2: Use): Chunks
    requires lo in cs && hi in cs && lo < mid < hi
  {
    (map p | p in cs && !(lo <= p < hi) :: cs[p])[lo := Chunk(mid - lo, use1, cs[lo].pin)]
      [mid := Chunk(hi - mid, use2, !IsFree(use1))][hi := cs[hi].(pin := !IsFree(use2))]
  }

  /** Chunks outside of lo..hi are on one side of it. */
  lemma Outside(cs: Chunks, lo: int, hi: int, p: int)
    requires Laid(cs) && lo in cs && hi in cs && lo < hi && p in cs && !(lo <= p < hi)
    ensures p >= hi || p + cs[p].size <= lo
  {
    assert Clear(p, cs[p], lo);
  }

  lemma LaidAt(cs: Chunks, p: int)
    requires Laid(cs) && p in cs
    ensures ChunkOk(p, cs[p]) && NextOk(cs, p)
  {
    assert ChunkOk(p, cs[p]);
  }

  /** Where a free chunk before p is, after some chunks before p were replaced. */
  lemma KeptEnd(cs: Chunks, cs1: Chunks, lo: int, hi: int, p: int)
    requires Laid(cs) && lo in cs && hi in cs && lo < hi && p in cs && !(lo < p < hi) && p != hi && !cs[p].pin
    requires forall q :: q in cs && !(lo <= q < hi) && q != hi ==> q in cs1 && cs1[q] == cs[q]
    requires hi in cs1 && cs1[hi].use == cs[hi].use && cs1[hi].size == cs[hi].size
    ensures exists q :: EndsAt(cs1, q, p)
  {
    hide Laid;
    var q := PrevFree(cs, p);
    LaidAt(cs, q);
    LaidAt(cs, lo);
    ClearAt(cs, q, lo);
    ClearAt(cs, q, hi);
    if p > lo { Outside(cs, lo, hi, p); }
    assert EndsAt(cs1, q, p);
  }

  lemma PrevFree(cs: Chunks, p: int) returns (q: int)
    requires Laid(cs) && p in cs && !cs[p].pin
    ensures EndsAt(cs, q, p)
  {
    assert Preceded(cs, p);
    q :| EndsAt(cs, q, p);
  }

  /** The chunk before one outside of lo..hi. */
  lemma KeptNext(cs: Chunks, cs1: Chunks, lo: int, hi: int, p: int)
    requires Laid(cs) && lo in cs && hi in cs && lo < hi && p in cs && !(lo <= p < hi)
    requires forall q :: q in cs && !(lo <= q < hi) && q != hi ==> q in cs1 && cs1[q] == cs[q]
    requires hi in cs1 && cs1[hi].use == cs[hi].use && cs1[hi].size == cs[hi].size
    requires lo in cs1 && cs1[lo].pin == cs[lo].pin
    ensures p in cs1 && NextOk(cs1, p)
  {
    hide Laid;
    LaidAt(cs, p);
    Outside(cs, lo, hi, p);
    assert p in cs1 && cs1[p].use == cs[p].use && cs1[p].size == cs[p].size;
    if !IsEnd(cs[p].use) {
      var n := p + cs[p].size;
      assert n in cs1 && cs1[n].pin == cs[n].pin;
    }
  }

  lemma Carve1Laid(cs: Chunks, lo: int, hi: int, use: Use)
    requires Laid(cs) && lo in cs && hi in cs && lo < hi && ChunkOk(lo, Chunk(hi - lo, use, cs[lo].pin)) && !IsEnd(use)
    requires IsFree(use) ==> !IsFree(cs[hi].use)
    ensures Laid(Carve1(cs, lo, hi, use))
  {
    hide Laid;
    var cs1 := Carve1(cs, lo, hi, use);
    LaidAt(cs, hi);
    forall p | p in cs1
      ensures ChunkOk(p, cs1[p]) && NextOk(cs1, p)
      ensures !cs1[p].pin ==> exists q :: EndsAt(cs1, q, p)
    {
      if p != lo {
        LaidAt(cs, p);
        KeptNext(cs, cs1, lo, hi, p);
      }
      if !cs1[p].pin {
        if p == hi { assert EndsAt(cs1, lo, p); } else { KeptEnd(cs, cs1, lo, hi, p); }
      }
    }
    forall p, q | p in cs1 && q in cs1
      ensures Clear(p, cs1[p], q)
    {
      if p != lo {
        Outside(cs, lo, hi, p);
        if q != lo { ClearAt(cs, p, q); }
      } else if q != lo {
        Outside(cs, lo, hi, q);
        LaidAt(cs, q);
      }
    }
    IsLaid(cs1);
  }

  lemma ClearAt(cs: Chunks, p: int, q: int)
    requires Laid(cs) && p in cs && q in cs
    ensures Clear(p, cs[p], q)
  {}

  lemma IsLaid(cs: Chunks)
    requires forall p :: p in cs ==> ChunkOk(p, cs[p])
    requires forall p, q :: p in cs && q in cs ==> Clear(p, cs[p], q)
    requires forall p :: p in cs ==> NextOk(cs, p)
    requires forall p :: p in cs && !cs[p].pin ==> exists q :: EndsAt(cs, q, p)
    ensures Laid(cs)
  {
    forall p | p in cs
      ensures Preceded(cs, p)
    {}
  }

  lemma Carve2Laid(cs: Chunks, lo: int, mid: int, hi: int, use1: Use, use2: Use)
    requires Laid(cs) && lo in cs && hi in cs && lo < mid < hi && ChunkOk(lo, Chunk(mid - lo, use1, cs[lo].pin)) && !IsFree(use1)
    requires ChunkOk(mid, Chunk(hi - mid, use2, true)) && !IsEnd(use1) && !IsEnd(use2)
    requires IsFree(use2) ==> !IsFree(cs[hi].use)
    ensures Laid(Carve2(cs, lo, mid, hi, use1, use2))
  {
    hide Laid;
    var cs1 := Carve2(cs, lo, mid, hi, use1, use2);
    LaidAt(cs, hi);
    forall p | p in cs1
      ensures ChunkOk(p, cs1[p]) && NextOk(cs1, p)
      ensures !cs1[p].pin ==> exists q :: EndsAt(cs1, q, p)
    {
      if p != lo && p != mid {
        LaidAt(cs, p);
        KeptNext(cs, cs1, lo, hi, p);
      }
      if !cs1[p].pin {
        if p == hi { assert EndsAt(cs1, mid, p); } else { KeptEnd(cs, cs1, lo, hi, p); }
      }
    }
    forall p, q | p in cs1 && q in cs1
      ensures Clear(p, cs1[p], q)
    {
      Carve2Clear(cs, lo, mid, hi, use1, use2, p, q);
    }
    IsLaid(cs1);
  }

  lemma Carve2Clear(cs: Chunks, lo: int, mid: int, hi: int, use1: Use, use2: Use, p: int, q: int)
    requires Laid(cs) && lo in cs && hi in cs && lo < mid < hi
    requires p in Carve2(cs, lo, mid, hi, use1, use2) && q in Carve2(cs, lo, mid, hi, use1, use2)
    ensures Clear(p, Carve2(cs, lo, mid, hi, use1, use2)[p], q)
  {
    hide Laid;
    if p != lo && p != mid {
      Outside(cs, lo, hi, p);
      if q != lo && q != mid { ClearAt(cs, p, q); }
    } else if q != lo && q != mid {
      Outside(cs, lo, hi, q);
      LaidAt(cs, q);
    }
  }

  // ---------------------------------------------------------------- segments

  /** Whole chunks, none of them the end of a segment, lead from lo to hi. */
  predicate Chain(cs: Chunks, lo: int, hi: int)
    decreases hi - lo
  {
    lo == hi || (lo < hi && lo in cs && cs[lo].size > 0 && !IsEnd(cs[lo].use) && Chain(cs, lo + cs[lo].size, hi))
  }

  lemma SegmentOf(cs: Chunks, segs: seq<Segment>, p: int) returns (i: int)
    requires SegmentsOk(cs, segs) && p in cs
    ensures 0 <= i < |segs| && InSegment(p, cs[p], segs[i])
  {
    hide Based, Disjoint;
    assert InSome(p, cs[p], segs);
    i :| 0 <= i < |segs| && InSegment(p, cs[p], segs[i]);
  }

  predicate Holds(s: Segment, a: int) { s.base <= a < s.base + s.size }

  lemma OneSegment(cs: Chunks, segs: seq<Segment>, i: int, j: int, a: int)
    requires SegmentsOk(cs, segs) && 0 <= i < |segs| && 0 <= j < |segs| && Holds(segs[i], a) && Holds(segs[j], a)
    ensures i == j
  {
    hide Based, Covered;
  }

  /** All chunks of a chain lie in one segment, and so does what follows. */
  lemma {:induction false} ChainSegment(cs: Chunks, segs: seq<Segment>, lo: int, hi: int) returns (i: int)
    requires Laid(cs) && SegmentsOk(cs, segs) && Chain(cs, lo, hi) && lo < hi
    ensures 0 <= i < |segs| && segs[i].base <= lo && hi < segs[i].base + segs[i].size && hi in cs
    ensures forall p :: p in cs && lo <= p < hi ==> Holds(segs[i], p) && !IsEnd(cs[p].use) && p + cs[p].size <= hi
    decreases hi - lo
  {
    hide Laid, SegmentsOk;
    i := SegmentOf(cs, segs, lo);
    var n := lo + cs[lo].size;
    LaidAt(cs, lo);
    if n < hi {
      var j := ChainSegment(cs, segs, n, hi);
      OneSegment(cs, segs, i, j, n);
    }
    forall p | p in cs && lo <= p < hi
      ensures Holds(segs[i], p) && !IsEnd(cs[p].use) && p + cs[p].size <= hi
    {
      ClearAt(cs, lo, p);
    }
  }

  lemma BaseIn(cs: Chunks, segs: seq<Segment>, j: int)
    requires SegmentsOk(cs, segs) && 0 <= j < |segs|
    ensures segs[j].base in cs && Holds(segs[j], segs[j].base) && segs[j].base + segs[j].size <= MAX_ADDR
  {
    hide Covered, Disjoint;
  }

  lemma SegmentsKept(cs: Chunks, cs1: Chunks, segs: seq<Segment>, lo: int, hi: int)
    requires Laid(cs) && SegmentsOk(cs, segs) && Chain(cs, lo, hi) && lo < hi
    requires lo in cs1 && forall p :: p in cs && !(lo <= p < hi) ==> p in cs1
    requires forall p :: p in cs1 && !(lo <= p < hi) ==> p in cs && cs1[p].use == cs[p].use && cs1[p].size == cs[p].size
    requires forall p :: p in cs1 && lo <= p < hi ==> !IsEnd(cs1[p].use) && p + cs1[p].size <= hi
    ensures SegmentsOk(cs1, segs)
  {
    hide Laid, Chain, SegmentsOk;
    var i := ChainSegment(cs, segs, lo, hi);
    forall p | p in cs1
      ensures InSome(p, cs1[p], segs)
    {
      if lo <= p < hi {
        assert InSegment(p, cs1[p], segs[i]);
      } else {
        var j := SegmentOf(cs, segs, p);
        assert InSegment(p, cs1[p], segs[j]);
      }
    }
    forall j | 0 <= j < |segs|
      ensures segs[j].base in cs1
    {
      BaseIn(cs, segs, j);
      if lo < segs[j].base < hi { OneSegment(cs, segs, i, j, segs[j].base); }
    }
    SegmentsAre(cs, cs1, segs);
  }

  lemma SegmentsAre(cs: Chunks, cs1: Chunks, segs: seq<Segment>)
    requires SegmentsOk(cs, segs) && forall j :: 0 <= j < |segs| ==> segs[j].base in cs1
    requires forall p :: p in cs1 ==> InSome(p, cs1[p], segs)
    ensures SegmentsOk(cs1, segs)
  {
    hide Based, Covered, Disjoint;
    BasedAre(cs, cs1, segs);
    CoveredAre(cs1, segs);
  }

  lemma BasedAre(cs: Chunks, cs1: Chunks, segs: seq<Segment>)
    requires Based(cs, segs) && forall j :: 0 <= j < |segs| ==> segs[j].base in cs1
    ensures Based(cs1, segs)
  {}

  lemma CoveredAre(cs: Chunks, segs: seq<Segment>)
    requires forall p :: p in cs ==> InSome(p, cs[p], segs)
    ensures Covered(cs, segs)
  {}

  // ---------------------------------------------------------------- memory

  /** Only heads at the given chunks and the foot at hi differ. */
  ghost predicate OnlyHeads(m: Mem, m1: Mem, lo: int, mid: int, hi: int) {
    forall c :: c != lo + 8 && c != mid + 8 && c != hi + 8 && c != hi ==> R(m1, c) == R(m, c)
  }

  /** The words of a chunk in use that belong to its owner. */
  ghost predicate Kept(m: Mem, m1: Mem, p: int, size: nat) {
    forall c :: p + 16 <= c < p + size + 8 ==> R(m1, c) == R(m, c)
  }

  /** Chunks in use, but for some, stay as they are, with their contents. */
  ghost predicate Preserves(m: Mem, cs: Chunks, m1: Mem, cs1: Chunks, out: set<int>) {
    forall p :: p in cs && cs[p].use == Used && p !in out ==>
      p in cs1 && cs1[p].use == Used && cs1[p].size == cs[p].size && Kept(m, m1, p, cs[p].size)
  }

  lemma PreservesTrans(m: Mem, cs: Chunks, m1: Mem, cs1: Chunks, m2: Mem, cs2: Chunks, out: set<int>)
    requires Preserves(m, cs, m1, cs1, out) && Preserves(m1, cs1, m2, cs2, out)
    ensures Preserves(m, cs, m2, cs2, out)
  {
    forall p | p in cs && cs[p].use == Used && p !in out
      ensures p in cs2 && cs2[p].use == Used && cs2[p].size == cs[p].size && Kept(m, m2, p, cs[p].size)
    {
      assert Kept(m, m1, p, cs[p].size) && Kept(m1, m2, p, cs[p].size);
    }
  }

  /** The chunks outside of lo..hi do not see what is written to the heads at its borders. */
  lemma WrittenOutside(m: Mem, m1: Mem, cs: Chunks, lo: int, mid: int, hi: int, p: int)
    requires Laid(cs) && Written(m, cs) && lo in cs && hi in cs && lo <= mid < hi && OnlyHeads(m, m1, lo, mid, hi)
    requires p in cs && !(lo <= p < hi) && hi - lo >= 8
    ensures p != hi ==> Head(m1, p) == Head(m, p)
    ensures cs[p].use == Free || cs[p].use == Dv ==> PrevFoot(m1, p + cs[p].size) == cs[p].size
    ensures cs[p].use == Used ==> Kept(m, m1, p, cs[p].size)
  {
    hide Laid, Written, R;
    LaidAt(cs, p);
    Outside(cs, lo, hi, p);
    if cs[p].use == Free || cs[p].use == Dv {
      FootAt(m, cs, p);
      assert p + cs[p].size != lo + 8;
    }
  }

  lemma FootAt(m: Mem, cs: Chunks, p: int)
    requires Written(m, cs) && p in cs
    ensures Head(m, p) == HeadWord(cs[p])
    ensures cs[p].use == Free || cs[p].use == Dv ==> PrevFoot(m, p + cs[p].size) == cs[p].size
  {}

  lemma Carve1Written(m: Mem, m1: Mem, cs: Chunks, lo: int, hi: int, use: Use)
    requires Laid(cs) && Written(m, cs) && lo in cs && hi in cs && lo + 8 <= hi && OnlyHeads(m, m1, lo, lo, hi)
    requires Head(m1, lo) == HeadWord(Chunk(hi - lo, use, cs[lo].pin)) && Head(m1, hi) == HeadWord(cs[hi].(pin := !IsFree(use)))
    requires use == Free || use == Dv ==> PrevFoot(m1, hi) == hi - lo
    ensures Written(m1, Carve1(cs, lo, hi, use))
    ensures Preserves(m, cs, m1, Carve1(cs, lo, hi, use), set p | p in cs && lo <= p < hi)
  {
    hide Laid, OnlyHeads;
    var cs1 := Carve1(cs, lo, hi, use);
    forall p | p in cs && !(lo <= p < hi)
      ensures p != hi ==> Head(m1, p) == Head(m, p)
      ensures cs[p].use == Free || cs[p].use == Dv ==> PrevFoot(m1, p + cs[p].size) == cs[p].size
      ensures cs[p].use == Used ==> Kept(m, m1, p, cs[p].size)
    {
      WrittenOutside(m, m1, cs, lo, lo, hi, p);
    }
  }

  lemma Carve2Written(m: Mem, m1: Mem, cs: Chunks, lo: int, mid: int, hi: int, use1: Use, use2: Use)
    requires Laid(cs) && Written(m, cs) && lo in cs && hi in cs && lo + 8 <= mid && mid + 8 <= hi && OnlyHeads(m, m1, lo, mid, hi)
    requires Head(m1, lo) == HeadWord(Chunk(mid - lo, use1, cs[lo].pin)) && use1 == Used
    requires Head(m1, mid) == HeadWord(Chunk(hi - mid, use2, true)) && Head(m1, hi) == HeadWord(cs[hi].(pin := !IsFree(use2)))
    requires use2 == Free || use2 == Dv ==> PrevFoot(m1, hi) == hi - mid
    ensures Written(m1, Carve2(cs, lo, mid, hi, use1, use2))
    ensures Preserves(m, cs, m1, Carve2(cs, lo, mid, hi, use1, use2), set p | p in cs && lo <= p < hi)
  {
    hide Laid, OnlyHeads;
    var cs1 := Carve2(cs, lo, mid, hi, use1, use2);
    forall p | p in cs && !(lo <= p < hi)
      ensures p != hi ==> Head(m1, p) == Head(m, p)
      ensures cs[p].use == Free || cs[p].use == Dv ==> PrevFoot(m1, p + cs[p].size) == cs[p].size
      ensures cs[p].use == Used ==> Kept(m, m1, p, cs[p].size)
    {
      WrittenOutside(m, m1, cs, lo, mid, hi, p);
    }
  }

  /** The chunks that the bins use are not in use. */
  predicate InLayout(cs: Chunks, sz: Sizes) {
    forall a :: a in sz ==> a in cs && cs[a].size == sz[a] && cs[a].use == Free
  }

  /** What the bins write does not concern the heap. */
  lemma BinsWritten(m: Mem, m1: Mem, cs: Chunks, sz: Sizes)
    requires Laid(cs) && Written(m, cs) && OnlyFree(m, m1, sz) && InLayout(cs, sz)
    ensures Written(m1, cs) && Preserves(m, cs, m1, cs, {})
  {
    hide Laid, OnlyFree;
    forall p | p in cs
      ensures Head(m1, p) == Head(m, p)
      ensures cs[p].use == Free || cs[p].use == Dv ==> PrevFoot(m1, p + cs[p].size) == PrevFoot(m, p + cs[p].size)
      ensures cs[p].use == Used ==> Kept(m, m1, p, cs[p].size)
    {
      LaidAt(cs, p);
      NotInBins(m, m1, cs, sz, p + 8);
      if cs[p].use == Free || cs[p].use == Dv { NotInBins(m, m1, cs, sz, p + cs[p].size); }
      if cs[p].use == Used {
        forall c | p + 16 <= c < p + cs[p].size + 8
          ensures R(m1, c) == R(m, c)
        {
          OwnerWord(m, m1, cs, sz, p, c);
        }
      }
    }
  }

  /** Heads and feet are not words of free chunks that the bins use. */
  lemma NotInBins(m: Mem, m1: Mem, cs: Chunks, sz: Sizes, c: int)
    requires Laid(cs) && OnlyFree(m, m1, sz) && InLayout(cs, sz) && c > 0 && (c in cs || c - 8 in cs)
    ensures R(m1, c) == R(m, c)
  {
    forall a | a in sz
      ensures !InChunk(sz, a, c)
    {
      if c in cs { ClearAt(cs, a, c); }
      if c - 8 in cs { ClearAt(cs, a, c - 8); }
    }
  }

  lemma OwnerWord(m: Mem, m1: Mem, cs: Chunks, sz: Sizes, p: int, c: int)
    requires Laid(cs) && OnlyFree(m, m1, sz) && InLayout(cs, sz) && p in cs && cs[p].use == Used && p + 16 <= c < p + cs[p].size + 8 && p > 0
    ensures R(m1, c) == R(m, c)
  {
    forall a | a in sz
      ensures !InChunk(sz, a, c)
    {
      ClearAt(cs, a, p);
      ClearAt(cs, p, a);
    }
  }
}
