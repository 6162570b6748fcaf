/** `prepend_alloc` (luajit/lj_alloc.c): memory from the system in front of a segment. */
module AllocFront {
  import opened AllocMem
  import opened AllocBins
  import opened AllocHeap
  import opened AllocSteps
  import opened AllocMalloc
  import opened AllocFree
  import opened AllocSplice
  import opened AllocSys
  import opened AllocRecut

  /** Nothing ends where a segment starts but another segment. */
  lemma BaseFirst(cs: Chunks, segs: seq<Segment>, j: int, dv: int, dvsize: int, top: int, topsize: int)
    requires Laid(cs) && SegmentsOk(cs, segs) && 0 <= j < |segs| && Marked(cs, dv, dvsize, top, topsize)
    ensures segs[j].base in cs && cs[segs[j].base].pin && cs[segs[j].base].use != Foot && segs[j].base > 0 && segs[j].base % 8 == 0
    ensures forall q :: q in cs && !IsEnd(cs[q].use) ==> q + cs[q].size != segs[j].base
    ensures !IsEnd(cs[segs[j].base].use) ==> InSegment(segs[j].base, cs[segs[j].base], segs[j])
  {
    hide Laid, SegmentsOk, Marked;
    var b := segs[j].base;
    BaseIn(cs, segs, j);
    LaidAt(cs, b);
    forall q | q in cs && !IsEnd(cs[q].use)
      ensures q + cs[q].size != b
    {
      var i := SegmentOf(cs, segs, q);
      LaidAt(cs, q);
      if q + cs[q].size == b { OneSegment(cs, segs, i, j, b); }
    }
    if !cs[b].pin { var q := PrevFree(cs, b); }
    DvAt(cs, dv, dvsize, top, topsize);
    if cs[b].use == Foot { IsFoot(cs, dv, dvsize, top, topsize, b); }
    var i := SegmentOf(cs, segs, b);
    OneSegment(cs, segs, i, j, b);
  }

  lemma IsFoot(cs: Chunks, dv: int, dvsize: int, top: int, topsize: int, p: int)
    requires Marked(cs, dv, dvsize, top, topsize) && p in cs && cs[p].use == Foot
    ensures p == top + topsize
  {}

  /** The new memory, as a chunk in use. */
  ghost function Fronted(cs: Chunks, base: int, size: nat): Chunks { cs[base := Chunk(size, Used, true)] }

  lemma FrontOk(m: Mem, cs: Chunks, segs: seq<Segment>, dv: int, dvsize: int, top: int, topsize: int, j: int, base: int, size: nat)
    requires HeapOk(m, cs, segs, dv, dvsize, top, topsize) && 0 <= j < |segs| && segs[j].base == base + size
    requires Fresh(segs, base, size) && size % 8 == 0 && size >= MIN_CHUNK_SIZE
    ensures base !in cs && (forall q :: q in cs ==> !(base <= q < base + size)) && FreeOf(Fronted(cs, base, size)) == FreeOf(cs)
    ensures var m1, cs1 := m[base + 8 := size + 3], Fronted(cs, base, size);
            && Preserves(m, cs, m1, cs1, {}) && OnlyForeign(m, m1, FreeOf(cs)) && Chain(cs1, base, base + size)
            && HeapOk(m1, cs1, segs[j := Segment(base, segs[j].size + size)], dv, dvsize, top, topsize)
  {
    hide Laid, SegmentsOk, Marked, Written, Preserves, FreeOf, OnlyForeign, InLayout, Fresh, Room;
    var m1, cs1, segs1 := m[base + 8 := size + 3], Fronted(cs, base, size), segs[j := Segment(base, segs[j].size + size)];
    FreshBound(segs, base, size);
    FreshRoom(cs, segs, base, size);
    BaseFirst(cs, segs, j, dv, dvsize, top, topsize);
    FrontLaid(cs, base, size);
    FrontSegments(cs, segs, j, base, size);
    FrontMarked(cs, dv, dvsize, top, topsize, base, size);
    FreeLaid(cs, {});
    NoneLess(FreeOf(cs));
    OneWord(m, base, size);
    SplicedForeign(m, m1, cs, base, base + size, FreeOf(cs));
    forall p | p in cs
      ensures Head(m1, p) == Head(m, p)
      ensures cs[p].use == Free || cs[p].use == Dv ==> PrevFoot(m1, p + cs[p].size) == PrevFoot(m, p + cs[p].size)
      ensures cs[p].use == Used ==> Kept(m, m1, p, cs[p].size)
    {
      RoomAt(cs, base, base + size, p);
      LaidAt(cs, p);
    }
    FrontWritten(m, m1, cs, base, size);
    assert Chain(cs1, base + size, base + size);
  }

  lemma FrontLaid(cs: Chunks, base: int, size: nat)
    requires Laid(cs) && Room(cs, base, base + size) && size % 8 == 0 && size >= MIN_CHUNK_SIZE && 0 < base && base % 8 == 0
    requires base + size in cs && cs[base + size].pin && forall q :: q in cs ==> !(base <= q < base + size)
    requires base + size <= MAX_ADDR
    ensures Laid(Fronted(cs, base, size))
  {
    hide Laid, Room, Fronted;
    var cs1 := Fronted(cs, base, size);
    FrontIs(cs, base, size);
    forall p, q | p in cs1 && q in cs1
      ensures Clear(p, cs1[p], q)
    {
      if p != base {
        RoomAt(cs, base, base + size, p);
        if q != base { ClearAt(cs, p, q); }
      } else if q != base {
        RoomAt(cs, base, base + size, q);
        LaidAt(cs, q);
      }
    }
    forall p | p in cs1
      ensures ChunkOk(p, cs1[p]) && NextOk(cs1, p)
      ensures !cs1[p].pin ==> exists q :: EndsAt(cs1, q, p)
    {
      if p != base {
        LaidAt(cs, p);
        if !cs[p].pin { var q := PrevFree(cs, p); assert EndsAt(cs1, q, p); }
      }
    }
    IsLaid(cs1);
  }

  lemma FrontIs(cs: Chunks, base: int, size: nat)
    requires base !in cs
    ensures var cs1 := Fronted(cs, base, size);
            && base in cs1 && cs1[base] == Chunk(size, Used, true) && (forall p :: p in cs1 <==> p == base || p in cs)
            && forall p :: p in cs ==> cs1[p] == cs[p]
  {}

  lemma FrontSegments(cs: Chunks, segs: seq<Segment>, j: int, base: int, size: nat)
    requires SegmentsOk(cs, segs) && 0 <= j < |segs| && segs[j].base == base + size && Fresh(segs, base, size)
    ensures SegmentsOk(Fronted(cs, base, size), segs[j := Segment(base, segs[j].size + size)])
  {
    hide SegmentsOk, Disjoint, Based, Covered;
    var cs1, segs1 := Fronted(cs, base, size), segs[j := Segment(base, segs[j].size + size)];
    FrontDisjoint(cs, segs, j, base, size);
    forall i | 0 <= i < |segs1|
      ensures segs1[i].base in cs1 && segs1[i].base + segs1[i].size <= MAX_ADDR && segs1[i].size > 0
    {
      BaseIn(cs, segs, i);
    }
    forall p | p in cs1
      ensures InSome(p, cs1[p], segs1)
    {
      if p == base {
        BaseIn(cs, segs, j);
        assert InSegment(p, cs1[p], segs1[j]);
      } else {
        var i := SegmentOf(cs, segs, p);
        assert InSegment(p, cs1[p], segs1[i]);
      }
    }
    AllBased(cs1, segs1);
    AllCovered(cs1, segs1);
    AreSegments(cs1, segs1);
  }

  lemma AreSegments(cs: Chunks, segs: seq<Segment>)
    requires Based(cs, segs) && Disjoint(segs) && Covered(cs, segs)
    ensures SegmentsOk(cs, segs)
  {}

  lemma FrontDisjoint(cs: Chunks, segs: seq<Segment>, j: int, base: int, size: nat)
    requires SegmentsOk(cs, segs) && 0 <= j < |segs| && segs[j].base == base + size && Fresh(segs, base, size)
    ensures Disjoint(segs[j := Segment(base, segs[j].size + size)])
  {
    hide Covered;
  }

  lemma FrontMarked(cs: Chunks, dv: int, dvsize: int, top: int, topsize: int, base: int, size: nat)
    requires Marked(cs, dv, dvsize, top, topsize) && base !in cs
    ensures Marked(Fronted(cs, base, size), dv, dvsize, top, topsize) && FreeOf(Fronted(cs, base, size)) == FreeOf(cs)
  {
    var f1, f2 := FreeOf(Fronted(cs, base, size)), FreeOf(cs);
    assert forall q :: q in f1 <==> q in f2;
    assert forall q :: q in f1 ==> f1[q] == f2[q];
  }

  lemma OneWord(m: Mem, base: int, size: nat)
    requires size >= 16
    ensures OnlyWithin(m, m[base + 8 := size + 3], base, base + size)
  {}

  lemma FrontWritten(m: Mem, m1: Mem, cs: Chunks, base: int, size: nat)
    requires Written(m, cs) && base !in cs && Head(m1, base) == size + 3
    requires forall p :: p in cs ==> Head(m1, p) == Head(m, p)
    requires forall p :: p in cs && (cs[p].use == Free || cs[p].use == Dv) ==> PrevFoot(m1, p + cs[p].size) == PrevFoot(m, p + cs[p].size)
    requires forall p :: p in cs && cs[p].use == Used ==> Kept(m, m1, p, cs[p].size)
    ensures Written(m1, Fronted(cs, base, size)) && Preserves(m, cs, m1, Fronted(cs, base, size), {})
  {}

  // ---------------------------------------------------------------- the first chunk of the segment

  /** hi is where the old segment starts, or where its first chunk ends, if that is free. */
  ghost predicate FirstTo(cs: Chunks, first: int, hi: int) {
    first in cs && (hi == first || (IsFree(cs[first].use) && hi == first + cs[first].size))
  }

  ghost predicate Between(cs: Chunks, base: int, first: int, hi: int) {
    forall q :: q in cs && base <= q < hi ==> q == base || (q == first && hi != first)
  }

  lemma FrontChain(cs: Chunks, base: int, size: nat, hi: int)
    requires Laid(cs) && FirstTo(cs, base + size, hi) && size > 0 && Chain(Fronted(cs, base, size), base, base + size)
    requires forall q :: q in cs ==> !(base <= q < base + size)
    ensures Chain(Fronted(cs, base, size), base, hi) && hi in cs && base + size <= hi && base !in cs
    ensures Between(Fronted(cs, base, size), base, base + size, hi)
  {
    hide Laid, Chain;
    var first := base + size;
    if hi != first {
      Neighbours(cs, first);
      OnlyOne(cs, first);
      ChainOn(Fronted(cs, base, size), base, first);
    }
    forall q | q in Fronted(cs, base, size) && base <= q < hi
      ensures q == base || (q == first && hi != first)
    {
      if q != base { assert q in cs; }
    }
  }

  lemma FrontFree(cs: Chunks, base: int, size: nat, hi: int, out: set<int>)
    requires Between(Fronted(cs, base, size), base, base + size, hi) && base !in cs && size > 0 && base + size <= hi
    requires FirstTo(cs, base + size, hi)
    requires out == if hi != base + size && cs[base + size].use == Free then {base + size} else {}
    ensures Removed(FreeOf(Fronted(cs, base, size)), base, hi) == FreeOf(cs) - out
  {
    hide Between;
    var f1, f2 := Removed(FreeOf(Fronted(cs, base, size)), base, hi), FreeOf(cs) - out;
    assert forall q :: q in f1 <==> q in f2 by {
      BetweenAt(cs, base, size, hi);
    }
    assert forall q :: q in f1 ==> f1[q] == f2[q];
  }

  lemma BetweenAt(cs: Chunks, base: int, size: nat, hi: int)
    requires Between(Fronted(cs, base, size), base, base + size, hi) && base !in cs
    ensures forall q :: q in cs && base <= q < hi ==> q == base + size && hi != base + size
  {
    forall q | q in cs && base <= q < hi
      ensures q == base + size && hi != base + size
    {
      assert q in Fronted(cs, base, size);
    }
  }

  lemma PreservesNew(m: Mem, cs: Chunks, m1: Mem, cs1: Chunks, m2: Mem, cs2: Chunks, p: int)
    requires Preserves(m, cs, m1, cs1, {}) && Preserves(m1, cs1, m2, cs2, {p}) && p !in cs
    ensures Preserves(m, cs, m2, cs2, {})
  {
    hide Preserves;
    PreservesLess(m, cs, m1, cs1, {p});
    PreservesTrans(m, cs, m1, cs1, m2, cs2, {p});
    PreservesOther(m, cs, m2, cs2, p);
  }

  lemma PreservesOther(m: Mem, cs: Chunks, m1: Mem, cs1: Chunks, p: int)
    requires Preserves(m, cs, m1, cs1, {p}) && p !in cs
    ensures Preserves(m, cs, m1, cs1, {})
  {}

  /** The new memory is cut in two; the second part takes in the first chunk of the segment, if that is free. */
  ghost predicate Cut(ms: MallocState, m: Mem, cs: Chunks, base: int, size: nat, nb: nat, hi: int, use: Use, sz: Sizes)
    requires hi in cs && base < base + nb < hi && size > 0
    reads ms
  {
    var cs1 := Carve2(Fronted(cs, base, size), base, base + nb, hi, Used, use);
    && FreeOf(cs1) == (if use == Free then sz[base + nb := hi - (base + nb)] else sz) && base + nb !in sz
    && base + nb in cs1 && cs1[base + nb] == Chunk(hi - (base + nb), use, true) && NewBlock(cs, cs1, base, nb)
    && Preserves(m, cs, ms.mem, cs1, {}) && ms.BinsValid()
    && HeapOk(ms.mem, cs1, ms.segs, ms.dv, ms.dvsize, ms.top, ms.topsize)
  }

  lemma SameCut(m: Mem, m1: Mem, cs: Chunks, base: int, size: nat, nb: nat, hi: int, use: Use)
    requires base in cs && hi in cs && base < base + nb < hi && CutHeads(m, m1, cs, base, base + nb, hi, use)
    ensures CutHeads(m[base + 8 := size + 3], m1, cs, base, base + nb, hi, use)
  {}

  lemma PrependOk(ms: MallocState, m: Mem, cs: Chunks, segs: seq<Segment>, dv: int, dvsize: int, top: int, topsize: int, j: int,
                  base: int, size: nat, nb: nat, hi: int, use: Use, out: set<int>)
    requires 0 <= j < |segs| && segs[j].base == base + size
    requires ms.segs == segs[j := Segment(base, segs[j].size + size)] && Fresh(segs, base, size) && size % 8 == 0
    requires nb % 8 == 0 && MIN_CHUNK_SIZE <= nb && nb + MIN_CHUNK_SIZE <= size
    requires base + size in cs && hi in cs && base + size <= hi && !IsFree(cs[hi].use) && IsFree(use) && FirstTo(cs, base + size, hi)
    requires Cutting(base, base + nb, hi, use, dv, dvsize, top, topsize, ms.dv, ms.dvsize, ms.top, ms.topsize)
    requires CutHeads(m, ms.mem, Fronted(cs, base, size), base, base + nb, hi, use)
    requires out == if hi != base + size && cs[base + size].use == Free then {base + size} else {}
    requires ms.free == FreeOf(cs) - out && HeapOk(m, cs, segs, dv, dvsize, top, topsize)
    requires BinsOk(m, ms.smallmap, ms.treemap, ms.small, ms.tries, ms.free)
    ensures Cut(ms, m, cs, base, size, nb, hi, use, ms.free)
  {
    hide HeapOk, BinsOk, Laid, SegmentsOk, Marked, Written, Preserves, FreeOf, OnlyForeign, InLayout, Fresh, Chain, Carve2, Removed;
    hide Fronted, CutHeads, Between;
    var cs1 := Fronted(cs, base, size);
    OkParts(m, cs, segs, dv, dvsize, top, topsize);
    FrontOk(m, cs, segs, dv, dvsize, top, topsize, j, base, size);
    FrontIs(cs, base, size);
    FreshBound(segs, base, size);
    FrontChain(cs, base, size, hi);
    OnlyFront(cs, base, size, hi);
    SameCut(m, ms.mem, cs1, base, size, nb, hi, use);
    var m1 := m[base + 8 := size + 3];
    OkParts(m1, cs1, ms.segs, dv, dvsize, top, topsize);
    FreeCut(cs1, base, base + nb, hi, use);
    Recut(m1, ms.mem, cs1, ms.segs, dv, dvsize, top, topsize, base, base + nb, hi, use, ms.dv, ms.dvsize, ms.top, ms.topsize);
    FrontFree(cs, base, size, hi, out);
    PreservesNew(m, cs, m1, cs1, ms.mem, Carve2(cs1, base, base + nb, hi, Used, use), base);
    CutBins(m, ms.mem, cs1, base, base + nb, hi, use, ms.smallmap, ms.treemap, ms.small, ms.tries, ms.free);
  }

  lemma OnlyFront(cs: Chunks, base: int, size: nat, hi: int)
    requires Between(Fronted(cs, base, size), base, base + size, hi) && base !in cs && FirstTo(cs, base + size, hi) && size > 0
    ensures forall q :: q in Fronted(cs, base, size) && base <= q < hi && Fronted(cs, base, size)[q].use == Used ==> q == base
  {}

  // ---------------------------------------------------------------- the method

  /** What `prepend_alloc` is called with: sp is the segment behind the new memory. */
  ghost predicate Behind(segs: seq<Segment>, j: int, tbase: int, tsize: int, nb: int) {
    && 0 <= j < |segs| && segs[j].base == tbase + tsize && Fresh(segs, tbase, tsize) && tsize % 8 == 0
    && nb % 8 == 0 && MIN_CHUNK_SIZE <= nb && nb + MIN_CHUNK_SIZE <= tsize
  }

  /** The first chunk of the segment is the top chunk. */
  method PrependTop(ms: MallocState, j: nat, tbase: int, tsize: nat, nb: nat)
    requires Valid(ms) && Behind(ms.segs, j, tbase, tsize, nb) && tbase + tsize == ms.top
    modifies ms`mem, ms`chunks, ms`segs, ms`top, ms`topsize
    ensures ms.segs == old(ms.segs)[j := Segment(tbase, old(ms.segs)[j].size + tsize)]
    ensures Valid(ms) && NewBlock(old(ms.chunks), ms.chunks, tbase, nb)
    ensures Preserves(old(ms.mem), old(ms.chunks), ms.mem, ms.chunks, {})
  {
    hide HeapOk, BinsOk, Laid, SegmentsOk, Marked, Written, Preserves, FreeOf, Fresh, Carve2, OnlyHeads, Fronted, CutHeads,
         Cutting, HeadWord;
    ghost var m, cs, segs, dv, dvsize, top, topsize := ms.mem, ms.chunks, ms.segs, ms.dv, ms.dvsize, ms.top, ms.topsize;
    HeapParts(ms);
    DvSmall(ms);
    DvAt(cs, dv, dvsize, top, topsize);
    FirstMark(cs, dv, dvsize, top, topsize, segs, j, tbase, tsize);
    Neighbours(cs, top);
    FrontIs(cs, tbase, tsize);
    ghost var hi := top + topsize;
    FirstCut(cs, dv, dvsize, top, topsize, tbase, tsize, nb, hi);
    ms.segs := ms.segs[j := Segment(tbase, ms.segs[j].size + tsize)];
    var q := tbase + nb;
    ms.mem := ms.mem[tbase + 8 := nb + 3];
    ms.topsize := ms.topsize + (tsize - nb);
    ms.top := q;
    ms.mem := ms.mem[q + 8 := ms.topsize + 1];
    TopHeads(m, cs, tbase, tsize, nb, hi);
    NoneLess(FreeOf(cs));
    PrependOk(ms, m, cs, segs, dv, dvsize, top, topsize, j, tbase, tsize, nb, hi, Top, {});
    ms.chunks := Carve2(Fronted(cs, tbase, tsize), tbase, tbase + nb, hi, Used, Top);
  }

  /** The designated victim and the top chunk, seen from the new memory in front of a segment. */
  lemma FirstMark(cs: Chunks, dv: int, dvsize: int, top: int, topsize: int, segs: seq<Segment>, j: int, base: int, size: nat)
    requires Laid(cs) && SegmentsOk(cs, segs) && Marked(cs, dv, dvsize, top, topsize)
    requires 0 <= j < |segs| && segs[j].base == base + size && Fresh(segs, base, size)
    ensures base > 0 && size > 0 && base + size in cs && cs[base + size].use != Foot && cs[base + size].pin && base !in cs
    ensures top < base || top >= base + size
    ensures dvsize != 0 ==> dv < base || dv >= base + size
  {
    hide Laid, SegmentsOk, Marked, Fresh;
    FreshBound(segs, base, size);
    BaseFirst(cs, segs, j, dv, dvsize, top, topsize);
    FreshRoom(cs, segs, base, size);
    DvAt(cs, dv, dvsize, top, topsize);
  }

  /** How the first chunk of the segment decides what the second part of the new memory becomes. */
  lemma FirstCut(cs: Chunks, dv: int, dvsize: int, top: int, topsize: int, base: int, size: nat, nb: nat, hi: int)
    requires Laid(cs) && Marked(cs, dv, dvsize, top, topsize) && FirstTo(cs, base + size, hi) && nb < size
    requires (top < base || top >= base + size) && (dvsize != 0 ==> dv < base || dv >= base + size)
    requires cs[base + size].use != Foot
    ensures hi in cs && base + size <= hi && (hi != base + size ==> !IsFree(cs[hi].use))
    ensures hi != base + size && cs[base + size].use == Top ==>
              hi == top + topsize && Cutting(base, base + nb, hi, Top, dv, dvsize, top, topsize, dv, dvsize, base + nb, hi - (base + nb))
    ensures hi != base + size && cs[base + size].use == Dv ==>
              hi == dv + dvsize && Cutting(base, base + nb, hi, Dv, dv, dvsize, top, topsize, base + nb, hi - (base + nb), top, topsize)
    ensures hi == base + size || cs[base + size].use == Free ==>
              Cutting(base, base + nb, hi, Free, dv, dvsize, top, topsize, dv, dvsize, top, topsize)
  {
    hide Laid, Marked;
    var first := base + size;
    MarkedAt(cs, dv, dvsize, top, topsize, first);
    DvAt(cs, dv, dvsize, top, topsize);
    if hi != first {
      Neighbours(cs, first);
      OnlyOne(cs, first);
    }
  }

  lemma MarkedAt(cs: Chunks, dv: int, dvsize: int, top: int, topsize: int, p: int)
    requires Marked(cs, dv, dvsize, top, topsize) && p in cs
    ensures cs[p].use == Top ==> p == top && cs[p].size == topsize
    ensures cs[p].use == Dv ==> p == dv && cs[p].size == dvsize && dvsize != 0
  {}

  lemma TopHeads(m: Mem, cs: Chunks, base: int, size: nat, nb: nat, hi: int)
    requires Written(m, cs) && base > 0 && base !in cs && hi in cs && nb + 16 <= size && base + size <= hi && nb >= 16 && cs[hi].use == Foot
    ensures var m1 := m[base + 8 := nb + 3][base + nb + 8 := hi - (base + nb) + 1];
            CutHeads(m, m1, Fronted(cs, base, size), base, base + nb, hi, Top)
  {}

  /** The first chunk of the segment is the designated victim. */
  method PrependDv(ms: MallocState, j: nat, tbase: int, tsize: nat, nb: nat)
    requires Valid(ms) && Behind(ms.segs, j, tbase, tsize, nb) && tbase + tsize == ms.dv
    modifies ms`mem, ms`chunks, ms`segs, ms`dv, ms`dvsize
    ensures ms.segs == old(ms.segs)[j := Segment(tbase, old(ms.segs)[j].size + tsize)]
    ensures Valid(ms) && NewBlock(old(ms.chunks), ms.chunks, tbase, nb)
    ensures Preserves(old(ms.mem), old(ms.chunks), ms.mem, ms.chunks, {})
  {
    hide HeapOk, BinsOk, Laid, SegmentsOk, Marked, Written, Preserves, FreeOf, Fresh, Carve2, OnlyHeads, Fronted, CutHeads,
         Cutting, HeadWord;
    ghost var m, cs, segs, dv, dvsize, top, topsize := ms.mem, ms.chunks, ms.segs, ms.dv, ms.dvsize, ms.top, ms.topsize;
    HeapParts(ms);
    DvSmall(ms);
    DvAt(cs, dv, dvsize, top, topsize);
    FirstMark(cs, dv, dvsize, top, topsize, segs, j, tbase, tsize);
    MarkedFree(cs, dv, dvsize, top, topsize, dv);
    Neighbours(cs, dv);
    NotFoot(cs, dv, dvsize, top, topsize, dv);
    FrontIs(cs, tbase, tsize);
    ghost var hi := dv + dvsize;
    FirstCut(cs, dv, dvsize, top, topsize, tbase, tsize, nb, hi);
    ms.segs := ms.segs[j := Segment(tbase, ms.segs[j].size + tsize)];
    var q := tbase + nb;
    ms.mem := ms.mem[tbase + 8 := nb + 3];
    ms.dvsize := ms.dvsize + (tsize - nb);
    ms.dv := q;
    ms.mem := ms.mem[q + 8 := ms.dvsize + 1][q + ms.dvsize := ms.dvsize];
    DvHeads(m, cs, tbase, tsize, nb, hi);
    NoneLess(FreeOf(cs));
    PrependOk(ms, m, cs, segs, dv, dvsize, top, topsize, j, tbase, tsize, nb, hi, Dv, {});
    ms.chunks := Carve2(Fronted(cs, tbase, tsize), tbase, tbase + nb, hi, Used, Dv);
  }

  lemma DvHeads(m: Mem, cs: Chunks, base: int, size: nat, nb: nat, hi: int)
    requires Written(m, cs) && base > 0 && base !in cs && hi in cs && nb + 16 <= size && base + size <= hi && nb >= 16
    requires cs[hi].use != Foot && !cs[hi].pin
    ensures var m1 := m[base + 8 := nb + 3][base + nb + 8 := hi - (base + nb) + 1][hi := hi - (base + nb)];
            CutHeads(m, m1, Fronted(cs, base, size), base, base + nb, hi, Dv)
  {}

  lemma BinHeads(m: Mem, m1: Mem, cs: Chunks, base: int, size: nat, nb: nat, hi: int)
    requires Laid(cs) && Written(m, cs) && base > 0 && base !in cs && hi in cs && nb + 16 <= size && base + size <= hi && nb >= 16
    requires cs[hi].use != Foot && m1 == SetFreeWithPinuse(m[base + 8 := nb + 3], base + nb, hi - (base + nb), hi)
    ensures CutHeads(m, m1, Fronted(cs, base, size), base, base + nb, hi, Free)
  {
    hide Laid, Written;
    HeadSays(m, cs, hi);
  }

  /** The first chunk of the segment is in use, or was taken out of its bin. */
  method PrependBin(ms: MallocState, j: nat, tbase: int, tsize: nat, nb: nat, hi: int, ghost out: set<int>)
    requires HeapValid(ms) && ms.BinsValid() && Behind(ms.segs, j, tbase, tsize, nb) && ms.free == FreeOf(ms.chunks) - out
    requires FirstTo(ms.chunks, tbase + tsize, hi) && !IsFree(ms.chunks[tbase + tsize].use) == (hi == tbase + tsize)
    requires ms.chunks[tbase + tsize].use != Dv && ms.chunks[tbase + tsize].use != Top && hi in ms.chunks && ms.chunks[hi].use != Foot
    requires out == if hi != tbase + tsize then {tbase + tsize} else {}
    modifies ms`mem, ms`chunks, ms`smallmap, ms`treemap, ms`small, ms`tries, ms`free, ms`dv, ms`dvsize, ms`top, ms`topsize, ms`segs
    ensures ms.segs == old(ms.segs)[j := Segment(tbase, old(ms.segs)[j].size + tsize)]
    ensures Valid(ms) && NewBlock(old(ms.chunks), ms.chunks, tbase, nb)
    ensures Preserves(old(ms.mem), old(ms.chunks), ms.mem, ms.chunks, {})
  {
    hide HeapOk, BinsOk, Laid, SegmentsOk, Marked, Written, Preserves, FreeOf, Fresh, Carve2, OnlyHeads, Fronted, SetFreeWithPinuse;
    ghost var m, cs, segs, dv, dvsize, top, topsize := ms.mem, ms.chunks, ms.segs, ms.dv, ms.dvsize, ms.top, ms.topsize;
    HeapParts(ms);
    FirstMark(cs, dv, dvsize, top, topsize, segs, j, tbase, tsize);
    FirstCut(cs, dv, dvsize, top, topsize, tbase, tsize, nb, hi);
    FrontIs(cs, tbase, tsize);
    ms.segs := ms.segs[j := Segment(tbase, ms.segs[j].size + tsize)];
    var q := tbase + nb;
    var qsize := hi - q;
    ms.mem := ms.mem[tbase + 8 := nb + 3];
    ms.mem := SetFreeWithPinuse(ms.mem, q, qsize, hi);
    BinHeads(m, ms.mem, cs, tbase, tsize, nb, hi);
    PrependOk(ms, m, cs, segs, dv, dvsize, top, topsize, j, tbase, tsize, nb, hi, Free, out);
    ghost var m1, cs1 := ms.mem, Carve2(Fronted(cs, tbase, tsize), tbase, tbase + nb, hi, Used, Free);
    ms.chunks := cs1;
    WithoutLast(ms.free, q, qsize);
    Insert(ms, q, qsize);
    PreservesTrans(m, cs, m1, cs1, ms.mem, cs1, {});
  }

  /** The end of `alloc_sys` for memory in front of a segment, and `prepend_alloc`. */
  method PrependAlloc(ms: MallocState, j: nat, tbase: int, tsize: nat, nb: nat) returns (mem: int)
    requires Valid(ms) && Behind(ms.segs, j, tbase, tsize, nb)
    modifies ms`mem, ms`chunks, ms`smallmap, ms`treemap, ms`small, ms`tries, ms`free, ms`dv, ms`dvsize, ms`top, ms`topsize, ms`segs
    ensures mem == tbase + 16 && tbase > 0
    ensures ms.segs == old(ms.segs)[j := Segment(tbase, old(ms.segs)[j].size + tsize)]
    ensures Valid(ms) && NewBlock(old(ms.chunks), ms.chunks, tbase, nb)
    ensures Preserves(old(ms.mem), old(ms.chunks), ms.mem, ms.chunks, {})
  {
    hide HeapOk, BinsOk, Laid, SegmentsOk, Marked, Written, Preserves, FreeOf, Fresh, PrevFoot, CInuse, NewBlock;
    ghost var m, cs, segs := ms.mem, ms.chunks, ms.segs;
    HeapParts(ms);
    var oldfirst := tbase + tsize;
    FirstMark(cs, ms.dv, ms.dvsize, ms.top, ms.topsize, segs, j, tbase, tsize);
    MarkedFree(cs, ms.dv, ms.dvsize, ms.top, ms.topsize, oldfirst);
    if oldfirst == ms.top {
      PrependTop(ms, j, tbase, tsize, nb);
    } else if oldfirst == ms.dv {
      PrependDv(ms, j, tbase, tsize, nb);
    } else {
      HeadSays(m, cs, oldfirst);
      NoneLess(FreeOf(cs));
      PreservesSelf(m, cs);
      ghost var out: set<int> := {};
      if !CInuse(ms.mem, oldfirst) {
        var nsize := ChunkSize(ms.mem, oldfirst);
        AllFree(m, cs, oldfirst);
        NoneAnd(cs, oldfirst);
        Neighbours(cs, oldfirst);
        NotFoot(cs, ms.dv, ms.dvsize, ms.top, ms.topsize, oldfirst);
        Unlink(ms, oldfirst, nsize, {});
        oldfirst := oldfirst + nsize;
        out := {tbase + tsize};
      }
      ghost var m1 := ms.mem;
      PrependBin(ms, j, tbase, tsize, nb, oldfirst, out);
      PreservesTrans(m, cs, m1, cs, ms.mem, ms.chunks, {});
    }
    mem := tbase + 16;
  }
}
