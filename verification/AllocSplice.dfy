/** Memory from the system (luajit/lj_alloc.c): how the layout of the heap grows at the end of a
    segment, in front of one, and by a segment of its own. */
module AllocSplice {
  import opened AllocMem
  import opened AllocBins
  import opened AllocHeap
  import opened AllocSteps
  import opened AllocMalloc

  /** The chunks from lo to end are replaced by part. */
  function Spliced(cs: Chunks, lo: int, end: int, part: Chunks): Chunks {
    (map p | p in cs && !(lo <= p < end) :: cs[p]) + part
  }

  /** Chunk p lies within lo..end. */
  predicate Inside(p: int, c: Chunk, lo: int, end: int) { lo <= p && p + c.size <= end }

  /** part covers what is from lo to the end of a segment. */
  ghost predicate Tail(part: Chunks, lo: int, end: int) {
    && lo in part && part[lo].pin && lo < end
    && (forall p {:trigger Inside(p, part[p], lo, end)} :: p in part ==> Inside(p, part[p], lo, end))
    && Laid(part)
  }

  /** The layout from lo to end is that of a tail, or there is none. */
  ghost predicate Room(cs: Chunks, lo: int, end: int) {
    && lo < end && (lo in cs ==> cs[lo].pin)
    && (forall p {:trigger InRoom(cs, p, lo, end)} :: p in cs ==> InRoom(cs, p, lo, end))
  }

  predicate InRoom(cs: Chunks, p: int, lo: int, end: int)
    requires p in cs
  {
    if lo <= p < end then (!IsEnd(cs[p].use) ==> p + cs[p].size < end) else p >= end || p + cs[p].size <= lo
  }

  lemma RoomAt(cs: Chunks, lo: int, end: int, p: int)
    requires Room(cs, lo, end) && p in cs
    ensures InRoom(cs, p, lo, end) && lo < end
  {
    assert InRoom(cs, p, lo, end);
  }

  lemma TailAt(part: Chunks, lo: int, end: int, p: int)
    requires Tail(part, lo, end) && p in part
    ensures Inside(p, part[p], lo, end) && lo in part && part[lo].pin && Laid(part) && lo < end
    ensures ChunkOk(p, part[p]) && NextOk(part, p)
  {
    assert Inside(p, part[p], lo, end);
    LaidAt(part, p);
  }

  lemma SplicedLaid(cs: Chunks, lo: int, end: int, part: Chunks)
    requires Laid(cs) && Room(cs, lo, end) && Tail(part, lo, end)
    ensures Laid(Spliced(cs, lo, end, part))
  {
    hide Laid, Room, Tail;
    var cs1 := Spliced(cs, lo, end, part);
    forall p | p in cs1
      ensures ChunkOk(p, cs1[p]) && NextOk(cs1, p)
      ensures !cs1[p].pin ==> exists q :: EndsAt(cs1, q, p)
    {
      if p in part { SplicedPart(cs, lo, end, part, p); } else { SplicedRest(cs, lo, end, part, p); }
    }
    forall p, q | p in cs1 && q in cs1
      ensures Clear(p, cs1[p], q)
    {
      SplicedClear(cs, lo, end, part, p, q);
    }
    IsLaid(cs1);
  }

  lemma SplicedPart(cs: Chunks, lo: int, end: int, part: Chunks, p: int)
    requires Tail(part, lo, end) && p in part
    ensures var cs1 := Spliced(cs, lo, end, part);
            && p in cs1 && cs1[p] == part[p] && ChunkOk(p, cs1[p]) && NextOk(cs1, p)
            && (!cs1[p].pin ==> exists q :: EndsAt(cs1, q, p))
  {
    hide Laid;
    TailAt(part, lo, end, p);
    if !part[p].pin {
      var q := PrevFree(part, p);
      assert EndsAt(Spliced(cs, lo, end, part), q, p);
    }
  }

  lemma SplicedRest(cs: Chunks, lo: int, end: int, part: Chunks, p: int)
    requires Laid(cs) && Room(cs, lo, end) && Tail(part, lo, end) && p in cs && !(lo <= p < end)
    ensures var cs1 := Spliced(cs, lo, end, part);
            && p in cs1 && cs1[p] == cs[p] && ChunkOk(p, cs1[p]) && NextOk(cs1, p)
            && (!cs1[p].pin ==> exists q :: EndsAt(cs1, q, p))
  {
    hide Laid, Room, Tail;
    var cs1 := Spliced(cs, lo, end, part);
    LoOnly(part, lo, end);
    NotInPart(part, lo, end, p);
    LaidAt(cs, p);
    RoomAt(cs, lo, end, p);
    var n := p + cs[p].size;
    if !IsEnd(cs[p].use) && n != lo {
      RoomAt(cs, lo, end, n);
      NotInPart(part, lo, end, n);
    }
    if !cs[p].pin {
      var q := PrevFree(cs, p);
      RoomAt(cs, lo, end, q);
      LaidAt(cs, q);
      NotInPart(part, lo, end, q);
      assert EndsAt(cs1, q, p);
    }
    RoomLo(cs, lo, end);
  }

  lemma RoomLo(cs: Chunks, lo: int, end: int)
    requires Room(cs, lo, end)
    ensures lo in cs ==> cs[lo].pin
  {}

  lemma NotInPart(part: Chunks, lo: int, end: int, p: int)
    requires Tail(part, lo, end) && !(lo <= p < end)
    ensures p !in part
  {
    hide Laid;
    if p in part { TailAt(part, lo, end, p); }
  }

  lemma LoOnly(part: Chunks, lo: int, end: int)
    requires Tail(part, lo, end)
    ensures lo in part && part[lo].pin && lo < end
  {}

  lemma SplicedClear(cs: Chunks, lo: int, end: int, part: Chunks, p: int, q: int)
    requires Laid(cs) && Room(cs, lo, end) && Tail(part, lo, end)
    requires p in Spliced(cs, lo, end, part) && q in Spliced(cs, lo, end, part)
    ensures Clear(p, Spliced(cs, lo, end, part)[p], q)
  {
    hide Laid, Room, Tail;
    if p in part { TailAt(part, lo, end, p); } else { RoomAt(cs, lo, end, p); LaidAt(cs, p); }
    if q in part { TailAt(part, lo, end, q); } else { RoomAt(cs, lo, end, q); LaidAt(cs, q); }
    if p in part && q in part { ClearAt(part, p, q); }
    if p !in part && q !in part { ClearAt(cs, p, q); }
  }

  // ---------------------------------------------------------------- memory

  /** Only words of lo..end differ, but not the first, which belongs to what is before. */
  ghost predicate OnlyWithin(m: Mem, m1: Mem, lo: int, end: int) { forall c :: R(m1, c) != R(m, c) ==> lo + 8 <= c < end }

  lemma WithinAt(m: Mem, m1: Mem, lo: int, end: int, c: int)
    requires OnlyWithin(m, m1, lo, end) && !(lo + 8 <= c < end)
    ensures R(m1, c) == R(m, c)
  {}

  /** What is written within lo..end is not seen by a chunk outside. */
  lemma SplicedKept(m: Mem, m1: Mem, cs: Chunks, lo: int, end: int, part: Chunks, p: int)
    requires Laid(cs) && Room(cs, lo, end) && Tail(part, lo, end) && OnlyWithin(m, m1, lo, end) && p in cs && !(lo <= p < end)
    ensures p !in part && p in Spliced(cs, lo, end, part) && Spliced(cs, lo, end, part)[p] == cs[p] && Head(m1, p) == Head(m, p)
    ensures cs[p].use == Free || cs[p].use == Dv ==> PrevFoot(m1, p + cs[p].size) == PrevFoot(m, p + cs[p].size)
    ensures cs[p].use == Used ==> Kept(m, m1, p, cs[p].size)
  {
    hide Laid, Room, Tail, OnlyWithin;
    NotInPart(part, lo, end, p);
    RoomAt(cs, lo, end, p);
    LaidAt(cs, p);
    WithinAt(m, m1, lo, end, p + 8);
    WithinAt(m, m1, lo, end, p + cs[p].size);
    forall c | p + 16 <= c < p + cs[p].size + 8
      ensures R(m1, c) == R(m, c)
    {
      WithinAt(m, m1, lo, end, c);
    }
  }

  lemma SplicedHeads(m: Mem, m1: Mem, cs: Chunks, lo: int, end: int, part: Chunks)
    requires Laid(cs) && Room(cs, lo, end) && Tail(part, lo, end) && OnlyWithin(m, m1, lo, end)
    requires Written(m, cs) && Written(m1, part)
    ensures Written(m1, Spliced(cs, lo, end, part))
  {
    hide Laid, Room, Tail, OnlyWithin, Kept;
    var cs1 := Spliced(cs, lo, end, part);
    forall p | p in cs1
      ensures Head(m1, p) == HeadWord(cs1[p])
      ensures cs1[p].use == Free || cs1[p].use == Dv ==> PrevFoot(m1, p + cs1[p].size) == cs1[p].size
    {
      if p !in part { SplicedKept(m, m1, cs, lo, end, part, p); }
    }
  }

  lemma SplicedWritten(m: Mem, m1: Mem, cs: Chunks, lo: int, end: int, part: Chunks)
    requires Laid(cs) && Room(cs, lo, end) && Tail(part, lo, end) && OnlyWithin(m, m1, lo, end)
    requires Written(m, cs) && Written(m1, part) && forall p :: p in cs && lo <= p < end ==> cs[p].use != Used
    ensures Written(m1, Spliced(cs, lo, end, part)) && Preserves(m, cs, m1, Spliced(cs, lo, end, part), {})
  {
    hide Laid, Room, Tail, OnlyWithin, Spliced, Written, Kept;
    SplicedHeads(m, m1, cs, lo, end, part);
    forall p | p in cs && cs[p].use == Used
      ensures p in Spliced(cs, lo, end, part) && Spliced(cs, lo, end, part)[p] == cs[p] && Kept(m, m1, p, cs[p].size)
    {
      SplicedKept(m, m1, cs, lo, end, part, p);
    }
  }

  lemma SplicedForeign(m: Mem, m1: Mem, cs: Chunks, lo: int, end: int, sz: Sizes)
    requires Laid(cs) && Room(cs, lo, end) && OnlyWithin(m, m1, lo, end) && InLayout(cs, sz) && lo > 0
    requires forall p :: p in cs && lo <= p < end ==> cs[p].use != Free
    ensures OnlyForeign(m, m1, sz)
  {
    hide Laid, Room, OnlyWithin;
    forall c | R(m1, c) != R(m, c)
      ensures Foreign(sz, c)
    {
      if !(lo + 8 <= c < end) { WithinAt(m, m1, lo, end, c); }
      forall a | a in sz
        ensures !InChunk(sz, a, c)
      {
        RoomAt(cs, lo, end, a);
      }
    }
  }

  // ---------------------------------------------------------------- segments

  /** The system hands out memory that is in no segment. */
  predicate Fresh(segs: seq<Segment>, base: int, size: int) {
    && 0 < base && base % 4096 == 0 && 0 < size && base + size <= MAX_ADDR
    && forall i :: 0 <= i < |segs| ==> segs[i].base + segs[i].size <= base || base + size <= segs[i].base
  }

  /** Chunks do not touch memory that is in no segment. */
  lemma FreshRoom(cs: Chunks, segs: seq<Segment>, base: int, size: int)
    requires Laid(cs) && SegmentsOk(cs, segs) && Fresh(segs, base, size)
    ensures Room(cs, base, base + size) && forall p :: p in cs ==> !(base <= p < base + size)
  {
    hide Laid, SegmentsOk;
    forall p | p in cs
      ensures InRoom(cs, p, base, base + size) && !(base <= p < base + size)
    {
      var i := SegmentOf(cs, segs, p);
      LaidAt(cs, p);
    }
  }

  /** Where the top chunk ends. */
  lemma TopSegment(cs: Chunks, segs: seq<Segment>, dv: int, dvsize: int, top: int, topsize: int) returns (j: int)
    requires Laid(cs) && SegmentsOk(cs, segs) && Marked(cs, dv, dvsize, top, topsize)
    ensures 0 <= j < |segs| && segs[j].base <= top && top + topsize + TOP_FOOT_SIZE == segs[j].base + segs[j].size
    ensures topsize >= 8 && topsize % 8 == 0 && cs[top].pin && top % 8 == 0 && top > 0
    ensures top in cs && top + topsize in cs && forall p :: p in cs && Holds(segs[j], p) && p >= top ==> p == top || p == top + topsize
  {
    hide Laid, SegmentsOk;
    DvAt(cs, dv, dvsize, top, topsize);
    LaidAt(cs, top);
    var foot := top + topsize;
    LaidAt(cs, foot);
    j := SegmentOf(cs, segs, top);
    var i := SegmentOf(cs, segs, foot);
    OneSegment(cs, segs, i, j, foot);
    forall p | p in cs && Holds(segs[j], p) && p >= top
      ensures p == top || p == foot
    {
      ClearAt(cs, top, p);
      ClearAt(cs, foot, p);
    }
  }

  /** Room behind the top chunk. */
  lemma TopRoom(cs: Chunks, segs: seq<Segment>, dv: int, dvsize: int, top: int, topsize: int, j: int, more: int)
    requires Laid(cs) && SegmentsOk(cs, segs) && Marked(cs, dv, dvsize, top, topsize)
    requires 0 <= j < |segs| && Holds(segs[j], top) && (more == 0 || Fresh(segs, segs[j].base + segs[j].size, more))
    ensures var end := segs[j].base + segs[j].size + more;
            && Room(cs, top, end) && top in cs && top + topsize in cs && top + topsize + TOP_FOOT_SIZE == segs[j].base + segs[j].size
            && forall p :: p in cs && top <= p < end ==> p == top || p == top + topsize
  {
    hide Laid, SegmentsOk;
    var i := TopSegment(cs, segs, dv, dvsize, top, topsize);
    DvAt(cs, dv, dvsize, top, topsize);
    OneSegment(cs, segs, i, j, top);
    var end := segs[j].base + segs[j].size + more;
    forall p | p in cs
      ensures InRoom(cs, p, top, end) && (top <= p < end ==> p == top || p == top + topsize)
    {
      var k := SegmentOf(cs, segs, p);
      LaidAt(cs, p);
      if top <= p < end {
        if p < segs[j].base + segs[j].size { OneSegment(cs, segs, j, k, p); }
      } else if p < top {
        ClearAt(cs, p, top);
      }
    }
  }

  /** The chunks outside of lo..end are in segments. */
  predicate CoveredElse(cs: Chunks, lo: int, end: int, segs: seq<Segment>) {
    forall p :: p in cs && !(lo <= p < end) ==> InSome(p, cs[p], segs)
  }

  lemma SegmentsSpliced(cs: Chunks, segs: seq<Segment>, lo: int, end: int, part: Chunks)
    requires Based(Spliced(cs, lo, end, part), segs) && Disjoint(segs) && Covered(part, segs) && CoveredElse(cs, lo, end, segs)
    ensures SegmentsOk(Spliced(cs, lo, end, part), segs)
  {
    hide Disjoint, Based, InSome;
  }

  /** The end of a segment changes, and perhaps the segment grows. */
  lemma SegmentGrows(cs: Chunks, segs: seq<Segment>, j: int, more: int, lo: int, part: Chunks)
    requires Laid(cs) && SegmentsOk(cs, segs) && 0 <= j < |segs| && (more == 0 || Fresh(segs, segs[j].base + segs[j].size, more))
    requires Room(cs, lo, segs[j].base + segs[j].size + more) && Holds(segs[j], lo) && Tail(part, lo, segs[j].base + segs[j].size + more)
    requires forall p :: p in part ==> IsEnd(part[p].use) || p + part[p].size < segs[j].base + segs[j].size + more
    requires forall p :: p in part && IsEnd(part[p].use) ==> p + part[p].size == segs[j].base + segs[j].size + more
    requires forall p :: p in cs && IsEnd(cs[p].use) && Holds(segs[j], p) ==> p >= lo
    ensures var end := segs[j].base + segs[j].size + more;
            SegmentsOk(Spliced(cs, lo, end, part), segs[j := Segment(segs[j].base, segs[j].size + more)])
  {
    hide Laid, SegmentsOk, Room, Tail, Disjoint, Based, Covered, CoveredElse, Spliced;
    var end := segs[j].base + segs[j].size + more;
    var segs1 := segs[j := Segment(segs[j].base, segs[j].size + more)];
    GrownDisjoint(cs, segs, j, more);
    forall i | 0 <= i < |segs1|
      ensures segs1[i].base in Spliced(cs, lo, end, part) && segs1[i].base + segs1[i].size <= MAX_ADDR && segs1[i].size > 0
    {
      BaseIn(cs, segs, i);
      if lo <= segs[i].base < end && segs[i].base != lo { if i != j { GrownBase(cs, segs, i, j, more); } }
      BaseSpliced(cs, lo, end, part, segs[i].base);
    }
    forall p | p in part
      ensures InSome(p, part[p], segs1)
    {
      TailAt(part, lo, end, p);
      assert InSegment(p, part[p], segs1[j]);
    }
    forall p | p in cs && !(lo <= p < end)
      ensures InSome(p, cs[p], segs1)
    {
      var i := SegmentOf(cs, segs, p);
      LaidAt(cs, p);
      assert InSegment(p, cs[p], segs1[i]);
    }
    AllBased(Spliced(cs, lo, end, part), segs1);
    AllCovered(part, segs1);
    ElseCovered(cs, lo, end, segs1);
    SegmentsSpliced(cs, segs1, lo, end, part);
  }

  lemma AllBased(cs: Chunks, segs: seq<Segment>)
    requires forall i :: 0 <= i < |segs| ==> segs[i].base in cs && segs[i].base + segs[i].size <= MAX_ADDR && segs[i].size > 0
    ensures Based(cs, segs)
  {}

  lemma AllCovered(cs: Chunks, segs: seq<Segment>)
    requires forall p :: p in cs ==> InSome(p, cs[p], segs)
    ensures Covered(cs, segs)
  {}

  lemma ElseCovered(cs: Chunks, lo: int, end: int, segs: seq<Segment>)
    requires forall p :: p in cs && !(lo <= p < end) ==> InSome(p, cs[p], segs)
    ensures CoveredElse(cs, lo, end, segs)
  {}

  lemma BaseSpliced(cs: Chunks, lo: int, end: int, part: Chunks, base: int)
    requires Tail(part, lo, end) && base in cs && (base == lo || !(lo <= base < end))
    ensures base in Spliced(cs, lo, end, part)
  {
    hide Laid;
  }

  lemma GrownBase(cs: Chunks, segs: seq<Segment>, i: int, j: int, more: int)
    requires SegmentsOk(cs, segs) && 0 <= i < |segs| && 0 <= j < |segs| && i != j && (more == 0 || Fresh(segs, segs[j].base + segs[j].size, more))
    ensures !(segs[j].base <= segs[i].base < segs[j].base + segs[j].size + more)
  {
    hide Covered;
  }

  lemma GrownDisjoint(cs: Chunks, segs: seq<Segment>, j: int, more: int)
    requires SegmentsOk(cs, segs) && 0 <= j < |segs| && (more == 0 || Fresh(segs, segs[j].base + segs[j].size, more))
    ensures Disjoint(segs[j := Segment(segs[j].base, segs[j].size + more)])
  {
    hide Covered;
  }

  /** A new segment comes first in the list. */
  lemma SegmentAdded(cs: Chunks, segs: seq<Segment>, base: int, size: int, part: Chunks)
    requires Laid(cs) && SegmentsOk(cs, segs) && Fresh(segs, base, size) && Tail(part, base, base + size)
    requires forall p :: p in part ==> IsEnd(part[p].use) || p + part[p].size < base + size
    requires forall p :: p in part && IsEnd(part[p].use) ==> p + part[p].size == base + size
    ensures SegmentsOk(Spliced(cs, base, base + size, part), [Segment(base, size)] + segs)
  {
    hide Laid, SegmentsOk, Room, Tail, Disjoint, Based, Covered, CoveredElse, Spliced;
    var segs1 := [Segment(base, size)] + segs;
    AddedDisjoint(cs, segs, base, size);
    FreshRoom(cs, segs, base, size);
    LoOnly(part, base, base + size);
    forall i | 0 <= i < |segs1|
      ensures segs1[i].base in Spliced(cs, base, base + size, part) && segs1[i].base + segs1[i].size <= MAX_ADDR && segs1[i].size > 0
    {
      if i > 0 {
        BaseIn(cs, segs, i - 1);
        BaseSpliced(cs, base, base + size, part, segs[i - 1].base);
      } else {
        LoSpliced(cs, base, base + size, part);
      }
    }
    forall p | p in part
      ensures InSome(p, part[p], segs1)
    {
      TailAt(part, base, base + size, p);
      assert InSegment(p, part[p], segs1[0]);
    }
    forall p | p in cs && !(base <= p < base + size)
      ensures InSome(p, cs[p], segs1)
    {
      var i := SegmentOf(cs, segs, p);
      assert InSegment(p, cs[p], segs1[i + 1]);
    }
    AllBased(Spliced(cs, base, base + size, part), segs1);
    AllCovered(part, segs1);
    ElseCovered(cs, base, base + size, segs1);
    SegmentsSpliced(cs, segs1, base, base + size, part);
  }

  lemma LoSpliced(cs: Chunks, lo: int, end: int, part: Chunks)
    requires lo in part
    ensures lo in Spliced(cs, lo, end, part)
  {}

  lemma AddedDisjoint(cs: Chunks, segs: seq<Segment>, base: int, size: int)
    requires SegmentsOk(cs, segs) && Fresh(segs, base, size)
    ensures Disjoint([Segment(base, size)] + segs)
  {
    hide Covered, Based;
  }
}
