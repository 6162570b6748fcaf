/** `alloc_sys` (luajit/lj_alloc.c): memory from the system. */
module AllocSys {
  import opened AllocMem
  import opened AllocBins
  import opened AllocHeap
  import opened AllocSteps
  import opened AllocMalloc
  import opened AllocSplice
  import opened AllocFree

  const DEFAULT_GRANULARITY: nat := 128 * 1024

  // ---------------------------------------------------------------- tops

  /** The top chunk and its foot. */
  function TopPart(p: int, s: nat): Chunks { map[p := Chunk(s, Top, true), p + s := Chunk(TOP_FOOT_SIZE, Foot, false)] }

  /** What `init_top` writes; p is aligned. */
  function InitTop(m: Mem, p: int, s: int): Mem { m[p + 8 := s + 1][p + s + 8 := TOP_FOOT_SIZE] }

  lemma TopTail(m: Mem, p: int, s: nat)
    requires 0 < p && p % 8 == 0 && s % 8 == 0 && 8 <= s && p + s + TOP_FOOT_SIZE <= MAX_ADDR
    ensures Tail(TopPart(p, s), p, p + s + TOP_FOOT_SIZE) && Written(InitTop(m, p, s), TopPart(p, s))
    ensures OnlyWithin(m, InitTop(m, p, s), p, p + s + TOP_FOOT_SIZE)
  {
    var part := TopPart(p, s);
    assert EndsAt(part, p, p + s);
  }

  // ---------------------------------------------------------------- the segment of the top chunk grows

  lemma MarksAppended(cs: Chunks, dv: int, dvsize: int, top: int, topsize: int, s: nat, end: int)
    requires Marked(cs, dv, dvsize, top, topsize) && top + s < end && s > 0 && top + topsize < end
    requires forall p :: p in cs && top <= p < end ==> p == top || p == top + topsize
    ensures var cs1 := Spliced(cs, top, end, TopPart(top, s)); Marked(cs1, dv, dvsize, top, s) && FreeOf(cs1) == FreeOf(cs)
  {
    var cs1 := Spliced(cs, top, end, TopPart(top, s));
    assert forall q :: q in FreeOf(cs1) <==> q in FreeOf(cs);
  }

  lemma AppendOk(m: Mem, cs: Chunks, segs: seq<Segment>, dv: int, dvsize: int, top: int, topsize: int, j: int, more: int)
    requires HeapOk(m, cs, segs, dv, dvsize, top, topsize) && 0 <= j < |segs| && Holds(segs[j], top) && more % 8 == 0
    requires Fresh(segs, segs[j].base + segs[j].size, more) && topsize >= 0
    ensures var cs1 := Spliced(cs, top, segs[j].base + segs[j].size + more, TopPart(top, topsize + more));
            var m1 := InitTop(m, top, topsize + more);
            && HeapOk(m1, cs1, segs[j := Segment(segs[j].base, segs[j].size + more)], dv, dvsize, top, topsize + more)
            && Preserves(m, cs, m1, cs1, {}) && FreeOf(cs1) == FreeOf(cs) && OnlyForeign(m, m1, FreeOf(cs))
  {
    hide Laid, SegmentsOk, Marked, Written, Room, Tail, Preserves, FreeOf, InitTop, TopPart, OnlyWithin, OnlyForeign,
         Spliced, Fresh, InLayout;
    var end := segs[j].base + segs[j].size + more;
    var i := TopSegment(cs, segs, dv, dvsize, top, topsize);
    FreshBound(segs, segs[j].base + segs[j].size, more);
    TopRoom(cs, segs, dv, dvsize, top, topsize, j, more);
    TopTail(m, top, topsize + more);
    SplicedLaid(cs, top, end, TopPart(top, topsize + more));
    DvAt(cs, dv, dvsize, top, topsize);
    SplicedWritten(m, InitTop(m, top, topsize + more), cs, top, end, TopPart(top, topsize + more));
    TopPartIs(top, topsize + more);
    SegmentGrows(cs, segs, j, more, top, TopPart(top, topsize + more)) by { EndsLater(cs, segs, j, top, topsize); }
    MarksAppended(cs, dv, dvsize, top, topsize, topsize + more, end);
    FreeLaid(cs, {});
    NoneLess(FreeOf(cs));
    SplicedForeign(m, InitTop(m, top, topsize + more), cs, top, end, FreeOf(cs));
  }

  lemma NoneLess(sz: Sizes)
    ensures sz - {} == sz
  {}

  lemma FreshBound(segs: seq<Segment>, base: int, size: int)
    requires Fresh(segs, base, size)
    ensures 0 < base && 0 < size && base + size <= MAX_ADDR && base % 8 == 0
  {
    Pages(base);
  }

  lemma Pages(a: int)
    requires a % 4096 == 0
    ensures a % 8 == 0
  {
    assert a == 8 * (512 * (a / 4096));
  }

  lemma TopPartIs(p: int, s: nat)
    requires s > 0
    ensures var part := TopPart(p, s);
            && (forall q :: q in part ==> if IsEnd(part[q].use) then q + part[q].size == p + s + TOP_FOOT_SIZE
                                          else q + part[q].size < p + s + TOP_FOOT_SIZE)
  {}

  /** The ends of the top segment are behind the top chunk. */
  lemma EndsLater(cs: Chunks, segs: seq<Segment>, j: int, top: int, topsize: int)
    requires Laid(cs) && SegmentsOk(cs, segs) && 0 <= j < |segs| && Holds(segs[j], top) && top in cs && top + topsize in cs
    requires cs[top].size == topsize && topsize > 0 && top + topsize + TOP_FOOT_SIZE == segs[j].base + segs[j].size
    ensures forall p :: p in cs && IsEnd(cs[p].use) && Holds(segs[j], p) ==> p >= top
  {
    hide Laid, SegmentsOk;
    forall p | p in cs && IsEnd(cs[p].use) && Holds(segs[j], p)
      ensures p >= top
    {
      var i := SegmentOf(cs, segs, p);
      LaidAt(cs, p);
      OneSegment(cs, segs, i, j, p);
      ClearAt(cs, p, top);
    }
  }

  /** The segment of the top chunk is extended. */
  method Append(ms: MallocState, j: nat, tsize: nat)
    requires Valid(ms) && j < |ms.segs| && Holds(ms.segs[j], ms.top) && tsize % 8 == 0
    requires Fresh(ms.segs, ms.segs[j].base + ms.segs[j].size, tsize)
    modifies ms`mem, ms`chunks, ms`segs, ms`top, ms`topsize
    ensures ms.topsize == old(ms.topsize) + tsize && Freed(old(ms.chunks), ms.top)
    ensures ms.segs == old(ms.segs)[j := Segment(old(ms.segs)[j].base, old(ms.segs)[j].size + tsize)]
    ensures Valid(ms) && Preserves(old(ms.mem), old(ms.chunks), ms.mem, ms.chunks, {})
  {
    hide HeapOk, BinsOk, Preserves, FreeOf, OnlyForeign, Spliced, TopPart, Laid, Written, SegmentsOk, Marked, InitTop;
    ghost var m, cs, segs := ms.mem, ms.chunks, ms.segs;
    DvSmall(ms);
    HeapParts(ms);
    DvAt(cs, ms.dv, ms.dvsize, ms.top, ms.topsize);
    AppendOk(m, cs, segs, ms.dv, ms.dvsize, ms.top, ms.topsize, j, tsize);
    ms.segs := ms.segs[j := Segment(ms.segs[j].base, ms.segs[j].size + tsize)];
    ms.topsize := ms.topsize + tsize;
    ms.mem := InitTop(ms.mem, ms.top, ms.topsize);
    ms.chunks := Spliced(cs, ms.top, segs[j].base + segs[j].size + tsize, TopPart(ms.top, ms.topsize));
    BinsUntouched(m, ms.mem, ms.smallmap, ms.treemap, ms.small, ms.tries, ms.free);
  }

  // ---------------------------------------------------------------- a new segment

  /** The old top chunk, after a segment record and a fence were put behind it, or in its place. */
  function OldPart(p: int, s: nat): Chunks {
    if s < MIN_CHUNK_SIZE then map[p := Chunk(32, Used, true), p + 32 := Chunk(s + 32, Fence, true)]
    else map[p := Chunk(s, Free, true), p + s := Chunk(32, Used, false), p + s + 32 := Chunk(32, Fence, true)]
  }

  /** Heads in place of the old top chunk. */
  predicate OldHeads(m: Mem, top: int, topsize: int) {
    if topsize < MIN_CHUNK_SIZE then Head(m, top) == 35 && Head(m, top + 32) == FENCEPOST_HEAD
    else Head(m, top) == topsize + 1 && Head(m, top + topsize) == 34 && PrevFoot(m, top + topsize) == topsize
         && Head(m, top + topsize + 32) == FENCEPOST_HEAD
  }

  lemma OldLaidLarge(p: int, s: nat)
    requires 0 < p && p % 8 == 0 && s % 8 == 0 && MIN_CHUNK_SIZE <= s && p + s + TOP_FOOT_SIZE <= MAX_ADDR
    ensures Laid(OldPart(p, s))
  {
    assert EndsAt(OldPart(p, s), p, p + s);
    IsLaid(OldPart(p, s));
  }

  lemma OldLaidSmall(p: int, s: nat)
    requires 0 < p && p % 8 == 0 && s % 8 == 0 && 8 <= s < MIN_CHUNK_SIZE && p + s + TOP_FOOT_SIZE <= MAX_ADDR
    ensures Laid(OldPart(p, s))
  {
    IsLaid(OldPart(p, s));
  }

  lemma OldTail(m: Mem, m1: Mem, p: int, s: nat)
    requires 0 < p && p % 8 == 0 && s % 8 == 0 && 8 <= s && p + s + TOP_FOOT_SIZE <= MAX_ADDR
    requires OldHeads(m1, p, s)
    ensures Tail(OldPart(p, s), p, p + s + TOP_FOOT_SIZE) && Written(m1, OldPart(p, s))
  {
    hide Laid;
    if s < MIN_CHUNK_SIZE { OldLaidSmall(p, s); } else { OldLaidLarge(p, s); }
  }

  lemma OldPartIs(p: int, s: nat)
    requires s > 0
    ensures var part := OldPart(p, s);
            && (forall q :: q in part ==> if IsEnd(part[q].use) then q + part[q].size == p + s + TOP_FOOT_SIZE
                                          else q + part[q].size < p + s + TOP_FOOT_SIZE)
  {}

  /** The marks, but for the top chunk. */
  ghost predicate TopLess(cs: Chunks, dv: int, dvsize: int) {
    && (forall p :: p in cs && cs[p].use == Dv ==> p == dv && dvsize != 0)
    && (if dvsize == 0 then dv == 0 else dv in cs && cs[dv].use == Dv && cs[dv].size == dvsize)
    && (forall p :: p in cs ==> cs[p].use != Top && cs[p].use != Foot)
  }

  /** The marks, when the old top is replaced. */
  lemma MarksOld(cs: Chunks, dv: int, dvsize: int, top: int, topsize: nat)
    requires Marked(cs, dv, dvsize, top, topsize) && topsize > 0
    requires forall p :: p in cs && top <= p < top + topsize + TOP_FOOT_SIZE ==> p == top || p == top + topsize
    ensures TopLess(Spliced(cs, top, top + topsize + TOP_FOOT_SIZE, OldPart(top, topsize)), dv, dvsize)
  {
    DvAt(cs, dv, dvsize, top, topsize);
  }

  lemma FreeOld(cs: Chunks, top: int, topsize: nat)
    requires topsize > 0 && top in cs && cs[top].use == Top && top + topsize in cs && cs[top + topsize].use == Foot
    requires forall p :: p in cs && top <= p < top + topsize + TOP_FOOT_SIZE ==> p == top || p == top + topsize
    ensures var cs1 := Spliced(cs, top, top + topsize + TOP_FOOT_SIZE, OldPart(top, topsize));
            FreeOf(cs1) == (if topsize >= MIN_CHUNK_SIZE then FreeOf(cs)[top := topsize] else FreeOf(cs)) && top !in FreeOf(cs)
  {
    var cs1 := Spliced(cs, top, top + topsize + TOP_FOOT_SIZE, OldPart(top, topsize));
    var f1, f2 := FreeOf(cs1), if topsize >= MIN_CHUNK_SIZE then FreeOf(cs)[top := topsize] else FreeOf(cs);
    assert forall q :: q in f1 <==> q in f2;
    assert forall q :: q in f1 ==> f1[q] == f2[q];
  }

  /** The marks, when the top is somewhere else. */
  lemma MarksNew(cs: Chunks, dv: int, dvsize: int, base: int, s: nat)
    requires TopLess(cs, dv, dvsize) && s > 0 && forall p :: p in cs ==> !(base <= p < base + s + TOP_FOOT_SIZE)
    ensures var cs1 := Spliced(cs, base, base + s + TOP_FOOT_SIZE, TopPart(base, s));
            Marked(cs1, dv, dvsize, base, s) && base !in cs && FreeOf(cs1) == FreeOf(cs)
  {
    var cs1 := Spliced(cs, base, base + s + TOP_FOOT_SIZE, TopPart(base, s));
    assert forall q :: q in FreeOf(cs1) <==> q in FreeOf(cs);
  }

  /** The top chunk is replaced by what is left of it. */
  lemma OldOk(m: Mem, m1: Mem, cs: Chunks, segs: seq<Segment>, dv: int, dvsize: int, top: int, topsize: nat)
    requires Laid(cs) && Written(m, cs) && SegmentsOk(cs, segs) && Marked(cs, dv, dvsize, top, topsize)
    requires OnlyWithin(m, m1, top, top + topsize + TOP_FOOT_SIZE)
    requires OldHeads(m1, top, topsize)
    ensures var cs1 := Spliced(cs, top, top + topsize + TOP_FOOT_SIZE, OldPart(top, topsize));
            && Laid(cs1) && SegmentsOk(cs1, segs) && Written(m1, cs1) && Preserves(m, cs, m1, cs1, {})
            && OnlyForeign(m, m1, FreeOf(cs))
  {
    hide Laid, SegmentsOk, Marked, Written, Room, Tail, Preserves, FreeOf, OldPart, OnlyWithin, OnlyForeign, Spliced, InLayout, Head;
    var end := top + topsize + TOP_FOOT_SIZE;
    var j := TopSegment(cs, segs, dv, dvsize, top, topsize);
    DvAt(cs, dv, dvsize, top, topsize);
    BaseIn(cs, segs, j);
    TopRoom(cs, segs, dv, dvsize, top, topsize, j, 0);
    OldTail(m, m1, top, topsize);
    SplicedLaid(cs, top, end, OldPart(top, topsize));
    SplicedWritten(m, m1, cs, top, end, OldPart(top, topsize));
    OldPartIs(top, topsize);
    EndsLater(cs, segs, j, top, topsize);
    SegmentGrows(cs, segs, j, 0, top, OldPart(top, topsize));
    assert segs[j := Segment(segs[j].base, segs[j].size + 0)] == segs;
    FreeLaid(cs, {});
    NoneLess(FreeOf(cs));
    SplicedForeign(m, m1, cs, top, end, FreeOf(cs));
  }

  /** The new segment holds the new top chunk. */
  lemma NewOk(m: Mem, m1: Mem, cs: Chunks, segs: seq<Segment>, base: int, size: nat)
    requires Laid(cs) && Written(m, cs) && SegmentsOk(cs, segs) && Fresh(segs, base, size) && size % 8 == 0 && size >= 72
    requires OnlyWithin(m, m1, base, base + size) && Head(m1, base) == size - 63 && Head(m1, base + size - 64) == TOP_FOOT_SIZE
    ensures var cs1 := Spliced(cs, base, base + size, TopPart(base, size - TOP_FOOT_SIZE));
            && Laid(cs1) && SegmentsOk(cs1, [Segment(base, size)] + segs) && Written(m1, cs1) && Preserves(m, cs, m1, cs1, {})
            && OnlyForeign(m, m1, FreeOf(cs)) && forall p :: p in cs ==> !(base <= p < base + size)
  {
    hide Laid, SegmentsOk, Marked, Room, Tail, Preserves, FreeOf, OnlyWithin, OnlyForeign, Spliced, InLayout, Fresh;
    var s := size - TOP_FOOT_SIZE;
    FreshBound(segs, base, size);
    FreshRoom(cs, segs, base, size);
    TopTail(m, base, s);
    SplicedLaid(cs, base, base + size, TopPart(base, s));
    SplicedWritten(m, m1, cs, base, base + size, TopPart(base, s));
    TopPartIs(base, s);
    SegmentAdded(cs, segs, base, size, TopPart(base, s));
    FreeLaid(cs, {});
    NoneLess(FreeOf(cs));
    SplicedForeign(m, m1, cs, base, base + size, FreeOf(cs));
  }

  /** `segment_holding`. */
  method SegmentHolding(segs: seq<Segment>, a: int) returns (i: nat)
    requires exists j :: 0 <= j < |segs| && Holds(segs[j], a)
    ensures i < |segs| && Holds(segs[i], a)
  {
    i := 0;
    while !(segs[i].base <= a < segs[i].base + segs[i].size)
      invariant i < |segs| && exists j :: i <= j < |segs| && Holds(segs[j], a)
      decreases |segs| - i
    {
      i := i + 1;
    }
  }

  /** The fences at the end of a segment, from address p on. */
  method PutFences(m: Mem, first: int, end: int) returns (m1: Mem)
    requires first % 8 == 0 && end % 8 == 0 && first + 16 <= end
    ensures forall c :: c < first + 8 || c >= end ==> R(m1, c) == R(m, c)
    ensures forall k :: 0 <= k < (end - first) / 8 - 1 ==> Head(m1, first + 8 * k) == FENCEPOST_HEAD
  {
    m1 := m;
    var p := first;
    ghost var n := 0;
    while true
      invariant p == first + 8 * n && n >= 0 && p + 16 <= end
      invariant forall c :: c < first + 8 || c >= end ==> R(m1, c) == R(m, c)
      invariant forall k :: 0 <= k < n ==> Head(m1, first + 8 * k) == FENCEPOST_HEAD
      decreases end - p
    {
      var nextp := p + 8;
      m1 := m1[p + 8 := FENCEPOST_HEAD];
      n := n + 1;
      if nextp + 8 < end { p := nextp; } else { break; }
    }
  }

  /** What `add_segment` writes to the end of the old segment. */
  lemma OldWords(m: Mem, p: int, s: nat, m1: Mem)
    requires 8 <= s && s % 8 == 0 && p % 8 == 0
    requires var sp := if s < MIN_CHUNK_SIZE then p else p + s;
             forall c :: c < sp + 40 || c >= p + s + 64 ==> R(m1, c) == R(SetSizeAndPinuseOfInuse(m, sp, 32), c)
    ensures OnlyWithin(m, m1, p, p + s + TOP_FOOT_SIZE)
    ensures s < MIN_CHUNK_SIZE ==> Head(m1, p) == 35
    ensures s >= MIN_CHUNK_SIZE ==>
              var m2 := SetFreeWithPinuse(m1, p, s, p + s);
              && OnlyWithin(m, m2, p, p + s + TOP_FOOT_SIZE) && Head(m2, p) == s + 1 && Head(m2, p + s) == 34 && PrevFoot(m2, p + s) == s
              && Head(m2, p + s + 32) == Head(m1, p + s + 32)
  {
    var sp := if s < MIN_CHUNK_SIZE then p else p + s;
    assert Head(SetSizeAndPinuseOfInuse(m, sp, 32), sp) == 35;
  }

  /** The words of the new segment, as they were. */
  ghost function Restored(m: Mem, m1: Mem, base: int, s: int): Mem { m1[base + 8 := R(m, base + 8)][base + s + 8 := R(m, base + s + 8)] }

  lemma RestoredWithin(m: Mem, m1: Mem, base: int, s: int, top: int, end: int)
    requires OnlyWithin(InitTop(m, base, s), m1, top, end) && s >= 8 && (base + s + TOP_FOOT_SIZE <= top || end <= base) && top < end
    ensures var mo := Restored(m, m1, base, s);
            && OnlyWithin(m, mo, top, end) && OnlyWithin(mo, m1, base, base + s + TOP_FOOT_SIZE)
            && forall c :: top <= c < end ==> R(mo, c) == R(m1, c)
    ensures Head(m1, base) == s + 1 && Head(m1, base + s) == TOP_FOOT_SIZE
  {
    var mi, mo := InitTop(m, base, s), Restored(m, m1, base, s);
    forall c
      ensures R(mo, c) != R(m, c) ==> top + 8 <= c < end
    {
      assert R(m1, c) != R(mi, c) ==> top + 8 <= c < end;
    }
  }

  /** Fewer free chunks see less. */
  lemma ForeignLess(m: Mem, m1: Mem, sz: Sizes, sz1: Sizes)
    requires OnlyForeign(m, m1, sz1) && forall a :: a in sz ==> a in sz1 && sz1[a] == sz[a]
    ensures OnlyForeign(m, m1, sz)
  {}

  /** The layout after `add_segment`. */
  ghost function Added(cs: Chunks, top: int, topsize: nat, base: int, s: nat): Chunks {
    Spliced(Spliced(cs, top, top + topsize + TOP_FOOT_SIZE, OldPart(top, topsize)), base, base + s + TOP_FOOT_SIZE, TopPart(base, s))
  }

  lemma AddedOk(m: Mem, m1: Mem, cs: Chunks, segs: seq<Segment>, dv: int, dvsize: int, top: int, topsize: nat, base: int, s: nat)
    requires HeapOk(m, cs, segs, dv, dvsize, top, topsize) && Fresh(segs, base, s + TOP_FOOT_SIZE) && s % 8 == 0 && s >= 8
    requires OnlyWithin(InitTop(m, base, s), m1, top, top + topsize + TOP_FOOT_SIZE)
    requires OldHeads(m1, top, topsize)
    ensures var cs1 := Added(cs, top, topsize, base, s);
            && FreeOf(cs1) == (if topsize >= MIN_CHUNK_SIZE then FreeOf(cs)[top := topsize] else FreeOf(cs)) && top !in FreeOf(cs)
            && base !in cs && Preserves(m, cs, m1, cs1, {})
            && HeapOk(m1, cs1, [Segment(base, s + TOP_FOOT_SIZE)] + segs, dv, dvsize, base, s)
    ensures OnlyForeign(m, Restored(m, m1, base, s), FreeOf(cs)) && OnlyForeign(Restored(m, m1, base, s), m1, FreeOf(cs))
    ensures topsize >= MIN_CHUNK_SIZE ==> var cs1 := Added(cs, top, topsize, base, s); top in cs1 && cs1[top] == Chunk(topsize, Free, true)
  {
    hide Laid, SegmentsOk, Marked, Written, Room, Tail, Preserves, FreeOf, OldPart, TopPart, OnlyWithin, OnlyForeign, Spliced, InLayout;
    hide TopLess, Restored, InitTop, Fresh;
    var mo, end := Restored(m, m1, base, s), top + topsize + TOP_FOOT_SIZE;
    var cs1 := Spliced(cs, top, end, OldPart(top, topsize));
    var j := TopSegment(cs, segs, dv, dvsize, top, topsize);
    DvAt(cs, dv, dvsize, top, topsize);
    BaseIn(cs, segs, j);
    TopRoom(cs, segs, dv, dvsize, top, topsize, j, 0);
    FreshApart(segs, base, s + TOP_FOOT_SIZE, j, top, end);
    RestoredWithin(m, m1, base, s, top, end);
    OldOk(m, mo, cs, segs, dv, dvsize, top, topsize);
    NewOk(mo, m1, cs1, segs, base, s + TOP_FOOT_SIZE);
    MarksOld(cs, dv, dvsize, top, topsize);
    FreeOld(cs, top, topsize);
    MarksNew(cs1, dv, dvsize, base, s);
    ForeignLess(mo, m1, FreeOf(cs), FreeOf(cs1));
    PreservesTrans(m, cs, mo, cs1, m1, Added(cs, top, topsize, base, s), {});
    FreshRoom(cs, segs, base, s + TOP_FOOT_SIZE);
    if topsize >= MIN_CHUNK_SIZE { OldStays(cs, top, topsize, base, s); }
  }

  lemma OldStays(cs: Chunks, top: int, topsize: nat, base: int, s: nat)
    requires topsize >= MIN_CHUNK_SIZE && (base + s + TOP_FOOT_SIZE <= top || top + topsize + TOP_FOOT_SIZE <= base)
    ensures var cs1 := Added(cs, top, topsize, base, s); top in cs1 && cs1[top] == Chunk(topsize, Free, true)
  {}

  lemma FreshApart(segs: seq<Segment>, base: int, size: int, j: int, top: int, end: int)
    requires Fresh(segs, base, size) && 0 <= j < |segs| && segs[j].base <= top && end <= segs[j].base + segs[j].size
    ensures base + size <= top || end <= base
    ensures base % 8 == 0 && base > 0
  {}

  /** What `add_segment` does to the old segment: a segment record, fences, and the head of the rest. */
  method CloseSegment(m: Mem, oldTop: int, oldEnd: int) returns (csp: int, m1: Mem)
    requires oldTop % 8 == 0 && oldEnd % 8 == 0 && oldTop + 8 + TOP_FOOT_SIZE <= oldEnd
    ensures OnlyWithin(m, m1, oldTop, oldEnd) && OldHeads(m1, oldTop, oldEnd - TOP_FOOT_SIZE - oldTop)
    ensures csp == if oldEnd - TOP_FOOT_SIZE - oldTop < MIN_CHUNK_SIZE then oldTop else oldEnd - TOP_FOOT_SIZE
  {
    hide OnlyWithin;
    var ssize := 32;  // the padded size of a segment record
    var rawsp := oldEnd - (ssize + 32 + 7);
    var asp := rawsp + (8 - (rawsp + 16) % 8) % 8;
    assert asp == oldEnd - TOP_FOOT_SIZE;
    csp := if asp < oldTop + MIN_CHUNK_SIZE then oldTop else asp;
    m1 := m[csp + 8 := ssize + 3];
    m1 := PutFences(m1, csp + ssize, oldEnd);
    assert Head(m1, csp + ssize + 8 * 0) == FENCEPOST_HEAD;
    OldWords(m, oldTop, asp - oldTop, m1);
    if csp != oldTop {
      m1 := SetFreeWithPinuse(m1, oldTop, csp - oldTop, csp);
    }
  }

  /** `add_segment`. */
  method AddSegment(ms: MallocState, tbase: int, tsize: nat)
    requires Valid(ms) && Fresh(ms.segs, tbase, tsize) && tsize % 8 == 0 && tsize >= 72
    modifies ms`mem, ms`chunks, ms`smallmap, ms`treemap, ms`small, ms`tries, ms`free, ms`dv, ms`dvsize, ms`top, ms`topsize, ms`segs
    ensures ms.top == tbase && ms.topsize == tsize - TOP_FOOT_SIZE && Freed(old(ms.chunks), ms.top)
    ensures ms.segs == [Segment(tbase, tsize)] + old(ms.segs)
    ensures Valid(ms) && Preserves(old(ms.mem), old(ms.chunks), ms.mem, ms.chunks, {})
  {
    hide Laid, SegmentsOk, Marked, Written, Preserves, FreeOf, OnlyWithin, OnlyForeign, Added, Fresh, HeapOk, BinsOk,
         InitTop, OldHeads, Restored;
    ghost var m, cs, segs, dv, dvsize, topsize := ms.mem, ms.chunks, ms.segs, ms.dv, ms.dvsize, ms.topsize;
    HeapParts(ms);
    DvSmall(ms);
    var oldTop := ms.top;
    ghost var i := TopSegment(cs, segs, dv, dvsize, oldTop, topsize);
    assert Holds(segs[i], oldTop);
    var j := SegmentHolding(ms.segs, oldTop);
    OneSegment(cs, segs, i, j, oldTop);
    var oldEnd := ms.segs[j].base + ms.segs[j].size;
    ms.top := tbase;
    ms.topsize := tsize - TOP_FOOT_SIZE;
    ms.mem := InitTop(ms.mem, tbase, tsize - TOP_FOOT_SIZE);
    ms.segs := [Segment(tbase, tsize)] + ms.segs;
    var csp, m1 := CloseSegment(ms.mem, oldTop, oldEnd);
    ms.mem := m1;
    AddedOk(m, m1, cs, segs, dv, dvsize, oldTop, topsize, tbase, ms.topsize);
    ghost var mo := Restored(m, m1, tbase, ms.topsize);
    ms.chunks := Added(cs, oldTop, topsize, tbase, ms.topsize);
    BinsUntouched(m, mo, ms.smallmap, ms.treemap, ms.small, ms.tries, ms.free);
    BinsUntouched(mo, m1, ms.smallmap, ms.treemap, ms.small, ms.tries, ms.free);
    if csp != oldTop {
      BinOldTop(ms, oldTop, csp - oldTop);
      PreservesTrans(m, cs, m1, ms.chunks, ms.mem, ms.chunks, {});
    }
  }

  /** The rest of the old top chunk goes into a bin. */
  method BinOldTop(ms: MallocState, p: int, s: nat)
    requires HeapValid(ms) && ms.BinsValid() && p !in ms.free && FreeOf(ms.chunks) == ms.free[p := s]
    requires p in ms.chunks && ms.chunks[p].use == Free && ms.chunks[p].size == s
    modifies ms`mem, ms`smallmap, ms`treemap, ms`small, ms`tries, ms`free
    ensures Valid(ms) && Preserves(old(ms.mem), ms.chunks, ms.mem, ms.chunks, {})
  {
    hide HeapOk, BinsOk, Preserves, FreeOf;
    WithoutLast(ms.free, p, s);
    Insert(ms, p, s);
  }
}
