/** `alloc_sys` and `lj_alloc_create` (luajit/lj_alloc.c). */
module AllocSystem {
  import opened Bits
  import opened AllocMem
  import opened AllocBins
  import opened AllocHeap
  import opened AllocSteps
  import opened AllocMalloc
  import opened AllocFree
  import opened AllocRequest
  import opened AllocSplice
  import opened AllocSys
  import opened AllocFront

  const CMFAIL := -1

  /** `granularity_align`, in 64 bits. */
  function GranularityAlign(n: nat): (r: nat)
    ensures r % DEFAULT_GRANULARITY == 0 && r < W64
    ensures n + DEFAULT_GRANULARITY <= W64 ==> n <= r < n + DEFAULT_GRANULARITY
  {
    var x := (n + (DEFAULT_GRANULARITY - 1)) % W64;
    x - x % DEFAULT_GRANULARITY
  }

  // ---------------------------------------------------------------- the system

  /** The memory that the system has granted: an answer that is not fresh is a failure. */
  function Granted(asks: seq<Ask>): seq<Segment> {
    if asks == [] then []
    else
      var g, last := Granted(asks[..|asks| - 1]), asks[|asks| - 1];
      if Fresh(g, last.base, last.size) then [Segment(last.base, last.size)] + g else g
  }

  /** The call for memory with this number fails. */
  predicate FailsAt(asks: seq<Ask>, c: nat)
    requires c < |asks|
  {
    !Fresh(Granted(asks[..c]), asks[c].base, asks[c].size)
  }

  ghost predicate InAny(segs: seq<Segment>, a: int) { exists i :: 0 <= i < |segs| && Holds(segs[i], a) }

  ghost predicate Sizes1(segs: seq<Segment>) { forall i :: 0 <= i < |segs| ==> segs[i].size > 0 }

  /** The segments are the granted memory. */
  ghost predicate SameSpace(segs: seq<Segment>, asks: seq<Ask>) {
    && Sizes1(segs) && Sizes1(Granted(asks))
    && forall a :: InAny(segs, a) <==> InAny(Granted(asks), a)
  }

  /** The answers are those of the system. */
  predicate Answers(system: (nat, nat) -> int, asks: seq<Ask>) {
    forall c :: 0 <= c < |asks| ==> asks[c].base == system(c, asks[c].size)
  }

  ghost predicate SpaceOk(ms: MallocState)
    reads ms
  {
    SameSpace(ms.segs, ms.asks) && Answers(ms.system, ms.asks)
  }

  /** Memory is fresh exactly if it shares no address with the segments. */
  lemma FreshMeans(segs: seq<Segment>, base: int, size: int)
    requires Sizes1(segs) && size > 0
    ensures Fresh(segs, base, size) <==>
              && 0 < base && base % 4096 == 0 && base + size <= MAX_ADDR
              && forall a :: base <= a < base + size ==> !InAny(segs, a)
  {
    if forall a :: base <= a < base + size ==> !InAny(segs, a) {
      forall i | 0 <= i < |segs|
        ensures segs[i].base + segs[i].size <= base || base + size <= segs[i].base
      {
        var a := if segs[i].base < base then base else segs[i].base;
        assert Holds(segs[i], a) ==> InAny(segs, a);
      }
    }
  }

  /** It does not matter how granted memory is divided into segments. */
  lemma FreshSame(segs: seq<Segment>, segs1: seq<Segment>, base: int, size: int)
    requires Sizes1(segs) && Sizes1(segs1) && forall a :: InAny(segs, a) <==> InAny(segs1, a)
    ensures Fresh(segs, base, size) <==> Fresh(segs1, base, size)
  {
    if size > 0 {
      FreshMeans(segs, base, size);
      FreshMeans(segs1, base, size);
    }
  }

  lemma GrantedMore(asks: seq<Ask>, ask: Ask)
    ensures Granted(asks + [ask]) ==
              if Fresh(Granted(asks), ask.base, ask.size) then [Segment(ask.base, ask.size)] + Granted(asks) else Granted(asks)
  {
    assert (asks + [ask])[..|asks|] == asks;
  }

  /** The segments have grown by the given memory. */
  ghost predicate GrownBy(segs: seq<Segment>, segs1: seq<Segment>, base: int, size: int) {
    Sizes1(segs1) && forall a :: InAny(segs1, a) <==> InAny(segs, a) || base <= a < base + size
  }

  lemma SpaceAdded(segs: seq<Segment>, base: int, size: int)
    requires Sizes1(segs) && size > 0
    ensures GrownBy(segs, [Segment(base, size)] + segs, base, size)
  {
    var segs1 := [Segment(base, size)] + segs;
    forall a
      ensures InAny(segs1, a) <==> InAny(segs, a) || base <= a < base + size
    {
      if base <= a < base + size { assert Holds(segs1[0], a); }
      if i :| 0 <= i < |segs| && Holds(segs[i], a) { assert Holds(segs1[i + 1], a); }
      if i :| 0 <= i < |segs1| && Holds(segs1[i], a) { assert i > 0 ==> Holds(segs[i - 1], a); }
    }
  }

  /** Segment j is extended at its end or at its start. */
  lemma SpaceExtended(segs: seq<Segment>, j: nat, base: int, size: int, s: Segment)
    requires Sizes1(segs) && j < |segs| && size > 0 && s.size == segs[j].size + size
    requires (s.base == segs[j].base && base == segs[j].base + segs[j].size) || (s.base == base && base + size == segs[j].base)
    ensures GrownBy(segs, segs[j := s], base, size)
  {
    var segs1 := segs[j := s];
    forall a
      ensures InAny(segs1, a) <==> InAny(segs, a) || base <= a < base + size
    {
      if base <= a < base + size { assert Holds(segs1[j], a); }
      if i :| 0 <= i < |segs| && Holds(segs[i], a) { assert Holds(segs1[i], a); }
      if i :| 0 <= i < |segs1| && Holds(segs1[i], a) { assert i != j ==> Holds(segs[i], a); }
    }
  }

  /** After a call that was granted. */
  lemma SpaceGranted(segs: seq<Segment>, segs1: seq<Segment>, asks: seq<Ask>, ask: Ask)
    requires SameSpace(segs, asks) && Fresh(segs, ask.base, ask.size) && GrownBy(segs, segs1, ask.base, ask.size)
    ensures SameSpace(segs1, asks + [ask])
  {
    hide Granted;
    GrantedMore(asks, ask);
    FreshSame(segs, Granted(asks), ask.base, ask.size);
    FreshBound(segs, ask.base, ask.size);
    SpaceAdded(Granted(asks), ask.base, ask.size);
  }

  /** After a call that has failed. */
  lemma SpaceFailed(segs: seq<Segment>, asks: seq<Ask>, ask: Ask)
    requires SameSpace(segs, asks) && !Fresh(segs, ask.base, ask.size)
    ensures SameSpace(segs, asks + [ask]) && FailsAt(asks + [ask], |asks|)
  {
    hide Granted;
    GrantedMore(asks, ask);
    FreshSame(segs, Granted(asks), ask.base, ask.size);
    assert (asks + [ask])[..|asks|] == asks;
  }

  lemma AnswersMore(system: (nat, nat) -> int, asks: seq<Ask>, ask: Ask)
    requires Answers(system, asks) && ask.base == system(|asks|, ask.size)
    ensures Answers(system, asks + [ask])
  {}

  /** `CALL_MMAP`: fresh pages, or failure. */
  method CallMmap(ms: MallocState, size: nat) returns (base: int)
    modifies ms`asks
    ensures ms.asks == old(ms.asks) + [Ask(size, ms.system(|old(ms.asks)|, size))]
    ensures base == var b := ms.system(|old(ms.asks)|, size); if Fresh(ms.segs, b, size) then b else CMFAIL
  {
    base := ms.system(|ms.asks|, size);
    ms.asks := ms.asks + [Ask(size, base)];
    if !Fresh(ms.segs, base, size) { base := CMFAIL; }
  }

  /** The first segment that ends, or starts, at an address. */
  method FindEnd(segs: seq<Segment>, a: int) returns (i: nat)
    ensures i <= |segs| && (i < |segs| ==> segs[i].base + segs[i].size == a)
    ensures i == |segs| ==> forall j :: 0 <= j < |segs| ==> segs[j].base + segs[j].size != a
  {
    i := 0;
    while i < |segs| && a != segs[i].base + segs[i].size
      invariant i <= |segs| && forall j :: 0 <= j < i ==> segs[j].base + segs[j].size != a
    {
      i := i + 1;
    }
  }

  method FindStart(segs: seq<Segment>, a: int) returns (i: nat)
    ensures i <= |segs| && (i < |segs| ==> segs[i].base == a)
    ensures i == |segs| ==> forall j :: 0 <= j < |segs| ==> segs[j].base != a
  {
    i := 0;
    while i < |segs| && segs[i].base != a
      invariant i <= |segs| && forall j :: 0 <= j < i ==> segs[j].base != a
    {
      i := i + 1;
    }
  }

  /** The top chunk, after it has grown, serves the request. */
  method FromNewTop(ms: MallocState, nb: nat, ghost m: Mem, ghost cs: Chunks) returns (mem: int)
    requires Valid(ms) && nb % 8 == 0 && MIN_CHUNK_SIZE <= nb < ms.topsize && Freed(cs, ms.top)
    requires Preserves(m, cs, ms.mem, ms.chunks, {})
    modifies ms`mem, ms`chunks, ms`top, ms`topsize
    ensures Valid(ms) && Preserves(m, cs, ms.mem, ms.chunks, {})
    ensures mem > 16 && NewBlock(cs, ms.chunks, mem - 16, nb)
  {
    hide HeapOk, BinsOk, Preserves, FreeOf;
    ghost var m1, cs1 := ms.mem, ms.chunks;
    mem := FromTop(ms, nb);
    PreservesTrans(m, cs, m1, cs1, ms.mem, ms.chunks, {});
  }

  /** The size of the region that is asked for, in 64 bits. */
  function AskSize(nb: nat): nat { GranularityAlign((nb + TOP_FOOT_SIZE + 1) % W64) }

  /** The size has wrapped around, and nothing is asked for. */
  predicate Wraps(nb: nat) { AskSize(nb) <= nb }

  /** The next call for memory would fail. */
  ghost predicate Refused(ms: MallocState, nb: nat)
    reads ms
  {
    Wraps(nb) || !Fresh(ms.segs, ms.system(|ms.asks|, AskSize(nb)), AskSize(nb))
  }

  /** The calls for memory after one more, for nb bytes. */
  function AsksFor(system: (nat, nat) -> int, asks: seq<Ask>, nb: nat): seq<Ask> {
    if Wraps(nb) then asks else asks + [Ask(AskSize(nb), system(|asks|, AskSize(nb)))]
  }

  /** Puts fresh memory into the heap, at a segment or on its own; mem is the block if the memory came
      in front of a segment, which then serves the request at once. */
  method PutMemory(ms: MallocState, nb: nat, tbase: int, tsize: nat) returns (mem: int)
    requires Valid(ms) && nb % 8 == 0 && MIN_CHUNK_SIZE <= nb && nb + TOP_FOOT_SIZE + 1 <= tsize && tsize % 8 == 0
    requires Fresh(ms.segs, tbase, tsize) && Sizes1(ms.segs)
    modifies ms`mem, ms`chunks, ms`smallmap, ms`treemap, ms`small, ms`tries, ms`free, ms`dv, ms`dvsize, ms`top, ms`topsize, ms`segs
    ensures mem == 0 ==> nb < ms.topsize && Freed(old(ms.chunks), ms.top)
    ensures mem != 0 ==> mem > 16 && NewBlock(old(ms.chunks), ms.chunks, mem - 16, nb)
    ensures GrownBy(old(ms.segs), ms.segs, tbase, tsize)
    ensures Valid(ms) && Preserves(old(ms.mem), old(ms.chunks), ms.mem, ms.chunks, {})
  {
    hide HeapOk, BinsOk, Preserves, FreeOf, Fresh, NewBlock, Freed, GrownBy, Sizes1;
    DvSmall(ms);
    FreshBound(ms.segs, tbase, tsize);
    mem := 0;
    var i := FindEnd(ms.segs, tbase);
    if i < |ms.segs| && ms.segs[i].base <= ms.top < ms.segs[i].base + ms.segs[i].size {
      SpaceExtended(ms.segs, i, tbase, tsize, Segment(ms.segs[i].base, ms.segs[i].size + tsize));
      Append(ms, i, tsize);
    } else {
      i := FindStart(ms.segs, tbase + tsize);
      if i < |ms.segs| {
        SpaceExtended(ms.segs, i, tbase, tsize, Segment(tbase, ms.segs[i].size + tsize));
        mem := PrependAlloc(ms, i, tbase, tsize, nb);
      } else {
        SpaceAdded(ms.segs, tbase, tsize);
        AddSegment(ms, tbase, tsize);
      }
    }
  }

  /** `alloc_sys`: whatever memory the system hands out, next to a segment or not, the request is
      served from it.  It fails exactly if the system does, or the size wraps around, and then leaves
      everything as it was. */
  method AllocFromSystem(ms: MallocState, nb: nat) returns (mem: int)
    requires Valid(ms) && SpaceOk(ms) && MIN_CHUNK_SIZE <= nb < W64 && (nb % 8 == 0 || nb == MAX_SIZE_T)
    modifies ms
    ensures mem == 0 <==> old(Refused(ms, nb))
    ensures mem == 0 ==> ms.mem == old(ms.mem) && ms.chunks == old(ms.chunks) && ms.segs == old(ms.segs)
    ensures mem != 0 ==> nb % 8 == 0 && mem > 16 && NewBlock(old(ms.chunks), ms.chunks, mem - 16, nb)
    ensures SpaceOk(ms) && ms.asks == AsksFor(ms.system, old(ms.asks), nb)
    ensures Valid(ms) && Preserves(old(ms.mem), old(ms.chunks), ms.mem, ms.chunks, {})
  {
    hide HeapOk, BinsOk, Preserves, FreeOf, Fresh, NewBlock, Freed, SameSpace, Answers, GrownBy;
    ghost var m, cs, segs, asks := ms.mem, ms.chunks, ms.segs, ms.asks;
    PreservesSelf(m, cs);
    SpaceSizes(segs, asks);
    var rsize := AskSize(nb);
    var tbase := CMFAIL;
    if rsize > nb {  // otherwise it has wrapped around
      tbase := CallMmap(ms, rsize);
      ghost var ask := Ask(rsize, ms.system(|asks|, rsize));
      AnswersMore(ms.system, asks, ask);
      if tbase == CMFAIL { NotFail(segs, rsize, ask.base); SpaceFailed(segs, asks, ask); }
    }
    if tbase != CMFAIL {
      var tsize := rsize;
      FreshBound(segs, tbase, tsize);
      RoomEnough(nb, tsize);
      mem := PutMemory(ms, nb, tbase, tsize);
      SpaceGranted(segs, ms.segs, asks, Ask(tsize, tbase));
      if mem == 0 { mem := FromNewTop(ms, nb, m, cs); }
    } else {
      mem := 0;
    }
  }

  lemma SpaceSizes(segs: seq<Segment>, asks: seq<Ask>)
    requires SameSpace(segs, asks)
    ensures Sizes1(segs)
  {}

  lemma NotFail(segs: seq<Segment>, size: int, base: int)
    ensures Fresh(segs, base, size) ==> base != CMFAIL
  {}

  lemma RoomEnough(nb: nat, tsize: nat)
    requires MIN_CHUNK_SIZE <= nb < W64 && (nb % 8 == 0 || nb == MAX_SIZE_T) && tsize < MAX_ADDR
    requires tsize > nb && tsize == AskSize(nb)
    ensures nb % 8 == 0 && nb + TOP_FOOT_SIZE + 1 <= tsize && tsize % 8 == 0
  {
    hide GranularityAlign;
    var req := nb + TOP_FOOT_SIZE + 1;
    assert req % W64 == req;
    Units(tsize);
  }

  lemma Units(n: nat)
    requires n % DEFAULT_GRANULARITY == 0
    ensures n % 8 == 0
  {
    assert n == 8 * (0x4000 * (n / DEFAULT_GRANULARITY));
  }

  /** The chunk size for a request. */
  function Wanted(nsize: nat): nat { if nsize >= MAX_REQUEST then MAX_SIZE_T else RequestToSize(nsize) }

  /** No free chunk of any kind has room for the request. */
  ghost predicate HeapFull(ms: MallocState, nsize: nat)
    reads ms
  {
    var nb := Wanted(nsize);
    NoFit(ms.free, nb) && ms.dvsize < nb && ms.topsize <= nb
  }

  /** Neither the heap nor the system has room for the request. */
  ghost predicate Unserved(ms: MallocState, nsize: nat)
    reads ms
  {
    HeapFull(ms, nsize) && Refused(ms, Wanted(nsize))
  }

  /** `lj_alloc_malloc`: a new block of the requested size, with less than another chunk to spare.  If a free
      chunk has room, the best fit is used, and the system is not called.  There is none exactly if
      neither the heap nor the system has room, and then nothing has changed. */
  method LjAllocMalloc(ms: MallocState, nsize: nat) returns (mem: int)
    requires Valid(ms) && SpaceOk(ms) && nsize < W64
    modifies ms
    ensures mem == 0 <==> old(Unserved(ms, nsize))
    ensures mem == 0 ==> ms.mem == old(ms.mem) && ms.chunks == old(ms.chunks)
    ensures mem != 0 ==> mem > 16 && nsize < MAX_REQUEST && NewBlock(old(ms.chunks), ms.chunks, mem - 16, RequestToSize(nsize))
    ensures SpaceOk(ms) && ms.asks == if old(HeapFull(ms, nsize)) then AsksFor(ms.system, old(ms.asks), Wanted(nsize)) else old(ms.asks)
    ensures mem == 0 ==> ms.asks == AsksFor(ms.system, old(ms.asks), Wanted(nsize))
    ensures !old(HeapFull(ms, nsize)) ==>
              Chosen(old(ms.free), old(ms.dv), old(ms.dvsize), old(ms.top), old(ms.topsize), Wanted(nsize), mem - 16)
    ensures Valid(ms) && Preserves(old(ms.mem), old(ms.chunks), ms.mem, ms.chunks, {})
  {
    hide HeapOk, BinsOk, Preserves, FreeOf, NewBlock, NoFit, Chosen, RequestToSize, Fresh, SameSpace, Answers, Wraps, AskSize, AsksFor;
    ghost var m, cs := ms.mem, ms.chunks;
    if nsize < MAX_REQUEST { RequestFits(nsize); }
    var nb;
    mem, nb := MallocFromHeap(ms, nsize);
    if mem == 0 {
      mem := AllocFromSystem(ms, nb);
    }
  }

  // ---------------------------------------------------------------- lj_alloc_create

  const STATE_SIZE := 872  // the padded size of malloc_state

  /** The first segment: the allocator's own state, the top chunk, and its foot. */
  function FirstPart(base: int, size: nat): Chunks
    requires size >= 1024
  {
    map[base := Chunk(STATE_SIZE, Used, true), base + STATE_SIZE := Chunk(size - STATE_SIZE - TOP_FOOT_SIZE, Top, true),
        base + size - TOP_FOOT_SIZE := Chunk(TOP_FOOT_SIZE, Foot, false)]
  }

  lemma FirstLaid(base: int, size: nat)
    requires 0 < base && base % 8 == 0 && size % 8 == 0 && size >= 1024 && base + size <= MAX_ADDR
    ensures Laid(FirstPart(base, size))
  {
    var cs := FirstPart(base, size);
    assert EndsAt(cs, base + STATE_SIZE, base + size - TOP_FOOT_SIZE);
    IsLaid(cs);
  }

  lemma FirstSegments(base: int, size: nat)
    requires size >= 1024 && base + size <= MAX_ADDR
    ensures SegmentsOk(FirstPart(base, size), [Segment(base, size)])
  {
    hide SegmentsOk, Based, Disjoint, Covered, FirstPart, InSegment;
    var cs, segs := FirstPart(base, size), [Segment(base, size)];
    FirstIn(base, size);
    forall p | p in cs
      ensures InSome(p, cs[p], segs)
    {
      FirstAt(base, size, p);
      assert InSegment(p, cs[p], segs[0]);
    }
    AllBased(cs, segs);
    AllCovered(cs, segs);
    OneDisjoint(segs);
    AreSegments(cs, segs);
  }

  lemma OneDisjoint(segs: seq<Segment>)
    requires |segs| == 1
    ensures Disjoint(segs)
  {}

  lemma FirstAt(base: int, size: nat, p: int)
    requires size >= 1024 && p in FirstPart(base, size)
    ensures InSegment(p, FirstPart(base, size)[p], Segment(base, size))
  {}

  lemma FirstIn(base: int, size: nat)
    requires size >= 1024
    ensures base in FirstPart(base, size)
  {}

  lemma FirstOk(m: Mem, base: int, size: nat)
    requires Fresh([], base, size) && size % 8 == 0 && size >= 1024
    requires Head(m, base) == STATE_SIZE + 3 && Head(m, base + STATE_SIZE) == size - STATE_SIZE - TOP_FOOT_SIZE + 1
    requires Head(m, base + size - TOP_FOOT_SIZE) == TOP_FOOT_SIZE
    ensures HeapOk(m, FirstPart(base, size), [Segment(base, size)], 0, 0, base + STATE_SIZE, size - STATE_SIZE - TOP_FOOT_SIZE)
    ensures FreeOf(FirstPart(base, size)) == map[]
  {
    hide Laid, SegmentsOk;
    FirstLaid(base, size);
    FirstSegments(base, size);
  }

  lemma NoBins(m: Mem)
    requires forall i :: 0 <= i < NTREEBINS ==> R(m, TreeBinAt(i)) == 0
    ensures BinsOk(m, 0, 0, seq(NSMALLBINS, _ => []), seq(NTREEBINS, _ => map[]), map[])
  {
    forall i: nat ensures !Bit(0, i) { Bits.NoBits(0, i); }
  }

  /** `lj_alloc_create`: an allocator whose only block is its own state, at the start of its first
      segment, unless the system has no memory. */
  method LjAllocCreate(system: (nat, nat) -> int) returns (ok: bool, ms: MallocState)
    ensures fresh(ms) && ms.system == system && ms.asks == [Ask(DEFAULT_GRANULARITY, system(0, DEFAULT_GRANULARITY))]
    ensures ok <==> !FailsAt(ms.asks, 0)
    ensures ok ==> Valid(ms) && SpaceOk(ms) && ms.free == map[] && ms.dvsize == 0
    ensures ok ==> |ms.segs| == 1 && forall p :: p in ms.chunks && ms.chunks[p].use == Used ==> p == ms.segs[0].base
  {
    hide HeapOk, BinsOk, Fresh, SameSpace, FailsAt, R;
    var tsize := DEFAULT_GRANULARITY;
    ms := new MallocState(system);
    var tbase := CallMmap(ms, tsize);
    ok := tbase != CMFAIL;
    FirstAsk(ms.asks[0]);
    if ok {
      var mn := tbase + STATE_SIZE;
      FreshBound([], tbase, tsize);
      var mem := FirstWords(ms.mem, tbase, tsize);
      ms.mem := mem;
      ms.segs := [Segment(tbase, tsize)];
      ms.top := mn;
      ms.topsize := tsize - STATE_SIZE - TOP_FOOT_SIZE;
      ms.chunks := FirstPart(tbase, tsize);
      FirstOk(ms.mem, tbase, tsize);
      NoBins(ms.mem);
    }
  }

  /** The heads of the first segment, and the headers of the bins. */
  method FirstWords(m: Mem, base: int, size: nat) returns (m1: Mem)
    requires m == map[] && base > 0 && size >= 1024
    ensures Head(m1, base) == STATE_SIZE + 3 && Head(m1, base + STATE_SIZE) == size - STATE_SIZE - TOP_FOOT_SIZE + 1
    ensures Head(m1, base + size - TOP_FOOT_SIZE) == TOP_FOOT_SIZE
    ensures forall i :: 0 <= i < NTREEBINS ==> R(m1, TreeBinAt(i)) == 0
  {
    m1 := m[base + 8 := STATE_SIZE + 3];
    m1 := InitBins(m1);
    assert Head(m1, base) == STATE_SIZE + 3;
    assert forall i :: 0 <= i < NTREEBINS ==> R(m1, TreeBinAt(i)) == 0;
    m1 := InitTop(m1, base + STATE_SIZE, size - STATE_SIZE - TOP_FOOT_SIZE);
  }

  /** The first call for memory. */
  lemma FirstAsk(ask: Ask)
    ensures FailsAt([ask], 0) <==> !Fresh([], ask.base, ask.size)
    ensures Fresh([], ask.base, ask.size) ==> ask.base != CMFAIL && SameSpace([Segment(ask.base, ask.size)], [ask])
  {
    hide SameSpace, GrownBy;
    assert [ask][..0] == [];
    if Fresh([], ask.base, ask.size) {
      assert SameSpace([], []) by { NoSpace(); }
      SpaceAdded([], ask.base, ask.size);
      assert [Segment(ask.base, ask.size)] + [] == [Segment(ask.base, ask.size)] && [] + [ask] == [ask];
      SpaceGranted([], [Segment(ask.base, ask.size)], [], ask);
    }
  }

  lemma NoSpace()
    ensures SameSpace([], [])
  {}

  /** `init_bins`. */
  method InitBins(m: Mem) returns (m1: Mem)
    ensures forall c :: c >= TreeBinAt(0) ==> R(m1, c) == R(m, c)
    ensures forall i :: 0 <= i < NSMALLBINS ==> Fd(m1, SmallBinAt(i)) == Bk(m1, SmallBinAt(i)) == SmallBinAt(i)
  {
    m1 := m;
    for i := 0 to NSMALLBINS
      invariant forall c :: c >= TreeBinAt(0) ==> R(m1, c) == R(m, c)
      invariant forall j :: 0 <= j < i ==> Fd(m1, SmallBinAt(j)) == Bk(m1, SmallBinAt(j)) == SmallBinAt(j)
    {
      var bin := SmallBinAt(i);
      m1 := m1[bin + 16 := bin][bin + 24 := bin];
    }
  }
}
