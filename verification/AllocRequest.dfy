/** `lj_alloc_malloc` (luajit/lj_alloc.c) up to the system allocator. */
module AllocRequest {
  import opened Bits
  import opened AllocMem
  import opened AllocTrie
  import opened AllocBins
  import opened AllocBinOps
  import opened AllocHeap
  import opened AllocSteps
  import opened AllocMalloc

  const MAX_SMALL_REQUEST := 240
  const MAX_REQUEST := 0xffff_ffff_ffff_ff80
  const MIN_REQUEST := 23

  /** `pad_request`, in 64 bits. */
  function PadRequest(n: nat): nat { var x := (n + 15) % W64; x - x % 8 }

  /** `request2size`. */
  function RequestToSize(n: nat): nat { if n < MIN_REQUEST then MIN_CHUNK_SIZE else PadRequest(n) }

  /** The least chunk size that leaves room for n bytes and the head. */
  lemma RequestFits(n: nat)
    requires n < MAX_REQUEST
    ensures var nb := RequestToSize(n);
            && nb % 8 == 0 && nb >= MIN_CHUNK_SIZE && nb >= n + CHUNK_OVERHEAD && nb < W64
            && (nb > MIN_CHUNK_SIZE ==> nb - 8 < n + CHUNK_OVERHEAD) && (n <= MAX_SMALL_REQUEST <==> nb < 256)
  {}

  // ---------------------------------------------------------------- small requests

  /** Chunk v is the least of all chunks in the bins that can hold nb bytes. */
  ghost predicate BestFit(sz: Sizes, nb: nat, v: int) {
    Fitting(sz, nb, v) && forall a :: Fitting(sz, nb, a) ==> sz[a] >= sz[v]
  }

  /** No chunk in the bins can hold nb bytes. */
  ghost predicate NoFit(sz: Sizes, nb: nat) { forall a :: !Fitting(sz, nb, a) }

  /** Some chunk in the bins fits a small request with hardly anything left. */
  ghost predicate Snug(sz: Sizes, nb: nat) { exists a :: a in sz && IsSmall(sz[a]) && (sz[a] == nb || sz[a] == nb + 8) }

  /** The small bins up to i hold nothing for nb bytes, but bin i does. */
  lemma SmallLeast(m: Mem, smallmap: nat, treemap: nat, small: seq<seq<int>>, tries: seq<Trie>, sz: Sizes, nb: nat, i: nat, v: int)
    requires BinsOk(m, smallmap, treemap, small, tries, sz) && nb % 8 == 0 && i < NSMALLBINS && nb / 8 <= i
    requires forall j :: nb / 8 <= j < i ==> small[j] == []
    requires v in sz && sz[v] == 8 * i
    ensures BestFit(sz, nb, v)
  {
    hide SmallOk, TrieOk;
    forall a | Fitting(sz, nb, a)
      ensures sz[a] >= sz[v]
    {
      SpreadAt(sz, a);
      assert Binned(small, tries, sz, a);
    }
  }

  lemma NoSmall(m: Mem, smallmap: nat, treemap: nat, small: seq<seq<int>>, tries: seq<Trie>, sz: Sizes, nb: nat)
    requires BinsOk(m, smallmap, treemap, small, tries, sz) && nb % 8 == 0
    requires forall j :: nb / 8 <= j < NSMALLBINS ==> small[j] == []
    ensures forall a :: Fitting(sz, nb, a) ==> sz[a] >= 256
    ensures treemap == 0 ==> NoFit(sz, nb)
  {
    hide SmallOk, TrieOk;
    forall a | Fitting(sz, nb, a)
      ensures sz[a] >= 256 && treemap != 0
    {
      SpreadAt(sz, a);
      assert Binned(small, tries, sz, a);
      NoBits(treemap, TreeIndex(sz[a]));
    }
  }

  /** The bits of the small map that the code looks at. */
  lemma SmallBits(m: Mem, smallmap: nat, treemap: nat, small: seq<seq<int>>, tries: seq<Trie>, sz: Sizes, idx: nat)
    requires BinsOk(m, smallmap, treemap, small, tries, sz) && idx < NSMALLBINS
    ensures var bits := Shr(smallmap, idx);
            && (bits % 4 == 0 <==> small[idx] == [] && (idx + 1 < NSMALLBINS ==> small[idx + 1] == []))
            && (bits % 2 == 1 <==> small[idx] != [])
            && (bits == 0 ==> forall j :: idx <= j < NSMALLBINS ==> small[j] == [])
            && (bits != 0 && bits % 4 == 0 ==>
                  Above(smallmap, idx) > 0 && var i := Ffs(Above(smallmap, idx));
                  idx < i < NSMALLBINS && small[i] != [] && forall j :: idx <= j < i ==> small[j] == [])
  {
    hide SmallOk, TrieOk, Binned;
    var bits := Shr(smallmap, idx);
    ShrStep(smallmap, idx);
    assert Bit(smallmap, idx) <==> small[idx] != [];
    assert Bit(smallmap, idx + 1) <==> idx + 1 < NSMALLBINS && small[idx + 1] != [];
    if bits == 0 {
      forall j | idx <= j < NSMALLBINS
        ensures small[j] == []
      {
        ShrAdd(smallmap, idx, j - idx);
        NoBits(0, j - idx);
        assert Bit(smallmap, j) <==> small[j] != [];
      }
    } else if bits % 4 == 0 {
      var k := Ffs(bits);
      FfsBit(bits, 0);
      ShrAdd(smallmap, idx, k);
      assert Bit(smallmap, idx + k) <==> idx + k < NSMALLBINS && small[idx + k] != [];
      var above := Above(smallmap, idx);
      AboveBits(smallmap, idx, idx + k);
      NoBits(above, idx + k);
      var i := Ffs(above);
      FfsBit(above, 0);
      AboveBits(smallmap, idx, i);
      assert Bit(smallmap, i) <==> i < NSMALLBINS && small[i] != [];
      forall j | idx <= j < i
        ensures small[j] == []
      {
        FfsBit(above, j);
        AboveBits(smallmap, idx, j);
        assert Bit(smallmap, j) <==> small[j] != [];
      }
    }
  }

  /** The first chunk of small bin i leaves it. */
  method FirstOfBin(ms: MallocState, i: nat) returns (p: int)
    requires Valid(ms) && i < NSMALLBINS && ms.small[i] != []
    modifies ms`mem, ms`smallmap, ms`small, ms`free
    ensures HeapValid(ms) && ms.BinsValid() && ms.free == FreeOf(ms.chunks) - {p}
    ensures p in old(ms.free) && old(ms.free)[p] == 8 * i && p > 0
    ensures p in ms.chunks && ms.chunks[p].use == Free && ms.chunks[p].size == 8 * i
    ensures Preserves(old(ms.mem), ms.chunks, ms.mem, ms.chunks, {})
  {
    hide HeapOk, BinsOk, OnlyFree, Preserves, FreeOf, InLayout, HeadsOf, Spread, Laid, Written, SegmentsOk, Marked;
    ghost var m, cs, sz := ms.mem, ms.chunks, ms.free;
    HeapParts(ms);
    var b := SmallBinAt(i);
    p := Fd(ms.mem, b);
    AllFree(m, cs, p);
    UnlinkFirstSmall(ms, b, p, i);
    HeapBins(m, ms.mem, cs, ms.segs, ms.dv, ms.dvsize, ms.top, ms.topsize, sz);
    LaidAt(cs, p);
  }

  /** `lj_alloc_malloc`, small requests: takes the best fit of all bins.  It takes none exactly if
      there is none, or the designated victim fits and no chunk is snug. */
  method MallocSmall(ms: MallocState, nb: nat) returns (mem: int)
    requires Valid(ms) && nb % 8 == 0 && MIN_CHUNK_SIZE <= nb < 256
    modifies ms`mem, ms`chunks, ms`smallmap, ms`treemap, ms`small, ms`tries, ms`free, ms`dv, ms`dvsize
    ensures Valid(ms) && Preserves(old(ms.mem), old(ms.chunks), ms.mem, ms.chunks, {})
    ensures mem == 0 <==> NoFit(old(ms.free), nb) || (nb <= old(ms.dvsize) && !Snug(old(ms.free), nb))
    ensures mem == 0 ==> ms.mem == old(ms.mem) && ms.chunks == old(ms.chunks) && ms.dvsize == old(ms.dvsize) && ms.dv == old(ms.dv)
    ensures mem != 0 ==> mem > 16 && NewBlock(old(ms.chunks), ms.chunks, mem - 16, nb) && BestFit(old(ms.free), nb, mem - 16)
  {
    hide HeapOk, BinsOk, Preserves, FreeOf, NewBlock, BestFit, NoFit, Snug;
    ghost var m, cs, sz := ms.mem, ms.chunks, ms.free;
    PreservesSelf(m, cs);
    BinCount(ms);
    var idx := nb / 8;
    SmallBits(m, ms.smallmap, ms.treemap, ms.small, ms.tries, sz, idx);
    SnugBins(m, ms.smallmap, ms.treemap, ms.small, ms.tries, sz, nb);
    var smallbits := Shr(ms.smallmap, idx);
    if smallbits % 4 != 0 {
      idx := idx + (1 - smallbits % 2);
      mem := ExactFit(ms, nb, idx);
    } else if nb > ms.dvsize {
      if smallbits != 0 {
        var i := Ffs(Above(ms.smallmap, idx));
        mem := NextFit(ms, nb, i);
      } else {
        NoSmall(m, ms.smallmap, ms.treemap, ms.small, ms.tries, sz, nb);
        if ms.treemap != 0 {
          mem := TmallocSmall(ms, nb);
          LeastLarge(sz, nb, mem - 16);
        } else {
          mem := 0;
        }
      }
    } else {
      mem := 0;
    }
  }

  lemma BinCount(ms: MallocState)
    requires ms.BinsValid()
    ensures |ms.small| == NSMALLBINS && |ms.tries| == NTREEBINS
  {}

  lemma LeastLarge(sz: Sizes, nb: nat, v: int)
    requires nb < 256 && v in sz && sz[v] >= 256 && forall a :: Fitting(sz, nb, a) ==> sz[a] >= 256
    requires forall a :: a in sz && sz[a] >= 256 ==> sz[a] >= sz[v]
    ensures BestFit(sz, nb, v) && !NoFit(sz, nb)
  {
    assert Fitting(sz, nb, v);
  }

  /** Snug chunks are in two small bins. */
  lemma SnugBins(m: Mem, smallmap: nat, treemap: nat, small: seq<seq<int>>, tries: seq<Trie>, sz: Sizes, nb: nat)
    requires BinsOk(m, smallmap, treemap, small, tries, sz) && nb % 8 == 0 && 32 <= nb < 256
    ensures Snug(sz, nb) <==> small[nb / 8] != [] || (nb < 248 && small[nb / 8 + 1] != [])
  {
    hide TrieOk;
    var i := nb / 8;
    if a :| a in sz && IsSmall(sz[a]) && (sz[a] == nb || sz[a] == nb + 8) {
      assert Binned(small, tries, sz, a);
    }
    assert SmallOk(m, i, small[i], sz) && (nb < 248 ==> SmallOk(m, i + 1, small[i + 1], sz));
    if small[i] != [] {
      var a := small[i][0];
      assert a in sz && sz[a] == nb;
    } else if nb < 248 && small[i + 1] != [] {
      var a := small[i + 1][0];
      assert a in sz && sz[a] == nb + 8;
    }
  }

  /** A small bin fits with nothing left but perhaps 8 bytes. */
  method ExactFit(ms: MallocState, nb: nat, i: nat) returns (mem: int)
    requires Valid(ms) && nb % 8 == 0 && i < NSMALLBINS && MIN_CHUNK_SIZE <= nb && nb / 8 <= i <= nb / 8 + 1
    requires |ms.small| == NSMALLBINS && ms.small[i] != [] && forall j :: nb / 8 <= j < i ==> ms.small[j] == []
    modifies ms`mem, ms`chunks, ms`smallmap, ms`small, ms`free
    ensures Valid(ms) && Preserves(old(ms.mem), old(ms.chunks), ms.mem, ms.chunks, {})
    ensures mem > 16 && NewBlock(old(ms.chunks), ms.chunks, mem - 16, nb) && BestFit(old(ms.free), nb, mem - 16)
    ensures Snug(old(ms.free), nb) && !NoFit(old(ms.free), nb)
  {
    hide HeapOk, BinsOk, Preserves, FreeOf, NewBlock;
    ghost var m, cs, sz := ms.mem, ms.chunks, ms.free;
    ghost var smallmap, treemap, small, tries := ms.smallmap, ms.treemap, ms.small, ms.tries;
    var p := FirstOfBin(ms, i);
    ghost var m2 := ms.mem;
    SmallLeast(m, smallmap, treemap, small, tries, sz, nb, i, p);
    TakeWhole(ms, p, 8 * i);
    BlockLess(cs, ms.chunks, p, 8 * i, nb);
    PreservesTrans(m, cs, m2, cs, ms.mem, ms.chunks, {});
    mem := p + 16;
  }

  /** A later small bin; the rest of the chunk becomes the designated victim. */
  method NextFit(ms: MallocState, nb: nat, i: nat) returns (mem: int)
    requires Valid(ms) && nb % 8 == 0 && MIN_CHUNK_SIZE <= nb && nb / 8 < i < NSMALLBINS && ms.dvsize < nb
    requires |ms.small| == NSMALLBINS && ms.small[i] != [] && forall j :: nb / 8 <= j < i ==> ms.small[j] == []
    modifies ms`mem, ms`chunks, ms`smallmap, ms`small, ms`free, ms`dv, ms`dvsize
    ensures Valid(ms) && Preserves(old(ms.mem), old(ms.chunks), ms.mem, ms.chunks, {})
    ensures mem > 16 && NewBlock(old(ms.chunks), ms.chunks, mem - 16, nb) && BestFit(old(ms.free), nb, mem - 16)
    ensures !NoFit(old(ms.free), nb)
  {
    hide HeapOk, BinsOk, Preserves, FreeOf, NewBlock;
    ghost var m, cs, sz := ms.mem, ms.chunks, ms.free;
    ghost var smallmap, treemap, small, tries := ms.smallmap, ms.treemap, ms.small, ms.tries;
    DvSmall(ms);
    var p := FirstOfBin(ms, i);
    ghost var m2 := ms.mem;
    SmallLeast(m, smallmap, treemap, small, tries, sz, nb, i, p);
    var rsize := 8 * i - nb;
    if rsize < MIN_CHUNK_SIZE {
      TakeWhole(ms, p, 8 * i);
      BlockLess(cs, ms.chunks, p, 8 * i, nb);
    } else {
      TakeSplitDv(ms, p, 8 * i, nb);
    }
    PreservesTrans(m, cs, m2, cs, ms.mem, ms.chunks, {});
    mem := p + 16;
  }

  // ---------------------------------------------------------------- all requests up to the system

  /** The chunk p that serves a request: the best fit of the bins, or else the designated victim, if it
      does better, or else the top chunk. */
  ghost predicate Chosen(sz: Sizes, dv: int, dvsize: int, top: int, topsize: int, nb: nat, p: int) {
    || BestFit(sz, nb, p)
    || (p == dv && nb <= dvsize && if nb < 256 then !Snug(sz, nb) else DvBetter(sz, dvsize, nb))
    || (p == top && nb < topsize && dvsize < nb && NoFit(sz, nb))
  }

  ghost predicate DvBetter(sz: Sizes, dvsize: int, nb: nat) { forall a :: Fitting(sz, nb, a) ==> nb <= dvsize <= sz[a] }

  /** Without tree bins there is nothing for a large request. */
  lemma NoTree(m: Mem, smallmap: nat, small: seq<seq<int>>, tries: seq<Trie>, sz: Sizes, nb: nat)
    requires BinsOk(m, smallmap, 0, small, tries, sz) && nb >= 256
    ensures NoFit(sz, nb)
  {
    hide SmallOk, TrieOk;
    forall a
      ensures !Fitting(sz, nb, a)
    {
      if a in sz {
        assert Binned(small, tries, sz, a);
        NoBits(0, TreeIndex(sz[a]));
      }
    }
  }

  lemma IsBest(sz: Sizes, nb: nat, v: int)
    requires Fitting(sz, nb, v) && forall a :: Fitting(sz, nb, a) ==> sz[a] >= sz[v]
    ensures BestFit(sz, nb, v)
  {}

  lemma FitOrNot(sz: Sizes, nb: nat, dvsize: int, v: int)
    ensures BestFit(sz, nb, v) ==> !NoFit(sz, nb)
    ensures NoFit(sz, nb) ==> !Snug(sz, nb) && DvBetter(sz, dvsize, nb)
    ensures DvBetter(sz, dvsize, nb) && dvsize < nb ==> NoFit(sz, nb)
  {
    if a :| a in sz && IsSmall(sz[a]) && (sz[a] == nb || sz[a] == nb + 8) {
      assert Fitting(sz, nb, a);
    }
  }

  lemma NothingSoLarge(m: Mem, cs: Chunks, nb: nat)
    requires Laid(cs) && Written(m, cs) && nb >= MAX_ADDR
    ensures NoFit(FreeOf(cs), nb)
  {
    hide Laid, Written, FreeOf;
    FreeBound(m, cs);
  }

  /** The first part of `lj_alloc_malloc`: the size of the chunk, and what the bins have for it. */
  method MallocFromBins(ms: MallocState, nsize: nat) returns (mem: int, nb: nat)
    requires Valid(ms) && nsize < W64
    modifies ms`mem, ms`chunks, ms`smallmap, ms`treemap, ms`small, ms`tries, ms`free, ms`dv, ms`dvsize
    ensures nb == if nsize >= MAX_REQUEST then MAX_SIZE_T else RequestToSize(nsize)
    ensures mem != 0 ==> mem > 16 && nsize < MAX_REQUEST && NewBlock(old(ms.chunks), ms.chunks, mem - 16, nb)
    ensures mem != 0 ==> BestFit(old(ms.free), nb, mem - 16)
    ensures mem == 0 ==> ms.mem == old(ms.mem) && ms.chunks == old(ms.chunks) && ms.dvsize == old(ms.dvsize) && ms.dv == old(ms.dv)
    ensures mem == 0 ==> NoFit(old(ms.free), nb) || (nb <= ms.dvsize && nsize < MAX_REQUEST)
    ensures mem == 0 ==> if nb < 256 then NoFit(old(ms.free), nb) || !Snug(old(ms.free), nb) else DvBetter(old(ms.free), ms.dvsize, nb)
    ensures Valid(ms) && Preserves(old(ms.mem), old(ms.chunks), ms.mem, ms.chunks, {})
  {
    hide HeapOk, BinsOk, Preserves, FreeOf, NewBlock, BestFit, NoFit, Snug, DvBetter, Laid, Written, RequestToSize, Fitting,
         SegmentsOk, Marked;
    ghost var m, cs, sz := ms.mem, ms.chunks, ms.free;
    HeapParts(ms);
    PreservesSelf(m, cs);
    mem := 0;
    if nsize < MAX_REQUEST { RequestFits(nsize); }
    if nsize <= MAX_SMALL_REQUEST {
      nb := RequestToSize(nsize);
      mem := MallocSmall(ms, nb);
    } else if nsize >= MAX_REQUEST {
      nb := MAX_SIZE_T;
      NothingSoLarge(m, cs, nb);
      FitOrNot(sz, nb, ms.dvsize, 0);
    } else {
      nb := RequestToSize(nsize);  // pad_request, since nsize is not small
      if ms.treemap != 0 {
        mem := TmallocLarge(ms, nb);
        if mem != 0 { IsBest(sz, nb, mem - 16); } else { IsBetter(sz, nb, ms.dvsize); }
      } else {
        NoTree(m, ms.smallmap, ms.small, ms.tries, sz, nb);
        FitOrNot(sz, nb, ms.dvsize, 0);
      }
    }
  }

  lemma IsBetter(sz: Sizes, nb: nat, dvsize: int)
    requires forall a :: Fitting(sz, nb, a) ==> nb <= dvsize <= sz[a]
    ensures DvBetter(sz, dvsize, nb) && (dvsize < nb ==> NoFit(sz, nb))
  {}

  /** `lj_alloc_malloc` without its last line.  If no chunk was found, nb is the size to ask the
      system for, and no free chunk of any kind can hold it. */
  method MallocFromHeap(ms: MallocState, nsize: nat) returns (mem: int, nb: nat)
    requires Valid(ms) && nsize < W64
    modifies ms`mem, ms`chunks, ms`smallmap, ms`treemap, ms`small, ms`tries, ms`free, ms`dv, ms`dvsize, ms`top, ms`topsize
    ensures nb == if nsize >= MAX_REQUEST then MAX_SIZE_T else RequestToSize(nsize)
    ensures mem == 0 <==> NoFit(old(ms.free), nb) && old(ms.dvsize) < nb && old(ms.topsize) <= nb
    ensures mem == 0 ==> ms.mem == old(ms.mem) && ms.chunks == old(ms.chunks)
    ensures mem != 0 ==> mem > 16 && nsize < MAX_REQUEST && NewBlock(old(ms.chunks), ms.chunks, mem - 16, nb)
    ensures mem != 0 ==> Chosen(old(ms.free), old(ms.dv), old(ms.dvsize), old(ms.top), old(ms.topsize), nb, mem - 16)
    ensures Valid(ms) && Preserves(old(ms.mem), old(ms.chunks), ms.mem, ms.chunks, {})
  {
    hide HeapOk, BinsOk, Preserves, FreeOf, NewBlock, BestFit, NoFit, Snug, DvBetter, Laid, Written, RequestToSize, Fitting,
         SegmentsOk, Marked;
    ghost var sz := ms.free;
    DvSmall(ms);
    mem, nb := MallocFromBins(ms, nsize);
    FitOrNot(sz, nb, old(ms.dvsize), mem - 16);
    if mem == 0 {
      DvSmall(ms);
      if nsize < MAX_REQUEST { RequestFits(nsize); }
      if nb <= ms.dvsize {
        mem := FromDv(ms, nb);
      } else if nb < ms.topsize {
        mem := FromTop(ms, nb);
      }
    }
  }
}
