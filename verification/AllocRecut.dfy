/** A chunk in use and what follows it are cut anew (luajit/lj_alloc.c): a block shrinks or grows, and
    memory is put in front of a segment. */
module AllocRecut {
  import opened AllocMem
  import opened AllocTrie
  import opened AllocBins
  import opened AllocHeap
  import opened AllocSteps
  import opened AllocMalloc
  import opened AllocFree

  /** How the marks follow the chunks from lo to hi, when the part from mid on gets the given use. */
  predicate Cutting(lo: int, mid: int, hi: int, use: Use, dv: int, dvsize: int, top: int, topsize: int,
                    dv1: int, dvsize1: int, top1: int, topsize1: int) {
    var dvIn := dvsize != 0 && lo <= dv < hi;
    match use
    case Dv => dvIn && !(lo <= top < hi) && dv1 == mid && dvsize1 == hi - mid && top1 == top && topsize1 == topsize
    case Top => !dvIn && lo <= top < hi && hi == top + topsize && top1 == mid && topsize1 == hi - mid && dv1 == dv && dvsize1 == dvsize
    case Foot => false
    case Fence => false
    case _ => !dvIn && !(lo <= top < hi) && dv1 == dv && dvsize1 == dvsize && top1 == top && topsize1 == topsize
  }

  lemma MarksCut(cs: Chunks, lo: int, mid: int, hi: int, use: Use, dv: int, dvsize: int, top: int, topsize: int,
                 dv1: int, dvsize1: int, top1: int, topsize1: int)
    requires Marked(cs, dv, dvsize, top, topsize) && lo in cs && hi in cs && lo < mid < hi && 0 < lo
    requires Cutting(lo, mid, hi, use, dv, dvsize, top, topsize, dv1, dvsize1, top1, topsize1)
    requires forall q :: q in cs && lo <= q < hi ==> !IsEnd(cs[q].use)
    ensures Marked(Carve2(cs, lo, mid, hi, Used, use), dv1, dvsize1, top1, topsize1)
  {}

  lemma FreeCut(cs: Chunks, lo: int, mid: int, hi: int, use: Use)
    requires lo in cs && hi in cs && lo < mid < hi
    ensures var cs1 := Carve2(cs, lo, mid, hi, Used, use);
            && lo in cs1 && cs1[lo] == Chunk(mid - lo, Used, cs[lo].pin) && mid in cs1 && cs1[mid] == Chunk(hi - mid, use, true)
            && FreeOf(cs1) == if use == Free then Removed(FreeOf(cs), lo, hi)[mid := hi - mid] else Removed(FreeOf(cs), lo, hi)
  {
    var f1 := FreeOf(Carve2(cs, lo, mid, hi, Used, use));
    var f2 := if use == Free then Removed(FreeOf(cs), lo, hi)[mid := hi - mid] else Removed(FreeOf(cs), lo, hi);
    assert forall q :: q in f1 <==> q in f2;
    assert forall q :: q in f1 ==> f1[q] == f2[q];
  }

  /** What is written for the two new chunks. */
  ghost predicate CutHeads(m: Mem, m1: Mem, cs: Chunks, lo: int, mid: int, hi: int, use: Use)
    requires lo in cs && hi in cs && lo < mid < hi
  {
    && OnlyHeads(m, m1, lo, mid, hi) && Head(m1, lo) == HeadWord(Chunk(mid - lo, Used, cs[lo].pin))
    && Head(m1, mid) == HeadWord(Chunk(hi - mid, use, true)) && Head(m1, hi) == HeadWord(cs[hi].(pin := !IsFree(use)))
    && (use == Free || use == Dv ==> PrevFoot(m1, hi) == hi - mid)
  }

  lemma Recut(m: Mem, m1: Mem, cs: Chunks, segs: seq<Segment>, dv: int, dvsize: int, top: int, topsize: int, lo: int, mid: int, hi: int,
              use: Use, dv1: int, dvsize1: int, top1: int, topsize1: int)
    requires lo in cs && hi in cs && lo < mid < hi && Chain(cs, lo, hi) && cs[lo].use == Used && (IsFree(use) ==> !IsFree(cs[hi].use))
    requires mid % 8 == 0 && lo + MIN_CHUNK_SIZE <= mid && mid + (if use == Top then 8 else MIN_CHUNK_SIZE) <= hi
    requires Cutting(lo, mid, hi, use, dv, dvsize, top, topsize, dv1, dvsize1, top1, topsize1)
    requires CutHeads(m, m1, cs, lo, mid, hi, use)
    requires forall q :: q in cs && lo <= q < hi && cs[q].use == Used ==> q == lo
    requires HeapOk(m, cs, segs, dv, dvsize, top, topsize)
    ensures var cs1 := Carve2(cs, lo, mid, hi, Used, use);
            && Preserves(m, cs, m1, cs1, {lo}) && HeapOk(m1, cs1, segs, dv1, dvsize1, top1, topsize1)
  {
    hide Laid, SegmentsOk, Written, Preserves, Marked, Carve2, OnlyHeads, Chain, FreeOf, Removed;
    LaidAt(cs, lo);
    LaidAt(cs, hi);
    ChainAligned(cs, segs, lo, hi);
    Carve2Laid(cs, lo, mid, hi, Used, use);
    Carve2Segments(cs, segs, lo, mid, hi, Used, use);
    Carve2Written(m, m1, cs, lo, mid, hi, Used, use);
    OnlyUsed(m, cs, m1, Carve2(cs, lo, mid, hi, Used, use), lo, hi, lo);
    MarksCut(cs, lo, mid, hi, use, dv, dvsize, top, topsize, dv1, dvsize1, top1, topsize1);
  }

  /** The bins do not notice. */
  lemma RecutBins(m: Mem, m1: Mem, cs: Chunks, lo: int, mid: int, hi: int, smallmap: nat, treemap: nat, small: seq<seq<int>>,
                  tries: seq<Trie>, sz: Sizes)
    requires lo in cs && hi in cs && lo < mid < hi && OnlyHeads(m, m1, lo, mid, hi) && sz == Removed(FreeOf(cs), lo, hi)
    requires Laid(cs) && BinsOk(m, smallmap, treemap, small, tries, sz)
    ensures mid !in sz && BinsOk(m1, smallmap, treemap, small, tries, sz)
  {
    hide BinsOk, FreeOf, Laid, InLayout, OnlyForeign, OnlyHeads;
    RemovedLaid(cs, lo, hi);
    HeadsForeign(m, m1, cs, sz, lo, mid, hi);
    BinsUntouched(m, m1, smallmap, treemap, small, tries, sz);
  }

  /** What is written keeps the words of the first chunk, as far as they belong to both the old and the new. */
  lemma RecutKept(m: Mem, m1: Mem, lo: int, mid: int, hi: int, n: int)
    requires OnlyHeads(m, m1, lo, mid, hi) && lo + n <= mid && mid + 8 <= hi && n >= 0
    ensures Kept(m, m1, lo, n)
  {}

  lemma CutBins(m: Mem, m1: Mem, cs: Chunks, lo: int, mid: int, hi: int, use: Use, smallmap: nat, treemap: nat, small: seq<seq<int>>,
                  tries: seq<Trie>, sz: Sizes)
    requires lo in cs && hi in cs && lo < mid < hi && CutHeads(m, m1, cs, lo, mid, hi, use) && sz == Removed(FreeOf(cs), lo, hi)
    requires Laid(cs) && BinsOk(m, smallmap, treemap, small, tries, sz)
    ensures mid !in sz && BinsOk(m1, smallmap, treemap, small, tries, sz)
  {
    hide BinsOk, Laid, Removed, FreeOf, OnlyHeads;
    RecutBins(m, m1, cs, lo, mid, hi, smallmap, treemap, small, tries, sz);
  }

  lemma CutKept(m: Mem, m1: Mem, cs: Chunks, lo: int, mid: int, hi: int, use: Use, n: int)
    requires lo in cs && hi in cs && lo < mid && lo + n <= mid && mid + 8 <= hi && n >= 0 && CutHeads(m, m1, cs, lo, mid, hi, use)
    ensures Kept(m, m1, lo, n)
  {
    RecutKept(m, m1, lo, mid, hi, n);
  }
}
