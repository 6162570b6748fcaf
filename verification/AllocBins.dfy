/** The bins of the allocator (luajit/lj_alloc.c): every free chunk is in exactly one, the small
    bin of its exact size or the tree bin of its index, and the bitmaps tell which are not empty. */
module AllocBins {
  import opened Bits
  import opened AllocMem
  import opened AllocTrie

  type Sizes = map<int, nat>

  ghost predicate SmallOk(m: Mem, i: nat, xs: seq<int>, sz: Sizes) {
    && (xs != [] ==> Ring(m, [SmallBinAt(i)] + xs))
    && (forall j :: 0 <= j < |xs| ==> xs[j] in sz && sz[xs[j]] == 8 * i)
    && (forall j, l :: 0 <= j < l < |xs| ==> xs[j] != xs[l])
  }

  /** The chunk is in the bin where it belongs. */
  ghost predicate Binned(small: seq<seq<int>>, tries: seq<Trie>, sz: Sizes, a: int)
    requires a in sz && |small| == NSMALLBINS && |tries| == NTREEBINS
  {
    if IsSmall(sz[a]) then a in small[sz[a] / 8] else Large(sz[a]) && In(tries[TreeIndex(sz[a])], a)
  }

  /** The bins hold exactly the free chunks of sz. */
  ghost predicate BinsOk(m: Mem, smallmap: nat, treemap: nat, small: seq<seq<int>>, tries: seq<Trie>, sz: Sizes) {
    && |small| == NSMALLBINS && |tries| == NTREEBINS && Spread(sz)
    && (forall i :: 0 <= i < NSMALLBINS ==> SmallOk(m, i, small[i], sz))
    && (forall i :: 0 <= i < NTREEBINS ==> TrieOk(m, i, tries[i], sz))
    && (forall i: nat :: Bit(smallmap, i) <==> i < NSMALLBINS && small[i] != [])
    && (forall i: nat :: Bit(treemap, i) <==> i < NTREEBINS && tries[i] != map[])
    && (forall a :: a in sz ==> Binned(small, tries, sz, a))
  }

  /** The sizes in the heads of the free chunks. */
  ghost predicate HeadsOf(m: Mem, sz: Sizes) { forall a :: a in sz ==> ChunkSize(m, a) == sz[a] }

  /** c is a word of free chunk a that the bins may use. */
  predicate InChunk(sz: Sizes, a: int, c: int) { a in sz && a + 16 <= c < a + sz[a] }

  /** Only words in neg, and words of the chunks of S, differ. */
  ghost predicate Changed(m: Mem, m1: Mem, neg: set<int>, S: set<int>, sz: Sizes) {
    forall c :: R(m1, c) != R(m, c) ==> c in neg || exists a :: a in S && InChunk(sz, a, c)
  }

  lemma ChangedTrans(m: Mem, m1: Mem, m2: Mem, neg: set<int>, S: set<int>, sz: Sizes)
    requires Changed(m, m1, neg, S, sz) && Changed(m1, m2, neg, S, sz)
    ensures Changed(m, m2, neg, S, sz)
  {}

  /** A chunk outside of S keeps its words. */
  lemma ChangedElse(m: Mem, m1: Mem, neg: set<int>, S: set<int>, sz: Sizes, b: int, c: int)
    requires Changed(m, m1, neg, S, sz) && Spread(sz) && b in sz && b !in S && b + 16 <= c < b + sz[b]
    requires forall n :: n in neg ==> n < 0
    ensures R(m1, c) == R(m, c)
  {}

  lemma ChangedNot(m: Mem, m1: Mem, neg: set<int>, S: set<int>, sz: Sizes, c: int)
    requires Changed(m, m1, neg, S, sz) && Spread(sz) && c < 0 && c !in neg
    ensures R(m1, c) == R(m, c)
  {}

  /** Small bin i does not see changes to other chunks and headers. */
  lemma SmallFrame(m: Mem, m1: Mem, neg: set<int>, S: set<int>, sz: Sizes, i: nat, xs: seq<int>)
    requires SmallOk(m, i, xs, sz) && Changed(m, m1, neg, S, sz) && Spread(sz) && i < NSMALLBINS
    requires (forall n :: n in neg ==> n < 0) && SmallBinAt(i) + 16 !in neg && SmallBinAt(i) + 24 !in neg
    requires forall j :: 0 <= j < |xs| ==> xs[j] !in S
    ensures SmallOk(m1, i, xs, sz)
  {
    hide Changed;
    if xs != [] {
      var ys := [SmallBinAt(i)] + xs;
      forall j | 0 <= j < |ys|
        ensures Fd(m1, ys[j]) == Fd(m, ys[j]) && Bk(m1, ys[j]) == Bk(m, ys[j])
      {
        if j == 0 {
          ChangedNot(m, m1, neg, S, sz, ys[0] + 16);
          ChangedNot(m, m1, neg, S, sz, ys[0] + 24);
        } else {
          assert ys[j] == xs[j - 1];
          ChangedElse(m, m1, neg, S, sz, ys[j], ys[j] + 16);
          ChangedElse(m, m1, neg, S, sz, ys[j], ys[j] + 24);
        }
      }
      RingFrame(m, m1, ys);
    }
  }

  /** Tree bin i does not see changes to other chunks and headers. */
  lemma TreeFrame(m: Mem, m1: Mem, neg: set<int>, S: set<int>, sz: Sizes, i: nat, t: Trie)
    requires TrieOk(m, i, t, sz) && Changed(m, m1, neg, S, sz) && Spread(sz) && i < NTREEBINS
    requires (forall n :: n in neg ==> n < 0) && TreeBinAt(i) !in neg
    requires forall k, j :: k in t && 0 <= j < |t[k]| ==> t[k][j] !in S
    ensures TrieOk(m1, i, t, sz)
  {
    hide Changed, KeysOk, TreeLinked, RingLinked, TrieOk;
    forall k, j | k in t && 0 <= j < |t[k]|
      ensures SameWords(m, m1, t[k][j])
    {
      var a := t[k][j];
      assert a in sz && Large(sz[a]) by { KeysOfTrie(m, i, t, sz); SizesOfNodes(i, t, sz, k, j); }
      ChangedElse(m, m1, neg, S, sz, a, a + 16);
      ChangedElse(m, m1, neg, S, sz, a, a + 24);
      ChangedElse(m, m1, neg, S, sz, a, a + 32);
      ChangedElse(m, m1, neg, S, sz, a, a + 40);
      ChangedElse(m, m1, neg, S, sz, a, a + 48);
      ChangedElse(m, m1, neg, S, sz, a, a + 56);
    }
    ChangedNot(m, m1, neg, S, sz, TreeBinAt(i));
    TrieFrame(m, m1, i, t, sz);
  }

  lemma SizesOfNodes(i: nat, t: Trie, sz: Sizes, k: Key, j: nat)
    requires KeysOk(i, t, sz) && k in t && j < |t[k]|
    ensures t[k][j] in sz && Large(sz[t[k][j]]) && TreeIndex(sz[t[k][j]]) == i && sz[t[k][j]] == SizeAt(t, sz, k)
  {
    assert RingFits(i, sz, k, t[k]);
    assert Fits(i, sz, k, t[k][j]);
  }

  /** More free chunks, or fewer of those that are not in the bin, do not matter to a bin. */
  lemma SmallSizes(m: Mem, i: nat, xs: seq<int>, sz: Sizes, sz1: Sizes)
    requires SmallOk(m, i, xs, sz) && forall a :: a in xs ==> a in sz1 && sz1[a] == sz[a]
    ensures SmallOk(m, i, xs, sz1)
  {}

  lemma TreeSizes(m: Mem, i: nat, t: Trie, sz: Sizes, sz1: Sizes)
    requires TrieOk(m, i, t, sz) && forall a :: a in sz && In(t, a) ==> a in sz1 && sz1[a] == sz[a]
    ensures TrieOk(m, i, t, sz1)
  {
    hide TreeLinked, RingLinked, SizeAt;
    forall k | k in t
      ensures RingFits(i, sz1, k, t[k]) && SizeAt(t, sz1, k) == SizeAt(t, sz, k)
    {
      assert RingFits(i, sz, k, t[k]);
      forall j | 0 <= j < |t[k]|
        ensures t[k][j] in sz1 && sz1[t[k][j]] == sz[t[k][j]] && Fits(i, sz1, k, t[k][j])
      {
        assert Fits(i, sz, k, t[k][j]) && t[k][j] in t[k];
      }
      SizeAtSame(t, sz, sz1, k);
    }
  }

  lemma SizeAtSame(t: Trie, sz: Sizes, sz1: Sizes, k: Key)
    requires k in t && t[k] != [] && t[k][0] in sz && t[k][0] in sz1 && sz1[t[k][0]] == sz[t[k][0]]
    ensures SizeAt(t, sz1, k) == SizeAt(t, sz, k)
  {}

  // ---------------------------------------------------------------- state

  datatype Segment = Segment(base: int, size: int)

  /** What a chunk is used for.  Foot is the space behind the top chunk, Fence the end of a segment
      that does not hold the top chunk. */
  datatype Use = Used | Free | Dv | Top | Foot | Fence

  /** A chunk as the heap is laid out; pin tells whether the chunk before it is in use. */
  datatype Chunk = Chunk(size: nat, use: Use, pin: bool)

  /** A call for memory from the system, and what it answered. */
  datatype Ask = Ask(size: nat, base: int)

  /** `malloc_state`, all memory, and the system: its answer to each call for memory, by the number of
      calls before, may be anything. */
  class MallocState {
    const system: (nat, nat) -> int
    var asks: seq<Ask>
    var mem: Mem
    var smallmap: nat
    var treemap: nat
    var dvsize: int
    var topsize: int
    var dv: int
    var top: int
    var segs: seq<Segment>
    ghost var small: seq<seq<int>>   // the chunks in each small bin, in the order of its list
    ghost var tries: seq<Trie>
    ghost var free: Sizes            // the chunks in all bins
    ghost var chunks: map<int, Chunk>

    constructor (system: (nat, nat) -> int)
      ensures this.system == system && asks == []
      ensures mem == map[] && smallmap == treemap == 0 && dvsize == topsize == dv == top == 0 && segs == [] && free == map[]
      ensures small == seq(NSMALLBINS, _ => []) && tries == seq(NTREEBINS, _ => map[]) && chunks == map[]
    {
      this.system, asks := system, [];
      mem, smallmap, treemap, dvsize, topsize, dv, top, segs := map[], 0, 0, 0, 0, 0, 0, [];
      small, tries, free, chunks := seq(NSMALLBINS, _ => []), seq(NTREEBINS, _ => map[]), map[], map[];
    }

    ghost predicate BinsValid()
      reads this`mem, this`smallmap, this`treemap, this`small, this`tries, this`free
    {
      BinsOk(mem, smallmap, treemap, small, tries, free)
    }
  }

  // ---------------------------------------------------------------- small bins

  ghost function SetOf(xs: seq<int>): set<int> { set a | a in xs }

  /** A chunk is added to a small bin, in front. */
  lemma SmallInserted(m: Mem, i: nat, xs: seq<int>, sz: Sizes, p: int)
    requires i < NSMALLBINS && SmallOk(m, i, xs, sz) && p !in xs && p in sz && sz[p] == 8 * i && Spread(sz)
    ensures var b := SmallBinAt(i); var f := if xs == [] then b else Fd(m, b);
            && SmallOk(LinkIn(m, b, f, p), i, [p] + xs, sz)
            && Changed(m, LinkIn(m, b, f, p), {b + 16, b + 24}, SetOf([p] + xs), sz)
  {
    hide SetOf, Changed, LinkIn;
    var b := SmallBinAt(i);
    var f := if xs == [] then b else Fd(m, b);
    SmallRing(m, i, xs, sz, p);
    SmallMembers(m, LinkIn(m, b, f, p), i, xs, sz, p);
    SmallChanged(m, b, f, p, SetOf([p] + xs), sz);
  }

  /** The members of a small bin with one more. */
  lemma SmallMembers(m: Mem, m1: Mem, i: nat, xs: seq<int>, sz: Sizes, p: int)
    requires i < NSMALLBINS && SmallOk(m, i, xs, sz) && p !in xs && p in sz && sz[p] == 8 * i
    requires Ring(m1, [SmallBinAt(i)] + ([p] + xs))
    ensures SmallOk(m1, i, [p] + xs, sz) && p in SetOf([p] + xs)
    ensures xs != [] ==> Fd(m, SmallBinAt(i)) in SetOf([p] + xs) && Fd(m, SmallBinAt(i)) in sz
  {
    if xs != [] {
      var ys := [SmallBinAt(i)] + xs;
      assert Linked(m, ys[0], ys[Next(|ys|, 0)]);
      assert xs[0] in [p] + xs;
    }
  }

  /** The circle with the new chunk. */
  lemma SmallRing(m: Mem, i: nat, xs: seq<int>, sz: Sizes, p: int)
    requires i < NSMALLBINS && SmallOk(m, i, xs, sz) && p !in xs && p in sz && sz[p] == 8 * i && Spread(sz)
    ensures var b := SmallBinAt(i); var f := if xs == [] then b else Fd(m, b);
            Ring(LinkIn(m, b, f, p), [b] + ([p] + xs))
  {
    var b := SmallBinAt(i);
    var f, ys := if xs == [] then b else Fd(m, b), [b] + xs;
    if xs == [] {
      assert Linked(LinkIn(m, b, f, p), b, p) && Linked(LinkIn(m, b, f, p), p, b);
    } else {
      SmallApart(i, xs, sz);
      RingOfTwo(m, ys, 0);
      assert forall j :: 0 <= j < |ys| ==> Away(ys[j], p) by {
        forall j | 0 <= j < |xs| ensures Away(xs[j], p) { Separate(sz, xs[j], p); }
      }
      RingInsert(m, ys, p);
      assert [ys[0], p] + ys[1..] == [b] + ([p] + xs);
    }
  }

  lemma SmallChanged(m: Mem, b: int, f: int, p: int, S: set<int>, sz: Sizes)
    requires p in S && p in sz && (f == b || (f in S && f in sz)) && Spread(sz)
    ensures Changed(m, LinkIn(m, b, f, p), {b + 16, b + 24}, S, sz)
  {
    var m1 := LinkIn(m, b, f, p);
    forall c | R(m1, c) != R(m, c)
      ensures c in {b + 16, b + 24} || exists a :: a in S && InChunk(sz, a, c)
    {
      assert InChunk(sz, p, p + 16) && InChunk(sz, p, p + 24);
      assert f != b ==> InChunk(sz, f, f + 24);
    }
  }

  lemma SmallApart(i: nat, xs: seq<int>, sz: Sizes)
    requires i < NSMALLBINS && Spread(sz) && forall j :: 0 <= j < |xs| ==> xs[j] in sz
    requires forall j, l :: 0 <= j < l < |xs| ==> xs[j] != xs[l]
    ensures Apart([SmallBinAt(i)] + xs)
  {
    var ys := [SmallBinAt(i)] + xs;
    forall j, l | 0 <= j < |ys| && 0 <= l < |ys| && j != l
      ensures Away(ys[j], ys[l])
    {
      if j > 0 && l > 0 { Separate(sz, xs[j - 1], xs[l - 1]); }
    }
  }

  /** A chunk is taken out of a small bin that holds more. */
  lemma SmallRemoved(m: Mem, i: nat, xs: seq<int>, sz: Sizes, j: nat)
    requires i < NSMALLBINS && SmallOk(m, i, xs, sz) && Spread(sz) && j < |xs|
    ensures Fd(m, xs[j]) == Bk(m, xs[j]) <==> |xs| == 1
    ensures |xs| > 1 ==>
              var m1 := LinkOut(m, Fd(m, xs[j]), Bk(m, xs[j]));
              && SmallOk(m1, i, xs[..j] + xs[j + 1..], sz)
              && Changed(m, m1, {SmallBinAt(i) + 16, SmallBinAt(i) + 24}, SetOf(xs), sz)
    ensures Fd(m, xs[j]) == SmallBinAt(i) || Fd(m, xs[j]) in xs
    ensures j == 0 ==> Bk(m, xs[j]) == SmallBinAt(i) && Fd(m, SmallBinAt(i)) == xs[j]
  {
    hide Ring, Apart, Changed, LinkOut;
    var ys := [SmallBinAt(i)] + xs;
    SmallApart(i, xs, sz);
    RingOfTwo(m, ys, j + 1);
    RingOfTwo(m, ys, 0);
    assert ys[j + 1] == xs[j];
    if |xs| > 1 {
      RingRemove(m, ys, j + 1);
      HeaderIn(SmallBinAt(i), xs, j);
      var n := Next(|ys|, j + 1);
      SmallUnlinked(m, i, ys[n], ys[j], SetOf(xs), sz);
      ShorterDistinct(xs, j);
    }
  }

  lemma HeaderIn(b: int, xs: seq<int>, j: nat)
    requires j < |xs|
    ensures var ys := [b] + xs; ys[..j + 1] + ys[j + 2..] == [b] + (xs[..j] + xs[j + 1..])
  {
    var ys := [b] + xs;
    assert ys[..j + 1] == [b] + xs[..j];
    assert ys[j + 2..] == xs[j + 1..];
  }

  lemma ShorterDistinct(xs: seq<int>, j: nat)
    requires j < |xs| && forall c, l :: 0 <= c < l < |xs| ==> xs[c] != xs[l]
    ensures var ys := xs[..j] + xs[j + 1..];
            && (forall c, l :: 0 <= c < l < |ys| ==> ys[c] != ys[l])
            && (forall c :: 0 <= c < |ys| ==> ys[c] in xs && ys[c] != xs[j])
            && (forall a :: a in xs && a != xs[j] ==> a in ys)
  {
    var ys := xs[..j] + xs[j + 1..];
    assert forall c :: 0 <= c < |ys| ==> ys[c] == xs[if c < j then c else c + 1];
    assert forall c :: 0 <= c < |xs| && c != j ==> xs[c] == ys[if c < j then c else c - 1];
  }

  lemma SmallUnlinked(m: Mem, i: nat, f: int, b: int, S: set<int>, sz: Sizes)
    requires (f == SmallBinAt(i) || (f in S && f in sz)) && (b == SmallBinAt(i) || (b in S && b in sz)) && Spread(sz)
    ensures Changed(m, LinkOut(m, f, b), {SmallBinAt(i) + 16, SmallBinAt(i) + 24}, S, sz)
  {
    var m1 := LinkOut(m, f, b);
    forall c | R(m1, c) != R(m, c)
      ensures c in {SmallBinAt(i) + 16, SmallBinAt(i) + 24} || exists a :: a in S && InChunk(sz, a, c)
    {
      assert f != SmallBinAt(i) ==> InChunk(sz, f, f + 24);
      assert b != SmallBinAt(i) ==> InChunk(sz, b, b + 16);
    }
  }
}
