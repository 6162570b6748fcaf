/** `unlink_large_chunk` of the allocator (luajit/lj_alloc.c), as it walks through memory. */
module AllocUnlinkOps {
  import opened Bits
  import opened AllocMem
  import opened AllocTrie
  import opened AllocUnlink
  import opened AllocBins
  import opened AllocBinOps
  import opened AllocTreeOps

  /** t1 holds the chunks of t, except x. */
  ghost predicate Without(t: Trie, t1: Trie, x: int) { forall a :: In(t1, a) <==> a != x && In(t, a) }

  /** The state of the bins after chunk x was taken out of tree bin i. */
  lemma RemovedLarge(ms: MallocState, m: Mem, treemap: nat, tries: seq<Trie>, sz: Sizes, i: nat, x: int, t: Trie)
    requires BinsOk(m, ms.smallmap, treemap, ms.small, tries, sz) && i < NTREEBINS && x in sz && Large(sz[x]) && TreeIndex(sz[x]) == i
    requires TrieOk(ms.mem, i, t, sz) && Without(tries[i], t, x)
    requires Changed(m, ms.mem, {TreeBinAt(i)}, Elems(tries[i]), sz)
    requires forall j: nat :: Bit(ms.treemap, j) <==> Bit(treemap, j) && !(j == i && t == map[])
    ensures BinsOk(ms.mem, ms.smallmap, ms.treemap, ms.small, tries[i := t], sz - {x})
    ensures OnlyFree(m, ms.mem, sz)
  {
    hide TrieOk, Spread, Changed, In, Elems, SmallOk;
    var sz1, S := sz - {x}, Elems(tries[i]);
    SpreadLess(sz, x);
    assert forall a :: In(t, a) && a in sz ==> a in sz1 && sz1[a] == sz[a];
    TreeSizes(ms.mem, i, t, sz, sz1);
    ElemsIndex(i, tries[i], sz) by { KeysOfTrie(m, i, tries[i], sz); }
    ChangedFree(m, ms.mem, {TreeBinAt(i)}, S, sz);
    forall a | a in sz1 && Large(sz1[a]) && TreeIndex(sz1[a]) == i
      ensures In(t, a)
    {
      assert Binned(ms.small, tries, sz, a);
    }
    assert tries[i] != map[] by {
      assert Binned(ms.small, tries, sz, x) && In(tries[i], x);
      NotEmpty(tries[i], x);
    }
    BinsUpdateTree(m, ms.mem, ms.smallmap, treemap, ms.treemap, ms.small, tries, sz, sz1, sz, i, S, t);
  }

  lemma NotEmpty(t: Trie, x: int)
    requires In(t, x)
    ensures t != map[]
  {}

  /** Where a chunk is in the trie. */
  lemma Locate(m: Mem, i: nat, t: Trie, sz: Sizes, x: int) returns (k: Key, j: nat)
    requires TrieOk(m, i, t, sz) && Spread(sz) && In(t, x)
    ensures k in t && j < |t[k]| && t[k][j] == x && RingLinked(m, i, t[k]) && Ring(m, t[k]) && Apart(t[k])
    ensures Index(m, x) == i && (j >= 1 ==> Bare(m, x)) && (j == 0 ==> TreeLinked(m, i, t, k) && NodeAt(t, k) == x)
  {
    k :| k in t && x in t[k];
    j :| 0 <= j < |t[k]| && t[k][j] == x;
    NodeIn(m, i, t, sz, k);
    RingApart(i, t, sz, k);
  }

  // ---------------------------------------------------------------- the search for a leaf

  /** The search is at key l below k; RP is where the pointer to its node lies. */
  predicate Descending(i: nat, t: Trie, k: Key, l: Key, r: int, rp: int) {
    l in t && l.d > k.d && Below(k, l) && r == NodeAt(t, l) && rp == SlotOf(i, t, l)
  }

  lemma Descend(m: Mem, i: nat, t: Trie, sz: Sizes, k: Key, l: Key, b: nat)
    requires TrieOk(m, i, t, sz) && Spread(sz) && l in t && b < 2 && (l == k || Below(k, l))
    ensures Child(m, NodeAt(t, l), b) == NodeAt(t, Kid(l, b)) && (NodeAt(t, Kid(l, b)) != 0 <==> Kid(l, b) in t)
    ensures Kid(l, b) in t ==> Descending(i, t, k, Kid(l, b), NodeAt(t, Kid(l, b)), NodeAt(t, l) + 32 + 8 * b)
  {
    hide KeysOk, RingLinked, RingFits, Spread, TrieOk, Below, SlotOf, R;
    KeysOfTrie(m, i, t, sz);
    NodeIn(m, i, t, sz, l);
    if Kid(l, b) in t {
      NodeIn(m, i, t, sz, Kid(l, b));
      NodesPositive(i, t, sz, Kid(l, b));
    }
    BelowSelf(k);
    BelowKid(k, l, b);
    BelowDepth(k, l);
    SlotOfKid(i, t, l, b);
  }

  lemma BelowSelf(k: Key)
    ensures Below(k, k)
  {}

  lemma BelowDepth(k: Key, l: Key)
    requires Below(k, l)
    ensures k.d <= l.d
  {}

  /** Depth is bounded. */
  lemma DepthBound(m: Mem, i: nat, t: Trie, sz: Sizes, l: Key)
    requires TrieOk(m, i, t, sz) && l in t
    ensures l.d <= Width(i)
  {
    FirstFits(i, t, sz, l);
  }

  /** The part of `unlink_large_chunk` for a chunk that is the only one of its size: cuts off a leaf
      below it, if there is one. */
  method CutLeaf(ms: MallocState, x: int, ghost i: nat, ghost t: Trie, ghost sz: Sizes, ghost k: Key)
    returns (r: int, ghost l: Key)
    requires TrieOk(ms.mem, i, t, sz) && Spread(sz) && k in t && NodeAt(t, k) == x && i < NTREEBINS
    modifies ms`mem
    ensures r == 0 ==> Kid(k, 0) !in t && Kid(k, 1) !in t && ms.mem == old(ms.mem)
    ensures r != 0 ==>
              && l in t && l.d > k.d && Below(k, l) && r == NodeAt(t, l) && Kid(l, 0) !in t && Kid(l, 1) !in t
              && ms.mem == old(ms.mem)[SlotOf(i, t, l) := 0]
  {
    hide TrieOk, Spread, Below, SlotOf, Descending, NodeAt;
    ghost var m := ms.mem;
    l := k;
    Descend(m, i, t, sz, k, k, 1);
    Descend(m, i, t, sz, k, k, 0);
    var rp := x + 40;
    r := R(ms.mem, rp);
    if r == 0 {
      rp := x + 32;
      r := R(ms.mem, rp);
      l := Kid(k, 0);
    } else {
      l := Kid(k, 1);
    }
    if r == 0 { return; }
    DepthBound(m, i, t, sz, l) by { DescendingAt(i, t, k, l, r, rp); }
    while true
      invariant ms.mem == m && Descending(i, t, k, l, r, rp) && l.d <= Width(i) && r != 0
      decreases Width(i) - l.d
    {
      DescendingAt(i, t, k, l, r, rp);
      DepthBound(m, i, t, sz, l);
      Descend(m, i, t, sz, k, l, 1);
      Descend(m, i, t, sz, k, l, 0);
      var cp := r + 40;
      if R(ms.mem, cp) != 0 {
        l := Kid(l, 1);
      } else {
        cp := r + 32;
        if R(ms.mem, cp) == 0 { break; }
        l := Kid(l, 0);
      }
      DepthBound(m, i, t, sz, l) by { DescendingAt(i, t, k, l, R(ms.mem, cp), cp); }
      r, rp := R(ms.mem, cp), cp;
    }
    ms.mem := ms.mem[rp := 0];
  }

  lemma DescendingAt(i: nat, t: Trie, k: Key, l: Key, r: int, rp: int)
    requires Descending(i, t, k, l, r, rp)
    ensures l in t && l.d > k.d && Below(k, l) && r == NodeAt(t, l) && rp == SlotOf(i, t, l)
  {}

  // ---------------------------------------------------------------- replacing a node

  /** The pointer to the node at k, as the code finds it. */
  lemma SlotFound(m: Mem, i: nat, t: Trie, sz: Sizes, k: Key)
    requires TrieBut(m, i, t, sz, k) && Spread(sz) && i < NTREEBINS
    ensures var x, xp, slot := NodeAt(t, k), Parent(m, NodeAt(t, k)), SlotOf(i, t, k);
            && xp == ParentOf(i, t, k) && xp != 0 && x != 0
            && slot == (if R(m, TreeBinAt(i)) == x then TreeBinAt(i) else if Child(m, xp, 0) == x then xp + 32 else xp + 40)
            && (R(m, TreeBinAt(i)) == x <==> k.d == 0)
  {
    hide KeysOk, RingLinked, RingFits, Spread, R, Fits, TrieBut, TreeLinked, NodeAt;
    NodeBut(m, i, t, sz, k, k);
    RootBut(m, i, t, sz, k);
    InBut(m, i, t, sz, k);
    ParentField(m, i, t, k);
    if k.d == 0 {
      FirstFits(i, t, sz, k);
      RootQ(i, sz, k, t[k][0]);
    } else {
      NodeBut(m, i, t, sz, k, Up(k));
      NotBoth(m, i, t, sz, k, RootKey(i));
      var other := Kid(Up(k), 1 - k.q % 2);
      assert Kid(Up(k), k.q % 2) == k && other != k;
      NotBoth(m, i, t, sz, k, other);
      ChildFields(m, i, t, Up(k));
    }
  }

  lemma RootBut(m: Mem, i: nat, t: Trie, sz: Sizes, k: Key)
    requires TrieBut(m, i, t, sz, k)
    ensures R(m, TreeBinAt(i)) == NodeAt(t, RootKey(i))
  {}

  lemma ParentField(m: Mem, i: nat, t: Trie, k: Key)
    requires TreeLinked(m, i, t, k)
    ensures Parent(m, NodeAt(t, k)) == ParentOf(i, t, k)
  {}

  lemma ChildFields(m: Mem, i: nat, t: Trie, k: Key)
    requires TreeLinked(m, i, t, k)
    ensures Child(m, NodeAt(t, k), 0) == NodeAt(t, Kid(k, 0)) && Child(m, NodeAt(t, k), 1) == NodeAt(t, Kid(k, 1))
  {}

  /** No other key holds the same node. */
  lemma NotBoth(m: Mem, i: nat, t: Trie, sz: Sizes, k: Key, l: Key)
    requires TrieBut(m, i, t, sz, k) && Spread(sz) && k != l && k in t
    ensures NodeAt(t, l) != NodeAt(t, k)
  {
    hide TrieBut, Spread;
    NodeBut(m, i, t, sz, k, k);
    NodeBut(m, i, t, sz, k, l);
    if l in t { NodesClear(m, i, t, sz, k, l, k); }
  }

  /** The end of `unlink_large_chunk` for a node of the tree: r, or nothing, takes its place. */
  method Replace(ms: MallocState, x: int, xp: int, r: int, ghost i: nat, ghost t: Trie, ghost sz: Sizes, ghost k: Key)
    requires TrieBut(ms.mem, i, t, sz, k) && Spread(sz) && i < NTREEBINS && k in t && x == NodeAt(t, k)
    requires xp == Parent(ms.mem, x) && Index(ms.mem, x) == i
    modifies ms`mem, ms`treemap
    ensures ms.mem == if r == 0 then old(ms.mem)[SlotOf(i, t, k) := 0]
                      else Transplant(old(ms.mem), SlotOf(i, t, k), ParentOf(i, t, k), r, x)
    ensures forall j: nat :: Bit(ms.treemap, j) <==> Bit(old(ms.treemap), j) && !(j == i && r == 0 && k.d == 0)
  {
    hide TrieBut, Spread, SlotOf, ParentOf;
    SlotFound(ms.mem, i, t, sz, k);
    ClearAll(ms.treemap, i);
    var index := Index(ms.mem, x);
    var H := TreeBinAt(index);
    if x == R(ms.mem, H) {
      ms.mem := ms.mem[H := r];
      if r == 0 { ms.treemap := Clear(ms.treemap, index); }
    } else if Child(ms.mem, xp, 0) == x {
      ms.mem := ms.mem[xp + 32 := r];
    } else {
      ms.mem := ms.mem[xp + 40 := r];
    }
    if r != 0 {
      ms.mem := ms.mem[r + 48 := xp];
      var c0 := Child(ms.mem, x, 0);
      if c0 != 0 { ms.mem := ms.mem[r + 32 := c0][c0 + 48 := r]; }
      var c1 := Child(ms.mem, x, 1);
      if c1 != 0 { ms.mem := ms.mem[r + 40 := c1][c1 + 48 := r]; }
    }
  }

  /** Everything that `unlink_large_chunk` needs to have done. */
  ghost predicate Gone(m: Mem, m1: Mem, i: nat, t: Trie, t1: Trie, sz: Sizes, x: int) {
    && TrieOk(m1, i, t1, sz) && Without(t, t1, x) && Changed(m, m1, {TreeBinAt(i)}, Elems(t), sz)
  }

  /** A chunk that is not a node. */
  lemma GoneInner(m: Mem, m1: Mem, i: nat, t: Trie, sz: Sizes, k: Key, j: nat)
    requires TrieOk(m, i, t, sz) && Spread(sz) && k in t && 1 <= j < |t[k]| && i < NTREEBINS
    requires m1 == LinkOut(m, Fd(m, t[k][j]), Bk(m, t[k][j]))
    ensures Gone(m, m1, i, t, t[k := t[k][..j] + t[k][j + 1..]], sz, t[k][j])
  {
    hide TrieOk, Spread, Changed, In, Elems, KeysOk, LinkOut, Ring, Apart, Without;
    KeysOfTrie(m, i, t, sz);
    RemoveInner(m, i, t, sz, k, j);
    RingEnds(m, i, t, sz, k, j);
    OutIn(i, t, sz, k, j);
  }

  /** The neighbours of a chunk in its ring. */
  lemma RingEnds(m: Mem, i: nat, t: Trie, sz: Sizes, k: Key, j: nat)
    requires TrieOk(m, i, t, sz) && Spread(sz) && k in t && j < |t[k]| && i < NTREEBINS
    ensures Fd(m, t[k][j]) == t[k][Next(|t[k]|, j)] && Bk(m, t[k][j]) == t[k][if j > 0 then j - 1 else |t[k]| - 1]
    ensures Bk(m, t[k][j]) == t[k][j] <==> |t[k]| == 1
    ensures Changed(m, LinkOut(m, Fd(m, t[k][j]), Bk(m, t[k][j])), {TreeBinAt(i)}, Elems(t), sz)
  {
    hide TrieOk, Spread, Changed, In, Elems, KeysOk, LinkOut, Ring, Apart;
    KeysOfTrie(m, i, t, sz);
    NodeIn(m, i, t, sz, k);
    RingIsLinked(m, i, t[k]);
    RingApart(i, t, sz, k);
    RingOfTwo(m, t[k], j);
    InElems(i, t, sz, k, Next(|t[k]|, j));
    InElems(i, t, sz, k, if j > 0 then j - 1 else |t[k]| - 1);
    ChangedLinkOut(m, Fd(m, t[k][j]), Bk(m, t[k][j]), {TreeBinAt(i)}, Elems(t), sz);
  }

  lemma OutIn(i: nat, t: Trie, sz: Sizes, k: Key, j: nat)
    requires KeysOk(i, t, sz) && k in t && j < |t[k]|
    ensures Without(t, t[k := t[k][..j] + t[k][j + 1..]], t[k][j])
  {
    hide KeysOk, Fits;
    RingDistinct(i, t, sz, k);
    ShorterDistinct(t[k], j);
    RingOut(i, t, sz, k, t[k][..j] + t[k][j + 1..], j);
  }

  lemma RingDistinct(i: nat, t: Trie, sz: Sizes, k: Key)
    requires KeysOk(i, t, sz) && k in t
    ensures forall c, l :: 0 <= c < l < |t[k]| ==> t[k][c] != t[k][l]
  {
    assert RingFits(i, sz, k, t[k]);
  }

  /** The trie when the ring at k loses one chunk and is perhaps rotated. */
  lemma RingOut(i: nat, t: Trie, sz: Sizes, k: Key, ys: seq<int>, j: nat)
    requires KeysOk(i, t, sz) && k in t && j < |t[k]| && forall a :: a in ys <==> a in t[k] && a != t[k][j]
    ensures Without(t, t[k := ys], t[k][j])
  {
    hide KeysOk;
    var t1 := t[k := ys];
    forall a
      ensures In(t1, a) <==> a != t[k][j] && In(t, a)
    {
      if In(t, a) && a != t[k][j] { var l :| l in t && a in t[l]; assert l in t1 && a in t1[l]; }
      if In(t1, a) {
        var l :| l in t1 && a in t1[l];
        assert l in t && a in t[l];
        var c :| 0 <= c < |t[l]| && t[l][c] == a;
        if a == t[k][j] { DistinctNodes(i, t, sz, k, l, j, c); }
      }
    }
  }

  // ---------------------------------------------------------------- a node that shares its size

  /** Links of the ring at k change, the tree and the other rings do not. */
  lemma ButFrame(m: Mem, m1: Mem, i: nat, t: Trie, sz: Sizes, k: Key, fb: seq<int>)
    requires TrieOk(m, i, t, sz) && Spread(sz) && k in t && OnlyLinks(m, m1, fb) && R(m1, TreeBinAt(i)) == R(m, TreeBinAt(i))
    requires forall e :: 0 <= e < |fb| ==> fb[e] in t[k]
    ensures TrieBut(m1, i, t, sz, k)
  {
    hide KeysOk, RingLinked, OnlyLinks, TreeLinked, RingFits, SizeAt, Spread, R;
    KeysOfTrie(m, i, t, sz);
    forall l | l in t
      ensures TreeLinked(m1, i, t, l) && (l != k ==> RingLinked(m1, i, t[l]))
    {
      NodeIn(m, i, t, sz, l);
      forall j | 0 <= j < |t[l]|
        ensures SameOthers(m, m1, t[l][j]) && (l != k ==> SameWords(m, m1, t[l][j]))
      {
        forall e | 0 <= e < |fb|
          ensures fb[e] == t[l][j] || Apart64(fb[e], t[l][j])
          ensures l != k ==> fb[e] != t[l][j]
        {
          assert fb[e] in t[k];
          var c :| 0 <= c < |t[k]| && t[k][c] == fb[e];
          if l != k || c != j { NodesDiffer(i, t, sz, k, c, l, j); }
        }
        LinksElse(m, m1, fb, t[l][j]);
      }
      TreeLinksFrame(m, m1, i, t, t, l);
      if l != k { RingLinkedSame(m, m1, i, t[l]); }
    }
  }

  /** The ring that is left when its first chunk goes, entered at its last. */
  function Rotated(xs: seq<int>): seq<int>
    requires |xs| >= 2
  {
    [xs[|xs| - 1]] + xs[1..|xs| - 1]
  }

  lemma RotatedRing(m: Mem, i: nat, t: Trie, sz: Sizes, k: Key)
    requires TrieOk(m, i, t, sz) && Spread(sz) && k in t && |t[k]| >= 2 && i < NTREEBINS
    ensures var xs, m1 := t[k], LinkOut(m, Fd(m, t[k][0]), Bk(m, t[k][0])); var ys := Rotated(xs);
            && TrieBut(m1, i, t, sz, k) && RingLinked(m1, i, ys) && RingFits(i, sz, k, ys) && ys[0] == Bk(m, xs[0])
            && Child(m1, ys[0], 0) == 0 && Child(m1, ys[0], 1) == 0 && xs[0] !in ys && Index(m1, xs[0]) == i
            && (forall a :: a in ys <==> a in xs && a != xs[0])
            && Parent(m1, xs[0]) == Parent(m, xs[0]) == ParentOf(i, t, k) && sz[ys[0]] == SizeAt(t, sz, k)
  {
    hide KeysOk, OnlyLinks, TrieOk, TreeLinked, Spread, RingLinked, RingFits, Fits, Ring, Apart, TrieBut, R, SizeAt, Rotated, LinkOut;
    var xs := t[k];
    TreeLinkedAt(m, i, t, sz, k);
    var n, ys, f, b := |xs|, Rotated(xs), xs[1], xs[|xs| - 1];
    var m1, fb := LinkOut(m, f, b), [f, b];
    KeysOfTrie(m, i, t, sz);
    NodeIn(m, i, t, sz, k);
    RingEnds(m, i, t, sz, k, 0);
    RingApart(i, t, sz, k);
    RingIsLinked(m, i, xs);
    RotateSeq(xs);
    RingRemove(m, xs, 0);
    RingRotate(m1, xs[1..]);
    LinkOutOnly(m, f, b);
    NodesPositive(i, t, sz, k);
    ButFrame(m, m1, i, t, sz, k, fb);
    RotatedWords(m, m1, i, t, sz, k, fb);
    RotatedFits(i, t, sz, k);
    ParentField(m, i, t, k);
  }

  lemma RotateSeq(xs: seq<int>)
    requires |xs| >= 2
    ensures xs[..0] + xs[1..] == xs[1..]
    ensures [xs[1..][|xs| - 2]] + xs[1..][..|xs| - 2] == Rotated(xs) && Rotated(xs)[0] == xs[|xs| - 1]
  {}

  lemma TreeLinkedAt(m: Mem, i: nat, t: Trie, sz: Sizes, k: Key)
    requires TrieOk(m, i, t, sz) && k in t
    ensures TreeLinked(m, i, t, k) && R(m, TreeBinAt(i)) == NodeAt(t, RootKey(i))
  {}

  lemma RotatedFits(i: nat, t: Trie, sz: Sizes, k: Key)
    requires KeysOk(i, t, sz) && k in t && |t[k]| >= 2
    ensures RingFits(i, sz, k, Rotated(t[k])) && t[k][0] !in Rotated(t[k]) && sz[Rotated(t[k])[0]] == SizeAt(t, sz, k)
    ensures forall a :: a in Rotated(t[k]) <==> a in t[k] && a != t[k][0]
  {
    var xs, ys := t[k], Rotated(t[k]);
    assert RingFits(i, sz, k, xs);
    assert forall c :: 0 <= c < |ys| ==> ys[c] == xs[if c == 0 then |xs| - 1 else c];
    assert forall c :: 1 <= c < |xs| ==> xs[c] == ys[if c == |xs| - 1 then 0 else c];
  }

  lemma RotatedWords(m: Mem, m1: Mem, i: nat, t: Trie, sz: Sizes, k: Key, fb: seq<int>)
    requires TrieOk(m, i, t, sz) && Spread(sz) && k in t && |t[k]| >= 2 && i < NTREEBINS && OnlyLinks(m, m1, fb)
    requires (forall e :: 0 <= e < |fb| ==> fb[e] in t[k]) && Ring(m1, Rotated(t[k]))
    ensures var xs, ys := t[k], Rotated(t[k]);
            && RingLinked(m1, i, ys) && Child(m1, ys[0], 0) == 0 && Child(m1, ys[0], 1) == 0
            && Index(m1, xs[0]) == i && Parent(m1, xs[0]) == Parent(m, xs[0])
  {
    hide KeysOk, OnlyLinks, TrieOk, TreeLinked, Spread, RingFits, Fits, Ring, R;
    var xs, ys := t[k], Rotated(t[k]);
    NodeIn(m, i, t, sz, k);
    NodesDistinct(i, t, sz, k) by { KeysOfTrie(m, i, t, sz); }
    forall c | 0 <= c < |xs|
      ensures SameOthers(m, m1, xs[c])
    {
      LinksElse(m, m1, fb, xs[c]);
    }
    assert forall c :: 1 <= c < |ys| ==> ys[c] == xs[c];
    assert ys[0] == xs[|xs| - 1];
  }

  lemma GoneRing(m: Mem, m2: Mem, i: nat, t: Trie, sz: Sizes, k: Key)
    requires TrieOk(m, i, t, sz) && Spread(sz) && k in t && |t[k]| >= 2 && i < NTREEBINS
    requires var m1 := LinkOut(m, Fd(m, t[k][0]), Bk(m, t[k][0]));
             m2 == Transplant(m1, SlotOf(i, t, k), ParentOf(i, t, k), Bk(m, t[k][0]), t[k][0])
    ensures Gone(m, m2, i, t, t[k := Rotated(t[k])], sz, t[k][0])
  {
    hide TrieOk, Spread, Changed, In, Elems, KeysOk, LinkOut, Ring, Apart, Transplant, TrieBut, SizeAt, RingFits,
         RingLinked, R, Site, SlotOf, ParentOf, Rotated, Child, Bk, Fd, Gone, Without;
    var m1, ys := LinkOut(m, Fd(m, t[k][0]), Bk(m, t[k][0])), Rotated(t[k]);
    KeysOfTrie(m, i, t, sz);
    RotatedRing(m, i, t, sz, k);
    OnlyThere(i, t, sz, k);
    Transplanted(m1, i, t, sz, k, ys);
    RingEnds(m, i, t, sz, k, 0);
    IsSite(m1, i, t, sz, k, ys);
    InElems(i, t, sz, k, |t[k]| - 1);
    RotatedHead(t[k]);
    SiteChanged(m1, i, t, sz, k, ys);
    ChangedTrans(m, m1, m2, {TreeBinAt(i)}, Elems(t), sz);
    RingOut(i, t, sz, k, ys, 0);
    GoneIs(m, m2, i, t, t[k := ys], sz, t[k][0]);
  }

  lemma GoneIs(m: Mem, m1: Mem, i: nat, t: Trie, t1: Trie, sz: Sizes, x: int)
    requires TrieOk(m1, i, t1, sz) && Changed(m, m1, {TreeBinAt(i)}, Elems(t), sz)
    requires Without(t, t1, x)
    ensures Gone(m, m1, i, t, t1, sz, x)
  {}

  lemma RotatedHead(xs: seq<int>)
    requires |xs| >= 2
    ensures Rotated(xs)[0] == xs[|xs| - 1]
  {}

  lemma SiteChanged(m: Mem, i: nat, t: Trie, sz: Sizes, k: Key, ys: seq<int>)
    requires Site(m, i, t, sz, k, ys) && ys[0] in Elems(t) && ys[0] in sz && Large(sz[ys[0]]) && KeysOk(i, t, sz)
    ensures Changed(m, Transplant(m, SlotOf(i, t, k), ParentOf(i, t, k), ys[0], t[k][0]), {TreeBinAt(i)}, Elems(t), sz)
  {
    hide Changed, KeysOk, Site, Transplant, Elems, SlotOf, ParentOf;
    AllHeads(i, t, sz);
    TransplantChanged(m, i, t, sz, k, ys, Elems(t));
  }

  /** Sizes are different at different keys. */
  lemma OnlyThere(i: nat, t: Trie, sz: Sizes, k: Key)
    requires KeysOk(i, t, sz) && k in t
    ensures forall l :: l in t && SizeAt(t, sz, l) == SizeAt(t, sz, k) ==> l == k
  {}

  lemma AllHeads(i: nat, t: Trie, sz: Sizes)
    requires KeysOk(i, t, sz)
    ensures forall l :: l in t ==> t[l] != [] && t[l][0] in Elems(t) && t[l][0] in sz && Large(sz[t[l][0]])
  {
    forall l | l in t
      ensures t[l] != [] && t[l][0] in Elems(t) && t[l][0] in sz && Large(sz[t[l][0]])
    {
      FirstFits(i, t, sz, l);
      InElems(i, t, sz, l, 0);
    }
  }

  /** Words that a transplant changes belong to the trie. */
  lemma TransplantChanged(m: Mem, i: nat, t: Trie, sz: Sizes, k: Key, ys: seq<int>, S: set<int>)
    requires Site(m, i, t, sz, k, ys) && ys[0] in S && ys[0] in sz && Large(sz[ys[0]])
    requires forall l :: l in t ==> t[l] != [] && t[l][0] in S && t[l][0] in sz && Large(sz[t[l][0]])
    ensures Changed(m, Transplant(m, SlotOf(i, t, k), ParentOf(i, t, k), ys[0], t[k][0]), {TreeBinAt(i)}, S, sz)
  {
    hide Changed, KeysOk, TrieBut, RingLinked, RingFits, Spread, Outside, TreeLinked;
    var neg, slot, parent, r, x := {TreeBinAt(i)}, SlotOf(i, t, k), ParentOf(i, t, k), ys[0], t[k][0];
    var m1 := m[slot := r];
    var m2 := m1[r + 48 := parent];
    var m3 := Adopt(m2, r, x, 0);
    var m4 := Adopt(m3, r, x, 1);
    if k.d > 0 {
      NodeBut(m, i, t, sz, k, k);
      NodeBut(m, i, t, sz, k, Up(k));
      InBut(m, i, t, sz, k);
      WroteLarge(m, slot, r, neg, S, sz, NodeAt(t, Up(k)));
    } else {
      Wrote(m, slot, r, neg, S, sz, 0);
    }
    WroteLarge(m1, r + 48, parent, neg, S, sz, r);
    ChangedTrans(m, m1, m2, neg, S, sz);
    assert Child(m2, x, 0) == Child(m, x, 0) && Child(m2, x, 1) == Child(m, x, 1);
    ChangedAdopt(m2, r, x, 0, neg, S, sz);
    ChangedTrans(m, m2, m3, neg, S, sz);
    assert Child(m3, x, 1) == Child(m, x, 1);
    ChangedAdopt(m3, r, x, 1, neg, S, sz);
    ChangedTrans(m, m3, m4, neg, S, sz);
  }

  // ---------------------------------------------------------------- a node that is alone

  lemma DropChanged(m: Mem, i: nat, t: Trie, sz: Sizes, k: Key)
    requires TrieOk(m, i, t, sz) && Spread(sz) && k in t && i < NTREEBINS
    ensures Changed(m, m[SlotOf(i, t, k) := 0], {TreeBinAt(i)}, Elems(t), sz)
  {
    hide Changed, TrieOk, Spread, KeysOk, Elems, RingLinked;
    KeysOfTrie(m, i, t, sz);
    if k.d > 0 {
      UpIn(i, t, sz, k);
      NodeIn(m, i, t, sz, Up(k));
      InElems(i, t, sz, Up(k), 0);
      WroteLarge(m, SlotOf(i, t, k), 0, {TreeBinAt(i)}, Elems(t), sz, t[Up(k)][0]);
    } else {
      Wrote(m, SlotOf(i, t, k), 0, {TreeBinAt(i)}, Elems(t), sz, 0);
    }
  }

  /** A chunk that is alone at a leaf. */
  lemma GoneLeaf(m: Mem, m1: Mem, i: nat, t: Trie, sz: Sizes, k: Key)
    requires TrieOk(m, i, t, sz) && Spread(sz) && k in t && |t[k]| == 1 && i < NTREEBINS && Kid(k, 0) !in t && Kid(k, 1) !in t
    requires m1 == m[SlotOf(i, t, k) := 0]
    ensures Gone(m, m1, i, t, t - {k}, sz, t[k][0])
    ensures t - {k} == map[] <==> k.d == 0
  {
    hide TrieOk, Spread, Changed, In, Elems, KeysOk, RingLinked;
    KeysOfTrie(m, i, t, sz);
    DropLeaf(m, i, t, sz, k);
    DropChanged(m, i, t, sz, k);
    LeafOut(i, t, sz, k);
    LastLeaf(i, t, sz, k);
  }

  /** Only the root can be the last node. */
  lemma LastLeaf(i: nat, t: Trie, sz: Sizes, k: Key)
    requires KeysOk(i, t, sz) && k in t && Kid(k, 0) !in t && Kid(k, 1) !in t && i < NTREEBINS
    ensures t - {k} == map[] <==> k.d == 0
  {
    hide KeysOk, RingFits;
    if k.d > 0 {
      UpIn(i, t, sz, k);
      assert Up(k) in t - {k};
    } else {
      FirstFits(i, t, sz, k);
      RootQ(i, sz, k, t[k][0]);
      forall l | l in t
        ensures l == k
      {
        FirstFits(i, t, sz, l);
        RootBelow(i, sz, l, t[l][0]);
        if l.d > 0 {
          HasKid(i, t, sz, k, l);
        } else {
          RootQ(i, sz, l, t[l][0]);
        }
      }
    }
  }

  lemma HasKid(i: nat, t: Trie, sz: Sizes, k: Key, l: Key)
    requires KeysOk(i, t, sz) && l in t && Below(k, l) && l.d > k.d
    ensures Kid(k, 0) in t || Kid(k, 1) in t
  {
    hide KeysOk;
    var a := K(k.d + 1, Shr(l.q, l.d - k.d - 1));
    ShrStep(l.q, l.d - k.d - 1);
    assert a == Kid(k, a.q % 2);
    hide Shr;
    Ancestor(i, t, sz, l, a);
  }

  lemma LeafOut(i: nat, t: Trie, sz: Sizes, k: Key)
    requires KeysOk(i, t, sz) && k in t && |t[k]| == 1
    ensures Without(t, t - {k}, t[k][0])
  {
    hide KeysOk;
    var t1 := t - {k};
    forall a
      ensures In(t1, a) <==> a != t[k][0] && In(t, a)
    {
      if In(t, a) && a != t[k][0] { var l :| l in t && a in t[l]; assert l in t1 && a in t1[l]; }
      if In(t1, a) {
        var l :| l in t1 && a in t1[l];
        assert l in t && a in t[l] && l != k;
        var c :| 0 <= c < |t[l]| && t[l][c] == a;
        if a == t[k][0] { DistinctNodes(i, t, sz, k, l, 0, c); }
      }
    }
  }

  /** A chunk that is alone at an inner node: a leaf below it takes its place. */
  lemma GoneMoved(m: Mem, m2: Mem, i: nat, t: Trie, sz: Sizes, k: Key, l: Key)
    requires TrieOk(m, i, t, sz) && Spread(sz) && k in t && |t[k]| == 1 && i < NTREEBINS
    requires l in t && l.d > k.d && Below(k, l) && Kid(l, 0) !in t && Kid(l, 1) !in t && t[l] != []
    requires var m1, t1 := m[SlotOf(i, t, l) := 0], t - {l};
             m2 == Transplant(m1, SlotOf(i, t1, k), ParentOf(i, t1, k), t[l][0], t[k][0])
    ensures Gone(m, m2, i, t, (t - {l})[k := t[l]], sz, t[k][0])
  {
    hide TrieOk, Spread, Changed, In, Elems, KeysOk, Transplant, TrieBut, SizeAt, RingFits, RingLinked, R, SlotOf, ParentOf, Site;
    var m1, t1, ys, x := m[SlotOf(i, t, l) := 0], t - {l}, t[l], t[k][0];
    KeysOfTrie(m, i, t, sz);
    DropLeaf(m, i, t, sz, l);
    DropChanged(m, i, t, sz, l);
    LeafFits(i, t, sz, k, l);
    AsBut(m1, i, t1, sz, k);
    Transplanted(m1, i, t1, sz, k, ys);
    IsSite(m1, i, t1, sz, k, ys);
    AllHeads(i, t, sz);
    InElems(i, t, sz, l, 0);
    TransplantChanged(m1, i, t1, sz, k, ys, Elems(t));
    ChangedTrans(m, m1, m2, {TreeBinAt(i)}, Elems(t), sz);
    MovedIn(i, t, sz, k, l);
  }

  lemma AsBut(m: Mem, i: nat, t: Trie, sz: Sizes, k: Key)
    requires TrieOk(m, i, t, sz) && k in t
    ensures TrieBut(m, i, t, sz, k)
  {}

  lemma LeafFits(i: nat, t: Trie, sz: Sizes, k: Key, l: Key)
    requires KeysOk(i, t, sz) && k in t && l in t && l.d > k.d && Below(k, l) && t[k] != [] && t[l] != []
    ensures RingFits(i, sz, k, t[l]) && t[k][0] !in t[l] && t[l][0] in sz
    ensures forall n :: n in t - {l} && SizeAt(t - {l}, sz, n) == sz[t[l][0]] ==> n == k
  {
    hide Below;
    var t1 := t - {l};
    assert RingFits(i, sz, l, t[l]);
    forall j | 0 <= j < |t[l]|
      ensures Fits(i, sz, k, t[l][j]) && t[l][j] != t[k][0]
    {
      assert Fits(i, sz, l, t[l][j]);
      FitsBelow(i, sz, k, l, t[l][j]);
      if t[l][j] == t[k][0] { DistinctNodes(i, t, sz, k, l, 0, j); }
    }
    SizeNew(t, sz, l);
    forall n | n in t1
      ensures SizeAt(t1, sz, n) == SizeAt(t, sz, n)
    {
      SizeSame(t, t1, sz, n);
    }
  }

  lemma MovedIn(i: nat, t: Trie, sz: Sizes, k: Key, l: Key)
    requires KeysOk(i, t, sz) && k in t && l in t && k != l && |t[k]| == 1
    ensures Without(t, (t - {l})[k := t[l]], t[k][0])
  {
    hide KeysOk;
    var t1 := (t - {l})[k := t[l]];
    forall a
      ensures In(t1, a) <==> a != t[k][0] && In(t, a)
    {
      if In(t, a) && a != t[k][0] {
        var n :| n in t && a in t[n];
        var n1 := if n == l then k else n;
        assert n1 in t1 && a in t1[n1];
      }
      if In(t1, a) {
        var n1 :| n1 in t1 && a in t1[n1];
        var n := if n1 == k then l else n1;
        assert n in t && a in t[n] && n != k;
        var c :| 0 <= c < |t[n]| && t[n][c] == a;
        if a == t[k][0] { DistinctNodes(i, t, sz, k, n, 0, c); }
      }
    }
  }

  // ---------------------------------------------------------------- the method

  /** The first part of `unlink_large_chunk`, and the rest if x is not a node. */
  method UnlinkLarge(ms: MallocState, x: int)
    requires ms.BinsValid() && x in ms.free && Large(ms.free[x])
    modifies ms`mem, ms`treemap, ms`tries, ms`free
    ensures ms.BinsValid() && ms.free == old(ms.free) - {x} && OnlyFree(old(ms.mem), ms.mem, old(ms.free))
  {
    hide TrieOk, Spread, Changed, In, Elems, KeysOk, SmallOk, RingLinked, Gone, Without, TrieBut, SlotOf, ParentOf,
         TreeLinked, Ring, Apart, Transplant;
    ghost var m, sz, i, treemap := ms.mem, ms.free, TreeIndex(ms.free[x]), ms.treemap;
    ghost var t := ms.tries[i];
    assert Binned(ms.small, ms.tries, sz, x);
    ghost var k, j := Locate(m, i, t, sz, x);
    KeysOfTrie(m, i, t, sz);
    ghost var t1 := t;
    RingEnds(m, i, t, sz, k, j);
    var xp := Parent(ms.mem, x);
    if Bk(ms.mem, x) != x {
      var f, r := Fd(ms.mem, x), Bk(ms.mem, x);
      ms.mem := ms.mem[f + 24 := r][r + 16 := f];
      UnlinkShared(ms, x, xp, r, m, i, t, sz, k, j);
      t1 := if j == 0 then t[k := Rotated(t[k])] else t[k := t[k][..j] + t[k][j + 1..]];
    } else {
      t1 := UnlinkAlone(ms, x, xp, m, i, t, sz, k);
    }
    GoneMeans(m, ms.mem, i, t, t1, sz, x);
    RemovedLarge(ms, m, treemap, ms.tries, sz, i, x, t1);
    ms.tries := ms.tries[i := t1];
    ms.free := sz - {x};
  }

  lemma GoneMeans(m: Mem, m1: Mem, i: nat, t: Trie, t1: Trie, sz: Sizes, x: int)
    requires Gone(m, m1, i, t, t1, sz, x)
    ensures TrieOk(m1, i, t1, sz) && Without(t, t1, x) && Changed(m, m1, {TreeBinAt(i)}, Elems(t), sz)
  {}

  /** x shares its size with others: it has been linked out of its ring. */
  method UnlinkShared(ms: MallocState, x: int, xp: int, r: int, ghost m: Mem, ghost i: nat, ghost t: Trie, ghost sz: Sizes,
                      ghost k: Key, ghost j: nat)
    requires TrieOk(m, i, t, sz) && Spread(sz) && k in t && j < |t[k]| && t[k][j] == x && i < NTREEBINS && |t[k]| >= 2
    requires xp == Parent(m, x) && r == Bk(m, x) && ms.mem == LinkOut(m, Fd(m, x), Bk(m, x))
    modifies ms`mem, ms`treemap
    ensures Gone(m, ms.mem, i, t, if j == 0 then t[k := Rotated(t[k])] else t[k := t[k][..j] + t[k][j + 1..]], sz, x)
    ensures forall n: nat :: Bit(ms.treemap, n) <==> Bit(old(ms.treemap), n)
  {
    hide TrieOk, Spread, KeysOk, RingLinked, Gone, TrieBut, SlotOf, ParentOf, TreeLinked, Ring, Apart, LinkOut, Transplant, RingFits;
    ghost var k1, j1 := Locate(m, i, t, sz, x) by { assert t[k][j] in t[k]; }
    SamePlace(m, i, t, sz, k, j, k1, j1);
    if j == 0 {
      RotatedRing(m, i, t, sz, k);
      TreeLinkedAt(m, i, t, sz, k);
      ParentField(m, i, t, k);
      NotZero(m, i, t, sz, k);
    }
    if xp != 0 {
      Replace(ms, x, xp, r, i, t, sz, k);
      GoneRing(m, ms.mem, i, t, sz, k);
    } else {
      GoneInner(m, ms.mem, i, t, sz, k, j);
    }
  }

  lemma SamePlace(m: Mem, i: nat, t: Trie, sz: Sizes, k: Key, j: nat, l: Key, n: nat)
    requires TrieOk(m, i, t, sz) && k in t && l in t && j < |t[k]| && n < |t[l]| && t[k][j] == t[l][n]
    ensures k == l && j == n
  {
    DistinctNodes(i, t, sz, k, l, j, n);
  }

  lemma NotZero(m: Mem, i: nat, t: Trie, sz: Sizes, k: Key)
    requires TrieOk(m, i, t, sz) && Spread(sz) && k in t && i < NTREEBINS && |t[k]| >= 2
    ensures ParentOf(i, t, k) != 0 && t[k][|t[k]| - 1] > 0
  {
    hide TrieOk, Spread, KeysOk, RingLinked, RingFits;
    KeysOfTrie(m, i, t, sz);
    NodesPositive(i, t, sz, k);
    if k.d > 0 {
      UpIn(i, t, sz, k);
      NodeIn(m, i, t, sz, Up(k));
      NodesPositive(i, t, sz, Up(k));
    }
  }

  /** x is the only chunk of its size. */
  method UnlinkAlone(ms: MallocState, x: int, xp: int, ghost m: Mem, ghost i: nat, ghost t: Trie, ghost sz: Sizes, ghost k: Key)
    returns (ghost t1: Trie)
    requires TrieOk(m, i, t, sz) && Spread(sz) && k in t && |t[k]| == 1 && t[k][0] == x && i < NTREEBINS && ms.mem == m
    requires xp == Parent(m, x)
    modifies ms`mem, ms`treemap
    ensures Gone(m, ms.mem, i, t, t1, sz, x)
    ensures forall n: nat :: Bit(ms.treemap, n) <==> Bit(old(ms.treemap), n) && !(n == i && t1 == map[])
  {
    hide TrieOk, Spread, KeysOk, RingLinked, Gone, TrieBut, SlotOf, ParentOf, TreeLinked, Ring, Apart, Transplant, RingFits, Below;
    KeysOfTrie(m, i, t, sz);
    ghost var k1, j1 := Locate(m, i, t, sz, x) by { assert t[k][0] in t[k]; }
    SamePlace(m, i, t, sz, k, 0, k1, j1);
    AsBut(m, i, t, sz, k);
    SlotFound(m, i, t, sz, k);
    var r;
    ghost var l;
    r, l := CutLeaf(ms, x, i, t, sz, k);
    if r != 0 {
      t1 := t - {l};
      DropLeaf(m, i, t, sz, l);
      AsBut(ms.mem, i, t1, sz, k);
      StillThere(m, ms.mem, i, t, sz, k, l);
    } else {
      t1 := t;
    }
    if xp != 0 {
      Replace(ms, x, xp, r, i, t1, sz, k);
    }
    if r != 0 {
      NodeIn(m, i, t, sz, l);
      GoneMoved(m, ms.mem, i, t, sz, k, l);
      t1 := t1[k := t[l]];
      assert k in t1;
    } else {
      GoneLeaf(m, ms.mem, i, t, sz, k);
      t1 := t - {k};
    }
  }

  /** Cutting off a leaf does not touch the parent and the index of a node above. */
  lemma StillThere(m: Mem, m1: Mem, i: nat, t: Trie, sz: Sizes, k: Key, l: Key)
    requires TrieOk(m, i, t, sz) && Spread(sz) && k in t && l in t && l.d > k.d && i < NTREEBINS && t[k] != []
    requires m1 == m[SlotOf(i, t, l) := 0]
    ensures Parent(m1, t[k][0]) == Parent(m, t[k][0]) && Index(m1, t[k][0]) == Index(m, t[k][0])
  {
    hide TrieOk, Spread, KeysOk, RingLinked, RingFits;
    KeysOfTrie(m, i, t, sz);
    UpIn(i, t, sz, l);
    NodeIn(m, i, t, sz, Up(l));
    NodeIn(m, i, t, sz, k);
    if Up(l) != k { NodesDiffer(i, t, sz, Up(l), 0, k, 0); }
  }
}
