/** The searches of the allocator (luajit/lj_alloc.c) for the best fitting chunk in the tree bins. */
module AllocSearch {
  import opened Bits
  import opened AllocMem
  import opened AllocTrie
  import opened AllocUnlink
  import opened AllocBins
  import opened AllocTreeOps
  import opened AllocUnlinkOps

  /** There is a node of size s at k or below. */
  ghost predicate SizeBelow(t: Trie, sz: Sizes, k: Key, s: int) {
    exists l :: l in t && Below(k, l) && SizeAt(t, sz, l) == s
  }

  /** s is larger than the size of every node at k or below. */
  ghost predicate Over(t: Trie, sz: Sizes, k: Key, s: int) {
    forall l :: l in t && Below(k, l) ==> s > SizeAt(t, sz, l)
  }

  /** The bits of a size below k. */
  lemma SizeBits(i: nat, t: Trie, sz: Sizes, k: Key, l: Key)
    requires KeysOk(i, t, sz) && l in t && Below(k, l)
    ensures SizeAt(t, sz, l) >= 256 && Large(SizeAt(t, sz, l)) && k.d <= Width(i) && Shr(SizeAt(t, sz, l), Width(i) - k.d) == k.q
  {
    hide Below;
    FirstFits(i, t, sz, l);
    FitsBelow(i, sz, k, l, t[l][0]);
  }

  /** Sizes below a left child are smaller than those below the right child. */
  lemma LeftRight(i: nat, t: Trie, sz: Sizes, k: Key, l: Key, n: Key)
    requires KeysOk(i, t, sz) && l in t && n in t && Below(Kid(k, 0), l) && Below(Kid(k, 1), n)
    ensures SizeAt(t, sz, l) < SizeAt(t, sz, n)
  {
    hide KeysOk, Below, SizeAt;
    SizeBits(i, t, sz, Kid(k, 0), l);
    SizeBits(i, t, sz, Kid(k, 1), n);
    ShrMonotone(SizeAt(t, sz, l), SizeAt(t, sz, n), Width(i) - k.d - 1);
  }

  /** What lies below k is at k, or below one of its children, which is then a node. */
  lemma BelowSplit(i: nat, t: Trie, sz: Sizes, k: Key, l: Key)
    requires KeysOk(i, t, sz) && l in t && Below(k, l)
    ensures k in t && (l == k || (Below(Kid(k, 0), l) && Kid(k, 0) in t) || (Below(Kid(k, 1), l) && Kid(k, 1) in t))
  {
    hide KeysOk;
    Ancestor(i, t, sz, l, k);
    if l.d > k.d {
      var a := K(k.d + 1, Shr(l.q, l.d - k.d - 1));
      ShrStep(l.q, l.d - k.d - 1);
      assert a == Kid(k, a.q % 2);
      Ancestor(i, t, sz, l, a);
    } else {
      assert Shr(l.q, 0) == l.q;
    }
  }

  lemma NoneBelow(i: nat, t: Trie, sz: Sizes, k: Key)
    requires KeysOk(i, t, sz) && k !in t
    ensures forall l :: l in t ==> !Below(k, l)
  {
    forall l | l in t
      ensures !Below(k, l)
    {
      if Below(k, l) { Ancestor(i, t, sz, l, k); }
    }
  }

  /** The leftmost child: whatever is not at k is below it, or larger than everything below it. */
  lemma LeftmostStep(i: nat, t: Trie, sz: Sizes, k: Key, s: int)
    requires KeysOk(i, t, sz) && k in t && (SizeBelow(t, sz, k, s) || Over(t, sz, k, s))
    ensures Kid(k, 0) in t ==> s >= SizeAt(t, sz, k) || SizeBelow(t, sz, Kid(k, 0), s) || Over(t, sz, Kid(k, 0), s)
    ensures Kid(k, 0) !in t && Kid(k, 1) in t ==> s >= SizeAt(t, sz, k) || SizeBelow(t, sz, Kid(k, 1), s)
    ensures Kid(k, 0) !in t && Kid(k, 1) !in t ==> s >= SizeAt(t, sz, k)
  {
    hide KeysOk, Below, SizeAt;
    BelowSelf(k);
    if !Over(t, sz, k, s) {
      var l :| l in t && Below(k, l) && SizeAt(t, sz, l) == s;
      BelowSplit(i, t, sz, k, l);
      if Below(Kid(k, 1), l) && Kid(k, 0) in t {
        forall n | n in t && Below(Kid(k, 0), n)
          ensures s > SizeAt(t, sz, n)
        {
          LeftRight(i, t, sz, k, n, l);
        }
      }
    }
  }

  /** The children of a node, and its size, in memory. */
  lemma Visit(m: Mem, i: nat, t: Trie, sz: Sizes, k: Key)
    requires TrieOk(m, i, t, sz) && Spread(sz) && HeadsOf(m, sz) && k in t && i < NTREEBINS
    ensures ChunkSize(m, NodeAt(t, k)) == SizeAt(t, sz, k) && Large(SizeAt(t, sz, k)) && NodeAt(t, k) > 0
    ensures NodeAt(t, k) in sz && sz[NodeAt(t, k)] == SizeAt(t, sz, k) && TreeIndex(SizeAt(t, sz, k)) == i
    ensures Child(m, NodeAt(t, k), 0) == NodeAt(t, Kid(k, 0)) && (NodeAt(t, Kid(k, 0)) != 0 <==> Kid(k, 0) in t)
    ensures Child(m, NodeAt(t, k), 1) == NodeAt(t, Kid(k, 1)) && (NodeAt(t, Kid(k, 1)) != 0 <==> Kid(k, 1) in t)
  {
    hide TrieOk, KeysOk, Spread, RingLinked, Below, SizeAt;
    KeysOfTrie(m, i, t, sz);
    NodeIn(m, i, t, sz, k);
    NodesPositive(i, t, sz, k);
    SizesOfNodes(i, t, sz, k, 0);
    BelowSelf(k);
    Descend(m, i, t, sz, k, k, 0);
    Descend(m, i, t, sz, k, k, 1);
  }

  function LeftmostChild(m: Mem, t: int): int {
    if Child(m, t, 0) != 0 then Child(m, t, 0) else Child(m, t, 1)
  }

  /** Chunks of the tree bins that are large enough. */
  ghost predicate Enough(sz: Sizes, nb: nat, a: int) { a in sz && Large(sz[a]) && sz[a] >= nb }

  /** v is the best chunk seen so far, with rsize bytes to spare; 0 if there is none. */
  ghost predicate Seen(sz: Sizes, nb: nat, v: int, rsize: nat) {
    if v == 0 then rsize == W64 - nb else Enough(sz, nb, v) && rsize == sz[v] - nb
  }

  /** A better chunk is possible: all chunks are smaller than MAX_ADDR. */
  predicate Hot(nb: nat, v: int, rsize: nat) { nb < MAX_ADDR && (v == 0 || rsize > 0) }

  /** A chunk of the right size is no better than v, or at key k or below, or larger than all there. */
  ghost predicate Left(t: Trie, sz: Sizes, k: Key, nb: nat, rsize: nat, s: int) {
    s >= nb + rsize || SizeBelow(t, sz, k, s) || Over(t, sz, k, s)
  }

  /** The last loop of `tmalloc_large`: walks down the leftmost children and finds the smallest chunk
      of a subtree whose chunks are all large enough, although the subtractions wrap around. */
  method FindLeast(m: Mem, root: int, nb: nat, v0: int, rsize0: nat, ghost i: nat, ghost t: Trie, ghost sz: Sizes, ghost k0: Key)
    returns (v: int, rsize: nat)
    requires Spread(sz) && HeadsOf(m, sz) && i < NTREEBINS && 0 < nb < W64 && Seen(sz, nb, v0, rsize0)
    requires TrieOk(m, i, t, sz) && (root != 0 ==> k0 in t && root == NodeAt(t, k0))
    requires root != 0 && Hot(nb, v0, rsize0) ==> forall l :: l in t && Below(k0, l) ==> SizeAt(t, sz, l) >= nb
    requires forall a :: Enough(sz, nb, a) ==>
               if root != 0 && Hot(nb, v0, rsize0) then Left(t, sz, k0, nb, rsize0, sz[a]) else sz[a] >= nb + rsize0
    ensures Seen(sz, nb, v, rsize) && forall a :: Enough(sz, nb, a) ==> sz[a] >= nb + rsize
  {
    hide TrieOk, KeysOk, Spread, Below, SizeAt, HeadsOf, SizeBelow, Over, NodeAt, Child;
    v, rsize := v0, rsize0;
    var T := root;
    ghost var k := k0;
    if root != 0 { DepthBound(m, i, t, sz, k0); }
    while T != 0
      invariant Seen(sz, nb, v, rsize) && (T != 0 ==> k in t && T == NodeAt(t, k)) && (T != 0 ==> k.d <= Width(i))
      invariant T != 0 && Hot(nb, v, rsize) ==> forall l :: l in t && Below(k, l) ==> SizeAt(t, sz, l) >= nb
      invariant forall a :: Enough(sz, nb, a) ==>
                  if T != 0 && Hot(nb, v, rsize) then Left(t, sz, k, nb, rsize, sz[a]) else sz[a] >= nb + rsize
      decreases if T != 0 then Width(i) + 1 - k.d else 0
    {
      T, v, rsize, k := LeastStep(m, T, nb, v, rsize, i, t, sz, k);
    }
  }

  /** One round of that loop: looks at a node and moves to its leftmost child. */
  method LeastStep(m: Mem, T0: int, nb: nat, v0: int, rsize0: nat, ghost i: nat, ghost t: Trie, ghost sz: Sizes, ghost k0: Key)
    returns (T: int, v: int, rsize: nat, ghost k: Key)
    requires Spread(sz) && HeadsOf(m, sz) && i < NTREEBINS && 0 < nb < W64 && Seen(sz, nb, v0, rsize0)
    requires TrieOk(m, i, t, sz) && k0 in t && T0 == NodeAt(t, k0) && k0.d <= Width(i)
    requires Hot(nb, v0, rsize0) ==> forall l :: l in t && Below(k0, l) ==> SizeAt(t, sz, l) >= nb
    requires forall a :: Enough(sz, nb, a) ==>
               if Hot(nb, v0, rsize0) then Left(t, sz, k0, nb, rsize0, sz[a]) else sz[a] >= nb + rsize0
    ensures Seen(sz, nb, v, rsize)
    ensures T != 0 ==> k in t && T == NodeAt(t, k) && k0.d < k.d <= Width(i)
    ensures T != 0 && Hot(nb, v, rsize) ==> forall l :: l in t && Below(k, l) ==> SizeAt(t, sz, l) >= nb
    ensures forall a :: Enough(sz, nb, a) ==>
              if T != 0 && Hot(nb, v, rsize) then Left(t, sz, k, nb, rsize, sz[a]) else sz[a] >= nb + rsize
  {
    hide TrieOk, KeysOk, Spread, Below, SizeAt, HeadsOf, SizeBelow, Over, NodeAt, Child;
    KeysOfTrie(m, i, t, sz);
    Visit(m, i, t, sz, k0);
    BelowSelf(k0);
    v, rsize := v0, rsize0;
    var trem := (ChunkSize(m, T0) - nb) % W64;
    if trem < rsize {
      rsize := trem;
      v := T0;
    }
    T := LeftmostChild(m, T0);
    k := if Kid(k0, 0) in t then Kid(k0, 0) else Kid(k0, 1);
    if T != 0 { DepthBound(m, i, t, sz, k); }
    if Hot(nb, v0, rsize0) {
      assert SizeAt(t, sz, k0) >= nb + rsize;
      forall a | Enough(sz, nb, a)
        ensures if T != 0 && Hot(nb, v, rsize) then Left(t, sz, k, nb, rsize, sz[a]) else sz[a] >= nb + rsize
      {
        if sz[a] < nb + rsize0 { LeftmostStep(i, t, sz, k0, sz[a]); }
      }
      KidsBelow(t, sz, k0, k, nb);
    }
  }

  lemma KidsBelow(t: Trie, sz: Sizes, k: Key, kid: Key, nb: nat)
    requires (kid == Kid(k, 0) || kid == Kid(k, 1)) && forall l :: l in t && Below(k, l) ==> SizeAt(t, sz, l) >= nb
    ensures forall l :: l in t && Below(kid, l) ==> SizeAt(t, sz, l) >= nb
  {
    forall l | l in t && Below(kid, l)
      ensures Below(k, l)
    {
      BelowUp(k, kid, l);
    }
  }

  lemma BelowUp(k: Key, kid: Key, l: Key)
    requires (kid == Kid(k, 0) || kid == Kid(k, 1)) && Below(kid, l)
    ensures Below(k, l)
  {
    ShrStep(l.q, l.d - kid.d);
  }

  // ---------------------------------------------------------------- the bin of the requested size

  /** The search follows the bits of nb. */
  predicate OnPath(nb: nat, i: nat, k: Key) { k.d <= Width(i) && Shr(nb, Width(i) - k.d) == k.q }

  /** All nodes at r or below are larger than nb, and than all nodes at k or below. */
  ghost predicate Beyond(t: Trie, sz: Sizes, k: Key, r: Key, nb: nat) {
    && (forall n :: n in t && Below(r, n) ==> SizeAt(t, sz, n) > nb)
    && (forall l, n :: l in t && n in t && Below(k, l) && Below(r, n) ==> SizeAt(t, sz, l) < SizeAt(t, sz, n))
  }

  /** Where a node that is large enough can be: it is no better than what was seen, or below k, or
      it does not get in the way of the subtree at r, which was passed by. */
  ghost predicate Ahead(t: Trie, sz: Sizes, k: Key, rst: int, r: Key, nb: nat, rsize: nat, l: Key)
    requires l in t
  {
    var s := SizeAt(t, sz, l);
    s >= nb ==> s >= nb + rsize || Below(k, l) || (rst != 0 && (Below(r, l) || Over(t, sz, r, s)))
  }

  /** To the right: what is on the left is too small. */
  lemma GoRight(i: nat, t: Trie, sz: Sizes, k: Key, rst: int, r: Key, nb: nat, rsize: nat, l: Key)
    requires KeysOk(i, t, sz) && l in t && k in t && Ahead(t, sz, k, rst, r, nb, rsize, l) && OnPath(nb, i, Kid(k, 1))
    requires SizeAt(t, sz, k) >= nb ==> SizeAt(t, sz, k) >= nb + rsize
    ensures Ahead(t, sz, Kid(k, 1), rst, r, nb, rsize, l)
  {
    hide KeysOk, Below, SizeAt, Over;
    if Below(k, l) {
      BelowSplit(i, t, sz, k, l);
      if Below(Kid(k, 0), l) {
        SizeBits(i, t, sz, Kid(k, 0), l);
        ShrMonotone(SizeAt(t, sz, l), nb, Width(i) - k.d - 1);
      }
    }
  }

  /** To the left: the right subtree is remembered, if there is one. */
  lemma GoLeft(i: nat, t: Trie, sz: Sizes, k: Key, rst: int, r: Key, nb: nat, rsize: nat, rst1: int, r1: Key, l: Key)
    requires KeysOk(i, t, sz) && l in t && k in t && Ahead(t, sz, k, rst, r, nb, rsize, l) && OnPath(nb, i, Kid(k, 0))
    requires SizeAt(t, sz, k) >= nb ==> SizeAt(t, sz, k) >= nb + rsize
    requires rst != 0 ==> r in t && Beyond(t, sz, k, r, nb)
    requires if Kid(k, 1) in t then rst1 != 0 && r1 == Kid(k, 1) else rst1 == rst && r1 == r
    ensures Ahead(t, sz, Kid(k, 0), rst1, r1, nb, rsize, l)
  {
    hide KeysOk, Below, SizeAt;
    if Below(k, l) {
      BelowSplit(i, t, sz, k, l);
    } else if rst != 0 && Kid(k, 1) in t {
      BelowSelf(r);
      forall n | n in t && Below(r1, n)
        ensures Below(k, n)
      {
        BelowUp(k, r1, n);
      }
    }
  }

  lemma BeyondRight(i: nat, t: Trie, sz: Sizes, k: Key, nb: nat)
    requires KeysOk(i, t, sz) && OnPath(nb, i, Kid(k, 0))
    ensures Beyond(t, sz, Kid(k, 0), Kid(k, 1), nb)
  {
    hide KeysOk, Below, SizeAt;
    forall n | n in t && Below(Kid(k, 1), n)
      ensures SizeAt(t, sz, n) > nb
    {
      SizeBits(i, t, sz, Kid(k, 1), n);
      ShrMonotone(nb, SizeAt(t, sz, n), Width(i) - k.d - 1);
    }
    forall l, n | l in t && n in t && Below(Kid(k, 0), l) && Below(Kid(k, 1), n)
      ensures SizeAt(t, sz, l) < SizeAt(t, sz, n)
    {
      LeftRight(i, t, sz, k, l, n);
    }
  }

  lemma BeyondDown(t: Trie, sz: Sizes, k: Key, kid: Key, r: Key, nb: nat)
    requires Beyond(t, sz, k, r, nb) && (kid == Kid(k, 0) || kid == Kid(k, 1))
    ensures Beyond(t, sz, kid, r, nb)
  {
    hide SizeAt, Below;
    forall l | l in t && Below(kid, l)
      ensures Below(k, l)
    {
      BelowUp(k, kid, l);
    }
  }

  /** The path goes on with the next bit of nb. */
  lemma PathOn(nb: nat, i: nat, k: Key)
    requires OnPath(nb, i, k) && k.d < Width(i) && i < NTREEBINS
    ensures OnPath(nb, i, Kid(k, if SignBit(Shl(nb, LeftShift(i) + k.d)) then 1 else 0))
  {
    Way(nb, i, k.d);
    ShrStep(nb, Width(i) - k.d - 1);
  }

  /** The search is at the node T of key k; it has passed by the subtree rst at key r. */
  ghost predicate Fitting(nb: nat, i: nat, t: Trie, sz: Sizes, T: int, k: Key, v: int, rsize: nat, rst: int, r: Key) {
    && k in t && T == NodeAt(t, k) && k.d <= Width(i) && Seen(sz, nb, v, rsize) && (rst != 0 ==> r in t && rst == NodeAt(t, r))
    && (nb < MAX_ADDR ==>
          && OnPath(nb, i, k) && (rst != 0 ==> Beyond(t, sz, k, r, nb))
          && forall l :: l in t ==> Ahead(t, sz, k, rst, r, nb, rsize, l))
  }

  /** The search has left the bits of nb; what it passed by is all that is left. */
  ghost predicate Passed(nb: nat, t: Trie, sz: Sizes, v: int, rsize: nat, rst: int, r: Key) {
    && Seen(sz, nb, v, rsize) && (rst != 0 ==> r in t && rst == NodeAt(t, r))
    && (nb < MAX_ADDR ==>
          && (rst != 0 ==> forall l :: l in t && Below(r, l) ==> SizeAt(t, sz, l) >= nb)
          && forall l :: l in t && SizeAt(t, sz, l) >= nb ==>
               SizeAt(t, sz, l) >= nb + rsize || (rst != 0 && Left(t, sz, r, nb, rsize, SizeAt(t, sz, l))))
  }

  /** v is looked at: the node itself is no longer better. */
  lemma Compared(nb: nat, i: nat, t: Trie, sz: Sizes, T: int, k: Key, v0: int, rsize0: nat, rst: int, r: Key, v: int, rsize: nat)
    requires Fitting(nb, i, t, sz, T, k, v0, rsize0, rst, r) && Seen(sz, nb, v, rsize) && rsize <= rsize0
    ensures Fitting(nb, i, t, sz, T, k, v, rsize, rst, r)
  {
    hide SizeAt, Below, Over, NodeAt, Seen, Beyond;
    forall l | l in t && nb < MAX_ADDR
      ensures Ahead(t, sz, k, rst, r, nb, rsize, l)
    {
      assert Ahead(t, sz, k, rst, r, nb, rsize0, l);
    }
  }

  /** One level down: to a node. */
  lemma FitDown(nb: nat, i: nat, t: Trie, sz: Sizes, T: int, k: Key, v: int, rsize: nat, rst: int, r: Key,
                b: nat, rst1: int, r1: Key)
    requires Fitting(nb, i, t, sz, T, k, v, rsize, rst, r) && KeysOk(i, t, sz) && i < NTREEBINS && b < 2 && k.d < Width(i)
    requires SizeAt(t, sz, k) >= nb ==> SizeAt(t, sz, k) >= nb + rsize
    requires b == if SignBit(Shl(nb, LeftShift(i) + k.d)) then 1 else 0
    requires if b == 0 && Kid(k, 1) in t then rst1 == NodeAt(t, Kid(k, 1)) != 0 && r1 == Kid(k, 1) else rst1 == rst && r1 == r
    ensures nb < MAX_ADDR ==> OnPath(nb, i, Kid(k, b)) && (rst1 != 0 ==> Beyond(t, sz, Kid(k, b), r1, nb))
    ensures nb < MAX_ADDR ==> forall l :: l in t ==> Ahead(t, sz, Kid(k, b), rst1, r1, nb, rsize, l)
    ensures rst1 != 0 ==> r1 in t && rst1 == NodeAt(t, r1)
  {
    hide KeysOk, SizeAt, Below, Over, NodeAt, Seen, Beyond, OnPath, Ahead, SignBit, Shl;
    if nb < MAX_ADDR {
      PathOn(nb, i, k);
      if b == 0 && Kid(k, 1) in t {
        BeyondRight(i, t, sz, k, nb);
      } else if rst != 0 {
        BeyondDown(t, sz, k, Kid(k, b), r, nb);
      }
      forall l | l in t
        ensures Ahead(t, sz, Kid(k, b), rst1, r1, nb, rsize, l)
      {
        if b == 0 {
          GoLeft(i, t, sz, k, rst, r, nb, rsize, rst1, r1, l);
        } else {
          GoRight(i, t, sz, k, rst, r, nb, rsize, l);
        }
      }
    }
  }

  /** There is no node at k: the search goes on with what was passed by. */
  lemma FitEnd(nb: nat, i: nat, t: Trie, sz: Sizes, k: Key, v: int, rsize: nat, rst: int, r: Key)
    requires KeysOk(i, t, sz) && k !in t && Seen(sz, nb, v, rsize) && (rst != 0 ==> r in t && rst == NodeAt(t, r))
    requires nb < MAX_ADDR ==> (rst != 0 ==> Beyond(t, sz, k, r, nb)) && forall l :: l in t ==> Ahead(t, sz, k, rst, r, nb, rsize, l)
    ensures Passed(nb, t, sz, v, rsize, rst, r)
  {
    hide KeysOk, SizeAt, Below, Over, NodeAt, Seen;
    NoneBelow(i, t, sz, k);
    forall l | l in t && SizeAt(t, sz, l) >= nb && nb < MAX_ADDR
      ensures SizeAt(t, sz, l) >= nb + rsize || (rst != 0 && Left(t, sz, r, nb, rsize, SizeAt(t, sz, l)))
    {
      assert Ahead(t, sz, k, rst, r, nb, rsize, l);
      assert Below(r, l) ==> SizeBelow(t, sz, r, SizeAt(t, sz, l));
    }
  }

  /** At full depth there is nothing below a node. */
  lemma FitBottom(nb: nat, i: nat, t: Trie, sz: Sizes, T: int, k: Key, v: int, rsize: nat, rst: int, r: Key)
    requires Fitting(nb, i, t, sz, T, k, v, rsize, rst, r) && KeysOk(i, t, sz) && k.d == Width(i)
    requires SizeAt(t, sz, k) >= nb ==> SizeAt(t, sz, k) >= nb + rsize
    ensures Kid(k, 0) !in t && Kid(k, 1) !in t && Passed(nb, t, sz, v, rsize, rst, r)
  {
    hide KeysOk, SizeAt, Below, Over, NodeAt, Seen;
    if Kid(k, 0) in t { FirstFits(i, t, sz, Kid(k, 0)); }
    if Kid(k, 1) in t { FirstFits(i, t, sz, Kid(k, 1)); }
    forall l | l in t && SizeAt(t, sz, l) >= nb && nb < MAX_ADDR
      ensures SizeAt(t, sz, l) >= nb + rsize || (rst != 0 && Left(t, sz, r, nb, rsize, SizeAt(t, sz, l)))
    {
      assert Ahead(t, sz, k, rst, r, nb, rsize, l);
      if Below(k, l) { BelowSplit(i, t, sz, k, l); }
      assert Below(r, l) ==> SizeBelow(t, sz, r, SizeAt(t, sz, l));
    }
  }

  /** One round of the first loop of `tmalloc_large`. */
  method FitStep(m: Mem, T0: int, nb: nat, sizebits: nat, v0: int, rsize0: nat, rst0: int,
                 ghost i: nat, ghost t: Trie, ghost sz: Sizes, ghost k0: Key, ghost r0: Key)
    returns (exact: bool, T: int, v: int, rsize: nat, rst: int, ghost k: Key, ghost r: Key)
    requires TrieOk(m, i, t, sz) && Spread(sz) && HeadsOf(m, sz) && i < NTREEBINS && 0 < nb < W64
    requires Fitting(nb, i, t, sz, T0, k0, v0, rsize0, rst0, r0) && sizebits == Shl(nb, LeftShift(i) + k0.d)
    ensures Seen(sz, nb, v, rsize) && (exact ==> v != 0 && rsize == 0 && T == T0)
    ensures v == v0 || (v in sz && TreeIndex(sz[v]) == i)
    ensures !exact && T != 0 ==> Fitting(nb, i, t, sz, T, k, v, rsize, rst, r) && k.d == k0.d + 1
    ensures !exact && T == 0 ==> Passed(nb, t, sz, v, rsize, rst, r)
  {
    hide TrieOk, KeysOk, Spread, Below, SizeAt, HeadsOf, Over, NodeAt, Child, Fitting, Passed, Shl, SignBit, LeftShift;
    exact, T, v, rsize, rst, k, r := false, T0, v0, rsize0, rst0, k0, r0;
    assert Seen(sz, nb, v0, rsize0) && k0 in t && T0 == NodeAt(t, k0) by { FittingAt(nb, i, t, sz, T0, k0, v0, rsize0, rst0, r0); }
    KeysOfTrie(m, i, t, sz);
    Visit(m, i, t, sz, k0);
    var trem := (ChunkSize(m, T0) - nb) % W64;
    if trem < rsize {
      v := T0;
      rsize := trem;
      if rsize == 0 { return true, T, v, rsize, rst, k, r; }
    }
    Compared(nb, i, t, sz, T0, k0, v0, rsize0, rst0, r0, v, rsize);
    var rt := Child(m, T0, 1);
    var b := if SignBit(sizebits) then 1 else 0;
    T := Child(m, T0, b);
    k := Kid(k0, b);
    KidsDiffer(m, i, t, sz, k0);
    if rt != 0 && rt != T {
      rst := rt;
      r := Kid(k0, 1);
    }
    FittingAt(nb, i, t, sz, T0, k0, v0, rsize0, rst0, r0);
    if k0.d == Width(i) {
      FitBottom(nb, i, t, sz, T0, k0, v, rsize, rst0, r0);
    } else {
      FitDown(nb, i, t, sz, T0, k0, v, rsize, rst0, r0, b, rst, r);
      if T == 0 {
        FitEnd(nb, i, t, sz, k, v, rsize, rst, r);
      } else {
        DepthBound(m, i, t, sz, k);
        FittingIs(nb, i, t, sz, T, k, v, rsize, rst, r);
      }
    }
  }

  lemma FittingAt(nb: nat, i: nat, t: Trie, sz: Sizes, T: int, k: Key, v: int, rsize: nat, rst: int, r: Key)
    requires Fitting(nb, i, t, sz, T, k, v, rsize, rst, r)
    ensures k in t && T == NodeAt(t, k) && k.d <= Width(i) && Seen(sz, nb, v, rsize)
  {}

  lemma FittingIs(nb: nat, i: nat, t: Trie, sz: Sizes, T: int, k: Key, v: int, rsize: nat, rst: int, r: Key)
    requires k in t && T == NodeAt(t, k) && k.d <= Width(i) && Seen(sz, nb, v, rsize) && (rst != 0 ==> r in t && rst == NodeAt(t, r))
    requires nb < MAX_ADDR ==>
               && OnPath(nb, i, k) && (rst != 0 ==> Beyond(t, sz, k, r, nb))
               && forall l :: l in t ==> Ahead(t, sz, k, rst, r, nb, rsize, l)
    ensures Fitting(nb, i, t, sz, T, k, v, rsize, rst, r)
  {}

  /** The two children of a node are different. */
  lemma KidsDiffer(m: Mem, i: nat, t: Trie, sz: Sizes, k: Key)
    requires TrieOk(m, i, t, sz) && Spread(sz) && k in t && i < NTREEBINS
    ensures NodeAt(t, Kid(k, 1)) != 0 ==> NodeAt(t, Kid(k, 0)) != NodeAt(t, Kid(k, 1))
  {
    AsBut(m, i, t, sz, k);
    if Kid(k, 1) in t {
      AsBut(m, i, t, sz, Kid(k, 1));
      NotBoth(m, i, t, sz, Kid(k, 1), Kid(k, 0));
    }
  }

  /** The first part of `tmalloc_large`: the bin where a chunk of size nb would be. */
  method FindFit(m: Mem, root: int, nb: nat, i: nat, ghost t: Trie, ghost sz: Sizes)
    returns (T: int, v: int, rsize: nat, ghost k: Key)
    requires TrieOk(m, i, t, sz) && Spread(sz) && HeadsOf(m, sz) && i < NTREEBINS && 256 <= nb < W64 && i == TreeIndex(nb)
    requires root != 0 && root == R(m, TreeBinAt(i)) && t != map[]
    ensures Seen(sz, nb, v, rsize) && (T != 0 ==> k in t && T == NodeAt(t, k)) && (v != 0 ==> TreeIndex(sz[v]) == i)
    ensures T != 0 && Hot(nb, v, rsize) ==> forall l :: l in t && Below(k, l) ==> SizeAt(t, sz, l) >= nb
    ensures nb < MAX_ADDR ==> forall l :: l in t && SizeAt(t, sz, l) >= nb ==>
              if T != 0 && Hot(nb, v, rsize) then Left(t, sz, k, nb, rsize, SizeAt(t, sz, l)) else SizeAt(t, sz, l) >= nb + rsize
  {
    hide TrieOk, KeysOk, Spread, Below, SizeAt, HeadsOf, Over, NodeAt, Child, Fitting, Shl, SignBit, LeftShift, R;
    T, v, rsize := root, 0, (W64 - nb) % W64;
    var sizebits := Shl(nb, LeftShift(i));
    var rst := 0;
    k := RootKey(i);
    ghost var r := k;
    RootIn(m, i, t, sz);
    RootFitting(m, i, t, sz, nb);
    while true
      invariant v != 0 ==> v in sz && TreeIndex(sz[v]) == i
      invariant Fitting(nb, i, t, sz, T, k, v, rsize, rst, r) && k.d <= Width(i) && sizebits == Shl(nb, LeftShift(i) + k.d)
      decreases Width(i) - k.d
    {
      var exact, T1, rst1;
      ghost var k1, r1;
      FittingAt(nb, i, t, sz, T, k, v, rsize, rst, r);
      exact, T1, v, rsize, rst1, k1, r1 := FitStep(m, T, nb, sizebits, v, rsize, rst, i, t, sz, k, r);
      if exact { T := T1; break; }
      T, rst := T1, rst1;
      if T == 0 {
        T := rst;
        k := r1;
        break;
      }
      k, r := k1, r1;
      FittingAt(nb, i, t, sz, T, k, v, rsize, rst, r);
      ShlStep(nb, i, k.d);
      sizebits := sizebits * 2 % W64;
    }
  }

  lemma ShlStep(nb: nat, i: nat, d: nat)
    requires i < NTREEBINS && d > 0
    ensures Shl(nb, LeftShift(i) + d) == Shl(nb, LeftShift(i) + d - 1) * 2 % W64
  {}

  lemma RootFitting(m: Mem, i: nat, t: Trie, sz: Sizes, nb: nat)
    requires TrieOk(m, i, t, sz) && i < NTREEBINS && 256 <= nb < W64 && i == TreeIndex(nb) && RootKey(i) in t
    ensures Fitting(nb, i, t, sz, NodeAt(t, RootKey(i)), RootKey(i), 0, W64 - nb, 0, RootKey(i))
  {
    hide TrieOk, KeysOk, Below, SizeAt, Over, NodeAt;
    KeysOfTrie(m, i, t, sz);
    forall l | l in t
      ensures Below(RootKey(i), l)
    {
      FirstFits(i, t, sz, l);
      RootBelow(i, sz, l, t[l][0]);
    }
    if nb < MAX_ADDR { IndexBits(nb); }
  }

  // ---------------------------------------------------------------- all bins

  /** Bins are ordered by size. */
  lemma BinOrder(sz: Sizes, tries: seq<Trie>, i: nat, k: Key, a: int)
    requires |tries| == NTREEBINS && i < NTREEBINS && KeysOk(i, tries[i], sz) && k in tries[i]
    requires a in sz && Large(sz[a])
    ensures TreeIndex(sz[a]) > i ==> sz[a] > SizeAt(tries[i], sz, k)
    ensures TreeIndex(sz[a]) < i ==> sz[a] < SizeAt(tries[i], sz, k)
  {
    var t := tries[i];
    FirstFits(i, t, sz, k);
    SizesOfNodes(i, t, sz, k, 0);
    if sz[a] <= SizeAt(t, sz, k) { IndexMonotone(sz[a], SizeAt(t, sz, k)); }
    if SizeAt(t, sz, k) <= sz[a] { IndexMonotone(SizeAt(t, sz, k), sz[a]); }
  }

  /** A chunk of a tree bin has the size of one of its nodes. */
  lemma NodeOfSize(small: seq<seq<int>>, tries: seq<Trie>, sz: Sizes, a: int) returns (k: Key)
    requires a in sz && Large(sz[a]) && |small| == NSMALLBINS && |tries| == NTREEBINS && Binned(small, tries, sz, a)
    requires KeysOk(TreeIndex(sz[a]), tries[TreeIndex(sz[a])], sz)
    ensures k in tries[TreeIndex(sz[a])] && SizeAt(tries[TreeIndex(sz[a])], sz, k) == sz[a]
  {
    hide KeysOk, SizeAt;
    var t := tries[TreeIndex(sz[a])];
    k :| k in t && a in t[k];
    var j :| 0 <= j < |t[k]| && t[k][j] == a;
    SizesOfNodes(TreeIndex(sz[a]), t, sz, k, j);
  }

  lemma BinAt(m: Mem, smallmap: nat, treemap: nat, small: seq<seq<int>>, tries: seq<Trie>, sz: Sizes, i: nat)
    requires BinsOk(m, smallmap, treemap, small, tries, sz) && i < NTREEBINS
    ensures |tries| == NTREEBINS && TrieOk(m, i, tries[i], sz) && Spread(sz) && KeysOk(i, tries[i], sz)
    ensures R(m, TreeBinAt(i)) != 0 <==> tries[i] != map[]
    ensures tries[i] != map[] ==> RootKey(i) in tries[i] && R(m, TreeBinAt(i)) == NodeAt(tries[i], RootKey(i))
    ensures Bit(treemap, i) <==> tries[i] != map[]
  {
    var t := tries[i];
    assert TrieOk(m, i, t, sz);
    if t != map[] {
      RootIn(m, i, t, sz);
      NodesPositive(i, t, sz, RootKey(i));
      FirstFits(i, t, sz, RootKey(i));
    }
  }

  lemma ChunkAt(m: Mem, smallmap: nat, treemap: nat, small: seq<seq<int>>, tries: seq<Trie>, sz: Sizes, a: int) returns (k: Key)
    requires BinsOk(m, smallmap, treemap, small, tries, sz) && a in sz && Large(sz[a])
    ensures |tries| == NTREEBINS && k in tries[TreeIndex(sz[a])] && SizeAt(tries[TreeIndex(sz[a])], sz, k) == sz[a]
    ensures KeysOk(TreeIndex(sz[a]), tries[TreeIndex(sz[a])], sz)
  {
    hide KeysOk, TrieOk;
    BinAt(m, smallmap, treemap, small, tries, sz, TreeIndex(sz[a]));
    k := NodeOfSize(small, tries, sz, a);
  }

  /** A chunk that is large enough is in the bin of the requested size or a later one. */
  lemma EnoughBin(sz: Sizes, nb: nat, a: int)
    requires Enough(sz, nb, a) && nb >= 256
    ensures nb < MAX_ADDR && TreeIndex(nb) <= TreeIndex(sz[a])
  {
    IndexMonotone(nb, sz[a]);
  }

  /** After the first part of the search, if it has found something. */
  lemma SameBinLeft(m: Mem, smallmap: nat, treemap: nat, small: seq<seq<int>>, tries: seq<Trie>, sz: Sizes, nb: nat,
                    T: int, k: Key, v: int, rsize: nat)
    requires BinsOk(m, smallmap, treemap, small, tries, sz) && 256 <= nb < W64 && Seen(sz, nb, v, rsize)
    requires (T != 0 || v != 0) && (v != 0 ==> TreeIndex(sz[v]) == TreeIndex(nb))
    requires nb < MAX_ADDR ==> forall l :: l in tries[TreeIndex(nb)] && SizeAt(tries[TreeIndex(nb)], sz, l) >= nb ==>
               var t, s := tries[TreeIndex(nb)], SizeAt(tries[TreeIndex(nb)], sz, l);
               if T != 0 && Hot(nb, v, rsize) then Left(t, sz, k, nb, rsize, s) else s >= nb + rsize
    ensures forall a :: Enough(sz, nb, a) ==>
              if T != 0 && Hot(nb, v, rsize) then Left(tries[TreeIndex(nb)], sz, k, nb, rsize, sz[a]) else sz[a] >= nb + rsize
  {
    hide BinsOk, KeysOk, TrieOk, Below, SizeAt, TreeIndex, SizeBelow;
    var idx := TreeIndex(nb);
    BinAt(m, smallmap, treemap, small, tries, sz, idx);
    forall a | Enough(sz, nb, a)
      ensures if T != 0 && Hot(nb, v, rsize) then Left(tries[idx], sz, k, nb, rsize, sz[a]) else sz[a] >= nb + rsize
    {
      EnoughBin(sz, nb, a);
      if TreeIndex(sz[a]) == idx {
        var l := ChunkAt(m, smallmap, treemap, small, tries, sz, a);
        assert SizeAt(tries[idx], sz, l) == sz[a];
      } else {
        forall l | l in tries[idx]
          ensures sz[a] > SizeAt(tries[idx], sz, l)
        {
          BinOrder(sz, tries, idx, l, a);
        }
        if v != 0 {
          var l := ChunkAt(m, smallmap, treemap, small, tries, sz, v);
          assert sz[a] > sz[v];
        }
      }
    }
  }

  /** After the first part of the search, if it has found nothing. */
  lemma NoFit(m: Mem, smallmap: nat, treemap: nat, small: seq<seq<int>>, tries: seq<Trie>, sz: Sizes, nb: nat)
    requires BinsOk(m, smallmap, treemap, small, tries, sz) && 256 <= nb < W64
    requires nb < MAX_ADDR ==> forall l :: l in tries[TreeIndex(nb)] ==> SizeAt(tries[TreeIndex(nb)], sz, l) < nb
    ensures forall a :: Enough(sz, nb, a) ==> TreeIndex(sz[a]) > TreeIndex(nb)
  {
    hide BinsOk, KeysOk, TrieOk, SizeAt, TreeIndex;
    forall a | Enough(sz, nb, a)
      ensures TreeIndex(sz[a]) > TreeIndex(nb)
    {
      EnoughBin(sz, nb, a);
      var l := ChunkAt(m, smallmap, treemap, small, tries, sz, a);
    }
  }

  /** The bin of a chunk is marked. */
  lemma BinMarked(m: Mem, smallmap: nat, treemap: nat, small: seq<seq<int>>, tries: seq<Trie>, sz: Sizes, nb: nat, a: int)
    requires BinsOk(m, smallmap, treemap, small, tries, sz) && a in sz && Large(sz[a]) && TreeIndex(sz[a]) > TreeIndex(nb)
    ensures Bit(Above(treemap, TreeIndex(nb)), TreeIndex(sz[a])) && Above(treemap, TreeIndex(nb)) != 0
  {
    hide BinsOk, KeysOk, TrieOk, SizeAt, TreeIndex, Above, Bit;
    var l := ChunkAt(m, smallmap, treemap, small, tries, sz, a);
    BinAt(m, smallmap, treemap, small, tries, sz, TreeIndex(sz[a]));
    AboveBits(treemap, TreeIndex(nb), TreeIndex(sz[a]));
    NoBits(Above(treemap, TreeIndex(nb)), TreeIndex(sz[a]));
  }

  lemma NoBin(m: Mem, smallmap: nat, treemap: nat, small: seq<seq<int>>, tries: seq<Trie>, sz: Sizes, nb: nat)
    requires BinsOk(m, smallmap, treemap, small, tries, sz) && Above(treemap, TreeIndex(nb)) == 0
    requires forall a :: Enough(sz, nb, a) ==> TreeIndex(sz[a]) > TreeIndex(nb)
    ensures forall a :: !Enough(sz, nb, a)
  {
    hide BinsOk, Above, TreeIndex;
    forall a
      ensures !Enough(sz, nb, a)
    {
      if Enough(sz, nb, a) { BinMarked(m, smallmap, treemap, small, tries, sz, nb, a); }
    }
  }

  /** The next bin that is not empty: all its chunks are large enough, and no larger than those in
      later bins. */
  lemma NextBin(m: Mem, smallmap: nat, treemap: nat, small: seq<seq<int>>, tries: seq<Trie>, sz: Sizes, nb: nat, i: nat)
    requires BinsOk(m, smallmap, treemap, small, tries, sz) && 256 <= nb < W64 && Above(treemap, TreeIndex(nb)) != 0
    requires i == Ffs(Above(treemap, TreeIndex(nb)))
    requires forall a :: Enough(sz, nb, a) ==> TreeIndex(sz[a]) > TreeIndex(nb)
    ensures i < NTREEBINS && |tries| == NTREEBINS && TrieOk(m, i, tries[i], sz) && RootKey(i) in tries[i]
    ensures R(m, TreeBinAt(i)) == NodeAt(tries[i], RootKey(i)) != 0
    ensures nb < MAX_ADDR ==> forall l :: l in tries[i] ==> SizeAt(tries[i], sz, l) >= nb
    ensures forall a :: Enough(sz, nb, a) ==> Left(tries[i], sz, RootKey(i), nb, W64 - nb, sz[a])
  {
    hide BinsOk, KeysOk, TrieOk, SizeAt, TreeIndex, Above, Bit, Ffs, NodeAt, R;
    var idx, bits := TreeIndex(nb), Above(treemap, TreeIndex(nb));
    FfsBit(bits, 0);
    AboveBits(treemap, idx, i);
    MarkedBin(m, smallmap, treemap, small, tries, sz, i);
    BinAt(m, smallmap, treemap, small, tries, sz, i);
    forall l | l in tries[i] && nb < MAX_ADDR
      ensures SizeAt(tries[i], sz, l) >= nb
    {
      SizesOfNodes(i, tries[i], sz, l, 0) by { FirstFits(i, tries[i], sz, l); }
      FirstFits(i, tries[i], sz, l);
      if SizeAt(tries[i], sz, l) < nb { IndexMonotone(SizeAt(tries[i], sz, l), nb); }
    }
    forall a | Enough(sz, nb, a)
      ensures Left(tries[i], sz, RootKey(i), nb, W64 - nb, sz[a])
    {
      var k := ChunkAt(m, smallmap, treemap, small, tries, sz, a);
      BinMarked(m, smallmap, treemap, small, tries, sz, nb, a);
      FfsBit(bits, TreeIndex(sz[a]));
      if TreeIndex(sz[a]) == i {
        FirstFits(i, tries[i], sz, k);
        RootBelow(i, sz, k, tries[i][k][0]);
        assert SizeBelow(tries[i], sz, RootKey(i), sz[a]);
      } else {
        forall l | l in tries[i]
          ensures sz[a] > SizeAt(tries[i], sz, l)
        {
          BinOrder(sz, tries, i, l, a);
        }
      }
    }
  }

  lemma MarkedBin(m: Mem, smallmap: nat, treemap: nat, small: seq<seq<int>>, tries: seq<Trie>, sz: Sizes, i: nat)
    requires BinsOk(m, smallmap, treemap, small, tries, sz) && Bit(treemap, i)
    ensures i < NTREEBINS && |tries| == NTREEBINS && tries[i] != map[]
  {}

  /** Chunks in small bins are smaller than any large request. */
  lemma LargeEnough(sz: Sizes, nb: nat, small: seq<seq<int>>, tries: seq<Trie>, m: Mem, smallmap: nat, treemap: nat)
    requires BinsOk(m, smallmap, treemap, small, tries, sz) && nb >= 256
    ensures forall a :: a in sz && sz[a] >= nb ==> Enough(sz, nb, a)
    ensures forall a :: a in sz ==> sz[a] < MAX_ADDR
  {
    forall a | a in sz
      ensures (sz[a] >= nb ==> Enough(sz, nb, a)) && sz[a] < MAX_ADDR
    {
      assert Binned(small, tries, sz, a);
    }
  }

  /** The searches of `tmalloc_large` over all tree bins. */
  method FindLarge(m: Mem, treemap: nat, nb: nat, ghost smallmap: nat, ghost small: seq<seq<int>>, ghost tries: seq<Trie>,
                   ghost sz: Sizes) returns (v: int, rsize: nat)
    requires BinsOk(m, smallmap, treemap, small, tries, sz) && HeadsOf(m, sz) && 256 <= nb < W64
    ensures v == 0 ==> forall a :: a in sz ==> sz[a] < nb
    ensures v != 0 ==> v in sz && Large(sz[v]) && sz[v] >= nb && rsize == sz[v] - nb
    ensures v != 0 ==> forall a :: a in sz && sz[a] >= nb ==> sz[a] >= sz[v]
  {
    hide BinsOk, TrieOk, KeysOk, Spread, Below, SizeAt, HeadsOf, SizeBelow, Over, NodeAt, TreeIndex, Left;
    var idx := TreeIndex(nb);
    BinAt(m, smallmap, treemap, small, tries, sz, idx);
    ghost var i, t, k := idx, tries[idx], RootKey(idx);
    var T := R(m, TreeBinAt(idx));
    v, rsize := 0, W64 - nb;
    if T != 0 {
      T, v, rsize, k := FindFit(m, T, nb, idx, t, sz);
    }
    if T == 0 && v == 0 {
      NoneSeen(idx, t, sz, nb, rsize);
      NoFit(m, smallmap, treemap, small, tries, sz, nb);
      var leftbits := Above(treemap, idx);
      if leftbits != 0 {
        i := Ffs(leftbits);
        NextBin(m, smallmap, treemap, small, tries, sz, nb, i);
        t, k := tries[i], RootKey(i);
        T := R(m, TreeBinAt(Ffs(leftbits)));
      } else {
        NoBin(m, smallmap, treemap, small, tries, sz, nb);
      }
    } else {
      SameBinLeft(m, smallmap, treemap, small, tries, sz, nb, T, k, v, rsize);
    }
    LargeEnough(sz, nb, small, tries, m, smallmap, treemap);
    v, rsize := FindLeast(m, T, nb, v, rsize, i, t, sz, k);
  }

  /** Nothing was seen: all chunks of the bin are too small. */
  lemma NoneSeen(i: nat, t: Trie, sz: Sizes, nb: nat, rsize: nat)
    requires KeysOk(i, t, sz) && 256 <= nb < W64 && rsize == W64 - nb
    requires t == map[] || (nb < MAX_ADDR ==> forall l :: l in t && SizeAt(t, sz, l) >= nb ==> SizeAt(t, sz, l) >= nb + rsize)
    ensures nb < MAX_ADDR ==> forall l :: l in t ==> SizeAt(t, sz, l) < nb
  {
    hide KeysOk, SizeAt;
    forall l | l in t && nb < MAX_ADDR
      ensures SizeAt(t, sz, l) < nb
    {
      FirstFits(i, t, sz, l);
      SizesOfNodes(i, t, sz, l, 0);
    }
  }

  /** The search of `tmalloc_small`: the smallest chunk of all tree bins, although it looks only at
      the leftmost nodes of one tree. */
  method FindSmall(m: Mem, treemap: nat, nb: nat, ghost smallmap: nat, ghost small: seq<seq<int>>, ghost tries: seq<Trie>,
                   ghost sz: Sizes) returns (v: int, rsize: nat)
    requires BinsOk(m, smallmap, treemap, small, tries, sz) && HeadsOf(m, sz) && treemap != 0 && 0 < nb < 256
    ensures v in sz && Large(sz[v]) && rsize == sz[v] - nb
    ensures forall a :: a in sz && Large(sz[a]) ==> sz[a] >= sz[v]
  {
    hide BinsOk, TrieOk, KeysOk, Spread, Below, SizeAt, HeadsOf, SizeBelow, Over, NodeAt, TreeIndex, Child;
    var i := Ffs(treemap);
    FirstBin(m, smallmap, treemap, small, tries, sz, nb, i);
    ghost var t, k := tries[i], RootKey(i);
    var T := R(m, TreeBinAt(i));
    Visit(m, i, t, sz, k);
    BelowSelf(k);
    v := T;
    rsize := ChunkSize(m, T) - nb;
    T := LeftmostChild(m, T);
    SmallStep(m, i, t, sz, k, nb, rsize);
    k := if Kid(k, 0) in t then Kid(k, 0) else Kid(k, 1);
    if T != 0 { DepthBound(m, i, t, sz, k); }
    while T != 0
      invariant T != 0 ==> k in t && T == NodeAt(t, k) && k.d <= Width(i)
      invariant v in sz && Large(sz[v]) && rsize == sz[v] - nb
      invariant forall a :: Enough(sz, nb, a) ==> if T != 0 then Left(t, sz, k, nb, rsize, sz[a]) else sz[a] >= nb + rsize
      decreases if T != 0 then Width(i) + 1 - k.d else 0
    {
      Visit(m, i, t, sz, k);
      BelowSelf(k);
      var trem := ChunkSize(m, T) - nb;
      if trem < rsize {
        rsize := trem;
        v := T;
      }
      T := LeftmostChild(m, T);
      SmallStep(m, i, t, sz, k, nb, rsize);
      k := if Kid(k, 0) in t then Kid(k, 0) else Kid(k, 1);
      if T != 0 { DepthBound(m, i, t, sz, k); }
    }
    assert forall a :: a in sz && Large(sz[a]) ==> Enough(sz, nb, a);
  }

  /** A node was looked at: what is left is below its leftmost child. */
  lemma SmallStep(m: Mem, i: nat, t: Trie, sz: Sizes, k: Key, nb: nat, rsize: nat)
    requires TrieOk(m, i, t, sz) && k in t && SizeAt(t, sz, k) >= nb + rsize
    ensures forall s :: SizeBelow(t, sz, k, s) || Over(t, sz, k, s) || s >= nb + rsize ==>
              if Kid(k, 0) in t then Left(t, sz, Kid(k, 0), nb, rsize, s)
              else if Kid(k, 1) in t then Left(t, sz, Kid(k, 1), nb, rsize, s) else s >= nb + rsize
  {
    hide TrieOk, KeysOk, SizeBelow, Over, SizeAt;
    KeysOfTrie(m, i, t, sz);
    forall s | SizeBelow(t, sz, k, s) || Over(t, sz, k, s) || s >= nb + rsize
      ensures if Kid(k, 0) in t then Left(t, sz, Kid(k, 0), nb, rsize, s)
              else if Kid(k, 1) in t then Left(t, sz, Kid(k, 1), nb, rsize, s) else s >= nb + rsize
    {
      if s < nb + rsize { LeftmostStep(i, t, sz, k, s); }
    }
  }

  /** The first bin that is not empty. */
  lemma FirstBin(m: Mem, smallmap: nat, treemap: nat, small: seq<seq<int>>, tries: seq<Trie>, sz: Sizes, nb: nat, i: nat)
    requires BinsOk(m, smallmap, treemap, small, tries, sz) && treemap != 0 && i == Ffs(treemap)
    ensures i < NTREEBINS && |tries| == NTREEBINS && TrieOk(m, i, tries[i], sz) && RootKey(i) in tries[i] && Spread(sz)
    ensures R(m, TreeBinAt(i)) == NodeAt(tries[i], RootKey(i))
    ensures forall a :: Enough(sz, nb, a) ==> SizeBelow(tries[i], sz, RootKey(i), sz[a]) || Over(tries[i], sz, RootKey(i), sz[a])
  {
    hide BinsOk, KeysOk, TrieOk, SizeAt, TreeIndex, Bit, Ffs, NodeAt, R;
    FfsBit(treemap, 0);
    MarkedBin(m, smallmap, treemap, small, tries, sz, i);
    BinAt(m, smallmap, treemap, small, tries, sz, i);
    forall a | Enough(sz, nb, a)
      ensures SizeBelow(tries[i], sz, RootKey(i), sz[a]) || Over(tries[i], sz, RootKey(i), sz[a])
    {
      var k := ChunkAt(m, smallmap, treemap, small, tries, sz, a);
      BinAt(m, smallmap, treemap, small, tries, sz, TreeIndex(sz[a]));
      FfsBit(treemap, TreeIndex(sz[a]));
      if TreeIndex(sz[a]) == i {
        FirstFits(i, tries[i], sz, k);
        RootBelow(i, sz, k, tries[i][k][0]);
        assert SizeBelow(tries[i], sz, RootKey(i), sz[a]);
      } else {
        forall l | l in tries[i]
          ensures sz[a] > SizeAt(tries[i], sz, l)
        {
          BinOrder(sz, tries, i, l, a);
        }
      }
    }
  }
}
