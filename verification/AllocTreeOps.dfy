/** Operations on the tree bins of the allocator (luajit/lj_alloc.c): `insert_large_chunk` and
    `unlink_large_chunk`, as they walk through memory. */
module AllocTreeOps {
  import opened Bits
  import opened AllocMem
  import opened AllocTrie
  import opened AllocUnlink
  import opened AllocBins
  import opened AllocBinOps

  ghost function Elems(t: Trie): set<int> { set k, a | k in t && a in t[k] :: a }

  // ---------------------------------------------------------------- paths

  /** Key l lies below key k, or is k. */
  predicate Below(k: Key, l: Key) { k.d <= l.d && Shr(l.q, l.d - k.d) == k.q }

  lemma BelowKid(k: Key, l: Key, b: nat)
    requires Below(k, l) && b < 2
    ensures Below(k, Kid(l, b))
  {
    assert Shr(Kid(l, b).q, l.d + 1 - k.d) == Shr(Kid(l, b).q / 2, l.d - k.d);
  }

  /** What fits below fits above. */
  lemma FitsBelow(i: nat, sz: Sizes, k: Key, l: Key, a: int)
    requires Fits(i, sz, l, a) && Below(k, l)
    ensures Fits(i, sz, k, a)
  {
    ShrAdd(sz[a], Width(i) - l.d, l.d - k.d);
  }

  /** All keys above one in the trie are in the trie. */
  lemma {:induction false} Ancestor(i: nat, t: Trie, sz: Sizes, l: Key, k: Key)
    requires KeysOk(i, t, sz) && l in t && Below(k, l)
    ensures k in t
    decreases l.d
  {
    if l.d > k.d {
      UpIn(i, t, sz, l);
      assert Shr(l.q, l.d - k.d) == Shr(l.q / 2, l.d - 1 - k.d);
      Ancestor(i, t, sz, Up(l), k);
    }
  }

  /** Two keys that a chunk fits lie below each other. */
  lemma FitsBoth(i: nat, sz: Sizes, k: Key, l: Key, a: int, b: int)
    requires Fits(i, sz, k, a) && Fits(i, sz, l, b) && sz[a] == sz[b] && k.d <= l.d
    ensures Below(k, l)
  {
    ShrAdd(sz[a], Width(i) - l.d, l.d - k.d);
  }

  /** The highest bit of the shifted size tells the way. */
  lemma Way(s: nat, i: nat, d: nat)
    requires i < NTREEBINS && d < Width(i)
    ensures SignBit(Shl(s, LeftShift(i) + d)) <==> Bit(s, Width(i) - d - 1)
  {
    SignIsBit63(Shl(s, LeftShift(i) + d));
    ShlBits(s, LeftShift(i) + d, Width(i) - d - 1);
  }

  // ---------------------------------------------------------------- what is written

  lemma Wrote(m: Mem, c: int, v: int, neg: set<int>, S: set<int>, sz: Sizes, a: int)
    requires c in neg || (a in S && InChunk(sz, a, c))
    ensures Changed(m, m[c := v], neg, S, sz)
  {}

  lemma InElems(i: nat, t: Trie, sz: Sizes, k: Key, j: nat)
    requires KeysOk(i, t, sz) && k in t && j < |t[k]|
    ensures t[k][j] in Elems(t) && t[k][j] in sz && Large(sz[t[k][j]]) && TreeIndex(sz[t[k][j]]) == i
  {
    hide KeysOk, Elems;
    SizesOfNodes(i, t, sz, k, j);
    assert t[k][j] in t[k];
    ElemsIn(t, t[k][j]);
  }

  lemma ElemsIndex(i: nat, t: Trie, sz: Sizes)
    requires KeysOk(i, t, sz)
    ensures forall a :: a in Elems(t) ==> a in sz && Large(sz[a]) && TreeIndex(sz[a]) == i
  {
    forall a | a in Elems(t)
      ensures a in sz && Large(sz[a]) && TreeIndex(sz[a]) == i
    {
      var k :| k in t && a in t[k];
      var j :| 0 <= j < |t[k]| && t[k][j] == a;
      SizesOfNodes(i, t, sz, k, j);
    }
  }

  lemma ElemsIn(t: Trie, a: int)
    ensures a in Elems(t) <==> In(t, a)
  {}

  /** Writing a word of a large chunk. */
  lemma WroteLarge(m: Mem, c: int, v: int, neg: set<int>, S: set<int>, sz: Sizes, a: int)
    requires a in S && a in sz && Large(sz[a]) && a + 16 <= c <= a + 56
    ensures Changed(m, m[c := v], neg, S, sz)
  {
    Wrote(m, c, v, neg, S, sz, a);
  }

  lemma ChangedBlank(m: Mem, i: nat, x: int, neg: set<int>, S: set<int>, sz: Sizes)
    requires x in S && x in sz && Large(sz[x])
    ensures Changed(m, Blank(m, i, x), neg, S, sz)
  {
    var m1 := m[x + 56 := i];
    var m2 := m1[x + 32 := 0];
    WroteLarge(m, x + 56, i, neg, S, sz, x);
    WroteLarge(m1, x + 32, 0, neg, S, sz, x);
    WroteLarge(m2, x + 40, 0, neg, S, sz, x);
    ChangedTrans(m, m1, m2, neg, S, sz);
    ChangedTrans(m, m2, m2[x + 40 := 0], neg, S, sz);
  }

  lemma ChangedHangUp(m: Mem, slot: int, parent: int, x: int, neg: set<int>, S: set<int>, sz: Sizes, a: int)
    requires x in S && x in sz && Large(sz[x])
    requires slot in neg || (a in S && a in sz && Large(sz[a]) && a + 16 <= slot <= a + 56)
    ensures Changed(m, HangUp(m, slot, parent, x), neg, S, sz)
  {
    var m1 := m[slot := x];
    var m2 := m1[x + 48 := parent];
    var m3 := m2[x + 16 := x];
    if slot in neg { Wrote(m, slot, x, neg, S, sz, a); } else { WroteLarge(m, slot, x, neg, S, sz, a); }
    WroteLarge(m1, x + 48, parent, neg, S, sz, x);
    WroteLarge(m2, x + 16, x, neg, S, sz, x);
    WroteLarge(m3, x + 24, x, neg, S, sz, x);
    ChangedTrans(m, m1, m2, neg, S, sz);
    ChangedTrans(m, m2, m3, neg, S, sz);
    ChangedTrans(m, m3, m3[x + 24 := x], neg, S, sz);
  }

  lemma ChangedLinkIn(m: Mem, b: int, f: int, x: int, neg: set<int>, S: set<int>, sz: Sizes)
    requires forall a :: a in {b, f, x} ==> a in S && a in sz && Large(sz[a])
    ensures Changed(m, LinkIn(m, b, f, x), neg, S, sz)
  {
    var m1 := m[b + 16 := x];
    var m2 := m1[f + 24 := x];
    var m3 := m2[x + 16 := f];
    WroteLarge(m, b + 16, x, neg, S, sz, b);
    WroteLarge(m1, f + 24, x, neg, S, sz, f);
    WroteLarge(m2, x + 16, f, neg, S, sz, x);
    WroteLarge(m3, x + 24, b, neg, S, sz, x);
    ChangedTrans(m, m1, m2, neg, S, sz);
    ChangedTrans(m, m2, m3, neg, S, sz);
    ChangedTrans(m, m3, m3[x + 24 := b], neg, S, sz);
  }

  lemma ChangedLinkOut(m: Mem, f: int, b: int, neg: set<int>, S: set<int>, sz: Sizes)
    requires forall a :: a in {b, f} ==> a in S && a in sz && Large(sz[a])
    ensures Changed(m, LinkOut(m, f, b), neg, S, sz)
  {
    WroteLarge(m, f + 24, b, neg, S, sz, f);
    WroteLarge(m[f + 24 := b], b + 16, f, neg, S, sz, b);
    ChangedTrans(m, m[f + 24 := b], LinkOut(m, f, b), neg, S, sz);
  }

  lemma ChangedAdopt(m: Mem, r: int, x: int, b: nat, neg: set<int>, S: set<int>, sz: Sizes)
    requires b < 2 && r in S && r in sz && Large(sz[r])
    requires var c := Child(m, x, b); c != 0 ==> c in S && c in sz && Large(sz[c])
    ensures Changed(m, Adopt(m, r, x, b), neg, S, sz)
  {
    var c := Child(m, x, b);
    if c != 0 {
      var m1 := m[r + 32 + 8 * b := c];
      WroteLarge(m, r + 32 + 8 * b, c, neg, S, sz, r);
      WroteLarge(m1, c + 48, r, neg, S, sz, c);
      ChangedTrans(m, m1, m1[c + 48 := r], neg, S, sz);
    }
  }

  // ---------------------------------------------------------------- insertion

  /** The search has come to key k: no node above has size s. */
  ghost predicate Searching(i: nat, t: Trie, sz: Sizes, k: Key, x: int) {
    && k in t && Fits(i, sz, k, x)
    && forall l :: l in t && l.d < k.d ==> SizeAt(t, sz, l) != sz[x]
  }

  /** The node at k has another size: the search goes on one level below. */
  lemma SearchOn(i: nat, t: Trie, sz: Sizes, k: Key, x: int)
    requires KeysOk(i, t, sz) && Searching(i, t, sz, k, x) && SizeAt(t, sz, k) != sz[x]
    ensures k.d < Width(i)
    ensures var b := if Bit(sz[x], Width(i) - k.d - 1) then 1 else 0;
            && Fits(i, sz, Kid(k, b), x)
            && (Kid(k, b) in t ==> Searching(i, t, sz, Kid(k, b), x))
            && (Kid(k, b) !in t ==> forall l :: l in t ==> SizeAt(t, sz, l) != sz[x])
  {
    hide KeysOk, RingFits, SizeAt;
    FirstFits(i, t, sz, k);
    SizeNew(t, sz, k);
    if k.d == Width(i) { FullDepth(i, sz, k, x, t[k][0]); }
    NextKey(i, sz, k, x);
    var b := if Bit(sz[x], Width(i) - k.d - 1) then 1 else 0;
    forall l | l in t && (l.d <= k.d || Kid(k, b) !in t)
      ensures SizeAt(t, sz, l) != sz[x]
    {
      FirstFits(i, t, sz, l);
      SizeNew(t, sz, l);
      if SizeAt(t, sz, l) == sz[x] {
        if l.d <= k.d {
          FitsBoth(i, sz, l, k, t[l][0], x);
        } else {
          FitsBoth(i, sz, Kid(k, b), l, x, t[l][0]);
          Ancestor(i, t, sz, l, Kid(k, b));
        }
      }
    }
  }

  /** `insert_large_chunk`, once the bin is known not to be empty. */
  method HangIn(ms: MallocState, x: int, s: nat, i: nat, ghost m: Mem, ghost sz: Sizes)
    requires i < NTREEBINS && ms.mem == Blank(m, i, x) && Spread(sz) && x in sz && sz[x] == s && |ms.tries| == NTREEBINS
    requires TreeIndex(s) == i && Large(s) && TrieOk(m, i, ms.tries[i], sz) && !In(ms.tries[i], x) && ms.tries[i] != map[]
    requires HeadsOf(m, sz)
    modifies ms`mem, ms`tries
    ensures |ms.tries| == NTREEBINS && ms.tries == old(ms.tries)[i := ms.tries[i]] && ms.tries[i] != map[]
    ensures TrieOk(ms.mem, i, ms.tries[i], sz) && forall a :: In(ms.tries[i], a) <==> a == x || In(old(ms.tries)[i], a)
    ensures Changed(m, ms.mem, {TreeBinAt(i)}, Elems(old(ms.tries)[i]) + {x}, sz)
  {
    hide TrieOk, Spread, Changed, In, Elems, Blank, KeysOk, Fits, SlotOf, ParentOf, SizeAt, HeadsOf, NodeAt, Searching, TreeIndex;
    ghost var t, mb, S := ms.tries[i], ms.mem, Elems(ms.tries[i]) + {x};
    ChangedBlank(m, i, x, {TreeBinAt(i)}, S, sz);
    RootIn(m, i, t, sz);
    BlankRoot(m, i, x, sz);
    var T := R(ms.mem, TreeBinAt(i));
    var K := Shl(s, LeftShift(i));
    ghost var k := RootKey(i);
    RootFits(i, sz, x);
    RootSearch(m, i, t, sz, x);
    while true
      invariant T == NodeAt(t, k) && Searching(i, t, sz, k, x) && K == Shl(s, LeftShift(i) + k.d) && k.d <= Width(i)
      invariant ms.mem == mb && ms.tries == old(ms.tries)
      decreases Width(i) - k.d
    {
      assert k in t && Fits(i, sz, k, x) by { SearchingAt(i, t, sz, k, x); }
      NodeWords(m, i, t, sz, k, x);
      if ChunkSize(ms.mem, T) != s {
        SearchOn(i, t, sz, k, x) by { KeysOfTrie(m, i, t, sz); }
        Way(s, i, k.d);
        var b := if SignBit(K) then 1 else 0;
        K := K * 2 % W64;
        var C := T + 32 + 8 * b;
        if R(ms.mem, C) != 0 {
          T := R(ms.mem, C);
          k := Kid(k, b);
        } else {
          ms.mem := ms.mem[C := x][x + 48 := T][x + 16 := x][x + 24 := x];
          SlotOfKid(i, t, k, b);
          HungIn(m, ms.mem, i, t, sz, Kid(k, b), x);
          ms.tries := ms.tries[i := t[Kid(k, b) := [x]]];
          break;
        }
      } else {
        var F := Fd(ms.mem, T);
        ms.mem := ms.mem[T + 16 := x][F + 24 := x][x + 16 := F][x + 24 := T][x + 48 := 0];
        Joined(m, ms.mem, i, t, sz, k, x);
        ms.tries := ms.tries[i := t[k := [t[k][0], x] + t[k][1..]]];
        break;
      }
    }
  }

  lemma SlotOfKid(i: nat, t: Trie, k: Key, b: nat)
    requires b < 2
    ensures SlotOf(i, t, Kid(k, b)) == NodeAt(t, k) + 32 + 8 * b && ParentOf(i, t, Kid(k, b)) == NodeAt(t, k)
    ensures Up(Kid(k, b)) == k
  {}

  lemma SearchingAt(i: nat, t: Trie, sz: Sizes, k: Key, x: int)
    requires Searching(i, t, sz, k, x)
    ensures k in t && Fits(i, sz, k, x)
  {}

  lemma RootIn(m: Mem, i: nat, t: Trie, sz: Sizes)
    requires TrieOk(m, i, t, sz) && t != map[] && i < NTREEBINS
    ensures RootKey(i) in t && R(m, TreeBinAt(i)) == NodeAt(t, RootKey(i))
  {
    var l :| l in t;
    FirstFits(i, t, sz, l);
    RootBelow(i, sz, l, t[l][0]);
    Ancestor(i, t, sz, l, RootKey(i));
  }

  /** Every key of the bin lies below the root. */
  lemma RootBelow(i: nat, sz: Sizes, l: Key, a: int)
    requires Fits(i, sz, l, a) && i < NTREEBINS
    ensures Below(RootKey(i), l)
  {
    IndexBits(sz[a]);
    ShrAdd(sz[a], Width(i) - l.d, l.d);
  }

  lemma RootFits(i: nat, sz: Sizes, x: int)
    requires x in sz && Large(sz[x]) && TreeIndex(sz[x]) == i && i < NTREEBINS
    ensures Fits(i, sz, RootKey(i), x)
  {
    IndexBits(sz[x]);
  }

  lemma BlankRoot(m: Mem, i: nat, x: int, sz: Sizes)
    requires Spread(sz) && x in sz && i < NTREEBINS
    ensures R(Blank(m, i, x), TreeBinAt(i)) == R(m, TreeBinAt(i))
  {}

  lemma RootSearch(m: Mem, i: nat, t: Trie, sz: Sizes, x: int)
    requires TrieOk(m, i, t, sz) && t != map[] && i < NTREEBINS && Fits(i, sz, RootKey(i), x)
    ensures Searching(i, t, sz, RootKey(i), x)
  {
    RootIn(m, i, t, sz);
  }

  /** What the search reads from a node. */
  lemma NodeWords(m: Mem, i: nat, t: Trie, sz: Sizes, k: Key, x: int)
    requires TrieOk(m, i, t, sz) && Spread(sz) && HeadsOf(m, sz) && k in t && x in sz && Large(sz[x]) && !In(t, x)
    ensures var mb, a := Blank(m, i, x), NodeAt(t, k);
            && t[k] != [] && a == t[k][0] && ChunkSize(mb, a) == SizeAt(t, sz, k) && Fd(mb, a) == Fd(m, a)
            && Child(mb, a, 0) == NodeAt(t, Kid(k, 0)) && Child(mb, a, 1) == NodeAt(t, Kid(k, 1))
    ensures (NodeAt(t, Kid(k, 0)) != 0 <==> Kid(k, 0) in t) && (NodeAt(t, Kid(k, 1)) != 0 <==> Kid(k, 1) in t)
  {
    hide KeysOk, RingFits, RingLinked, Fits, TrieOk, Spread, In, Blank, SizeAt, R;
    KeysOfTrie(m, i, t, sz);
    NodeIn(m, i, t, sz, k);
    SizesOfNodes(i, t, sz, k, 0);
    NodesAndChunk(i, t, sz, x);
    BlankElse(m, i, x, t[k][0]);
    forall b | 0 <= b < 2
      ensures NodeAt(t, Kid(k, b)) != 0 <==> Kid(k, b) in t
    {
      if Kid(k, b) in t { NodeIn(m, i, t, sz, Kid(k, b)); NodesPositive(i, t, sz, Kid(k, b)); }
    }
  }

  lemma BlankElse(m: Mem, i: nat, x: int, a: int)
    requires Apart64(a, x)
    ensures SameWords(m, Blank(m, i, x), a) && Head(Blank(m, i, x), a) == Head(m, a)
  {}

  /** The new chunk has become a leaf. */
  lemma HungIn(m: Mem, m1: Mem, i: nat, t: Trie, sz: Sizes, k: Key, x: int)
    requires TrieOk(m, i, t, sz) && Spread(sz) && Fits(i, sz, k, x) && k !in t && !In(t, x) && i < NTREEBINS
    requires if k.d == 0 then t == map[] else Up(k) in t
    requires forall l :: l in t ==> SizeAt(t, sz, l) != sz[x]
    requires m1 == HangUp(Blank(m, i, x), SlotOf(i, t, k), ParentOf(i, t, k), x)
    ensures TrieOk(m1, i, t[k := [x]], sz) && forall a :: In(t[k := [x]], a) <==> a == x || In(t, a)
    ensures Changed(m, m1, {TreeBinAt(i)}, Elems(t) + {x}, sz)
  {
    hide KeysOk, TrieOk, Fits, Changed, Elems, Blank, HangUp, Spread, SizeAt;
    InsertLeaf(m, i, t, sz, k, x);
    FitsLarge(i, sz, k, x);
    var neg, S, mb, a := {TreeBinAt(i)}, Elems(t) + {x}, Blank(m, i, x), NodeAt(t, if k.d > 0 then Up(k) else k);
    if k.d > 0 {
      NodeIn(m, i, t, sz, Up(k));
      InElems(i, t, sz, Up(k), 0) by { KeysOfTrie(m, i, t, sz); }
    }
    ChangedBlank(m, i, x, neg, S, sz);
    ChangedHangUp(mb, SlotOf(i, t, k), ParentOf(i, t, k), x, neg, S, sz, a);
    ChangedTrans(m, mb, m1, neg, S, sz);
    LeafIn(t, k, x);
  }

  lemma LeafIn(t: Trie, k: Key, x: int)
    requires k !in t
    ensures forall a :: In(t[k := [x]], a) <==> a == x || In(t, a)
  {
    var t1 := t[k := [x]];
    forall a
      ensures In(t1, a) <==> a == x || In(t, a)
    {
      if In(t, a) { var l :| l in t && a in t[l]; assert l in t1 && a in t1[l]; }
      assert x in t1[k];
    }
  }

  /** The new chunk has joined the ring of its size. */
  lemma Joined(m: Mem, m1: Mem, i: nat, t: Trie, sz: Sizes, k: Key, x: int)
    requires TrieOk(m, i, t, sz) && Spread(sz) && k in t && Fits(i, sz, k, x) && !In(t, x) && i < NTREEBINS
    requires SizeAt(t, sz, k) == sz[x] && t[k] != []
    requires var b, f := t[k][0], Fd(m, t[k][0]);
             m1 == Blank(m, i, x)[b + 16 := x][f + 24 := x][x + 16 := f][x + 24 := b][x + 48 := 0]
    ensures var t1 := t[k := [t[k][0], x] + t[k][1..]];
            TrieOk(m1, i, t1, sz) && forall a :: In(t1, a) <==> a == x || In(t, a)
    ensures Changed(m, m1, {TreeBinAt(i)}, Elems(t) + {x}, sz)
  {
    hide KeysOk, TrieOk, Fits, Changed, Elems, Spread, SizeAt, In, RingLinked, TreeLinked, Ring;
    var b, f, n := t[k][0], Fd(m, t[k][0]), Next(|t[k]|, 0);
    FitsLarge(i, sz, k, x);
    KeysOfTrie(m, i, t, sz);
    NodeIn(m, i, t, sz, k);
    RingIsLinked(m, i, t[k]);
    RingApart(i, t, sz, k);
    RingOfTwo(m, t[k], 0);
    NodesAndChunk(i, t, sz, x);
    assert Apart64(t[k][0], x) && Apart64(t[k][n], x);
    InsertRing(m, i, t, sz, k, x);
    var m0 := Blank(m, i, x)[x + 48 := 0];
    assert m1 == JoinRing(m, i, b, x);
    var neg, S := {TreeBinAt(i)}, Elems(t) + {x};
    InElems(i, t, sz, k, 0);
    InElems(i, t, sz, k, n);
    ChangedBlank(m, i, x, neg, S, sz);
    WroteLarge(Blank(m, i, x), x + 48, 0, neg, S, sz, x);
    ChangedTrans(m, Blank(m, i, x), m0, neg, S, sz);
    ChangedLinkIn(m0, b, f, x, neg, S, sz);
    ChangedTrans(m, m0, m1, neg, S, sz);
    JoinIn(t, k, x);
  }

  lemma JoinIn(t: Trie, k: Key, x: int)
    requires k in t && t[k] != []
    ensures var t1 := t[k := [t[k][0], x] + t[k][1..]]; forall a :: In(t1, a) <==> a == x || In(t, a)
  {
    var ys := [t[k][0], x] + t[k][1..];
    var t1 := t[k := ys];
    assert t[k] == [t[k][0]] + t[k][1..];
    assert forall a :: a in ys <==> a == x || a in t[k];
    forall a
      ensures In(t1, a) <==> a == x || In(t, a)
    {
      if In(t, a) { var l :| l in t && a in t[l]; assert l in t1 && a in t1[l]; }
      if In(t1, a) { var l :| l in t1 && a in t1[l]; assert a == x || a in t[l]; }
      assert x in t1[k];
    }
  }

  /** `insert_large_chunk`. */
  method InsertLarge(ms: MallocState, x: int, s: nat)
    requires ms.BinsValid() && x !in ms.free && Spread(ms.free[x := s]) && Large(s) && HeadsOf(ms.mem, ms.free[x := s])
    modifies ms`mem, ms`treemap, ms`tries, ms`free
    ensures ms.BinsValid() && ms.free == old(ms.free)[x := s]
    ensures OnlyFree(old(ms.mem), ms.mem, ms.free)
  {
    hide TrieOk, Spread, Changed, In, Elems, KeysOk, Fits, SmallOk, HeadsOf;
    var i := TreeIndex(s);
    var H := TreeBinAt(i);
    ghost var m, t, sz, sz1, treemap := ms.mem, ms.tries[i], ms.free, ms.free[x := s], ms.treemap;
    NotInBin(m, i, t, sz, x);
    TreeSizes(m, i, t, sz, sz1);
    ms.mem := ms.mem[x + 56 := i][x + 32 := 0][x + 40 := 0];
    MarkAll(ms.treemap, i);
    if !Bit(ms.treemap, i) {
      ms.treemap := Mark(ms.treemap, i);
      ms.mem := ms.mem[H := x][x + 48 := H][x + 16 := x][x + 24 := x];
      RootFits(i, sz1, x);
      HungIn(m, ms.mem, i, t, sz1, RootKey(i), x);
      ms.tries := ms.tries[i := t[RootKey(i) := [x]]];
    } else {
      HangIn(ms, x, s, i, m, sz1);
    }
    ghost var t1 := ms.tries[i];
    InsertedLarge(ms, m, treemap, old(ms.tries), sz, i, x, s, t1);
    ms.free := sz1;
  }

  lemma NotInBin(m: Mem, i: nat, t: Trie, sz: Sizes, x: int)
    requires TrieOk(m, i, t, sz) && x !in sz
    ensures !In(t, x)
  {}

  lemma InsertedLarge(ms: MallocState, m: Mem, treemap: nat, tries: seq<Trie>, sz: Sizes, i: nat, x: int, s: nat, t: Trie)
    requires BinsOk(m, ms.smallmap, treemap, ms.small, tries, sz) && i < NTREEBINS && x !in sz && Spread(sz[x := s])
    requires Large(s) && TreeIndex(s) == i && TrieOk(ms.mem, i, t, sz[x := s]) && t != map[]
    requires forall a :: In(t, a) <==> a == x || In(tries[i], a)
    requires Changed(m, ms.mem, {TreeBinAt(i)}, Elems(tries[i]) + {x}, sz[x := s])
    requires forall j: nat :: Bit(ms.treemap, j) <==> j == i || Bit(treemap, j)
    ensures BinsOk(ms.mem, ms.smallmap, ms.treemap, ms.small, tries[i := t], sz[x := s])
    ensures OnlyFree(m, ms.mem, sz[x := s])
  {
    hide TrieOk, Spread, Changed, In, Elems, SmallOk;
    var sz1, S := sz[x := s], Elems(tries[i]) + {x};
    ElemsIndex(i, tries[i], sz) by { KeysOfTrie(m, i, tries[i], sz); }
    ChangedFree(m, ms.mem, {TreeBinAt(i)}, S, sz1);
    forall a | a in sz1 && Large(sz1[a]) && TreeIndex(sz1[a]) == i
      ensures In(t, a)
    {
      if a != x { assert Binned(ms.small, tries, sz, a); }
    }
    BinsUpdateTree(m, ms.mem, ms.smallmap, treemap, ms.treemap, ms.small, tries, sz, sz1, sz1, i, S, t);
  }

  /** `insert_chunk`. */
  method InsertChunk(ms: MallocState, p: int, s: nat)
    requires ms.BinsValid() && p !in ms.free && Spread(ms.free[p := s]) && HeadsOf(ms.mem, ms.free[p := s]) && s < MAX_ADDR
    modifies ms`mem, ms`smallmap, ms`treemap, ms`small, ms`tries, ms`free
    ensures ms.BinsValid() && ms.free == old(ms.free)[p := s]
    ensures OnlyFree(old(ms.mem), ms.mem, ms.free)
  {
    hide HeadsOf, BinsOk, OnlyFree, Spread;
    if IsSmall(s) { InsertSmall(ms, p, s); } else { InsertLarge(ms, p, s); }
  }
}
