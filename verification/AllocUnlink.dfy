/** Taking chunks out of the tree bins of the allocator (luajit/lj_alloc.c): chunks that share
    their size with others, leaves, and inner nodes, which a leaf replaces. */
module AllocUnlink {
  import opened AllocMem
  import opened AllocTrie

  // ---------------------------------------------------------------- a chunk that is not a node

  lemma RemoveInner(m: Mem, i: nat, t: Trie, sz: map<int, nat>, k: Key, j: nat)
    requires TrieOk(m, i, t, sz) && Spread(sz) && k in t && 1 <= j < |t[k]| && i < NTREEBINS
    ensures var x := t[k][j];
            TrieOk(LinkOut(m, Fd(m, x), Bk(m, x)), i, t[k := t[k][..j] + t[k][j + 1..]], sz)
  {
    hide KeysOk, OnlyLinks, TrieOk, TreeLinked, Spread, RingLinked, RingFits, In, Fits, Ring, Apart;
    var x, ys, n := t[k][j], t[k][..j] + t[k][j + 1..], Next(|t[k]|, j);
    var f, b := t[k][n], t[k][j - 1];
    KeysOfTrie(m, i, t, sz);
    NodeIn(m, i, t, sz, k);
    RingApart(i, t, sz, k);
    RingIsLinked(m, i, t[k]);
    RingOfTwo(m, t[k], j);
    RingRemove(m, t[k], j);
    var m1, xs := LinkOut(m, f, b), [f, b];
    NodesPositive(i, t, sz, k);
    forall l, c, e | l in t && 0 <= c < |t[l]| && 0 <= e < |xs|
      ensures xs[e] == t[l][c] || Apart64(xs[e], t[l][c])
      ensures l != k ==> xs[e] != t[l][c]
    {
      if l != k || c != n { NodesDiffer(i, t, sz, k, n, l, c); }
      if l != k || c != j - 1 { NodesDiffer(i, t, sz, k, j - 1, l, c); }
    }
    LinkOutOnly(m, f, b);
    ShorterRing(m, m1, i, t[k], j, xs);
    ShorterFits(i, t, sz, k, j);
    ChangeRing(m, m1, i, t, sz, k, ys, xs);
  }

  lemma NodesPositive(i: nat, t: Trie, sz: map<int, nat>, k: Key)
    requires KeysOk(i, t, sz) && Spread(sz) && k in t
    ensures forall j :: 0 <= j < |t[k]| ==> t[k][j] > 0
  {
    assert RingFits(i, sz, k, t[k]);
  }

  lemma LinkOutOnly(m: Mem, f: int, b: int)
    ensures OnlyLinks(m, LinkOut(m, f, b), [f, b])
    ensures forall i :: f > 0 && b > 0 && 0 <= i < NTREEBINS ==> R(LinkOut(m, f, b), TreeBinAt(i)) == R(m, TreeBinAt(i))
  {
    var m1, xs := LinkOut(m, f, b), [f, b];
    forall c | R(m1, c) != R(m, c)
      ensures exists j :: 0 <= j < |xs| && IsLink(xs[j], c)
    {
      assert IsLink(xs[0], c) || IsLink(xs[1], c);
    }
  }

  lemma ShorterRing(m: Mem, m1: Mem, i: nat, xs: seq<int>, j: nat, fb: seq<int>)
    requires RingLinked(m, i, xs) && j < |xs| && 2 <= |xs| && OnlyLinks(m, m1, fb)
    requires Ring(m1, xs[..j] + xs[j + 1..])
    requires forall c, e :: 0 <= c < |xs| && 0 <= e < |fb| ==> fb[e] == xs[c] || Apart64(fb[e], xs[c])
    ensures j > 0 ==> RingLinked(m1, i, xs[..j] + xs[j + 1..])
    ensures forall c :: 0 <= c < |xs| ==> Index(m1, xs[c]) == i && (c > 0 ==> Bare(m1, xs[c]))
  {
    var ys := xs[..j] + xs[j + 1..];
    forall c | 0 <= c < |xs|
      ensures SameOthers(m, m1, xs[c])
    {
      LinksElse(m, m1, fb, xs[c]);
    }
    assert forall c :: 0 <= c < |ys| ==> ys[c] == xs[if c < j then c else c + 1];
  }

  lemma ShorterFits(i: nat, t: Trie, sz: map<int, nat>, k: Key, j: nat)
    requires KeysOk(i, t, sz) && k in t && 1 <= j < |t[k]|
    ensures RingFits(i, sz, k, t[k][..j] + t[k][j + 1..])
  {
    var ys := t[k][..j] + t[k][j + 1..];
    assert RingFits(i, sz, k, t[k]);
    assert forall c :: 0 <= c < |ys| ==> ys[c] == t[k][if c < j then c else c + 1];
  }

  // ---------------------------------------------------------------- a leaf

  /** A leaf is cut off. */
  lemma DropLeaf(m: Mem, i: nat, t: Trie, sz: map<int, nat>, k: Key)
    requires TrieOk(m, i, t, sz) && Spread(sz) && k in t && i < NTREEBINS && Kid(k, 0) !in t && Kid(k, 1) !in t
    ensures TrieOk(m[SlotOf(i, t, k) := 0], i, t - {k}, sz)
    ensures RingLinked(m[SlotOf(i, t, k) := 0], i, t[k])
    ensures Child(m[SlotOf(i, t, k) := 0], t[k][0], 0) == 0 && Child(m[SlotOf(i, t, k) := 0], t[k][0], 1) == 0
  {
    hide KeysOk, TreeLinked, Spread, RingLinked, RingFits, Fits, R;
    var slot, t1 := SlotOf(i, t, k), t - {k};
    var m1 := m[slot := 0];
    if k.d > 0 {
      UpIn(i, t, sz, k);
      NodeIn(m, i, t, sz, Up(k));
      NodesPositive(i, t, sz, Up(k));
    }
    forall l | l in t
      ensures RingLinked(m1, i, t[l]) && (l != k ==> TreeLinked(m1, i, t1, l))
    {
      DropFrame(m, m1, i, t, sz, k, l);
    }
    KeysDrop(i, t, sz, k);
    NodeIn(m, i, t, sz, k);
    FirstFits(i, t, sz, k);
    DropRoot(m, m1, i, t, sz, k);
    LeafKids(m, m1, i, t, sz, k);
  }

  lemma LeafKids(m: Mem, m1: Mem, i: nat, t: Trie, sz: map<int, nat>, k: Key)
    requires TrieOk(m, i, t, sz) && Spread(sz) && k in t && i < NTREEBINS && Kid(k, 0) !in t && Kid(k, 1) !in t
    requires m1 == m[SlotOf(i, t, k) := 0] && NodeAt(t, k) == t[k][0]
    ensures Child(m1, t[k][0], 0) == 0 && Child(m1, t[k][0], 1) == 0
  {
    assert TreeLinked(m, i, t, k);
  }

  lemma KeysDrop(i: nat, t: Trie, sz: map<int, nat>, k: Key)
    requires KeysOk(i, t, sz) && k in t && Kid(k, 0) !in t && Kid(k, 1) !in t
    ensures KeysOk(i, t - {k}, sz)
  {
    hide RingFits, SizeAt;
    var t1 := t - {k};
    forall l | l in t1 && l.d > 0
      ensures Up(l) in t1
    {
      assert l == Kid(Up(l), l.q % 2);
    }
    forall l | l in t1
      ensures SizeAt(t1, sz, l) == SizeAt(t, sz, l)
    {
      SizeSame(t, t1, sz, l);
    }
  }

  lemma SizeSame(t: Trie, t1: Trie, sz: map<int, nat>, k: Key)
    requires k in t && k in t1 && t1[k] == t[k]
    ensures SizeAt(t1, sz, k) == SizeAt(t, sz, k)
  {}

  lemma FirstFits(i: nat, t: Trie, sz: map<int, nat>, k: Key)
    requires KeysOk(i, t, sz) && k in t
    ensures t[k] != [] && Fits(i, sz, k, t[k][0])
  {
    assert RingFits(i, sz, k, t[k]);
  }

  lemma DropRoot(m: Mem, m1: Mem, i: nat, t: Trie, sz: map<int, nat>, k: Key)
    requires R(m, TreeBinAt(i)) == NodeAt(t, RootKey(i)) && k in t && t[k] != [] && Fits(i, sz, k, t[k][0]) && i < NTREEBINS
    requires m1 == m[SlotOf(i, t, k) := 0] && (k.d > 0 ==> SlotOf(i, t, k) > 0)
    ensures R(m1, TreeBinAt(i)) == NodeAt(t - {k}, RootKey(i))
  {
    if k.d == 0 { RootQ(i, sz, k, t[k][0]); }
  }

  lemma DropFrame(m: Mem, m1: Mem, i: nat, t: Trie, sz: map<int, nat>, k: Key, l: Key)
    requires TrieOk(m, i, t, sz) && Spread(sz) && k in t && l in t && i < NTREEBINS && m1 == m[SlotOf(i, t, k) := 0]
    requires (k.d > 0 ==> Up(k) in t && SlotOf(i, t, k) > 0) && Kid(k, 0) !in t && Kid(k, 1) !in t
    ensures RingLinked(m1, i, t[l]) && (l != k ==> TreeLinked(m1, i, t - {k}, l))
  {
    hide KeysOk, Spread, RingLinked, RingFits, Fits, R, TreeLinked;
    var p, slot := if k.d > 0 then NodeAt(t, Up(k)) else 0, SlotOf(i, t, k);
    NodeIn(m, i, t, sz, l);
    NodesPositive(i, t, sz, l);
    if k.d > 0 { NodeIn(m, i, t, sz, Up(k)); }
    forall j | 0 <= j < |t[l]|
      ensures if k.d > 0 && l == Up(k) && j == 0 then t[l][j] == p else SameWords(m, m1, t[l][j])
    {
      if k.d > 0 && l == Up(k) && j == 0 {
      } else {
        if k.d > 0 { NodesDiffer(i, t, sz, Up(k), 0, l, j); }
        WriteElsewhere(m, slot, 0, t[l][j]);
      }
    }
    if k.d > 0 && l == Up(k) { WriteChild(m, p, k.q % 2, 0); }
    RingLinkedHead(m, m1, i, t[l]);
    if l != k { DropTree(m, m1, i, t, sz, k, l); }
  }

  lemma WriteElsewhere(m: Mem, slot: int, v: int, a: int)
    requires slot < a + 16 || slot > a + 56
    ensures SameWords(m, m[slot := v], a)
  {}

  lemma WriteChild(m: Mem, p: int, b: nat, v: int)
    requires b < 2
    ensures var m1 := m[p + 32 + 8 * b := v];
            && Fd(m1, p) == Fd(m, p) && Bk(m1, p) == Bk(m, p) && Index(m1, p) == Index(m, p) && Parent(m1, p) == Parent(m, p)
            && Child(m1, p, b) == v && Child(m1, p, 1 - b) == Child(m, p, 1 - b)
  {}

  /** The ring of a node of which only tree fields change. */
  lemma RingLinkedHead(m: Mem, m1: Mem, i: nat, xs: seq<int>)
    requires RingLinked(m, i, xs) && forall j :: 1 <= j < |xs| ==> SameWords(m, m1, xs[j])
    requires xs != [] && Fd(m1, xs[0]) == Fd(m, xs[0]) && Bk(m1, xs[0]) == Bk(m, xs[0]) && Index(m1, xs[0]) == Index(m, xs[0])
    ensures RingLinked(m1, i, xs)
  {
    assert forall j :: 1 <= j < |xs| ==> SameWords(m, m1, xs[j]) && Bare(m, xs[j]);
    RingLinkedFrame(m, m1, i, xs);
  }

  lemma DropTree(m: Mem, m1: Mem, i: nat, t: Trie, sz: map<int, nat>, k: Key, l: Key)
    requires KeysOk(i, t, sz) && k in t && l in t && l != k && TreeLinked(m, i, t, l) && Kid(k, 0) !in t && Kid(k, 1) !in t
    requires if k.d > 0 && l == Up(k)
             then Parent(m1, NodeAt(t, l)) == Parent(m, NodeAt(t, l)) && Child(m1, NodeAt(t, l), k.q % 2) == 0
                  && Child(m1, NodeAt(t, l), 1 - k.q % 2) == Child(m, NodeAt(t, l), 1 - k.q % 2)
             else SameWords(m, m1, NodeAt(t, l))
    ensures TreeLinked(m1, i, t - {k}, l)
  {
    hide KeysOk, R;
    var t1 := t - {k};
    assert NodeAt(t1, l) == NodeAt(t, l);
    if l.d > 0 {
      UpIn(i, t, sz, l);
      assert l == Kid(Up(l), l.q % 2);
      assert NodeAt(t1, Up(l)) == NodeAt(t, Up(l));
    }
    hide NodeAt;
    KidDropped(t, k, l, 0);
    KidDropped(t, k, l, 1);
  }

  lemma KidDropped(t: Trie, k: Key, l: Key, b: nat)
    requires b < 2
    ensures NodeAt(t - {k}, Kid(l, b)) == if k.d > 0 && l == Up(k) && b == k.q % 2 then 0 else NodeAt(t, Kid(l, b))
  {
    if k.d > 0 { assert Kid(Up(k), k.q % 2) == k; }
  }

  // ---------------------------------------------------------------- an inner node

  /** The trie is in order, except that the ring at k may be broken. */
  ghost predicate TrieBut(m: Mem, i: nat, t: Trie, sz: map<int, nat>, k: Key) {
    && KeysOk(i, t, sz) && R(m, TreeBinAt(i)) == NodeAt(t, RootKey(i)) && k in t
    && (forall l :: l in t ==> TreeLinked(m, i, t, l))
    && (forall l :: l in t && l != k ==> RingLinked(m, i, t[l]))
  }

  /** r takes over a child of x. */
  function Adopt(m: Mem, r: int, x: int, b: nat): Mem
    requires b < 2
  {
    var c := Child(m, x, b);
    if c != 0 then m[r + 32 + 8 * b := c][c + 48 := r] else m
  }

  /** The end of `unlink_large_chunk`: r takes the place of x. */
  function Transplant(m: Mem, slot: int, parent: int, r: int, x: int): Mem {
    Adopt(Adopt(m[slot := r][r + 48 := parent], r, x, 0), r, x, 1)
  }

  /** None of the words that a transplant changes is a word of a. */
  predicate Untouched(a: int, slot: int, r: int, c: int) {
    (slot < a + 16 || slot > a + 56) && Apart64(a, r) && (c != 0 ==> Apart64(a, c))
  }

  lemma TransplantElse(m: Mem, slot: int, parent: int, r: int, x: int, a: int)
    requires Untouched(a, slot, r, Child(m, x, 0)) && Untouched(a, slot, r, Child(m, x, 1)) && Grounds(m, slot, r, x)
    ensures SameWords(m, Transplant(m, slot, parent, r, x), a)
  {}

  /** The nodes around a transplant do not overlap, and the slot is not in one of the children. */
  predicate Grounds(m: Mem, slot: int, r: int, x: int) {
    var c0, c1 := Child(m, x, 0), Child(m, x, 1);
    && Apart64(r, x) && (c0 != 0 ==> Apart64(c0, r) && Apart64(c0, x)) && (c1 != 0 ==> Apart64(c1, r) && Apart64(c1, x))
    && (c0 != 0 && c1 != 0 ==> Apart64(c0, c1))
    && (slot < r + 16 || slot > r + 56) && (slot < x + 16 || slot > x + 56)
    && (c0 != 0 ==> slot < c0 + 16 || slot > c0 + 56) && (c1 != 0 ==> slot < c1 + 16 || slot > c1 + 56)
  }

  lemma TransplantRoot(m: Mem, slot: int, parent: int, r: int, x: int)
    requires Grounds(m, slot, r, x) && Child(m, r, 0) == 0 && Child(m, r, 1) == 0
    ensures var m1 := Transplant(m, slot, parent, r, x);
            && R(m1, slot) == r && Parent(m1, r) == parent && Child(m1, r, 0) == Child(m, x, 0) && Child(m1, r, 1) == Child(m, x, 1)
            && Fd(m1, r) == Fd(m, r) && Bk(m1, r) == Bk(m, r) && Index(m1, r) == Index(m, r)
  {}

  lemma TransplantKid(m: Mem, slot: int, parent: int, r: int, x: int, b: nat)
    requires Grounds(m, slot, r, x) && b < 2 && Child(m, x, b) != 0
    ensures var m1, c := Transplant(m, slot, parent, r, x), Child(m, x, b);
            && Parent(m1, c) == r && Child(m1, c, 0) == Child(m, c, 0) && Child(m1, c, 1) == Child(m, c, 1)
            && Fd(m1, c) == Fd(m, c) && Bk(m1, c) == Bk(m, c) && Index(m1, c) == Index(m, c)
  {
    var m0 := m[slot := r][r + 48 := parent];
    assert Child(m0, x, 0) == Child(m, x, 0) && Child(m0, x, 1) == Child(m, x, 1);
    var m1 := Adopt(m0, r, x, 0);
    assert Child(m1, x, 1) == Child(m, x, 1);
  }

  lemma TransplantParent(m: Mem, slot: int, parent: int, r: int, x: int, p: int, b: nat)
    requires Grounds(m, slot, r, x) && b < 2 && slot == p + 32 + 8 * b && Apart64(p, r)
    requires (Child(m, x, 0) != 0 ==> Apart64(p, Child(m, x, 0))) && (Child(m, x, 1) != 0 ==> Apart64(p, Child(m, x, 1)))
    ensures var m1 := Transplant(m, slot, parent, r, x);
            && Child(m1, p, b) == r && Child(m1, p, 1 - b) == Child(m, p, 1 - b) && Parent(m1, p) == Parent(m, p)
            && Fd(m1, p) == Fd(m, p) && Bk(m1, p) == Bk(m, p) && Index(m1, p) == Index(m, p)
  {}

  lemma TransplantWord(m: Mem, slot: int, parent: int, r: int, x: int, c: int)
    requires c < 0 && r > 0 && Grounds(m, slot, r, x)
    requires Child(m, x, 0) >= 0 && Child(m, x, 1) >= 0
    ensures R(Transplant(m, slot, parent, r, x), c) == if c == slot then r else R(m, c)
  {}

  /** A ring takes the place of the one at k. */
  lemma Transplanted(m: Mem, i: nat, t: Trie, sz: map<int, nat>, k: Key, ys: seq<int>)
    requires TrieBut(m, i, t, sz, k) && Spread(sz) && i < NTREEBINS && RingFits(i, sz, k, ys) && RingLinked(m, i, ys)
    requires Child(m, ys[0], 0) == 0 && Child(m, ys[0], 1) == 0 && t[k] != [] && t[k][0] !in ys
    requires forall l :: l in t && SizeAt(t, sz, l) == sz[ys[0]] ==> l == k
    ensures TrieOk(Transplant(m, SlotOf(i, t, k), ParentOf(i, t, k), ys[0], t[k][0]), i, t[k := ys], sz)
  {
    hide KeysOk, TreeLinked, Spread, RingLinked, RingFits, Fits, R, SizeAt, TrieBut, Transplant, Site;
    RingFitsShape(i, sz, k, ys);
    InBut(m, i, t, sz, k);
    var t1, slot, parent := t[k := ys], SlotOf(i, t, k), ParentOf(i, t, k);
    var m1 := Transplant(m, slot, parent, ys[0], t[k][0]);
    IsSite(m, i, t, sz, k, ys);
    forall l | l in t1
      ensures TreeLinked(m1, i, t1, l) && RingLinked(m1, i, t1[l])
    {
      if l == k {
        TransplantedRoot(m, m1, i, t, sz, k, ys);
      } else {
        TransplantedElse(m, m1, i, t, sz, k, ys, l);
      }
    }
    SiteBut(m, i, t, sz, k, ys);
    KeysTransplant(m, i, t, sz, k, ys);
    TransplantedWord(m, m1, i, t, sz, k, ys);
  }

  /** The site of a transplant. */
  ghost predicate Site(m: Mem, i: nat, t: Trie, sz: map<int, nat>, k: Key, ys: seq<int>) {
    && TrieBut(m, i, t, sz, k) && Spread(sz) && i < NTREEBINS && RingFits(i, sz, k, ys) && RingLinked(m, i, ys)
    && k in t && ys != [] && ys[0] > 0 && t[k] != [] && Child(m, ys[0], 0) == 0 && Child(m, ys[0], 1) == 0 && Outside(t, k, ys)
    && Grounds(m, SlotOf(i, t, k), ys[0], t[k][0])
    && Child(m, t[k][0], 0) == NodeAt(t, Kid(k, 0)) && Child(m, t[k][0], 1) == NodeAt(t, Kid(k, 1))
  }

  lemma IsSite(m: Mem, i: nat, t: Trie, sz: map<int, nat>, k: Key, ys: seq<int>)
    requires TrieBut(m, i, t, sz, k) && Spread(sz) && i < NTREEBINS && RingFits(i, sz, k, ys) && RingLinked(m, i, ys)
    requires Child(m, ys[0], 0) == 0 && Child(m, ys[0], 1) == 0 && t[k] != [] && t[k][0] !in ys
    requires forall l :: l in t && SizeAt(t, sz, l) == sz[ys[0]] ==> l == k
    ensures Site(m, i, t, sz, k, ys)
  {
    hide KeysOk, TreeLinked, RingLinked, R, SizeAt, TrieBut;
    OutsideTrie(m, i, t, sz, k, ys);
    InBut(m, i, t, sz, k);
    assert Fits(i, sz, k, ys[0]);
    TransplantGrounds(m, i, t, sz, k, ys);
  }

  /** A chunk that is none of the nodes around a transplant is not touched. */
  lemma ClearOf(m: Mem, i: nat, t: Trie, sz: map<int, nat>, k: Key, ys: seq<int>, a: int)
    requires Site(m, i, t, sz, k, ys) && a > 0 && Apart64(a, ys[0])
    requires k.d > 0 ==> Apart64(NodeAt(t, Up(k)), a)
    requires (Kid(k, 0) in t ==> Apart64(NodeAt(t, Kid(k, 0)), a)) && (Kid(k, 1) in t ==> Apart64(NodeAt(t, Kid(k, 1)), a))
    ensures SameWords(m, Transplant(m, SlotOf(i, t, k), ParentOf(i, t, k), ys[0], t[k][0]), a)
  {
    hide KeysOk, Spread, RingLinked, RingFits, Fits, R, TrieBut, Transplant, Grounds, TreeLinked;
    NodeBut(m, i, t, sz, k, Kid(k, 0));
    NodeBut(m, i, t, sz, k, Kid(k, 1));
    assert a > 0;
    TransplantElse(m, SlotOf(i, t, k), ParentOf(i, t, k), ys[0], t[k][0], a);
  }

  lemma TransplantedRoot(m: Mem, m1: Mem, i: nat, t: Trie, sz: map<int, nat>, k: Key, ys: seq<int>)
    requires Site(m, i, t, sz, k, ys) && m1 == Transplant(m, SlotOf(i, t, k), ParentOf(i, t, k), ys[0], t[k][0])
    ensures TreeLinked(m1, i, t[k := ys], k) && RingLinked(m1, i, ys)
  {
    hide KeysOk, Spread, RingLinked, RingFits, Fits, R, TrieBut, Transplant, Grounds;
    TransplantRoot(m, SlotOf(i, t, k), ParentOf(i, t, k), ys[0], t[k][0]);
    forall c | 1 <= c < |ys|
      ensures SameWords(m, m1, ys[c])
    {
      RingSpread(i, sz, k, ys, c);
      if k.d > 0 { NodeBut(m, i, t, sz, k, k); NodeBut(m, i, t, sz, k, Up(k)); InBut(m, i, t, sz, k); }
      NodeBut(m, i, t, sz, k, Kid(k, 0));
      NodeBut(m, i, t, sz, k, Kid(k, 1));
      ClearOf(m, i, t, sz, k, ys, ys[c]);
    }
    RingLinkedHead(m, m1, i, ys);
    RootTree(m, m1, i, t, k, ys);
  }

  lemma RingSpread(i: nat, sz: map<int, nat>, k: Key, ys: seq<int>, c: nat)
    requires RingFits(i, sz, k, ys) && Spread(sz) && 1 <= c < |ys|
    ensures Apart64(ys[c], ys[0]) && ys[c] > 0
  {
    Separate(sz, ys[c], ys[0]);
  }

  lemma RootTree(m: Mem, m1: Mem, i: nat, t: Trie, k: Key, ys: seq<int>)
    requires ys != [] && Parent(m1, ys[0]) == ParentOf(i, t, k)
    requires Child(m1, ys[0], 0) == NodeAt(t, Kid(k, 0)) && Child(m1, ys[0], 1) == NodeAt(t, Kid(k, 1))
    ensures TreeLinked(m1, i, t[k := ys], k)
  {}

  lemma TransplantedElse(m: Mem, m1: Mem, i: nat, t: Trie, sz: map<int, nat>, k: Key, ys: seq<int>, l: Key)
    requires Site(m, i, t, sz, k, ys) && m1 == Transplant(m, SlotOf(i, t, k), ParentOf(i, t, k), ys[0], t[k][0])
    requires l in t && l != k
    ensures TreeLinked(m1, i, t[k := ys], l) && RingLinked(m1, i, t[l])
  {
    hide KeysOk, Spread, RingLinked, RingFits, Fits, R, TrieBut, Transplant, Grounds, Site, TreeLinked;
    SiteBut(m, i, t, sz, k, ys);
    NodeBut(m, i, t, sz, k, l);
    forall j | 0 <= j < |t[l]|
      ensures if j == 0 then HeadMoved(m, m1, t, k, l, ys[0]) else SameWords(m, m1, t[l][j])
    {
      if j == 0 { HeadMoves(m, m1, i, t, sz, k, ys, l); } else { InnerStays(m, m1, i, t, sz, k, ys, l, j); }
    }
    assert HeadMoved(m, m1, t, k, l, ys[0]);
    RingLinkedHead(m, m1, i, t[l]);
    ElseTree(m, m1, i, t, k, l, ys);
  }

  lemma SiteBut(m: Mem, i: nat, t: Trie, sz: map<int, nat>, k: Key, ys: seq<int>)
    requires Site(m, i, t, sz, k, ys)
    ensures TrieBut(m, i, t, sz, k) && Spread(sz) && k in t && KeysOk(i, t, sz) && ys != [] && ys[0] in sz
  {}

  /** What changes in the node at l when the one at k is replaced by r. */
  predicate HeadMoved(m: Mem, m1: Mem, t: Trie, k: Key, l: Key, r: int) {
    var a := NodeAt(t, l);
    && Fd(m1, a) == Fd(m, a) && Bk(m1, a) == Bk(m, a) && Index(m1, a) == Index(m, a)
    && Parent(m1, a) == (if l.d > 0 && Up(l) == k then r else Parent(m, a))
    && Child(m1, a, 0) == (if Kid(l, 0) == k then r else Child(m, a, 0))
    && Child(m1, a, 1) == (if Kid(l, 1) == k then r else Child(m, a, 1))
  }

  lemma InnerStays(m: Mem, m1: Mem, i: nat, t: Trie, sz: map<int, nat>, k: Key, ys: seq<int>, l: Key, j: nat)
    requires Site(m, i, t, sz, k, ys) && m1 == Transplant(m, SlotOf(i, t, k), ParentOf(i, t, k), ys[0], t[k][0])
    requires l in t && l != k && 1 <= j < |t[l]|
    ensures SameWords(m, m1, t[l][j])
  {
    hide KeysOk, Spread, RingLinked, RingFits, Fits, R, TrieBut, Transplant, Grounds, Site, TreeLinked;
    SiteBut(m, i, t, sz, k, ys);
    NodesPositive(i, t, sz, l);
    assert Apart64(t[l][j], ys[0]) by { SiteOutside(m, i, t, sz, k, ys, l, j); }
    NodeBut(m, i, t, sz, k, k);
    NodeBut(m, i, t, sz, k, Kid(k, 0));
    NodeBut(m, i, t, sz, k, Kid(k, 1));
    if k.d > 0 { NodeBut(m, i, t, sz, k, Up(k)); NodesDiffer(i, t, sz, Up(k), 0, l, j); }
    if Kid(k, 0) in t { NodesDiffer(i, t, sz, Kid(k, 0), 0, l, j); }
    if Kid(k, 1) in t { NodesDiffer(i, t, sz, Kid(k, 1), 0, l, j); }
    ClearOf(m, i, t, sz, k, ys, t[l][j]);
  }

  lemma SiteOutside(m: Mem, i: nat, t: Trie, sz: map<int, nat>, k: Key, ys: seq<int>, l: Key, j: nat)
    requires Site(m, i, t, sz, k, ys) && l in t && l != k && j < |t[l]|
    ensures Apart64(t[l][j], ys[0])
  {}

  lemma HeadMoves(m: Mem, m1: Mem, i: nat, t: Trie, sz: map<int, nat>, k: Key, ys: seq<int>, l: Key)
    requires Site(m, i, t, sz, k, ys) && m1 == Transplant(m, SlotOf(i, t, k), ParentOf(i, t, k), ys[0], t[k][0])
    requires l in t && l != k && t[l] != []
    ensures HeadMoved(m, m1, t, k, l, ys[0])
  {
    hide KeysOk, Spread, RingLinked, RingFits, Fits, R, TrieBut, Transplant, Grounds, TreeLinked, Outside;
    var slot, parent, r, x := SlotOf(i, t, k), ParentOf(i, t, k), ys[0], t[k][0];
    NodeBut(m, i, t, sz, k, k);
    NodeBut(m, i, t, sz, k, l);
    NodeBut(m, i, t, sz, k, Kid(k, 0));
    NodeBut(m, i, t, sz, k, Kid(k, 1));
    InBut(m, i, t, sz, k);
    assert l == Kid(k, 0) || l == Kid(k, 1) <==> l.d > 0 && Up(l) == k by { UpKid(k, l); }
    if l == Kid(k, 0) {
      TransplantKid(m, slot, parent, r, x, 0);
    } else if l == Kid(k, 1) {
      TransplantKid(m, slot, parent, r, x, 1);
    } else {
      SiteOutside(m, i, t, sz, k, ys, l, 0);
      if Kid(k, 0) in t { NodesClear(m, i, t, sz, k, Kid(k, 0), l); }
      if Kid(k, 1) in t { NodesClear(m, i, t, sz, k, Kid(k, 1), l); }
      if k.d > 0 && l == Up(k) {
        assert Kid(l, k.q % 2) == k;
        TransplantParent(m, slot, parent, r, x, NodeAt(t, l), k.q % 2);
      } else {
        if k.d > 0 { NodeBut(m, i, t, sz, k, Up(k)); NodesClear(m, i, t, sz, k, Up(k), l); }
        assert Kid(l, 0) != k && Kid(l, 1) != k by { UpKid(l, k); }
        ClearOf(m, i, t, sz, k, ys, NodeAt(t, l));
      }
    }
  }

  lemma UpKid(k: Key, l: Key)
    ensures l == Kid(k, 0) || l == Kid(k, 1) <==> l.d > 0 && Up(l) == k
  {}

  lemma ElseTree(m: Mem, m1: Mem, i: nat, t: Trie, k: Key, l: Key, ys: seq<int>)
    requires l in t && l != k && k in t && ys != [] && TreeLinked(m, i, t, l) && HeadMoved(m, m1, t, k, l, ys[0])
    ensures TreeLinked(m1, i, t[k := ys], l)
  {}

  lemma TransplantedWord(m: Mem, m1: Mem, i: nat, t: Trie, sz: map<int, nat>, k: Key, ys: seq<int>)
    requires Site(m, i, t, sz, k, ys) && m1 == Transplant(m, SlotOf(i, t, k), ParentOf(i, t, k), ys[0], t[k][0])
    ensures R(m1, TreeBinAt(i)) == NodeAt(t[k := ys], RootKey(i))
  {
    hide KeysOk, Spread, RingLinked, RingFits, Transplant, TreeLinked, Outside;
    var slot, parent, r, x := SlotOf(i, t, k), ParentOf(i, t, k), ys[0], t[k][0];
    NodeBut(m, i, t, sz, k, k);
    NodeBut(m, i, t, sz, k, Kid(k, 0));
    NodeBut(m, i, t, sz, k, Kid(k, 1));
    if k.d > 0 {
      NodeBut(m, i, t, sz, k, Up(k));
    } else {
      FirstFits(i, t, sz, k);
      RootQ(i, sz, k, x);
    }
    TransplantWord(m, slot, parent, r, x, TreeBinAt(i));
  }

  /** The chunks of ys are not in the trie, except perhaps at k. */
  ghost predicate Outside(t: Trie, k: Key, ys: seq<int>) {
    forall l, j, c :: l in t && 0 <= j < |t[l]| && 0 <= c < |ys| && (l != k || j == 0) ==> Apart64(t[l][j], ys[c])
  }

  lemma OutsideTrie(m: Mem, i: nat, t: Trie, sz: map<int, nat>, k: Key, ys: seq<int>)
    requires TrieBut(m, i, t, sz, k) && Spread(sz) && RingFits(i, sz, k, ys) && t[k] != [] && t[k][0] !in ys
    requires forall l :: l in t && SizeAt(t, sz, l) == sz[ys[0]] ==> l == k
    ensures Outside(t, k, ys)
  {
    forall l, j, c | l in t && 0 <= j < |t[l]| && 0 <= c < |ys| && (l != k || j == 0)
      ensures Apart64(t[l][j], ys[c])
    {
      assert RingFits(i, sz, l, t[l]) && Fits(i, sz, k, ys[c]);
      SizeOfRing(i, t, sz, l, j);
      NodesApart(i, t, sz, l, j, ys[c]);
    }
  }

  lemma SizeOfRing(i: nat, t: Trie, sz: map<int, nat>, k: Key, j: nat)
    requires KeysOk(i, t, sz) && k in t && j < |t[k]|
    ensures t[k][j] in sz && sz[t[k][j]] == SizeAt(t, sz, k)
  {
    assert RingFits(i, sz, k, t[k]);
    assert Fits(i, sz, k, t[k][j]);
  }

  lemma KeysTransplant(m: Mem, i: nat, t: Trie, sz: map<int, nat>, k: Key, ys: seq<int>)
    requires KeysOk(i, t, sz) && k in t && RingFits(i, sz, k, ys) && ys != [] && ys[0] in sz
    requires forall l :: l in t && SizeAt(t, sz, l) == sz[ys[0]] ==> l == k
    ensures KeysOk(i, t[k := ys], sz)
  {
    hide RingFits, SizeAt;
    var t1 := t[k := ys];
    SizeNew(t1, sz, k);
    forall l | l in t1 && l != k
      ensures SizeAt(t1, sz, l) == SizeAt(t, sz, l)
    {
      SizeSame(t, t1, sz, l);
    }
  }

  lemma SizeNew(t: Trie, sz: map<int, nat>, k: Key)
    requires k in t && t[k] != [] && t[k][0] in sz
    ensures SizeAt(t, sz, k) == sz[t[k][0]]
  {}

  /** A node at a key of the trie, or 0. */
  lemma NodeBut(m: Mem, i: nat, t: Trie, sz: map<int, nat>, k: Key, l: Key)
    requires TrieBut(m, i, t, sz, k) && Spread(sz)
    ensures NodeAt(t, l) != 0 <==> l in t
    ensures l in t ==> t[l] != [] && NodeAt(t, l) == t[l][0] > 0 && TreeLinked(m, i, t, l)
    ensures l in t && l != k ==> RingLinked(m, i, t[l])
    ensures l in t && l.d > 0 ==> Up(l) in t
    ensures KeysOk(i, t, sz)
  {
    if l in t { NodesPositive(i, t, sz, l); FirstFits(i, t, sz, l); }
  }

  /** Two nodes of the trie do not overlap. */
  lemma NodesClear(m: Mem, i: nat, t: Trie, sz: map<int, nat>, k: Key, l: Key, n: Key)
    requires TrieBut(m, i, t, sz, k) && Spread(sz) && l in t && n in t && l != n
    ensures Apart64(NodeAt(t, l), NodeAt(t, n))
  {
    NodeBut(m, i, t, sz, k, l);
    NodeBut(m, i, t, sz, k, n);
    NodesDiffer(i, t, sz, l, 0, n, 0);
  }

  lemma TransplantGrounds(m: Mem, i: nat, t: Trie, sz: map<int, nat>, k: Key, ys: seq<int>)
    requires TrieBut(m, i, t, sz, k) && Spread(sz) && i < NTREEBINS && ys != [] && ys[0] > 0 && t[k] != [] && Outside(t, k, ys)
    ensures Grounds(m, SlotOf(i, t, k), ys[0], t[k][0])
    ensures Child(m, t[k][0], 0) == NodeAt(t, Kid(k, 0)) && Child(m, t[k][0], 1) == NodeAt(t, Kid(k, 1))
  {
    hide KeysOk, Spread, RingLinked, RingFits, Fits, R, TrieBut;
    var k0, k1 := Kid(k, 0), Kid(k, 1);
    NodeBut(m, i, t, sz, k, k);
    NodeBut(m, i, t, sz, k, k0);
    NodeBut(m, i, t, sz, k, k1);
    assert k in t by { InBut(m, i, t, sz, k); }
    if k0 in t { NodesClear(m, i, t, sz, k, k0, k); }
    if k1 in t { NodesClear(m, i, t, sz, k, k1, k); }
    if k0 in t && k1 in t { NodesClear(m, i, t, sz, k, k0, k1); }
    if k.d > 0 {
      NodeBut(m, i, t, sz, k, Up(k));
      NodesClear(m, i, t, sz, k, Up(k), k);
      if k0 in t { NodesClear(m, i, t, sz, k, Up(k), k0); }
      if k1 in t { NodesClear(m, i, t, sz, k, Up(k), k1); }
    }
  }

  lemma InBut(m: Mem, i: nat, t: Trie, sz: map<int, nat>, k: Key)
    requires TrieBut(m, i, t, sz, k)
    ensures k in t
  {}
}
