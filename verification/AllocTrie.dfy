/** The tree bins of the allocator (luajit/lj_alloc.c): a bitwise trie of free chunks in memory.
    A node sits at a key: its depth d, and the number q that the first d distinguishing bits of
    its size form together with the bits above them.  Chunks of equal size form a ring, of which
    only the first is in the tree. */
module AllocTrie {
  import opened Bits
  import opened AllocMem

  datatype Key = K(d: nat, q: nat)

  function Kid(k: Key, b: nat): Key { K(k.d + 1, 2 * k.q + b) }
  function Up(k: Key): Key
    requires k.d > 0
  {
    K(k.d - 1, k.q / 2)
  }

  type Trie = map<Key, seq<int>>

  function NodeAt(t: Trie, k: Key): int { if k in t && t[k] != [] then t[k][0] else 0 }

  function RootKey(i: nat): Key { K(0, if i == 31 then 0 else 2 + i % 2) }

  /** The chunk belongs at this key of bin i. */
  ghost predicate Fits(i: nat, sz: map<int, nat>, k: Key, a: int) {
    && a in sz && Large(sz[a]) && TreeIndex(sz[a]) == i
    && k.d <= Width(i) && Shr(sz[a], Width(i) - k.d) == k.q
  }

  /** A ring of chunks of one size. */
  ghost predicate RingFits(i: nat, sz: map<int, nat>, k: Key, xs: seq<int>) {
    && xs != [] && xs[0] in sz
    && (forall j :: 0 <= j < |xs| ==> Fits(i, sz, k, xs[j]) && sz[xs[j]] == sz[xs[0]])
    && (forall j, l :: 0 <= j < l < |xs| ==> xs[j] != xs[l])
  }

  ghost predicate KeysOk(i: nat, t: Trie, sz: map<int, nat>) {
    && (forall k :: k in t ==> RingFits(i, sz, k, t[k]))
    && (forall k :: k in t && k.d > 0 ==> Up(k) in t)
    && (forall k, l :: k in t && l in t && SizeAt(t, sz, k) == SizeAt(t, sz, l) ==> k == l)
  }

  function SizeAt(t: Trie, sz: map<int, nat>, k: Key): int
    requires k in t
  {
    if t[k] != [] && t[k][0] in sz then sz[t[k][0]] else 0
  }

  /** Where the pointer to the node at k lies. */
  function SlotOf(i: nat, t: Trie, k: Key): int {
    if k.d == 0 then TreeBinAt(i) else NodeAt(t, Up(k)) + 32 + 8 * (k.q % 2)
  }

  /** The parent field of the node at k. */
  function ParentOf(i: nat, t: Trie, k: Key): int {
    if k.d == 0 then TreeBinAt(i) else NodeAt(t, Up(k))
  }

  /** The first chunk of a ring is a node of the tree. */
  predicate TreeLinked(m: Mem, i: nat, t: Trie, k: Key) {
    var x := NodeAt(t, k);
    Child(m, x, 0) == NodeAt(t, Kid(k, 0)) && Child(m, x, 1) == NodeAt(t, Kid(k, 1)) && Parent(m, x) == ParentOf(i, t, k)
  }

  /** The other chunks are not. */
  predicate Bare(m: Mem, a: int) { Child(m, a, 0) == 0 && Child(m, a, 1) == 0 && Parent(m, a) == 0 }

  ghost predicate RingLinked(m: Mem, i: nat, xs: seq<int>) {
    && Ring(m, xs)
    && (forall j :: 0 <= j < |xs| ==> Index(m, xs[j]) == i)
    && (forall j :: 1 <= j < |xs| ==> Bare(m, xs[j]))
  }

  ghost predicate TrieOk(m: Mem, i: nat, t: Trie, sz: map<int, nat>) {
    && KeysOk(i, t, sz) && R(m, TreeBinAt(i)) == NodeAt(t, RootKey(i))
    && (forall k :: k in t ==> TreeLinked(m, i, t, k))
    && (forall k :: k in t ==> RingLinked(m, i, t[k]))
  }

  /** Free chunks do not overlap. */
  ghost predicate Spread(sz: map<int, nat>) {
    && (forall a :: a in sz ==> a > 0 && a % 8 == 0 && sz[a] >= MIN_CHUNK_SIZE && sz[a] % 8 == 0)
    && (forall a, b :: a in sz && b in sz && a != b ==> a + sz[a] <= b || b + sz[b] <= a)
  }

  ghost predicate In(t: Trie, a: int) { exists k :: k in t && a in t[k] }

  // ---------------------------------------------------------------- keys

  lemma RootQ(i: nat, sz: map<int, nat>, k: Key, a: int)
    requires Fits(i, sz, k, a) && k.d == 0
    ensures k == RootKey(i)
  {
    IndexBits(sz[a]);
  }

  /** The key one level below k where a chunk belongs that belongs at k. */
  lemma NextKey(i: nat, sz: map<int, nat>, k: Key, a: int)
    requires Fits(i, sz, k, a) && k.d < Width(i)
    ensures Fits(i, sz, Kid(k, if Bit(sz[a], Width(i) - k.d - 1) then 1 else 0), a)
    ensures !Fits(i, sz, Kid(k, if Bit(sz[a], Width(i) - k.d - 1) then 0 else 1), a)
  {
    ShrStep(sz[a], Width(i) - k.d - 1);
  }

  /** At full depth all chunks have the same size. */
  lemma FullDepth(i: nat, sz: map<int, nat>, k: Key, a: int, b: int)
    requires Fits(i, sz, k, a) && Fits(i, sz, k, b) && k.d == Width(i)
    ensures sz[a] == sz[b]
  {}

  // ---------------------------------------------------------------- disjointness of words

  lemma DistinctNodes(i: nat, t: Trie, sz: map<int, nat>, k: Key, l: Key, j: nat, n: nat)
    requires KeysOk(i, t, sz) && k in t && l in t && j < |t[k]| && n < |t[l]| && t[k][j] == t[l][n]
    ensures k == l && j == n
  {
    assert RingFits(i, sz, k, t[k]) && RingFits(i, sz, l, t[l]);
    assert SizeAt(t, sz, k) == SizeAt(t, sz, l);
  }

  /** Different free chunks have no word in common. */
  lemma Separate(sz: map<int, nat>, a: int, b: int)
    requires Spread(sz) && a in sz && b in sz && a != b
    ensures Away(a, b) && (Large(sz[a]) && Large(sz[b]) ==> a + 256 <= b || b + 256 <= a)
  {}

  /** No word of chunk a, nor the header of bin i, differs. */
  predicate SameWords(m: Mem, m1: Mem, a: int) {
    && Fd(m1, a) == Fd(m, a) && Bk(m1, a) == Bk(m, a) && Child(m1, a, 0) == Child(m, a, 0)
    && Child(m1, a, 1) == Child(m, a, 1) && Parent(m1, a) == Parent(m, a) && Index(m1, a) == Index(m, a)
  }

  /** A ring of other chunks is not affected. */
  lemma RingLinkedFrame(m: Mem, m1: Mem, i: nat, xs: seq<int>)
    requires RingLinked(m, i, xs) && forall j :: 0 <= j < |xs| ==> Fd(m1, xs[j]) == Fd(m, xs[j]) && Bk(m1, xs[j]) == Bk(m, xs[j])
    requires forall j :: 0 <= j < |xs| ==> Index(m1, xs[j]) == Index(m, xs[j])
    requires forall j :: 1 <= j < |xs| ==> Bare(m1, xs[j])
    ensures RingLinked(m1, i, xs)
  {
    RingFrame(m, m1, xs);
  }

  /** The trie does not see changes elsewhere. */
  lemma TrieFrame(m: Mem, m1: Mem, i: nat, t: Trie, sz: map<int, nat>)
    requires TrieOk(m, i, t, sz) && R(m1, TreeBinAt(i)) == R(m, TreeBinAt(i))
    requires forall k, j :: k in t && 0 <= j < |t[k]| ==> SameWords(m, m1, t[k][j])
    ensures TrieOk(m1, i, t, sz)
  {
    forall k | k in t
      ensures TreeLinked(m1, i, t, k) && RingLinked(m1, i, t[k])
    {
      assert RingFits(i, sz, k, t[k]);
      assert SameWords(m, m1, t[k][0]) && TreeLinked(m, i, t, k);
      forall j | 0 <= j < |t[k]|
        ensures Fd(m1, t[k][j]) == Fd(m, t[k][j]) && Bk(m1, t[k][j]) == Bk(m, t[k][j]) && Index(m1, t[k][j]) == Index(m, t[k][j])
        ensures j >= 1 ==> Bare(m1, t[k][j])
      {
        assert SameWords(m, m1, t[k][j]) && RingLinked(m, i, t[k]);
      }
      RingLinkedFrame(m, m1, i, t[k]);
    }
  }

  // ---------------------------------------------------------------- insertion

  /** The first lines of `insert_large_chunk`. */
  function Blank(m: Mem, i: nat, x: int): Mem { m[x + 56 := i][x + 32 := 0][x + 40 := 0] }

  /** A chunk becomes the node at a free slot. */
  function HangUp(m: Mem, slot: int, parent: int, x: int): Mem { m[slot := x][x + 48 := parent][x + 16 := x][x + 24 := x] }

  lemma KeysInsertLeaf(i: nat, t: Trie, sz: map<int, nat>, k: Key, x: int)
    requires KeysOk(i, t, sz) && Fits(i, sz, k, x) && k !in t
    requires if k.d == 0 then t == map[] else Up(k) in t
    requires forall l :: l in t ==> SizeAt(t, sz, l) != sz[x]
    ensures KeysOk(i, t[k := [x]], sz)
  {
    var t1 := t[k := [x]];
    forall l | l in t1
      ensures RingFits(i, sz, l, t1[l]) && (l.d > 0 ==> Up(l) in t1)
    {}
    forall l, n | l in t1 && n in t1 && SizeAt(t1, sz, l) == SizeAt(t1, sz, n)
      ensures l == n
    {
      assert l != k ==> SizeAt(t1, sz, l) == SizeAt(t, sz, l);
      assert n != k ==> SizeAt(t1, sz, n) == SizeAt(t, sz, n);
    }
  }

  /** Only words of chunk x and the word at slot differ. */
  ghost predicate OnlyAt(m: Mem, m1: Mem, slot: int, x: int) {
    forall c :: c != slot && !(x + 16 <= c <= x + 56) ==> R(m1, c) == R(m, c)
  }

  predicate Apart64(a: int, b: int) { a + 64 <= b || b + 64 <= a }

  lemma OnlyAtElse(m: Mem, m1: Mem, slot: int, x: int, a: int)
    requires OnlyAt(m, m1, slot, x) && Apart64(a, x) && (slot < a + 16 || slot > a + 56)
    ensures SameWords(m, m1, a)
  {}

  lemma OnlyAtParent(m: Mem, m1: Mem, slot: int, x: int, a: int, b: nat)
    requires OnlyAt(m, m1, slot, x) && Apart64(a, x) && b < 2 && slot == a + 32 + 8 * b
    ensures Fd(m1, a) == Fd(m, a) && Bk(m1, a) == Bk(m, a) && Index(m1, a) == Index(m, a) && Parent(m1, a) == Parent(m, a)
    ensures Child(m1, a, 1 - b) == Child(m, a, 1 - b)
  {}

  lemma HangsUp(m: Mem, i: nat, slot: int, parent: int, x: int)
    requires slot < x + 16 || slot > x + 56
    ensures var m1 := HangUp(Blank(m, i, x), slot, parent, x);
            && OnlyAt(m, m1, slot, x) && R(m1, slot) == x && Parent(m1, x) == parent && Index(m1, x) == i
            && Child(m1, x, 0) == 0 && Child(m1, x, 1) == 0 && Fd(m1, x) == x && Bk(m1, x) == x
  {}

  /** Different chunks of a trie, and a chunk that is to be inserted, have no words in common. */
  lemma NodesApart(i: nat, t: Trie, sz: map<int, nat>, k: Key, j: nat, x: int)
    requires KeysOk(i, t, sz) && Spread(sz) && k in t && j < |t[k]| && x in sz && Large(sz[x]) && x != t[k][j]
    ensures Apart64(t[k][j], x) && t[k][j] > 0
  {
    assert RingFits(i, sz, k, t[k]);
    assert Fits(i, sz, k, t[k][j]);
    Separate(sz, t[k][j], x);
  }

  /** A new leaf. */
  lemma InsertLeaf(m: Mem, i: nat, t: Trie, sz: map<int, nat>, k: Key, x: int)
    requires TrieOk(m, i, t, sz) && Spread(sz) && Fits(i, sz, k, x) && k !in t && !In(t, x) && i < NTREEBINS
    requires if k.d == 0 then t == map[] else Up(k) in t
    requires forall l :: l in t ==> SizeAt(t, sz, l) != sz[x]
    ensures TrieOk(HangUp(Blank(m, i, x), SlotOf(i, t, k), ParentOf(i, t, k), x), i, t[k := [x]], sz)
  {
    hide HangUp, Blank, KeysOk, Fits, RingFits, In, TreeLinked, RingLinked, Spread, SizeAt;
    var t1, slot, parent := t[k := [x]], SlotOf(i, t, k), ParentOf(i, t, k);
    var m1 := HangUp(Blank(m, i, x), slot, parent, x);
    KeysInsertLeaf(i, t, sz, k, x);
    FitsLarge(i, sz, k, x);
    SlotElsewhere(i, t, sz, k, x);
    HangsUp(m, i, slot, parent, x);
    RootWord(m, m1, i, t, sz, k, x);
    forall l | l in t1
      ensures TreeLinked(m1, i, t1, l) && RingLinked(m1, i, t1[l])
    {
      if l == k {
        LeafLinked(m1, i, t, sz, k, x);
      } else {
        LeafFrame(m, m1, i, t, sz, k, x, l);
      }
    }
  }

  lemma SlotElsewhere(i: nat, t: Trie, sz: map<int, nat>, k: Key, x: int)
    requires KeysOk(i, t, sz) && Spread(sz) && x in sz && Large(sz[x]) && !In(t, x) && i < NTREEBINS
    requires k.d == 0 || Up(k) in t
    ensures SlotOf(i, t, k) < x + 16 || SlotOf(i, t, k) > x + 56
    ensures k.d > 0 ==> SlotOf(i, t, k) > 0
  {
    if k.d > 0 {
      assert RingFits(i, sz, Up(k), t[Up(k)]);
      assert t[Up(k)][0] in t[Up(k)];
      NodesApart(i, t, sz, Up(k), 0, x);
    }
  }

  lemma FitsLarge(i: nat, sz: map<int, nat>, k: Key, x: int)
    requires Fits(i, sz, k, x)
    ensures x in sz && Large(sz[x])
  {}

  lemma RootWord(m: Mem, m1: Mem, i: nat, t: Trie, sz: map<int, nat>, k: Key, x: int)
    requires i < NTREEBINS && R(m, TreeBinAt(i)) == NodeAt(t, RootKey(i)) && Fits(i, sz, k, x) && Spread(sz)
    requires OnlyAt(m, m1, SlotOf(i, t, k), x) && R(m1, SlotOf(i, t, k)) == x && (k.d > 0 ==> SlotOf(i, t, k) > 0)
    ensures R(m1, TreeBinAt(i)) == NodeAt(t[k := [x]], RootKey(i))
  {
    if k.d == 0 { RootQ(i, sz, k, x); }
  }

  lemma LeafLinked(m1: Mem, i: nat, t: Trie, sz: map<int, nat>, k: Key, x: int)
    requires KeysOk(i, t, sz) && k !in t && Parent(m1, x) == ParentOf(i, t, k) && Index(m1, x) == i
    requires Child(m1, x, 0) == 0 && Child(m1, x, 1) == 0 && Fd(m1, x) == x && Bk(m1, x) == x
    ensures TreeLinked(m1, i, t[k := [x]], k) && RingLinked(m1, i, [x])
  {
    NoKids(i, t, sz, k);
    assert Linked(m1, x, x);
  }

  lemma NoKids(i: nat, t: Trie, sz: map<int, nat>, k: Key)
    requires KeysOk(i, t, sz) && k !in t
    ensures Kid(k, 0) !in t && Kid(k, 1) !in t
  {
    assert Up(Kid(k, 0)) == k && Up(Kid(k, 1)) == k;
  }

  /** What the new leaf changes for the other nodes. */
  lemma LeafFrame(m: Mem, m1: Mem, i: nat, t: Trie, sz: map<int, nat>, k: Key, x: int, l: Key)
    requires TrieOk(m, i, t, sz) && Spread(sz) && Fits(i, sz, k, x) && k !in t && !In(t, x) && l in t && i < NTREEBINS
    requires k.d > 0 && Up(k) in t && OnlyAt(m, m1, SlotOf(i, t, k), x) && R(m1, SlotOf(i, t, k)) == x
    ensures TreeLinked(m1, i, t[k := [x]], l) && RingLinked(m1, i, t[l])
  {
    hide KeysOk, Spread, Fits, OnlyAt, SizeAt, TrieOk, Ring, TreeLinked, In, RingLinked;
    var p, slot := NodeAt(t, Up(k)), SlotOf(i, t, k);
    KeysOfTrie(m, i, t, sz);
    NodeIn(m, i, t, sz, Up(k));
    NodeIn(m, i, t, sz, l);
    forall j | 0 <= j < |t[l]|
      ensures if l == Up(k) && j == 0 then t[l][j] == p && Apart64(p, x) else SameWords(m, m1, t[l][j])
    {
      LeafNode(m, m1, i, t, sz, k, x, l, j);
    }
    if l == Up(k) { OnlyAtParent(m, m1, slot, x, p, k.q % 2); }
    LeafRing(m, m1, i, t[l]);
    LeafTree(m, m1, i, t, sz, k, x, l);
  }

  lemma LeafRing(m: Mem, m1: Mem, i: nat, xs: seq<int>)
    requires RingLinked(m, i, xs) && xs != [] && Fd(m1, xs[0]) == Fd(m, xs[0]) && Bk(m1, xs[0]) == Bk(m, xs[0])
    requires Index(m1, xs[0]) == Index(m, xs[0]) && forall j :: 1 <= j < |xs| ==> SameWords(m, m1, xs[j])
    ensures RingLinked(m1, i, xs)
  {
    assert forall j :: 1 <= j < |xs| ==> SameWords(m, m1, xs[j]) && Bare(m, xs[j]);
    RingLinkedFrame(m, m1, i, xs);
  }

  /** What the new leaf leaves alone. */
  lemma LeafNode(m: Mem, m1: Mem, i: nat, t: Trie, sz: map<int, nat>, k: Key, x: int, l: Key, j: nat)
    requires KeysOk(i, t, sz) && Spread(sz) && Fits(i, sz, k, x) && k !in t && !In(t, x) && l in t && k.d > 0 && Up(k) in t
    requires t[Up(k)] != [] && OnlyAt(m, m1, SlotOf(i, t, k), x) && j < |t[l]|
    ensures if l == Up(k) && j == 0 then t[l][j] == NodeAt(t, Up(k)) && Apart64(NodeAt(t, Up(k)), x) else SameWords(m, m1, t[l][j])
  {
    hide KeysOk, Spread, Fits, OnlyAt, SizeAt;
    FitsLarge(i, sz, k, x);
    assert t[l][j] in t[l];
    NodesApart(i, t, sz, l, j, x);
    if l != Up(k) || j != 0 {
      NodesDiffer(i, t, sz, Up(k), 0, l, j);
      OnlyAtElse(m, m1, SlotOf(i, t, k), x, t[l][j]);
    }
  }

  lemma LeafTree(m: Mem, m1: Mem, i: nat, t: Trie, sz: map<int, nat>, k: Key, x: int, l: Key)
    requires KeysOk(i, t, sz) && k.d > 0 && k !in t && Up(k) in t && l in t && TreeLinked(m, i, t, l)
    requires if l == Up(k) then Parent(m1, NodeAt(t, l)) == Parent(m, NodeAt(t, l)) && Child(m1, NodeAt(t, l), k.q % 2) == x
                                && Child(m1, NodeAt(t, l), 1 - k.q % 2) == Child(m, NodeAt(t, l), 1 - k.q % 2)
             else SameWords(m, m1, NodeAt(t, l))
    ensures TreeLinked(m1, i, t[k := [x]], l)
  {
    hide KeysOk, R;
    var t1 := t[k := [x]];
    assert l != k && NodeAt(t1, l) == NodeAt(t, l);
    if l.d > 0 {
      UpIn(i, t, sz, l);
      assert NodeAt(t1, Up(l)) == NodeAt(t, Up(l));
    }
    hide NodeAt;
    KidOrNot(t, x, k, l, 0);
    KidOrNot(t, x, k, l, 1);
  }

  lemma UpIn(i: nat, t: Trie, sz: map<int, nat>, k: Key)
    requires KeysOk(i, t, sz) && k in t && k.d > 0
    ensures Up(k) in t
  {}

  /** Only the parent of k gets a new child. */
  lemma KidOrNot(t: Trie, x: int, k: Key, l: Key, b: nat)
    requires k.d > 0 && b < 2
    ensures NodeAt(t[k := [x]], Kid(l, b)) == if l == Up(k) && b == k.q % 2 then x else NodeAt(t, Kid(l, b))
  {
    assert Kid(Up(k), k.q % 2) == k;
  }

  /** A node of the trie. */
  lemma NodeIn(m: Mem, i: nat, t: Trie, sz: map<int, nat>, k: Key)
    requires TrieOk(m, i, t, sz) && k in t
    ensures t[k] != [] && NodeAt(t, k) == t[k][0] && RingLinked(m, i, t[k]) && TreeLinked(m, i, t, k)
  {
    assert RingFits(i, sz, k, t[k]);
  }

  lemma NodesDiffer(i: nat, t: Trie, sz: map<int, nat>, k: Key, j: nat, l: Key, n: nat)
    requires KeysOk(i, t, sz) && Spread(sz) && k in t && l in t && j < |t[k]| && n < |t[l]| && (k != l || j != n)
    ensures Apart64(t[k][j], t[l][n])
  {
    if t[k][j] == t[l][n] { DistinctNodes(i, t, sz, k, l, j, n); }
    assert RingFits(i, sz, k, t[k]);
    assert Fits(i, sz, k, t[k][j]);
    NodesApart(i, t, sz, l, n, t[k][j]);
  }

  // ---------------------------------------------------------------- rings of chunks of one size

  /** Only links of these chunks differ. */
  ghost predicate OnlyLinks(m: Mem, m1: Mem, xs: seq<int>) {
    forall c :: R(m1, c) != R(m, c) ==> exists j :: 0 <= j < |xs| && IsLink(xs[j], c)
  }

  predicate IsLink(a: int, c: int) { c == a + 16 || c == a + 24 }

  predicate SameOthers(m: Mem, m1: Mem, a: int) {
    Child(m1, a, 0) == Child(m, a, 0) && Child(m1, a, 1) == Child(m, a, 1) && Parent(m1, a) == Parent(m, a) && Index(m1, a) == Index(m, a)
  }

  lemma LinksElse(m: Mem, m1: Mem, xs: seq<int>, a: int)
    requires OnlyLinks(m, m1, xs) && forall j :: 0 <= j < |xs| ==> xs[j] == a || Apart64(xs[j], a)
    ensures SameOthers(m, m1, a) && (a !in xs ==> SameWords(m, m1, a))
  {}

  /** All nodes of the tree stay linked when only links of rings change. */
  lemma TreeLinksFrame(m: Mem, m1: Mem, i: nat, t: Trie, t1: Trie, k: Key)
    requires TreeLinked(m, i, t, k) && SameOthers(m, m1, NodeAt(t, k))
    requires forall l :: NodeAt(t1, l) == NodeAt(t, l)
    ensures TreeLinked(m1, i, t1, k)
  {}

  /** A ring with its first chunk kept is changed, all else is left alone. */
  lemma ChangeRing(m: Mem, m1: Mem, i: nat, t: Trie, sz: map<int, nat>, k: Key, ys: seq<int>, xs: seq<int>)
    requires TrieOk(m, i, t, sz) && k in t && RingFits(i, sz, k, ys) && ys[0] == t[k][0]
    requires OnlyLinks(m, m1, xs) && RingLinked(m1, i, ys) && R(m1, TreeBinAt(i)) == R(m, TreeBinAt(i))
    requires forall l, j, n :: l in t && 0 <= j < |t[l]| && 0 <= n < |xs| ==> xs[n] == t[l][j] || Apart64(xs[n], t[l][j])
    requires forall l, n :: l in t && l != k && 0 <= n < |xs| ==> xs[n] !in t[l]
    ensures TrieOk(m1, i, t[k := ys], sz)
  {
    hide KeysOk, RingLinked, OnlyLinks, TreeLinked, RingFits, SizeAt;
    var t1 := t[k := ys];
    RingFitsShape(i, sz, k, ys);
    forall l | l in t
      ensures TreeLinked(m1, i, t1, l) && RingLinked(m1, i, t1[l])
    {
      NodeIn(m, i, t, sz, l);
      forall j | 0 <= j < |t[l]|
        ensures SameOthers(m, m1, t[l][j]) && (l != k ==> SameWords(m, m1, t[l][j]))
      {
        LinksElse(m, m1, xs, t[l][j]);
      }
      assert forall n :: NodeAt(t1, n) == NodeAt(t, n) by { NodeIn(m, i, t, sz, k); }
      TreeLinksFrame(m, m1, i, t, t1, l);
      if l != k { RingLinkedSame(m, m1, i, t[l]); }
    }
    KeysChangeRing(i, t, sz, k, ys);
    NodeIn(m, i, t, sz, k);
  }

  lemma RingFitsShape(i: nat, sz: map<int, nat>, k: Key, ys: seq<int>)
    requires RingFits(i, sz, k, ys)
    ensures ys != []
  {}

  lemma RingLinkedSame(m: Mem, m1: Mem, i: nat, xs: seq<int>)
    requires RingLinked(m, i, xs) && forall j :: 0 <= j < |xs| ==> SameWords(m, m1, xs[j])
    ensures RingLinked(m1, i, xs)
  {
    RingLinkedFrame(m, m1, i, xs);
  }

  lemma KeysChangeRing(i: nat, t: Trie, sz: map<int, nat>, k: Key, ys: seq<int>)
    requires KeysOk(i, t, sz) && k in t && RingFits(i, sz, k, ys) && ys[0] == t[k][0]
    ensures KeysOk(i, t[k := ys], sz)
  {
    var t1 := t[k := ys];
    assert RingFits(i, sz, k, t[k]);
    hide RingFits;
    assert forall l :: l in t ==> SizeAt(t1, sz, l) == SizeAt(t, sz, l);
  }

  /** A chunk of a size that is in the tree already: the end of `insert_large_chunk`. */
  function JoinRing(m: Mem, i: nat, b: int, x: int): Mem { LinkIn(Blank(m, i, x)[x + 48 := 0], b, Fd(m, b), x) }

  /** Blanking a chunk that is not in the trie. */
  lemma BlankFrame(m: Mem, i: nat, t: Trie, sz: map<int, nat>, x: int)
    requires TrieOk(m, i, t, sz) && Spread(sz) && x in sz && Large(sz[x]) && !In(t, x) && i < NTREEBINS
    ensures TrieOk(Blank(m, i, x)[x + 48 := 0], i, t, sz)
  {
    hide KeysOk, RingLinked, TreeLinked, TrieOk;
    var m0 := Blank(m, i, x)[x + 48 := 0];
    forall k, j | k in t && 0 <= j < |t[k]|
      ensures SameWords(m, m0, t[k][j])
    {
      assert t[k][j] in t[k];
      KeysOfTrie(m, i, t, sz);
      NodesApart(i, t, sz, k, j, x);
    }
    assert x > 0;
    TrieFrame(m, m0, i, t, sz);
  }

  lemma KeysOfTrie(m: Mem, i: nat, t: Trie, sz: map<int, nat>)
    requires TrieOk(m, i, t, sz)
    ensures KeysOk(i, t, sz)
  {}

  lemma RingApart(i: nat, t: Trie, sz: map<int, nat>, k: Key)
    requires KeysOk(i, t, sz) && Spread(sz) && k in t
    ensures Apart(t[k])
  {
    forall a, b | 0 <= a < |t[k]| && 0 <= b < |t[k]| && a != b
      ensures Away(t[k][a], t[k][b])
    {
      NodesDiffer(i, t, sz, k, a, k, b);
    }
  }

  lemma InsertRing(m: Mem, i: nat, t: Trie, sz: map<int, nat>, k: Key, x: int)
    requires TrieOk(m, i, t, sz) && Spread(sz) && k in t && Fits(i, sz, k, x) && !In(t, x) && i < NTREEBINS
    requires SizeAt(t, sz, k) == sz[x] && t[k] != []
    ensures TrieOk(JoinRing(m, i, t[k][0], x), i, t[k := [t[k][0], x] + t[k][1..]], sz)
  {
    hide KeysOk, OnlyLinks, TrieOk, TreeLinked, Spread, RingLinked, RingFits, In, Fits, Ring, Apart;
    var m0, b, f := Blank(m, i, x)[x + 48 := 0], t[k][0], Fd(m, t[k][0]);
    var m1, ys := LinkIn(m0, b, f, x), [b, x] + t[k][1..];
    FitsLarge(i, sz, k, x);
    BlankFrame(m, i, t, sz, x);
    KeysOfTrie(m, i, t, sz);
    NodeIn(m0, i, t, sz, k);
    RingApart(i, t, sz, k);
    RingIsLinked(m0, i, t[k]);
    RingOfTwo(m0, t[k], 0);
    NodesAndChunk(i, t, sz, x);
    BlankLinks(m, i, x, b);
    assert forall j :: 0 <= j < |t[k]| ==> Apart64(t[k][j], x) && Away(t[k][j], x);
    var n := Next(|t[k]|, 0);
    assert Fd(m0, b) == f == t[k][n];
    RingInsert(m0, t[k], x);
    NodesDistinct(i, t, sz, k);
    JoinedRing(m0, m1, i, t[k], x);
    JoinedFits(i, t, sz, k, x);
    var xs := [b, x, f];
    forall l, j, c | l in t && 0 <= j < |t[l]| && 0 <= c < |xs|
      ensures xs[c] == t[l][j] || Apart64(xs[c], t[l][j])
      ensures l != k ==> xs[c] != t[l][j]
    {
      if l != k || j != 0 { NodesDiffer(i, t, sz, k, 0, l, j); }
      if l != k || j != n { NodesDiffer(i, t, sz, k, n, l, j); }
    }
    LinkInOnly(m0, b, f, x);
    NoRoot(i, sz, b, f, x, m0);
    ChangeRing(m0, m1, i, t, sz, k, ys, xs);
  }

  lemma RingIsLinked(m: Mem, i: nat, xs: seq<int>)
    requires RingLinked(m, i, xs)
    ensures Ring(m, xs)
  {}

  lemma BlankLinks(m: Mem, i: nat, x: int, b: int)
    requires Apart64(b, x)
    ensures var m0 := Blank(m, i, x)[x + 48 := 0]; Fd(m0, b) == Fd(m, b) && Index(m0, x) == i && Bare(m0, x)
  {}

  lemma NodesAndChunk(i: nat, t: Trie, sz: map<int, nat>, x: int)
    requires KeysOk(i, t, sz) && Spread(sz) && x in sz && Large(sz[x]) && !In(t, x)
    ensures x > 0 && forall k, j :: k in t && 0 <= j < |t[k]| ==> Apart64(t[k][j], x) && t[k][j] > 0
  {
    forall k, j | k in t && 0 <= j < |t[k]|
      ensures Apart64(t[k][j], x) && t[k][j] > 0
    {
      assert t[k][j] in t[k];
      NodesApart(i, t, sz, k, j, x);
    }
  }

  lemma NodesDistinct(i: nat, t: Trie, sz: map<int, nat>, k: Key)
    requires KeysOk(i, t, sz) && Spread(sz) && k in t
    ensures forall j, l :: 0 <= j < |t[k]| && 0 <= l < |t[k]| && j != l ==> Apart64(t[k][j], t[k][l])
  {
    forall j, l | 0 <= j < |t[k]| && 0 <= l < |t[k]| && j != l
      ensures Apart64(t[k][j], t[k][l])
    {
      NodesDiffer(i, t, sz, k, j, k, l);
    }
  }

  lemma LinkInOnly(m: Mem, b: int, f: int, x: int)
    ensures OnlyLinks(m, LinkIn(m, b, f, x), [b, x, f])
  {
    var m1, xs := LinkIn(m, b, f, x), [b, x, f];
    forall c | R(m1, c) != R(m, c)
      ensures exists j :: 0 <= j < |xs| && IsLink(xs[j], c)
    {
      assert IsLink(xs[0], c) || IsLink(xs[1], c) || IsLink(xs[2], c);
    }
  }

  lemma NoRoot(i: nat, sz: map<int, nat>, b: int, f: int, x: int, m: Mem)
    requires i < NTREEBINS && b > 0 && f > 0 && x > 0
    ensures R(LinkIn(m, b, f, x), TreeBinAt(i)) == R(m, TreeBinAt(i))
  {}

  lemma JoinedRing(m0: Mem, m1: Mem, i: nat, xs: seq<int>, x: int)
    requires RingLinked(m0, i, xs) && m1 == LinkIn(m0, xs[0], Fd(m0, xs[0]), x) && Fd(m0, xs[0]) in xs
    requires Ring(m1, [xs[0], x] + xs[1..]) && Index(m0, x) == i && Bare(m0, x)
    requires forall j :: 0 <= j < |xs| ==> Apart64(xs[j], x)
    requires forall j, l :: 0 <= j < |xs| && 0 <= l < |xs| && j != l ==> Apart64(xs[j], xs[l])
    ensures RingLinked(m1, i, [xs[0], x] + xs[1..])
  {
    var b, f, ys := xs[0], Fd(m0, xs[0]), [xs[0], x] + xs[1..];
    LinkInOnly(m0, b, f, x);
    forall j | 0 <= j < |ys|
      ensures SameOthers(m0, m1, ys[j])
    {
      LinksElse(m0, m1, [b, x, f], ys[j]);
    }
    assert forall j :: 2 <= j < |ys| ==> ys[j] == xs[j - 1];
  }

  lemma JoinedFits(i: nat, t: Trie, sz: map<int, nat>, k: Key, x: int)
    requires KeysOk(i, t, sz) && k in t && Fits(i, sz, k, x) && !In(t, x) && SizeAt(t, sz, k) == sz[x] && t[k] != []
    ensures RingFits(i, sz, k, [t[k][0], x] + t[k][1..])
  {
    hide Fits;
    var xs := t[k];
    var ys := [xs[0], x] + xs[1..];
    assert RingFits(i, sz, k, xs);
    assert forall j :: 0 <= j < |xs| ==> xs[j] in t[k];
    FitsLarge(i, sz, k, x);
    assert forall j :: 2 <= j < |ys| ==> ys[j] == xs[j - 1];
  }
}
