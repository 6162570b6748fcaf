/** The table of C types (luajit/lj_ctype.c): entries are chained from hash anchors, by type or by
    name; interning shares equal types, and a failed declaration is rolled back by restoring the
    table top and the anchors. */
module CTypeTable {

  const CTID_MAX: nat := 65536
  const CTHASH_SIZE: nat := 128
  const MIN_VECSZ: nat := 8

  datatype Name = NoName | Named(id: nat)
  datatype CType = CType(info: nat, size: nat, sib: nat, next: nat, name: Name)

  /** The hash functions: any that yield an index of an anchor. */
  type Hash = f: (nat, nat) -> nat | forall a, b :: f(a, b) < 128 witness ((a, b) => 0)
  type NameHash = f: Name -> nat | forall a :: f(a) < 128 witness (a => 0)

  function Kind(info: nat): nat { info / 0x1000_0000 }

  /** Bit k of a mask. */
  function Bit(mask: nat, k: nat): bool
    decreases k
  {
    if k == 0 then mask % 2 == 1 else Bit(mask / 2, k - 1)
  }

  predicate TypeMatches(ct: CType, info: nat, size: nat) { ct.info == info && ct.size == size }

  predicate NameMatches(ct: CType, name: Name, tmask: nat) { ct.name == name && Bit(tmask, Kind(ct.info)) }

  // ---------------------------------------------------------------- chains

  /** The chain that starts at id consists of ids. */
  ghost predicate Linked(tab: seq<CType>, id: nat, ids: seq<nat>)
    decreases |ids|
  {
    if ids == [] then id == 0
    else 0 < id == ids[0] < |tab| && Linked(tab, tab[id].next, ids[1..])
  }

  /** The first entry of a chain that matches, or 0. */
  function FindType(tab: seq<CType>, ids: seq<nat>, info: nat, size: nat): (r: nat)
    requires forall i :: 0 <= i < |ids| ==> ids[i] < |tab|
    ensures r != 0 ==> r in ids && TypeMatches(tab[r], info, size)
  {
    if ids == [] then 0
    else if ids[0] != 0 && TypeMatches(tab[ids[0]], info, size) then ids[0]
    else FindType(tab, ids[1..], info, size)
  }

  function FindName(tab: seq<CType>, ids: seq<nat>, name: Name, tmask: nat): (r: nat)
    requires forall i :: 0 <= i < |ids| ==> ids[i] < |tab|
    ensures r != 0 ==> r in ids && NameMatches(tab[r], name, tmask)
  {
    if ids == [] then 0
    else if ids[0] != 0 && NameMatches(tab[ids[0]], name, tmask) then ids[0]
    else FindName(tab, ids[1..], name, tmask)
  }

  lemma {:induction false} FindsType(tab: seq<CType>, ids: seq<nat>, info: nat, size: nat, id: nat)
    requires forall i :: 0 <= i < |ids| ==> ids[i] < |tab|
    requires 0 < id && id in ids && TypeMatches(tab[id], info, size)
    ensures FindType(tab, ids, info, size) != 0
  {
    if ids[0] != id { FindsType(tab, ids[1..], info, size, id); }
  }

  lemma {:induction false} LinkedIds(tab: seq<CType>, id: nat, ids: seq<nat>)
    requires Linked(tab, id, ids)
    ensures forall i :: 0 <= i < |ids| ==> 0 < ids[i] < |tab|
    decreases |ids|
  {
    if ids != [] { LinkedIds(tab, tab[id].next, ids[1..]); }
  }

  /** A chain does not see a change of an entry that is not on it. */
  lemma {:induction false} LinkedFrame(tab: seq<CType>, tab1: seq<CType>, id: nat, ids: seq<nat>)
    requires Linked(tab, id, ids)
    requires forall k :: 0 <= k < |tab| && k in ids ==> k < |tab1| && tab1[k].next == tab[k].next
    ensures Linked(tab1, id, ids)
    decreases |ids|
  {
    if ids != [] {
      assert id in ids && forall k :: k in ids[1..] ==> k in ids;
      LinkedFrame(tab, tab1, tab[id].next, ids[1..]);
    }
  }

  // ---------------------------------------------------------------- the whole table

  ghost predicate InTable(tab: seq<CType>, chains: seq<seq<nat>>) {
    forall h, i :: 0 <= h < |chains| && 0 <= i < |chains[h]| ==> 0 < chains[h][i] < |tab|
  }

  /** Every anchor starts a chain; no entry is on two chains, or twice on one. */
  ghost predicate Chained(tab: seq<CType>, hash: seq<nat>, chains: seq<seq<nat>>) {
    && |hash| == |chains| == CTHASH_SIZE && InTable(tab, chains)
    && (forall h :: 0 <= h < CTHASH_SIZE ==> Linked(tab, hash[h], chains[h]))
    && (forall h, i, g, j :: 0 <= h < CTHASH_SIZE && 0 <= g < CTHASH_SIZE && 0 <= i < |chains[h]| && 0 <= j < |chains[g]| ==>
          chains[h][i] == chains[g][j] ==> h == g && i == j)
  }

  ghost predicate OnChain(chains: seq<seq<nat>>, id: nat) { exists h :: 0 <= h < |chains| && id in chains[h] }

  /** An entry becomes the first of a chain. */
  lemma Prepend(tab: seq<CType>, hash: seq<nat>, chains: seq<seq<nat>>, tab1: seq<CType>, h: nat, id: nat)
    requires Chained(tab, hash, chains) && h < CTHASH_SIZE && 0 < id < |tab1| && !OnChain(chains, id)
    requires |tab| <= |tab1| && tab1[id].next == hash[h]
    requires forall k :: 0 <= k < |tab| && k != id ==> tab1[k].next == tab[k].next
    ensures Chained(tab1, hash[h := id], chains[h := [id] + chains[h]])
  {
    var chains1 := chains[h := [id] + chains[h]];
    forall g | 0 <= g < CTHASH_SIZE
      ensures Linked(tab1, hash[g], chains[g]) && Linked(tab1, hash[h := id][g], chains1[g])
    {
      assert id !in chains[g];
      LinkedFrame(tab, tab1, hash[g], chains[g]);
      LinkedFrame(tab, tab1, hash[h], chains[h]);
      assert chains1[h][1..] == chains[h];
    }
    forall g, i, f, j | 0 <= g < CTHASH_SIZE && 0 <= f < CTHASH_SIZE && 0 <= i < |chains1[g]| && 0 <= j < |chains1[f]|
                        && chains1[g][i] == chains1[f][j]
      ensures g == f && i == j
    {
      var i1, j1 := if g == h then i - 1 else i, if f == h then j - 1 else j;
      assert i1 >= 0 ==> chains1[g][i] == chains[g][i1] && chains[g][i1] in chains[g];
      assert j1 >= 0 ==> chains1[f][j] == chains[f][j1] && chains[f][j1] in chains[f];
      assert id !in chains[g] && id !in chains[f];
    }
  }

  /** Types that are entered only by interning: each is on the chain of its hash, and no two
      entries are equal. */
  ghost predicate Consed(tab: seq<CType>, chains: seq<seq<nat>>, ht: Hash, interned: (nat, nat) -> bool)
    requires |chains| == CTHASH_SIZE
  {
    && (forall k :: 0 < k < |tab| && interned(tab[k].info, tab[k].size) ==> k in chains[ht(tab[k].info, tab[k].size)])
    && (forall k, m :: 0 < k < |tab| && 0 < m < |tab| && interned(tab[k].info, tab[k].size) ==>
          tab[k].info == tab[m].info && tab[k].size == tab[m].size ==> k == m)
  }

  // ---------------------------------------------------------------- what the operations do

  /** The entries, and the chains in their order. */
  datatype Spec = Spec(tab: seq<CType>, chains: seq<seq<nat>>)

  ghost predicate SpecOk(s: Spec) { |s.chains| == CTHASH_SIZE && InTable(s.tab, s.chains) }

  function EmptyTable(): Spec { Spec([CType(0, 0, 0, 0, NoName)], seq(CTHASH_SIZE, _ => [])) }

  function First(ids: seq<nat>): nat { if ids == [] then 0 else ids[0] }

  /** A type is interned: unless there is one already, or no room, a new entry starts the chain. */
  ghost function Interned(s: Spec, ht: Hash, info: nat, size: nat): (s1: Spec)
    requires SpecOk(s)
    ensures SpecOk(s1)
  {
    var h := ht(info, size);
    if FindType(s.tab, s.chains[h], info, size) != 0 || |s.tab| == 0 || |s.tab| >= CTID_MAX then s
    else Spec(s.tab + [CType(info, size, 0, First(s.chains[h]), NoName)], s.chains[h := [|s.tab|] + s.chains[h]])
  }

  /** Answers depend only on the entries and the anchors below the top. */
  datatype View = View(tab: seq<CType>, hash: seq<nat>)

  class CTState {
    const ht: Hash
    const hn: NameHash
    ghost const interned: (nat, nat) -> bool   // types that are entered only by interning
    var tab: array<CType>
    var top: nat
    const hash: array<nat>
    ghost var chains: seq<seq<nat>>

    constructor (ht: Hash, hn: NameHash, ghost interned: (nat, nat) -> bool)
      ensures this.ht == ht && this.hn == hn && this.interned == interned && fresh(hash) && fresh(tab)
      ensures Valid() && Entries() == EmptyTable().tab && chains == EmptyTable().chains
    {
      this.ht, this.hn, this.interned := ht, hn, interned;
      tab := new CType[128](_ => CType(0, 0, 0, 0, NoName));
      top := 1;
      hash := new nat[CTHASH_SIZE](_ => 0);
      chains := seq(CTHASH_SIZE, _ => []);
      new;
    }

    ghost predicate Shape()
      reads this, tab, hash
    {
      hash.Length == |chains| == CTHASH_SIZE && 1 <= top <= tab.Length <= CTID_MAX
    }

    ghost function Entries(): seq<CType>
      requires Shape()
      reads this, tab, hash
    {
      tab[..top]
    }

    ghost predicate Valid()
      reads this, tab, hash
    {
      Shape() && Chained(Entries(), hash[..], chains) && Consed(Entries(), chains, ht, interned)
    }

    ghost function Look(): View
      requires Shape()
      reads this, tab, hash
    {
      View(Entries(), hash[..])
    }

    /** `lj_mem_growvec`. */
    method Grow()
      requires Shape() && top == tab.Length < CTID_MAX
      modifies this`tab
      ensures Shape() && top < tab.Length && fresh(tab) && Entries() == old(Entries())
    {
      var sz := tab.Length * 2;
      if sz < MIN_VECSZ { sz := MIN_VECSZ; }
      if sz > CTID_MAX { sz := CTID_MAX; }
      var t := new CType[sz](i requires i >= 0 reads this, tab => if i < tab.Length then tab[i] else CType(0, 0, 0, 0, NoName));
      tab := t;
    }

    /** `lj_ctype_new`: an empty entry, on no chain. */
    method NewType() returns (err: bool, id: nat)
      requires Valid() && !interned(0, 0)
      modifies this`tab, tab, this`top
      ensures Valid() && (tab == old(tab) || fresh(tab)) && (err <==> old(top) >= CTID_MAX)
      ensures err ==> Look() == old(Look())
      ensures !err ==> id == old(top) && !OnChain(chains, id) && hash[..] == old(hash[..])
      ensures !err ==> Entries() == old(Entries()) + [CType(0, 0, 0, 0, NoName)]
    {
      hide Chained, Consed, OnChain;
      id := top;
      if id >= tab.Length {
        if id >= CTID_MAX { return true, 0; }
        Grow();
      }
      err := false;
      tab[id] := CType(0, 0, 0, 0, NoName);
      top := id + 1;
      ghost var before := old(Entries());
      assert Entries() == before + [CType(0, 0, 0, 0, NoName)];
      Unused(before, hash[..], chains, id);
      AppendEmpty(before, hash[..], chains, ht, interned, CType(0, 0, 0, 0, NoName));
    }

    /** The loop of `lj_ctype_intern`. */
    method SearchType(info: nat, size: nat) returns (id: nat)
      requires Valid()
      ensures id == FoundType(Entries(), chains, ht, info, size)
    {
      var h := ht(info, size);
      id := hash[h];
      ghost var ids := chains[h];
      LinkedIds(Entries(), id, ids);
      while id != 0
        invariant Linked(Entries(), id, ids) && forall i :: 0 <= i < |ids| ==> 0 < ids[i] < |Entries()|
        invariant FindType(Entries(), ids, info, size) == FoundType(Entries(), chains, ht, info, size)
        decreases |ids|
      {
        var ct := tab[id];
        if ct.info == info && ct.size == size { return; }
        id := ct.next;
        ids := ids[1..];
      }
    }

    /** `lj_ctype_intern`: the id of an entry with this type.  A type that is entered only here gets
        the same id each time: a new one exactly if no entry has this type. */
    method Intern(info: nat, size: nat) returns (err: bool, id: nat)
      requires Valid()
      modifies this`tab, tab, this`top, hash, this`chains
      ensures Valid() && (tab == old(tab) || fresh(tab))
      ensures err <==> old(top) >= CTID_MAX && old(FoundType(Entries(), chains, ht, info, size)) == 0
      ensures err ==> Look() == old(Look())
      ensures Spec(Entries(), chains) == Interned(old(Spec(Entries(), chains)), ht, info, size)
      ensures !err ==> id == FoundType(Entries(), chains, ht, info, size)
      ensures !err ==> 0 < id < top && TypeMatches(tab[id], info, size)
      ensures !err && id < old(top) ==> Look() == old(Look())
      ensures !err && id >= old(top) ==> id == old(top) && top == id + 1
      ensures top >= old(top) && Entries()[..old(top)] == old(Entries())
      ensures interned(info, size) ==>
                ((!err && id < old(top)) <==> exists k :: 0 < k < old(top) && TypeMatches(old(Entries())[k], info, size))
    {
      hide Chained, Consed, FoundType, OnChain, FindType;
      id := SearchType(info, size);
      ghost var before := Entries();
      FoundIs(before, chains, ht, info, size) by { FirstLinked(before, hash[..], chains, 0); }
      if id != 0 {
        FoundIsEntry(before, hash[..], chains, ht, info, size);
        return false, id;
      }
      if interned(info, size) { NotFound(before, hash[..], chains, ht, interned, info, size); }
      id := top;
      if id >= tab.Length {
        if id >= CTID_MAX { return true, 0; }
        Grow();
      }
      err := false;
      var h := ht(info, size);
      FirstLinked(before, hash[..], chains, h);
      tab[id] := CType(info, size, 0, hash[h], NoName);
      top := id + 1;
      assert Entries() == before + [CType(info, size, 0, hash[h], NoName)];
      Unused(before, hash[..], chains, id);
      Prepend(before, hash[..], chains, Entries(), h, id);
      hash[h] := id;
      chains := chains[h := [id] + chains[h]];
      ConsedAppend(before, old(chains), ht, interned, info, size, Entries(), chains, id);
      FirstLinked(Entries(), hash[..], chains, h);
      FoundFirst(Entries(), chains, ht, info, size, id);
    }

    /** Filling in an entry that was made by `lj_ctype_new`. */
    method Fill(id: nat, info: nat, size: nat, sib: nat, name: Name)
      requires Valid() && 0 < id < top && !interned(info, size) && !interned(tab[id].info, tab[id].size)
      modifies tab
      ensures Valid() && Entries() == old(Entries())[id := CType(info, size, sib, old(tab[id].next), name)]
    {
      ghost var before := Entries();
      tab[id] := CType(info, size, sib, tab[id].next, name);
      assert Entries() == before[id := tab[id]];
      forall h | 0 <= h < CTHASH_SIZE
        ensures Linked(Entries(), hash[h], chains[h])
      {
        LinkedFrame(before, Entries(), hash[h], chains[h]);
      }
    }

    /** `lj_ctype_addname`, of an entry that is on no chain yet. */
    method AddName(id: nat)
      requires Valid() && 0 < id < top && !OnChain(chains, id)
      modifies tab, hash, this`chains
      ensures Valid()
      ensures Entries() == old(Entries())[id := old(tab[id]).(next := First(old(chains)[hn(old(tab[id].name))]))]
      ensures chains == old(chains)[hn(old(tab[id].name)) := [id] + old(chains)[hn(old(tab[id].name))]]
    {
      hide Chained, Consed, OnChain;
      ChainsShape(Entries(), hash[..], chains);
      ghost var before := Entries();
      var h := hn(tab[id].name);
      FirstLinked(before, hash[..], chains, h);
      tab[id] := tab[id].(next := hash[h]);
      assert Entries() == before[id := tab[id]];
      Prepend(before, hash[..], chains, Entries(), h, id);
      hash[h] := id;
      chains := chains[h := [id] + chains[h]];
      assert hash[..] == old(hash[..])[h := id];
      ConsedLonger(before, old(chains), ht, interned, Entries(), chains);
    }

    /** `lj_ctype_getname`: the first entry of the chain with this name and one of these kinds. */
    method GetName(name: Name, tmask: nat) returns (id: nat)
      requires Valid()
      ensures id == FoundName(Entries(), chains, hn, name, tmask)
    {
      id := hash[hn(name)];
      ghost var ids := chains[hn(name)];
      LinkedIds(Entries(), id, ids);
      while id != 0
        invariant Linked(Entries(), id, ids) && forall i :: 0 <= i < |ids| ==> 0 < ids[i] < |Entries()|
        invariant FindName(Entries(), ids, name, tmask) == FoundName(Entries(), chains, hn, name, tmask)
        decreases |ids|
      {
        var ct := tab[id];
        if ct.name == name && Bit(tmask, Kind(ct.info)) { return; }
        id := ct.next;
        ids := ids[1..];
      }
    }

    /** `LJ_CTYPE_RESTORE`: if the entries below the saved top are as they were, everything is. */
    method Restore(saveTop: nat, saveHash: seq<nat>, ghost saved: View, ghost savedChains: seq<seq<nat>>)
      requires Valid() && 1 <= saveTop <= top && saved == View(tab[..saveTop], saveHash)
      requires Chained(saved.tab, saveHash, savedChains) && Consed(saved.tab, savedChains, ht, interned)
      modifies this`top, hash, this`chains
      ensures Valid() && Look() == saved && chains == savedChains
    {
      hide Chained, Consed;
      ChainsShape(saved.tab, saveHash, savedChains);
      top := saveTop;
      forall h | 0 <= h < hash.Length {
        hash[h] := saveHash[h];
      }
      assert hash[..] == saveHash && Entries() == saved.tab;
      chains := savedChains;
    }
  }

  ghost function FoundType(tab: seq<CType>, chains: seq<seq<nat>>, ht: Hash, info: nat, size: nat): nat
    requires |chains| == CTHASH_SIZE
    requires InTable(tab, chains)
  {
    FindType(tab, chains[ht(info, size)], info, size)
  }

  ghost function FoundName(tab: seq<CType>, chains: seq<seq<nat>>, hn: NameHash, name: Name, tmask: nat): nat
    requires |chains| == CTHASH_SIZE
    requires InTable(tab, chains)
  {
    FindName(tab, chains[hn(name)], name, tmask)
  }

  lemma FoundIsEntry(tab: seq<CType>, hash: seq<nat>, chains: seq<seq<nat>>, ht: Hash, info: nat, size: nat)
    requires Chained(tab, hash, chains) && FoundType(tab, chains, ht, info, size) != 0
    ensures var id := FoundType(tab, chains, ht, info, size); 0 < id < |tab| && TypeMatches(tab[id], info, size)
  {}

  /** A new entry at the start of its chain is found first. */
  lemma FoundFirst(tab: seq<CType>, chains: seq<seq<nat>>, ht: Hash, info: nat, size: nat, id: nat)
    requires |chains| == CTHASH_SIZE && InTable(tab, chains) && 0 < id < |tab| && TypeMatches(tab[id], info, size)
    requires chains[ht(info, size)] != [] && chains[ht(info, size)][0] == id
    ensures FoundType(tab, chains, ht, info, size) == id
  {}

  lemma FoundIs(tab: seq<CType>, chains: seq<seq<nat>>, ht: Hash, info: nat, size: nat)
    requires |chains| == CTHASH_SIZE && InTable(tab, chains)
    ensures FoundType(tab, chains, ht, info, size) == FindType(tab, chains[ht(info, size)], info, size)
  {}

  lemma FirstLinked(tab: seq<CType>, hash: seq<nat>, chains: seq<seq<nat>>, h: nat)
    requires Chained(tab, hash, chains) && h < CTHASH_SIZE
    ensures hash[h] == First(chains[h]) && InTable(tab, chains)
  {
    assert Linked(tab, hash[h], chains[h]);
  }

  lemma NotFound(tab: seq<CType>, hash: seq<nat>, chains: seq<seq<nat>>, ht: Hash, interned: (nat, nat) -> bool,
                 info: nat, size: nat)
    requires Chained(tab, hash, chains) && Consed(tab, chains, ht, interned)
    requires interned(info, size) && FoundType(tab, chains, ht, info, size) == 0
    ensures forall k :: 0 < k < |tab| ==> !TypeMatches(tab[k], info, size)
  {
    forall k | 0 < k < |tab|
      ensures !TypeMatches(tab[k], info, size)
    {
      if TypeMatches(tab[k], info, size) { FindsType(tab, chains[ht(info, size)], info, size, k); }
    }
  }

  /** A new entry whose type was not there. */
  lemma ConsedAppend(tab: seq<CType>, chains: seq<seq<nat>>, ht: Hash, interned: (nat, nat) -> bool, info: nat, size: nat,
                     tab1: seq<CType>, chains1: seq<seq<nat>>, id: nat)
    requires |chains| == CTHASH_SIZE && Consed(tab, chains, ht, interned)
    requires chains1 == chains[ht(info, size) := [id] + chains[ht(info, size)]]
    requires id == |tab| && |tab1| == id + 1 && tab1[..id] == tab && TypeMatches(tab1[id], info, size)
    requires interned(info, size) ==> forall k :: 0 < k < |tab| ==> !TypeMatches(tab[k], info, size)
    ensures Consed(tab1, chains1, ht, interned)
  {
    forall k | 0 < k < |tab1| && interned(tab1[k].info, tab1[k].size)
      ensures k in chains1[ht(tab1[k].info, tab1[k].size)]
    {
      if k < id { assert tab1[k] == tab[k]; }
    }
    assert forall k :: 0 < k < id ==> tab1[k] == tab[k];
  }

  /** A new entry that is on no chain, and not interned. */
  lemma AppendEmpty(tab: seq<CType>, hash: seq<nat>, chains: seq<seq<nat>>, ht: Hash, interned: (nat, nat) -> bool, ct: CType)
    requires Chained(tab, hash, chains) && Consed(tab, chains, ht, interned) && !interned(ct.info, ct.size)
    ensures Chained(tab + [ct], hash, chains) && Consed(tab + [ct], chains, ht, interned)
  {
    forall h | 0 <= h < CTHASH_SIZE
      ensures Linked(tab + [ct], hash[h], chains[h])
    {
      LinkedFrame(tab, tab + [ct], hash[h], chains[h]);
    }
  }

  lemma ChainsShape(tab: seq<CType>, hash: seq<nat>, chains: seq<seq<nat>>)
    requires Chained(tab, hash, chains)
    ensures |hash| == |chains| == CTHASH_SIZE
  {}

  /** Other links do not matter for interning, as long as no chain loses an entry. */
  lemma ConsedLonger(tab: seq<CType>, chains: seq<seq<nat>>, ht: Hash, interned: (nat, nat) -> bool,
                     tab1: seq<CType>, chains1: seq<seq<nat>>)
    requires |chains| == |chains1| == CTHASH_SIZE && Consed(tab, chains, ht, interned) && |tab| == |tab1|
    requires forall k :: 0 <= k < |tab| ==> tab1[k].info == tab[k].info && tab1[k].size == tab[k].size
    requires forall h :: 0 <= h < CTHASH_SIZE ==> forall k :: k in chains[h] ==> k in chains1[h]
    ensures Consed(tab1, chains1, ht, interned)
  {}

  /** An id that is not in the table is on no chain. */
  lemma Unused(tab: seq<CType>, hash: seq<nat>, chains: seq<seq<nat>>, id: nat)
    requires Chained(tab, hash, chains) && id >= |tab|
    ensures !OnChain(chains, id)
  {
    forall h | 0 <= h < CTHASH_SIZE
      ensures id !in chains[h]
    {
      LinkedIds(tab, hash[h], chains[h]);
    }
  }

  // ---------------------------------------------------------------- declarations

  /** What a declaration does: it interns types, and makes new entries, which may get a name. */
  datatype Op = DoIntern(info: nat, size: nat) | DoNew(info: nat, size: nat, sib: nat, name: Name, hashed: bool)

  predicate OpOk(op: Op, interned: (nat, nat) -> bool) { op.DoNew? ==> !interned(op.info, op.size) }

  /** A new entry, with or without a name in its chain. */
  ghost function Declared(s: Spec, hn: NameHash, info: nat, size: nat, sib: nat, name: Name, hashed: bool): (s1: Spec)
    requires SpecOk(s)
    ensures SpecOk(s1)
  {
    var h, id := hn(name), |s.tab|;
    if id == 0 || id >= CTID_MAX then s
    else if hashed then Spec(s.tab + [CType(info, size, sib, First(s.chains[h]), name)], s.chains[h := [id] + s.chains[h]])
    else Spec(s.tab + [CType(info, size, sib, 0, name)], s.chains)
  }

  ghost function Apply(s: Spec, op: Op, ht: Hash, hn: NameHash): (s1: Spec)
    requires SpecOk(s)
    ensures SpecOk(s1)
  {
    match op
    case DoIntern(info, size) => Interned(s, ht, info, size)
    case DoNew(info, size, sib, name, hashed) => Declared(s, hn, info, size, sib, name, hashed)
  }

  /** Any operations. */
  ghost function Replay(s: Spec, ops: seq<Op>, ht: Hash, hn: NameHash): (s1: Spec)
    requires SpecOk(s)
    ensures SpecOk(s1)
  {
    if ops == [] then s else Apply(Replay(s, ops[..|ops| - 1], ht, hn), ops[|ops| - 1], ht, hn)
  }

  /** One operation.  Entries that were there before are not changed. */
  method DoOp(cts: CTState, op: Op)
    requires cts.Valid() && !cts.interned(0, 0) && OpOk(op, cts.interned)
    modifies cts`tab, cts.tab, cts`top, cts.hash, cts`chains
    ensures cts.Valid() && (cts.tab == old(cts.tab) || fresh(cts.tab)) && cts.top >= old(cts.top)
    ensures cts.Entries()[..old(cts.top)] == old(cts.Entries())
    ensures Spec(cts.Entries(), cts.chains) == Apply(old(Spec(cts.Entries(), cts.chains)), op, cts.ht, cts.hn)
  {
    hide Chained, Consed, FindType;
    match op
    case DoIntern(info, size) =>
      var err, id := cts.Intern(info, size);
    case DoNew(info, size, sib, name, hashed) =>
      var err, id := cts.NewType();
      if !err {
        cts.Fill(id, info, size, sib, name);
        if hashed { cts.AddName(id); }
      }
  }

  /** Any operations. */
  method DoOps(cts: CTState, ops: seq<Op>)
    requires cts.Valid() && !cts.interned(0, 0) && forall i :: 0 <= i < |ops| ==> OpOk(ops[i], cts.interned)
    modifies cts`tab, cts.tab, cts`top, cts.hash, cts`chains
    ensures cts.Valid() && (cts.tab == old(cts.tab) || fresh(cts.tab)) && cts.top >= old(cts.top)
    ensures cts.Entries()[..old(cts.top)] == old(cts.Entries())
    ensures Spec(cts.Entries(), cts.chains) == Replay(old(Spec(cts.Entries(), cts.chains)), ops, cts.ht, cts.hn)
  {
    hide Chained, Consed, Apply;
    ghost var s := Spec(cts.Entries(), cts.chains);
    FirstLinked(cts.Entries(), cts.hash[..], cts.chains, 0);
    ChainsShape(cts.Entries(), cts.hash[..], cts.chains);
    for i := 0 to |ops|
      invariant cts.Valid() && (cts.tab == old(cts.tab) || fresh(cts.tab)) && cts.top >= old(cts.top)
      invariant cts.Entries()[..old(cts.top)] == old(cts.Entries())
      invariant Spec(cts.Entries(), cts.chains) == Replay(s, ops[..i], cts.ht, cts.hn)
    {
      ghost var top, entries := cts.top, cts.Entries();
      DoOp(cts, ops[i]);
      assert cts.Entries()[..old(cts.top)] == cts.Entries()[..top][..old(cts.top)];
      assert ops[..i + 1][..i] == ops[..i];
    }
    assert ops[..|ops|] == ops;
  }

  datatype Query = ByType(info: nat, size: nat) | ByName(name: Name, tmask: nat)

  /** The first entry of its chain that a query matches, or 0. */
  ghost function Lookup(s: Spec, q: Query, ht: Hash, hn: NameHash): nat
    requires SpecOk(s)
  {
    match q
    case ByType(info, size) => FindType(s.tab, s.chains[ht(info, size)], info, size)
    case ByName(name, tmask) => FindName(s.tab, s.chains[hn(name)], name, tmask)
  }

  // What lookups find, told from the operations alone.

  /** The id of the entry that operation i makes, if it makes one. */
  ghost function IdAt(ops: seq<Op>, ht: Hash, hn: NameHash, i: nat): nat
    requires i <= |ops|
  {
    |Replay(EmptyTable(), ops[..i], ht, hn).tab|
  }

  /** Operation i declares the name, with a kind of the mask. */
  ghost predicate Names(ops: seq<Op>, ht: Hash, hn: NameHash, i: nat, name: Name, tmask: nat) {
    && i < |ops| && ops[i].DoNew? && ops[i].hashed && ops[i].name == name && Bit(tmask, Kind(ops[i].info))
    && 0 < IdAt(ops, ht, hn, i) < CTID_MAX
  }

  /** Operation i interns the type. */
  ghost predicate Interns(ops: seq<Op>, ht: Hash, hn: NameHash, i: nat, info: nat, size: nat) {
    i < |ops| && ops[i] == DoIntern(info, size) && 0 < IdAt(ops, ht, hn, i) < CTID_MAX
  }

  /** id is the last entry that was declared with the name and a kind of the mask; 0 if there is none. */
  ghost predicate LastNamed(ops: seq<Op>, ht: Hash, hn: NameHash, name: Name, tmask: nat, id: nat) {
    if id == 0 then forall i: nat :: !Names(ops, ht, hn, i, name, tmask)
    else exists i: nat :: Names(ops, ht, hn, i, name, tmask) && IdAt(ops, ht, hn, i) == id &&
                          forall j: nat :: i < j ==> !Names(ops, ht, hn, j, name, tmask)
  }

  /** id is the entry that was made when the type was interned first; 0 if it never was. */
  ghost predicate FirstInterned(ops: seq<Op>, ht: Hash, hn: NameHash, info: nat, size: nat, id: nat) {
    if id == 0 then forall i: nat :: !Interns(ops, ht, hn, i, info, size)
    else exists i: nat :: Interns(ops, ht, hn, i, info, size) && IdAt(ops, ht, hn, i) == id &&
                          forall j: nat :: j < i ==> !Interns(ops, ht, hn, j, info, size)
  }

  lemma {:induction false} FindNameGrows(tab: seq<CType>, tab1: seq<CType>, ids: seq<nat>, name: Name, tmask: nat)
    requires tab <= tab1 && forall i :: 0 <= i < |ids| ==> ids[i] < |tab|
    ensures FindName(tab1, ids, name, tmask) == FindName(tab, ids, name, tmask)
  {
    if ids != [] { FindNameGrows(tab, tab1, ids[1..], name, tmask); }
  }

  lemma {:induction false} FindTypeGrows(tab: seq<CType>, tab1: seq<CType>, ids: seq<nat>, info: nat, size: nat)
    requires tab <= tab1 && forall i :: 0 <= i < |ids| ==> ids[i] < |tab|
    ensures FindType(tab1, ids, info, size) == FindType(tab, ids, info, size)
  {
    if ids != [] { FindTypeGrows(tab, tab1, ids[1..], info, size); }
  }

  /** One operation, seen by a lookup by name. */
  lemma NameStep(s: Spec, op: Op, ht: Hash, hn: NameHash, name: Name, tmask: nat)
    requires SpecOk(s) && name != NoName
    ensures var fits := op.DoNew? && op.hashed && op.name == name && Bit(tmask, Kind(op.info)) && 0 < |s.tab| < CTID_MAX;
            Lookup(Apply(s, op, ht, hn), ByName(name, tmask), ht, hn) ==
              if fits then |s.tab| else Lookup(s, ByName(name, tmask), ht, hn)
  {
    var s1 := Apply(s, op, ht, hn);
    var ids, ids1 := s.chains[hn(name)], s1.chains[hn(name)];
    assert s.tab <= s1.tab;
    FindNameGrows(s.tab, s1.tab, ids, name, tmask);
    assert ids1 == ids || (ids1 == [|s.tab|] + ids && ids1[1..] == ids);
  }

  /** One operation, seen by a lookup by type. */
  lemma TypeStep(s: Spec, op: Op, ht: Hash, hn: NameHash, info: nat, size: nat)
    requires SpecOk(s) && (op.DoNew? ==> op.info != info || op.size != size)
    ensures var found := Lookup(s, ByType(info, size), ht, hn);
            Lookup(Apply(s, op, ht, hn), ByType(info, size), ht, hn) ==
              if found == 0 && op == DoIntern(info, size) && 0 < |s.tab| < CTID_MAX then |s.tab| else found
  {
    var s1 := Apply(s, op, ht, hn);
    var ids, ids1 := s.chains[ht(info, size)], s1.chains[ht(info, size)];
    assert s.tab <= s1.tab;
    FindTypeGrows(s.tab, s1.tab, ids, info, size);
    assert ids1 == ids || (ids1 == [|s.tab|] + ids && ids1[1..] == ids);
  }

  lemma Earlier(ops: seq<Op>, ht: Hash, hn: NameHash, n: nat)
    requires n + 1 == |ops|
    ensures forall i: nat, name, tmask :: i < n ==> (Names(ops, ht, hn, i, name, tmask) <==> Names(ops[..n], ht, hn, i, name, tmask))
    ensures forall i: nat, info, size :: i < n ==> (Interns(ops, ht, hn, i, info, size) <==> Interns(ops[..n], ht, hn, i, info, size))
    ensures forall i: nat :: i <= n ==> IdAt(ops, ht, hn, i) == IdAt(ops[..n], ht, hn, i)
  {
    assert forall i: nat :: i <= n ==> ops[..n][..i] == ops[..i];
  }

  /** A name stands for the entry that was declared last. */
  lemma {:induction false} NameMeaning(ops: seq<Op>, ht: Hash, hn: NameHash, name: Name, tmask: nat)
    requires name != NoName
    ensures LastNamed(ops, ht, hn, name, tmask, Lookup(Replay(EmptyTable(), ops, ht, hn), ByName(name, tmask), ht, hn))
  {
    if ops != [] {
      hide Names, Lookup, Apply;
      var n := |ops| - 1;
      NameMeaning(ops[..n], ht, hn, name, tmask);
      Earlier(ops, ht, hn, n);
      NameStep(Replay(EmptyTable(), ops[..n], ht, hn), ops[n], ht, hn, name, tmask);
      NamesOnly(ops, ht, hn, n, name, tmask);
    } else {
      assert Replay(EmptyTable(), ops, ht, hn) == EmptyTable();
    }
  }

  lemma NamesOnly(ops: seq<Op>, ht: Hash, hn: NameHash, n: nat, name: Name, tmask: nat)
    requires n + 1 == |ops|
    ensures forall i: nat :: i >= |ops| ==> !Names(ops, ht, hn, i, name, tmask)
    ensures forall i: nat :: i >= n ==> !Names(ops[..n], ht, hn, i, name, tmask)
    ensures var op, top := ops[n], IdAt(ops, ht, hn, n);
            Names(ops, ht, hn, n, name, tmask) <==>
              op.DoNew? && op.hashed && op.name == name && Bit(tmask, Kind(op.info)) && 0 < top < CTID_MAX
  {}

  /** A type stands for the entry that was made when it was interned first. */
  lemma {:induction false} TypeMeaning(ops: seq<Op>, ht: Hash, hn: NameHash, interned: (nat, nat) -> bool, info: nat, size: nat)
    requires interned(info, size) && forall i :: 0 <= i < |ops| ==> OpOk(ops[i], interned)
    ensures FirstInterned(ops, ht, hn, info, size, Lookup(Replay(EmptyTable(), ops, ht, hn), ByType(info, size), ht, hn))
  {
    if ops != [] {
      hide Interns, Lookup, Apply;
      var n := |ops| - 1;
      TypeMeaning(ops[..n], ht, hn, interned, info, size);
      Earlier(ops, ht, hn, n);
      assert OpOk(ops[n], interned);
      TypeStep(Replay(EmptyTable(), ops[..n], ht, hn), ops[n], ht, hn, info, size);
      InternsOnly(ops, ht, hn, n, info, size);
    } else {
      assert Replay(EmptyTable(), ops, ht, hn) == EmptyTable();
    }
  }

  lemma InternsOnly(ops: seq<Op>, ht: Hash, hn: NameHash, n: nat, info: nat, size: nat)
    requires n + 1 == |ops|
    ensures forall i: nat :: i >= |ops| ==> !Interns(ops, ht, hn, i, info, size)
    ensures forall i: nat :: i >= n ==> !Interns(ops[..n], ht, hn, i, info, size)
    ensures Interns(ops, ht, hn, n, info, size) <==> ops[n] == DoIntern(info, size) && 0 < IdAt(ops, ht, hn, n) < CTID_MAX
  {}

  method Answer(cts: CTState, q: Query) returns (id: nat)
    requires cts.Valid()
    ensures id == Lookup(Spec(cts.Entries(), cts.chains), q, cts.ht, cts.hn)
  {
    match q
    case ByType(info, size) => id := cts.SearchType(info, size);
    case ByName(name, tmask) => id := cts.GetName(name, tmask);
  }

  /** A declaration that fails after any operations is rolled back: every lookup by type or name
      answers as it did when the state was saved, which is what the operations before have entered. */
  method FailedDeclaration(ht: Hash, hn: NameHash, ghost interned: (nat, nat) -> bool, earlier: seq<Op>, failed: seq<Op>,
                           q: Query) returns (before: nat, after: nat)
    requires !interned(0, 0)
    requires forall i :: 0 <= i < |earlier| ==> OpOk(earlier[i], interned)
    requires forall i :: 0 <= i < |failed| ==> OpOk(failed[i], interned)
    ensures before == after == Lookup(Replay(EmptyTable(), earlier, ht, hn), q, ht, hn)
    ensures q.ByName? && q.name != NoName ==> LastNamed(earlier, ht, hn, q.name, q.tmask, after)
    ensures q.ByType? && interned(q.info, q.size) ==> FirstInterned(earlier, ht, hn, q.info, q.size, after)
  {
    hide Chained, Consed, Apply, Lookup;
    var cts := new CTState(ht, hn, interned);
    DoOps(cts, earlier);
    var saveTop, saveHash := cts.top, cts.hash[..];
    ghost var saved, savedChains := cts.Look(), cts.chains;
    before := Answer(cts, q);
    DoOps(cts, failed);
    assert cts.tab[..saveTop] == cts.Entries()[..saveTop];
    cts.Restore(saveTop, saveHash, saved, savedChains);
    after := Answer(cts, q);
    match q
    case ByType(info, size) => if interned(info, size) { TypeMeaning(earlier, ht, hn, interned, info, size); }
    case ByName(name, tmask) => if name != NoName { NameMeaning(earlier, ht, hn, name, tmask); }
  }

  /** Interning fails exactly if the type is not there and the table is full. */
  ghost predicate NoRoom(s: Spec, ht: Hash, info: nat, size: nat)
    requires SpecOk(s)
  {
    |s.tab| >= CTID_MAX && FindType(s.tab, s.chains[ht(info, size)], info, size) == 0
  }

  /** Interning any two types, with any operations before and in between: types that are entered
      only by interning get equal ids exactly if they are equal; an id is missing exactly if the
      table is full and the type is not in it. */
  method InternTwice(ht: Hash, hn: NameHash, interned: (nat, nat) -> bool, ops1: seq<Op>, ops2: seq<Op>,
                     info1: nat, size1: nat, info2: nat, size2: nat) returns (err1: bool, err2: bool, id1: nat, id2: nat)
    requires !interned(0, 0) && interned(info1, size1) && interned(info2, size2)
    requires forall i :: 0 <= i < |ops1| ==> OpOk(ops1[i], interned)
    requires forall i :: 0 <= i < |ops2| ==> OpOk(ops2[i], interned)
    ensures var s1 := Replay(EmptyTable(), ops1, ht, hn);
            var s2 := Replay(Interned(s1, ht, info1, size1), ops2, ht, hn);
            && (err1 <==> NoRoom(s1, ht, info1, size1)) && (err2 <==> NoRoom(s2, ht, info2, size2))
            && (!err1 && !err2 ==> (id1 == id2 <==> info1 == info2 && size1 == size2))
  {
    hide Chained, Consed, Apply, FindType;
    var cts := new CTState(ht, hn, interned);
    DoOps(cts, ops1);
    err1, id1 := cts.Intern(info1, size1);
    ghost var entries := cts.Entries();
    DoOps(cts, ops2);
    assert !err1 ==> cts.Entries()[id1] == cts.Entries()[..|entries|][id1] == entries[id1];
    ghost var entries2 := cts.Entries();
    err2, id2 := cts.Intern(info2, size2);
    if !err1 && !err2 {
      assert cts.Entries()[id1] == cts.Entries()[..|entries2|][id1] == entries2[id1];
      EqualIds(cts.Entries(), cts.chains, ht, interned, id1, id2);
    }
  }

  lemma EqualIds(tab: seq<CType>, chains: seq<seq<nat>>, ht: Hash, interned: (nat, nat) -> bool, id1: nat, id2: nat)
    requires |chains| == CTHASH_SIZE && Consed(tab, chains, ht, interned) && 0 < id1 < |tab| && 0 < id2 < |tab|
    requires interned(tab[id1].info, tab[id1].size)
    ensures id1 == id2 <==> TypeMatches(tab[id1], tab[id2].info, tab[id2].size)
  {}
}
