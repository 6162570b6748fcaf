/** References to values in a table (luajit/lib_aux.c): `luaL_ref` and `luaL_unref` keep a free
    list inside the table itself. */
module RefTable {

  const FREELIST_REF := 0
  const LUA_REFNIL := -1

  /** A value that is not nil; `Other` stands for all that are not numbers. */
  datatype Value = Int(i: int) | Other(id: nat)
  datatype Slot = Nil | Val(value: Value)

  type Slots = map<int, Value>

  function RawGet(t: Slots, k: int): Slot { if k in t then Val(t[k]) else Nil }

  /** Storing nil removes the slot. */
  function RawSet(t: Slots, k: int, v: Slot): Slots { if v.Val? then t[k := v.value] else t - {k} }

  /** `lua_tointeger`. */
  function ToInteger(s: Slot): int { if s.Val? && s.value.Int? then s.value.i else 0 }

  /** What the length operator may return: any border. */
  predicate Border(t: Slots, n: nat) { (n == 0 || n in t) && n + 1 !in t }

  /** The free slots, from the one stored at FREELIST_REF on: each holds the next one, and only the
      last of them is nil. */
  ghost predicate FreeList(t: Slots, head: Slot, free: seq<int>)
    decreases |free|
  {
    if free == [] then head == Nil else head == Val(Int(free[0])) && FreeList(t, RawGet(t, free[0]), free[1..])
  }

  ghost predicate Distinct(s: seq<int>) { forall i, j :: 0 <= i < j < |s| ==> s[i] != s[j] }

  /** The slots 1..n are divided into live references, which hold their values, and the free list. */
  ghost predicate Inv(t: Slots, live: Slots, free: seq<int>, n: nat) {
    && Distinct(free) && FreeList(t, RawGet(t, FREELIST_REF), free)
    && (forall k :: 1 <= k <= n <==> k in live || k in free)
    && (forall k :: k in live ==> k !in free && k in t && t[k] == live[k])
    && (forall k :: k > n ==> k !in t)
  }

  /** When the free list is empty, 1..n has no hole, and the border is unique. */
  lemma BorderUnique(t: Slots, live: Slots, n: nat, m: nat)
    requires Inv(t, live, [], n)
    ensures Border(t, m) <==> m == n
  {
    if m < n { assert m + 1 in live; }
    if n > 0 { assert n in live; }
  }

  /** The free list does not see a change of a slot that is not on it. */
  lemma {:induction false} FreeListFrame(t: Slots, t1: Slots, head: Slot, free: seq<int>)
    requires FreeList(t, head, free) && forall k :: k in free ==> RawGet(t1, k) == RawGet(t, k)
    ensures FreeList(t1, head, free)
    decreases |free|
  {
    if free != [] {
      assert free[0] in free;
      assert forall k :: k in free[1..] ==> k in free;
      FreeListFrame(t, t1, RawGet(t, free[0]), free[1..]);
      assert RawGet(t1, free[0]) == RawGet(t, free[0]);
    }
  }

  /** A reference is taken from the free list. */
  lemma TakeFree(t: Slots, live: Slots, free: seq<int>, n: nat, v: Value) returns (ref: int, t1: Slots)
    requires Inv(t, live, free, n) && free != []
    ensures ref == ToInteger(RawGet(t, FREELIST_REF)) == free[0] != 0 && ref !in live && 1 <= ref
    ensures t1 == RawSet(RawSet(t, FREELIST_REF, RawGet(t, ref)), ref, Val(v))
    ensures Inv(t1, live[ref := v], free[1..], n)
  {
    ref := free[0];
    assert ref in free;
    t1 := RawSet(RawSet(t, FREELIST_REF, RawGet(t, ref)), ref, Val(v));
    var rest := free[1..];
    assert forall k :: k in rest ==> k in free && k != ref;
    assert forall k :: k in free ==> k == ref || k in rest;
    FreeListFrame(t, t1, RawGet(t, ref), rest);
    assert RawGet(t1, FREELIST_REF) == RawGet(t, ref);
  }

  /** A new reference is created behind the last one. */
  lemma Extend(t: Slots, live: Slots, free: seq<int>, n: nat, v: Value)
    requires Inv(t, live, free, n) && ToInteger(RawGet(t, FREELIST_REF)) == 0
    ensures free == [] && n + 1 !in live && Inv(RawSet(t, n + 1, Val(v)), live[n + 1 := v], [], n + 1)
  {
    assert forall i :: 0 <= i < |free| ==> free[i] in free;
    assert RawGet(RawSet(t, n + 1, Val(v)), FREELIST_REF) == RawGet(t, FREELIST_REF);
  }

  /** A live reference moves to the front of the free list. */
  lemma Release(t: Slots, live: Slots, free: seq<int>, n: nat, ref: int)
    requires Inv(t, live, free, n) && ref in live
    ensures Inv(RawSet(RawSet(t, ref, RawGet(t, FREELIST_REF)), FREELIST_REF, Val(Int(ref))), live - {ref}, [ref] + free, n)
  {
    var head := RawGet(t, FREELIST_REF);
    var t1 := RawSet(RawSet(t, ref, head), FREELIST_REF, Val(Int(ref)));
    var f1 := [ref] + free;
    assert f1[1..] == free && f1[0] == ref;
    assert forall k :: k in f1 <==> k == ref || k in free;
    assert forall i :: 0 <= i < |free| ==> free[i] in free;
    FreeListFrame(t, t1, head, free);
    assert RawGet(t1, ref) == head;
  }

  class Registry {
    var t: Slots
    ghost var live: Slots      // references that are not released, with their values
    ghost var free: seq<int>
    ghost var n: nat

    constructor ()
      ensures Valid() && live == map[]
    {
      t, live, free, n := map[], map[], [], 0;
    }

    ghost predicate Valid()
      reads this
    {
      Inv(t, live, free, n) && forall k :: k in live ==> 1 <= k <= n
    }

    /** The length operator: an arbitrary border. */
    method ObjLen() returns (m: nat)
      requires Valid() && free == []
      ensures m == n && Border(t, m)
    {
      BorderUnique(t, live, n, n);
      m :| Border(t, m);
      BorderUnique(t, live, n, m);
    }

    /** `luaL_ref`: the reference was not live, and no live value changes. */
    method Ref(v: Slot) returns (ref: int)
      requires Valid()
      modifies this
      ensures Valid()
      ensures v.Nil? ==> ref == LUA_REFNIL && live == old(live) && t == old(t)
      ensures v.Val? ==> ref >= 1 && ref !in old(live) && live == old(live)[ref := v.value]
    {
      if v.Nil? { return LUA_REFNIL; }
      ref := ToInteger(RawGet(t, FREELIST_REF));
      if ref != 0 {
        ghost var r, t1 := TakeFree(t, live, free, n, v.value);
        t := RawSet(t, FREELIST_REF, RawGet(t, ref));
        t := RawSet(t, ref, v);
        free := free[1..];
      } else {
        Extend(t, live, free, n, v.value);
        ref := ObjLen();
        ref := ref + 1;
        t := RawSet(t, ref, v);
        n := n + 1;
      }
      live := live[ref := v.value];
    }

    /** `luaL_unref` of a live reference, or of one of the negative constants. */
    method Unref(ref: int)
      requires Valid() && (ref in live || ref < 0)
      modifies this
      ensures Valid() && live == old(live) - {ref}
    {
      if ref >= 0 {
        Release(t, live, free, n, ref);
        t := RawSet(t, ref, RawGet(t, FREELIST_REF));
        t := RawSet(t, FREELIST_REF, Val(Int(ref)));
        free, live := [ref] + free, live - {ref};
      }
    }

    /** A live value can be read back at any time. */
    method Get(ref: int) returns (v: Slot)
      requires Valid()
      ensures ref in live ==> v == Val(live[ref])
    {
      v := RawGet(t, ref);
    }
  }

  datatype Op = DoRef(v: Slot) | DoUnref(i: nat)

  /** What a client holds: its references in the order of their creation, with their values; Nil
      marks a released one. */
  datatype Held = Held(ref: int, v: Slot)

  /** The values that a client holds after some operations, whatever its references are. */
  function Replay(ops: seq<Op>): seq<Slot> {
    if ops == [] then []
    else
      var vs := Replay(ops[..|ops| - 1]);
      match ops[|ops| - 1]
      case DoRef(v) => vs + [v]
      case DoUnref(i) => if i < |vs| then vs[i := Nil] else vs
  }

  /** Runs any sequence of operations on an initially empty table.  The client holds what it has stored
      and not released; its references to these values are distinct, positive, and each value can be
      read back. */
  method Run(ops: seq<Op>) returns (held: seq<Held>, t: Slots)
    ensures |held| == |Replay(ops)| && forall i :: 0 <= i < |held| ==> held[i].v == Replay(ops)[i]
    ensures forall i :: 0 <= i < |held| && held[i].v.Val? ==> held[i].ref >= 1 && RawGet(t, held[i].ref) == held[i].v
    ensures forall i, j :: 0 <= i < j < |held| && held[i].v.Val? && held[j].v.Val? ==> held[i].ref != held[j].ref
  {
    var registry := new Registry();
    held := [];
    for k := 0 to |ops|
      invariant fresh(registry) && registry.Valid()
      invariant |held| == |Replay(ops[..k])| && forall i :: 0 <= i < |held| ==> held[i].v == Replay(ops[..k])[i]
      invariant forall i :: 0 <= i < |held| && held[i].v.Val? ==>
                  held[i].ref >= 1 && held[i].ref in registry.live && registry.live[held[i].ref] == held[i].v.value
      invariant forall i, j :: 0 <= i < j < |held| && held[i].v.Val? && held[j].v.Val? ==> held[i].ref != held[j].ref
    {
      assert ops[..k + 1][..k] == ops[..k];
      match ops[k]
      case DoRef(v) =>
        var ref := registry.Ref(v);
        held := held + [Held(ref, v)];
      case DoUnref(i) =>
        if i < |held| && held[i].v.Val? {
          registry.Unref(held[i].ref);
          held := held[i := Held(held[i].ref, Nil)];
        }
    }
    assert ops[..|ops|] == ops;
    t := registry.t;
  }
}
