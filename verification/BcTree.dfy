/** What a dump stands for: how the stack machine of the reader rebuilds a tree of prototypes from
    its flat post-order, and in what sense the rebuilt prototypes equal the written ones. */
module BcTree {
  import opened BcFormat

  // ---------------------------------------------------------------- tables

  /** Inserting the nodes in use from the last to the first, as the reader does. */
  function NodeMap(node: seq<(TValue, TValue)>): map<TValue, TValue> {
    if node == [] then map[]
    else if node[0].1 != Nil then NodeMap(node[1..])[node[0].0 := node[0].1]
    else NodeMap(node[1..])
  }

  /** The table that the reader builds. */
  function ReadBack(t: Table): RTab {
    RTab(t.arr[..UsedLength(t.arr)], NodeMap(t.node))
  }

  function NodeLookup(node: seq<(TValue, TValue)>, k: TValue): TValue {
    if node == [] then Nil
    else if node[|node| - 1].0 == k && node[|node| - 1].1 != Nil then node[|node| - 1].1
    else NodeLookup(node[..|node| - 1], k)
  }

  /** The value of a key in a table. */
  function Lookup(t: Table, k: TValue): TValue {
    if IsIndex(k, |t.arr|) then t.arr[k.i] else NodeLookup(t.node, k)
  }

  function RLookup(t: RTab, k: TValue): TValue {
    if IsIndex(k, |t.arr|) then t.arr[k.i] else if k in t.hash then t.hash[k] else Nil
  }

  lemma {:induction false} NodeMapMeaning(node: seq<(TValue, TValue)>, k: TValue)
    ensures k in NodeMap(node) <==> exists i :: 0 <= i < |node| && node[i].0 == k && node[i].1 != Nil
    ensures k in NodeMap(node) ==> exists i :: 0 <= i < |node| && node[i] == (k, NodeMap(node)[k]) && node[i].1 != Nil
  {
    if node != [] {
      NodeMapMeaning(node[1..], k);
      assert forall i :: 1 <= i < |node| ==> node[i] == node[1..][i - 1];
      if node[0].0 == k && node[0].1 != Nil {
        assert node[0] == (k, NodeMap(node)[k]);
      } else if k in NodeMap(node[1..]) {
        var i :| 0 <= i < |node[1..]| && node[1..][i] == (k, NodeMap(node[1..])[k]) && node[1..][i].1 != Nil;
        assert node[i + 1] == node[1..][i];
      }
    }
  }

  lemma {:induction false} NodeLookupMeaning(node: seq<(TValue, TValue)>, k: TValue)
    ensures NodeLookup(node, k) != Nil ==>
              exists i :: 0 <= i < |node| && node[i] == (k, NodeLookup(node, k)) && node[i].1 != Nil
    ensures NodeLookup(node, k) == Nil ==> forall i :: 0 <= i < |node| && node[i].0 == k ==> node[i].1 == Nil
  {
    if node != [] { NodeLookupMeaning(node[..|node| - 1], k); }
  }

  /** Tables are read back equal as maps, although trailing nils and unused nodes are dropped and
      the nodes are inserted in the opposite order. */
  lemma TablesEqualAsMaps(t: Table, k: TValue)
    requires TableOk(t)
    ensures RLookup(ReadBack(t), k) == Lookup(t, k)
  {
    NodeMapMeaning(t.node, k);
    NodeLookupMeaning(t.node, k);
    if IsIndex(k, |t.arr|) {
      forall i | 0 <= i < |t.node| && t.node[i].1 != Nil
        ensures t.node[i].0 != k
      {
        assert NodeOk(t, i);
      }
    }
  }

  // ---------------------------------------------------------------- prototypes

  function NormalK(k: KGC<Table>, strip: bool): KGC<RTab>
    decreases k, 0
  {
    match k
    case Child(c) => Child(Normal(c, strip))
    case Tab(t) => Tab(ReadBack(t))
    case KStr(s) => KStr(s)
  }

  /** The prototype that the reader rebuilds: the dump keeps three flag bits, and no debug
      information if it is stripped. */
  function Normal(pt: Proto<Table>, strip: bool): Proto<RTab>
    decreases pt, 1
  {
    Proto(pt.flags % 8, pt.numparams, pt.framesize, pt.bc, pt.uv,
          seq(|pt.kgc|, i requires 0 <= i < |pt.kgc| => NormalK(pt.kgc[i], strip)),
          pt.knum, if strip then None else pt.dbg)
  }

  /** Two tables have the same value for every key. */
  ghost predicate SameTable(t: Table, r: RTab) { forall k :: RLookup(r, k) == Lookup(t, k) }

  ghost predicate SameConstant(k: KGC<Table>, r: KGC<RTab>, strip: bool)
    decreases k, 0
  {
    && (k.Child? ==> r.Child? && SameProto(k.pt, r.pt, strip))
    && (k.Tab? ==> r.Tab? && SameTable(k.t, r.t))
    && (k.KStr? ==> r.KStr? && r.s == k.s)
  }

  predicate HasFlag(flags: byte, flag: byte)
    requires flag > 0
  {
    flags / flag % 2 == 1
  }

  /** What a prototype and the one that is read back have in common: everything that the virtual
      machine sees, but for flags that it sets itself, and for debug information that is stripped. */
  ghost predicate SameProto(pt: Proto<Table>, r: Proto<RTab>, strip: bool)
    decreases pt, 1
  {
    && r.flags < 8 && (HasFlag(r.flags, 1) <==> HasFlag(pt.flags, 1))
    && (HasFlag(r.flags, 2) <==> HasFlag(pt.flags, 2)) && (HasFlag(r.flags, 4) <==> HasFlag(pt.flags, 4))
    && r.numparams == pt.numparams && r.framesize == pt.framesize
    && r.bc == pt.bc && r.uv == pt.uv && r.knum == pt.knum
    && |r.kgc| == |pt.kgc| && (forall i :: 0 <= i < |pt.kgc| ==> SameConstant(pt.kgc[i], r.kgc[i], strip))
    && (if strip then r.dbg.None? else r.dbg == pt.dbg)
  }

  /** The prototype that is read back is the same, all the way down. */
  lemma {:induction false} NormalIsSame(be: bool, pt: Proto<Table>, strip: bool)
    requires ProtoOk(be, strip, pt)
    ensures SameProto(pt, Normal(pt, strip), strip)
    decreases pt, 1
  {
    hide EncBody, TableOk, ReadBack, Lookup, RLookup;
    FlagBits(pt.flags);
    forall i | 0 <= i < |pt.kgc|
      ensures SameConstant(pt.kgc[i], NormalK(pt.kgc[i], strip), strip)
    {
      assert KgcOk(be, strip, pt, pt.kgc[i]);
      match pt.kgc[i]
      case Child(c) => NormalIsSame(be, c, strip);
      case Tab(t) =>
        forall k
          ensures RLookup(ReadBack(t), k) == Lookup(t, k)
        {
          TablesEqualAsMaps(t, k);
        }
      case KStr(_) =>
    }
  }

  lemma FlagBits(f: byte)
    ensures f % 8 / 1 % 2 == f / 1 % 2 && f % 8 / 2 % 2 == f / 2 % 2 && f % 8 / 4 % 2 == f / 4 % 2
  {
    var a: int, r: int := f / 8, f % 8;
    assert f / 2 == 4 * a + r / 2;
    assert f / 4 == 2 * a + r / 4;
    assert (2 * a + r / 4) % 2 == r / 4 % 2;
    assert (4 * a + r / 2) % 2 == r / 2 % 2;
  }

  type Stack = seq<Proto<RTab>>

  /** Number of children among the first n constants. */
  function KidsBefore(pt: Proto<Table>, n: nat): (k: nat)
    requires n <= |pt.kgc|
    ensures k <= n
  {
    if n == 0 then 0 else KidsBefore(pt, n - 1) + if pt.kgc[n - 1].Child? then 1 else 0
  }

  function Kids(pt: Proto<Table>): nat { KidsBefore(pt, |pt.kgc|) }

  lemma {:induction false} KidsMonotone(pt: Proto<Table>, m: nat, n: nat)
    requires m <= n <= |pt.kgc|
    ensures KidsBefore(pt, m) <= KidsBefore(pt, n)
    decreases n
  {
    if m < n { KidsMonotone(pt, m, n - 1); }
  }

  /** The first n constants, with the children popped from the stack one by one. */
  function BuiltKgc(pt: Proto<Table>, stack: Stack, n: nat): (ks: seq<KGC<RTab>>)
    requires n <= |pt.kgc| && KidsBefore(pt, n) <= |stack|
    ensures |ks| == n
  {
    if n == 0 then []
    else
      BuiltKgc(pt, stack, n - 1) +
      [match pt.kgc[n - 1]
       case Child(_) => Child(stack[|stack| - 1 - KidsBefore(pt, n - 1)])
       case Tab(t) => Tab(ReadBack(t))
       case KStr(s) => KStr(s)]
  }

  /** The prototype that is read when its children are taken from this stack. */
  function Built(pt: Proto<Table>, strip: bool, stack: Stack): Proto<RTab>
    requires Kids(pt) <= |stack|
  {
    Proto(pt.flags % 8, pt.numparams, pt.framesize, pt.bc, pt.uv, BuiltKgc(pt, stack, |pt.kgc|),
          pt.knum, if strip then None else pt.dbg)
  }

  /** Reading one prototype: its children are popped, it is pushed. */
  function Push(pt: Proto<Table>, strip: bool, stack: Stack): Stack
    requires Kids(pt) <= |stack|
  {
    stack[..|stack| - Kids(pt)] + [Built(pt, strip, stack)]
  }

  /** No prototype of the sequence takes more children than the stack, above `base`, has. */
  predicate Feedable(pts: seq<Proto<Table>>, strip: bool, stack: Stack, base: nat)
    decreases |pts|
  {
    base <= |stack| &&
    (pts != [] ==> Kids(pts[0]) <= |stack| - base && Feedable(pts[1..], strip, Push(pts[0], strip, stack), base))
  }

  function Feed(pts: seq<Proto<Table>>, strip: bool, stack: Stack, base: nat): Stack
    requires Feedable(pts, strip, stack, base)
    decreases |pts|
  {
    if pts == [] then stack else Feed(pts[1..], strip, Push(pts[0], strip, stack), base)
  }

  lemma {:induction false} FeedAppend(a: seq<Proto<Table>>, b: seq<Proto<Table>>, strip: bool, stack: Stack, base: nat)
    requires Feedable(a, strip, stack, base) && Feedable(b, strip, Feed(a, strip, stack, base), base)
    ensures Feedable(a + b, strip, stack, base)
    ensures Feed(a + b, strip, stack, base) == Feed(b, strip, Feed(a, strip, stack, base), base)
    decreases |a|
  {
    if a == [] {
      assert a + b == b;
    } else {
      assert (a + b)[0] == a[0] && (a + b)[1..] == a[1..] + b;
      FeedAppend(a[1..], b, strip, Push(a[0], strip, stack), base);
    }
  }

  /** The rebuilt children among the first n constants, from the last to the first. */
  function KidValues(pt: Proto<Table>, strip: bool, n: nat): (vs: Stack)
    requires n <= |pt.kgc|
    ensures |vs| == KidsBefore(pt, n)
  {
    if n == 0 then []
    else (if pt.kgc[n - 1].Child? then [Normal(pt.kgc[n - 1].pt, strip)] else []) + KidValues(pt, strip, n - 1)
  }

  /** Popping the rebuilt children from the end yields them from the first to the last. */
  lemma {:induction false} KidValuesAt(pt: Proto<Table>, strip: bool, i: nat, n: nat)
    requires i < n <= |pt.kgc| && pt.kgc[i].Child?
    ensures KidsBefore(pt, i) < KidsBefore(pt, n)
    ensures KidValues(pt, strip, n)[KidsBefore(pt, n) - 1 - KidsBefore(pt, i)] == Normal(pt.kgc[i].pt, strip)
    decreases n
  {
    if i < n - 1 { KidValuesAt(pt, strip, i, n - 1); }
  }

  lemma {:induction false} BuiltIsNormal(pt: Proto<Table>, strip: bool, stack: Stack, n: nat)
    requires n <= |pt.kgc|
    ensures KidsBefore(pt, n) <= Kids(pt)
    ensures BuiltKgc(pt, stack + KidValues(pt, strip, |pt.kgc|), n) ==
            seq(n, i requires 0 <= i < n => NormalK(pt.kgc[i], strip))
  {
    KidsMonotone(pt, n, |pt.kgc|);
    if n > 0 {
      BuiltIsNormal(pt, strip, stack, n - 1);
      if pt.kgc[n - 1].Child? { KidValuesAt(pt, strip, n - 1, |pt.kgc|); }
    }
  }

  /** One more child, in front of the others. */
  lemma KidStep(pt: Proto<Table>, strip: bool, stack: Stack, base: nat, n: nat)
    requires 0 < n <= |pt.kgc| && pt.kgc[n - 1].Child?
    requires var kid, value := Flat(pt.kgc[n - 1].pt), Normal(pt.kgc[n - 1].pt, strip);
             && Feedable(kid, strip, stack, base) && Feed(kid, strip, stack, base) == stack + [value]
             && Feedable(FlatKids(pt, n - 1), strip, stack + [value], base)
             && Feed(FlatKids(pt, n - 1), strip, stack + [value], base) == (stack + [value]) + KidValues(pt, strip, n - 1)
    ensures Feedable(FlatKids(pt, n), strip, stack, base)
    ensures Feed(FlatKids(pt, n), strip, stack, base) == stack + KidValues(pt, strip, n)
  {
    hide Feedable, Feed, Normal, NormalK, Push, Built, Flat, BuiltKgc, Kids;
    var kid, value := Flat(pt.kgc[n - 1].pt), Normal(pt.kgc[n - 1].pt, strip);
    FeedAppend(kid, FlatKids(pt, n - 1), strip, stack, base);
    assert FlatKids(pt, n) == kid + FlatKids(pt, n - 1);
    assert KidValues(pt, strip, n) == [value] + KidValues(pt, strip, n - 1);
    assert (stack + [value]) + KidValues(pt, strip, n - 1) == stack + ([value] + KidValues(pt, strip, n - 1));
  }

  /** Reading the children's trees leaves their values above the stack. */
  lemma {:induction false} KidsRebuilt(pt: Proto<Table>, strip: bool, stack: Stack, base: nat, n: nat)
    requires n <= |pt.kgc| && base <= |stack|
    ensures Feedable(FlatKids(pt, n), strip, stack, base)
    ensures Feed(FlatKids(pt, n), strip, stack, base) == stack + KidValues(pt, strip, n)
    decreases pt, n
  {
    if n == 0 {
      assert stack + KidValues(pt, strip, 0) == stack;
    } else if pt.kgc[n - 1].Child? {
      var value := Normal(pt.kgc[n - 1].pt, strip);
      TreeRebuilt(pt.kgc[n - 1].pt, strip, stack, base);
      KidsRebuilt(pt, strip, stack + [value], base, n - 1);
      KidStep(pt, strip, stack, base, n);
    } else {
      KidsRebuilt(pt, strip, stack, base, n - 1);
      assert FlatKids(pt, n) == FlatKids(pt, n - 1);
      assert KidValues(pt, strip, n) == KidValues(pt, strip, n - 1);
    }
  }

  /** Reading the flat form of a tree pushes the rebuilt tree and leaves the stack beneath alone:
      children written from the last to the first are popped from the first to the last. */
  lemma {:induction false} TreeRebuilt(pt: Proto<Table>, strip: bool, stack: Stack, base: nat)
    requires base <= |stack|
    ensures Feedable(Flat(pt), strip, stack, base)
    ensures Feed(Flat(pt), strip, stack, base) == stack + [Normal(pt, strip)]
    decreases pt, |pt.kgc| + 1
  {
    var kids, values := FlatKids(pt, |pt.kgc|), KidValues(pt, strip, |pt.kgc|);
    KidsRebuilt(pt, strip, stack, base, |pt.kgc|);
    var full := stack + values;
    BuiltIsNormal(pt, strip, stack, |pt.kgc|);
    assert Built(pt, strip, full) == Normal(pt, strip);
    assert full[..|full| - Kids(pt)] == stack;
    assert Push(pt, strip, full) == stack + [Normal(pt, strip)];
    assert Feedable([pt][1..], strip, Push(pt, strip, full), base);
    assert Feed([pt], strip, full, base) == Feed([pt][1..], strip, Push(pt, strip, full), base);
    FeedAppend(kids, [pt], strip, stack, base);
  }
}
