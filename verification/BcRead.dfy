/** The bytecode reader (luajit/lj_bcread.c).  Every reader takes a ghost value and a ghost tail
    and is proved to return that value, and to leave exactly the tail unread, whenever the unread
    bytes are the encoding of the value followed by the tail. */
module BcRead {
  import opened BcFormat
  import opened BcTree
  import opened BcInput

  // ---------------------------------------------------------------- constants

  function KTag(v: TValue): nat {
    match v
    case Nil => KTAB_NIL
    case False => KTAB_FALSE
    case True => KTAB_TRUE
    case Int(_) => KTAB_INT
    case Num(_, _) => KTAB_NUM
    case Str(s) => KTAB_STR + |s|
  }

  function KPayload(v: TValue): seq<byte> {
    match v
    case Int(i) => U(i)
    case Num(lo, hi) => U(lo) + U(hi)
    case Str(s) => s
    case _ => []
  }

  lemma KSplit(v: TValue, tail: seq<byte>)
    ensures EncK(v) + tail == U(KTag(v)) + (KPayload(v) + tail)
  {
    Assoc(U(KTag(v)), KPayload(v), tail);
    if v.Num? { Assoc([KTAB_NUM], U(v.lo), U(v.hi)); }
    Empty(tail);
  }

  /** `bcread_ktabk`. */
  method ReadKtabk(ls: LexState, ghost v: TValue, ghost tail: seq<byte>) returns (o: TValue)
    requires ls.Valid() && SmallValue(v) && ls.data == EncK(v) + tail
    modifies ls`off, ls`n, ls`data
    ensures ls.Valid() && o == v && ls.data == tail
  {
    hide U, EncK;
    KSplit(v, tail);
    var tp := ls.ULeb(KTag(v), KPayload(v) + tail);
    if tp >= KTAB_STR {
      var len := tp - KTAB_STR;
      var p := ls.Mem(len);
      o := Str(p);
    } else if tp == KTAB_INT {
      var i := ls.ULeb(v.i, tail);
      o := Int(i);
    } else if tp == KTAB_NUM {
      Assoc(U(v.lo), U(v.hi), tail);
      var lo := ls.ULeb(v.lo, U(v.hi) + tail);
      var hi := ls.ULeb(v.hi, tail);
      o := Num(lo, hi);
    } else {
      o := if tp == KTAB_NIL then Nil else if tp == KTAB_FALSE then False else True;
      Empty(tail);
    }
  }

  /** The loop over the array part in `bcread_ktab`. */
  method ReadArray(ls: LexState, narray: nat, ghost a: seq<TValue>, ghost tail: seq<byte>) returns (arr: seq<TValue>)
    requires ls.Valid() && narray == |a| && ls.data == EncArray(a) + tail
    requires forall i :: 0 <= i < |a| ==> SmallValue(a[i])
    modifies ls`off, ls`n, ls`data
    ensures ls.Valid() && arr == a && ls.data == tail
  {
    hide EncK;
    arr := [];
    for i := 0 to narray
      invariant ls.Valid() && arr == a[..i] && ls.data == EncArray(a[i..]) + tail
    {
      assert a[i..][1..] == a[i + 1..];
      Assoc(EncK(a[i]), EncArray(a[i + 1..]), tail);
      var o := ReadKtabk(ls, a[i], EncArray(a[i + 1..]) + tail);
      arr := arr + [o];
    }
    Empty(tail);
  }

  /** `lj_tab_set` followed by a store: an index of the array part goes there. */
  function TabSet(t: RTab, k: TValue, v: TValue): RTab {
    if IsIndex(k, |t.arr|) then t.(arr := t.arr[k.i := v]) else t.(hash := t.hash[k := v])
  }

  /** The last node in use among the first n. */
  function LastUsed(node: seq<(TValue, TValue)>, n: nat): (i: nat)
    requires n <= |node| && UsedNodes(node[..n]) > 0
    ensures i < n && node[i].1 != Nil && forall j :: i < j < n ==> node[j].1 == Nil
  {
    assert node[..n][..n - 1] == node[..n - 1];
    if node[n - 1].1 != Nil then n - 1 else LastUsed(node, n - 1)
  }

  /** Unused nodes are neither in the dump nor in the table that is read. */
  lemma {:induction false} SkipUnused(node: seq<(TValue, TValue)>, n: nat)
    requires n <= |node| && UsedNodes(node[..n]) > 0
    ensures var i := LastUsed(node, n);
            && UsedNodes(node[..n]) == 1 + UsedNodes(node[..i])
            && EncNodes(node[..n]) == (EncK(node[i].0) + EncK(node[i].1)) + EncNodes(node[..i])
            && NodeMap(node[i + 1..]) == NodeMap(node[n..])
  {
    hide EncK;
    assert node[..n][..n - 1] == node[..n - 1];
    if node[n - 1].1 == Nil {
      SkipUnused(node, n - 1);
      assert node[n - 1..][1..] == node[n..];
      Empty(EncNodes(node[..n - 1]));
    }
  }

  /** One round of the loop over the hash part: what is inserted extends the map. */
  lemma Inserted(t: Table, arr: seq<TValue>, i: nat)
    requires TableOk(t) && i < |t.node| && t.node[i].1 != Nil && |arr| <= |t.arr|
    ensures TabSet(RTab(arr, NodeMap(t.node[i + 1..])), t.node[i].0, t.node[i].1) == RTab(arr, NodeMap(t.node[i..]))
    ensures SmallValue(t.node[i].0) && SmallValue(t.node[i].1)
  {
    assert NodeOk(t, i);
    assert t.node[i..][1..] == t.node[i + 1..];
  }

  lemma NoneUsed(node: seq<(TValue, TValue)>, n: nat)
    requires n <= |node| && UsedNodes(node[..n]) == 0
    ensures EncNodes(node[..n]) == [] && NodeMap(node) == NodeMap(node[n..])
  {
    if n > 0 {
      assert node[..n][..n - 1] == node[..n - 1] && node[n - 1..][1..] == node[n..];
      NoneUsed(node, n - 1);
    } else {
      assert node[n..] == node;
    }
  }

  /** The loop over the hash part in `bcread_ktab`. */
  method ReadHash(ls: LexState, arr: seq<TValue>, nhash: nat, ghost t: Table, ghost tail: seq<byte>) returns (r: RTab)
    requires ls.Valid() && TableOk(t) && |arr| <= |t.arr|
    requires nhash == UsedNodes(t.node) && ls.data == EncNodes(t.node) + tail
    modifies ls`off, ls`n, ls`data
    ensures ls.Valid() && r == RTab(arr, NodeMap(t.node)) && ls.data == tail
  {
    hide EncK, EncNodes, UsedNodes, NodeMap, LastUsed, TableOk, TabSet;
    r := RTab(arr, map[]);
    ghost var at: nat := |t.node|;
    Nothing(t);
    for i := 0 to nhash
      invariant ls.Valid() && at <= |t.node| && nhash - i == UsedNodes(t.node[..at])
      invariant r == RTab(arr, NodeMap(t.node[at..])) && ls.data == EncNodes(t.node[..at]) + tail
    {
      SkipUnused(t.node, at);
      at := LastUsed(t.node, at);
      ghost var k, v, rest := t.node[at].0, t.node[at].1, EncNodes(t.node[..at]) + tail;
      Inserted(t, arr, at);
      Assoc(EncK(k) + EncK(v), EncNodes(t.node[..at]), tail);
      Assoc(EncK(k), EncK(v), rest);
      var key := ReadKtabk(ls, k, EncK(v) + rest);
      var value := ReadKtabk(ls, v, rest);
      r := TabSet(r, key, value);
    }
    NoneUsed(t.node, at);
    Empty(tail);
  }

  lemma Nothing(t: Table)
    ensures t.node[..|t.node|] == t.node && NodeMap(t.node[|t.node|..]) == map[]
  {}

  lemma TableSplit(t: Table, tail: seq<byte>)
    ensures EncTable(t) + tail ==
            U(UsedLength(t.arr)) + (U(UsedNodes(t.node)) + (EncArray(t.arr[..UsedLength(t.arr)]) + (EncNodes(t.node) + tail)))
  {
    hide U, EncArray, EncNodes, UsedNodes;
    var a, b, c, d := U(UsedLength(t.arr)), U(UsedNodes(t.node)), EncArray(t.arr[..UsedLength(t.arr)]), EncNodes(t.node);
    Assoc4(a, b, c, d, tail);
  }

  lemma Assoc4(a: seq<byte>, b: seq<byte>, c: seq<byte>, d: seq<byte>, e: seq<byte>)
    ensures (a + b + c + d) + e == a + (b + (c + (d + e)))
  {}

  /** `bcread_ktab`. */
  method ReadKtab(ls: LexState, ghost t: Table, ghost tail: seq<byte>) returns (r: RTab)
    requires ls.Valid() && TableOk(t) && ls.data == EncTable(t) + tail
    modifies ls`off, ls`n, ls`data
    ensures ls.Valid() && r == ReadBack(t) && ls.data == tail
  {
    hide U, EncTable, EncArray, EncNodes, UsedNodes, NodeMap;
    TableSplit(t, tail);
    ghost var a := t.arr[..UsedLength(t.arr)];
    ghost var rest := EncNodes(t.node) + tail;
    var narray := ls.ULeb(UsedLength(t.arr), U(UsedNodes(t.node)) + (EncArray(a) + rest));
    var nhash := ls.ULeb(UsedNodes(t.node), EncArray(a) + rest);
    var arr := ReadArray(ls, narray, a, rest);
    r := ReadHash(ls, arr, nhash, t, tail);
  }

  // ---------------------------------------------------------------- constants of a prototype

  function GTag(k: KGC<Table>): nat {
    match k
    case Child(_) => KGC_CHILD
    case Tab(_) => KGC_TAB
    case KStr(s) => KGC_STR + |s|
  }

  function GPayload(k: KGC<Table>): seq<byte> {
    match k
    case Child(_) => []
    case Tab(t) => EncTable(t)
    case KStr(s) => s
  }

  lemma GSplit(k: KGC<Table>, tail: seq<byte>)
    ensures EncKgc(k) + tail == U(GTag(k)) + (GPayload(k) + tail)
  {
    hide U, EncTable;
    Assoc(U(GTag(k)), GPayload(k), tail);
    Empty(tail);
  }

  /** A constant that is read: children are popped from the stack. */
  function BuiltOne(k: KGC<Table>, stack: Stack): KGC<RTab>
    requires k.Child? ==> |stack| > 0
  {
    match k
    case Child(_) => Child(stack[|stack| - 1])
    case Tab(t) => Tab(ReadBack(t))
    case KStr(s) => KStr(s)
  }

  ghost predicate KgcInOrder(k: KGC<Table>) {
    match k
    case Child(_) => true
    case Tab(t) => TableOk(t)
    case KStr(s) => SmallStr(s)
  }

  /** `bcread_kgc` for one constant: an error exactly when a child is missing. */
  method ReadKgc(ls: LexState, ghost k: KGC<Table>, ghost tail: seq<byte>) returns (bad: bool, r: KGC<RTab>)
    requires ls.Valid() && KgcInOrder(k) && ls.data == EncKgc(k) + tail
    modifies ls`off, ls`n, ls`data, ls`stack
    ensures ls.Valid() && (bad <==> k.Child? && old(|ls.stack|) <= ls.oldtop)
    ensures !bad ==> r == BuiltOne(k, old(ls.stack)) && ls.data == tail
    ensures !bad ==> ls.stack == if k.Child? then old(ls.stack)[..old(|ls.stack|) - 1] else old(ls.stack)
  {
    hide U, EncKgc, EncTable, ReadBack, TableOk;
    bad, r := false, KStr([]);
    GSplit(k, tail);
    var tp := ls.ULeb(GTag(k), GPayload(k) + tail);
    if tp >= KGC_STR {
      var len := tp - KGC_STR;
      var p := ls.Mem(len);
      r := KStr(p);
    } else if tp == KGC_TAB {
      var t := ReadKtab(ls, k.t, tail);
      r := Tab(t);
    } else {
      Empty(tail);
      var top := |ls.stack|;
      if top <= ls.oldtop { return true, r; }
      r := Child(ls.stack[top - 1]);
      ls.stack := ls.stack[..top - 1];
    }
  }

  /** One more constant. */
  lemma BuiltStep(pt: Proto<Table>, stack: Stack, i: nat)
    requires i < |pt.kgc| && KidsBefore(pt, i) <= |stack|
    ensures KidsBefore(pt, i + 1) == KidsBefore(pt, i) + if pt.kgc[i].Child? then 1 else 0
    ensures var below := stack[..|stack| - KidsBefore(pt, i)];
            (pt.kgc[i].Child? ==> below != []) ==>
              && KidsBefore(pt, i + 1) <= |stack|
              && BuiltKgc(pt, stack, i + 1) == BuiltKgc(pt, stack, i) + [BuiltOne(pt.kgc[i], below)]
              && (pt.kgc[i].Child? ==> below[..|below| - 1] == stack[..|stack| - KidsBefore(pt, i + 1)])
  {}

  lemma KgcsStep(ks: seq<KGC<Table>>, i: nat, tail: seq<byte>)
    requires i < |ks|
    ensures EncKgcs(ks[i..]) + tail == EncKgc(ks[i]) + (EncKgcs(ks[i + 1..]) + tail)
  {
    hide EncKgc;
    assert ks[i..][1..] == ks[i + 1..];
    Assoc(EncKgc(ks[i]), EncKgcs(ks[i + 1..]), tail);
  }

  /** `bcread_kgc`: an error exactly when the stack holds too few children. */
  method ReadKgcs(ls: LexState, sizekgc: nat, ghost pt: Proto<Table>, ghost tail: seq<byte>)
    returns (bad: bool, r: seq<KGC<RTab>>)
    requires ls.Valid() && sizekgc == |pt.kgc| && ls.oldtop <= |ls.stack| && ls.data == EncKgcs(pt.kgc) + tail
    requires forall i :: 0 <= i < |pt.kgc| ==> KgcInOrder(pt.kgc[i])
    modifies ls`off, ls`n, ls`data, ls`stack
    ensures ls.Valid() && (bad <==> Kids(pt) > old(|ls.stack|) - ls.oldtop)
    ensures !bad ==> r == BuiltKgc(pt, old(ls.stack), |pt.kgc|) && ls.data == tail
    ensures !bad ==> ls.stack == old(ls.stack)[..old(|ls.stack|) - Kids(pt)]
  {
    hide EncKgc, EncKgcs, BuiltKgc, BuiltOne, KidsBefore, KgcInOrder;
    ghost var ks, stack := pt.kgc, ls.stack;
    r := [];
    NoneBuilt(pt, stack, tail);
    for i := 0 to sizekgc
      invariant ls.Valid() && KidsBefore(pt, i) <= |stack| - ls.oldtop
      invariant ls.stack == stack[..|stack| - KidsBefore(pt, i)] && r == BuiltKgc(pt, stack, i)
      invariant ls.data == EncKgcs(ks[i..]) + tail
    {
      KgcsStep(ks, i, tail);
      BuiltStep(pt, stack, i);
      KidsMonotone(pt, i + 1, |pt.kgc|);
      var kr;
      bad, kr := ReadKgc(ls, ks[i], EncKgcs(ks[i + 1..]) + tail);
      if bad { return; }
      r := r + [kr];
    }
    AllKgcsRead(ks, tail);
    bad := false;
  }

  lemma NoneBuilt(pt: Proto<Table>, stack: Stack, tail: seq<byte>)
    ensures KidsBefore(pt, 0) == 0 && BuiltKgc(pt, stack, 0) == [] && stack[..|stack|] == stack
    ensures pt.kgc[0..] == pt.kgc
  {}

  lemma AllKgcsRead(ks: seq<KGC<Table>>, tail: seq<byte>)
    ensures EncKgcs(ks[|ks|..]) + tail == tail
  {
    Empty(tail);
  }

  /** `bcread_knum` for one constant: the kind is looked at before the number is read. */
  method ReadKnum(ls: LexState, ghost v: TValue, ghost tail: seq<byte>) returns (o: TValue)
    requires ls.Valid() && KnumOk(v) && ls.data == EncKnum(v) + tail
    modifies ls`off, ls`n, ls`data
    ensures ls.Valid() && o == v && ls.data == tail
  {
    hide U;
    ghost var lo := if v.Int? then 2 * v.i else 2 * v.lo + 1;
    ghost var more := if v.Int? then [] else U(v.hi);
    KnumSplit(v, lo, more, tail);
    UFirst(lo, ls.data, more + tail);
    var b := ls.Peek(ls.off);
    var isnum := b % 2 == 1;
    var low := ls.ULeb33(lo, more + tail);
    if isnum {
      var hi := ls.ULeb(v.hi, tail);
      o := Num(low, hi);
    } else {
      o := Int(low);
      Empty(tail);
    }
  }

  lemma KnumSplit(v: TValue, lo: nat, more: seq<byte>, tail: seq<byte>)
    requires if v.Int? then lo == 2 * v.i && more == [] else v.Num? && lo == 2 * v.lo + 1 && more == U(v.hi)
    ensures EncKnum(v) + tail == U(lo) + (more + tail) && |EncKnum(v)| > 0
  {
    hide U;
    Assoc(U(lo), more, tail);
    Empty(U(lo));
    Empty(tail);
  }

  lemma KnumsStep(ks: seq<TValue>, i: nat, tail: seq<byte>)
    requires i < |ks|
    ensures EncKnums(ks[i..]) + tail == EncKnum(ks[i]) + (EncKnums(ks[i + 1..]) + tail)
  {
    hide EncKnum;
    assert ks[i..][1..] == ks[i + 1..];
    Assoc(EncKnum(ks[i]), EncKnums(ks[i + 1..]), tail);
  }

  /** `bcread_knum`. */
  method ReadKnums(ls: LexState, sizekn: nat, ghost ks: seq<TValue>, ghost tail: seq<byte>) returns (r: seq<TValue>)
    requires ls.Valid() && sizekn == |ks| && ls.data == EncKnums(ks) + tail
    requires forall i :: 0 <= i < |ks| ==> KnumOk(ks[i])
    modifies ls`off, ls`n, ls`data
    ensures ls.Valid() && r == ks && ls.data == tail
  {
    hide EncKnum, KnumOk;
    r := [];
    for i := 0 to sizekn
      invariant ls.Valid() && r == ks[..i] && ls.data == EncKnums(ks[i..]) + tail
    {
      KnumsStep(ks, i, tail);
      var o := ReadKnum(ls, ks[i], EncKnums(ks[i + 1..]) + tail);
      r := r + [o];
    }
    Empty(tail);
  }
}
