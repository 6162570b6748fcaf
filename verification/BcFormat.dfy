/** The bytecode dump format (luajit/lj_bcdump.h): variable-length integers, constants, template
    tables, prototypes and whole dumps, as sequences of bytes. */
module BcFormat {
  import opened Bits

  type byte = b: int | 0 <= b < 256
  type u16 = x: int | 0 <= x < 0x1_0000
  type u32 = x: int | 0 <= x < 0x1_0000_0000

  const HEAD1: byte := 0x1b
  const HEAD2: byte := 0x4c
  const HEAD3: byte := 0x4a
  const VERSION: byte := 1
  const F_BE: byte := 1
  const F_STRIP: byte := 2
  const F_FFI: byte := 4
  const F_KNOWN: byte := 7
  const KGC_CHILD: byte := 0
  const KGC_TAB: byte := 1
  const KGC_STR: byte := 5
  const KTAB_NIL: byte := 0
  const KTAB_FALSE: byte := 1
  const KTAB_TRUE: byte := 2
  const KTAB_INT: byte := 3
  const KTAB_NUM: byte := 4
  const KTAB_STR: byte := 5
  const MAX_MEM := 0x7fff_ff00

  // ---------------------------------------------------------------- ULEB128

  /** Section 7.6 of DWARF Version 4: seven bits per byte, least significant first. */
  function U(v: nat): (bs: seq<byte>)
    ensures |bs| >= 1
  {
    if v < 0x80 then [v] else [v % 0x80 + 0x80] + U(v / 0x80)
  }

  /** The meaning of a byte string as a ULEB128 number. */
  function Meaning(bs: seq<byte>): nat {
    if bs == [] then 0 else bs[0] % 0x80 + 0x80 * Meaning(bs[1..])
  }

  /** All bytes but the last carry the continuation bit. */
  predicate Terminated(bs: seq<byte>) {
    bs != [] && (if |bs| == 1 then bs[0] < 0x80 else bs[0] >= 0x80 && Terminated(bs[1..]))
  }

  /** Reading inverts writing, and the end is where the continuation bit is clear. */
  lemma {:induction false} ULeb128RoundTrip(v: nat)
    ensures Meaning(U(v)) == v && Terminated(U(v))
  {
    if v >= 0x80 {
      ULeb128RoundTrip(v / 0x80);
      assert U(v)[1..] == U(v / 0x80);
    }
  }

  function Pow128(k: nat): nat { if k == 0 then 1 else 0x80 * Pow128(k - 1) }

  lemma {:induction false} USize(v: nat, k: nat)
    requires k >= 1
    ensures |U(v)| <= k <==> v < Pow128(k)
    ensures Pow128(k) >= 0x80
    decreases k
  {
    if k > 1 {
      USize(v / 0x80, k - 1);
      if v < 0x80 { assert U(v) == [v]; }
    }
  }

  /** A 32 bit number takes at most five bytes, and so does a 33 bit number. */
  lemma USizeBounds(v: nat)
    ensures v < 0x80 <==> |U(v)| <= 1
    ensures v < 0x4000 <==> |U(v)| <= 2
    ensures v < 0x20_0000 <==> |U(v)| <= 3
    ensures v < 0x1000_0000 <==> |U(v)| <= 4
    ensures v < 0x8_0000_0000 <==> |U(v)| <= 5
  {
    USize(v, 1);
    USize(v, 2);
    USize(v, 3);
    USize(v, 4);
    USize(v, 5);
    assert Pow128(1) == 0x80 && Pow128(2) == 0x4000 && Pow128(3) == 0x20_0000;
    assert Pow128(4) == 0x80 * Pow128(3) && Pow128(5) == 0x80 * Pow128(4);
  }

  /** The closed formula for the length of a size field is right for every 32 bit size. */
  lemma SizeFieldLength(n: u32)
    requires n >= 1
    ensures (Fls(n) + 8) * 9 / 64 == |U(n)| <= 5
  {
    hide Pow2, Fls, U;
    USizeBounds(n);
    FlsBounds(n, 7);
    FlsBounds(n, 14);
    FlsBounds(n, 21);
    FlsBounds(n, 28);
    FlsBounds(n, 32);
    Powers();
  }

  // ---------------------------------------------------------------- constants and tables

  /** A constant; integers are 32 bit patterns, numbers two 32 bit words. */
  datatype TValue = Nil | False | True | Int(i: u32) | Num(lo: u32, hi: u32) | Str(s: seq<byte>)

  /** A table as the writer finds it: array part and hash nodes, any of which may be empty. */
  datatype Table = Table(arr: seq<TValue>, node: seq<(TValue, TValue)>)

  /** A table as the reader builds it. */
  datatype RTab = RTab(arr: seq<TValue>, hash: map<TValue, TValue>)

  datatype Dbg = Dbg(firstline: u32, numline: u32, lineinfo: seq<u32>, rest: seq<byte>)
  datatype Option<T> = None | Some(value: T)

  /** GC constants and prototypes, with tables of type T.  The function header instruction is
      not part of `bc`. */
  datatype KGC<T> = Child(pt: Proto<T>) | Tab(t: T) | KStr(s: seq<byte>)
  datatype Proto<T> = Proto(flags: byte, numparams: byte, framesize: byte, bc: seq<u32>, uv: seq<u16>,
                            kgc: seq<KGC<T>>, knum: seq<TValue>, dbg: Option<Dbg>)

  /** A constant key or value of a template table. */
  function EncK(v: TValue): seq<byte> {
    match v
    case Nil => [KTAB_NIL]
    case False => [KTAB_FALSE]
    case True => [KTAB_TRUE]
    case Int(i) => [KTAB_INT] + U(i)
    case Num(lo, hi) => [KTAB_NUM] + U(lo) + U(hi)
    case Str(s) => U(KTAB_STR + |s|) + s
  }

  function EncArray(a: seq<TValue>): seq<byte> {
    if a == [] then [] else EncK(a[0]) + EncArray(a[1..])
  }

  /** Length of the array part up to its last value. */
  function UsedLength(a: seq<TValue>): (n: nat)
    ensures n <= |a| && (n > 0 ==> a[n - 1] != Nil)
    ensures forall i :: n <= i < |a| ==> a[i] == Nil
  {
    if a == [] then 0 else if a[|a| - 1] != Nil then |a| else UsedLength(a[..|a| - 1])
  }

  /** Number of hash nodes in use. */
  function UsedNodes(node: seq<(TValue, TValue)>): (n: nat)
    ensures n <= |node|
  {
    if node == [] then 0 else UsedNodes(node[..|node| - 1]) + if node[|node| - 1].1 != Nil then 1 else 0
  }

  /** The nodes in use, from the last to the first. */
  function EncNodes(node: seq<(TValue, TValue)>): seq<byte> {
    if node == [] then []
    else
      var last := node[|node| - 1];
      (if last.1 != Nil then EncK(last.0) + EncK(last.1) else []) + EncNodes(node[..|node| - 1])
  }

  function EncTable(t: Table): seq<byte> {
    U(UsedLength(t.arr)) + U(UsedNodes(t.node)) + EncArray(t.arr[..UsedLength(t.arr)]) + EncNodes(t.node)
  }

  function EncKgc(k: KGC<Table>): seq<byte> {
    match k
    case Child(_) => U(KGC_CHILD)
    case Tab(t) => U(KGC_TAB) + EncTable(t)
    case KStr(s) => U(KGC_STR + |s|) + s
  }

  function EncKgcs(ks: seq<KGC<Table>>): seq<byte> {
    if ks == [] then [] else EncKgc(ks[0]) + EncKgcs(ks[1..])
  }

  /** A number constant: a 33 bit number with the kind in its lowest bit. */
  function EncKnum(v: TValue): seq<byte> {
    match v
    case Int(i) => U(2 * i)
    case Num(lo, hi) => U(2 * lo + 1) + U(hi)
    case _ => []
  }

  function EncKnums(ks: seq<TValue>): seq<byte> {
    if ks == [] then [] else EncKnum(ks[0]) + EncKnums(ks[1..])
  }

  // ---------------------------------------------------------------- words in either byte order

  function W1(x: u32): (bs: seq<byte>) { [x % 256] }

  function W2(be: bool, x: u32): (bs: seq<byte>) {
    if be then [x / 256 % 256, x % 256] else [x % 256, x / 256 % 256]
  }

  function W4(be: bool, x: u32): (bs: seq<byte>) {
    if be then [x / 0x100_0000, x / 0x1_0000 % 256, x / 256 % 256, x % 256]
    else [x % 256, x / 256 % 256, x / 0x1_0000 % 256, x / 0x100_0000]
  }

  /** An array of words that are 1, 2 or 4 bytes wide, as it lies in memory. */
  function Words(be: bool, width: nat, xs: seq<u32>): (bs: seq<byte>)
    requires width in {1, 2, 4}
    ensures |bs| == width * |xs|
  {
    if xs == [] then []
    else (if width == 1 then W1(xs[0]) else if width == 2 then W2(be, xs[0]) else W4(be, xs[0])) + Words(be, width, xs[1..])
  }

  function LineWidth(numline: u32): nat {
    if numline < 256 then 1 else if numline < 65536 then 2 else 4
  }

  // ---------------------------------------------------------------- prototypes

  function EncDbgHead(pt: Proto<Table>, strip: bool): seq<byte> {
    if strip then []
    else
      match pt.dbg
      case None => U(0)
      case Some(d) => U(DbgSize(d)) + U(d.firstline) + U(d.numline)
  }

  function DbgSize(d: Dbg): nat { LineWidth(d.numline) * |d.lineinfo| + |d.rest| }

  function EncDbg(be: bool, pt: Proto<Table>, strip: bool): seq<byte> {
    if strip || pt.dbg.None? then [] else Words(be, LineWidth(pt.dbg.value.numline), pt.dbg.value.lineinfo) + pt.dbg.value.rest
  }

  function EncSizes(pt: Proto<Table>): seq<byte>
    requires |pt.uv| < 256
  {
    [pt.flags % 8, pt.numparams, pt.framesize, |pt.uv|] + U(|pt.kgc|) + U(|pt.knum|) + U(|pt.bc|)
  }

  function EncHead(pt: Proto<Table>, strip: bool): seq<byte>
    requires |pt.uv| < 256
  {
    EncSizes(pt) + EncDbgHead(pt, strip)
  }

  /** A prototype without its length and its children. */
  function EncBody(be: bool, pt: Proto<Table>, strip: bool): seq<byte>
    requires |pt.uv| < 256
  {
    EncHead(pt, strip) + Words(be, 4, pt.bc) + Words(be, 2, pt.uv) + EncKgcs(pt.kgc) + EncKnums(pt.knum) + EncDbg(be, pt, strip)
  }

  /** A prototype with its length, without its children. */
  function EncOne(be: bool, pt: Proto<Table>, strip: bool): seq<byte>
    requires |pt.uv| < 256
  {
    U(|EncBody(be, pt, strip)|) + EncBody(be, pt, strip)
  }

  predicate SmallStr(s: seq<byte>) { |s| + 5 <= MAX_MEM }

  predicate SmallValue(v: TValue) { v.Str? ==> SmallStr(v.s) }

  predicate IsIndex(k: TValue, n: nat) { k.Int? && k.i < n }

  /** Table invariants: the key of a node in use is not nil, nor an index of the array part.  A node
      with a nil value is not in use, whatever its key, which is nil if the node never was. */
  predicate NodeOk(t: Table, i: nat)
    requires i < |t.node|
  {
    t.node[i].1 != Nil ==>
      SmallValue(t.node[i].0) && SmallValue(t.node[i].1) && t.node[i].0 != Nil && !IsIndex(t.node[i].0, |t.arr|)
  }

  ghost predicate TableOk(t: Table) {
    && |t.arr| <= MAX_MEM && |t.node| <= MAX_MEM
    && (forall i :: 0 <= i < |t.arr| ==> SmallValue(t.arr[i]))
    && (forall i :: 0 <= i < |t.node| ==> NodeOk(t, i))
    && (forall i, j :: 0 <= i < j < |t.node| && t.node[i].1 != Nil && t.node[j].1 != Nil ==> t.node[i].0 != t.node[j].0)
  }

  predicate KnumOk(v: TValue) { v.Int? || v.Num? }

  ghost predicate KgcOk(be: bool, strip: bool, pt: Proto<Table>, k: KGC<Table>)
    decreases k, 0
  {
    match k
    case Child(c) => pt.flags % 2 == 1 && ProtoOk(be, strip, c)
    case Tab(t) => TableOk(t)
    case KStr(s) => SmallStr(s)
  }

  /** A prototype that the virtual machine can hold; PROTO_CHILD is set if there are children. */
  ghost predicate ProtoOk(be: bool, strip: bool, pt: Proto<Table>)
    decreases pt, 1
  {
    && |pt.uv| < 256 && |pt.kgc| <= MAX_MEM && |pt.knum| <= MAX_MEM && |pt.bc| <= MAX_MEM
    && (forall i :: 0 <= i < |pt.knum| ==> KnumOk(pt.knum[i]))
    && (forall i :: 0 <= i < |pt.kgc| ==> KgcOk(be, strip, pt, pt.kgc[i]))
    && (pt.dbg.Some? ==> DbgOk(pt, pt.dbg.value))
    && |EncBody(be, pt, strip)| <= MAX_MEM
  }

  predicate DbgOk(pt: Proto<Table>, d: Dbg) {
    && |d.lineinfo| == |pt.bc| && DbgSize(d) > 0
    && forall i :: 0 <= i < |d.lineinfo| ==>
         if LineWidth(d.numline) == 1 then d.lineinfo[i] < 256
         else LineWidth(d.numline) == 2 ==> d.lineinfo[i] < 0x1_0000
  }

  /** All prototypes of a tree in the order of the dump: children from last to first, each with
      its own children before it, then the prototype itself. */
  function Flat(pt: Proto<Table>): seq<Proto<Table>>
    decreases pt, |pt.kgc| + 1
  {
    FlatKids(pt, |pt.kgc|) + [pt]
  }

  /** The same for the children among the first n constants. */
  function FlatKids(pt: Proto<Table>, n: nat): seq<Proto<Table>>
    requires n <= |pt.kgc|
    decreases pt, n
  {
    if n == 0 then []
    else (if pt.kgc[n - 1].Child? then Flat(pt.kgc[n - 1].pt) else []) + FlatKids(pt, n - 1)
  }

  /** The number of upvalues of a prototype is stored in a byte. */
  predicate AllFit(pts: seq<Proto<Table>>) { forall i :: 0 <= i < |pts| ==> |pts[i].uv| < 256 }

  function EncAll(be: bool, strip: bool, pts: seq<Proto<Table>>): seq<byte>
    requires AllFit(pts)
  {
    if pts == [] then [] else EncOne(be, pts[0], strip) + EncAll(be, strip, pts[1..])
  }

  function HeaderFlags(be: bool, strip: bool, pt: Proto<Table>): byte {
    (if strip then F_STRIP else 0) + (if be then F_BE else 0) + (if pt.flags / 4 % 2 == 1 then F_FFI else 0)
  }

  function EncName(strip: bool, name: seq<byte>): seq<byte> {
    if strip then [] else U(|name|) + name
  }

  /** A dump: header, prototypes, terminator. */
  function EncHeader(be: bool, strip: bool, pt: Proto<Table>, name: seq<byte>): seq<byte> {
    [HEAD1, HEAD2, HEAD3, VERSION, HeaderFlags(be, strip, pt)] + EncName(strip, name)
  }

  function EncDump(be: bool, strip: bool, pt: Proto<Table>, name: seq<byte>): seq<byte>
    requires AllFit(Flat(pt))
  {
    EncHeader(be, strip, pt, name) + EncAll(be, strip, Flat(pt)) + [0]
  }

  function Concat(chunks: seq<seq<byte>>): seq<byte> {
    if chunks == [] then [] else chunks[0] + Concat(chunks[1..])
  }

  /** The pieces in which a dump is handed over: the header, each prototype, the terminator. */
  function Pieces(be: bool, strip: bool, pt: Proto<Table>, name: seq<byte>): seq<seq<byte>>
    requires AllFit(Flat(pt))
  {
    [EncHeader(be, strip, pt, name)] + (ProtoPieces(be, strip, Flat(pt)) + [[0]])
  }

  function ProtoPieces(be: bool, strip: bool, pts: seq<Proto<Table>>): seq<seq<byte>>
    requires AllFit(pts)
  {
    if pts == [] then [] else [EncOne(be, pts[0], strip)] + ProtoPieces(be, strip, pts[1..])
  }

  /** The first piece begins with the escape character, "LJ", the version, and three flag bits: byte
      order, stripped, and whether the prototype needs the FFI. */
  lemma HeaderLayout(be: bool, strip: bool, pt: Proto<Table>, name: seq<byte>)
    requires AllFit(Flat(pt))
    ensures var head := Pieces(be, strip, pt, name)[0];
            && |head| >= 5 && head[..4] == [0x1b, 0x4c, 0x4a, 1] && head[4] < 8
            && (head[4] % 2 == 1 <==> be) && (head[4] / 2 % 2 == 1 <==> strip) && (head[4] / 4 % 2 == 1 <==> pt.flags / 4 % 2 == 1)
            && head[5..] == if strip then [] else U(|name|) + name
  {
    hide Flat, U, ProtoPieces;
    var head := Pieces(be, strip, pt, name)[0];
    assert head == [HEAD1, HEAD2, HEAD3, VERSION, HeaderFlags(be, strip, pt)] + EncName(strip, name);
  }

  /** A prototype begins with its flags, the numbers of parameters, of stack slots and of upvalues. */
  lemma BodyLayout(be: bool, pt: Proto<Table>, strip: bool)
    requires |pt.uv| < 256
    ensures var body := EncBody(be, pt, strip);
            && |body| >= 4 && body[0] < 8 && body[0] % 2 == pt.flags % 2 && body[1] == pt.numparams && body[2] == pt.framesize
            && body[3] == |pt.uv|
  {
    hide U, Words, EncKgcs, EncKnums, EncDbg, EncDbgHead;
    var sizes := [pt.flags % 8, pt.numparams, pt.framesize, |pt.uv|];
    assert EncBody(be, pt, strip)[..4] == sizes;
  }

  // ---------------------------------------------------------------- facts about the encodings

  lemma Assoc(a: seq<byte>, b: seq<byte>, c: seq<byte>)
    ensures (a + b) + c == a + (b + c)
  {}

  lemma Empty(a: seq<byte>)
    ensures a + [] == a == [] + a
  {}

  lemma {:induction false} PiecesAppend(be: bool, strip: bool, a: seq<Proto<Table>>, b: seq<Proto<Table>>)
    requires AllFit(a) && AllFit(b)
    ensures AllFit(a + b) && ProtoPieces(be, strip, a + b) == ProtoPieces(be, strip, a) + ProtoPieces(be, strip, b)
  {
    hide EncOne;
    if a == [] {
      assert a + b == b;
    } else {
      assert (a + b)[0] == a[0] && (a + b)[1..] == a[1..] + b;
      PiecesAppend(be, strip, a[1..], b);
    }
  }

  lemma {:induction false} ProtoPiecesJoined(be: bool, strip: bool, pts: seq<Proto<Table>>)
    requires AllFit(pts)
    ensures Concat(ProtoPieces(be, strip, pts) + [[0]]) == EncAll(be, strip, pts) + [0]
  {
    hide EncOne;
    if pts == [] {
      assert [] + [[0]] == [[0]] && [[0]][1..] == [];
      Empty([0]);
    } else {
      var first, rest := EncOne(be, pts[0], strip), ProtoPieces(be, strip, pts[1..]) + [[0]];
      assert ProtoPieces(be, strip, pts) + [[0]] == [first] + rest;
      assert ([first] + rest)[1..] == rest;
      ProtoPiecesJoined(be, strip, pts[1..]);
      Assoc(first, EncAll(be, strip, pts[1..]), [0]);
    }
  }

  /** The pieces are the dump. */
  lemma PiecesAreDump(be: bool, strip: bool, pt: Proto<Table>, name: seq<byte>)
    requires AllFit(Flat(pt))
    ensures Concat(Pieces(be, strip, pt, name)) == EncDump(be, strip, pt, name)
  {
    hide Flat, EncHeader, EncAll, ProtoPieces;
    var head, rest := EncHeader(be, strip, pt, name), ProtoPieces(be, strip, Flat(pt)) + [[0]];
    assert ([head] + rest)[1..] == rest;
    ProtoPiecesJoined(be, strip, Flat(pt));
    Assoc(head, EncAll(be, strip, Flat(pt)), [0]);
  }

  /** Every prototype of a tree that is in order is in order. */
  lemma {:induction false} FlatOk(be: bool, strip: bool, pt: Proto<Table>, p: Proto<Table>)
    requires ProtoOk(be, strip, pt) && p in Flat(pt)
    ensures ProtoOk(be, strip, p)
    decreases pt, |pt.kgc| + 1
  {
    if p != pt { FlatKidsOk(be, strip, pt, |pt.kgc|, p); }
  }

  lemma {:induction false} FlatKidsOk(be: bool, strip: bool, pt: Proto<Table>, n: nat, p: Proto<Table>)
    requires ProtoOk(be, strip, pt) && n <= |pt.kgc| && p in FlatKids(pt, n)
    ensures ProtoOk(be, strip, p)
    decreases pt, n
  {
    assert KgcOk(be, strip, pt, pt.kgc[n - 1]);
    if pt.kgc[n - 1].Child? && p in Flat(pt.kgc[n - 1].pt) {
      FlatOk(be, strip, pt.kgc[n - 1].pt, p);
    } else {
      FlatKidsOk(be, strip, pt, n - 1, p);
    }
  }

  /** Low 32 bits of the number the writer hands to the 32 bit ULEB128 writer for a 33 bit number
      v * 2 + bit: the top bit is lost, and bit 31 is forced so that five bytes are written. */
  function Squeezed(v: u32, bit: nat): u32
    requires bit < 2
  {
    if v < 0x8000_0000 then 2 * v + bit
    else
      var low := 2 * v - 0x1_0000_0000;
      (if low < 0x8000_0000 then low + 0x8000_0000 else low) + bit
  }

  /** The last byte after the writer has patched the two top bits into it. */
  function PatchedByte(b: byte, v: u32): byte { b % 8 + v / 0x4000_0000 % 4 * 8 }

  /** The patched 32 bit encoding is the encoding of the 33 bit number. */
  lemma Patch33(v: u32, bit: nat)
    requires bit < 2
    ensures v < 0x8000_0000 ==> U(Squeezed(v, bit)) == U(2 * v + bit)
    ensures v >= 0x8000_0000 ==>
              var w := U(Squeezed(v, bit));
              |w| == 5 && U(2 * v + bit) == w[..4] + [PatchedByte(w[4], v)]
  {
    if v >= 0x8000_0000 {
      var w, x := Squeezed(v, bit), 2 * v + bit;
      Unroll5(w);
      Unroll5(x);
      assert x - w == 0x1_0000_0000 || x - w == 0x8000_0000;
      DigitShift(w, x);
      LastByte(v, bit);
      hide U;
    }
  }

  lemma DigitShift(w: nat, x: nat)
    requires x == w + 0x1_0000_0000 || x == w + 0x8000_0000
    ensures forall k :: 0 <= k < 4 ==> Digit(x, k) == Digit(w, k)
  {
    forall k | 0 <= k < 4
      ensures Digit(x, k) == Digit(w, k)
    {
      SameDigit(w, k);
      SameDigit(w + 0x8000_0000, k);
    }
  }

  lemma SameDigit(w: nat, k: nat)
    requires k < 4
    ensures Digit(w + 0x8000_0000, k) == Digit(w, k)
  {
    if k == 0 {
    } else if k == 1 {
      assert (w + 0x8000_0000) / 0x80 == w / 0x80 + 0x100_0000;
    } else if k == 2 {
      assert (w + 0x8000_0000) / 0x4000 == w / 0x4000 + 0x2_0000;
    } else {
      assert (w + 0x8000_0000) / 0x20_0000 == w / 0x20_0000 + 0x400;
    }
  }

  lemma LastByte(v: u32, bit: nat)
    requires bit < 2 && v >= 0x8000_0000
    ensures (2 * v + bit) / 0x1000_0000 == PatchedByte(Squeezed(v, bit) / 0x1000_0000, v)
  {
    var t := v / 0x800_0000;
    assert (2 * v + bit) / 0x1000_0000 == t && 16 <= t < 32;
    assert v / 0x4000_0000 == t / 8;
  }

  function Digit(v: nat, k: nat): byte
    requires k < 4
  {
    (if k == 0 then v else if k == 1 then v / 0x80 else if k == 2 then v / 0x4000 else v / 0x20_0000) % 0x80 + 0x80
  }

  lemma Unroll5(v: nat)
    requires 0x1000_0000 <= v < 0x8_0000_0000
    ensures U(v) == [Digit(v, 0), Digit(v, 1), Digit(v, 2), Digit(v, 3), v / 0x1000_0000]
  {
    var v1, v2, v3, v4 := v / 0x80, v / 0x4000, v / 0x20_0000, v / 0x1000_0000;
    assert v1 / 0x80 == v2 && v2 / 0x80 == v3 && v3 / 0x80 == v4;
    assert U(v4) == [v4];
    assert U(v3) == [Digit(v, 3)] + U(v4);
    assert U(v2) == [Digit(v, 2)] + U(v3);
    assert U(v1) == [Digit(v, 1)] + U(v2);
  }
}
