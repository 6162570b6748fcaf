/** The bytecode reader (luajit/lj_bcread.c): words in either byte order, prototypes, and whole
    dumps. */
module BcReadProto {
  import opened BcFormat
  import opened BcTree
  import opened BcInput
  import opened BcRead
  import opened BcWrite

  // ---------------------------------------------------------------- words

  /** The word that lies in memory as bs. */
  function Load(be: bool, bs: seq<byte>): u32
    requires |bs| in {1, 2, 4}
  {
    var b: seq<nat> := bs;
    if |b| == 1 then b[0]
    else if |b| == 2 then (if be then Bytes(b[1], b[0], 0, 0) else Bytes(b[0], b[1], 0, 0))
    else if be then Bytes(b[3], b[2], b[1], b[0])
    else Bytes(b[0], b[1], b[2], b[3])
  }

  function Bytes(b0: nat, b1: nat, b2: nat, b3: nat): u32
    requires b0 < 256 && b1 < 256 && b2 < 256 && b3 < 256
  {
    b0 + b1 * 256 + b2 * 0x1_0000 + b3 * 0x100_0000
  }

  function Loads(be: bool, width: nat, bs: seq<byte>): (xs: seq<u32>)
    requires width in {1, 2, 4} && |bs| % width == 0
    ensures |xs| == |bs| / width
    decreases |bs|
  {
    if bs == [] then [] else [Load(be, bs[..width])] + Loads(be, width, bs[width..])
  }

  /** `lj_bswap` for words, and the swap of the halves of a halfword. */
  function Swapped(width: nat, x: u32): u32 {
    if width == 2 then Bytes(x / 256 % 256, x % 256, 0, 0)
    else Bytes(x / 0x100_0000, x / 0x1_0000 % 256, x / 256 % 256, x % 256)
  }

  predicate WordFits(width: nat, x: u32) { (width == 1 ==> x < 256) && (width == 2 ==> x < 0x1_0000) }

  function StoreWord(be: bool, width: nat, x: u32): (bs: seq<byte>)
    requires width in {1, 2, 4}
    ensures |bs| == width
  {
    if width == 1 then W1(x) else if width == 2 then W2(be, x) else W4(be, x)
  }

  lemma BytesOf(b0: nat, b1: nat, b2: nat, b3: nat)
    requires b0 < 256 && b1 < 256 && b2 < 256 && b3 < 256
    ensures var x := Bytes(b0, b1, b2, b3);
            x % 256 == b0 && x / 256 % 256 == b1 && x / 0x1_0000 % 256 == b2 && x / 0x100_0000 == b3
  {
    var x := Bytes(b0, b1, b2, b3);
    assert x / 256 == b1 + b2 * 256 + b3 * 0x1_0000;
    assert x / 0x1_0000 == b2 + b3 * 256;
  }

  lemma IsBytes(x: u32)
    ensures x == Bytes(x % 256, x / 256 % 256, x / 0x1_0000 % 256, x / 0x100_0000)
  {
    var q := x / 256;
    assert x == 256 * q + x % 256;
    assert x / 0x1_0000 == q / 256 && x / 0x100_0000 == q / 256 / 256;
  }

  lemma LoadStored(be: bool, host: bool, width: nat, x: u32)
    requires width in {1, 2, 4} && WordFits(width, x)
    ensures Load(host, StoreWord(be, width, x)) == if be == host || width == 1 then x else Swapped(width, x)
    ensures width != 1 ==> Swapped(width, Swapped(width, x)) == x
  {
    hide Bytes;
    var b0, b1, b2, b3 := x % 256, x / 256 % 256, x / 0x1_0000 % 256, x / 0x100_0000;
    IsBytes(x);
    if width == 4 {
      BytesOf(b3, b2, b1, b0);
    } else if width == 2 {
      assert b2 == 0 && b3 == 0;
      BytesOf(b1, b0, 0, 0);
    }
  }

  /** Words that were stored are loaded, in the same byte order or each with its bytes swapped. */
  lemma {:induction false} LoadsStored(be: bool, host: bool, width: nat, xs: seq<u32>, i: nat)
    requires width in {1, 2, 4} && i < |xs| && forall k :: 0 <= k < |xs| ==> WordFits(width, xs[k])
    ensures |Words(be, width, xs)| == width * |xs| && |Words(be, width, xs)| % width == 0
    ensures |Loads(host, width, Words(be, width, xs))| == |xs|
    ensures var y := Loads(host, width, Words(be, width, xs))[i];
            xs[i] == if be == host || width == 1 then y else Swapped(width, y)
  {
    hide Load, Swapped, W1, W2, W4, WordFits;
    var first, rest := StoreWord(be, width, xs[0]), Words(be, width, xs[1..]);
    assert Words(be, width, xs) == first + rest;
    assert (first + rest)[..width] == first && (first + rest)[width..] == rest;
    MultipleOf(width, |xs|);
    MultipleOf(width, |xs| - 1);
    LoadStored(be, host, width, xs[0]);
    if i > 0 {
      LoadsStored(be, host, width, xs[1..], i - 1);
    }
  }

  lemma MultipleOf(width: nat, n: nat)
    requires width in {1, 2, 4}
    ensures width * n % width == 0 && width * n / width == n
  {}

  /** The swapping loops of the reader. */
  method SwapWords(width: nat, p: array<u32>)
    modifies p
    ensures forall i :: 0 <= i < p.Length ==> p[i] == Swapped(width, old(p[i]))
  {
    for i := 0 to p.Length
      invariant forall k :: 0 <= k < i ==> p[k] == Swapped(width, old(p[k]))
      invariant forall k :: i <= k < p.Length ==> p[k] == old(p[k])
    {
      p[i] := Swapped(width, p[i]);
    }
  }

  predicate BeFlag(level: nat) { level % 2 == 1 }
  predicate StripFlag(level: nat) { level / 2 % 2 == 1 }

  /** A block of words is copied, and swapped if the byte order of the dump differs. */
  method Unswap(host: bool, level: nat, width: nat, block: seq<byte>, ghost xs: seq<u32>) returns (ws: seq<u32>)
    requires width in {1, 2, 4} && block == Words(BeFlag(level), width, xs)
    requires forall k :: 0 <= k < |xs| ==> WordFits(width, xs[k])
    ensures ws == xs
  {
    hide Loads, Words, Swapped, WordFits;
    MultipleOf(width, |xs|);
    ws := Loads(host, width, block);
    forall i | 0 <= i < |xs|
      ensures |ws| == |xs| && xs[i] == if BeFlag(level) == host || width == 1 then ws[i] else Swapped(width, ws[i])
    {
      LoadsStored(BeFlag(level), host, width, xs, i);
    }
    if BeFlag(level) != host && width != 1 {
      var p := new u32[|ws|](i requires 0 <= i < |ws| => ws[i]);
      SwapWords(width, p);
      ws := p[..];
    }
  }

  /** `bcread_bytecode` and `bcread_uv`. */
  method ReadWords(ls: LexState, width: nat, count: nat, ghost xs: seq<u32>, ghost tail: seq<byte>) returns (ws: seq<u32>)
    requires ls.Valid() && width in {1, 2, 4} && count == |xs| && ls.data == Words(BeFlag(ls.level), width, xs) + tail
    requires forall k :: 0 <= k < |xs| ==> WordFits(width, xs[k])
    modifies ls`off, ls`n, ls`data
    ensures ls.Valid() && ws == xs && ls.data == tail
  {
    var block := ls.Mem(width * count);
    ws := Unswap(ls.be, ls.level, width, block, xs);
  }

  // ---------------------------------------------------------------- prototypes

  datatype Head = Head(flags: byte, numparams: byte, framesize: byte, sizeuv: byte,
                       sizekgc: u32, sizekn: u32, nbc: u32, sizedbg: u32, firstline: u32, numline: u32)

  /** The header of a prototype, as it is to be read. */
  ghost function HeadOf(pt: Proto<Table>, strip: bool): Head
    requires |pt.uv| < 256 && |pt.kgc| <= MAX_MEM && |pt.knum| <= MAX_MEM && |pt.bc| <= MAX_MEM
    requires !strip && pt.dbg.Some? ==> DbgSize(pt.dbg.value) <= MAX_MEM
  {
    var dbg := !strip && pt.dbg.Some?;
    Head(pt.flags % 8, pt.numparams, pt.framesize, |pt.uv|, |pt.kgc|, |pt.knum|, |pt.bc|,
         if dbg then DbgSize(pt.dbg.value) else 0,
         if dbg then pt.dbg.value.firstline else 0,
         if dbg then pt.dbg.value.numline else 0)
  }

  lemma SizesSplit(pt: Proto<Table>, tail: seq<byte>)
    requires |pt.uv| < 256
    ensures EncSizes(pt) + tail ==
            [pt.flags % 8, pt.numparams, pt.framesize, |pt.uv|] + (U(|pt.kgc|) + (U(|pt.knum|) + (U(|pt.bc|) + tail)))
  {
    hide U;
    Assoc4([pt.flags % 8, pt.numparams, pt.framesize, |pt.uv|], U(|pt.kgc|), U(|pt.knum|), U(|pt.bc|), tail);
  }

  /** The first bytes of a prototype and its sizes. */
  method ReadSizes(ls: LexState, ghost be: bool, ghost strip: bool, ghost pt: Proto<Table>, ghost tail: seq<byte>)
    returns (h: Head)
    requires ls.Valid() && ProtoOk(be, strip, pt) && ls.data == EncSizes(pt) + tail
    modifies ls`off, ls`n, ls`data
    ensures ls.Valid() && ls.data == tail
    ensures h == Head(pt.flags % 8, pt.numparams, pt.framesize, |pt.uv|, |pt.kgc|, |pt.knum|, |pt.bc|, 0, 0, 0)
  {
    hide U, EncSizes, ProtoOk;
    HeadFits(be, pt, strip);
    SizesSplit(pt, tail);
    ghost var bcs := U(|pt.bc|) + tail;
    ghost var kns := U(|pt.knum|) + bcs;
    var flags := ls.Byte();
    var numparams := ls.Byte();
    var framesize := ls.Byte();
    var sizeuv := ls.Byte();
    assert ls.data == U(|pt.kgc|) + kns;
    var sizekgc := ls.ULeb(|pt.kgc|, kns);
    var sizekn := ls.ULeb(|pt.knum|, bcs);
    var nbc := ls.ULeb(|pt.bc|, tail);
    h := Head(flags, numparams, framesize, sizeuv, sizekgc, sizekn, nbc, 0, 0, 0);
  }

  lemma DbgHeadSplit(pt: Proto<Table>, strip: bool, tail: seq<byte>)
    ensures !strip && pt.dbg.Some? ==>
              EncDbgHead(pt, strip) + tail ==
              U(DbgSize(pt.dbg.value)) + (U(pt.dbg.value.firstline) + (U(pt.dbg.value.numline) + tail))
    ensures strip ==> EncDbgHead(pt, strip) + tail == tail
    ensures !strip && pt.dbg.None? ==> EncDbgHead(pt, strip) + tail == U(0) + tail
  {
    hide U;
    if !strip && pt.dbg.Some? {
      var d := pt.dbg.value;
      Assoc(U(DbgSize(d)) + U(d.firstline), U(d.numline), tail);
      Assoc(U(DbgSize(d)), U(d.firstline), U(d.numline) + tail);
    }
  }

  /** The header of a prototype. */
  method ReadHead(ls: LexState, ghost be: bool, ghost strip: bool, ghost pt: Proto<Table>, ghost tail: seq<byte>)
    returns (h: Head)
    requires ls.Valid() && ProtoOk(be, strip, pt) && ls.data == EncHead(pt, strip) + tail && StripFlag(ls.level) == strip
    requires |pt.uv| < 256 && |pt.kgc| <= MAX_MEM && |pt.knum| <= MAX_MEM && |pt.bc| <= MAX_MEM
    requires !strip && pt.dbg.Some? ==> 0 < DbgSize(pt.dbg.value) <= MAX_MEM
    modifies ls`off, ls`n, ls`data
    ensures ls.Valid() && ls.data == tail && h == HeadOf(pt, strip)
  {
    hide U, EncSizes, EncDbgHead, ProtoOk, DbgSize;
    ghost var dbg := EncDbgHead(pt, strip) + tail;
    Assoc(EncSizes(pt), EncDbgHead(pt, strip), tail);
    h := ReadSizes(ls, be, strip, pt, dbg);
    DbgHeadSplit(pt, strip, tail);
    if !StripFlag(ls.level) {
      ghost var lines := if pt.dbg.Some? then U(pt.dbg.value.firstline) + (U(pt.dbg.value.numline) + tail) else tail;
      var sizedbg := ls.ULeb(if pt.dbg.Some? then DbgSize(pt.dbg.value) else 0, lines);
      h := h.(sizedbg := sizedbg);
      if sizedbg != 0 {
        var firstline := ls.ULeb(pt.dbg.value.firstline, U(pt.dbg.value.numline) + tail);
        var numline := ls.ULeb(pt.dbg.value.numline, tail);
        h := h.(firstline := firstline, numline := numline);
      }
    }
  }

  /** `bcread_dbg`: line numbers are swapped if they are wider than a byte. */
  method ReadDbg(ls: LexState, h: Head, ghost d: Dbg, ghost tail: seq<byte>) returns (r: Dbg)
    requires ls.Valid() && h.firstline == d.firstline && h.numline == d.numline
    requires h.sizedbg == DbgSize(d) && h.nbc == |d.lineinfo|
    requires forall k :: 0 <= k < |d.lineinfo| ==> WordFits(LineWidth(d.numline), d.lineinfo[k])
    requires ls.data == (Words(BeFlag(ls.level), LineWidth(d.numline), d.lineinfo) + d.rest) + tail
    modifies ls`off, ls`n, ls`data
    ensures ls.Valid() && r == d && ls.data == tail
  {
    hide Words;
    var block := ls.Mem(h.sizedbg);
    var width := if h.numline < 256 then 1 else if h.numline < 65536 then 2 else 4;
    var sizeli := h.nbc * width;
    assert block == Words(BeFlag(ls.level), LineWidth(d.numline), d.lineinfo) + d.rest;
    var lineinfo := Unswap(ls.be, ls.level, width, block[..sizeli], d.lineinfo);
    r := Dbg(h.firstline, h.numline, lineinfo, block[sizeli..]);
  }

  lemma BodySplit(be: bool, pt: Proto<Table>, strip: bool, tail: seq<byte>)
    requires |pt.uv| < 256
    ensures EncBody(be, pt, strip) + tail ==
            EncHead(pt, strip) + (Words(be, 4, pt.bc) + (Words(be, 2, pt.uv) + (EncKgcs(pt.kgc) + (EncKnums(pt.knum) +
            (EncDbg(be, pt, strip) + tail)))))
  {
    hide Words, EncHead, EncKgcs, EncKnums, EncDbg;
    var a, b, c := EncHead(pt, strip), Words(be, 4, pt.bc), Words(be, 2, pt.uv);
    var d, e, f := EncKgcs(pt.kgc), EncKnums(pt.knum), EncDbg(be, pt, strip);
    Assoc(a + b + c + d + e, f, tail);
    Assoc(a + b + c + d, e, f + tail);
    Assoc4(a, b, c, d, e + (f + tail));
    assert (a + b + c + d) + (e + (f + tail)) == a + (b + (c + (d + (e + (f + tail)))));
  }

  /** What the parts of a prototype that is in order satisfy. */
  lemma PartsOk(be: bool, strip: bool, pt: Proto<Table>)
    requires ProtoOk(be, strip, pt)
    ensures |pt.uv| < 256 && |pt.kgc| <= MAX_MEM && |pt.knum| <= MAX_MEM && |pt.bc| <= MAX_MEM
    ensures forall i :: 0 <= i < |pt.kgc| ==> KgcInOrder(pt.kgc[i])
    ensures forall i :: 0 <= i < |pt.knum| ==> KnumOk(pt.knum[i])
    ensures !strip && pt.dbg.Some? ==> DbgOk(pt, pt.dbg.value) && 0 < DbgSize(pt.dbg.value) <= MAX_MEM
  {
    forall i | 0 <= i < |pt.kgc|
      ensures KgcInOrder(pt.kgc[i])
    {
      assert KgcOk(be, strip, pt, pt.kgc[i]);
    }
    if !strip && pt.dbg.Some? { DbgFits(be, pt, strip); }
  }

  /** The debug information, if there is any. */
  method ReadDbgPart(ls: LexState, h: Head, ghost strip: bool, ghost pt: Proto<Table>, ghost tail: seq<byte>)
      returns (r: Option<Dbg>)
    requires ls.Valid() && ProtoOk(BeFlag(ls.level), strip, pt) && |pt.uv| < 256 && h == HeadOf(pt, strip)
    requires ls.data == EncDbg(BeFlag(ls.level), pt, strip) + tail
    modifies ls`off, ls`n, ls`data
    ensures ls.Valid() && ls.data == tail && r == if strip then None else pt.dbg
  {
    hide Words, ProtoOk, DbgOk, DbgSize, EncDbg;
    PartsOk(BeFlag(ls.level), strip, pt);
    r := None;
    if h.sizedbg != 0 {
      DbgSplit(BeFlag(ls.level), strip, pt);
      var d := ReadDbg(ls, h, pt.dbg.value, tail);
      r := Some(d);
    } else {
      NoDbg(BeFlag(ls.level), strip, pt);
      Empty(tail);
    }
  }

  /** The part of `bcread_proto` after its length: an error exactly when children are missing. */
  method ReadBody(ls: LexState, ghost strip: bool, ghost pt: Proto<Table>, ghost tail: seq<byte>)
    returns (bad: bool, r: Proto<RTab>)
    requires ls.Valid() && ProtoOk(BeFlag(ls.level), strip, pt) && |pt.uv| < 256 && StripFlag(ls.level) == strip
    requires ls.data == EncBody(BeFlag(ls.level), pt, strip) + tail && ls.oldtop <= |ls.stack|
    modifies ls`off, ls`n, ls`data, ls`stack
    ensures ls.Valid() && (bad <==> Kids(pt) > old(|ls.stack|) - ls.oldtop)
    ensures !bad ==> r == Built(pt, strip, old(ls.stack)) && ls.data == tail
    ensures !bad ==> ls.stack == old(ls.stack)[..old(|ls.stack|) - Kids(pt)]
  {
    hide Words, EncHead, EncKgcs, EncKnums, EncDbg, ProtoOk, BuiltKgc, KgcInOrder, KnumOk, EncBody, DbgOk, DbgSize;
    ghost var be := BeFlag(ls.level);
    PartsOk(be, strip, pt);
    BodySplit(be, pt, strip, tail);
    ghost var dbgs := EncDbg(be, pt, strip) + tail;
    ghost var knums := EncKnums(pt.knum) + dbgs;
    ghost var kgcs := EncKgcs(pt.kgc) + knums;
    ghost var uvs := Words(be, 2, pt.uv) + kgcs;
    var h := ReadHead(ls, be, strip, pt, Words(be, 4, pt.bc) + uvs);
    var bc := ReadWords(ls, 4, h.nbc, pt.bc, uvs);
    var uv := ReadWords(ls, 2, h.sizeuv, pt.uv, kgcs);
    r := Proto(h.flags, h.numparams, h.framesize, bc, uv, [], [], None);
    var kgc;
    bad, kgc := ReadKgcs(ls, h.sizekgc, pt, knums);
    if bad { return; }
    var knum := ReadKnums(ls, h.sizekn, pt.knum, dbgs);
    r := r.(kgc := kgc, knum := knum);
    var d := ReadDbgPart(ls, h, strip, pt, tail);
    r := r.(dbg := d);
  }

  lemma DbgSplit(be: bool, strip: bool, pt: Proto<Table>)
    requires !strip && pt.dbg.Some? && DbgOk(pt, pt.dbg.value)
    ensures var d := pt.dbg.value;
            && EncDbg(be, pt, strip) == Words(be, LineWidth(d.numline), d.lineinfo) + d.rest && |d.lineinfo| == |pt.bc|
            && forall k :: 0 <= k < |d.lineinfo| ==> WordFits(LineWidth(d.numline), d.lineinfo[k])
  {}

  lemma NoDbg(be: bool, strip: bool, pt: Proto<Table>)
    requires strip || pt.dbg.None?
    ensures EncDbg(be, pt, strip) == []
  {}
}
