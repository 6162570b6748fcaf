/** The bytecode writer (luajit/lj_bcwrite.c): a growing buffer that is filled by loops and
    patched in place, and flushed to a writer function one prototype at a time. */
module BcWrite {
  import opened BcFormat
  import opened Bits

  /** A writer function: what it answers when it has been called before a number of times. */
  type Writer = (nat, seq<byte>) -> int

  /** Pieces are handed over one by one until the writer function answers with an error.  From the
      pieces handed over before and the status, this gives the new ones. */
  function Handing(wfunc: Writer, log: seq<seq<byte>>, status: int, pieces: seq<seq<byte>>): (seq<seq<byte>>, int)
    decreases |pieces|
  {
    if pieces == [] || status != 0 then (log, status)
    else Handing(wfunc, log + [pieces[0]], wfunc(|log|, pieces[0]), pieces[1..])
  }

  lemma {:induction false} HandingAppend(wfunc: Writer, log: seq<seq<byte>>, status: int, p: seq<seq<byte>>, q: seq<seq<byte>>)
    ensures var r := Handing(wfunc, log, status, p); Handing(wfunc, log, status, p + q) == Handing(wfunc, r.0, r.1, q)
    decreases |p|
  {
    if p == [] {
      assert p + q == q;
    } else if status == 0 {
      assert (p + q)[0] == p[0] && (p + q)[1..] == p[1..] + q;
      HandingAppend(wfunc, log + [p[0]], wfunc(|log|, p[0]), p[1..], q);
    }
  }

  /** The writer function accepts all of the pieces. */
  predicate Accepts(wfunc: Writer, pieces: seq<seq<byte>>) {
    forall i :: 0 <= i < |pieces| ==> wfunc(i, pieces[i]) == 0
  }

  /** What a writer function gets: the pieces up to the first one that it refuses; the status is its
      last answer. */
  predicate Handed(wfunc: Writer, pieces: seq<seq<byte>>, log: seq<seq<byte>>, status: int) {
    && log <= pieces && log != [] && Accepts(wfunc, log[..|log| - 1])
    && status == wfunc(|log| - 1, log[|log| - 1])
    && (status == 0 ==> log == pieces)
  }

  lemma {:induction false} HandingMeaning(wfunc: Writer, log: seq<seq<byte>>, pieces: seq<seq<byte>>)
    requires pieces != [] && Accepts(wfunc, log)
    ensures var r := Handing(wfunc, log, 0, pieces); Handed(wfunc, log + pieces, r.0, r.1)
    decreases |pieces|
  {
    var status, log' := wfunc(|log|, pieces[0]), log + [pieces[0]];
    assert log' + pieces[1..] == log + pieces;
    assert log'[..|log'| - 1] == log;
    if status == 0 && |pieces| > 1 { HandingMeaning(wfunc, log', pieces[1..]); }
  }

  /** The status is 0 exactly if the writer function accepts everything. */
  lemma HandedAll(wfunc: Writer, pieces: seq<seq<byte>>, log: seq<seq<byte>>, status: int)
    requires Handed(wfunc, pieces, log, status)
    ensures status == 0 <==> Accepts(wfunc, pieces)
  {
    if status == 0 {
      forall i | 0 <= i < |pieces|
        ensures wfunc(i, pieces[i]) == 0
      {
        if i < |log| - 1 { assert log[..|log| - 1][i] == pieces[i]; }
      }
    } else {
      assert pieces[|log| - 1] == log[|log| - 1];
    }
  }

  class BCWriteCtx {
    const be: bool             // byte order of the machine
    const strip: bool
    const wfunc: Writer
    var buf: array<byte>       // sb.buf
    var n: nat                 // sb.n
    ghost var data: seq<byte>  // what the buffer holds
    var status: int
    var log: seq<seq<byte>>    // what the writer function was called with

    constructor (be: bool, strip: bool, wfunc: Writer)
      ensures this.be == be && this.strip == strip && this.wfunc == wfunc
      ensures Valid() && log == [] && status == 0 && fresh(buf)
    {
      this.be, this.strip, this.wfunc := be, strip, wfunc;
      buf := new byte[1024](_ => 0);
      n, data, status, log := 0, [], 0, [];
    }

    ghost predicate Valid()
      reads this, buf
    {
      n <= buf.Length && buf.Length > 0 && buf[..n] == data
    }

    /** `bcwrite_resize`. */
    method Resize(len: nat)
      requires Valid()
      modifies this`buf
      ensures Valid() && n + len <= buf.Length && fresh(buf)
    {
      var sz := buf.Length * 2;
      while n + len > sz
        invariant sz >= buf.Length > 0
        decreases n + len - sz
      {
        sz := sz * 2;
      }
      var bigger := new byte[sz](_ => 0);
      forall i | 0 <= i < n {
        bigger[i] := buf[i];
      }
      buf := bigger;
    }

    /** `bcwrite_need`. */
    method Need(len: nat)
      requires Valid()
      modifies this`buf
      ensures Valid() && n + len <= buf.Length
      ensures fresh(buf) || buf == old(buf)
    {
      if n + len > buf.Length { Resize(len); }
    }

    /** `bcwrite_block`. */
    method Block(bs: seq<byte>)
      requires Valid() && n + |bs| <= buf.Length
      modifies this`n, this`data, buf
      ensures Valid() && n == old(n) + |bs| && data == old(data) + bs
    {
      var q := n;
      n := n + |bs|;
      for i := 0 to |bs|
        invariant n == q + |bs| && data == old(data) && buf[..q] == data && buf[q..q + i] == bs[..i]
      {
        buf[q + i] := bs[i];
      }
      data := data + bs;
      assert buf[..n] == buf[..q] + buf[q..n];
    }

    /** `bcwrite_byte`. */
    method Byte(b: byte)
      requires Valid() && n < buf.Length
      modifies this`n, this`data, buf
      ensures Valid() && n == old(n) + 1 && data == old(data) + [b]
    {
      buf[n] := b;
      n := n + 1;
      data := data + [b];
    }

    /** `bcwrite_uleb128`: only the written bytes of the buffer change. */
    method ULeb(v0: u32)
      requires Valid() && n + |U(v0)| <= buf.Length
      modifies this`n, this`data, buf
      ensures Valid() && n == old(n) + |U(v0)| && data == old(data) + U(v0)
      ensures forall i :: n <= i < buf.Length ==> buf[i] == old(buf[i])
    {
      var v, m := v0, n;
      ghost var done: seq<byte> := [];
      while v >= 0x80
        invariant 0 <= v && n == old(n) && m == n + |done| && m + |U(v)| <= buf.Length
        invariant U(v0) == done + U(v)
        invariant data == old(data) && buf[..n] == data && buf[n..m] == done
        invariant forall i :: m <= i < buf.Length ==> buf[i] == old(buf[i])
        decreases v
      {
        var b := v % 0x80 + 0x80;
        Assoc(done, [b], U(v / 0x80));
        buf[m] := b;
        m := m + 1;
        v := v / 0x80;
        done := done + [b];
      }
      buf[m] := v;
      n := m + 1;
      data := data + (done + [v]);
      assert buf[..n] == buf[..old(n)] + buf[old(n)..n];
    }

    method AppendU(v: u32)
      requires Valid() && n + 5 <= buf.Length
      modifies this`n, this`data, buf
      ensures Valid() && data == old(data) + U(v) && buf == old(buf) && n <= old(n) + 5
    {
      USizeBounds(v);
      ULeb(v);
    }

    /** `bcwrite_ktabk`. */
    method Ktabk(v: TValue)
      requires Valid() && SmallValue(v)
      modifies this`n, this`data, this`buf, buf
      ensures Valid() && data == old(data) + EncK(v) && (fresh(buf) || buf == old(buf))
    {
      hide U;
      Need(1 + 10);
      match v {
        case Str(s) =>
          Need(5 + |s|);
          AppendU(KTAB_STR + |s|);
          Block(s);
          Assoc(old(data), U(KTAB_STR + |s|), s);
        case Int(i) =>
          Byte(KTAB_INT);
          AppendU(i);
          Assoc(old(data), [KTAB_INT], U(i));
        case Num(lo, hi) =>
          Byte(KTAB_NUM);
          AppendU(lo);
          Assoc(old(data), [KTAB_NUM], U(lo));
          AppendU(hi);
          Assoc(old(data), [KTAB_NUM] + U(lo), U(hi));
        case Nil => Byte(KTAB_NIL);
        case False => Byte(KTAB_FALSE);
        case True => Byte(KTAB_TRUE);
      }
    }

    /** The first part of `bcwrite_ktab`: the length of the array part up to its last value. */
    method CountArray(a: seq<TValue>) returns (narray: nat)
      ensures narray == UsedLength(a)
    {
      var i := |a| - 1;
      while i >= 0
        invariant -1 <= i < |a| && UsedLength(a) == UsedLength(a[..i + 1])
      {
        assert a[..i + 1][..i] == a[..i];
        if a[i] != Nil { break; }
        i := i - 1;
      }
      narray := i + 1;
    }

    method CountNodes(node: seq<(TValue, TValue)>) returns (nhash: nat)
      ensures nhash == UsedNodes(node)
    {
      nhash := 0;
      for i := 0 to |node|
        invariant nhash == UsedNodes(node[..i])
      {
        assert node[..i + 1][..i] == node[..i];
        if node[i].1 != Nil { nhash := nhash + 1; }
      }
      assert node[..|node|] == node;
    }

    method WriteArray(a: seq<TValue>)
      requires Valid() && forall i :: 0 <= i < |a| ==> SmallValue(a[i])
      modifies this`n, this`data, this`buf, buf
      ensures Valid() && data == old(data) + EncArray(a) && (fresh(buf) || buf == old(buf))
    {
      hide EncK, Valid;
      ghost var was := data;
      ghost var done: seq<byte> := [];
      for i := 0 to |a|
        invariant Valid() && (fresh(buf) || buf == old(buf))
        invariant data == was + done && EncArray(a) == done + EncArray(a[i..])
      {
        Ktabk(a[i]);
        assert a[i..][1..] == a[i + 1..];
        Assoc(done, EncK(a[i]), EncArray(a[i + 1..]));
        Assoc(was, done, EncK(a[i]));
        done := done + EncK(a[i]);
      }
    }

    /** The last loop of `bcwrite_ktab`: from the last node to the first, until all are written. */
    method WriteNodes(t: Table, nhash: nat)
      requires Valid() && TableOk(t) && nhash == UsedNodes(t.node) && nhash > 0
      modifies this`n, this`data, this`buf, buf
      ensures Valid() && data == old(data) + EncNodes(t.node) && (fresh(buf) || buf == old(buf))
    {
      hide EncK, Valid;
      ghost var was := data;
      ghost var done: seq<byte> := [];
      var i, at := nhash, |t.node|;
      assert t.node[..at] == t.node;
      while true
        invariant Valid() && (fresh(buf) || buf == old(buf))
        invariant 0 <= at <= |t.node| && i == UsedNodes(t.node[..at]) && i > 0
        invariant data == was + done && EncNodes(t.node) == done + EncNodes(t.node[..at])
        decreases at
      {
        at := at - 1;
        assert t.node[..at + 1][..at] == t.node[..at] && NodeOk(t, at);
        var k, v := t.node[at].0, t.node[at].1;
        if v != Nil {
          Ktabk(k);
          Ktabk(v);
          Assoc(done, EncK(k) + EncK(v), EncNodes(t.node[..at]));
          Assoc(was + done, EncK(k), EncK(v));
          Assoc(was, done, EncK(k) + EncK(v));
          done := done + (EncK(k) + EncK(v));
          i := i - 1;
          if i == 0 { break; }
        } else {
          Empty(EncNodes(t.node[..at]));
        }
      }
      NoNodes(t.node[..at]);
      Empty(done);
    }

    /** `bcwrite_ktab`. */
    method Ktab(t: Table)
      requires Valid() && TableOk(t) && n + 10 <= buf.Length
      modifies this`n, this`data, this`buf, buf
      ensures Valid() && data == old(data) + EncTable(t) && (fresh(buf) || buf == old(buf))
    {
      hide U, EncArray, EncNodes, UsedNodes;
      ghost var was := data;
      var narray := CountArray(t.arr);
      var nhash := CountNodes(t.node);
      CountsFit(t.node);
      AppendU(narray);
      AppendU(nhash);
      Assoc(was, U(narray), U(nhash));
      ghost var counts := U(narray) + U(nhash);
      hide Valid;
      var a := t.arr[..narray];
      if narray > 0 {
        WriteArray(a);
      } else {
        NoArray(a);
        Empty(data);
      }
      Assoc(was, counts, EncArray(a));
      counts := counts + EncArray(a);
      if nhash > 0 {
        WriteNodes(t, nhash);
      } else {
        NoNodes(t.node);
        Empty(data);
      }
      Assoc(was, counts, EncNodes(t.node));
    }

    /** `bcwrite_kgc` for one constant. */
    method Kgc(k: KGC<Table>, ghost pt: Proto<Table>)
      requires Valid() && KgcOk(be, strip, pt, k)
      modifies this`n, this`data, this`buf, buf
      ensures Valid() && data == old(data) + EncKgc(k) && (fresh(buf) || buf == old(buf))
    {
      hide U, EncTable, ProtoOk, TableOk;
      ghost var was := data;
      match k {
        case KStr(s) =>
          Need(5 + |s|);
          AppendU(KGC_STR + |s|);
          Block(s);
          Assoc(was, U(KGC_STR + |s|), s);
        case Child(_) =>
          Need(1);
          USizeBounds(KGC_CHILD);
          ULeb(KGC_CHILD);
        case Tab(t) =>
          Need(1 + 2 * 5);
          USizeBounds(KGC_TAB);
          ULeb(KGC_TAB);
          Ktab(t);
          Assoc(was, U(KGC_TAB), EncTable(t));
      }
    }

    /** `bcwrite_kgc`. */
    method Kgcs(pt: Proto<Table>)
      requires Valid() && ProtoOk(be, strip, pt)
      modifies this`n, this`data, this`buf, buf
      ensures Valid() && data == old(data) + EncKgcs(pt.kgc) && (fresh(buf) || buf == old(buf))
    {
      hide EncKgc, KgcOk, Valid;
      ghost var was := data;
      ghost var done: seq<byte> := [];
      var ks := pt.kgc;
      for i := 0 to |ks|
        invariant Valid() && (fresh(buf) || buf == old(buf))
        invariant data == was + done && EncKgcs(ks) == done + EncKgcs(ks[i..])
      {
        Kgc(ks[i], pt);
        assert ks[i..][1..] == ks[i + 1..];
        Assoc(done, EncKgc(ks[i]), EncKgcs(ks[i + 1..]));
        Assoc(was, done, EncKgc(ks[i]));
        done := done + EncKgc(ks[i]);
      }
    }

    /** A 33 bit number: 32 bits are written, then two bits are patched into the last byte. */
    method U33(v: u32, bit: nat)
      requires Valid() && bit < 2 && n + 5 <= buf.Length
      modifies this`n, this`data, buf
      ensures Valid() && data == old(data) + U(2 * v + bit) && n <= old(n) + 5
    {
      ghost var was := data;
      Patch33(v, bit);
      AppendU(Squeezed(v, bit));
      if v >= 0x8000_0000 {
        ghost var w := U(Squeezed(v, bit));
        buf[n - 1] := PatchedByte(buf[n - 1], v);
        data := was + (w[..4] + [PatchedByte(w[4], v)]);
      }
    }

    /** `bcwrite_knum` for one constant. */
    method Knum(v: TValue)
      requires Valid() && KnumOk(v) && n + 10 <= buf.Length
      modifies this`n, this`data, buf
      ensures Valid() && data == old(data) + EncKnum(v) && n <= old(n) + 10
    {
      hide U;
      if v.Int? {
        U33(v.i, 0);
      } else {
        U33(v.lo, 1);
        AppendU(v.hi);
        Assoc(old(data), U(2 * v.lo + 1), U(v.hi));
      }
    }

    /** `bcwrite_knum`. */
    method Knums(ks: seq<TValue>)
      requires Valid() && forall i :: 0 <= i < |ks| ==> KnumOk(ks[i])
      modifies this`n, this`data, this`buf, buf
      ensures Valid() && data == old(data) + EncKnums(ks) && (fresh(buf) || buf == old(buf))
    {
      hide EncKnum, Valid;
      Need(10 * |ks|);
      ghost var was := data;
      ghost var done: seq<byte> := [];
      for i := 0 to |ks|
        invariant Valid() && (fresh(buf) || buf == old(buf)) && n + 10 * (|ks| - i) <= buf.Length
        invariant data == was + done && EncKnums(ks) == done + EncKnums(ks[i..])
      {
        Knum(ks[i]);
        assert ks[i..][1..] == ks[i + 1..];
        Assoc(done, EncKnum(ks[i]), EncKnums(ks[i + 1..]));
        Assoc(was, done, EncKnum(ks[i]));
        done := done + EncKnum(ks[i]);
      }
    }

    method FourBytes(a: byte, b: byte, c: byte, d: byte)
      requires Valid() && n + 4 <= buf.Length
      modifies this`n, this`data, buf
      ensures Valid() && n == old(n) + 4 && data == old(data) + [a, b, c, d]
    {
      Byte(a);
      Byte(b);
      Byte(c);
      Byte(d);
    }

    /** The header of a prototype in `bcwrite_proto`, up to its sizes. */
    method Sizes(pt: Proto<Table>)
      requires Valid() && ProtoOk(be, strip, pt) && n + 4 + 3 * 5 <= buf.Length
      modifies this`n, this`data, buf
      ensures Valid() && data == old(data) + EncSizes(pt) && n <= old(n) + 4 + 3 * 5
    {
      hide U, ProtoOk;
      HeadFits(be, pt, strip);
      ghost var was := data;
      ghost var head := [pt.flags % 8, pt.numparams, pt.framesize, |pt.uv|];
      FourBytes(pt.flags % 8, pt.numparams, pt.framesize, |pt.uv|);
      AppendU(|pt.kgc|);
      Assoc(was, head, U(|pt.kgc|));
      head := head + U(|pt.kgc|);
      AppendU(|pt.knum|);
      Assoc(was, head, U(|pt.knum|));
      head := head + U(|pt.knum|);
      AppendU(|pt.bc|);
      Assoc(was, head, U(|pt.bc|));
    }

    /** The header of a prototype in `bcwrite_proto`. */
    method Head(pt: Proto<Table>)
      requires Valid() && ProtoOk(be, strip, pt) && n + 4 + 6 * 5 <= buf.Length
      modifies this`n, this`data, buf
      ensures Valid() && data == old(data) + EncHead(pt, strip) && n <= old(n) + 4 + 6 * 5
    {
      hide U, ProtoOk, EncSizes, Valid;
      HeadFits(be, pt, strip);
      ghost var was := data;
      Sizes(pt);
      if !strip {
        if pt.dbg.Some? {
          DbgFits(be, pt, strip);
          var d := pt.dbg.value;
          ghost var e := data;
          AppendU(DbgSize(d));
          AppendU(d.firstline);
          Assoc(e, U(DbgSize(d)), U(d.firstline));
          AppendU(d.numline);
          Assoc(e, U(DbgSize(d)) + U(d.firstline), U(d.numline));
        } else {
          AppendU(0);
        }
      } else {
        Empty(data);
      }
      Assoc(was, EncSizes(pt), EncDbgHead(pt, strip));
    }

    /** The body of `bcwrite_proto`, from the prototype header to the debug information. */
    method Body(pt: Proto<Table>)
      requires Valid() && ProtoOk(be, strip, pt)
      modifies this`n, this`data, this`buf, buf
      ensures Valid() && data == old(data) + EncBody(be, pt, strip) && (fresh(buf) || buf == old(buf))
    {
      hide U, ProtoOk, EncHead, EncKgcs, EncKnums, EncDbg, Words;
      AllKnumOk(be, pt, strip);
      Need(4 + 6 * 5 + |pt.bc| * 4 + |pt.uv| * 2);
      ghost var was := data;
      Head(pt);
      ghost var e := EncHead(pt, strip);
      var code := Words(be, 4, pt.bc);
      var uvs := Words(be, 2, pt.uv);
      Block(code);
      Assoc(was, e, code);
      e := e + code;
      Block(uvs);
      Assoc(was, e, uvs);
      e := e + uvs;
      hide Valid;
      Kgcs(pt);
      Assoc(was, e, EncKgcs(pt.kgc));
      e := e + EncKgcs(pt.kgc);
      Knums(pt.knum);
      Assoc(was, e, EncKnums(pt.knum));
      e := e + EncKnums(pt.knum);
      Debug(pt);
      Assoc(was, e, EncDbg(be, pt, strip));
    }

    /** The debug information, unless it is stripped. */
    method Debug(pt: Proto<Table>)
      requires Valid()
      modifies this`n, this`data, this`buf, buf
      ensures Valid() && data == old(data) + EncDbg(be, pt, strip) && (fresh(buf) || buf == old(buf))
    {
      var dbg := EncDbg(be, pt, strip);
      if !strip && pt.dbg.Some? {
        assert |dbg| == DbgSize(pt.dbg.value);
        Need(DbgSize(pt.dbg.value));
        Block(dbg);
      } else {
        Empty(data);
      }
    }

    /** A call of `ctx->wfunc`. */
    method WFunc(bs: seq<byte>)
      requires status == 0
      modifies this`status, this`log
      ensures log == old(log) + [bs] && status == wfunc(|old(log)|, bs)
      ensures (log, status) == Handing(wfunc, old(log), 0, [bs])
    {
      log, status := log + [bs], wfunc(|log|, bs);
    }

    /** The end of `bcwrite_proto`: the size goes into the five bytes left free in front, right
        before the body. */
    method Flush(ghost body: seq<byte>)
      requires Valid() && n >= 5 && buf[5..n] == body && 1 <= |body| <= MAX_MEM
      modifies this`n, this`data, buf, this`status, this`log
      ensures Valid() && buf == old(buf)
      ensures (log, status) == Handing(wfunc, old(log), old(status), [U(|body|) + body])
    {
      if status == 0 {
        var size := n - 5;
        var nn := (Fls(size) + 8) * 9 / 64;
        SizeFieldLength(size);
        n, data := 5 - nn, buf[..5 - nn];
        ULeb(size);
        assert n == 5;
        assert buf[5 - nn..5] == U(size) by { assert buf[..5] == buf[..5 - nn] + buf[5 - nn..5]; }
        assert buf[5..5 + size] == body;
        assert buf[5 - nn..5 + size] == buf[5 - nn..5] + buf[5..5 + size];
        WFunc(buf[5 - nn..5 + size]);
      }
    }

    /** The first part of `bcwrite_proto`: the children, from the last constant to the first. */
    method WriteKids(pt: Proto<Table>)
      requires Valid() && ProtoOk(be, strip, pt)
      modifies this`n, this`data, this`buf, this`status, this`log, buf
      ensures Valid() && (fresh(buf) || buf == old(buf))
      ensures AllFit(FlatKids(pt, |pt.kgc|))
      ensures (log, status) == After(old(log), old(status), FlatKids(pt, |pt.kgc|))
      decreases pt, 0
    {
      hide AllFit, After, Flat, FlatKids, KidsDone, ProtoOk, Valid;
      AllFlatOk(be, strip, pt);
      ghost var done: seq<Proto<Table>> := [];
      NoKidsYet(pt);
      if pt.flags % 2 == 1 {
        var i := |pt.kgc|;
        while i > 0
          invariant 0 <= i <= |pt.kgc| && Valid() && (fresh(buf) || buf == old(buf))
          invariant KidsDone(pt, i, done) && AllFit(done)
          invariant (log, status) == After(old(log), old(status), done)
        {
          i := i - 1;
          if pt.kgc[i].Child? {
            KgcFits(be, strip, pt, i);
            WriteProto(pt.kgc[i].pt);
            OneMoreKid(pt, i, done, old(log), old(status));
            done := done + Flat(pt.kgc[i].pt);
          } else {
            NoMoreKid(pt, i, done);
          }
        }
        AllKidsDone(pt, done);
      } else {
        Childless(be, strip, pt, |pt.kgc|);
      }
    }

    /** `bcwrite_proto`. */
    method WriteProto(pt: Proto<Table>)
      requires Valid() && ProtoOk(be, strip, pt)
      modifies this`n, this`data, this`buf, this`status, this`log, buf
      ensures Valid() && (fresh(buf) || buf == old(buf))
      ensures AllFit(Flat(pt))
      ensures (log, status) == After(old(log), old(status), Flat(pt))
      decreases pt, 1
    {
      hide ProtoPieces, FlatKids, EncBody, ProtoOk, Handing;
      WriteKids(pt);
      AllFlatOk(be, strip, pt);
      ghost var kids := FlatKids(pt, |pt.kgc|);
      n, data := 0, [];
      Need(5);
      n, data := 5, buf[..5];
      Body(pt);
      assert buf[5..n] == EncBody(be, pt, strip);
      Flush(EncBody(be, pt, strip));
      OnePiece(be, strip, pt);
      AfterAppend(old(log), old(status), kids, [pt]);
    }

    method HeaderBytes(pt: Proto<Table>)
      requires Valid() && n == 0 && buf.Length >= 5
      modifies this`n, this`data, buf
      ensures Valid() && n == 5 && data == [HEAD1, HEAD2, HEAD3, VERSION, HeaderFlags(be, strip, pt)]
    {
      Byte(HEAD1);
      Byte(HEAD2);
      Byte(HEAD3);
      Byte(VERSION);
      Byte((if strip then F_STRIP else 0) + (if be then F_BE else 0) + if pt.flags / 4 % 2 == 1 then F_FFI else 0);
    }

    /** `bcwrite_header`. */
    method WriteHeader(pt: Proto<Table>, name: seq<byte>)
      requires Valid() && SmallStr(name) && status == 0
      modifies this`n, this`data, this`buf, this`status, this`log, buf
      ensures Valid() && (fresh(buf) || buf == old(buf))
      ensures (log, status) == Handing(wfunc, old(log), 0, [EncHeader(be, strip, pt, name)])
    {
      hide U, HeaderFlags;
      n, data := 0, [];
      Need(5 + 5 + |name|);
      HeaderBytes(pt);
      ghost var head := data;
      if !strip {
        AppendU(|name|);
        Block(name);
        Assoc(head, U(|name|), name);
      } else {
        Empty(head);
      }
      WFunc(buf[..n]);
    }

    /** What has been handed over, and the status, after some more prototypes. */
    function After(log: seq<seq<byte>>, status: int, pts: seq<Proto<Table>>): (seq<seq<byte>>, int)
      requires AllFit(pts)
    {
      Handing(wfunc, log, status, ProtoPieces(be, strip, pts))
    }

    lemma AfterAppend(log: seq<seq<byte>>, status: int, a: seq<Proto<Table>>, b: seq<Proto<Table>>)
      requires AllFit(a) && AllFit(b)
      ensures AllFit(a + b)
      ensures var r := After(log, status, a); After(r.0, r.1, b) == After(log, status, a + b)
    {
      PiecesAppend(be, strip, a, b);
      HandingAppend(wfunc, log, status, ProtoPieces(be, strip, a), ProtoPieces(be, strip, b));
    }

    lemma NoKidsYet(pt: Proto<Table>)
      ensures KidsDone(pt, |pt.kgc|, []) && AllFit([]) && forall log, status :: After(log, status, []) == (log, status)
    {}

    lemma OneMoreKid(pt: Proto<Table>, i: nat, done: seq<Proto<Table>>, log: seq<seq<byte>>, status: int)
      requires i < |pt.kgc| && pt.kgc[i].Child? && KidsDone(pt, i + 1, done)
      requires AllFit(done) && AllFit(Flat(pt.kgc[i].pt))
      ensures KidsDone(pt, i, done + Flat(pt.kgc[i].pt)) && AllFit(done + Flat(pt.kgc[i].pt))
      ensures var r := After(log, status, done);
              After(r.0, r.1, Flat(pt.kgc[i].pt)) == After(log, status, done + Flat(pt.kgc[i].pt))
    {
      hide Flat, After;
      var kid := Flat(pt.kgc[i].pt);
      assert done + (kid + FlatKids(pt, i)) == (done + kid) + FlatKids(pt, i);
      AfterAppend(log, status, done, kid);
    }

    /** `lj_bcwrite`: the writer function gets the pieces of the dump, up to the first one that it
        refuses. */
    method LjBcWrite(pt: Proto<Table>, name: seq<byte>)
      requires Valid() && ProtoOk(be, strip, pt) && SmallStr(name) && log == [] && status == 0
      modifies this`n, this`data, this`buf, this`status, this`log, buf
      ensures AllFit(Flat(pt)) && Handed(wfunc, Pieces(be, strip, pt, name), log, status)
      ensures status == 0 <==> Accepts(wfunc, Pieces(be, strip, pt, name))
      ensures status == 0 ==> Concat(log) == EncDump(be, strip, pt, name)
    {
      hide EncHeader, ProtoPieces, Flat, ProtoOk, Valid, Handing, Handed, Accepts, Concat, EncDump;
      WriteHeader(pt, name);
      WriteProto(pt);
      ghost var head, body := EncHeader(be, strip, pt, name), ProtoPieces(be, strip, Flat(pt));
      ghost var r := (log, status);
      if status == 0 {
        // bcwrite_footer
        WFunc([0]);
      }
      HandingStops(wfunc, r.0, r.1, [[0]]);
      HandingAppend(wfunc, Handing(wfunc, [], 0, [head]).0, Handing(wfunc, [], 0, [head]).1, body, [[0]]);
      HandingAppend(wfunc, [], 0, [head], body + [[0]]);
      AcceptsNone(wfunc);
      HandingMeaning(wfunc, [], Pieces(be, strip, pt, name));
      assert [] + Pieces(be, strip, pt, name) == Pieces(be, strip, pt, name);
      HandedAll(wfunc, Pieces(be, strip, pt, name), log, status);
      PiecesAreDump(be, strip, pt, name);
      if status == 0 { HandedFully(wfunc, Pieces(be, strip, pt, name), log); }
    }
  }

  /** Once the writer function has refused a piece, it gets no more. */
  lemma HandingStops(wfunc: Writer, log: seq<seq<byte>>, status: int, pieces: seq<seq<byte>>)
    ensures status != 0 ==> Handing(wfunc, log, status, pieces) == (log, status)
  {}

  lemma AcceptsNone(wfunc: Writer)
    ensures Accepts(wfunc, [])
  {}

  lemma HandedFully(wfunc: Writer, pieces: seq<seq<byte>>, log: seq<seq<byte>>)
    requires Handed(wfunc, pieces, log, 0)
    ensures log == pieces
  {}

  /** `done` are the written prototypes when the constants from i on are done. */
  predicate KidsDone(pt: Proto<Table>, i: nat, done: seq<Proto<Table>>) {
    i <= |pt.kgc| && FlatKids(pt, |pt.kgc|) == done + FlatKids(pt, i)
  }

  lemma NoMoreKid(pt: Proto<Table>, i: nat, done: seq<Proto<Table>>)
    requires i < |pt.kgc| && !pt.kgc[i].Child? && KidsDone(pt, i + 1, done)
    ensures KidsDone(pt, i, done)
  {
    assert FlatKids(pt, i + 1) == FlatKids(pt, i);
  }

  lemma AllKidsDone(pt: Proto<Table>, done: seq<Proto<Table>>)
    requires KidsDone(pt, 0, done)
    ensures done == FlatKids(pt, |pt.kgc|)
  {
    assert done + [] == done;
  }

  lemma KgcFits(be: bool, strip: bool, pt: Proto<Table>, i: nat)
    requires ProtoOk(be, strip, pt) && i < |pt.kgc| && pt.kgc[i].Child?
    ensures ProtoOk(be, strip, pt.kgc[i].pt)
  {
    assert KgcOk(be, strip, pt, pt.kgc[i]);
  }

  lemma OnePiece(be: bool, strip: bool, pt: Proto<Table>)
    requires |pt.uv| < 256
    ensures ProtoPieces(be, strip, [pt]) == [U(|EncBody(be, pt, strip)|) + EncBody(be, pt, strip)]
  {
    hide EncBody;
    assert ProtoPieces(be, strip, [pt]) == [EncOne(be, pt, strip)] + ProtoPieces(be, strip, []);
  }

  lemma {:induction false} NoNodes(node: seq<(TValue, TValue)>)
    requires UsedNodes(node) == 0
    ensures EncNodes(node) == []
  {
    if node != [] { NoNodes(node[..|node| - 1]); }
  }

  /** The size of the debug information is a 32 bit number. */
  lemma DbgFits(be: bool, pt: Proto<Table>, strip: bool)
    requires ProtoOk(be, strip, pt) && !strip && pt.dbg.Some?
    ensures 0 < DbgSize(pt.dbg.value) <= MAX_MEM
  {
    var d := EncDbg(be, pt, strip);
    assert |d| == DbgSize(pt.dbg.value);
    assert |EncBody(be, pt, strip)| >= |d|;
  }

  lemma HeadFits(be: bool, pt: Proto<Table>, strip: bool)
    requires ProtoOk(be, strip, pt)
    ensures |pt.uv| < 256 && |pt.kgc| <= MAX_MEM && |pt.knum| <= MAX_MEM && |pt.bc| <= MAX_MEM
  {}

  lemma AllKnumOk(be: bool, pt: Proto<Table>, strip: bool)
    requires ProtoOk(be, strip, pt)
    ensures |pt.uv| < 256 && forall i :: 0 <= i < |pt.knum| ==> KnumOk(pt.knum[i])
  {}

  lemma CountsFit(node: seq<(TValue, TValue)>)
    ensures UsedNodes(node) <= |node|
  {}

  lemma NoArray(a: seq<TValue>)
    requires a == []
    ensures EncArray(a) == []
  {}

  lemma AllFlatOk(be: bool, strip: bool, pt: Proto<Table>)
    requires ProtoOk(be, strip, pt)
    ensures AllFit(Flat(pt))
    ensures AllFit(FlatKids(pt, |pt.kgc|))
    ensures |pt.uv| < 256 && 1 <= |EncBody(be, pt, strip)| <= MAX_MEM
  {
    forall p | p in Flat(pt)
      ensures |p.uv| < 256
    {
      FlatOk(be, strip, pt, p);
    }
    assert Flat(pt) == FlatKids(pt, |pt.kgc|) + [pt];
    assert |EncHead(pt, strip)| >= 4;
  }

  /** Only a prototype with PROTO_CHILD set has children. */
  lemma {:induction false} Childless(be: bool, strip: bool, pt: Proto<Table>, n: nat)
    requires ProtoOk(be, strip, pt) && pt.flags % 2 == 0 && n <= |pt.kgc|
    ensures FlatKids(pt, n) == []
  {
    hide ProtoOk;
    if n > 0 {
      NoChild(be, strip, pt, n - 1);
      Childless(be, strip, pt, n - 1);
    }
  }

  lemma NoChild(be: bool, strip: bool, pt: Proto<Table>, i: nat)
    requires ProtoOk(be, strip, pt) && pt.flags % 2 == 0 && i < |pt.kgc|
    ensures !pt.kgc[i].Child?
  {
    assert KgcOk(be, strip, pt, pt.kgc[i]);
  }
}
