/** `lj_bcread` (luajit/lj_bcread.c): whole dumps, and the round trip from the writer to the
    reader over any chunks. */
module BcLoad {
  import opened BcFormat
  import opened BcTree
  import opened BcInput
  import opened BcReadProto
  import opened BcWrite

  /** What is left of a dump: some prototypes and the terminator, and what follows it. */
  function EncRest(be: bool, strip: bool, pts: seq<Proto<Table>>, extra: seq<byte>): seq<byte>
    requires AllFit(pts)
  {
    EncAll(be, strip, pts) + ([0] + extra)
  }

  ghost predicate AllOk(be: bool, strip: bool, pts: seq<Proto<Table>>) {
    forall i :: 0 <= i < |pts| ==> ProtoOk(be, strip, pts[i])
  }

  lemma RestSplit(be: bool, strip: bool, pts: seq<Proto<Table>>, extra: seq<byte>)
    requires pts != [] && AllOk(be, strip, pts)
    ensures AllFit(pts) && AllFit(pts[1..]) && AllOk(be, strip, pts[1..]) && |pts[0].uv| < 256
    ensures var body := EncBody(be, pts[0], strip);
            && 7 <= |body| <= MAX_MEM && |U(|body|)| <= 5
            && EncRest(be, strip, pts, extra) == U(|body|) + (body + EncRest(be, strip, pts[1..], extra))
            && EncRest(be, strip, pts, extra)[0] != 0
  {
    hide EncBody, U;
    forall i | 0 <= i < |pts|
      ensures |pts[i].uv| < 256
    {
      HeadFits(be, pts[i], strip);
    }
    var body, more := EncBody(be, pts[0], strip), EncAll(be, strip, pts[1..]);
    BodySize(be, strip, pts[0]);
    USizeBounds(|body|);
    var last := [0] + extra;
    Assoc(U(|body|) + body, more, last);
    Assoc(U(|body|), body, more + last);
    UFirst(|body|, EncRest(be, strip, pts, extra), body + (more + last));
  }

  lemma BodySize(be: bool, strip: bool, pt: Proto<Table>)
    requires ProtoOk(be, strip, pt)
    ensures |pt.uv| < 256 && 7 <= |EncBody(be, pt, strip)| <= MAX_MEM
  {
    hide U;
    assert |EncSizes(pt)| >= 7;
    assert |EncHead(pt, strip)| >= 7;
  }

  /** `bcread_proto` reads one prototype, or the terminator.  An error is raised exactly if the
      stack holds too few children; the end of the input is not noticed before the terminator. */
  method ReadProto(ls: LexState, ghost strip: bool, ghost pts: seq<Proto<Table>>, ghost extra: seq<byte>)
    returns (bad: bool, r: Option<Proto<RTab>>)
    requires ls.Valid() && ls.current >= 0 && ls.oldtop <= |ls.stack| && StripFlag(ls.level) == strip
    requires AllOk(BeFlag(ls.level), strip, pts) && AllFit(pts)
    requires ls.Unread() == EncRest(BeFlag(ls.level), strip, pts, extra)
    modifies ls`buf, ls.buf, ls`sbn, ls`chunk, ls`off, ls`n, ls`current, ls`chunks, ls`data, ls`stack
    ensures ls.Valid() && (fresh(ls.buf) || ls.buf == old(ls.buf))
    ensures bad <==> pts != [] && Kids(pts[0]) > old(|ls.stack|) - ls.oldtop
    ensures pts == [] ==> r == None && ls.Unread() == extra && ls.stack == old(ls.stack)
    ensures pts != [] && !bad ==>
              && r == Some(Built(pts[0], strip, old(ls.stack))) && ls.current == old(ls.current)
              && ls.stack == old(ls.stack)[..old(|ls.stack|) - Kids(pts[0])]
              && AllFit(pts[1..]) && ls.Unread() == EncRest(BeFlag(ls.level), strip, pts[1..], extra)
  {
    hide EncRest, EncBody, U, Built, Kids, ProtoOk, AllOk, AllFit;
    ghost var be := BeFlag(ls.level);
    if pts != [] { RestSplit(be, strip, pts, extra); }
    ghost var body := if pts == [] then [] else EncBody(be, pts[0], strip);
    ghost var more := if pts == [] then extra else EncRest(be, strip, pts[1..], extra);
    NextBody(be, strip, pts, extra, body, more);
    r := None;
    var len;
    bad, len := ReadLength(ls, body, more);
    if bad || len == 0 { return; }
    var startn := ls.n;
    TakeDrop(ls.data, len, body, Concat(ls.chunks), more);
    var pt;
    bad, pt := ReadBody(ls, strip, pts[0], ls.data[len..]);
    if bad { return; }
    if len != startn - ls.n { return true, None; }
    r := Some(pt);
  }

  /** A prototype or the terminator: a length, and that many bytes. */
  lemma NextBody(be: bool, strip: bool, pts: seq<Proto<Table>>, extra: seq<byte>, body: seq<byte>, more: seq<byte>)
    requires AllOk(be, strip, pts) && AllFit(pts)
    requires if pts == [] then body == [] && more == extra
             else AllFit(pts[1..]) && body == EncBody(be, pts[0], strip) && more == EncRest(be, strip, pts[1..], extra)
    ensures |body| <= MAX_MEM && |U(|body|)| <= 5
    ensures if pts == [] then body == [] else |body| >= 7 && ProtoOk(be, strip, pts[0]) && |pts[0].uv| < 256
    ensures EncRest(be, strip, pts, extra) == U(|body|) + (body + more)
  {
    if pts == [] {
      assert EncRest(be, strip, pts, extra) == [0] + ([] + extra);
    } else {
      RestSplit(be, strip, pts, extra);
    }
  }

  lemma TakeDrop(data: seq<byte>, len: nat, body: seq<byte>, chunks: seq<byte>, more: seq<byte>)
    requires len == |body| <= |data| && data + chunks == body + more
    ensures data == body + data[len..] && data[len..] + chunks == more
  {
    assert (data + chunks)[..len] == data[..len] && (body + more)[..len] == body;
    assert (data + chunks)[len..] == data[len..] + chunks && (body + more)[len..] == more;
  }

  /** The start of `bcread_proto`: the length of a prototype, which is then in the buffer, or the
      terminator, which may be there without any byte following it. */
  method ReadLength(ls: LexState, ghost body: seq<byte>, ghost more: seq<byte>) returns (bad: bool, len: nat)
    requires ls.Valid() && ls.current >= 0 && |body| <= MAX_MEM && |U(|body|)| <= 5
    requires body == [] || |body| >= 5
    requires ls.Unread() == U(|body|) + (body + more)
    modifies ls`buf, ls.buf, ls`sbn, ls`chunk, ls`off, ls`n, ls`current, ls`chunks, ls`data
    ensures ls.Valid() && (fresh(ls.buf) || ls.buf == old(ls.buf)) && !bad && len == |body|
    ensures if body == [] then ls.Unread() == more
            else ls.current == old(ls.current) && len <= ls.n && ls.Unread() == body + more
  {
    hide U, Concat;
    bad, len := false, 0;
    UFirst(|body|, ls.Unread(), body + more);
    Empty(more);
    if ls.n > 0 {
      OneByte(ls.data, Concat(ls.chunks));
      var b := ls.Peek(ls.off);
      if b == 0 {
        b := ls.Byte();
        return;
      }
    }
    bad := ls.Need(5, false);
    ghost var size := |U(|body|)|;
    assert size <= ls.n;
    TakeDrop(ls.data, size, U(|body|), Concat(ls.chunks), body + more);
    len := ls.ULeb(|body|, ls.data[size..]);
    if len == 0 { return; }
    bad := ls.Need(len, true);
  }

  lemma OneByte(data: seq<byte>, chunks: seq<byte>)
    requires data != []
    ensures (data + chunks)[0] == data[0] && (data + chunks)[1..] == data[1..] + chunks
  {}

  /** `bcread_header`: accepted exactly if the magic bytes and the version are right and there are
      no unknown flags. */
  method ReadHeader(ls: LexState, chunkarg: seq<byte>, ghost magic: seq<byte>, ghost f: u32, ghost name: seq<byte>,
                    ghost more: seq<byte>) returns (bad: bool, ok: bool, chunkname: seq<byte>)
    requires ls.Valid() && ls.current >= 0 && |magic| == 3 && |name| <= MAX_MEM && |ls.Unread()| >= 13
    requires ls.Unread() == magic + (U(f) + (EncName(StripFlag(f), name) + more))
    modifies ls`buf, ls.buf, ls`sbn, ls`chunk, ls`off, ls`n, ls`current, ls`chunks, ls`data, ls`level
    ensures ls.Valid() && (fresh(ls.buf) || ls.buf == old(ls.buf)) && !bad && ls.current == old(ls.current)
    ensures ok <==> magic == [HEAD2, HEAD3, VERSION] && f <= F_KNOWN
    ensures ok ==> ls.level == f && ls.Unread() == more && chunkname == if StripFlag(f) then chunkarg else name
  {
    hide U;
    ghost var named := EncName(StripFlag(f), name) + more;
    ok, chunkname := false, chunkarg;
    bad := ls.Need(3 + 5 + 5, false);
    TakeDrop(ls.data, 3, magic, Concat(ls.chunks), U(f) + named);
    var matches := ReadMagic(ls, magic, ls.data[3..]);
    if !matches { return; }
    USizeBounds(f);
    TakeDrop(ls.data, |U(f)|, U(f), Concat(ls.chunks), named);
    var flags := ls.ULeb(f, ls.data[|U(f)|..]);
    ls.level := flags;
    if flags > F_KNOWN { return; }
    ok := true;
    if !StripFlag(flags) {
      bad, chunkname := ReadName(ls, name, more);
    } else {
      Empty(more);
    }
  }

  /** The name in the header; a part of its length is in the buffer already. */
  method ReadName(ls: LexState, ghost name: seq<byte>, ghost more: seq<byte>) returns (bad: bool, chunkname: seq<byte>)
    requires ls.Valid() && ls.current >= 0 && |name| <= MAX_MEM && (ls.n >= 5 || ls.n == |ls.Unread()|)
    requires ls.Unread() == (U(|name|) + name) + more
    modifies ls`buf, ls.buf, ls`sbn, ls`chunk, ls`off, ls`n, ls`current, ls`chunks, ls`data
    ensures ls.Valid() && (fresh(ls.buf) || ls.buf == old(ls.buf)) && !bad && ls.current == old(ls.current)
    ensures ls.Unread() == more && chunkname == name
  {
    hide U;
    Assoc(U(|name|), name, more);
    USizeBounds(|name|);
    TakeDrop(ls.data, |U(|name|)|, U(|name|), Concat(ls.chunks), name + more);
    var len := ls.ULeb(|name|, ls.data[|U(|name|)|..]);
    bad := ls.Need(len, true);
    TakeDrop(ls.data, len, name, Concat(ls.chunks), more);
    chunkname := ls.Mem(len);
  }

  method ReadMagic(ls: LexState, ghost magic: seq<byte>, ghost tail: seq<byte>) returns (ok: bool)
    requires ls.Valid() && |magic| == 3 && ls.data == magic + tail
    modifies ls`off, ls`n, ls`data
    ensures ls.Valid() && (ok <==> magic == [HEAD2, HEAD3, VERSION]) && (ok ==> ls.data == tail)
  {
    var b := ls.Byte();
    if b != HEAD2 { return false; }
    b := ls.Byte();
    if b != HEAD3 { return false; }
    b := ls.Byte();
    ok := b == VERSION;
  }

  datatype Error = BCFMT | BCBAD
  datatype Result = Loaded(pt: Proto<RTab>, chunkname: seq<byte>) | Failed(error: Error)

  /** Every prototype finds its children above the stack level base, and one prototype is left. */
  predicate Complete(pts: seq<Proto<Table>>, strip: bool, stack: Stack, base: nat) {
    Feedable(pts, strip, stack, base) && |Feed(pts, strip, stack, base)| == base + 1
  }

  lemma {:induction false} FeedKeepsBelow(pts: seq<Proto<Table>>, strip: bool, stack: Stack, base: nat)
    requires Feedable(pts, strip, stack, base)
    ensures base <= |Feed(pts, strip, stack, base)| && Feed(pts, strip, stack, base)[..base] == stack[..base]
    decreases |pts|
  {
    if pts != [] { FeedKeepsBelow(pts[1..], strip, Push(pts[0], strip, stack), base); }
  }

  /** The loop of `lj_bcread`. */
  method ReadProtos(ls: LexState, ghost strip: bool, ghost all: seq<Proto<Table>>, ghost extra: seq<byte>) returns (bad: bool)
    requires ls.Valid() && ls.current >= 0 && ls.oldtop == |ls.stack| && StripFlag(ls.level) == strip
    requires AllOk(BeFlag(ls.level), strip, all) && AllFit(all)
    requires ls.Unread() == EncRest(BeFlag(ls.level), strip, all, extra)
    modifies ls`buf, ls.buf, ls`sbn, ls`chunk, ls`off, ls`n, ls`current, ls`chunks, ls`data, ls`stack
    ensures ls.Valid() && (bad <==> !Feedable(all, strip, old(ls.stack), ls.oldtop))
    ensures !bad ==> ls.Unread() == extra && ls.stack == Feed(all, strip, old(ls.stack), ls.oldtop)
  {
    hide EncRest, Built, Kids, ProtoOk, AllOk, AllFit;
    ghost var pts := all;
    while true
      invariant ls.Valid() && ls.current >= 0 && ls.oldtop <= |ls.stack| && (fresh(ls.buf) || ls.buf == old(ls.buf))
      invariant AllOk(BeFlag(ls.level), strip, pts) && AllFit(pts)
      invariant ls.Unread() == EncRest(BeFlag(ls.level), strip, pts, extra)
      invariant Feedable(all, strip, old(ls.stack), ls.oldtop) <==> Feedable(pts, strip, ls.stack, ls.oldtop)
      invariant Feedable(pts, strip, ls.stack, ls.oldtop) ==>
                  Feed(all, strip, old(ls.stack), ls.oldtop) == Feed(pts, strip, ls.stack, ls.oldtop)
      decreases |pts|
    {
      ghost var before := ls.stack;
      var r;
      bad, r := ReadProto(ls, strip, pts, extra);
      if bad { return; }
      if r.None? { break; }
      ls.stack := ls.stack + [r.value];
      assert ls.stack == Push(pts[0], strip, before);
      RestOk(BeFlag(ls.level), strip, pts);
      pts := pts[1..];
    }
  }

  lemma RestOk(be: bool, strip: bool, pts: seq<Proto<Table>>)
    requires pts != [] && AllOk(be, strip, pts)
    ensures AllOk(be, strip, pts[1..])
  {}

  /** `lj_bcread` on any sequence of prototypes behind any header: the dump is accepted exactly if
      the header is right, every prototype finds its children, one is left, and no byte is left in
      the buffer.  So bytes behind the terminator are an error exactly if some of them are in the
      buffer when it has been read.  What lies beneath on the stack is left alone. */
  method LjBcRead(ls: LexState, chunkarg: seq<byte>, ghost magic: seq<byte>, ghost f: u32, ghost name: seq<byte>,
                  ghost pts: seq<Proto<Table>>, ghost extra: seq<byte>) returns (r: Result)
    requires ls.Valid() && ls.current == HEAD1 as int && ls.oldtop == |ls.stack|
    requires pts != [] && AllOk(BeFlag(f), StripFlag(f), pts) && AllFit(pts) && |magic| == 3 && |name| <= MAX_MEM
    requires ls.Unread() == magic + (U(f) + (EncName(StripFlag(f), name) + EncRest(BeFlag(f), StripFlag(f), pts, extra)))
    modifies ls`buf, ls.buf, ls`sbn, ls`chunk, ls`off, ls`n, ls`current, ls`chunks, ls`data, ls`level, ls`stack
    ensures r == Failed(BCFMT) <==> !(magic == [HEAD2, HEAD3, VERSION] && f <= F_KNOWN)
    ensures r.Loaded? <==> magic == [HEAD2, HEAD3, VERSION] && f <= F_KNOWN
                           && Complete(pts, StripFlag(f), old(ls.stack), ls.oldtop) && ls.n == 0
    ensures magic == [HEAD2, HEAD3, VERSION] && f <= F_KNOWN && Complete(pts, StripFlag(f), old(ls.stack), ls.oldtop) ==>
              ls.Valid() && ls.Unread() == extra
    ensures r.Loaded? ==> ls.stack == old(ls.stack) && r.chunkname == if StripFlag(f) then chunkarg else name
    ensures r.Loaded? ==> r.pt == Feed(pts, StripFlag(f), old(ls.stack), ls.oldtop)[ls.oldtop]
  {
    hide U, EncRest, EncName, AllOk, AllFit, Feed, Feedable;
    ghost var strip := StripFlag(f);
    EnoughBytes(BeFlag(f), strip, f, name, pts, extra);
    var bad, ok, chunkname := ReadHeader(ls, chunkarg, magic, f, name, EncRest(BeFlag(f), strip, pts, extra));
    if bad { return Failed(BCBAD); }
    if !ok { return Failed(BCFMT); }
    bad := ReadProtos(ls, strip, pts, extra);
    if bad { return Failed(BCBAD); }
    FeedKeepsBelow(pts, strip, old(ls.stack), ls.oldtop);
    if ls.n > 0 || |ls.stack| - 1 != ls.oldtop { return Failed(BCBAD); }
    r := Loaded(ls.stack[|ls.stack| - 1], chunkname);
    ls.stack := ls.stack[..|ls.stack| - 1];
    assert ls.stack == old(ls.stack);
  }

  /** The reader may ask for 13 bytes at once: every dump is that long. */
  lemma EnoughBytes(be: bool, strip: bool, f: u32, name: seq<byte>, pts: seq<Proto<Table>>, extra: seq<byte>)
    requires pts != [] && AllOk(be, strip, pts) && AllFit(pts)
    ensures |U(f) + (EncName(strip, name) + EncRest(be, strip, pts, extra))| >= 10
  {
    hide U, EncBody, EncAll;
    RestSplit(be, strip, pts, extra);
    assert |EncRest(be, strip, pts[1..], extra)| >= 1 by {
      assert EncRest(be, strip, pts[1..], extra) == EncAll(be, strip, pts[1..]) + ([0] + extra);
    }
  }

  /** Loads the dump of a tree: for every split into chunks, in either byte order of the writer
      and of the machine, the result is the same tree. */
  method Load(host: bool, chunks: seq<seq<byte>>, chunkarg: seq<byte>, stack: Stack,
              ghost be: bool, ghost strip: bool, ghost pt: Proto<Table>, ghost name: seq<byte>) returns (r: Result)
    requires ProtoOk(be, strip, pt) && SmallStr(name) && AllFit(Flat(pt))
    requires Chunks(chunks) && Concat(chunks) == EncDump(be, strip, pt, name)
    ensures r == Loaded(Normal(pt, strip), if strip then chunkarg else name)
    ensures SameProto(pt, r.pt, strip)
  {
    hide EncDump, Feed, Feedable, Flat, Normal, EncName, ProtoOk, SameProto;
    NormalIsSame(be, pt, strip);
    ghost var f := HeaderFlags(be, strip, pt);
    DumpSplit(be, strip, pt, name);
    assert chunks != [];
    var ls := new LexState(host, stack, chunks[0], chunks[1..]);
    FirstByte(chunks, EncDump(be, strip, pt, name));
    AllFlatInOrder(be, strip, pt);
    TreeRebuilt(pt, strip, stack, |stack|);
    r := LjBcRead(ls, chunkarg, [HEAD2, HEAD3, VERSION], f, name, Flat(pt), []);
  }

  lemma FirstByte(chunks: seq<seq<byte>>, s: seq<byte>)
    requires Chunks(chunks) && Concat(chunks) == s != []
    ensures chunks != [] && chunks[0] != [] && chunks[0][0] == s[0] && chunks[0][1..] + Concat(chunks[1..]) == s[1..]
  {
    assert s == chunks[0] + Concat(chunks[1..]);
  }

  lemma AllFlatInOrder(be: bool, strip: bool, pt: Proto<Table>)
    requires ProtoOk(be, strip, pt)
    ensures AllOk(be, strip, Flat(pt)) && Flat(pt) != []
  {
    forall i | 0 <= i < |Flat(pt)|
      ensures ProtoOk(be, strip, Flat(pt)[i])
    {
      FlatOk(be, strip, pt, Flat(pt)[i]);
    }
  }

  lemma DumpSplit(be: bool, strip: bool, pt: Proto<Table>, name: seq<byte>)
    requires AllFit(Flat(pt))
    ensures var f, s := HeaderFlags(be, strip, pt), EncDump(be, strip, pt, name);
            && f <= F_KNOWN && BeFlag(f) == be && StripFlag(f) == strip && s != [] && s[0] == HEAD1
            && s[1..] == [HEAD2, HEAD3, VERSION] + (U(f) + (EncName(strip, name) + EncRest(be, strip, Flat(pt), [])))
  {
    hide EncName, EncAll, Flat;
    var f, n, all := HeaderFlags(be, strip, pt), EncName(strip, name), EncAll(be, strip, Flat(pt));
    assert U(f) == [f];
    var h := [HEAD1, HEAD2, HEAD3, VERSION, f];
    Empty([0]);
    Assoc(h + n, all, [0]);
    Assoc(h, n, all + [0]);
    assert h == [HEAD1] + ([HEAD2, HEAD3, VERSION] + [f]);
    Assoc([HEAD1], [HEAD2, HEAD3, VERSION] + [f], n + (all + [0]));
    Assoc([HEAD2, HEAD3, VERSION], [f], n + (all + [0]));
  }

  /** Writing and reading back, with any chunks in between: the tree is rebuilt, exactly unless the
      writer function refuses a piece.  It gets the pieces up to the one that it refuses. */
  method DumpThenLoad(writer: bool, reader: bool, strip: bool, pt: Proto<Table>, name: seq<byte>, chunkarg: seq<byte>,
                      wfunc: Writer, split: seq<byte> -> seq<seq<byte>>)
    returns (status: int, log: seq<seq<byte>>, r: Result)
    requires ProtoOk(writer, strip, pt) && SmallStr(name)
    requires forall bs :: Chunks(split(bs)) && Concat(split(bs)) == bs
    ensures AllFit(Flat(pt)) && Handed(wfunc, Pieces(writer, strip, pt, name), log, status)
    ensures status == 0 <==> Accepts(wfunc, Pieces(writer, strip, pt, name))
    ensures status == 0 ==> r.Loaded? && SameProto(pt, r.pt, strip) && r.chunkname == (if strip then chunkarg else name)
  {
    hide EncDump, ProtoOk, Normal, Flat, Pieces, Handed, Accepts, Concat, SameProto;
    var ctx := new BCWriteCtx(writer, strip, wfunc);
    ctx.LjBcWrite(pt, name);
    status, log, r := ctx.status, ctx.log, Failed(BCBAD);
    if status == 0 {
      r := Load(reader, split(Concat(log)), chunkarg, [], writer, strip, pt, name);
    }
  }
}
