/** `lj_alloc_f` (luajit/lj_alloc.c) as its client sees it: whole runs of allocations, changes of
    size, releases, and writes by the owner of a block. */
module AllocClient {
  import opened Bits
  import opened AllocMem
  import opened AllocBytes
  import opened AllocBins
  import opened AllocHeap
  import opened AllocSteps
  import opened AllocMalloc
  import opened AllocFree
  import opened AllocRequest
  import opened AllocSplice
  import opened AllocSys
  import opened AllocSystem
  import opened AllocRealloc

  // ---------------------------------------------------------------- lj_alloc_f

  /** `lj_alloc_f`. */
  method LjAllocF(ms: MallocState, ptr: int, nsize: nat) returns (mem: int)
    requires (ptr == 0 || (Block(ms.chunks, ptr) && ms.chunks[ptr - 16].size >= CHUNK_OVERHEAD)) && nsize < W64
    requires Valid(ms) && SpaceOk(ms)
    modifies ms
    ensures mem == 0 && nsize != 0 ==> old(Unserved(ms, nsize) || nsize >= MAX_REQUEST)
    ensures ptr == 0 && nsize != 0 ==> (mem == 0 <==> old(Unserved(ms, nsize)))
    ensures SpaceOk(ms) && AskedOnce(ms, old(ms.asks), nsize, if nsize == 0 then 1 else mem, old(HeapFull(ms, nsize)))
    ensures nsize == 0 ==> mem == 0 && (ptr != 0 ==> Freed(ms.chunks, ptr - 16))
    ensures mem == 0 && nsize != 0 ==> ms.mem == old(ms.mem) && ms.chunks == old(ms.chunks)
    ensures mem != 0 ==> mem > 16 && Holding(ms.chunks, mem, nsize) && nsize < MAX_REQUEST
    ensures mem != 0 && mem != ptr ==> Freed(old(ms.chunks), mem - 16)
    ensures mem != 0 && ptr != 0 ==> Same(old(ms.mem), ptr, ms.mem, mem, KeptBytes(old(ms.chunks), ptr, nsize))
    ensures Valid(ms) && Preserves(old(ms.mem), old(ms.chunks), ms.mem, ms.chunks, if ptr == 0 then {} else {ptr - 16})
  {
    hide HeapFull, Chosen, HeapOk, BinsOk, Preserves, FreeOf, NoFit, RequestToSize, Same, SameSpace, Answers, Unserved, AsksFor;
    if nsize == 0 {
      LjAllocFree(ms, ptr);
      mem := 0;
    } else if ptr == 0 {
      mem := LjAllocMalloc(ms, nsize);
    } else {
      mem := LjAllocRealloc(ms, ptr, nsize);
    }
  }

  // ---------------------------------------------------------------- the client

  /** A live block: where it is, how many bytes were asked for, and what they hold. */
  datatype Live = Live(mem: int, size: nat, data: seq<int>)

  datatype Op =
    | New(n: nat)                       // lj_alloc_f(NULL, n)
    | Resize(i: nat, n: nat)            // lj_alloc_f(block i, n); n == 0 releases it
    | Store(i: nat, k: nat, v: int)     // the owner writes byte k of block i

  /** What the allocator answered: an address, or 0, what was found in memory there, and how often
      the system was called for memory so far. */
  datatype Outcome = Outcome(mem: int, found: seq<int>, calls: nat)

  /** The first bytes of a block that is resized are kept; the others are as they were found. */
  function Overlay(data: seq<int>, found: seq<int>): seq<int> {
    if |data| <= |found| then data + found[|data|..] else data[..|found|]
  }

  /** The client's view of one operation. */
  function Step(live: seq<Live>, op: Op, out: Outcome): seq<Live> {
    match op
    case New(n) => if out.mem == 0 then live else live + [Live(out.mem, n, out.found)]
    case Resize(i, n) =>
      if i >= |live| then live
      else if n == 0 then live[..i] + live[i + 1..]
      else if out.mem == 0 then live
      else live[i := Live(out.mem, n, Overlay(live[i].data, out.found))]
    case Store(i, k, v) =>
      if i < |live| && k < |live[i].data| then live[i := live[i].(data := live[i].data[k := v])] else live
  }

  function Replay(ops: seq<Op>, outs: seq<Outcome>): seq<Live>
    requires |ops| == |outs|
  {
    if ops == [] then [] else Step(Replay(ops[..|ops| - 1], outs[..|ops| - 1]), ops[|ops| - 1], outs[|ops| - 1])
  }

  // ---------------------------------------------------------------- the allocator keeps its promise

  /** The block is in use, large enough, and holds what its owner expects. */
  ghost predicate Kept1(m: Mem, cs: Chunks, b: Live) {
    && b.mem > 16 && b.mem % 8 == 0 && Holding(cs, b.mem, b.size) && b.size < MAX_REQUEST && |b.data| == b.size
    && forall k :: 0 <= k < |b.data| ==> ByteAt(m, b.mem + k) == b.data[k]
  }

  ghost predicate Promise(m: Mem, cs: Chunks, live: seq<Live>) {
    && (forall i :: 0 <= i < |live| ==> Kept1(m, cs, live[i]))
    && (forall i, j :: 0 <= i < |live| && 0 <= j < |live| && i != j ==> live[i].mem != live[j].mem)
  }

  /** No two blocks overlap. */
  predicate AllApart(live: seq<Live>) {
    && (forall i :: 0 <= i < |live| ==> live[i].mem > 0 && live[i].mem % 8 == 0)
    && (forall i, j :: 0 <= i < |live| && 0 <= j < |live| && i != j ==>
          live[i].mem + live[i].size <= live[j].mem || live[j].mem + live[j].size <= live[i].mem)
  }

  lemma BlocksApart(ms: MallocState, live: seq<Live>)
    requires HeapValid(ms) && Promise(ms.mem, ms.chunks, live)
    ensures AllApart(live)
  {
    hide HeapOk, RequestToSize;
    forall i | 0 <= i < |live|
      ensures live[i].mem > 0 && live[i].mem % 8 == 0
    {
      assert Kept1(ms.mem, ms.chunks, live[i]);
      AllocRealloc.Apart(ms, live[i].mem - 16, live[i].mem - 16);
    }
    forall i, j | 0 <= i < |live| && 0 <= j < |live| && i != j
      ensures live[i].mem + live[i].size <= live[j].mem || live[j].mem + live[j].size <= live[i].mem
    {
      assert Kept1(ms.mem, ms.chunks, live[i]) && Kept1(ms.mem, ms.chunks, live[j]);
      AllocRealloc.Apart(ms, live[i].mem - 16, live[j].mem - 16);
      RequestFits(live[i].size);
      RequestFits(live[j].size);
    }
  }

  /** A block that is not touched holds what it did. */
  lemma StillKept(m: Mem, cs: Chunks, m1: Mem, cs1: Chunks, out: set<int>, b: Live)
    requires Preserves(m, cs, m1, cs1, out) && Kept1(m, cs, b) && b.mem - 16 !in out
    ensures Kept1(m1, cs1, b)
  {
    hide RequestToSize, Preserves, ByteAt;
    RequestFits(b.size);
    PreservesAt(m, cs, m1, cs1, out, b.mem - 16);
    forall k | 0 <= k < |b.data|
      ensures ByteAt(m1, b.mem + k) == b.data[k]
    {
      ByteIn(m, b.mem, k);
      ByteIn(m1, b.mem, k);
      assert 8 * (k / 8) <= k;
    }
  }

  /** What is read from a block. */
  method ReadBytes(m: Mem, a: int, n: nat) returns (bs: seq<int>)
    ensures |bs| == n && forall k :: 0 <= k < n ==> bs[k] == ByteAt(m, a + k)
  {
    bs := [];
    for i := 0 to n
      invariant |bs| == i && forall k :: 0 <= k < i ==> bs[k] == ByteAt(m, a + k)
    {
      bs := bs + [ByteAt(m, a + i)];
    }
  }

  lemma PromiseNew(m: Mem, cs: Chunks, m1: Mem, cs1: Chunks, live: seq<Live>, b: Live)
    requires Promise(m, cs, live) && Preserves(m, cs, m1, cs1, {}) && Kept1(m1, cs1, b) && Freed(cs, b.mem - 16)
    ensures Promise(m1, cs1, live + [b])
  {
    hide Preserves, Kept1;
    forall i | 0 <= i < |live|
      ensures Kept1(m1, cs1, live[i]) && live[i].mem != b.mem
    {
      StillKept(m, cs, m1, cs1, {}, live[i]);
      IsBlock(m, cs, live[i]);
    }
  }

  lemma IsBlock(m: Mem, cs: Chunks, b: Live)
    requires Kept1(m, cs, b)
    ensures Block(cs, b.mem) && b.mem > 16 && b.mem % 8 == 0 && b.size < MAX_REQUEST && |b.data| == b.size
    ensures cs[b.mem - 16].size >= b.size + 8 && cs[b.mem - 16].size >= 8
  {
    RequestFits(b.size);
  }

  lemma PromiseFreed(m: Mem, cs: Chunks, m1: Mem, cs1: Chunks, live: seq<Live>, i: nat)
    requires Promise(m, cs, live) && i < |live| && Preserves(m, cs, m1, cs1, {live[i].mem - 16})
    ensures Promise(m1, cs1, live[..i] + live[i + 1..])
  {
    hide Preserves, Kept1;
    var rest := live[..i] + live[i + 1..];
    forall j | 0 <= j < |rest|
      ensures Kept1(m1, cs1, rest[j])
    {
      var l := if j < i then j else j + 1;
      assert rest[j] == live[l] && l != i;
      StillKept(m, cs, m1, cs1, {live[i].mem - 16}, live[l]);
    }
    forall j, k | 0 <= j < |rest| && 0 <= k < |rest| && j != k
      ensures rest[j].mem != rest[k].mem
    {
      var l, n := if j < i then j else j + 1, if k < i then k else k + 1;
      assert rest[j] == live[l] && rest[k] == live[n] && l != n;
    }
  }

  lemma PromiseMoved(m: Mem, cs: Chunks, m1: Mem, cs1: Chunks, live: seq<Live>, i: nat, b: Live)
    requires Promise(m, cs, live) && i < |live| && Preserves(m, cs, m1, cs1, {live[i].mem - 16}) && Kept1(m1, cs1, b)
    requires b.mem == live[i].mem || Freed(cs, b.mem - 16)
    ensures Promise(m1, cs1, live[i := b])
  {
    hide Preserves, Kept1;
    var live1 := live[i := b];
    forall j | 0 <= j < |live1|
      ensures Kept1(m1, cs1, live1[j])
    {
      if j != i { StillKept(m, cs, m1, cs1, {live[i].mem - 16}, live[j]); }
    }
    forall j, k | 0 <= j < |live1| && 0 <= k < |live1| && j != k
      ensures live1[j].mem != live1[k].mem
    {
      IsBlock(m, cs, live[j]);
      IsBlock(m, cs, live[k]);
    }
  }

  lemma Overlaid(m: Mem, m1: Mem, cs1: Chunks, a: int, b: int, data: seq<int>, n: nat, kept: nat, found: seq<int>)
    requires Same(m, a, m1, b, kept) && a % 8 == 0 && b % 8 == 0 && kept == (if kept < n then kept else n)
    requires |data| <= kept || kept == n
    requires forall k :: 0 <= k < |data| ==> ByteAt(m, a + k) == data[k]
    requires |found| == n && forall k :: 0 <= k < n ==> found[k] == ByteAt(m1, b + k)
    requires b > 16 && Holding(cs1, b, n) && n < MAX_REQUEST
    ensures Kept1(m1, cs1, Live(b, n, Overlay(data, found)))
  {
    hide Same, ByteAt;
    var bs := Overlay(data, found);
    forall k | 0 <= k < |bs|
      ensures ByteAt(m1, b + k) == bs[k]
    {
      if k < |data| { SameBytes(m, a, m1, b, kept, k); }
    }
  }

  // ---------------------------------------------------------------- runs

  /** Sizes are 64 bit words, and bytes are bytes. */
  predicate Sized(op: Op) { (op.New? ==> op.n < W64) && (op.Resize? ==> op.n < W64) && (op.Store? ==> 0 <= op.v < 256) }

  /** The operation asks for memory; there are so many live blocks. */
  predicate IsRequest(op: Op, live: nat) { (op.New? && op.n != 0) || (op.Resize? && op.i < live && op.n != 0) }

  /** A request has failed only because the system was called for memory and had none, or because its
      size, padded, is no 64 bit number. */
  predicate Excused(op: Op, live: nat, before: nat, mem: int, asks: seq<Ask>) {
    IsRequest(op, live) && mem == 0 ==>
      Wraps(Wanted(op.n)) || (before < |asks| && asks[before].size == AskSize(Wanted(op.n)) && FailsAt(asks, before))
  }

  /** More calls do not change what the earlier ones have answered. */
  lemma ExcusedMore(op: Op, live: nat, before: nat, mem: int, asks: seq<Ask>, asks1: seq<Ask>)
    requires Excused(op, live, before, mem, asks) && asks <= asks1
    ensures Excused(op, live, before, mem, asks1)
  {
    if before < |asks| { assert asks1[..before] == asks[..before]; }
  }

  lemma AsksGrow(system: (nat, nat) -> int, asks: seq<Ask>, nb: nat)
    ensures asks <= AsksFor(system, asks, nb)
  {}

  /** The allocator's answer to a failed request. */
  lemma Excuse(segs: seq<Segment>, system: (nat, nat) -> int, asks: seq<Ask>, nb: nat)
    requires SameSpace(segs, asks) && !Wraps(nb) && !Fresh(segs, system(|asks|, AskSize(nb)), AskSize(nb))
    ensures var asks1 := AsksFor(system, asks, nb);
            |asks1| == |asks| + 1 && asks1[|asks|].size == AskSize(nb) && FailsAt(asks1, |asks|)
  {
    hide SameSpace, FailsAt, Fresh, AskSize, Wraps;
    SpaceFailed(segs, asks, Ask(AskSize(nb), system(|asks|, AskSize(nb))));
  }

  /** A request to the allocator, with its excuse if it has failed. */
  method Request(ms: MallocState, ptr: int, n: nat, ghost op: Op, ghost live: nat) returns (mem: int)
    requires (ptr == 0 || (Block(ms.chunks, ptr) && ms.chunks[ptr - 16].size >= CHUNK_OVERHEAD)) && n < W64
    requires IsRequest(op, live) ==> op.n == n != 0
    requires Valid(ms) && SpaceOk(ms)
    modifies ms
    ensures n == 0 ==> mem == 0 && (ptr != 0 ==> Freed(ms.chunks, ptr - 16))
    ensures mem == 0 && n != 0 ==> ms.mem == old(ms.mem) && ms.chunks == old(ms.chunks)
    ensures mem != 0 ==> mem > 16 && Holding(ms.chunks, mem, n) && n < MAX_REQUEST
    ensures mem != 0 && mem != ptr ==> Freed(old(ms.chunks), mem - 16)
    ensures mem != 0 && ptr != 0 ==> Same(old(ms.mem), ptr, ms.mem, mem, KeptBytes(old(ms.chunks), ptr, n))
    ensures SpaceOk(ms) && old(ms.asks) <= ms.asks && Excused(op, live, |old(ms.asks)|, mem, ms.asks)
    ensures Valid(ms) && Preserves(old(ms.mem), old(ms.chunks), ms.mem, ms.chunks, if ptr == 0 then {} else {ptr - 16})
  {
    hide HeapFull, Chosen, HeapOk, BinsOk, Preserves, FreeOf, NoFit, RequestToSize, Same, SameSpace, Answers, AsksFor,
         Fresh, FailsAt, Wraps, AskSize;
    ghost var segs, asks := ms.segs, ms.asks;
    AsksGrow(ms.system, asks, Wanted(n));
    mem := LjAllocF(ms, ptr, n);
    if mem == 0 && n != 0 && !Wraps(Wanted(n)) {
      NoWrap(n);
      Excuse(segs, ms.system, asks, Wanted(n));
    }
  }

  lemma NoWrap(n: nat)
    requires !Wraps(Wanted(n))
    ensures n < MAX_REQUEST
  {
    if n >= MAX_REQUEST { AllocRealloc.LargeWraps(n); }
  }

  method DoNew(ms: MallocState, live: seq<Live>, n: nat) returns (out: Outcome)
    requires Valid(ms) && SpaceOk(ms) && Promise(ms.mem, ms.chunks, live) && n < W64
    modifies ms
    ensures SpaceOk(ms) && old(ms.asks) <= ms.asks && out.calls == |ms.asks|
    ensures Excused(New(n), |live|, |old(ms.asks)|, out.mem, ms.asks)
    ensures Valid(ms) && Promise(ms.mem, ms.chunks, Step(live, New(n), out))
  {
    hide HeapOk, BinsOk, Preserves, FreeOf, RequestToSize, Same, Kept1, SameSpace, Answers, Excused;
    ghost var m, cs := ms.mem, ms.chunks;
    var mem := Request(ms, 0, n, New(n), |live|);
    var found := ReadBytes(ms.mem, mem, n);
    out := Outcome(mem, found, |ms.asks|);
    if mem != 0 {
      var b := Live(mem, n, found);
      AllocRealloc.Apart(ms, mem - 16, mem - 16);
      assert Kept1(ms.mem, ms.chunks, b) by { IsKept(ms.mem, ms.chunks, b); }
      PromiseNew(m, cs, ms.mem, ms.chunks, live, b);
    } else if n == 0 {
      PromiseSame(m, cs, ms.mem, ms.chunks, live);
    }
  }

  lemma IsKept(m: Mem, cs: Chunks, b: Live)
    requires b.mem > 16 && b.mem % 8 == 0 && Holding(cs, b.mem, b.size) && b.size < MAX_REQUEST && |b.data| == b.size
    requires forall k :: 0 <= k < |b.data| ==> ByteAt(m, b.mem + k) == b.data[k]
    ensures Kept1(m, cs, b)
  {}

  lemma PromiseSame(m: Mem, cs: Chunks, m1: Mem, cs1: Chunks, live: seq<Live>)
    requires Promise(m, cs, live) && Preserves(m, cs, m1, cs1, {})
    ensures Promise(m1, cs1, live)
  {
    hide Preserves, Kept1;
    forall i | 0 <= i < |live|
      ensures Kept1(m1, cs1, live[i])
    {
      StillKept(m, cs, m1, cs1, {}, live[i]);
    }
  }

  method DoResize(ms: MallocState, live: seq<Live>, i: nat, n: nat) returns (out: Outcome)
    requires Valid(ms) && SpaceOk(ms) && Promise(ms.mem, ms.chunks, live) && n < W64 && i < |live|
    modifies ms
    ensures SpaceOk(ms) && old(ms.asks) <= ms.asks && out.calls == |ms.asks|
    ensures Excused(Resize(i, n), |live|, |old(ms.asks)|, out.mem, ms.asks)
    ensures Valid(ms) && Promise(ms.mem, ms.chunks, Step(live, Resize(i, n), out))
  {
    hide HeapOk, BinsOk, Preserves, FreeOf, RequestToSize, Same, Kept1, SameSpace, Answers, Excused;
    ghost var m, cs := ms.mem, ms.chunks;
    var old_ := live[i];
    IsBlock(m, cs, live[i]);
    ghost var kept := KeptBytes(cs, old_.mem, n);
    var mem := Request(ms, old_.mem, n, Resize(i, n), |live|);
    var found := ReadBytes(ms.mem, mem, n);
    out := Outcome(mem, found, |ms.asks|);
    if n == 0 {
      PromiseFreed(m, cs, ms.mem, ms.chunks, live, i);
    } else if mem != 0 {
      BytesOf(m, cs, old_);
      AllocRealloc.Apart(ms, mem - 16, mem - 16);
      Overlaid(m, ms.mem, ms.chunks, old_.mem, mem, old_.data, n, kept, found);
      PromiseMoved(m, cs, ms.mem, ms.chunks, live, i, Live(mem, n, Overlay(old_.data, found)));
    }
  }

  lemma BytesOf(m: Mem, cs: Chunks, b: Live)
    requires Kept1(m, cs, b)
    ensures forall k :: 0 <= k < |b.data| ==> ByteAt(m, b.mem + k) == b.data[k]
  {}

  method DoStore(ms: MallocState, live: seq<Live>, i: nat, k: nat, v: int)
    requires Valid(ms) && Promise(ms.mem, ms.chunks, live) && i < |live| && k < |live[i].data| && 0 <= v < 256
    modifies ms`mem
    ensures Valid(ms) && Promise(ms.mem, ms.chunks, Step(live, Store(i, k, v), Outcome(0, [], |ms.asks|)))
  {
    hide HeapOk, BinsOk, Preserves, FreeOf, RequestToSize, Kept1, OnlyBlock, PutByte;
    ghost var m, cs, b := ms.mem, ms.chunks, live[i];
    IsBlock(m, cs, b);
    BytesOf(m, cs, b);
    ms.mem := StoreByte(ms.mem, live[i].mem + k, v);
    StoreOnly(m, b.mem - 16, cs[b.mem - 16].size, k, v);
    BlockOk(m, ms.mem, cs, ms.segs, ms.dv, ms.dvsize, ms.top, ms.topsize, b.mem - 16, ms.smallmap, ms.treemap, ms.small, ms.tries);
    assert Kept1(ms.mem, cs, b.(data := b.data[k := v])) by { Stored(m, cs, b, k, v); }
    PromiseMoved(m, cs, ms.mem, cs, live, i, b.(data := b.data[k := v]));
  }

  lemma StoreOnly(m: Mem, p: int, size: nat, k: nat, v: int)
    requires p % 8 == 0 && k + 8 < size
    ensures OnlyBlock(m, StoreByte(m, p + 16 + k, v), p, size)
  {
    hide PutByte;
    var a := p + 16 + k;
    assert a % 8 == k % 8;
    forall c | R(StoreByte(m, a, v), c) != R(m, c)
      ensures c == a - k % 8
    {}
  }

  lemma Stored(m: Mem, cs: Chunks, b: Live, k: nat, v: int)
    requires Kept1(m, cs, b) && k < |b.data| && 0 <= v < 256
    ensures Kept1(StoreByte(m, b.mem + k, v), cs, b.(data := b.data[k := v]))
  {
    hide RequestToSize, ByteAt, StoreByte;
    var data1 := b.data[k := v];
    forall j | 0 <= j < |data1|
      ensures ByteAt(StoreByte(m, b.mem + k, v), b.mem + j) == data1[j]
    {
      ByteStored(m, b.mem + k, v, b.mem + j);
    }
  }

  /** One operation, and what the allocator answered. */
  method DoOp(ms: MallocState, live: seq<Live>, op: Op) returns (out: Outcome)
    requires Valid(ms) && SpaceOk(ms) && Promise(ms.mem, ms.chunks, live) && Sized(op)
    modifies ms
    ensures SpaceOk(ms) && old(ms.asks) <= ms.asks && out.calls == |ms.asks|
    ensures Excused(op, |live|, |old(ms.asks)|, out.mem, ms.asks)
    ensures Valid(ms) && Promise(ms.mem, ms.chunks, Step(live, op, out))
  {
    hide HeapOk, BinsOk, FreeOf, Kept1, SameSpace, Answers;
    out := Outcome(0, [], |ms.asks|);
    match op
    case New(n) => out := DoNew(ms, live, n);
    case Resize(i, n) => if i < |live| { out := DoResize(ms, live, i, n); }
    case Store(i, k, v) => if i < |live| && k < |live[i].data| { DoStore(ms, live, i, k, v); }
  }

  /** How often the system was called before operation k; once when the allocator was created. */
  function CallsBefore(outs: seq<Outcome>, k: nat): nat
    requires k <= |outs|
  {
    if k == 0 then 1 else outs[k - 1].calls
  }

  /** All requests that have failed are excused. */
  predicate AllExcused(ops: seq<Op>, outs: seq<Outcome>, asks: seq<Ask>)
    requires |outs| <= |ops|
  {
    forall k :: 0 <= k < |outs| ==>
      Excused(ops[k], |Replay(ops[..k], outs[..k])|, CallsBefore(outs, k), outs[k].mem, asks)
  }

  lemma AllExcusedMore(ops: seq<Op>, outs: seq<Outcome>, asks: seq<Ask>, out: Outcome, asks1: seq<Ask>)
    requires |outs| < |ops| && AllExcused(ops, outs, asks) && asks <= asks1 && CallsBefore(outs, |outs|) == |asks|
    requires Excused(ops[|outs|], |Replay(ops[..|outs|], outs)|, |asks|, out.mem, asks1)
    ensures AllExcused(ops, outs + [out], asks1)
  {
    hide Excused, Replay;
    var outs1 := outs + [out];
    forall k | 0 <= k < |outs1|
      ensures Excused(ops[k], |Replay(ops[..k], outs1[..k])|, CallsBefore(outs1, k), outs1[k].mem, asks1)
    {
      assert outs1[..k] == outs[..k];
      if k < |outs| {
        ExcusedMore(ops[k], |Replay(ops[..k], outs[..k])|, CallsBefore(outs, k), outs[k].mem, asks, asks1);
      } else {
        assert outs[..k] == outs;
      }
    }
  }

  /** All operations in order, from a new allocator on, whatever the system answers.  There is an
      allocator exactly if the system has memory for it.  At every moment the live blocks are aligned
      and do not overlap, and no request has failed but for lack of memory; at the end each block
      holds what its owner put there, however often blocks were allocated, resized, moved and released
      in between. */
  method Run(ops: seq<Op>, system: (nat, nat) -> int)
    returns (ok: bool, outs: seq<Outcome>, seen: seq<seq<int>>, asks: seq<Ask>)
    requires forall i :: 0 <= i < |ops| ==> Sized(ops[i])
    ensures asks != [] && asks[0].size == DEFAULT_GRANULARITY && Answers(system, asks) && (ok <==> !FailsAt(asks, 0))
    ensures ok ==> |outs| == |ops| && forall k :: 0 <= k <= |ops| ==> AllApart(Replay(ops[..k], outs[..k]))
    ensures ok ==> AllExcused(ops, outs, asks)
    ensures ok ==> var live := Replay(ops, outs);
                   |seen| == |live| && forall i :: 0 <= i < |live| ==> seen[i] == live[i].data && |seen[i]| == live[i].size
  {
    hide HeapOk, BinsOk, FreeOf, Kept1, AllApart, Step, Promise, SameSpace, FailsAt, AllExcused, Excused;
    outs, seen := [], [];
    var ms;
    ok, ms := LjAllocCreate(system);
    asks := ms.asks;
    if !ok { return; }
    ghost var first := asks;
    var live: seq<Live> := [];
    NoneLive(ms.mem, ms.chunks);
    BlocksApart(ms, live);
    assert AllExcused(ops, outs, ms.asks) by { NoneExcused(ops, ms.asks); }
    for n := 0 to |ops|
      invariant |outs| == n && live == Replay(ops[..n], outs) && Valid(ms) && Promise(ms.mem, ms.chunks, live) && fresh(ms)
      invariant AlwaysApart(ops, outs)
      invariant SpaceOk(ms) && ms.system == system && first <= ms.asks && CallsBefore(outs, n) == |ms.asks|
      invariant AllExcused(ops, outs, ms.asks)
    {
      ghost var was := ms.asks;
      var out := DoOp(ms, live, ops[n]);
      AllExcusedMore(ops, outs, was, out, ms.asks);
      live := Step(live, ops[n], out);
      BlocksApart(ms, live);
      AlwaysMore(ops, outs, out);
      outs := outs + [out];
    }
    asks := ms.asks;
    FirstCall(first, asks);
    assert ops[..|ops|] == ops;
    forall k | 0 <= k <= |ops| ensures AllApart(Replay(ops[..k], outs[..k])) { AlwaysAt(ops, outs, k); }
    seen := ReadAll(ms, live);
  }

  lemma NoneExcused(ops: seq<Op>, asks: seq<Ask>)
    ensures AllExcused(ops, [], asks)
  {}

  lemma FirstCall(asks: seq<Ask>, asks1: seq<Ask>)
    requires asks != [] && asks <= asks1
    ensures FailsAt(asks1, 0) <==> FailsAt(asks, 0)
  {
    assert asks1[..0] == asks[..0];
  }

  /** What all live blocks hold. */
  method ReadAll(ms: MallocState, live: seq<Live>) returns (seen: seq<seq<int>>)
    requires Promise(ms.mem, ms.chunks, live)
    ensures |seen| == |live| && forall i :: 0 <= i < |live| ==> seen[i] == live[i].data && |seen[i]| == live[i].size
  {
    hide Kept1;
    seen := [];
    for i := 0 to |live|
      invariant Promise(ms.mem, ms.chunks, live)
      invariant |seen| == i && forall j :: 0 <= j < i ==> seen[j] == live[j].data && |seen[j]| == live[j].size
    {
      IsBlock(ms.mem, ms.chunks, live[i]);
      BytesOf(ms.mem, ms.chunks, live[i]);
      var bytes := ReadBytes(ms.mem, live[i].mem, live[i].size);
      assert bytes == live[i].data;
      seen := seen + [bytes];
    }
  }

  lemma NoneLive(m: Mem, cs: Chunks)
    ensures Promise(m, cs, [])
  {}

  lemma ReplayOne(ops: seq<Op>, outs: seq<Outcome>, out: Outcome)
    requires |ops| == |outs| + 1
    ensures Replay(ops, outs + [out]) == Step(Replay(ops[..|outs|], outs), ops[|outs|], out)
  {
    hide Step;
    assert (outs + [out])[..|outs|] == outs;
  }

  /** After each operation so far. */
  predicate AlwaysApart(ops: seq<Op>, outs: seq<Outcome>)
    requires |outs| <= |ops|
  {
    AllApart(Replay(ops[..|outs|], outs)) && (outs != [] ==> AlwaysApart(ops, outs[..|outs| - 1]))
  }

  lemma AlwaysMore(ops: seq<Op>, outs: seq<Outcome>, out: Outcome)
    requires |outs| < |ops| && AlwaysApart(ops, outs) && AllApart(Step(Replay(ops[..|outs|], outs), ops[|outs|], out))
    ensures Replay(ops[..|outs| + 1], outs + [out]) == Step(Replay(ops[..|outs|], outs), ops[|outs|], out)
    ensures AlwaysApart(ops, outs + [out])
  {
    hide AllApart, Step, Replay;
    var n := |outs|;
    assert ops[..n + 1][..n] == ops[..n] && (outs + [out])[..n] == outs;
    ReplayOne(ops[..n + 1], outs, out);
  }

  lemma {:induction false} AlwaysAt(ops: seq<Op>, outs: seq<Outcome>, k: nat)
    requires k <= |outs| <= |ops| && AlwaysApart(ops, outs)
    ensures AllApart(Replay(ops[..k], outs[..k]))
    decreases |outs|
  {
    hide AllApart, Replay;
    if k < |outs| {
      AlwaysAt(ops, outs[..|outs| - 1], k);
      assert outs[..|outs| - 1][..k] == outs[..k];
    } else {
      assert outs[..k] == outs;
    }
  }
}
