/** The input buffer of the bytecode reader (luajit/lj_bcread.c): bytes arrive in chunks of any
    size; the reader works in the chunk itself or in its own buffer. */
module BcInput {
  import opened BcFormat
  import opened Bits
  import opened BcTree

  /** Chunks that are not yet read; an empty one would mean the end of the input. */
  predicate Chunks(chunks: seq<seq<byte>>) { forall i :: 0 <= i < |chunks| ==> chunks[i] != [] }

  class LexState {
    const be: bool                 // byte order of the machine
    const oldtop: nat              // stack level when the reader was called
    var buf: array<byte>           // sb.buf
    var sbn: nat                   // sb.n
    var chunk: seq<byte>           // the chunk last provided by the reader function
    var off: nat                   // p, as an offset into buf if sbn > 0 and into chunk otherwise
    var n: nat
    var current: int
    var level: nat                 // flags of the dump
    var chunks: seq<seq<byte>>     // what the reader function will provide
    var stack: Stack               // prototypes on the Lua stack
    ghost var data: seq<byte>      // the bytes in the buffer that are not yet read

    constructor (be: bool, stack: Stack, first: seq<byte>, chunks: seq<seq<byte>>)
      requires first != [] && Chunks(chunks)
      ensures Valid() && fresh(buf) && this.be == be && this.stack == stack && oldtop == |stack|
      ensures current == first[0] && Unread() == first[1..] + Concat(chunks)
    {
      this.be, this.stack, oldtop, this.chunks := be, stack, |stack|, chunks;
      buf := new byte[32](_ => 0);
      sbn, chunk, off, n, current, level := 0, first, 1, |first| - 1, first[0] as int, 0;
      data := first[1..];
    }

    ghost function Source(): seq<byte>
      reads this`sbn, this`buf, this`chunk, buf
    {
      if sbn != 0 then buf[..] else chunk
    }

    /** The data lie where p points. */
    ghost predicate Mapped()
      reads this`sbn, this`buf, this`chunk, this`off, this`data, buf
    {
      off + |data| <= |Source()| && Source()[off..off + |data|] == data
    }

    ghost predicate Valid()
      reads this, buf
    {
      && buf.Length > 0 && Chunks(chunks) && |data| == n && Mapped()
      && (sbn != 0 ==> off + n == sbn)
    }

    ghost function Unread(): seq<byte>
      reads this
    {
      data + Concat(chunks)
    }

    /** `bcread_resize`. */
    method Resize(len: nat)
      requires buf.Length > 0
      modifies this`buf
      ensures buf.Length >= len && buf.Length >= old(buf.Length)
      ensures forall i :: 0 <= i < old(buf.Length) ==> buf[i] == old(buf[i])
      ensures fresh(buf) || buf == old(buf)
    {
      if buf.Length < len {
        var sz := buf.Length * 2;
        while len > sz
          invariant sz >= buf.Length > 0
          decreases len - sz
        {
          sz := sz * 2;
        }
        var bigger := new byte[sz](_ => 0);
        forall i | 0 <= i < buf.Length {
          bigger[i] := buf[i];
        }
        buf := bigger;
      }
    }

    /** The first step of the loop of `bcread_fill`: the unread bytes move to the front of buf. */
    method MoveDown(len: nat)
      requires Valid() && n < len
      modifies this`buf, buf, this`sbn, this`off, this`chunk
      ensures Valid() && sbn == n && (n > 0 ==> off == 0) && (fresh(buf) || buf == old(buf))
    {
      if n > 0 {
        if sbn != 0 {
          if n != sbn {
            forall i | 0 <= i < n {
              buf[i] := buf[off + i];
            }
          }
        } else {
          Resize(len);
          forall i | 0 <= i < n {
            buf[i] := chunk[off + i];
          }
        }
        off := 0;
      } else {
        off, chunk := 0, [];  // p is not used before it is set again
      }
      sbn := n;
    }

    /** The bytes are put behind those in buf. */
    method Extend(bytes: seq<byte>, len: nat)
      requires sbn <= buf.Length && buf.Length > 0
      modifies this`buf, buf
      ensures sbn + |bytes| <= buf.Length && buf[..sbn + |bytes|] == old(buf[..sbn]) + bytes
      ensures fresh(buf) || buf == old(buf)
    {
      var m := sbn + |bytes|;
      Resize(if m < len then len else m);
      forall i | 0 <= i < |bytes| {
        buf[sbn + i] := bytes[i];
      }
      assert buf[sbn..m] == bytes;
      assert buf[..m] == buf[..sbn] + buf[sbn..m];
    }

    /** The last step of the loop of `bcread_fill`: a chunk is appended to buf, or used in place. */
    method Accept(bytes: seq<byte>, len: nat)
      requires Valid() && sbn == n && (n > 0 ==> off == 0) && bytes != []
      modifies this`buf, buf, this`sbn, this`chunk, this`off, this`n, this`data
      ensures Valid() && data == old(data) + bytes && (fresh(buf) || buf == old(buf))
    {
      if sbn != 0 {
        var m := sbn + |bytes|;
        Extend(bytes, len);
        n, sbn, off := m, m, 0;
      } else {
        n, off, chunk := |bytes|, 0, bytes;
      }
      data := data + bytes;
      assert Source()[off..off + n] == data;
    }

    /** One round of the loop of `bcread_fill`, up to the end of the input. */
    method Refill(len: nat) returns (got: bool)
      requires Valid() && n < len
      modifies this`buf, buf, this`sbn, this`chunk, this`off, this`n, this`chunks, this`data
      ensures Valid() && (fresh(buf) || buf == old(buf)) && Unread() == old(Unread())
      ensures got == (old(chunks) != []) && (got ==> |chunks| < |old(chunks)|)
      ensures !got ==> n == old(n) && Unread() == data
    {
      MoveDown(len);
      got := chunks != [];
      if got {
        var bytes := chunks[0];
        Assoc(data, bytes, Concat(chunks[1..]));
        chunks := chunks[1..];
        Accept(bytes, len);
      } else {
        Empty(data);
      }
    }

    /** `bcread_fill`: no byte is lost, repeated or reordered, whatever the chunks.  The end of the
        input is noticed only if there are less than len bytes, and an error is raised only if
        that is fatal, or noticed a second time. */
    method Fill(len: nat, need: bool) returns (bad: bool)
      requires Valid() && n < len
      modifies this`buf, buf, this`sbn, this`chunk, this`off, this`n, this`current, this`chunks, this`data
      ensures Valid() && (fresh(buf) || buf == old(buf)) && Unread() == old(Unread())
      ensures bad <==> len > MAX_MEM || old(current) < 0 || (need && |Unread()| < len)
      ensures !bad && |Unread()| >= len ==> n >= len && current == old(current)
      ensures !bad && |Unread()| < len ==> n == |Unread()| && current < 0
    {
      if len > MAX_MEM || current < 0 { return true; }
      while true
        invariant Valid() && (fresh(buf) || buf == old(buf)) && Unread() == old(Unread()) && n < len
        invariant current == old(current)
        decreases |chunks|
      {
        var got := Refill(len);
        if !got {
          if need { return true; }
          current := -1;
          break;
        }
        if n >= len { break; }
      }
      bad := false;
    }

    /** `bcread_need` and `bcread_want`. */
    method Need(len: nat, need: bool) returns (bad: bool)
      requires Valid()
      modifies this`buf, buf, this`sbn, this`chunk, this`off, this`n, this`current, this`chunks, this`data
      ensures Valid() && (fresh(buf) || buf == old(buf)) && Unread() == old(Unread())
      ensures bad <==> old(n) < len && (len > MAX_MEM || old(current) < 0 || (need && |Unread()| < len))
      ensures !bad && |Unread()| >= len ==> n >= len && current == old(current)
      ensures !bad && |Unread()| < len ==> n == |Unread()| && current < 0
    {
      bad := false;
      if n < len { bad := Fill(len, need); }
    }

    /** `bcread_mem`. */
    method Mem(len: nat) returns (bytes: seq<byte>)
      requires Valid() && len <= n
      modifies this`off, this`n, this`data
      ensures Valid() && bytes == old(data)[..len] && data == old(data)[len..]
    {
      bytes := if sbn != 0 then buf[off..off + len] else chunk[off..off + len];
      n := n - len;
      off := off + len;
      data := data[len..];
    }

    /** `bcread_byte`. */
    method Byte() returns (b: byte)
      requires Valid() && n > 0
      modifies this`off, this`n, this`data
      ensures Valid() && b == old(data)[0] && data == old(data)[1..]
    {
      b := if sbn != 0 then buf[off] else chunk[off];
      n := n - 1;
      off := off + 1;
      data := data[1..];
    }

    method Peek(p: nat) returns (b: byte)
      requires Mapped() && off <= p < off + |data|
      ensures b == data[p - off]
    {
      b := if sbn != 0 then buf[p] else chunk[p];
    }

    /** The loop of both number readers: shifts the remaining digits of x into v. */
    method Gather(v0: nat, sh0: int, p0: nat, ghost x: u32, ghost rest0: nat, ghost tail: seq<byte>)
      returns (v: u32, p: nat)
      requires Mapped() && off < p0 <= off + |data| && n == off + |data| - p0 + 1
      requires data[p0 - off..] == U(rest0) + tail && sh0 >= -1 && Gathered(x, v0, rest0, sh0 + 7)
      modifies this`n
      ensures off < p <= off + |data| && n == off + |data| - p + 1 && data[p - off..] == tail && v == x
    {
      hide U, Gathered, Shifted, Mapped;
      var w: nat, sh := v0, sh0;
      p := p0;
      ghost var rest, s := rest0, data[p0 - off..];
      while true
        invariant sh >= -1 && off < p && p + |s| == off + |data| && n == |s| + 1
        invariant s == data[p - off..] == U(rest) + tail && Gathered(x, w, rest, sh + 7)
        decreases rest
      {
        UFirst(rest, s, tail);
        var b := Peek(p);
        sh := sh + 7;
        ShiftIn(x, w, rest, b, sh);
        w := (w + Shifted(b, sh)) % 0x1_0000_0000;
        n := n - 1;
        p := p + 1;
        s := s[1..];
        if b < 0x80 { break; }
        rest := rest / 0x80;
      }
      v := w;
    }

    /** `bcread_uleb128`: whatever follows, exactly the bytes of the number are consumed. */
    method ULeb(ghost x: u32, ghost tail: seq<byte>) returns (v: u32)
      requires Valid() && data == U(x) + tail
      modifies this`off, this`n, this`data
      ensures Valid() && v == x && data == tail
    {
      hide U, Gathered, Mapped;
      UFirst(x, data, tail);
      var p := off;
      var b := Peek(p);
      v := b;
      p := p + 1;
      if v >= 0x80 {
        FirstDigit(x, 7);
        v, p := Gather(v % 0x80, 0, p, x, x / 0x80, tail);
      }
      n := n - 1;
      Advance(p);
    }

    /** `bcread_uleb128_33`: the upper 32 of 33 bits. */
    method ULeb33(ghost x: nat, ghost tail: seq<byte>) returns (v: u32)
      requires Valid() && data == U(x) + tail && x < 0x2_0000_0000
      modifies this`off, this`n, this`data
      ensures Valid() && v == x / 2 && data == tail
    {
      hide U, Gathered, Mapped;
      UFirst(x, data, tail);
      var p := off;
      var b := Peek(p);
      HalfDigit(x, b);
      v := b / 2;
      p := p + 1;
      if v >= 0x40 {
        v, p := Gather(v % 0x40, -1, p, x / 2, x / 0x80, tail);
      }
      n := n - 1;
      Advance(p);
    }

    /** The end of both number readers: p is set behind the number. */
    method Advance(p: nat)
      requires Mapped() && off <= p <= off + |data| && n == off + |data| - p
      requires buf.Length > 0 && Chunks(chunks) && (sbn != 0 ==> off + |data| == sbn)
      modifies this`off, this`data
      ensures Valid() && data == old(data)[p - old(off)..]
    {
      data := data[p - off..];
      off := p;
    }
  }

  /** What the first byte of a number says. */
  lemma UFirst(x: nat, s: seq<byte>, tail: seq<byte>)
    requires s == U(x) + tail
    ensures |s| > 0 && s[0] % 0x80 == x % 0x80 && s[0] % 2 == x % 2
    ensures if x < 0x80 then s[0] == x && s[1..] == tail else s[0] >= 0x80 && s[1..] == U(x / 0x80) + tail
  {}

  /** `(b & 0x7f) << sh`. */
  function Shifted(b: byte, sh: nat): nat { b % 0x80 * Pow2(sh) }

  /** x has been gathered in v up to the bits from sh on, which are rest. */
  ghost predicate Gathered(x: nat, v: nat, rest: nat, sh: nat) { x == v + Pow2(sh) * rest }

  lemma FirstDigit(x: nat, sh: nat)
    requires sh == 6 || sh == 7
    ensures Gathered(x, x % Pow2(sh), x / Pow2(sh), sh) && Pow2(6) == 0x40 && Pow2(7) == 0x80
  {
    assert Pow2(6) == 0x40;
  }

  /** The first byte of a 33 bit number, without its lowest bit. */
  lemma HalfDigit(x: nat, b: byte)
    requires b % 0x80 == x % 0x80 && (if x < 0x80 then b == x else b >= 0x80)
    ensures b / 2 >= 0x40 <==> x >= 0x80
    ensures if x < 0x80 then b / 2 == x / 2 else Gathered(x / 2, b / 2 % 0x40, x / 0x80, 6)
  {
    hide Gathered;
    FirstDigit(x / 2, 6);
    assert x / 2 / 0x40 == x / 0x80;
    assert b / 2 % 0x40 == x / 2 % 0x40;
  }

  lemma ShiftIn(x: u32, v: nat, rest: nat, b: byte, sh: nat)
    requires Gathered(x, v, rest, sh) && b % 0x80 == rest % 0x80
    ensures v + Shifted(b, sh) <= x && Gathered(x, v + Shifted(b, sh), rest / 0x80, sh + 7)
    ensures rest < 0x80 ==> v + Shifted(b, sh) == x
  {
    var p := Pow2(sh);
    assert Pow2(sh + 7) == 0x80 * p by {
      assert Pow2(sh + 7) == 2 * Pow2(sh + 6) && Pow2(sh + 6) == 2 * Pow2(sh + 5);
      assert Pow2(sh + 5) == 2 * Pow2(sh + 4) && Pow2(sh + 4) == 2 * Pow2(sh + 3);
      assert Pow2(sh + 3) == 2 * Pow2(sh + 2) && Pow2(sh + 2) == 2 * Pow2(sh + 1);
    }
    Distribute(p, rest);
  }

  lemma Distribute(p: nat, rest: nat)
    ensures p * rest == rest % 0x80 * p + 0x80 * p * (rest / 0x80)
    ensures rest < 0x80 ==> rest / 0x80 == 0
  {
    var q, r := rest / 0x80, rest % 0x80;
    assert rest == 0x80 * q + r;
    assert p * rest == p * (0x80 * q) + p * r;
    assert p * (0x80 * q) == 0x80 * p * q;
  }
}
