/** The piece-stack string buffer of the auxiliary library (luajit/lib_aux.c): bytes collect in
    a fixed-size buffer; full buffers and oversized values become pieces on the Lua stack, and
    pieces are merged so that their number stays small. */
module AuxBuffer {
  import opened PatternSyntax

  const PIECE_LIMIT := 10  // LUA_MINSTACK/2

  function Flatten(pieces: seq<seq<byte>>): seq<byte> {
    if pieces == [] then [] else pieces[0] + Flatten(pieces[1..])
  }

  lemma {:induction false} FlattenAppend(a: seq<seq<byte>>, b: seq<seq<byte>>)
    ensures Flatten(a + b) == Flatten(a) + Flatten(b)
  {
    if a == [] {
      assert a + b == b;
    } else {
      FlattenAppend(a[1..], b);
      assert (a + b)[0] == a[0] && (a + b)[1..] == a[1..] + b;
      Assoc(a[0], Flatten(a[1..]), Flatten(b));
    }
  }

  lemma Assoc(a: seq<byte>, b: seq<byte>, c: seq<byte>)
    ensures a + (b + c) == (a + b) + c
  {}

  lemma FlattenOne(piece: seq<byte>)
    ensures Flatten([piece]) == piece
  {
    assert Flatten([piece]) == piece + Flatten([]);
  }

  /** The pieces from k on may be joined. */
  lemma FlattenMerged(pieces: seq<seq<byte>>, k: nat)
    requires k <= |pieces|
    ensures Flatten(pieces[..k] + [Flatten(pieces[k..])]) == Flatten(pieces)
  {
    assert pieces == pieces[..k] + pieces[k..];
    FlattenAppend(pieces[..k], pieces[k..]);
    FlattenAppend(pieces[..k], [Flatten(pieces[k..])]);
    FlattenOne(Flatten(pieces[k..]));
  }

  class Buffer {
    const size: nat            // LUAL_BUFFERSIZE
    var stack: seq<seq<byte>>  // the Lua stack
    var lvl: nat               // number of pieces on top of it
    var buf: seq<byte>         // bytes between B->buffer and B->p

    ghost predicate Valid()
      reads this
    {
      size > 0 && |buf| <= size && lvl <= |stack|
    }

    /** The part of the Lua stack that does not belong to the buffer. */
    ghost function Base(): seq<seq<byte>>
      requires Valid()
      reads this
    {
      stack[..|stack| - lvl]
    }

    /** Everything appended so far. */
    ghost function Contents(): seq<byte>
      requires Valid()
      reads this
    {
      Flatten(stack[|stack| - lvl..]) + buf
    }

    constructor (size: nat, stack: seq<seq<byte>>)
      requires size > 0
      ensures Valid() && Contents() == [] && Base() == stack && lvl == 0
    {
      this.size, this.stack, lvl, buf := size, stack, 0, [];
    }

    /** `lua_concat`: replaces the n values on top of the stack by their concatenation. */
    method Concat(n: nat)
      requires n <= |stack|
      modifies this`stack
      ensures stack == old(stack)[..|old(stack)| - n] + [Flatten(old(stack)[|old(stack)| - n..])]
    {
      if n == 1 {
        FlattenOne(stack[|stack| - 1]);
        assert stack[|stack| - 1..] == [stack[|stack| - 1]];
      } else {
        stack := stack[..|stack| - n] + [Flatten(stack[|stack| - n..])];
      }
    }

    /** `emptybuffer`. */
    method EmptyBuffer() returns (pushed: bool)
      requires Valid()
      modifies this
      ensures Valid() && buf == []
      ensures pushed == (old(buf) != []) && lvl == old(lvl) + if pushed then 1 else 0
      ensures stack == if pushed then old(stack) + [old(buf)] else old(stack)
      ensures Contents() == old(Contents()) && Base() == old(Base())
    {
      if buf == [] { return false; }
      stack, lvl := stack + [buf], lvl + 1;
      assert stack[|stack| - lvl..] == old(stack)[|old(stack)| - old(lvl)..] + [buf];
      FlattenAppend(old(stack)[|old(stack)| - old(lvl)..], [buf]);
      FlattenOne(buf);
      buf := [];
      return true;
    }

    /** `adjuststack`: merges pieces from the top, so that few remain. */
    method AdjustStack()
      requires Valid()
      modifies this
      ensures Valid() && Contents() == old(Contents()) && Base() == old(Base()) && buf == old(buf)
      ensures lvl < PIECE_LIMIT && lvl <= old(lvl)
    {
      if lvl > 1 {
        var toget, toplen := 1, |stack[|stack| - 1]|;
        while true
          invariant 1 <= toget < lvl
          decreases lvl - toget
        {
          var l := |stack[|stack| - (toget + 1)]|;
          if !(lvl - toget + 1 >= PIECE_LIMIT || toplen > l) { break; }
          toplen := toplen + l;
          toget := toget + 1;
          if toget == lvl { break; }
        }
        ghost var pieces := stack[|stack| - lvl..];
        ghost var keep := |pieces| - toget;
        Concat(toget);
        lvl := lvl - toget + 1;
        FlattenMerged(pieces, keep);
        assert old(stack)[|old(stack)| - toget..] == pieces[keep..];
        assert stack[|stack| - lvl..] == pieces[..keep] + [Flatten(pieces[keep..])];
      }
    }

    /** `luaL_addchar`, with `luaL_prepbuffer` when the buffer is full. */
    method AddChar(c: byte)
      requires Valid()
      modifies this
      ensures Valid() && Contents() == old(Contents()) + [c] && Base() == old(Base())
      ensures old(lvl) < PIECE_LIMIT ==> lvl < PIECE_LIMIT
    {
      if |buf| == size {
        var pushed := EmptyBuffer();
        if pushed { AdjustStack(); }
      }
      ghost var pieces := Flatten(stack[|stack| - lvl..]);
      assert (pieces + buf) + [c] == pieces + (buf + [c]);
      buf := buf + [c];
    }

    /** `luaL_addlstring`. */
    method AddString(s: seq<byte>)
      requires Valid()
      modifies this
      ensures Valid() && Contents() == old(Contents()) + s && Base() == old(Base())
      ensures old(lvl) < PIECE_LIMIT ==> lvl < PIECE_LIMIT
    {
      for i := 0 to |s|
        invariant Valid() && Contents() == old(Contents()) + s[..i] && Base() == old(Base())
        invariant old(lvl) < PIECE_LIMIT ==> lvl < PIECE_LIMIT
      {
        AddChar(s[i]);
        assert s[..i + 1] == s[..i] + [s[i]];
      }
      assert s[..|s|] == s;
    }

    /** `luaL_addvalue` of a string v that the caller has just pushed above the pieces. */
    method AddValue(v: seq<byte>)
      requires Valid()
      modifies this
      ensures Valid() && Contents() == old(Contents()) + v && Base() == old(Base())
      ensures old(lvl) < PIECE_LIMIT ==> lvl < PIECE_LIMIT
    {
      if |v| <= size - |buf| {
        ghost var pieces := Flatten(stack[|stack| - lvl..]);
        assert (pieces + buf) + v == pieces + (buf + v);
        buf := buf + v;
      } else {
        var pushed := EmptyBuffer();
        ghost var pieces := stack[|stack| - lvl..];
        stack, lvl := stack + [v], lvl + 1;
        assert stack[|stack| - lvl..] == pieces + [v];
        FlattenAppend(pieces, [v]);
        FlattenOne(v);
        AdjustStack();
      }
    }

    /** `luaL_pushresult`: the contents end up as one value on top of the caller's stack. */
    method PushResult()
      requires Valid()
      modifies this
      ensures Valid() && stack == old(Base()) + [old(Contents())]
      ensures Contents() == old(Contents()) && Base() == old(Base()) && lvl == 1
    {
      var _ := EmptyBuffer();
      ghost var pieces := stack[|stack| - lvl..];
      Concat(lvl);
      lvl := 1;
      FlattenOne(Flatten(pieces));
      assert stack[|stack| - lvl..] == [Flatten(pieces)];
    }
  }
}
