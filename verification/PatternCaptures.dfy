/** What captures hold, told from the pattern alone: which item opens a capture, which one closes it,
    and where a match has got to by then (luajit/lib_string.c, section 5.4.1 of the Lua 5.1
    Reference Manual). */
module PatternCaptures {
  import opened PatternSyntax
  import opened PatternSemantics

  // ---------------------------------------------------------------- parentheses

  /** The items that begin captures, from left to right. */
  function Openers(items: seq<Item>): (os: seq<nat>)
    ensures forall i :: 0 <= i < |os| ==> os[i] < |items| && (items[os[i]].Open? || items[os[i]].Position?)
  {
    if items == [] then []
    else
      var n := |items| - 1;
      Openers(items[..n]) + if items[n].Open? || items[n].Position? then [n] else []
  }

  /** How many parentheses are open between the opening one at a and item n, that one included. */
  function Nested(items: seq<Item>, a: nat, n: nat): int
    requires a < n <= |items|
  {
    if n == a + 1 then 1
    else Nested(items, a, n - 1) + if items[n - 1].Open? then 1 else if items[n - 1].Close? then -1 else 0
  }

  /** The parenthesis opened at a is still open at item n. */
  predicate OpenUntil(items: seq<Item>, a: nat, n: nat)
    requires n <= |items|
  {
    forall m :: a < m <= n ==> Nested(items, a, m) > 0
  }

  /** The parenthesis opened at a is closed by item b. */
  predicate ClosedBy(items: seq<Item>, a: nat, b: nat) {
    a < b < |items| && OpenUntil(items, a, b) && Nested(items, a, b + 1) == 0
  }

  /** Where a match has got to before item n. */
  function Place(src: seq<byte>, items: seq<Item>, ks: seq<nat>, s: nat, n: nat): nat
    requires n <= |items| == |ks|
  {
    var before := Derive(src, items[..n], ks[..n], s, []);
    if before.Some? then before.value.0 else 0
  }

  // ---------------------------------------------------------------- captures of a match

  /** Capture c begins at item a: a position, or text up to the item that closes it. */
  ghost predicate Holds(src: seq<byte>, items: seq<Item>, ks: seq<nat>, s: nat, a: nat, c: Cap)
    requires a < |items| == |ks|
  {
    && c.init == Place(src, items, ks, s, a)
    && (items[a].Position? ==> c.len == POSITION)
    && (items[a].Open? && c.len == UNFINISHED ==> OpenUntil(items, a, |items|))
    && (items[a].Open? && c.len != UNFINISHED ==>
          exists b :: ClosedBy(items, a, b) && c.init + c.len == Place(src, items, ks, s, b) >= c.init)
  }

  /** All captures hold what the items say. */
  ghost predicate AllHold(src: seq<byte>, items: seq<Item>, ks: seq<nat>, s: nat, caps: seq<Cap>)
    requires |items| == |ks|
  {
    |caps| == |Openers(items)| && forall i :: 0 <= i < |caps| ==> Holds(src, items, ks, s, Openers(items)[i], caps[i])
  }

  /** Unfinished captures from i on. */
  function Unfinished(caps: seq<Cap>, i: nat): nat
    requires i <= |caps|
    decreases |caps| - i
  {
    if i == |caps| then 0 else Unfinished(caps, i + 1) + if caps[i].len == UNFINISHED then 1 else 0
  }

  /** An unfinished capture is nested as deeply as there are unfinished ones behind it. */
  ghost predicate Levels(items: seq<Item>, caps: seq<Cap>) {
    |caps| == |Openers(items)| &&
    forall i :: 0 <= i < |caps| && caps[i].len == UNFINISHED ==> Nested(items, Openers(items)[i], |items|) == Unfinished(caps, i)
  }

  lemma {:induction false} DeriveSplit(src: seq<byte>, a: seq<Item>, b: seq<Item>, ka: seq<nat>, kb: seq<nat>, s: nat, caps: seq<Cap>)
    requires |a| == |ka| && |b| == |kb|
    ensures Derive(src, a + b, ka + kb, s, caps) ==
            match Derive(src, a, ka, s, caps)
            case None => None
            case Some(u) => Derive(src, b, kb, u.0, u.1)
    decreases |a|
  {
    if a == [] {
      assert a + b == b && ka + kb == kb;
    } else {
      assert (a + b)[0] == a[0] && (a + b)[1..] == a[1..] + b && (ka + kb)[0] == ka[0] && (ka + kb)[1..] == ka[1..] + kb;
      match Use(src, a[0], ka[0], s, caps) {
        case None =>
        case Some(u) => DeriveSplit(src, a[1..], b, ka[1..], kb, u.0, u.1);
      }
    }
  }

  /** A prefix is derived as in the whole. */
  lemma {:induction false} PlacePrefix(src: seq<byte>, items: seq<Item>, ks: seq<nat>, s: nat, n: nat, m: nat)
    requires n <= m <= |items| == |ks|
    ensures Place(src, items[..m], ks[..m], s, n) == Place(src, items, ks, s, n)
  {
    assert items[..m][..n] == items[..n] && ks[..m][..n] == ks[..n];
  }

  lemma {:induction false} NestedPrefix(items: seq<Item>, a: nat, n: nat, m: nat)
    requires a < n <= m <= |items|
    ensures Nested(items[..m], a, n) == Nested(items, a, n)
  {
    if n > a + 1 { NestedPrefix(items, a, n - 1, m); }
  }

  lemma {:induction false} UnfinishedLess(caps: seq<Cap>, i: nat, j: nat)
    requires i <= j <= |caps|
    ensures Unfinished(caps, i) >= Unfinished(caps, j)
    decreases j - i
  {
    if i < j { UnfinishedLess(caps, i + 1, j); }
  }

  lemma {:induction false} UnfinishedNone(caps: seq<Cap>, i: nat)
    requires i <= |caps| && forall k :: i <= k < |caps| ==> caps[k].len != UNFINISHED
    ensures Unfinished(caps, i) == 0
    decreases |caps| - i
  {
    if i < |caps| { UnfinishedNone(caps, i + 1); }
  }

  lemma {:induction false} UnfinishedMore(caps: seq<Cap>, c: Cap, i: nat)
    requires i <= |caps|
    ensures Unfinished(caps + [c], i) == Unfinished(caps, i) + if c.len == UNFINISHED then 1 else 0
    decreases |caps| - i
  {
    if i < |caps| {
      UnfinishedMore(caps, c, i + 1);
    } else {
      assert Unfinished(caps + [c], i + 1) == 0;
    }
  }

  lemma {:induction false} UnfinishedClosed(caps: seq<Cap>, l: nat, c: Cap, i: nat)
    requires i <= |caps| && l < |caps| && caps[l].len == UNFINISHED != c.len
    ensures Unfinished(caps[l := c], i) == Unfinished(caps, i) - if i <= l then 1 else 0
    decreases |caps| - i
  {
    if i < |caps| { UnfinishedClosed(caps, l, c, i + 1); }
  }

  /** Nesting after one more item. */
  lemma {:induction false} NestedMore(items: seq<Item>, a: nat)
    requires a + 1 < |items|
    ensures Nested(items, a, |items|) == Nested(items[..|items| - 1], a, |items| - 1) +
                                         if items[|items| - 1].Open? then 1 else if items[|items| - 1].Close? then -1 else 0
  {
    NestedPrefix(items, a, |items| - 1, |items| - 1);
  }

  lemma {:induction false} OpenPrefix(items: seq<Item>, a: nat, n: nat, m: nat)
    requires n <= m <= |items|
    ensures OpenUntil(items[..m], a, n) <==> OpenUntil(items, a, n)
  {
    forall j | a < j <= n
      ensures Nested(items[..m], a, j) == Nested(items, a, j)
    {
      NestedPrefix(items, a, j, m);
    }
  }

  /** A capture that the last item leaves alone. */
  lemma {:induction false} HoldsOn(src: seq<byte>, items: seq<Item>, ks: seq<nat>, s: nat, a: nat, c: Cap)
    requires |items| == |ks| && a < |items| - 1 && Holds(src, items[..|items| - 1], ks[..|items| - 1], s, a, c)
    requires items[a].Open? && c.len == UNFINISHED ==> Nested(items, a, |items|) > 0
    ensures Holds(src, items, ks, s, a, c)
  {
    var n := |items| - 1;
    PlacePrefix(src, items, ks, s, a, n);
    OpenPrefix(items, a, n, n);
    if items[a].Open? && c.len != UNFINISHED {
      var b: nat :| ClosedBy(items[..n], a, b) && c.init + c.len == Place(src, items[..n], ks[..n], s, b) >= c.init;
      PlacePrefix(src, items, ks, s, b, n);
      OpenPrefix(items, a, b, n);
      NestedPrefix(items, a, b + 1, n);
      assert ClosedBy(items, a, b);
    }
  }

  /** The capture that the last item closes. */
  lemma {:induction false} HoldsClosed(src: seq<byte>, items: seq<Item>, ks: seq<nat>, s: nat, a: nat, c: Cap, t: nat)
    requires |items| == |ks| && a < |items| - 1 && Holds(src, items[..|items| - 1], ks[..|items| - 1], s, a, c)
    requires c.len == UNFINISHED && items[a].Open? && items[|items| - 1].Close?
    requires Nested(items[..|items| - 1], a, |items| - 1) == 1 && t == Place(src, items, ks, s, |items| - 1) >= c.init
    ensures Holds(src, items, ks, s, a, Cap(c.init, t - c.init))
  {
    var n := |items| - 1;
    PlacePrefix(src, items, ks, s, a, n);
    OpenPrefix(items, a, n, n);
    NestedMore(items, a);
    assert ClosedBy(items, a, n);
  }

  /** The last item of a derivation. */
  lemma {:induction false} LastUse(src: seq<byte>, items: seq<Item>, ks: seq<nat>, s: nat)
    requires items != [] && Derive(src, items, ks, s, []).Some?
    ensures |ks| == |items|
    ensures var n := |items| - 1;
            var before := Derive(src, items[..n], ks[..n], s, []);
            before.Some? && before.value.0 == Place(src, items, ks, s, n) &&
            Use(src, items[n], ks[n], before.value.0, before.value.1) == Derive(src, items, ks, s, [])
  {
    var n := |items| - 1;
    assert items == items[..n] + [items[n]] && ks == ks[..n] + [ks[n]];
    DeriveSplit(src, items[..n], [items[n]], ks[..n], [ks[n]], s, []);
    var before := Derive(src, items[..n], ks[..n], s, []).value;
    assert [items[n]][1..] == [] && [ks[n]][1..] == [];
    var u := Use(src, items[n], ks[n], before.0, before.1);
    if u.Some? { assert Derive(src, [], [], u.value.0, u.value.1) == Some(u.value); }
  }

  /** Items that are no parentheses leave captures as they are. */
  lemma {:induction false} OtherItem(src: seq<byte>, items: seq<Item>, ks: seq<nat>, s: nat, caps: seq<Cap>)
    requires items != [] && |items| == |ks|
    requires AllHold(src, items[..|items| - 1], ks[..|items| - 1], s, caps) && Levels(items[..|items| - 1], caps)
    requires var x := items[|items| - 1]; !x.Open? && !x.Position? && !x.Close?
    ensures AllHold(src, items, ks, s, caps) && Levels(items, caps)
  {
    var n, os := |items| - 1, Openers(items);
    assert os == Openers(items[..n]);
    forall i | 0 <= i < |caps|
      ensures Holds(src, items, ks, s, os[i], caps[i])
      ensures Nested(items, os[i], |items|) == Nested(items[..n], os[i], n)
    {
      assert Holds(src, items[..n], ks[..n], s, os[i], caps[i]);
      NestedMore(items, os[i]);
      HoldsOn(src, items, ks, s, os[i], caps[i]);
    }
  }

  /** An item that begins a capture. */
  lemma {:induction false} OpeningItem(src: seq<byte>, items: seq<Item>, ks: seq<nat>, s: nat, caps: seq<Cap>, c: Cap)
    requires items != [] && |items| == |ks|
    requires AllHold(src, items[..|items| - 1], ks[..|items| - 1], s, caps) && Levels(items[..|items| - 1], caps)
    requires var x := items[|items| - 1]; (x.Open? && c.len == UNFINISHED) || (x.Position? && c.len == POSITION)
    requires c.init == Place(src, items, ks, s, |items| - 1)
    ensures AllHold(src, items, ks, s, caps + [c]) && Levels(items, caps + [c])
  {
    var n, os := |items| - 1, Openers(items);
    assert os == Openers(items[..n]) + [n];
    forall i | 0 <= i < |caps|
      ensures Holds(src, items, ks, s, os[i], caps[i])
      ensures caps[i].len == UNFINISHED ==> Nested(items, os[i], |items|) == Unfinished(caps + [c], i)
    {
      assert Holds(src, items[..n], ks[..n], s, os[i], caps[i]);
      NestedMore(items, os[i]);
      UnfinishedMore(caps, c, i);
      if caps[i].len == UNFINISHED { UnfinishedPositive(caps, i); }
      HoldsOn(src, items, ks, s, os[i], caps[i]);
    }
    UnfinishedMore(caps, c, |caps|);
    assert Holds(src, items, ks, s, n, c);
  }

  lemma {:induction false} UnfinishedPositive(caps: seq<Cap>, i: nat)
    requires i < |caps| && caps[i].len == UNFINISHED
    ensures Unfinished(caps, i) >= 1
  {}

  /** A closing parenthesis closes the innermost capture that is open. */
  lemma {:induction false} ClosingItem(src: seq<byte>, items: seq<Item>, ks: seq<nat>, s: nat, caps: seq<Cap>)
    requires items != [] && |items| == |ks| && items[|items| - 1].Close? && LastUnfinished(caps) >= 0
    requires AllHold(src, items[..|items| - 1], ks[..|items| - 1], s, caps) && Levels(items[..|items| - 1], caps)
    requires var t := Place(src, items, ks, s, |items| - 1); forall i :: 0 <= i < |caps| ==> caps[i].init <= t
    ensures var t := Place(src, items, ks, s, |items| - 1);
            var caps' := ClosedAt(caps, LastUnfinished(caps), t);
            AllHold(src, items, ks, s, caps') && Levels(items, caps')
  {
    var n, os, l := |items| - 1, Openers(items), LastUnfinished(caps);
    var t := Place(src, items, ks, s, n);
    var caps' := ClosedAt(caps, l, t);
    assert os == Openers(items[..n]);
    UnfinishedNone(caps, l + 1);
    forall i | 0 <= i < |caps|
      ensures Holds(src, items, ks, s, os[i], caps'[i])
      ensures caps'[i].len == UNFINISHED ==> Nested(items, os[i], |items|) == Unfinished(caps', i)
    {
      assert Holds(src, items[..n], ks[..n], s, os[i], caps[i]);
      NestedMore(items, os[i]);
      UnfinishedClosed(caps, l, caps'[l], i);
      if i == l {
        HoldsClosed(src, items, ks, s, os[i], caps[i], t);
      } else {
        if caps[i].len == UNFINISHED { UnfinishedLess(caps, i + 1, l); }
        HoldsOn(src, items, ks, s, os[i], caps[i]);
      }
    }
  }

  /** Every match leaves its captures as its items say. */
  lemma {:induction false} CapturesHold(src: seq<byte>, items: seq<Item>, ks: seq<nat>, s: nat)
    requires s <= |src| && Derive(src, items, ks, s, []).Some?
    ensures |items| == |ks|
    ensures AllHold(src, items, ks, s, Derive(src, items, ks, s, []).value.1) && Levels(items, Derive(src, items, ks, s, []).value.1)
    decreases |items|
  {
    if items != [] {
      var n := |items| - 1;
      LastUse(src, items, ks, s);
      CapturesHold(src, items[..n], ks[..n], s);
      DeriveMarks(src, items[..n], ks[..n], s, []);
      var before := Derive(src, items[..n], ks[..n], s, []).value;
      hide AllHold, Levels, Derive, Place;
      match items[n] {
        case Open => OpeningItem(src, items, ks, s, before.1, Cap(before.0, UNFINISHED));
        case Position => OpeningItem(src, items, ks, s, before.1, Cap(before.0, POSITION));
        case Close => ClosingItem(src, items, ks, s, before.1);
        case _ => OtherItem(src, items, ks, s, before.1);
      }
    }
  }
}
