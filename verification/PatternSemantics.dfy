/** The meaning of Lua patterns, in two forms.

    `Derive` is declarative: a match of a list of items is a vector of choices, one number per
    item, saying how often a repeated item is used.  It knows nothing about search.
    `First` is the backtracking search, with its capture limit, its depth limit and its errors.
    The theorems relate the two: the search returns the match whose choice vector comes first
    in greedy/lazy priority order, and reports failure only when no choice vector is a match. */
module PatternSemantics {
  import opened PatternSyntax

  const MAX_CAPTURES := 32
  const MAX_DEPTH := 200
  const UNFINISHED := -1
  const POSITION := -2

  /** A capture: its start and its length, or one of the two marks above. */
  datatype Cap = Cap(init: nat, len: int)

  datatype Res = Match(end: nat, caps: seq<Cap>) | NoMatch | Raise(error: Error)

  // ---------------------------------------------------------------- items without choice

  /** Index of the innermost unfinished capture, if any. */
  function LastUnfinished(caps: seq<Cap>): (r: int)
    ensures -1 <= r < |caps|
    ensures r >= 0 ==> caps[r].len == UNFINISHED
    ensures forall k :: r < k < |caps| ==> caps[k].len != UNFINISHED
  {
    if |caps| == 0 then -1
    else if caps[|caps| - 1].len == UNFINISHED then |caps| - 1
    else LastUnfinished(caps[..|caps| - 1])
  }

  function ClosedAt(caps: seq<Cap>, l: nat, s: nat): seq<Cap>
    requires l < |caps|
  {
    caps[l := Cap(caps[l].init, s - caps[l].init)]
  }

  /** Number of unclosed opening delimiters after src[from..upto], counting from `open`. */
  function Nesting(src: seq<byte>, from: nat, upto: nat, b: byte, e: byte, open: int): int
    requires from <= upto <= |src|
    decreases upto - from
  {
    if from == upto then open
    else Nesting(src, from + 1, upto, b, e,
                 if src[from] == e then open - 1 else if src[from] == b then open + 1 else open)
  }

  /** The nesting count first drops to zero just before t. */
  ghost predicate ClosesAt(src: seq<byte>, from: nat, t: nat, b: byte, e: byte, open: int)
    requires from <= t <= |src|
  {
    && Nesting(src, from, t, b, e, open) == 0
    && forall j {:trigger Nesting(src, from, j, b, e, open)} :: from <= j < t ==> Nesting(src, from, j, b, e, open) > 0
  }

  /** src[s..t] starts with b and ends at the e that balances it. */
  ghost predicate IsBalanced(src: seq<byte>, s: nat, t: nat, b: byte, e: byte) {
    && s < t <= |src|
    && src[s] == b
    && ClosesAt(src, s + 1, t, b, e, 1)
  }

  /** Just past the delimiter that closes the last of `open` openings, if there is one. */
  function BalanceEnd(src: seq<byte>, from: nat, b: byte, e: byte, open: nat): (r: int)
    requires from <= |src| && open > 0
    ensures r == -1 || from < r <= |src|
    decreases |src| - from
  {
    if from == |src| then -1
    else if src[from] == e then (if open == 1 then from + 1 else BalanceEnd(src, from + 1, b, e, open - 1))
    else BalanceEnd(src, from + 1, b, e, if src[from] == b then open + 1 else open)
  }

  function BalanceFrom(src: seq<byte>, s: nat, b: byte, e: byte): (r: int)
    ensures r == -1 || s < r <= |src|
  {
    if s < |src| && src[s] == b then BalanceEnd(src, s + 1, b, e, 1) else -1
  }

  predicate AtFrontier(src: seq<byte>, s: nat, x: Single) {
    var previous := if 0 < s <= |src| then src[s - 1] else 0;
    !In(previous, x) && In(At(src, s), x)
  }

  /** The index a back-reference digit names, if that capture may be referred to. */
  function RefIndex(caps: seq<Cap>, digit: byte): (r: int)
    ensures r == -1 || (0 <= r < |caps| && r == digit - DIGIT1 && caps[r].len != UNFINISHED)
  {
    var l := digit - DIGIT1;
    if l < 0 || l >= |caps| || caps[l].len == UNFINISHED then -1 else l
  }

  /** The text of capture c occurs at s. A position capture has no text. */
  predicate Repeats(src: seq<byte>, c: Cap, s: nat) {
    c.len >= 0 && s + c.len <= |src| && c.init + c.len <= |src| &&
    src[c.init..c.init + c.len] == src[s..s + c.len]
  }

  /** End of the longest run of bytes from s that lie in x. */
  function RunEnd(src: seq<byte>, s: nat, x: Single): (t: nat)
    requires s <= |src|
    ensures s <= t <= |src|
    ensures forall j :: s <= j < t ==> In(src[j], x)
    ensures t < |src| ==> !In(src[t], x)
    decreases |src| - s
  {
    if s < |src| && In(src[s], x) then RunEnd(src, s + 1, x) else s
  }

  // ---------------------------------------------------------------- the search

  /** A call of `match` at nesting depth d. */
  function Enter(src: seq<byte>, items: seq<Item>, s: nat, caps: seq<Cap>, d: nat): Res
    requires s <= |src|
    decreases |items|, 2
  {
    if d + 1 > MAX_DEPTH then Raise(TooComplex) else First(src, items, s, caps, d + 1)
  }

  /** Longest repetition first: go on at t, t - 1, ..., low. */
  function TryDown(src: seq<byte>, rest: seq<Item>, low: nat, t: nat, caps: seq<Cap>, d: nat): Res
    requires low <= t <= |src|
    decreases |rest|, 3, t
  {
    var r := Enter(src, rest, t, caps, d);
    if r.NoMatch? && t > low then TryDown(src, rest, low, t - 1, caps, d) else r
  }

  /** Shortest repetition first. */
  function TryUp(src: seq<byte>, rest: seq<Item>, s: nat, x: Single, caps: seq<Cap>, d: nat): Res
    requires s <= |src|
    decreases |rest|, 3, |src| - s
  {
    var r := Enter(src, rest, s, caps, d);
    if r.NoMatch? && s < |src| && In(src[s], x) then TryUp(src, rest, s + 1, x, caps, d) else r
  }

  /** What the matcher finds first for these items at s, running at nesting depth d. */
  function First(src: seq<byte>, items: seq<Item>, s: nat, caps: seq<Cap>, d: nat): Res
    requires s <= |src|
    decreases |items|, 1
  {
    if items == [] then Match(s, caps) else FirstItem(src, items[0], items[1..], s, caps, d)
  }

  function FirstItem(src: seq<byte>, item: Item, rest: seq<Item>, s: nat, caps: seq<Cap>, d: nat): Res
    requires s <= |src|
    decreases |rest| + 1, 0
  {
    match item
    case One(x) =>
      if s < |src| && In(src[s], x) then First(src, rest, s + 1, caps, d) else NoMatch
    case Optional(x) =>
      var r := if s < |src| && In(src[s], x) then Enter(src, rest, s + 1, caps, d) else NoMatch;
      if r.NoMatch? then First(src, rest, s, caps, d) else r
    case Greedy(x) => TryDown(src, rest, s, RunEnd(src, s, x), caps, d)
    case GreedyPlus(x) =>
      if s < |src| && In(src[s], x) then TryDown(src, rest, s + 1, RunEnd(src, s + 1, x), caps, d)
      else NoMatch
    case Lazy(x) => TryUp(src, rest, s, x, caps, d)
    case Balance(b, e) =>
      var t := BalanceFrom(src, s, b, e);
      if t == -1 then NoMatch else First(src, rest, t, caps, d)
    case Frontier(x) => if AtFrontier(src, s, x) then First(src, rest, s, caps, d) else NoMatch
    case Open =>
      if |caps| >= MAX_CAPTURES then Raise(TooManyCaptures)
      else Enter(src, rest, s, caps + [Cap(s, UNFINISHED)], d)
    case Position =>
      if |caps| >= MAX_CAPTURES then Raise(TooManyCaptures)
      else Enter(src, rest, s, caps + [Cap(s, POSITION)], d)
    case Close =>
      var l := LastUnfinished(caps);
      if l == -1 then Raise(BadCapture) else Enter(src, rest, s, ClosedAt(caps, l, s), d)
    case BackRef(digit) =>
      var l := RefIndex(caps, digit);
      if l == -1 then Raise(BadCaptureIndex)
      else if Repeats(src, caps[l], s) then First(src, rest, s + caps[l].len, caps, d)
      else NoMatch
    case AtEnd => if s == |src| then First(src, rest, s, caps, d) else NoMatch
    case Bad(error) => Raise(error)
  }

  // ---------------------------------------------------------------- the declarative meaning

  datatype Option<T> = None | Some(value: T)

  predicate AllIn(src: seq<byte>, s: nat, k: nat, x: Single) {
    s + k <= |src| && forall j :: s <= j < s + k ==> In(src[j], x)
  }

  /** How often the item may be used, apart from what the text allows. */
  predicate CountAllowed(item: Item, k: nat) {
    match item
    case One(_) => k == 1
    case Optional(_) => k <= 1
    case Greedy(_) => true
    case GreedyPlus(_) => k >= 1
    case Lazy(_) => true
    case _ => k == 0
  }

  /** End and captures after using the item k times at s, if that is a match of the item. */
  function Use(src: seq<byte>, item: Item, k: nat, s: nat, caps: seq<Cap>): Option<(nat, seq<Cap>)> {
    if !CountAllowed(item, k) then None
    else
      match item
      case Balance(b, e) =>
        var t := BalanceFrom(src, s, b, e);
        if t == -1 then None else Some((t, caps))
      case Frontier(x) => if AtFrontier(src, s, x) then Some((s, caps)) else None
      case Open => if |caps| >= MAX_CAPTURES then None else Some((s, caps + [Cap(s, UNFINISHED)]))
      case Position => if |caps| >= MAX_CAPTURES then None else Some((s, caps + [Cap(s, POSITION)]))
      case Close =>
        var l := LastUnfinished(caps);
        if l == -1 then None else Some((s, ClosedAt(caps, l, s)))
      case BackRef(digit) =>
        var l := RefIndex(caps, digit);
        if l == -1 || !Repeats(src, caps[l], s) then None else Some((s + caps[l].len, caps))
      case AtEnd => if s == |src| then Some((s, caps)) else None
      case Bad(_) => None
      case _ => if AllIn(src, s, k, item.x) then Some((s + k, caps)) else None
  }

  /** End and captures of the match that the choice vector ks describes, if it describes one. */
  function Derive(src: seq<byte>, items: seq<Item>, ks: seq<nat>, s: nat, caps: seq<Cap>): Option<(nat, seq<Cap>)>
    decreases |items|
  {
    if |ks| != |items| then None
    else if items == [] then Some((s, caps))
    else
      match Use(src, items[0], ks[0], s, caps)
      case None => None
      case Some(u) => Derive(src, items[1..], ks[1..], u.0, u.1)
  }

  /** Priority: at the first item where the vectors differ, a lazy item prefers the smaller
      number and every other item the larger one. */
  predicate Before(items: seq<Item>, ks: seq<nat>, other: seq<nat>)
    requires |ks| == |other| == |items|
  {
    items != [] &&
    if ks[0] == other[0] then Before(items[1..], ks[1..], other[1..])
    else if items[0].Lazy? then ks[0] < other[0] else ks[0] > other[0]
  }

  ghost predicate Best(src: seq<byte>, items: seq<Item>, s: nat, caps: seq<Cap>, ks: seq<nat>, r: (nat, seq<Cap>)) {
    && Derive(src, items, ks, s, caps) == Some(r)
    && forall other :: Derive(src, items, other, s, caps).Some? ==>
         |other| == |ks| == |items| && (other == ks || Before(items, ks, other))
  }

  ghost predicate Unmatchable(src: seq<byte>, items: seq<Item>, s: nat, caps: seq<Cap>) {
    forall ks :: Derive(src, items, ks, s, caps).None?
  }

  /** The search result r is right for these items at s, whenever it is not an error. */
  ghost predicate Right(src: seq<byte>, items: seq<Item>, s: nat, caps: seq<Cap>, r: Res) {
    && (r.Match? ==> exists ks :: Best(src, items, s, caps, ks, (r.end, r.caps)))
    && (r.NoMatch? ==> Unmatchable(src, items, s, caps))
  }

  // ---------------------------------------------------------------- balance, declaratively

  lemma {:induction false} ClosesLater(src: seq<byte>, from: nat, t: nat, b: byte, e: byte, open: int, next: int)
    requires from < t <= |src| && open > 0
    requires next == if src[from] == e then open - 1 else if src[from] == b then open + 1 else open
    ensures ClosesAt(src, from, t, b, e, open) <==> (t == from + 1 && next == 0) || (next > 0 && ClosesAt(src, from + 1, t, b, e, next))
  {
    var after: nat := from + 1;
    assert forall j {:trigger Nesting(src, from, j, b, e, open)} {:trigger Nesting(src, after, j, b, e, next)} ::
        after <= j <= t ==> Nesting(src, from, j, b, e, open) == Nesting(src, after, j, b, e, next);
    assert Nesting(src, from, from, b, e, open) == open && Nesting(src, after, after, b, e, next) == next;
  }

  lemma {:induction false} BalanceEndMeaning(src: seq<byte>, from: nat, b: byte, e: byte, open: nat, t: nat)
    requires from <= t <= |src| && open > 0
    ensures BalanceEnd(src, from, b, e, open) == t <==> ClosesAt(src, from, t, b, e, open)
    decreases |src| - from
  {
    if from < t {
      var next := if src[from] == e then open - 1 else if src[from] == b then open + 1 else open;
      ClosesLater(src, from, t, b, e, open, next);
      if next > 0 { BalanceEndMeaning(src, from + 1, b, e, next, t); }
    }
  }

  /** `%bxy` at s ends at t exactly when src[s..t] is balanced; otherwise it fails. */
  lemma BalanceMeaning(src: seq<byte>, s: nat, b: byte, e: byte)
    ensures forall t: nat :: BalanceFrom(src, s, b, e) == t <==> IsBalanced(src, s, t, b, e)
  {
    forall t: nat
      ensures BalanceFrom(src, s, b, e) == t <==> IsBalanced(src, s, t, b, e)
    {
      if s < |src| && src[s] == b && s < t <= |src| {
        BalanceEndMeaning(src, s + 1, b, e, 1, t);
      }
    }
  }

  // ---------------------------------------------------------------- soundness and completeness

  lemma {:induction false} RunMeaning(src: seq<byte>, s: nat, k: nat, x: Single)
    requires s <= |src|
    ensures AllIn(src, s, k, x) <==> s + k <= RunEnd(src, s, x)
  {
    var t := RunEnd(src, s, x);
    if t < s + k <= |src| {
      assert s <= t < s + k && !In(src[t], x);
    }
  }

  lemma {:induction false} TryDownMeaning(src: seq<byte>, rest: seq<Item>, low: nat, top: nat, caps: seq<Cap>, d: nat)
    returns (t: nat)
    requires low <= top <= |src|
    ensures low <= t <= top && TryDown(src, rest, low, top, caps, d) == Enter(src, rest, t, caps, d)
    ensures forall j :: t < j <= top ==> Enter(src, rest, j, caps, d).NoMatch?
    ensures TryDown(src, rest, low, top, caps, d).NoMatch? ==> t == low
    decreases top
  {
    t := top;
    if Enter(src, rest, top, caps, d).NoMatch? && top > low {
      t := TryDownMeaning(src, rest, low, top - 1, caps, d);
    }
  }

  lemma {:induction false} TryUpMeaning(src: seq<byte>, rest: seq<Item>, s: nat, x: Single, caps: seq<Cap>, d: nat)
    returns (t: nat)
    requires s <= |src|
    ensures s <= t <= RunEnd(src, s, x) && TryUp(src, rest, s, x, caps, d) == Enter(src, rest, t, caps, d)
    ensures forall j :: s <= j < t ==> Enter(src, rest, j, caps, d).NoMatch?
    ensures TryUp(src, rest, s, x, caps, d).NoMatch? ==> t == RunEnd(src, s, x)
    decreases |src| - s
  {
    t := s;
    if Enter(src, rest, s, caps, d).NoMatch? && s < |src| && In(src[s], x) {
      t := TryUpMeaning(src, rest, s + 1, x, caps, d);
    }
  }

  /** Choosing k for the first item leads to no match. */
  ghost predicate Dead(src: seq<byte>, items: seq<Item>, s: nat, caps: seq<Cap>, k: nat)
    requires items != []
  {
    match Use(src, items[0], k, s, caps)
    case None => true
    case Some(u) => Unmatchable(src, items[1..], u.0, u.1)
  }

  lemma DeriveHead(src: seq<byte>, items: seq<Item>, ks: seq<nat>, s: nat, caps: seq<Cap>)
    requires items != [] && Derive(src, items, ks, s, caps).Some?
    ensures |ks| == |items| && !Dead(src, items, s, caps, ks[0])
  {
    var u := Use(src, items[0], ks[0], s, caps).value;
    assert Derive(src, items[1..], ks[1..], u.0, u.1).Some?;
  }

  lemma AllDead(src: seq<byte>, items: seq<Item>, s: nat, caps: seq<Cap>)
    requires items != [] && forall k: nat :: Dead(src, items, s, caps, k)
    ensures Unmatchable(src, items, s, caps)
  {
    forall ks
      ensures Derive(src, items, ks, s, caps).None?
    {
      if Derive(src, items, ks, s, caps).Some? { DeriveHead(src, items, ks, s, caps); }
    }
  }

  lemma BestHead(src: seq<byte>, items: seq<Item>, s: nat, caps: seq<Cap>, k: nat, tail: seq<nat>, r: (nat, seq<Cap>))
    requires items != [] && Use(src, items[0], k, s, caps).Some?
    requires Best(src, items[1..], Use(src, items[0], k, s, caps).value.0,
                  Use(src, items[0], k, s, caps).value.1, tail, r)
    requires forall j: nat :: (if items[0].Lazy? then j < k else j > k) ==> Dead(src, items, s, caps, j)
    ensures Best(src, items, s, caps, [k] + tail, r)
  {
    var ks := [k] + tail;
    var u := Use(src, items[0], k, s, caps).value;
    assert ks[1..] == tail;
    assert Derive(src, items, ks, s, caps) == Derive(src, items[1..], tail, u.0, u.1);
    forall other | Derive(src, items, other, s, caps).Some?
      ensures |other| == |ks| && (other == ks || Before(items, ks, other))
    {
      DeriveHead(src, items, other, s, caps);
      if other[0] == k {
        assert Derive(src, items[1..], other[1..], u.0, u.1).Some?;
        assert other == [k] + other[1..];
      }
    }
  }

  /** A first item that leaves at most one way to go on. */
  lemma RightStep(src: seq<byte>, items: seq<Item>, s: nat, caps: seq<Cap>, k: nat, r: Res)
    requires items != []
    requires forall j: nat :: j != k ==> Use(src, items[0], j, s, caps).None?
    requires match Use(src, items[0], k, s, caps)
             case None => !r.Match?
             case Some(u) => Right(src, items[1..], u.0, u.1, r)
    ensures Right(src, items, s, caps, r)
  {
    match Use(src, items[0], k, s, caps) {
      case None => AllDead(src, items, s, caps);
      case Some(u) =>
        if r.Match? {
          var tail :| Best(src, items[1..], u.0, u.1, tail, (r.end, r.caps));
          BestHead(src, items, s, caps, k, tail, (r.end, r.caps));
        } else if r.NoMatch? {
          AllDead(src, items, s, caps);
        }
    }
  }

  /** A repeated first item: k is tried after everything preferred to it has failed. */
  lemma RightRepeat(src: seq<byte>, items: seq<Item>, s: nat, caps: seq<Cap>, k: nat, r: Res)
    requires items != [] && Use(src, items[0], k, s, caps).Some?
    requires Right(src, items[1..], Use(src, items[0], k, s, caps).value.0,
                   Use(src, items[0], k, s, caps).value.1, r)
    requires forall j: nat :: (if items[0].Lazy? then j < k else j > k) ==> Dead(src, items, s, caps, j)
    requires r.NoMatch? ==> forall j: nat :: Dead(src, items, s, caps, j)
    ensures Right(src, items, s, caps, r)
  {
    var u := Use(src, items[0], k, s, caps).value;
    if r.Match? {
      var tail :| Best(src, items[1..], u.0, u.1, tail, (r.end, r.caps));
      BestHead(src, items, s, caps, k, tail, (r.end, r.caps));
    } else if r.NoMatch? {
      AllDead(src, items, s, caps);
    }
  }

  /** The continuation of the first item is searched correctly wherever it is entered. */
  ghost predicate RestRight(src: seq<byte>, rest: seq<Item>, caps: seq<Cap>, d: nat) {
    forall t: nat :: t <= |src| ==> Right(src, rest, t, caps, Enter(src, rest, t, caps, d))
  }

  lemma {:induction false} GreedyRight(src: seq<byte>, items: seq<Item>, s: nat, caps: seq<Cap>, d: nat, low: nat)
    requires s <= |src| && items != []
    requires (items[0].Greedy? && low == s) ||
             (items[0].GreedyPlus? && low == s + 1 && s < |src| && In(src[s], items[0].x))
    requires RestRight(src, items[1..], caps, d)
    ensures Right(src, items, s, caps,
                  TryDown(src, items[1..], low, RunEnd(src, low, items[0].x), caps, d))
  {
    var rest, x := items[1..], items[0].x;
    var top := RunEnd(src, low, x);
    assert RunEnd(src, s, x) == top;
    var t := TryDownMeaning(src, rest, low, top, caps, d);
    var r := TryDown(src, rest, low, top, caps, d);
    RunMeaning(src, s, t - s, x);
    assert Use(src, items[0], t - s, s, caps) == Some((t, caps));
    forall k: nat | k > t - s || r.NoMatch?
      ensures Dead(src, items, s, caps, k)
    {
      RunMeaning(src, s, k, x);
      if low <= s + k <= top {
        assert Enter(src, rest, s + k, caps, d).NoMatch?;
      }
    }
    RightRepeat(src, items, s, caps, t - s, r);
  }

  lemma {:induction false} LazyRight(src: seq<byte>, items: seq<Item>, s: nat, caps: seq<Cap>, d: nat)
    requires s <= |src| && items != [] && items[0].Lazy?
    requires RestRight(src, items[1..], caps, d)
    ensures Right(src, items, s, caps, TryUp(src, items[1..], s, items[0].x, caps, d))
  {
    var rest, x := items[1..], items[0].x;
    var t := TryUpMeaning(src, rest, s, x, caps, d);
    var r := TryUp(src, rest, s, x, caps, d);
    RunMeaning(src, s, t - s, x);
    assert Use(src, items[0], t - s, s, caps) == Some((t, caps));
    forall k: nat | k < t - s || r.NoMatch?
      ensures Dead(src, items, s, caps, k)
    {
      RunMeaning(src, s, k, x);
      if s + k <= RunEnd(src, s, x) {
        assert Enter(src, rest, s + k, caps, d).NoMatch?;
      }
    }
    RightRepeat(src, items, s, caps, t - s, r);
  }

  lemma {:induction false} OptionalRight(src: seq<byte>, items: seq<Item>, s: nat, caps: seq<Cap>, d: nat)
    requires s <= |src| && items != [] && items[0].Optional?
    requires Right(src, items[1..], s, caps, First(src, items[1..], s, caps, d))
    requires s < |src| ==> Right(src, items[1..], s + 1, caps, Enter(src, items[1..], s + 1, caps, d))
    ensures Right(src, items, s, caps, First(src, items, s, caps, d))
  {
    var rest, x := items[1..], items[0].x;
    var r := First(src, items, s, caps, d);
    assert First(src, items, s, caps, d) == FirstItem(src, items[0], rest, s, caps, d);
    assert Use(src, items[0], 0, s, caps) == Some((s, caps));
    if s < |src| && In(src[s], x) {
      assert Use(src, items[0], 1, s, caps) == Some((s + 1, caps));
      if Enter(src, rest, s + 1, caps, d).NoMatch? {
        assert Dead(src, items, s, caps, 1);
        RightRepeat(src, items, s, caps, 0, r);
      } else {
        RightRepeat(src, items, s, caps, 1, r);
      }
    } else {
      assert Dead(src, items, s, caps, 1);
      RightRepeat(src, items, s, caps, 0, r);
    }
  }

  lemma {:induction false} EnterRight(src: seq<byte>, items: seq<Item>, s: nat, caps: seq<Cap>, d: nat)
    requires s <= |src|
    ensures Right(src, items, s, caps, Enter(src, items, s, caps, d))
    decreases |items|, 1
  {
    if d + 1 <= MAX_DEPTH { SearchRight(src, items, s, caps, d + 1); }
  }

  /** Sound, complete and in priority order: a reported match is the one whose choice vector
      comes first, and "no match" is reported only when no choice vector is a match. */
  lemma {:induction false} SearchRight(src: seq<byte>, items: seq<Item>, s: nat, caps: seq<Cap>, d: nat)
    requires s <= |src|
    ensures Right(src, items, s, caps, First(src, items, s, caps, d))
    decreases |items|, 0
  {
    if items == [] {
      assert Derive(src, items, [], s, caps) == Some((s, caps));
      assert Best(src, items, s, caps, [], (s, caps));
      return;
    }
    var rest, r := items[1..], First(src, items, s, caps, d);
    assert First(src, items, s, caps, d) == FirstItem(src, items[0], rest, s, caps, d);
    match items[0] {
      case Optional(x) =>
        SearchRight(src, rest, s, caps, d);
        if s < |src| { EnterRight(src, rest, s + 1, caps, d); }
        OptionalRight(src, items, s, caps, d);
      case Greedy(x) =>
        forall t: nat | t <= |src| { EnterRight(src, rest, t, caps, d); }
        GreedyRight(src, items, s, caps, d, s);
      case GreedyPlus(x) =>
        if s < |src| && In(src[s], x) {
          forall t: nat | t <= |src| { EnterRight(src, rest, t, caps, d); }
          GreedyRight(src, items, s, caps, d, s + 1);
        } else {
          forall k: nat
            ensures Dead(src, items, s, caps, k)
          {
            if k >= 1 && s < |src| { assert !In(src[s], x); }
          }
          AllDead(src, items, s, caps);
        }
      case Lazy(x) =>
        forall t: nat | t <= |src| { EnterRight(src, rest, t, caps, d); }
        LazyRight(src, items, s, caps, d);
      case One(x) =>
        if s < |src| { SearchRight(src, rest, s + 1, caps, d); }
        RightStep(src, items, s, caps, 1, r);
      case _ =>
        SingleWayRight(src, items, s, caps, d);
    }
  }

  lemma {:induction false} SingleWayRight(src: seq<byte>, items: seq<Item>, s: nat, caps: seq<Cap>, d: nat)
    requires s <= |src| && items != []
    requires !items[0].One? && !items[0].Optional? && !items[0].Greedy? && !items[0].GreedyPlus? && !items[0].Lazy?
    ensures Right(src, items, s, caps, First(src, items, s, caps, d))
    decreases |items|, 0, 0
  {
    var rest, r := items[1..], First(src, items, s, caps, d);
    assert First(src, items, s, caps, d) == FirstItem(src, items[0], rest, s, caps, d);
    match Use(src, items[0], 0, s, caps) {
      case None =>
        assert !r.Match?;
      case Some(u) =>
        SearchRight(src, rest, u.0, u.1, d);
        EnterRight(src, rest, u.0, u.1, d);
        assert r == First(src, rest, u.0, u.1, d) || r == Enter(src, rest, u.0, u.1, d);
    }
    RightStep(src, items, s, caps, 0, r);
  }

  // ---------------------------------------------------------------- errors are static

  /** Captures lie within src[..s]. */
  ghost predicate Sane(src: seq<byte>, caps: seq<Cap>, s: nat) {
    && s <= |src|
    && forall i :: 0 <= i < |caps| ==>
         caps[i].init <= s && caps[i].len >= POSITION && caps[i].init + caps[i].len <= s
  }

  /** Which captures are unfinished. */
  function Marks(caps: seq<Cap>): (m: seq<bool>)
    ensures |m| == |caps|
  {
    seq(|caps|, i requires 0 <= i < |caps| => caps[i].len == UNFINISHED)
  }

  function LastMarked(marks: seq<bool>): (r: int)
    ensures -1 <= r < |marks|
  {
    if |marks| == 0 then -1
    else if marks[|marks| - 1] then |marks| - 1
    else LastMarked(marks[..|marks| - 1])
  }

  /** The marks after an item, or the error it must raise: neither depends on the subject. */
  function Remark(item: Item, marks: seq<bool>): (seq<bool>, Option<Error>) {
    match item
    case Open => if |marks| >= MAX_CAPTURES then (marks, Some(TooManyCaptures)) else (marks + [true], None)
    case Position => if |marks| >= MAX_CAPTURES then (marks, Some(TooManyCaptures)) else (marks + [false], None)
    case Close =>
      var l := LastMarked(marks);
      if l == -1 then (marks, Some(BadCapture)) else (marks[l := false], None)
    case BackRef(digit) =>
      var l := digit - DIGIT1;
      if l < 0 || l >= |marks| || marks[l] then (marks, Some(BadCaptureIndex)) else (marks, None)
    case Bad(error) => (marks, Some(error))
    case _ => (marks, None)
  }

  /** The first fault of the items, read from left to right. */
  function Fault(items: seq<Item>, marks: seq<bool>): Option<Error> {
    if items == [] then None
    else
      var r := Remark(items[0], marks);
      if r.1.Some? then r.1 else Fault(items[1..], r.0)
  }

  function FinalMarks(items: seq<Item>, marks: seq<bool>): seq<bool> {
    if items == [] then marks else FinalMarks(items[1..], Remark(items[0], marks).0)
  }

  lemma {:induction false} LastMarkedMeaning(caps: seq<Cap>)
    ensures LastUnfinished(caps) == LastMarked(Marks(caps))
  {
    if |caps| > 0 {
      assert Marks(caps[..|caps| - 1]) == Marks(caps)[..|caps| - 1];
      LastMarkedMeaning(caps[..|caps| - 1]);
    }
  }

  /** One use of an item keeps the captures sane and moves their marks as Remark says. */
  lemma UseMarks(src: seq<byte>, item: Item, k: nat, s: nat, caps: seq<Cap>)
    requires Sane(src, caps, s)
    ensures match Use(src, item, k, s, caps)
            case None => true
            case Some(u) => s <= u.0 && Sane(src, u.1, u.0) && Remark(item, Marks(caps)) == (Marks(u.1), None)
    ensures Remark(item, Marks(caps)).1.Some? ==> Use(src, item, k, s, caps).None?
  {
    LastMarkedMeaning(caps);
    match Use(src, item, k, s, caps) {
      case None =>
      case Some(u) =>
        match item {
          case Open => assert Marks(u.1) == Marks(caps) + [true];
          case Position => assert Marks(u.1) == Marks(caps) + [false];
          case Close => assert Marks(u.1) == Marks(caps)[LastUnfinished(caps) := false];
          case _ =>
        }
    }
  }

  /** What any derivation does to the captures. */
  lemma {:induction false} DeriveMarks(src: seq<byte>, items: seq<Item>, ks: seq<nat>, s: nat, caps: seq<Cap>)
    requires Sane(src, caps, s)
    ensures match Derive(src, items, ks, s, caps)
            case None => true
            case Some(u) =>
              && s <= u.0 && Sane(src, u.1, u.0)
              && Fault(items, Marks(caps)).None?
              && Marks(u.1) == FinalMarks(items, Marks(caps))
    decreases |items|
  {
    if items != [] && |ks| == |items| {
      UseMarks(src, items[0], ks[0], s, caps);
      match Use(src, items[0], ks[0], s, caps) {
        case None =>
        case Some(u) => DeriveMarks(src, items[1..], ks[1..], u.0, u.1);
      }
    }
  }

  /** An error raised by the search is the first fault of the pattern, or the pattern is too
      long for the depth limit. */
  ghost predicate Explained(items: seq<Item>, marks: seq<bool>, d: nat, r: Res) {
    r.Raise? ==> (r.error == TooComplex && d + |items| > MAX_DEPTH) || Fault(items, marks) == Some(r.error)
  }

  lemma {:induction false} EnterExplained(src: seq<byte>, items: seq<Item>, s: nat, caps: seq<Cap>, d: nat)
    requires Sane(src, caps, s)
    ensures Explained(items, Marks(caps), d + 1, Enter(src, items, s, caps, d))
    decreases |items|, 1
  {
    if d + 1 <= MAX_DEPTH { SearchExplained(src, items, s, caps, d + 1); }
  }

  lemma {:induction false} SearchExplained(src: seq<byte>, items: seq<Item>, s: nat, caps: seq<Cap>, d: nat)
    requires Sane(src, caps, s)
    ensures Explained(items, Marks(caps), d, First(src, items, s, caps, d))
    decreases |items|, 0
  {
    if items == [] { return; }
    var rest := items[1..];
    assert First(src, items, s, caps, d) == FirstItem(src, items[0], rest, s, caps, d);
    match items[0] {
      case Optional(x) =>
        SearchExplained(src, rest, s, caps, d);
        if s < |src| { EnterExplained(src, rest, s + 1, caps, d); }
      case Greedy(x) =>
        var t := TryDownMeaning(src, rest, s, RunEnd(src, s, x), caps, d);
        EnterExplained(src, rest, t, caps, d);
      case GreedyPlus(x) =>
        if s < |src| && In(src[s], x) {
          var t := TryDownMeaning(src, rest, s + 1, RunEnd(src, s + 1, x), caps, d);
          EnterExplained(src, rest, t, caps, d);
        }
      case Lazy(x) =>
        var t := TryUpMeaning(src, rest, s, x, caps, d);
        EnterExplained(src, rest, t, caps, d);
      case One(x) =>
        if s < |src| { SearchExplained(src, rest, s + 1, caps, d); }
      case _ =>
        SingleWayExplained(src, items, s, caps, d);
    }
  }

  lemma {:induction false} SingleWayExplained(src: seq<byte>, items: seq<Item>, s: nat, caps: seq<Cap>, d: nat)
    requires Sane(src, caps, s) && items != []
    requires !items[0].One? && !items[0].Optional? && !items[0].Greedy? && !items[0].GreedyPlus? && !items[0].Lazy?
    ensures Explained(items, Marks(caps), d, First(src, items, s, caps, d))
    decreases |items|, 0, 0
  {
    var rest, r := items[1..], First(src, items, s, caps, d);
    assert First(src, items, s, caps, d) == FirstItem(src, items[0], rest, s, caps, d);
    LastMarkedMeaning(caps);
    UseMarks(src, items[0], 0, s, caps);
    match Use(src, items[0], 0, s, caps) {
      case None =>
      case Some(u) =>
        assert r == First(src, rest, u.0, u.1, d) || r == Enter(src, rest, u.0, u.1, d);
        SearchExplained(src, rest, u.0, u.1, d);
        EnterExplained(src, rest, u.0, u.1, d);
    }
  }

  /** A faultless pattern that fits the depth limit never raises an error on any subject: it
      matches or it does not. */
  lemma FaultlessIsTotal(src: seq<byte>, items: seq<Item>, s: nat)
    requires s <= |src| && Fault(items, []).None? && |items| < MAX_DEPTH
    ensures !Enter(src, items, s, [], 0).Raise?
  {
    EnterExplained(src, items, s, [], 0);
  }

  /** What `match` means for a caller that starts with no captures: the best derivation, with
      every capture inside the subject; or no derivation; or an error explained by the pattern. */
  lemma MatchMeaning(src: seq<byte>, items: seq<Item>, s: nat)
    requires s <= |src|
    ensures match Enter(src, items, s, [], 0)
            case Match(e, caps) =>
              && s <= e <= |src| && Sane(src, caps, e)
              && Fault(items, []).None? && Marks(caps) == FinalMarks(items, [])
              && exists ks :: Best(src, items, s, [], ks, (e, caps))
            case NoMatch => Unmatchable(src, items, s, [])
            case Raise(error) => (error == TooComplex && |items| >= MAX_DEPTH) || Fault(items, []) == Some(error)
  {
    EnterRight(src, items, s, [], 0);
    EnterExplained(src, items, s, [], 0);
    var r := Enter(src, items, s, [], 0);
    if r.Match? {
      var ks :| Best(src, items, s, [], ks, (r.end, r.caps));
      DeriveMarks(src, items, ks, s, []);
    }
  }
}
