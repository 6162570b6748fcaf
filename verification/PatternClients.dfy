/** The string functions built on the matcher: plain search, `find`/`match`, `gmatch` and
    `gsub` (luajit/lib_string.c). */
module PatternClients {
  import opened PatternSyntax
  import opened PatternSemantics
  import opened PatternMatcher
  import opened PatternCaptures

  /** The search as the clients start it: no captures, depth 0. */
  function Attempt(src: seq<byte>, items: seq<Item>, s: nat): Res
    requires s <= |src|
  {
    Enter(src, items, s, [], 0)
  }

  // ---------------------------------------------------------------- plain search

  predicate OccursAt(s1: seq<byte>, s2: seq<byte>, i: nat) {
    i + |s2| <= |s1| && s1[i..i + |s2|] == s2
  }

  /** `memchr`: index of the first c in s[from..upto], or -1. */
  method MemChr(s: seq<byte>, from: nat, upto: nat, c: byte) returns (i: int)
    requires from <= upto <= |s|
    ensures i == -1 || from <= i < upto
    ensures i != -1 ==> s[i] == c && forall j :: from <= j < i ==> s[j] != c
    ensures i == -1 ==> forall j :: from <= j < upto ==> s[j] != c
  {
    i := from;
    while i < upto
      invariant from <= i <= upto
      invariant forall j :: from <= j < i ==> s[j] != c
    {
      if s[i] == c { return; }
      i := i + 1;
    }
    i := -1;
  }

  /** `lmemfind`: the first occurrence of s2 in s1, or -1 if there is none. */
  method MemFind(s1: seq<byte>, s2: seq<byte>) returns (r: int)
    ensures r >= 0 ==> OccursAt(s1, s2, r) && forall j: nat :: j < r ==> !OccursAt(s1, s2, j)
    ensures r < 0 ==> r == -1 && forall j: nat :: !OccursAt(s1, s2, j)
  {
    if |s2| == 0 {
      assert OccursAt(s1, s2, 0);
      return 0;
    }
    if |s2| > |s1| { return -1; }
    var l2 := |s2| - 1;
    var start, l1 := 0, |s1| - l2;  // an occurrence can only start before start + l1
    while l1 > 0
      invariant start + l1 == |s1| - l2 && 0 <= l1
      invariant forall j: nat :: j < start ==> !OccursAt(s1, s2, j)
    {
      forall j: nat { OccursStep(s1, s2, j); }
      var init := MemChr(s1, start, start + l1, s2[0]);
      if init == -1 { break; }
      init := init + 1;
      if s1[init..init + l2] == s2[1..] { return init - 1; }
      l1 := l1 - (init - start);
      start := init;
    }
    forall j: nat { OccursStep(s1, s2, j); }
    return -1;
  }

  lemma OccursStep(s1: seq<byte>, s2: seq<byte>, i: nat)
    requires |s2| > 0
    ensures OccursAt(s1, s2, i) <==>
            i + |s2| <= |s1| && s1[i] == s2[0] && s1[i + 1..i + |s2|] == s2[1..]
  {
    if i + |s2| <= |s1| {
      assert s1[i..i + |s2|] == [s1[i]] + s1[i + 1..i + |s2|];
      assert s2 == [s2[0]] + s2[1..];
    }
  }

  /** The bytes that make `find` use the pattern matcher. */
  const SPECIALS: set<byte> := {CARET, DOLLAR, STAR, PLUS, QUESTION, DOT, LPAREN, LBRACKET, ESC, MINUS}

  /** `strpbrk(p, SPECIALS) == NULL`: looks only as far as the first zero byte. */
  function IsPlain(p: seq<byte>): bool {
    p == [] || p[0] == 0 || (p[0] !in SPECIALS && IsPlain(p[1..]))
  }

  /** The number of bytes of p before its first closing parenthesis or zero byte. */
  function Literals(p: seq<byte>): (n: nat)
    ensures n <= |p| && (n == |p| || p[n] == RPAREN || p[n] == 0)
    ensures n == |p| <==> RPAREN !in p && 0 !in p
    ensures forall i :: 0 <= i < n ==> p[i] != RPAREN && p[i] != 0
  {
    if p == [] || p[0] == RPAREN || p[0] == 0 then 0 else 1 + Literals(p[1..])
  }

  lemma {:induction false} PlainLiterals(p: seq<byte>)
    requires IsPlain(p)
    ensures forall i :: 0 <= i < Literals(p) ==> p[i] !in SPECIALS
    ensures Literals(p) < |p| && p[Literals(p)] == RPAREN ==> p[Literals(p)] !in SPECIALS
  {
    if p != [] && p[0] != RPAREN && p[0] != 0 { PlainLiterals(p[1..]); }
  }

  /** What the matcher does with the text of a plain pattern from index i on. */
  lemma {:induction false} PlainItems(src: seq<byte>, p: seq<byte>, i: nat, s: nat, d: nat)
    requires IsPlain(p) && i <= Literals(p) && s <= |src|
    ensures var n := Literals(p);
            First(src, Items(p, i), s, [], d) ==
              if !OccursAt(src[s..], p[i..n], 0) then NoMatch
              else if n < |p| && p[n] == RPAREN then Raise(BadCapture)
              else Match(s + n - i, [])
    decreases |p| - i
  {
    var n := Literals(p);
    PlainLiterals(p);
    if i == n {
      assert p[i..n] == [] && OccursAt(src[s..], p[i..n], 0);
      if n < |p| && p[n] == RPAREN { Unfold(src, Close, Items(p, n + 1), s, [], d); }
    } else {
      var rest := Items(p, i + 1);
      assert Items(p, i) == [One(Literal(p[i]))] + rest;
      Unfold(src, One(Literal(p[i])), rest, s, [], d);
      if s < |src| {
        PlainItems(src, p, i + 1, s + 1, d);
        assert p[i..n] == [p[i]] + p[i + 1..n];
        OccursNext(src, p[i], p[i + 1..n], s);
      }
    }
  }

  lemma OccursNext(src: seq<byte>, c: byte, cs: seq<byte>, s: nat)
    requires s < |src|
    ensures OccursAt(src[s..], [c] + cs, 0) <==> src[s] == c && OccursAt(src[s + 1..], cs, 0)
  {
    OccursStep(src[s..], [c] + cs, 0);
    assert ([c] + cs)[1..] == cs;
    if |cs| < |src[s..]| { assert src[s..][1..1 + |cs|] == src[s + 1..][0..|cs|]; }
  }

  lemma PlainAttempt(src: seq<byte>, p: seq<byte>, s: nat)
    requires IsPlain(p) && s <= |src|
    ensures var n := Literals(p);
            Attempt(src, Items(p, 0), s) ==
              if !OccursAt(src, p[..n], s) then NoMatch
              else if n < |p| && p[n] == RPAREN then Raise(BadCapture)
              else Match(s + n, [])
  {
    var n := Literals(p);
    PlainItems(src, p, 0, s, 1);
    assert p[0..n] == p[..n];
    if s + n <= |src| { assert src[s..][0..n] == src[s..s + n]; }
  }

  /** On every subject, matching p means that it occurs. */
  ghost predicate MatchingIsOccurring(p: seq<byte>) {
    forall src: seq<byte>, s: nat :: s <= |src| ==> MatchesAsItOccurs(src, p, s)
  }

  predicate MatchesAsItOccurs(src: seq<byte>, p: seq<byte>, s: nat)
    requires s <= |src|
  {
    Attempt(src, Items(p, 0), s) == if OccursAt(src, p, s) then Match(s + |p|, []) else NoMatch
  }

  /** When the shortcut of `find` is right: among the patterns that it takes, exactly for those
      without a closing parenthesis, which it does not look for, and without a zero byte, where
      `strpbrk` and the matcher stop but the plain search does not. */
  lemma PlainSearchIsMatching(p: seq<byte>)
    requires IsPlain(p)
    ensures MatchingIsOccurring(p) <==> RPAREN !in p && 0 !in p
  {
    var n := Literals(p);
    if n == |p| {
      assert p[..n] == p;
      forall src: seq<byte>, s: nat | s <= |src|
        ensures MatchesAsItOccurs(src, p, s)
      {
        PlainAttempt(src, p, s);
      }
    } else {
      var src := p[..n];
      PlainAttempt(src, p, 0);
      assert OccursAt(src, p[..n], 0);
      assert !MatchesAsItOccurs(src, p, 0);
    }
  }

  /** The shortcut finds a stray `)` where the matcher would raise an error. */
  lemma PlainSearchHidesAnError()
    ensures IsPlain([RPAREN]) && OccursAt([RPAREN], [RPAREN], 0)
    ensures Attempt([RPAREN], Items([RPAREN], 0), 0) == Raise(BadCapture)
  {
    var p := [RPAREN];
    assert IsPlain(p[1..]);
    PlainAttempt(p, p, 0);
    assert Literals(p) == 0 && p[..0] == [];
  }

  /** The shortcut does not find a pattern that ends at a zero byte for the matcher. */
  lemma PlainSearchMissesAMatch(c: byte)
    requires c != 0 && c != RPAREN && c !in SPECIALS
    ensures IsPlain([c, 0]) && forall j: nat :: !OccursAt([c], [c, 0], j)
    ensures Attempt([c], Items([c, 0], 0), 0) == Match(1, [])
  {
    var p := [c, 0];
    assert p[1..] == [0] && IsPlain(p[1..]);
    assert Literals(p[1..]) == 0;
    PlainAttempt([c], p, 0);
    assert p[..1] == [c];
  }

  // ---------------------------------------------------------------- capture values

  datatype Value = Text(text: seq<byte>) | Number(number: nat)
  datatype Result<T> = Ok(value: T) | Err(error: Error)

  /** What capture i means for a match of src[s..e]. */
  function CaptureValue(src: seq<byte>, caps: seq<Cap>, i: int, s: nat, e: nat): Result<Value>
    requires s <= e <= |src| && Sane(src, caps, e)
  {
    if i < 0 then Err(BadCaptureIndex)
    else if i >= |caps| then (if i == 0 then Ok(Text(src[s..e])) else Err(BadCaptureIndex))
    else if caps[i].len == UNFINISHED then Err(UnfinishedCapture)
    else if caps[i].len == POSITION then Ok(Number(caps[i].init + 1))
    else Ok(Text(src[caps[i].init..caps[i].init + caps[i].len]))
  }

  function CaptureValues(src: seq<byte>, caps: seq<Cap>, i: nat, n: nat, s: nat, e: nat): Result<seq<Value>>
    requires s <= e <= |src| && Sane(src, caps, e) && i <= n
    decreases n - i
  {
    if i == n then Ok([])
    else
      match CaptureValue(src, caps, i, s, e)
      case Err(error) => Err(error)
      case Ok(v) =>
        match CaptureValues(src, caps, i + 1, n, s, e)
        case Err(error) => Err(error)
        case Ok(vs) => Ok([v] + vs)
  }

  /** `push_captures`: all captures, or the whole match if the pattern has none. */
  function PushCaptures(src: seq<byte>, caps: seq<Cap>, s: nat, e: nat, whole: bool): Result<seq<Value>>
    requires s <= e <= |src| && Sane(src, caps, e)
  {
    CaptureValues(src, caps, 0, if |caps| == 0 && whole then 1 else |caps|, s, e)
  }

  lemma {:induction false} CaptureValuesOk(src: seq<byte>, caps: seq<Cap>, i: nat, n: nat, s: nat, e: nat)
    requires s <= e <= |src| && Sane(src, caps, e) && i <= n <= if |caps| == 0 then 1 else |caps|
    requires forall k :: 0 <= k < |caps| ==> caps[k].len != UNFINISHED
    ensures CaptureValues(src, caps, i, n, s, e).Ok?
    ensures |CaptureValues(src, caps, i, n, s, e).value| == n - i
    decreases n - i
  {
    if i < n { CaptureValuesOk(src, caps, i + 1, n, s, e); }
  }

  /** A match of a pattern that closes all its captures hands out all of them without error. */
  lemma ClosedPatternHandsOutCaptures(src: seq<byte>, items: seq<Item>, s: nat, whole: bool)
    requires s <= |src| && true !in FinalMarks(items, [])
    requires Attempt(src, items, s).Match?
    ensures var r := Attempt(src, items, s);
            && s <= r.end <= |src| && Sane(src, r.caps, r.end)
            && PushCaptures(src, r.caps, s, r.end, whole).Ok?
            && |PushCaptures(src, r.caps, s, r.end, whole).value| ==
               if |r.caps| == 0 && whole then 1 else |r.caps|
  {
    MatchMeaning(src, items, s);
    var r := Attempt(src, items, s);
    forall k | 0 <= k < |r.caps|
      ensures r.caps[k].len != UNFINISHED
    {
      assert Marks(r.caps)[k] in FinalMarks(items, []);
    }
    CaptureValuesOk(src, r.caps, 0, if |r.caps| == 0 && whole then 1 else |r.caps|, s, r.end);
  }

  // ---------------------------------------------------------------- values, told from the pattern

  /** The capture that item a begins has value v in the match that the choice vector ks describes: the
      place it was begun at, counted from 1, or the text up to the item that closes it. */
  ghost predicate Shows(src: seq<byte>, items: seq<Item>, ks: seq<nat>, s: nat, a: nat, v: Value)
    requires a < |items| == |ks|
  {
    var from := Place(src, items, ks, s, a);
    && (items[a].Position? ==> v == Number(from + 1))
    && (items[a].Open? ==>
          exists b :: ClosedBy(items, a, b) && from <= Place(src, items, ks, s, b) <= |src| && v == Text(src[from..Place(src, items, ks, s, b)]))
  }

  /** Some parenthesis of the pattern is never closed. */
  ghost predicate LeavesOpen(items: seq<Item>) {
    exists a :: 0 <= a < |items| && items[a].Open? && OpenUntil(items, a, |items|)
  }

  /** The values of all captures, from left to right; if there are none, perhaps the whole match. */
  ghost predicate Captured(src: seq<byte>, items: seq<Item>, ks: seq<nat>, s: nat, e: nat, whole: bool, vs: seq<Value>)
    requires |items| == |ks|
  {
    if Openers(items) == [] then s <= e <= |src| && vs == if whole then [Text(src[s..e])] else []
    else |vs| == |Openers(items)| && forall i :: 0 <= i < |vs| ==> Shows(src, items, ks, s, Openers(items)[i], vs[i])
  }

  lemma {:induction false} CaptureShows(src: seq<byte>, items: seq<Item>, ks: seq<nat>, s: nat, e: nat, caps: seq<Cap>, i: nat)
    requires |items| == |ks| && s <= e <= |src| && Sane(src, caps, e) && AllHold(src, items, ks, s, caps) && i < |caps|
    ensures caps[i].len != UNFINISHED ==>
              CaptureValue(src, caps, i, s, e).Ok? && Shows(src, items, ks, s, Openers(items)[i], CaptureValue(src, caps, i, s, e).value)
    ensures caps[i].len == UNFINISHED ==> CaptureValue(src, caps, i, s, e) == Err(UnfinishedCapture) && LeavesOpen(items)
  {
    hide Place, Nested;
    assert Holds(src, items, ks, s, Openers(items)[i], caps[i]);
  }

  lemma {:induction false} ValuesShow(src: seq<byte>, items: seq<Item>, ks: seq<nat>, s: nat, e: nat, caps: seq<Cap>, i: nat)
    requires |items| == |ks| && s <= e <= |src| && Sane(src, caps, e) && AllHold(src, items, ks, s, caps) && i <= |caps|
    ensures match CaptureValues(src, caps, i, |caps|, s, e)
            case Ok(vs) => |vs| == |caps| - i && forall j :: i <= j < |caps| ==>
                             caps[j].len != UNFINISHED && Shows(src, items, ks, s, Openers(items)[j], vs[j - i])
            case Err(error) => error == UnfinishedCapture && LeavesOpen(items)
    decreases |caps| - i
  {
    if i < |caps| {
      hide AllHold, Shows, LeavesOpen, CaptureValue;
      CaptureShows(src, items, ks, s, e, caps, i);
      ValuesShow(src, items, ks, s, e, caps, i + 1);
    }
  }

  /** A parenthesis that is never closed leaves its capture unfinished. */
  lemma {:induction false} OpenUnfinished(src: seq<byte>, items: seq<Item>, ks: seq<nat>, s: nat, caps: seq<Cap>)
    requires |items| == |ks| && AllHold(src, items, ks, s, caps) && LeavesOpen(items)
    ensures exists i :: 0 <= i < |caps| && caps[i].len == UNFINISHED
  {
    var a :| 0 <= a < |items| && items[a].Open? && OpenUntil(items, a, |items|);
    var i := OpenerIndex(items, a);
    forall b: nat
      ensures !ClosedBy(items, a, b)
    {
      if a < b < |items| { assert Nested(items, a, b + 1) > 0; }
    }
    assert Holds(src, items, ks, s, a, caps[i]);
  }

  lemma {:induction false} OpenerIndex(items: seq<Item>, a: nat) returns (i: nat)
    requires a < |items| && items[a].Open?
    ensures i < |Openers(items)| && Openers(items)[i] == a
  {
    var n := |items| - 1;
    if a == n {
      i := |Openers(items)| - 1;
    } else {
      i := OpenerIndex(items[..n], a);
    }
  }

  /** What is pushed for a match: the values that the pattern tells, unless a parenthesis is never
      closed. */
  lemma {:induction false} PushedValues(src: seq<byte>, items: seq<Item>, ks: seq<nat>, s: nat, e: nat, caps: seq<Cap>, whole: bool)
    requires s <= |src| && Derive(src, items, ks, s, []) == Some((e, caps)) && s <= e <= |src| && Sane(src, caps, e)
    ensures |items| == |ks|
    ensures match PushCaptures(src, caps, s, e, whole)
            case Ok(vs) => !LeavesOpen(items) && Captured(src, items, ks, s, e, whole, vs)
            case Err(error) => LeavesOpen(items) && error == UnfinishedCapture
  {
    CapturesHold(src, items, ks, s);
    hide AllHold, LeavesOpen, Shows, Derive;
    assert |caps| == |Openers(items)| by { CountHolds(src, items, ks, s, caps); }
    if caps == [] {
      if LeavesOpen(items) { OpenUnfinished(src, items, ks, s, caps); }
      assert CaptureValues(src, caps, 1, 1, s, e) == Ok([]);
      assert CaptureValues(src, caps, 0, 0, s, e) == Ok([]);
    } else {
      ValuesShow(src, items, ks, s, e, caps, 0);
      if LeavesOpen(items) { OpenUnfinished(src, items, ks, s, caps); }
    }
  }

  lemma {:induction false} CountHolds(src: seq<byte>, items: seq<Item>, ks: seq<nat>, s: nat, caps: seq<Cap>)
    requires |items| == |ks| && AllHold(src, items, ks, s, caps)
    ensures |caps| == |Openers(items)|
  {}

  /** Capture i alone, counted from 0; 0 is the whole match if there are no captures. */
  ghost predicate CapturedAt(src: seq<byte>, items: seq<Item>, ks: seq<nat>, s: nat, e: nat, i: nat, v: Value)
    requires |items| == |ks|
  {
    if i < |Openers(items)| then Shows(src, items, ks, s, Openers(items)[i], v)
    else i == 0 && s <= e <= |src| && v == Text(src[s..e])
  }

  lemma {:induction false} OneCaptured(src: seq<byte>, items: seq<Item>, ks: seq<nat>, s: nat, e: nat, caps: seq<Cap>, i: nat)
    requires s <= |src| && Derive(src, items, ks, s, []) == Some((e, caps)) && s <= e <= |src| && Sane(src, caps, e)
    ensures |items| == |ks|
    ensures CaptureValue(src, caps, i, s, e).Ok? ==> CapturedAt(src, items, ks, s, e, i, CaptureValue(src, caps, i, s, e).value)
  {
    CapturesHold(src, items, ks, s);
    hide AllHold, Shows, Derive;
    CountHolds(src, items, ks, s, caps);
    if i < |caps| { CaptureShows(src, items, ks, s, e, caps, i); }
  }

  // ---------------------------------------------------------------- find, match, gmatch

  datatype Search = At(start: nat, end: nat, caps: seq<Cap>) | Nowhere | Failed(error: Error)

  /** r is the leftmost match that starts in [from, last]. */
  ghost predicate Leftmost(src: seq<byte>, items: seq<Item>, from: nat, last: nat, r: Search) {
    && from <= last <= |src|
    && match r
       case At(start, end, caps) =>
         && from <= start <= last
         && Attempt(src, items, start) == Match(end, caps)
         && forall s :: from <= s < start ==> Attempt(src, items, s).NoMatch?
       case Nowhere => forall s :: from <= s <= last ==> Attempt(src, items, s).NoMatch?
       case Failed(error) =>
         exists s :: from <= s <= last && Attempt(src, items, s) == Raise(error) &&
                     forall j :: from <= j < s ==> Attempt(src, items, j).NoMatch?
  }

  /** One attempt of a client: reset the state, call `match`, look at the captures. */
  method TryAt(ms: MatchState, s: nat, p: nat) returns (r: Res)
    requires ms.Valid() && s <= |ms.src| && p <= |ms.pat|
    modifies ms, ms.capture
    ensures ms.Valid() && r == Attempt(ms.src, Items(ms.pat, p), s)
    ensures r.Match? ==> s <= r.end <= |ms.src| && Sane(ms.src, r.caps, r.end)
  {
    ms.level, ms.depth := 0, 0;
    assert ms.Caps() == [];
    MatchMeaning(ms.src, Items(ms.pat, p), s);
    var res := ms.Match(s, p);
    match res {
      case Found(e) => r := Match(e, ms.capture[..ms.level]);
      case Null => r := NoMatch;
      case Raised(error) => r := Raise(error);
    }
  }

  /** The loop of `str_find_aux` over the start positions. */
  method Find(src: seq<byte>, pattern: seq<byte>, init: nat) returns (r: Search)
    requires init <= |src|
    ensures var anchor := PatternSyntax.At(pattern, 0) == CARET;
            Leftmost(src, Items(pattern, if anchor then 1 else 0), init, if anchor then init else |src|, r)
    ensures SaneSearch(src, r)
  {
    var p := 0;
    var anchor := PatternSyntax.At(pattern, 0) == CARET;
    if anchor { p := 1; }
    var ms := new MatchState(src, pattern);
    ghost var items := Items(pattern, p);
    var s1 := init;
    while true
      invariant init <= s1 <= |src| && (anchor ==> s1 == init)
      invariant ms.src == src && ms.pat == pattern && ms.Valid() && fresh(ms) && fresh(ms.capture)
      invariant forall s :: init <= s < s1 ==> Attempt(src, items, s).NoMatch?
      decreases |src| - s1
    {
      var res := TryAt(ms, s1, p);
      match res {
        case Match(e, caps) => return At(s1, e, caps);
        case Raise(error) => return Failed(error);
        case NoMatch =>
      }
      if s1 >= |src| || anchor { return Nowhere; }
      s1 := s1 + 1;
    }
  }

  // ---------------------------------------------------------------- find and match as called

  /** What `find` and `match` return. */
  datatype Answer = Values(vs: seq<Value>) | Nil | Failure(error: Error)

  /** `posrelat`, and what `str_find_aux` makes of it: the index where the search starts. */
  function StartIndex(start: int, len: nat): (init: nat)
    ensures init <= len
    ensures 1 <= start <= len ==> init == start - 1
    ensures start < 0 <= start + len ==> init == start + len
    ensures start == 0 || start + len < 0 ==> init == 0
    ensures start > len ==> init == len
  {
    var pos: int := if start < 0 then start + len + 1 else start;
    var init: int := (if pos >= 0 then pos else 0) - 1;
    if init < 0 then 0 else if init > len then len else init
  }

  ghost predicate SaneSearch(src: seq<byte>, g: Search) {
    g.At? ==> g.start <= g.end <= |src| && Sane(src, g.caps, g.end)
  }

  /** A search result as it is returned: `find` gives both ends and the captures, `match` gives the
      captures, or the whole match if there are none. */
  function Present(src: seq<byte>, g: Search, find: bool): Answer
    requires SaneSearch(src, g)
  {
    match g
    case Nowhere => Nil
    case Failed(error) => Failure(error)
    case At(s, e, caps) =>
      match PushCaptures(src, caps, s, e, !find)
      case Err(error) => Failure(error)
      case Ok(vs) => Values(if find then [Number(s + 1), Number(e)] + vs else vs)
  }

  /** What `find` and `match` answer for a match of src[s..e], told from the pattern: for `find` both ends,
      the first counted from 1; then all captures.  A parenthesis that is never closed is an error. */
  ghost predicate Answers(src: seq<byte>, items: seq<Item>, ks: seq<nat>, s: nat, e: nat, find: bool, r: Answer)
    requires |items| == |ks|
  {
    if LeavesOpen(items) then r == Failure(UnfinishedCapture)
    else exists vs :: Captured(src, items, ks, s, e, !find, vs) && r == Handed(s, e, find, vs)
  }

  function Handed(s: nat, e: nat, find: bool, vs: seq<Value>): Answer {
    Values(if find then [Number(s + 1), Number(e)] + vs else vs)
  }

  /** The answer for the leftmost match of a pattern. */
  ghost predicate AnswersMatch(src: seq<byte>, items: seq<Item>, g: Search, find: bool, r: Answer) {
    match g
    case Nowhere => r == Nil
    case Failed(error) => r == Failure(error)
    case At(s, e, caps) =>
      exists ks :: Best(src, items, s, [], ks, (e, caps)) && |items| == |ks| && Answers(src, items, ks, s, e, find, r)
  }

  lemma {:induction false} PresentAnswers(src: seq<byte>, items: seq<Item>, from: nat, last: nat, g: Search, find: bool)
    requires Leftmost(src, items, from, last, g) && SaneSearch(src, g)
    ensures AnswersMatch(src, items, g, find, Present(src, g, find))
  {
    hide Captured, LeavesOpen, Best, PushCaptures, Answers;
    if g.At? {
      var ks := BestOf(src, items, g.start, g.end, g.caps);
      PushedAnswers(src, items, ks, g.start, g.end, g.caps, find);
    }
  }

  lemma {:induction false} BestOf(src: seq<byte>, items: seq<Item>, s: nat, e: nat, caps: seq<Cap>) returns (ks: seq<nat>)
    requires s <= |src| && Attempt(src, items, s) == Match(e, caps)
    ensures Best(src, items, s, [], ks, (e, caps)) && Derive(src, items, ks, s, []) == Some((e, caps)) && |items| == |ks|
  {
    MatchMeaning(src, items, s);
    ks :| Best(src, items, s, [], ks, (e, caps));
  }

  lemma {:induction false} PushedAnswers(src: seq<byte>, items: seq<Item>, ks: seq<nat>, s: nat, e: nat, caps: seq<Cap>, find: bool)
    requires s <= e <= |src| && Sane(src, caps, e) && Derive(src, items, ks, s, []) == Some((e, caps)) && |items| == |ks|
    ensures Answers(src, items, ks, s, e, find, Present(src, At(s, e, caps), find))
  {
    hide Captured, LeavesOpen, PushCaptures, Derive;
    PushedValues(src, items, ks, s, e, caps, !find);
    var pushed := PushCaptures(src, caps, s, e, !find);
    if pushed.Ok? { assert Present(src, At(s, e, caps), find) == Handed(s, e, find, pushed.value); }
  }

  /** The answer for a plain search. */
  predicate AnswersPlain(g: Search, r: Answer) {
    match g
    case Nowhere => r == Nil
    case Failed(_) => false
    case At(s, e, _) => r == Values([Number(s + 1), Number(e)])
  }

  /** r is the first occurrence of p that starts at from or later. */
  ghost predicate FirstOccurrence(src: seq<byte>, p: seq<byte>, from: nat, r: Search) {
    match r
    case At(start, end, caps) =>
      && from <= start && OccursAt(src, p, start) && end == start + |p| && caps == []
      && forall j :: from <= j < start ==> !OccursAt(src, p, j)
    case Nowhere => forall j :: from <= j ==> !OccursAt(src, p, j)
    case Failed(_) => false
  }

  lemma OccursFrom(src: seq<byte>, p: seq<byte>, init: nat, j: nat)
    requires init <= |src|
    ensures OccursAt(src[init..], p, j) <==> OccursAt(src, p, init + j)
  {
    if init + j + |p| <= |src| { assert src[init..][j..j + |p|] == src[init + j..init + j + |p|]; }
  }

  /** The plain search in the rest of the subject. */
  method FindPlain(src: seq<byte>, p: seq<byte>, init: nat) returns (g: Search)
    requires init <= |src|
    ensures FirstOccurrence(src, p, init, g) && SaneSearch(src, g)
  {
    forall j: nat { OccursFrom(src, p, init, j); }
    var at := MemFind(src[init..], p);
    g := if at >= 0 then At(init + at, init + at + |p|, []) else Nowhere;
    forall j | init <= j
      ensures OccursAt(src, p, j) <==> OccursAt(src[init..], p, j - init)
    {
      OccursFrom(src, p, init, j - init);
    }
  }

  /** For the patterns of `PlainSearchIsMatching` the shortcut gives the leftmost match. */
  lemma PlainIsLeftmost(src: seq<byte>, p: seq<byte>, init: nat, g: Search)
    requires IsPlain(p) && RPAREN !in p && 0 !in p && init <= |src| && FirstOccurrence(src, p, init, g)
    ensures Leftmost(src, Items(p, 0), init, |src|, g) && PatternSyntax.At(p, 0) != CARET
  {
    PlainSearchIsMatching(p);
    forall s: nat | s <= |src|
      ensures Attempt(src, Items(p, 0), s) == if OccursAt(src, p, s) then Match(s + |p|, []) else NoMatch
    {
      assert MatchesAsItOccurs(src, p, s);
    }
  }

  /** `str_find_aux`, for `find` and `match`: the leftmost match of the pattern with its captures, or the
      first occurrence of its text if the shortcut is taken; the two are the same for every pattern
      without a closing parenthesis and a zero byte. */
  method StrFindAux(src: seq<byte>, pattern: seq<byte>, start: int, plain: bool, find: bool) returns (r: Answer, ghost g: Search)
    ensures find && (plain || IsPlain(pattern)) ==>
              FirstOccurrence(src, pattern, StartIndex(start, |src|), g) && AnswersPlain(g, r)
    ensures !(find && (plain || IsPlain(pattern))) || (!plain && RPAREN !in pattern && 0 !in pattern) ==>
              var anchor, init := PatternSyntax.At(pattern, 0) == CARET, StartIndex(start, |src|);
              var items := Items(pattern, if anchor then 1 else 0);
              Leftmost(src, items, init, if anchor then init else |src|, g) && AnswersMatch(src, items, g, find, r)
  {
    hide AnswersMatch, Leftmost, PushCaptures, Items;
    var init := StartIndex(start, |src|);
    ghost var anchor := PatternSyntax.At(pattern, 0) == CARET;
    ghost var items := Items(pattern, if anchor then 1 else 0);
    ghost var last := if anchor then init else |src|;
    var found: Search;
    if find && (plain || IsPlain(pattern)) {
      found := FindPlain(src, pattern, init);
      if IsPlain(pattern) && RPAREN !in pattern && 0 !in pattern {
        PlainIsLeftmost(src, pattern, init, found);
        PresentAnswers(src, items, init, last, found, find);
      }
      NothingPushed(src, found);
    } else {
      found := Find(src, pattern, init);
      PresentAnswers(src, items, init, last, found, find);
    }
    g := found;
    match found {
      case Nowhere => r := Nil;
      case Failed(error) => r := Failure(error);
      case At(s, e, caps) =>
        match PushCaptures(src, caps, s, e, !find) {
          case Err(error) => r := Failure(error);
          case Ok(vs) => r := Values(if find then [Number(s + 1), Number(e)] + vs else vs);
        }
    }
  }

  lemma NothingPushed(src: seq<byte>, g: Search)
    requires SaneSearch(src, g)
    ensures g.At? && g.caps == [] ==> PushCaptures(src, g.caps, g.start, g.end, false) == Ok([])
    ensures forall vs: seq<Value> :: vs + [] == vs
  {}

  /** The state of a `gmatch` iterator. */
  class GMatch {
    const src: seq<byte>
    const pattern: seq<byte>
    var pos: nat

    constructor (src: seq<byte>, pattern: seq<byte>)
      ensures this.src == src && this.pattern == pattern && pos == 0
    {
      this.src, this.pattern, pos := src, pattern, 0;
    }

    /** `string_gmatch_aux`: the next match, beginning no earlier than the previous one ended, and its
        captures.  The next search begins where it ends, or behind it if it is empty. */
    method Next() returns (r: Answer, ghost g: Search)
      modifies this
      ensures old(pos) <= |src| ==>
                Leftmost(src, Items(pattern, 0), old(pos), |src|, g) && AnswersMatch(src, Items(pattern, 0), g, false, r)
      ensures old(pos) > |src| ==> g == Nowhere && r == Nil
      ensures g.At? ==> pos == g.end + (if g.end == g.start then 1 else 0)
      ensures !g.At? ==> pos == old(pos)
    {
      hide AnswersMatch, PushCaptures, Items;
      var ms := new MatchState(src, pattern);
      var s := pos;
      while s <= |src|
        invariant pos == old(pos) <= s
        invariant s <= |src| + 1 || s == old(pos)
        invariant ms.src == src && ms.pat == pattern && ms.Valid() && fresh(ms) && fresh(ms.capture)
        invariant forall j :: pos <= j < s && j <= |src| ==> Attempt(src, Items(pattern, 0), j).NoMatch?
      {
        var res := TryAt(ms, s, 0);
        match res {
          case Match(e, caps) =>
            g := At(s, e, caps);
            PresentAnswers(src, Items(pattern, 0), pos, |src|, g, false);
            pos := e;
            if e == s { pos := pos + 1; }
            match PushCaptures(src, caps, s, e, true) {
              case Err(error) => r := Failure(error);
              case Ok(vs) => r := Values(vs);
            }
            return;
          case Raise(error) =>
            g := Failed(error);
            PresentAnswers(src, Items(pattern, 0), pos, |src|, g, false);
            return Failure(error), g;
          case NoMatch =>
        }
        s := s + 1;
      }
      g := Nowhere;
      if pos <= |src| { PresentAnswers(src, Items(pattern, 0), pos, |src|, g, false); }
      return Nil, g;
    }
  }
}
