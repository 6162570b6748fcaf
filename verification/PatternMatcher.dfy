/** The backtracking matcher as it runs: a match state with a capture array, a capture count and
    a nesting depth that are updated in place and undone when an attempt fails.  Every method
    is proved equal to the search function of PatternSemantics on the state it starts from. */
module PatternMatcher {
  import opened PatternSyntax
  import opened PatternSemantics

  /** Result of a matching attempt: an end position, NULL, or an error that unwinds the caller. */
  datatype Outcome = Found(end: nat) | Null | Raised(error: Error)

  class MatchState {
    const src: seq<byte>
    const pat: seq<byte>
    const capture: array<Cap>
    var level: nat
    var depth: nat

    constructor (src: seq<byte>, pat: seq<byte>)
      ensures Valid() && this.src == src && this.pat == pat && fresh(capture)
      ensures level == 0 && depth == 0
    {
      this.src, this.pat := src, pat;
      capture := new Cap[MAX_CAPTURES](_ => Cap(0, 0));
      level, depth := 0, 0;
    }

    ghost predicate Valid()
      reads this
    {
      capture.Length == MAX_CAPTURES && level <= MAX_CAPTURES
    }

    /** The captures so far, finished or not. */
    ghost function Caps(): (caps: seq<Cap>)
      requires Valid()
      reads this, capture
      ensures |caps| == level
    {
      capture[..level]
    }

    /** The state and the result r answer what the search wants from captures `was` at depth d.
        After a failure the state is exactly as it was. */
    ghost predicate Answers(r: Outcome, want: Res, was: seq<Cap>, d: nat)
      reads this, capture
    {
      && Valid()
      && match r
         case Found(e) => want == Res.Match(e, Caps()) && e <= |src| && depth == d
         case Null => want == NoMatch && Caps() == was && depth == d
         case Raised(error) => want == Raise(error)
    }

    /** `capture_to_close`. */
    method CaptureToClose() returns (l: int)
      requires Valid()
      ensures l == LastUnfinished(Caps())
    {
      l := level - 1;
      while l >= 0
        invariant -1 <= l < level
        invariant LastUnfinished(Caps()) == LastUnfinished(Caps()[..l + 1])
      {
        assert Caps()[..l + 1][..l] == Caps()[..l];
        if capture[l].len == UNFINISHED { return; }
        l := l - 1;
      }
    }

    /** `matchbalance`, called behind `%b` with p at the two delimiters. */
    method MatchBalance(start: nat, p: nat) returns (t: int)
      requires start <= |src| && p + 1 < |pat| && pat[p] != 0
      ensures t == BalanceFrom(src, start, pat[p], pat[p + 1])
    {
      if At(src, start) != pat[p] { return -1; }
      var b, e, cont := pat[p], pat[p + 1], 1;
      var s := start + 1;
      while s < |src|
        invariant start < s <= |src| && cont > 0
        invariant BalanceFrom(src, start, b, e) == BalanceEnd(src, s, b, e, cont)
      {
        if src[s] == e {
          cont := cont - 1;
          if cont == 0 { return s + 1; }
        } else if src[s] == b {
          cont := cont + 1;
        }
        s := s + 1;
      }
      return -1;
    }

    /** `match_capture`: the end of a repetition of capture digit at s, -1 if there is none. */
    method MatchCapture(s: nat, digit: byte) returns (t: int, ok: bool)
      requires Valid() && Sane(src, Caps(), s)
      ensures ok <==> RefIndex(Caps(), digit) != -1
      ensures ok ==> var c := Caps()[RefIndex(Caps(), digit)];
                     t == if Repeats(src, c, s) then s + c.len else -1
    {
      var l := digit - DIGIT1;
      if l < 0 || l >= level || capture[l].len == UNFINISHED { return -1, false; }
      var c := capture[l];
      // A position capture has length -2, which is huge as a size_t.
      if c.len >= 0 && |src| - s >= c.len && src[c.init..c.init + c.len] == src[s..s + c.len] {
        return s + c.len, true;
      }
      return -1, true;
    }

    /** `start_capture`. */
    method StartCapture(s: nat, p: nat, what: int) returns (r: Outcome)
      requires Valid() && p <= |pat| && Sane(src, Caps(), s)
      requires what == UNFINISHED || what == POSITION
      modifies this, capture
      ensures Answers(r, if old(level) >= MAX_CAPTURES then Raise(TooManyCaptures)
                         else Enter(src, Items(pat, p), s, old(Caps()) + [Cap(s, what)], old(depth)),
                      old(Caps()), old(depth))
      decreases |pat| - p, 3
    {
      if level >= MAX_CAPTURES { return Raised(TooManyCaptures); }
      capture[level] := Cap(s, what);
      level := level + 1;
      ghost var inner := Caps();
      assert inner == old(Caps()) + [Cap(s, what)];
      r := Match(s, p);
      if r.Null? {
        level := level - 1;
        assert Caps() == inner[..level];
      }
    }

    /** `end_capture`. */
    method EndCapture(s: nat, p: nat) returns (r: Outcome)
      requires Valid() && p <= |pat| && Sane(src, Caps(), s)
      modifies this, capture
      ensures var l := LastUnfinished(old(Caps()));
              Answers(r, if l == -1 then Raise(BadCapture)
                         else Enter(src, Items(pat, p), s, ClosedAt(old(Caps()), l, s), old(depth)),
                      old(Caps()), old(depth))
      decreases |pat| - p, 3
    {
      var l := CaptureToClose();
      if l == -1 { return Raised(BadCapture); }
      capture[l] := Cap(capture[l].init, s - capture[l].init);
      ghost var closed := Caps();
      assert closed == ClosedAt(old(Caps()), l, s);
      r := Match(s, p);
      if r.Null? {
        capture[l] := Cap(capture[l].init, UNFINISHED);
        assert Caps() == closed[l := Cap(closed[l].init, UNFINISHED)];
      }
    }

    /** `max_expand` for the item at p, which ends at ep. */
    method MaxExpand(s: nat, p: nat, ep: nat) returns (r: Outcome)
      requires Valid() && Sane(src, Caps(), s)
      requires p < |pat| && ClassEnd(pat, p) == End(ep) && ep < |pat|
      modifies this, capture
      ensures Answers(r, TryDown(src, Items(pat, ep + 1), s, RunEnd(src, s, SingleAt(pat, p, ep)),
                                 old(Caps()), old(depth)),
                      old(Caps()), old(depth))
      decreases |pat| - ep
    {
      ghost var x := SingleAt(pat, p, ep);
      var i := 0;
      while true
        invariant Valid() && Caps() == old(Caps()) && depth == old(depth)
        invariant s + i <= |src| && RunEnd(src, s, x) == RunEnd(src, s + i, x)
        decreases |src| - i
      {
        if s + i >= |src| { break; }
        var m := SingleMatch(src[s + i], pat, p, ep);
        if !m { break; }
        i := i + 1;
      }
      ghost var want := TryDown(src, Items(pat, ep + 1), s, s + i, Caps(), depth);
      while i >= 0
        invariant -1 <= i && s + i <= |src|
        invariant Valid() && Caps() == old(Caps()) && depth == old(depth)
        invariant want == if i >= 0 then TryDown(src, Items(pat, ep + 1), s, s + i, Caps(), depth) else NoMatch
      {
        r := Match(s + i, ep + 1);
        if !r.Null? { return; }
        i := i - 1;
      }
      return Null;
    }

    /** `min_expand` for the item at p, which ends at ep. */
    method MinExpand(start: nat, p: nat, ep: nat) returns (r: Outcome)
      requires Valid() && Sane(src, Caps(), start)
      requires p < |pat| && ClassEnd(pat, p) == End(ep) && ep < |pat|
      modifies this, capture
      ensures Answers(r, TryUp(src, Items(pat, ep + 1), start, SingleAt(pat, p, ep), old(Caps()), old(depth)),
                      old(Caps()), old(depth))
      decreases |pat| - ep
    {
      var s := start;
      ghost var x := SingleAt(pat, p, ep);
      while true
        invariant start <= s <= |src|
        invariant Valid() && Caps() == old(Caps()) && depth == old(depth)
        invariant TryUp(src, Items(pat, ep + 1), start, x, old(Caps()), old(depth)) ==
                  TryUp(src, Items(pat, ep + 1), s, x, Caps(), depth)
        decreases |src| - s
      {
        r := Match(s, ep + 1);
        if !r.Null? { return; }
        if s == |src| { return Null; }
        var m := SingleMatch(src[s], pat, p, ep);
        if !m { return Null; }
        s := s + 1;
      }
    }

    /** The step of `match` for a single-byte item with its repetition suffix.  Either the
        attempt is over (`done`), or the caller goes on at s', p'. */
    method MatchDefault(s: nat, p: nat) returns (done: bool, r: Outcome, s': nat, p': nat)
      requires Valid() && p < |pat| && Sane(src, Caps(), s)
      modifies this, capture
      ensures done ==> Answers(r, First(src, ItemsDefault(pat, p), s, old(Caps()), old(depth)),
                               old(Caps()), old(depth))
      ensures !done ==> Valid() && Caps() == old(Caps()) && depth == old(depth) &&
                        p < p' <= |pat| && s <= s' <= |src| &&
                        First(src, ItemsDefault(pat, p), s, Caps(), depth) ==
                        First(src, Items(pat, p'), s', Caps(), depth)
      decreases |pat| - p, 0
    {
      done, r, s', p' := true, Null, s, p;
      var end := EndOfClass(pat, p);
      if end.Malformed? { r := Raised(end.error); return; }
      var ep := end.ep;
      ghost var x := SingleAt(pat, p, ep);
      var m := false;
      if s < |src| { m := SingleMatch(src[s], pat, p, ep); }
      assert m <==> s < |src| && In(src[s], x);
      var c := At(pat, ep);
      ghost var rest := Items(pat, if c in {QUESTION, STAR, PLUS, MINUS} then ep + 1 else ep);
      ghost var item := ItemsDefault(pat, p)[0];
      assert ItemsDefault(pat, p) == [item] + rest;
      assert First(src, ItemsDefault(pat, p), s, Caps(), depth) == FirstItem(src, item, rest, s, Caps(), depth);
      if c == QUESTION {
        if m {
          r := Match(s + 1, ep + 1);
          if !r.Null? { return; }
        }
        done, p' := false, ep + 1;
      } else if c == STAR {
        r := MaxExpand(s, p, ep);
      } else if c == PLUS {
        if m { r := MaxExpand(s + 1, p, ep); }
      } else if c == MINUS {
        r := MinExpand(s, p, ep);
      } else if m {
        done, s', p' := false, s + 1, ep;
      }
    }

    /** The step of `match` for `%b`: the attempt is over (`done`), or the caller goes on. */
    method StepBalance(s: nat, p: nat) returns (done: bool, r: Outcome, s': nat, p': nat)
      requires Valid() && p < |pat| && s <= |src| && pat[p] == ESC && At(pat, p + 1) == LOWER_B
      ensures done ==> Answers(r, First(src, Items(pat, p), s, Caps(), depth), Caps(), depth)
      ensures !done ==> p < p' <= |pat| && s <= s' <= |src| &&
                        First(src, Items(pat, p), s, Caps(), depth) ==
                        First(src, Items(pat, p'), s', Caps(), depth)
    {
      done, r, s', p' := true, Null, s, p;
      if At(pat, p + 2) == 0 || At(pat, p + 3) == 0 {
        r := Raised(Unbalanced);
        return;
      }
      Unfold(src, Balance(pat[p + 2], pat[p + 3]), Items(pat, p + 4), s, Caps(), depth);
      var t := MatchBalance(s, p + 2);
      if t != -1 { done, s', p' := false, t, p + 4; }
    }

    /** The step of `match` for `%f`. */
    method StepFrontier(s: nat, p: nat) returns (done: bool, r: Outcome, s': nat, p': nat)
      requires Valid() && p < |pat| && s <= |src| && pat[p] == ESC && At(pat, p + 1) == LOWER_F
      ensures done ==> Answers(r, First(src, Items(pat, p), s, Caps(), depth), Caps(), depth)
      ensures !done ==> p < p' <= |pat| && s <= s' <= |src| &&
                        First(src, Items(pat, p), s, Caps(), depth) ==
                        First(src, Items(pat, p'), s', Caps(), depth)
    {
      done, r, s', p' := true, Null, s, p;
      if At(pat, p + 2) != LBRACKET {
        r := Raised(MissingFrontierSet);
        return;
      }
      var end := EndOfClass(pat, p + 2);
      if end.Malformed? {
        r := Raised(end.error);
        return;
      }
      var ep := end.ep;
      Unfold(src, Frontier(SetAt(pat, p + 2, ep - 1)), Items(pat, ep), s, Caps(), depth);
      var m := MatchBracketClass(if s == 0 then 0 else src[s - 1], pat, p + 2, ep - 1);
      if m { return; }
      m := MatchBracketClass(At(src, s), pat, p + 2, ep - 1);
      if m { done, p' := false, ep; }
    }

    /** The step of `match` for a back-reference. */
    method StepBackRef(s: nat, p: nat) returns (done: bool, r: Outcome, s': nat, p': nat)
      requires Valid() && p < |pat| && Sane(src, Caps(), s) && pat[p] == ESC && IsDigit(At(pat, p + 1))
      ensures done ==> Answers(r, First(src, Items(pat, p), s, Caps(), depth), Caps(), depth)
      ensures !done ==> p < p' <= |pat| && s <= s' <= |src| &&
                        First(src, Items(pat, p), s, Caps(), depth) ==
                        First(src, Items(pat, p'), s', Caps(), depth)
    {
      done, r, s', p' := true, Null, s, p;
      Unfold(src, BackRef(pat[p + 1]), Items(pat, p + 2), s, Caps(), depth);
      var t, ok := MatchCapture(s, pat[p + 1]);
      if !ok {
        r := Raised(BadCaptureIndex);
      } else if t != -1 {
        done, s', p' := false, t, p + 2;
      }
    }

    /** One pass through the `switch` of `match`: the attempt is over (`done`), or it goes on at
        s', p' (the `goto init`). */
    method Step(s: nat, p: nat) returns (done: bool, r: Outcome, s': nat, p': nat)
      requires Valid() && p <= |pat| && Sane(src, Caps(), s)
      modifies this, capture
      ensures done ==> Answers(r, First(src, Items(pat, p), s, old(Caps()), old(depth)), old(Caps()), old(depth))
      ensures !done ==> Valid() && Caps() == old(Caps()) && depth == old(depth) &&
                        p < p' <= |pat| && s <= s' <= |src| &&
                        First(src, Items(pat, p), s, Caps(), depth) == First(src, Items(pat, p'), s', Caps(), depth)
      decreases |pat| - p, 1
    {
      done, r, s', p' := true, Null, s, p;
      var c := At(pat, p);
      if c == 0 {
        r := Found(s);
      } else if c == LPAREN {
        if At(pat, p + 1) == RPAREN {
          Unfold(src, Position, Items(pat, p + 2), s, Caps(), depth);
          r := StartCapture(s, p + 2, POSITION);
        } else {
          Unfold(src, Open, Items(pat, p + 1), s, Caps(), depth);
          r := StartCapture(s, p + 1, UNFINISHED);
        }
      } else if c == RPAREN {
        Unfold(src, Close, Items(pat, p + 1), s, Caps(), depth);
        r := EndCapture(s, p + 1);
      } else if c == ESC && At(pat, p + 1) == LOWER_B {
        done, r, s', p' := StepBalance(s, p);
      } else if c == ESC && At(pat, p + 1) == LOWER_F {
        done, r, s', p' := StepFrontier(s, p);
      } else if c == ESC && IsDigit(At(pat, p + 1)) {
        done, r, s', p' := StepBackRef(s, p);
      } else if c == DOLLAR && At(pat, p + 1) == 0 {
        Unfold(src, AtEnd, [], s, Caps(), depth);
        assert Items(pat, p) == [AtEnd] + [];
        if s == |src| { r := Found(s); }
      } else {
        done, r, s', p' := MatchDefault(s, p);
      }
    }

    /** `match`: what the pattern from p on matches at s. */
    method Match(start: nat, first: nat) returns (r: Outcome)
      requires Valid() && first <= |pat| && Sane(src, Caps(), start)
      modifies this, capture
      ensures Answers(r, Enter(src, Items(pat, first), start, old(Caps()), old(depth)), old(Caps()), old(depth))
      decreases |pat| - first, 2
    {
      depth := depth + 1;
      if depth > MAX_DEPTH { return Raised(TooComplex); }
      var s, p, done := start, first, false;
      r := Null;
      while !done
        invariant !done ==> Valid() && Caps() == old(Caps()) && depth == old(depth) + 1
        invariant !done ==> first <= p <= |pat| && start <= s <= |src|
        invariant !done ==> Enter(src, Items(pat, first), start, old(Caps()), old(depth)) ==
                            First(src, Items(pat, p), s, old(Caps()), old(depth) + 1)
        invariant done ==> Answers(r, Enter(src, Items(pat, first), start, old(Caps()), old(depth)),
                                   old(Caps()), old(depth) + 1)
        decreases !done, |pat| - p
      {
        done, r, s, p := Step(s, p);
      }
      if !r.Raised? { depth := depth - 1; }
    }
  }

  lemma Unfold(src: seq<byte>, item: Item, rest: seq<Item>, s: nat, caps: seq<Cap>, d: nat)
    requires s <= |src|
    ensures First(src, [item] + rest, s, caps, d) == FirstItem(src, item, rest, s, caps, d)
  {
    assert ([item] + rest)[1..] == rest;
  }
}
