/** `string.gsub` (luajit/lib_string.c): global substitution into a string buffer. */
module PatternGsub {
  import opened PatternSyntax
  import opened PatternSemantics
  import opened PatternMatcher
  import opened PatternCaptures
  import opened PatternClients
  import opened AuxBuffer

  // ---------------------------------------------------------------- replacement values

  /** The value a replacement function or table lookup answers. */
  datatype Reply = Falsy | Str(text: seq<byte>) | Other

  /** What the caller gives to replace matches.  A function, and a table that may answer by a
      function of its own, can answer differently each time: the number tells how many matches
      were replaced before. */
  datatype Replacement =
    | Template(news: seq<byte>)
    | Function(call: (nat, seq<Value>) -> Reply)
    | Table(get: (nat, Value) -> Reply)

  function Decimal(n: nat): seq<byte> {
    (if n < 10 then [] else Decimal(n / 10)) + [48 + n % 10]
  }

  function ToText(v: Value): seq<byte> {
    match v
    case Text(text) => text
    case Number(number) => Decimal(number)
  }

  function Prepend(head: seq<byte>, tail: Result<seq<byte>>): Result<seq<byte>> {
    if tail.Ok? then Ok(head + tail.value) else tail
  }

  /** What `%c` stands for in a template. */
  function EscapeText(src: seq<byte>, caps: seq<Cap>, c: byte, s: nat, e: nat): Result<seq<byte>>
    requires s <= e <= |src| && Sane(src, caps, e)
  {
    if !IsDigit(c) then Ok([c])
    else if c == DIGIT0 then Ok(src[s..e])
    else
      match CaptureValue(src, caps, c - DIGIT1, s, e)
      case Err(error) => Err(error)
      case Ok(v) => Ok(ToText(v))
  }

  /** The template from index i on, with its escapes replaced for a match of src[s..e]. */
  function Expand(src: seq<byte>, caps: seq<Cap>, news: seq<byte>, i: nat, s: nat, e: nat): Result<seq<byte>>
    requires s <= e <= |src| && Sane(src, caps, e)
    decreases |news| + 2 - i
  {
    if i >= |news| then Ok([])
    else if news[i] != ESC then Prepend([news[i]], Expand(src, caps, news, i + 1, s, e))
    else
      match EscapeText(src, caps, PatternSyntax.At(news, i + 1), s, e)
      case Err(error) => Err(error)
      case Ok(text) => Prepend(text, Expand(src, caps, news, i + 2, s, e))
  }

  lemma PrependTwice(a: seq<byte>, b: seq<byte>, r: Result<seq<byte>>)
    ensures Prepend(a, Prepend(b, r)) == Prepend(a + b, r) && Prepend([], r) == r
  {
    if r.Ok? { assert a + (b + r.value) == (a + b) + r.value && [] + r.value == r.value; }
  }

  /** The text that replaces a match of src[s..e], after n others. */
  function ReplacementText(src: seq<byte>, caps: seq<Cap>, rep: Replacement, n: nat, s: nat, e: nat): Result<seq<byte>>
    requires s <= e <= |src| && Sane(src, caps, e)
  {
    match rep
    case Template(news) => Expand(src, caps, news, 0, s, e)
    case Function(call) =>
      (match PushCaptures(src, caps, s, e, true)
       case Err(error) => Err(error)
       case Ok(vs) => ReplyText(call(n, vs), src[s..e]))
    case Table(get) =>
      match CaptureValue(src, caps, 0, s, e)
      case Err(error) => Err(error)
      case Ok(v) => ReplyText(get(n, v), src[s..e])
  }

  function ReplyText(reply: Reply, original: seq<byte>): Result<seq<byte>> {
    match reply
    case Falsy => Ok(original)
    case Str(text) => Ok(text)
    case Other => Err(InvalidReplacement)
  }

  // ---------------------------------------------------------------- replacements, told from the pattern

  function NumberOf(digits: seq<byte>): int {
    if digits == [] then 0 else 10 * NumberOf(digits[..|digits| - 1]) + digits[|digits| - 1] - 48
  }

  /** A number is written in decimal digits, without leading zeros. */
  lemma {:induction false} DecimalMeaning(n: nat)
    ensures NumberOf(Decimal(n)) == n && Decimal(n) != [] && (n > 0 ==> Decimal(n)[0] != 48)
    ensures forall i :: 0 <= i < |Decimal(n)| ==> 48 <= Decimal(n)[i] <= 57
  {
    if n >= 10 {
      DecimalMeaning(n / 10);
      assert Decimal(n)[..|Decimal(n)| - 1] == Decimal(n / 10);
    } else {
      assert Decimal(n) == [48 + n] && Decimal(n)[..0] == [];
    }
  }

  /** t is what `%c` stands for: the whole match, a capture, or c itself. */
  ghost predicate StandsFor(src: seq<byte>, items: seq<Item>, ks: seq<nat>, s: nat, e: nat, c: byte, t: seq<byte>)
    requires |items| == |ks|
  {
    if !IsDigit(c) then t == [c]
    else if c == DIGIT0 then s <= e <= |src| && t == src[s..e]
    else exists v :: CapturedAt(src, items, ks, s, e, c - DIGIT1, v) && t == ToText(v)
  }

  /** The template from index i on spells this text. */
  ghost predicate Spells(src: seq<byte>, items: seq<Item>, ks: seq<nat>, s: nat, e: nat, news: seq<byte>, i: nat, text: seq<byte>)
    requires |items| == |ks|
    decreases |news| + 2 - i
  {
    if i >= |news| then text == []
    else if news[i] != ESC then text != [] && text[0] == news[i] && Spells(src, items, ks, s, e, news, i + 1, text[1..])
    else exists k :: 0 <= k <= |text| && StandsFor(src, items, ks, s, e, PatternSyntax.At(news, i + 1), text[..k]) &&
                     Spells(src, items, ks, s, e, news, i + 2, text[k..])
  }

  /** What a function or table answered for the original text. */
  predicate Answered(reply: Reply, original: seq<byte>, text: seq<byte>) {
    match reply
    case Falsy => text == original
    case Str(t) => text == t
    case Other => false
  }

  /** text replaces the match of src[s..e] that the choice vector ks describes, after n others. */
  ghost predicate ReplacesBy(src: seq<byte>, items: seq<Item>, ks: seq<nat>, rep: Replacement, n: nat, s: nat, e: nat, text: seq<byte>)
    requires |items| == |ks|
  {
    match rep
    case Template(news) => Spells(src, items, ks, s, e, news, 0, text)
    case Function(call) =>
      s <= e <= |src| && exists vs :: Captured(src, items, ks, s, e, true, vs) && Answered(call(n, vs), src[s..e], text)
    case Table(get) =>
      s <= e <= |src| && exists v :: CapturedAt(src, items, ks, s, e, 0, v) && Answered(get(n, v), src[s..e], text)
  }

  /** src[s..e] is the best match there, and text replaces it. */
  ghost predicate Replaces(src: seq<byte>, items: seq<Item>, rep: Replacement, n: nat, s: nat, e: nat, text: seq<byte>) {
    exists ks, caps :: Best(src, items, s, [], ks, (e, caps)) && |items| == |ks| && ReplacesBy(src, items, ks, rep, n, s, e, text)
  }

  lemma {:induction false} EscapeStands(src: seq<byte>, items: seq<Item>, ks: seq<nat>, s: nat, e: nat, caps: seq<Cap>, c: byte)
    requires s <= e <= |src| && Sane(src, caps, e) && Derive(src, items, ks, s, []) == Some((e, caps)) && |items| == |ks|
    requires EscapeText(src, caps, c, s, e).Ok?
    ensures StandsFor(src, items, ks, s, e, c, EscapeText(src, caps, c, s, e).value)
  {
    hide CapturedAt, Derive;
    if IsDigit(c) && c != DIGIT0 { OneCaptured(src, items, ks, s, e, caps, c - DIGIT1); }
  }

  lemma {:induction false} ExpandSpells(src: seq<byte>, items: seq<Item>, ks: seq<nat>, s: nat, e: nat, caps: seq<Cap>, news: seq<byte>, i: nat)
    requires s <= e <= |src| && Sane(src, caps, e) && Derive(src, items, ks, s, []) == Some((e, caps)) && |items| == |ks|
    requires Expand(src, caps, news, i, s, e).Ok?
    ensures Spells(src, items, ks, s, e, news, i, Expand(src, caps, news, i, s, e).value)
    decreases |news| + 2 - i
  {
    hide StandsFor, Derive, EscapeText, Sane;
    if i < |news| {
      var text := Expand(src, caps, news, i, s, e).value;
      if news[i] != ESC {
        ExpandSpells(src, items, ks, s, e, caps, news, i + 1);
        assert text[1..] == Expand(src, caps, news, i + 1, s, e).value;
      } else {
        var c := PatternSyntax.At(news, i + 1);
        EscapeStands(src, items, ks, s, e, caps, c);
        ExpandSpells(src, items, ks, s, e, caps, news, i + 2);
        var t, more := EscapeText(src, caps, c, s, e).value, Expand(src, caps, news, i + 2, s, e).value;
        assert text == t + more && text[..|t|] == t && text[|t|..] == more;
      }
    }
  }

  /** The text that the code puts in place of a match replaces it. */
  lemma {:induction false} TextReplaces(src: seq<byte>, items: seq<Item>, rep: Replacement, n: nat, s: nat, e: nat, caps: seq<Cap>)
    requires s <= e <= |src| && Sane(src, caps, e) && Attempt(src, items, s) == Match(e, caps)
    requires ReplacementText(src, caps, rep, n, s, e).Ok?
    ensures Replaces(src, items, rep, n, s, e, ReplacementText(src, caps, rep, n, s, e).value)
  {
    hide Best, Derive, Spells, Captured, CapturedAt, PushCaptures, CaptureValue, LeavesOpen, Expand, Sane;
    var ks := BestOf(src, items, s, e, caps);
    match rep {
      case Template(news) => ExpandSpells(src, items, ks, s, e, caps, news, 0);
      case Function(call) => PushedValues(src, items, ks, s, e, caps, true);
      case Table(get) => OneCaptured(src, items, ks, s, e, caps, 0);
    }
    assert ReplacesBy(src, items, ks, rep, n, s, e, ReplacementText(src, caps, rep, n, s, e).value);
  }

  /** The template refers to a capture that the pattern does not have. */
  ghost predicate RefersBeyond(items: seq<Item>, news: seq<byte>, i: nat) {
    exists j :: i <= j < |news| && news[j] == ESC && DIGIT1 <= PatternSyntax.At(news, j + 1) <= DIGIT9 &&
                PatternSyntax.At(news, j + 1) - DIGIT1 >= (if Openers(items) == [] then 1 else |Openers(items)|)
  }

  lemma {:induction false} ExpandFails(src: seq<byte>, items: seq<Item>, ks: seq<nat>, s: nat, e: nat, caps: seq<Cap>, news: seq<byte>, i: nat)
    requires s <= e <= |src| && Sane(src, caps, e) && Derive(src, items, ks, s, []) == Some((e, caps)) && |items| == |ks| && s <= |src|
    requires AllHold(src, items, ks, s, caps)
    ensures match Expand(src, caps, news, i, s, e)
            case Ok(_) => true
            case Err(error) =>
              (error == UnfinishedCapture && LeavesOpen(items)) || (error == BadCaptureIndex && RefersBeyond(items, news, i))
    decreases |news| + 2 - i
  {
    hide AllHold, Derive, LeavesOpen, Sane;
    if i < |news| {
      var c := PatternSyntax.At(news, i + 1);
      CountHolds(src, items, ks, s, caps);
      if IsDigit(c) && c != DIGIT0 && c - DIGIT1 < |caps| { CaptureShows(src, items, ks, s, e, caps, c - DIGIT1); }
      ExpandFails(src, items, ks, s, e, caps, news, if news[i] == ESC then i + 2 else i + 1);
    }
  }

  /** Why a replacement raises an error: a parenthesis is never closed, the template refers to a capture
      that is not there, or a function or table answers something that is neither text nor false. */
  ghost predicate CannotReplace(items: seq<Item>, rep: Replacement, n: nat, error: Error) {
    || (error == UnfinishedCapture && LeavesOpen(items))
    || (error == BadCaptureIndex && rep.Template? && RefersBeyond(items, rep.news, 0))
    || (error == InvalidReplacement && rep.Function? && exists vs :: rep.call(n, vs).Other?)
    || (error == InvalidReplacement && rep.Table? && exists v :: rep.get(n, v).Other?)
  }

  lemma {:induction false} TextFails(src: seq<byte>, items: seq<Item>, rep: Replacement, n: nat, s: nat, e: nat, caps: seq<Cap>)
    requires s <= e <= |src| && Sane(src, caps, e) && Attempt(src, items, s) == Match(e, caps)
    ensures var text := ReplacementText(src, caps, rep, n, s, e); text.Err? ==> CannotReplace(items, rep, n, text.error)
  {
    hide Best, Derive, Captured, AllHold, PushCaptures, LeavesOpen, Expand, RefersBeyond, Sane;
    var ks := BestOf(src, items, s, e, caps);
    CapturesHold(src, items, ks, s);
    CountHolds(src, items, ks, s, caps);
    match rep {
      case Template(news) => ExpandFails(src, items, ks, s, e, caps, news, 0);
      case Function(call) => PushedValues(src, items, ks, s, e, caps, true);
      case Table(get) => if |caps| > 0 { CaptureShows(src, items, ks, s, e, caps, 0); }
    }
  }

  // ---------------------------------------------------------------- pieces

  /** The source is cut into single kept bytes and (possibly empty) replaced matches. */
  datatype Piece = Kept(at: nat) | Replaced(from: nat, end: nat, text: seq<byte>)

  datatype Cut = Cut(pieces: seq<Piece>, tail: nat)

  function PieceOut(src: seq<byte>, piece: Piece): seq<byte> {
    match piece
    case Kept(at) => [PatternSyntax.At(src, at)]
    case Replaced(_, _, text) => text
  }

  function Render(src: seq<byte>, pieces: seq<Piece>): seq<byte> {
    if pieces == [] then [] else PieceOut(src, pieces[0]) + Render(src, pieces[1..])
  }

  function Replacements(pieces: seq<Piece>): nat {
    if pieces == [] then 0 else (if pieces[0].Replaced? then 1 else 0) + Replacements(pieces[1..])
  }

  /** The pieces follow each other without gap or overlap from `from` to `end`. */
  predicate Consecutive(src: seq<byte>, pieces: seq<Piece>, from: nat, end: nat) {
    if pieces == [] then from == end
    else
      match pieces[0]
      case Kept(at) => at == from < |src| && Consecutive(src, pieces[1..], from + 1, end)
      case Replaced(f, u, _) => f == from <= u <= |src| && Consecutive(src, pieces[1..], u, end)
  }

  /** The last piece is an empty match that was replaced. */
  predicate EndsEmpty(pieces: seq<Piece>) {
    pieces != [] && pieces[|pieces| - 1].Replaced? && pieces[|pieces| - 1].from == pieces[|pieces| - 1].end
  }

  /** Every replaced piece is the match at its place with its replacement text, a byte is kept only
      where nothing matches, or right after an empty match there was replaced, and nothing else follows
      an empty match. */
  ghost predicate Justified(src: seq<byte>, items: seq<Item>, rep: Replacement, n: nat, pieces: seq<Piece>, i: nat)
    requires i < |pieces|
  {
    match pieces[i]
    case Kept(at) =>
      at <= |src| &&
      (Attempt(src, items, at).NoMatch? || (i > 0 && pieces[i - 1].Replaced? && pieces[i - 1].from == pieces[i - 1].end == at))
    case Replaced(f, u, text) =>
      (i > 0 && pieces[i - 1].Replaced? ==> pieces[i - 1].from != pieces[i - 1].end) &&
      Replaces(src, items, rep, n + Replacements(pieces[..i]), f, u, text)
  }

  function PieceEnd(piece: Piece): nat {
    match piece
    case Kept(at) => at + 1
    case Replaced(_, u, _) => u
  }

  lemma {:induction false} ConsecutiveAppend(src: seq<byte>, a: seq<Piece>, b: seq<Piece>, from: nat, mid: nat, end: nat)
    requires Consecutive(src, a, from, mid) && Consecutive(src, b, mid, end)
    ensures Consecutive(src, a + b, from, end)
  {
    if a == [] {
      assert a + b == b;
    } else {
      assert (a + b)[0] == a[0] && (a + b)[1..] == a[1..] + b;
      ConsecutiveAppend(src, a[1..], b, PieceEnd(a[0]), mid, end);
    }
  }

  lemma {:induction false} RenderAppend(src: seq<byte>, a: seq<Piece>, b: seq<Piece>)
    ensures Render(src, a + b) == Render(src, a) + Render(src, b)
    ensures Replacements(a + b) == Replacements(a) + Replacements(b)
  {
    if a == [] {
      assert a + b == b;
    } else {
      assert (a + b)[0] == a[0] && (a + b)[1..] == a[1..] + b;
      RenderAppend(src, a[1..], b);
      assert PieceOut(src, a[0]) + (Render(src, a[1..]) + Render(src, b)) ==
             (PieceOut(src, a[0]) + Render(src, a[1..])) + Render(src, b);
    }
  }

  lemma RenderOne(src: seq<byte>, piece: Piece)
    ensures Render(src, [piece]) == PieceOut(src, piece)
    ensures Replacements([piece]) == if piece.Replaced? then 1 else 0
  {
    assert Render(src, [piece]) == PieceOut(src, piece) + Render(src, []);
  }

  lemma {:induction false} JustifiedAppend(src: seq<byte>, items: seq<Item>, rep: Replacement, n: nat, a: seq<Piece>, m: nat, b: seq<Piece>)
    requires m == n + Replacements(a) && !EndsEmpty(a)
    requires forall i :: 0 <= i < |a| ==> Justified(src, items, rep, n, a, i)
    requires forall i :: 0 <= i < |b| ==> Justified(src, items, rep, m, b, i)
    ensures forall i :: 0 <= i < |a + b| ==> Justified(src, items, rep, n, a + b, i)
  {
    hide Justified, EndsEmpty;
    forall i | 0 <= i < |a + b|
      ensures Justified(src, items, rep, n, a + b, i)
    {
      if i < |a| {
        JustifiedLeft(src, items, rep, n, a, b, i);
      } else {
        JustifiedRight(src, items, rep, n, a, m, b, i - |a|);
      }
    }
  }

  lemma {:induction false} JustifiedLeft(src: seq<byte>, items: seq<Item>, rep: Replacement, n: nat, a: seq<Piece>, b: seq<Piece>, i: nat)
    requires i < |a| && Justified(src, items, rep, n, a, i)
    ensures Justified(src, items, rep, n, a + b, i)
  {
    hide Replaces, Attempt;
    assert (a + b)[..i] == a[..i];
  }

  lemma {:induction false} JustifiedRight(src: seq<byte>, items: seq<Item>, rep: Replacement, n: nat, a: seq<Piece>, m: nat, b: seq<Piece>, i: nat)
    requires m == n + Replacements(a) && !EndsEmpty(a) && i < |b| && Justified(src, items, rep, m, b, i)
    ensures Justified(src, items, rep, n, a + b, |a| + i)
  {
    hide Replaces, Attempt, Replacements;
    assert (a + b)[..|a| + i] == a + b[..i];
    RenderAppend(src, a, b[..i]);
    if i > 0 { assert (a + b)[|a| + i - 1] == b[i - 1]; }
  }

  /** One round of the loop at pos: the pieces it cuts off and where it leaves off. */
  function Round(src: seq<byte>, items: seq<Item>, rep: Replacement, n: nat, pos: nat): Result<Cut>
    requires pos <= |src|
  {
    MatchMeaning(src, items, pos);
    match Attempt(src, items, pos)
    case Raise(error) => Err(error)
    case NoMatch => Ok(if pos == |src| then Cut([], pos) else Cut([Kept(pos)], pos + 1))
    case Match(e, caps) =>
      match ReplacementText(src, caps, rep, n, pos, e)
      case Err(error) => Err(error)
      case Ok(text) =>
        Ok(if e > pos then Cut([Replaced(pos, e, text)], e)
           else if pos == |src| then Cut([Replaced(pos, pos, text)], pos)
           else Cut([Replaced(pos, pos, text), Kept(pos)], pos + 1))
  }

  function Prefixed(head: seq<Piece>, rest: Result<Cut>): Result<Cut> {
    if rest.Err? then rest else Ok(Cut(head + rest.value.pieces, rest.value.tail))
  }

  /** What the substitution does from pos on, with at most `left` more replacements. */
  function Pieces(src: seq<byte>, items: seq<Item>, rep: Replacement, n: nat, pos: nat, left: int, anchor: bool): Result<Cut>
    requires pos <= |src|
    decreases |src| - pos
  {
    if left <= 0 then Ok(Cut([], pos))
    else
      var round := Round(src, items, rep, n, pos);
      if round.Err? then round
      else
        RoundBounds(src, items, rep, n, pos);
        if round.value.tail == pos || anchor then round
        else
          Prefixed(round.value.pieces,
                   Pieces(src, items, rep, n + Replacements(round.value.pieces), round.value.tail,
                          left - Replacements(round.value.pieces), anchor))
  }

  /** A round stays in place only at the end, and replaces at most one match. */
  lemma RoundBounds(src: seq<byte>, items: seq<Item>, rep: Replacement, n: nat, pos: nat)
    requires pos <= |src| && Round(src, items, rep, n, pos).Ok?
    ensures pos <= Round(src, items, rep, n, pos).value.tail <= |src|
    ensures Round(src, items, rep, n, pos).value.tail == pos ==> pos == |src|
    ensures Replacements(Round(src, items, rep, n, pos).value.pieces) <= 1
  {
    MatchMeaning(src, items, pos);
    var pieces := Round(src, items, rep, n, pos).value.pieces;
    if |pieces| > 0 { RenderOne(src, pieces[0]); }
    if |pieces| == 1 { assert pieces == [pieces[0]]; }
    if |pieces| == 2 {
      assert pieces[1..] == [Kept(pos)];
      RenderOne(src, Kept(pos));
    }
  }

  /** A round cuts off consecutive, justified pieces. */
  lemma {:induction false} RoundMeaning(src: seq<byte>, items: seq<Item>, rep: Replacement, n: nat, pos: nat)
    requires pos <= |src| && Round(src, items, rep, n, pos).Ok?
    ensures var cut := Round(src, items, rep, n, pos).value;
            && Consecutive(src, cut.pieces, pos, cut.tail)
            && (forall i :: 0 <= i < |cut.pieces| ==> Justified(src, items, rep, n, cut.pieces, i))
            && (Attempt(src, items, pos).Match? ==> cut.pieces != [] && cut.pieces[0].Replaced?)
            && (cut.tail != pos ==> cut.pieces != [] && !EndsEmpty(cut.pieces))
            && (cut.tail == pos ==> EndTried(src, items, cut.pieces))
  {
    hide Replaces, ReplacementText;
    MatchMeaning(src, items, pos);
    var cut := Round(src, items, rep, n, pos).value;
    var m := Attempt(src, items, pos);
    if m.Match? { TextReplaces(src, items, rep, n, pos, m.end, m.caps); }
    if |cut.pieces| > 0 {
      assert cut.pieces[..0] == [];
      assert Justified(src, items, rep, n, cut.pieces, 0);
      if |cut.pieces| > 1 {
        assert Justified(src, items, rep, n, cut.pieces, 1);
        assert cut.pieces[1..] == [Kept(pos)] && [Kept(pos)][1..] == [];
        assert Consecutive(src, [Kept(pos)], pos, pos + 1);
      } else {
        assert cut.pieces[1..] == [];
      }
    }
  }

  /** A match at the very end is tried, too. */
  ghost predicate EndTried(src: seq<byte>, items: seq<Item>, pieces: seq<Piece>) {
    || Attempt(src, items, |src|).NoMatch?
    || (pieces != [] && pieces[|pieces| - 1].Replaced? && pieces[|pieces| - 1].from == pieces[|pieces| - 1].end == |src|)
  }

  /** The cut covers src[pos..tail] exactly once and in order, each piece is justified, the
      number of replacements respects the limit, and the scan stops before the end, and before trying the
      end itself, only at the limit or behind an anchor.  A match at pos is replaced, even behind an anchor. */
  ghost predicate GoodCut(src: seq<byte>, items: seq<Item>, rep: Replacement, n: nat, pos: nat, limit: nat, anchor: bool, cut: Cut) {
    && Consecutive(src, cut.pieces, pos, cut.tail)
    && (forall i :: 0 <= i < |cut.pieces| ==> Justified(src, items, rep, n, cut.pieces, i))
    && Replacements(cut.pieces) <= limit
    && cut.tail <= |src|
    && (cut.tail < |src| ==> anchor || Replacements(cut.pieces) == limit)
    && (anchor ==> Replacements(cut.pieces) <= 1)
    && (pos <= |src| && limit > 0 && Attempt(src, items, pos).Match? ==> cut.pieces != [] && cut.pieces[0].Replaced?)
    && (!anchor && Replacements(cut.pieces) < limit ==> EndTried(src, items, cut.pieces))
  }

  /** At this place the matcher raises the error, or it matches, and the match cannot be replaced. */
  ghost predicate FailsAt(src: seq<byte>, items: seq<Item>, rep: Replacement, n: nat, at: nat, error: Error)
    requires at <= |src|
  {
    Attempt(src, items, at) == Raise(error) || (Attempt(src, items, at).Match? && CannotReplace(items, rep, n, error))
  }

  /** The scan has come to a place where it fails, with replacements left. */
  ghost predicate Broken(src: seq<byte>, items: seq<Item>, rep: Replacement, n: nat, pos: nat, limit: nat, anchor: bool, error: Error) {
    exists cut :: BrokenAt(src, items, rep, n, pos, limit, anchor, cut, error)
  }

  ghost predicate BrokenAt(src: seq<byte>, items: seq<Item>, rep: Replacement, n: nat, pos: nat, limit: nat, anchor: bool, cut: Cut,
                           error: Error) {
    && Consecutive(src, cut.pieces, pos, cut.tail) && cut.tail <= |src| && !EndsEmpty(cut.pieces)
    && (forall i :: 0 <= i < |cut.pieces| ==> Justified(src, items, rep, n, cut.pieces, i))
    && Replacements(cut.pieces) < limit && (anchor ==> cut.pieces == [])
    && FailsAt(src, items, rep, n + Replacements(cut.pieces), cut.tail, error)
  }

  lemma RoundFails(src: seq<byte>, items: seq<Item>, rep: Replacement, n: nat, pos: nat, limit: nat, anchor: bool)
    requires pos <= |src| && Round(src, items, rep, n, pos).Err? && limit > 0
    ensures Broken(src, items, rep, n, pos, limit, anchor, Round(src, items, rep, n, pos).error)
  {
    hide ReplacementText, CannotReplace;
    MatchMeaning(src, items, pos);
    var m := Attempt(src, items, pos);
    if m.Match? { TextFails(src, items, rep, n, pos, m.end, m.caps); }
    assert BrokenAt(src, items, rep, n, pos, limit, anchor, Cut([], pos), Round(src, items, rep, n, pos).error);
  }

  lemma BrokenJoin(src: seq<byte>, items: seq<Item>, rep: Replacement, n: nat, pos: nat, left: nat, head: Cut, error: Error)
    requires Consecutive(src, head.pieces, pos, head.tail) && Replacements(head.pieces) <= left && !EndsEmpty(head.pieces)
    requires forall i :: 0 <= i < |head.pieces| ==> Justified(src, items, rep, n, head.pieces, i)
    requires Broken(src, items, rep, n + Replacements(head.pieces), head.tail, left - Replacements(head.pieces), false, error)
    ensures Broken(src, items, rep, n, pos, left, false, error)
  {
    hide Justified, Consecutive, Replacements, Render, FailsAt;
    var cut :| BrokenAt(src, items, rep, n + Replacements(head.pieces), head.tail, left - Replacements(head.pieces), false, cut, error);
    ConsecutiveAppend(src, head.pieces, cut.pieces, pos, head.tail, cut.tail);
    RenderAppend(src, head.pieces, cut.pieces);
    JustifiedAppend(src, items, rep, n, head.pieces, n + Replacements(head.pieces), cut.pieces);
    if cut.pieces == [] { assert head.pieces + cut.pieces == head.pieces; }
    assert BrokenAt(src, items, rep, n, pos, left, false, Cut(head.pieces + cut.pieces, cut.tail), error);
  }

  /** What `gsub` does is right, for every pattern, replacement, limit and subject. */
  lemma {:induction false} PiecesMeaning(src: seq<byte>, items: seq<Item>, rep: Replacement, n: nat, pos: nat, left: int, anchor: bool)
    requires pos <= |src|
    ensures match Pieces(src, items, rep, n, pos, left, anchor)
            case Ok(cut) => GoodCut(src, items, rep, n, pos, if left > 0 then left else 0, anchor, cut)
            case Err(error) => left > 0 && Broken(src, items, rep, n, pos, left, anchor, error)
    decreases |src| - pos
  {
    if left > 0 {
      hide Round, Justified, Consecutive, Replacements, Render, Attempt, EndTried, EndsEmpty, Broken, GoodCut;
      if Round(src, items, rep, n, pos).Err? {
        RoundFails(src, items, rep, n, pos, left, anchor);
      } else {
        var head := Round(src, items, rep, n, pos).value;
        RoundBounds(src, items, rep, n, pos);
        RoundMeaning(src, items, rep, n, pos);
        if head.tail == pos || anchor {
          RoundGood(src, items, rep, n, pos, left, anchor, head);
        } else {
          var n', left' := n + Replacements(head.pieces), left - Replacements(head.pieces);
          PiecesMeaning(src, items, rep, n', head.tail, left', anchor);
          match Pieces(src, items, rep, n', head.tail, left', anchor) {
            case Ok(rest) => GoodJoin(src, items, rep, n, pos, left, head, rest);
            case Err(error) => BrokenJoin(src, items, rep, n, pos, left, head, error);
          }
        }
      }
    }
  }

  /** The only round. */
  lemma RoundGood(src: seq<byte>, items: seq<Item>, rep: Replacement, n: nat, pos: nat, left: nat, anchor: bool, head: Cut)
    requires Consecutive(src, head.pieces, pos, head.tail) && Replacements(head.pieces) <= 1 <= left && pos <= head.tail <= |src|
    requires forall i :: 0 <= i < |head.pieces| ==> Justified(src, items, rep, n, head.pieces, i)
    requires Attempt(src, items, pos).Match? ==> head.pieces != [] && head.pieces[0].Replaced?
    requires anchor || (head.tail == pos == |src| && EndTried(src, items, head.pieces))
    ensures GoodCut(src, items, rep, n, pos, left, anchor, head)
  {}

  /** A round, and a good cut of what it leaves. */
  lemma GoodJoin(src: seq<byte>, items: seq<Item>, rep: Replacement, n: nat, pos: nat, left: nat, head: Cut, rest: Cut)
    requires Consecutive(src, head.pieces, pos, head.tail) && Replacements(head.pieces) <= left && head.pieces != [] && !EndsEmpty(head.pieces)
    requires forall i :: 0 <= i < |head.pieces| ==> Justified(src, items, rep, n, head.pieces, i)
    requires pos <= |src| && (Attempt(src, items, pos).Match? ==> head.pieces[0].Replaced?)
    requires GoodCut(src, items, rep, n + Replacements(head.pieces), head.tail, left - Replacements(head.pieces), false, rest)
    ensures GoodCut(src, items, rep, n, pos, left, false, Cut(head.pieces + rest.pieces, rest.tail))
  {
    hide Justified, Consecutive, Replacements, Render, Attempt;
    ConsecutiveAppend(src, head.pieces, rest.pieces, pos, head.tail, rest.tail);
    RenderAppend(src, head.pieces, rest.pieces);
    JustifiedAppend(src, items, rep, n, head.pieces, n + Replacements(head.pieces), rest.pieces);
    var pieces := head.pieces + rest.pieces;
    assert rest.pieces != [] ==> pieces[|pieces| - 1] == rest.pieces[|rest.pieces| - 1];
  }

  /** The part of the source that a piece stands for. */
  function PieceSource(src: seq<byte>, piece: Piece): seq<byte> {
    match piece
    case Kept(at) => [PatternSyntax.At(src, at)]
    case Replaced(f, u, _) => if f <= u <= |src| then src[f..u] else []
  }

  /** Replacing every match by itself rebuilds the source: nothing is lost or repeated. */
  lemma {:induction false} SelfReplacement(src: seq<byte>, pieces: seq<Piece>, from: nat, end: nat)
    requires Consecutive(src, pieces, from, end) && from <= |src|
    requires forall i :: 0 <= i < |pieces| ==> PieceOut(src, pieces[i]) == PieceSource(src, pieces[i])
    ensures from <= end <= |src| && Render(src, pieces) == src[from..end]
  {
    if pieces != [] {
      var next := PieceEnd(pieces[0]);
      forall i | 0 <= i < |pieces[1..]|
        ensures PieceOut(src, pieces[1..][i]) == PieceSource(src, pieces[1..][i])
      {
        assert pieces[1..][i] == pieces[i + 1];
      }
      SelfReplacement(src, pieces[1..], next, end);
      SliceStep(src, from, next, end);
    }
  }

  lemma SliceStep(src: seq<byte>, a: nat, b: nat, c: nat)
    requires a <= b <= c <= |src|
    ensures src[a..c] == src[a..b] + src[b..c]
    ensures a + 1 == b ==> src[a..b] == [src[a]]
  {}

  // ---------------------------------------------------------------- the running code

  /** The `%` case of `add_s`. */
  method AddEscape(b: Buffer, src: seq<byte>, caps: seq<Cap>, c: byte, s: nat, e: nat) returns (r: Result<seq<byte>>)
    requires b.Valid() && s <= e <= |src| && Sane(src, caps, e)
    modifies b
    ensures b.Valid() && b.Base() == old(b.Base()) && r == EscapeText(src, caps, c, s, e)
    ensures r.Ok? ==> b.Contents() == old(b.Contents()) + r.value
  {
    if !IsDigit(c) {
      b.AddChar(c);
      return Ok([c]);
    } else if c == DIGIT0 {
      b.AddString(src[s..e]);
      return Ok(src[s..e]);
    }
    var v := CaptureValue(src, caps, c - DIGIT1, s, e);
    if v.Err? { return Err(v.error); }
    b.AddValue(ToText(v.value));
    return Ok(ToText(v.value));
  }

  /** `add_s`. */
  method AddTemplate(b: Buffer, src: seq<byte>, caps: seq<Cap>, news: seq<byte>, s: nat, e: nat) returns (r: Result<()>)
    requires b.Valid() && s <= e <= |src| && Sane(src, caps, e)
    modifies b
    ensures b.Valid() && b.Base() == old(b.Base())
    ensures match Expand(src, caps, news, 0, s, e)
            case Ok(text) => r == Ok(()) && b.Contents() == old(b.Contents()) + text
            case Err(error) => r == Err(error)
  {
    var i := 0;
    ghost var done: seq<byte>, was := [], b.Contents();
    PrependTwice([], [], Expand(src, caps, news, 0, s, e));
    while i < |news|
      invariant 0 <= i
      invariant b.Valid() && b.Base() == old(b.Base()) && b.Contents() == was + done
      invariant Expand(src, caps, news, 0, s, e) == Prepend(done, Expand(src, caps, news, i, s, e))
      decreases |news| - i
    {
      ghost var out := [news[i]];
      if news[i] != ESC {
        b.AddChar(news[i]);
      } else {
        i := i + 1;
        var text := AddEscape(b, src, caps, PatternSyntax.At(news, i), s, e);
        if text.Err? { return Err(text.error); }
        out := text.value;
      }
      i := i + 1;
      PrependTwice(done, out, Expand(src, caps, news, i, s, e));
      assert (was + done) + out == was + (done + out);
      done := done + out;
    }
    return Ok(());
  }

  /** `add_value`. */
  method AddReplacement(b: Buffer, src: seq<byte>, caps: seq<Cap>, rep: Replacement, n: nat, s: nat, e: nat) returns (r: Result<()>)
    requires b.Valid() && s <= e <= |src| && Sane(src, caps, e)
    modifies b
    ensures b.Valid() && b.Base() == old(b.Base())
    ensures match ReplacementText(src, caps, rep, n, s, e)
            case Ok(text) => r == Ok(()) && b.Contents() == old(b.Contents()) + text
            case Err(error) => r == Err(error)
  {
    var reply;
    match rep {
      case Template(news) =>
        r := AddTemplate(b, src, caps, news, s, e);
        return;
      case Function(call) =>
        var vs := PushCaptures(src, caps, s, e, true);
        if vs.Err? { return Err(vs.error); }
        reply := call(n, vs.value);
      case Table(get) =>
        var v := CaptureValue(src, caps, 0, s, e);
        if v.Err? { return Err(v.error); }
        reply := get(n, v.value);
    }
    match reply {
      case Falsy => b.AddValue(src[s..e]);
      case Str(text) => b.AddValue(text);
      case Other => return Err(InvalidReplacement);
    }
    return Ok(());
  }

  /** One pass of the loop of `string_gsub`. */
  method GsubRound(ms: MatchState, b: Buffer, p: nat, rep: Replacement, n: nat, pos: nat)
    returns (r: Result<bool>, pos': nat, ghost head: seq<Piece>)
    requires ms.Valid() && p <= |ms.pat| && b.Valid() && pos <= |ms.src|
    modifies ms, ms.capture, b
    ensures ms.Valid() && b.Valid() && b.Base() == old(b.Base())
    ensures match r
            case Err(error) => Round(ms.src, Items(ms.pat, p), rep, n, pos) == Err(error)
            case Ok(hit) =>
              && Round(ms.src, Items(ms.pat, p), rep, n, pos) == Ok(Cut(head, pos'))
              && b.Contents() == old(b.Contents()) + Render(ms.src, head)
              && Replacements(head) == (if hit then 1 else 0)
  {
    hide Items, ReplacementText, First, Sane, Justified, Attempt;
    pos', head := pos, [];
    var res := TryAt(ms, pos, p);
    var hit := false;
    if res.Raise? { return Err(res.error), pos, []; }
    if res.Match? {
      hit := true;
      var added := AddReplacement(b, ms.src, res.caps, rep, n, pos, res.end);
      if added.Err? { return Err(added.error), pos, []; }
      head := [Replaced(pos, res.end, ReplacementText(ms.src, res.caps, rep, n, pos, res.end).value)];
      RenderOne(ms.src, head[0]);
    }
    if res.Match? && res.end > pos {
      pos' := res.end;
    } else if pos < |ms.src| {
      b.AddChar(ms.src[pos]);
      RenderOne(ms.src, Kept(pos));
      RenderAppend(ms.src, head, [Kept(pos)]);
      assert head + [Kept(pos)] == if head == [] then [Kept(pos)] else [head[0], Kept(pos)];
      pos', head := pos + 1, head + [Kept(pos)];
    }
    r := Ok(hit);
  }

  /** With `out` rendered and n matches replaced so far, `todo` completes `all`. */
  ghost predicate Continues(src: seq<byte>, all: Result<Cut>, todo: Result<Cut>, out: seq<byte>, n: nat) {
    match todo
    case Err(_) => all == todo
    case Ok(rest) =>
      && all.Ok? && rest.tail == all.value.tail
      && out + Render(src, rest.pieces) == Render(src, all.value.pieces)
      && n + Replacements(rest.pieces) == Replacements(all.value.pieces)
  }

  /** What is left to do: nothing once the loop has stopped. */
  ghost function Todo(src: seq<byte>, items: seq<Item>, rep: Replacement, n: nat, pos: nat, left: int, anchor: bool,
                      stop: bool): Result<Cut>
    requires pos <= |src|
  {
    if stop then Ok(Cut([], pos)) else Pieces(src, items, rep, n, pos, left, anchor)
  }

  lemma ContinueStart(src: seq<byte>, all: Result<Cut>)
    ensures Continues(src, all, all, [], 0)
  {
    if all.Ok? { assert [] + Render(src, all.value.pieces) == Render(src, all.value.pieces); }
  }

  lemma SeqAssoc(a: seq<byte>, b: seq<byte>, c: seq<byte>)
    ensures (a + b) + c == a + (b + c)
  {}

  lemma ContinueAppend(src: seq<byte>, head: seq<Piece>, rest: Result<Cut>, all: Result<Cut>, out: seq<byte>, n: nat)
    requires Continues(src, all, Prefixed(head, rest), out, n)
    ensures Continues(src, all, rest, out + Render(src, head), n + Replacements(head))
  {
    if rest.Ok? {
      RenderAppend(src, head, rest.value.pieces);
      SeqAssoc(out, Render(src, head), Render(src, rest.value.pieces));
    }
  }

  /** One round of the loop, as a step from `Todo` to `Todo`. */
  lemma ContinueRound(src: seq<byte>, items: seq<Item>, rep: Replacement, was: nat, left: int, anchor: bool,
                      all: Result<Cut>, out: seq<byte>, n: nat)
    requires was <= |src| && left > 0
    requires Continues(src, all, Pieces(src, items, rep, n, was, left, anchor), out, n)
    ensures Round(src, items, rep, n, was).Err? ==> all == Err(Round(src, items, rep, n, was).error)
    ensures Round(src, items, rep, n, was).Ok? ==>
              var cut := Round(src, items, rep, n, was).value;
              && was <= cut.tail <= |src|
              && Continues(src, all, Todo(src, items, rep, n + Replacements(cut.pieces), cut.tail,
                                          left - Replacements(cut.pieces), anchor, cut.tail == was || anchor),
                           out + Render(src, cut.pieces), n + Replacements(cut.pieces))
  {
    var round := Round(src, items, rep, n, was);
    if round.Ok? {
      RoundBounds(src, items, rep, n, was);
      var cut := round.value;
      var rest := Todo(src, items, rep, n + Replacements(cut.pieces), cut.tail, left - Replacements(cut.pieces), anchor,
                       cut.tail == was || anchor);
      assert cut.pieces + [] == cut.pieces;
      assert Pieces(src, items, rep, n, was, left, anchor) == Prefixed(cut.pieces, rest);
      ContinueAppend(src, cut.pieces, rest, all, out, n);
    }
  }

  /** The loop of `string_gsub` is at `pos`, with n replacements done and `out` in the buffer. */
  ghost predicate Underway(src: seq<byte>, items: seq<Item>, rep: Replacement, maxS: int, anchor: bool,
                           out: seq<byte>, n: nat, pos: nat, stop: bool) {
    pos <= |src| &&
    Continues(src, Pieces(src, items, rep, 0, 0, maxS, anchor), Todo(src, items, rep, n, pos, maxS - n, anchor, stop), out, n)
  }

  lemma UnderwayStart(src: seq<byte>, items: seq<Item>, rep: Replacement, maxS: int, anchor: bool)
    ensures Underway(src, items, rep, maxS, anchor, [], 0, 0, false)
  {
    ContinueStart(src, Pieces(src, items, rep, 0, 0, maxS, anchor));
  }

  /** A round of the running loop. */
  lemma UnderwayRound(src: seq<byte>, items: seq<Item>, rep: Replacement, maxS: int, anchor: bool,
                      out: seq<byte>, n: nat, was: nat, round: Result<bool>, pos: nat, head: seq<Piece>)
    requires n < maxS && Underway(src, items, rep, maxS, anchor, out, n, was, false)
    requires match round
             case Err(error) => Round(src, items, rep, n, was) == Err(error)
             case Ok(hit) => Round(src, items, rep, n, was) == Ok(Cut(head, pos)) && Replacements(head) == (if hit then 1 else 0)
    ensures round.Err? ==> Pieces(src, items, rep, 0, 0, maxS, anchor) == Err(round.error)
    ensures round.Ok? ==>
              && was <= pos <= |src| && (pos == was ==> was == |src|)
              && Underway(src, items, rep, maxS, anchor, out + Render(src, head), if round.value then n + 1 else n, pos,
                          pos == was || anchor)
  {
    hide Round, Continues, Render, Replacements, Pieces;
    var all := Pieces(src, items, rep, 0, 0, maxS, anchor);
    assert Todo(src, items, rep, n, was, maxS - n, anchor, false) == Pieces(src, items, rep, n, was, maxS - n, anchor);
    ContinueRound(src, items, rep, was, maxS - n, anchor, all, out, n);
    if round.Ok? {
      RoundBounds(src, items, rep, n, was);
      var n' := n + Replacements(head);
      assert maxS - n' == maxS - n - Replacements(head);
    }
  }

  /** The loop ends when it has stopped, or at the limit. */
  lemma UnderwayEnd(src: seq<byte>, items: seq<Item>, rep: Replacement, maxS: int, anchor: bool,
                    out: seq<byte>, n: nat, pos: nat, stop: bool)
    requires Underway(src, items, rep, maxS, anchor, out, n, pos, stop) && (n >= maxS || stop)
    ensures pos <= |src| && Continues(src, Pieces(src, items, rep, 0, 0, maxS, anchor), Ok(Cut([], pos)), out, n)
  {
    hide Continues;
  }

  /** The output for a result of Pieces. */
  function Output(src: seq<byte>, cut: Cut): seq<byte>
    requires cut.tail <= |src|
  {
    Render(src, cut.pieces) + src[cut.tail..]
  }

  /** The loop of `string_gsub`: n replacements, with src[pos..] left to copy. */
  method GsubLoop(ms: MatchState, b: Buffer, p: nat, rep: Replacement, maxS: int, anchor: bool)
    returns (r: Result<nat>, pos: nat)
    requires ms.Valid() && p <= |ms.pat| && b.Valid() && b.Contents() == []
    modifies ms, ms.capture, b
    ensures b.Valid() && b.Base() == old(b.Base()) && pos <= |ms.src|
    ensures var all := Pieces(ms.src, Items(ms.pat, p), rep, 0, 0, maxS, anchor);
            match r
            case Err(error) => all == Err(error)
            case Ok(n) => Continues(ms.src, all, Ok(Cut([], pos)), b.Contents(), n)
  {
    hide Pieces, Round, Continues, Render, Items, Todo, Replacements, Underway;
    ghost var items := Items(ms.pat, p);
    pos := 0;
    var stop, n: nat := false, 0;
    UnderwayStart(ms.src, items, rep, maxS, anchor);
    while n < maxS && !stop
      invariant pos <= |ms.src| && b.Valid() && b.Base() == old(b.Base()) && ms.Valid()
      invariant Underway(ms.src, items, rep, maxS, anchor, b.Contents(), n, pos, stop)
      decreases !stop, |ms.src| - pos
    {
      ghost var was, out := n, b.Contents();
      var round, pos';
      ghost var head;
      round, pos', head := GsubRound(ms, b, p, rep, n, pos);
      UnderwayRound(ms.src, items, rep, maxS, anchor, out, was, pos, round, pos', head);
      if round.Err? { return Err(round.error), pos; }
      if round.value { n := n + 1; }
      stop := pos' == pos || anchor;
      pos := pos';
    }
    UnderwayEnd(ms.src, items, rep, maxS, anchor, b.Contents(), n, pos, stop);
    r := Ok(n);
  }

  /** `string_gsub`: the result is the rendered pieces followed by the uncut tail, together
      with the number of replaced pieces. */
  method Gsub(src: seq<byte>, pattern: seq<byte>, rep: Replacement, maxS: int, b: Buffer)
    returns (r: Result<nat>)
    requires b.Valid() && b.Contents() == []
    modifies b
    ensures var anchor := PatternSyntax.At(pattern, 0) == CARET;
            match Pieces(src, Items(pattern, if anchor then 1 else 0), rep, 0, 0, maxS, anchor)
            case Err(error) =>
              r == Err(error) && maxS > 0 && Broken(src, Items(pattern, if anchor then 1 else 0), rep, 0, 0, maxS, anchor, error)
            case Ok(cut) =>
              && cut.tail <= |src| && r == Ok(Replacements(cut.pieces)) && b.stack == old(b.Base()) + [Output(src, cut)]
              && GoodCut(src, Items(pattern, if anchor then 1 else 0), rep, 0, 0, if maxS > 0 then maxS else 0, anchor, cut)
  {
    hide GoodCut, Broken, Pieces, Items;
    PiecesMeaning(src, Items(pattern, if PatternSyntax.At(pattern, 0) == CARET then 1 else 0), rep, 0, 0, maxS,
                  PatternSyntax.At(pattern, 0) == CARET);
    var p := 0;
    var anchor := PatternSyntax.At(pattern, 0) == CARET;
    if anchor { p := 1; }
    var ms := new MatchState(src, pattern);
    var pos;
    r, pos := GsubLoop(ms, b, p, rep, maxS, anchor);
    if r.Ok? {
      assert b.Contents() + Render(src, []) == b.Contents();
      b.AddString(src[pos..]);
      b.PushResult();
    }
  }
}
