/** How patterns are written: the spelling of each item, as section 5.4.1 of the Lua 5.1 Reference
    Manual has it, that the text so written is read as just these items, and what the four
    repetitions mean, told from the text (luajit/lib_string.c). */
module PatternText {
  import opened PatternSyntax
  import opened PatternSemantics

  // ---------------------------------------------------------------- spelling

  function MemberText(m: Member): (t: seq<byte>)
    ensures t != []
  {
    match m
    case MClass(cl) => [ESC, cl]
    case MRange(lo, hi) => [lo, MINUS, hi]
    case MByte(b) => [b]
  }

  function MembersText(ms: seq<Member>): seq<byte> {
    if ms == [] then [] else MemberText(ms[0]) + MembersText(ms[1..])
  }

  function SingleText(x: Single): (t: seq<byte>)
    ensures t != []
  {
    match x
    case AnyByte => [DOT]
    case Class(cl) => [ESC, cl]
    case SetOf(negated, ms) => [LBRACKET] + ((if negated then [CARET] else []) + (MembersText(ms) + [RBRACKET]))
    case Literal(b) => [b]
  }

  function ItemText(item: Item): seq<byte> {
    match item
    case One(x) => SingleText(x)
    case Optional(x) => SingleText(x) + [QUESTION]
    case Greedy(x) => SingleText(x) + [STAR]
    case GreedyPlus(x) => SingleText(x) + [PLUS]
    case Lazy(x) => SingleText(x) + [MINUS]
    case Balance(b, e) => [ESC, LOWER_B, b, e]
    case Frontier(x) => [ESC, LOWER_F] + SingleText(x)
    case Open => [LPAREN]
    case Position => [LPAREN, RPAREN]
    case Close => [RPAREN]
    case BackRef(digit) => [ESC, digit]
    case AtEnd => [DOLLAR]
    case Bad(_) => []
  }

  function Text(items: seq<Item>): seq<byte> {
    if items == [] then [] else ItemText(items[0]) + Text(items[1..])
  }

  // ---------------------------------------------------------------- what can be written so

  /** Bytes with a meaning of their own in a set are written with `%`. */
  predicate MemberOk(m: Member) {
    match m
    case MClass(cl) => cl != 0
    case MRange(lo, hi) => lo !in {0, ESC, RBRACKET, MINUS} && hi !in {0, ESC, RBRACKET}
    case MByte(b) => b !in {0, ESC, RBRACKET, MINUS}
  }

  predicate MembersOk(ms: seq<Member>) { forall i :: 0 <= i < |ms| ==> MemberOk(ms[i]) }

  predicate SetOk(negated: bool, ms: seq<Member>) {
    ms != [] && MembersOk(ms) && (!negated ==> MemberText(ms[0])[0] != CARET)
  }

  predicate IsSuffix(c: byte) { c in {QUESTION, STAR, PLUS, MINUS} }

  /** Letters after `%` that do not begin other items; bytes without a meaning of their own. */
  predicate SingleOk(x: Single) {
    match x
    case AnyByte => true
    case Class(cl) => cl != 0 && cl != LOWER_B && cl != LOWER_F && !IsDigit(cl)
    case SetOf(negated, ms) => SetOk(negated, ms)
    case Literal(b) => b !in {0, ESC, DOT, LBRACKET, LPAREN, RPAREN, DOLLAR} && !IsSuffix(b)
  }

  predicate ItemOk(item: Item) {
    match item
    case Balance(b, e) => b != 0 && e != 0
    case Frontier(x) => x.SetOf? && SingleOk(x)
    case BackRef(digit) => IsDigit(digit)
    case Open => true
    case Position => true
    case Close => true
    case AtEnd => true
    case Bad(_) => false
    case _ => SingleOk(item.x)
  }

  /** `$` stands at the end only, and an opening parenthesis not right before a closing one. */
  predicate Spelled(items: seq<Item>) {
    items != [] ==>
      && ItemOk(items[0]) && Spelled(items[1..])
      && (items[0].AtEnd? ==> |items| == 1)
      && (items[0].Open? && |items| > 1 ==> !items[1].Close?)
  }

  // ---------------------------------------------------------------- reading what was written

  lemma {:induction false} SplitAt(pat: seq<byte>, p: nat, a: seq<byte>, b: seq<byte>)
    requires p + |a| + |b| <= |pat| && pat[p..p + |a| + |b|] == a + b
    ensures pat[p..p + |a|] == a && pat[p + |a|..p + |a| + |b|] == b && forall i :: 0 <= i < |a| ==> pat[p + i] == a[i]
  {
    var t := pat[p..p + |a| + |b|];
    assert t[..|a|] == pat[p..p + |a|] && (a + b)[..|a|] == a;
    assert t[|a|..] == pat[p + |a|..p + |a| + |b|] && (a + b)[|a|..] == b;
    forall i | 0 <= i < |a|
      ensures pat[p + i] == a[i]
    {
      assert pat[p..p + |a|][i] == pat[p + i];
    }
  }

  /** The text of the first member, and what is behind it. */
  lemma {:induction false} FirstMember(pat: seq<byte>, q: nat, ms: seq<Member>)
    requires ms != [] && MembersOk(ms) && q + |MembersText(ms)| < |pat|
    requires pat[q..q + |MembersText(ms)|] == MembersText(ms) && pat[q + |MembersText(ms)|] == RBRACKET
    ensures var m := MemberText(ms[0]);
            && MembersText(ms) == m + MembersText(ms[1..]) && (forall i :: 0 <= i < |m| ==> pat[q + i] == m[i])
            && pat[q + |m|..q + |MembersText(ms)|] == MembersText(ms[1..])
            && pat[q + |m|] != MINUS && (pat[q + |m|] == RBRACKET <==> |ms| == 1) && (|ms| == 1 ==> MembersText(ms) == m)
  {
    var m, rest := MemberText(ms[0]), MembersText(ms[1..]);
    var t := m + rest;
    hide MemberText, MembersText, MembersOk;
    MembersSplit(ms);
    SplitAt(pat, q, m, rest);
    if |ms| > 1 {
      SecondMember(ms);
      assert pat[q + |m|] == pat[q + |m|..q + |t|][0] == rest[0];
    } else {
      assert rest == [] && t == m;
    }
  }

  lemma {:induction false} MembersSplit(ms: seq<Member>)
    requires ms != []
    ensures MembersText(ms) == MemberText(ms[0]) + MembersText(ms[1..]) && (|ms| == 1 ==> MembersText(ms[1..]) == [])
  {}

  lemma {:induction false} SecondMember(ms: seq<Member>)
    requires |ms| > 1 && MembersOk(ms)
    ensures MembersText(ms[1..]) != [] && MembersText(ms[1..])[0] !in {RBRACKET, MINUS}
  {
    assert MemberOk(ms[1]) && ms[1..][0] == ms[1];
    assert MembersText(ms[1..]) == MemberText(ms[1]) + MembersText(ms[1..][1..]);
    assert MembersText(ms[1..])[0] == MemberText(ms[1])[0];
  }

  lemma {:induction false} BracketParsed(pat: seq<byte>, q: nat, ms: seq<Member>)
    requires ms != [] && MembersOk(ms) && q + |MembersText(ms)| < |pat|
    requires pat[q..q + |MembersText(ms)|] == MembersText(ms) && pat[q + |MembersText(ms)|] == RBRACKET
    ensures BracketEnd(pat, q) == End(q + |MembersText(ms)| + 1)
    decreases |ms|
  {
    hide MembersText;
    FirstMember(pat, q, ms);
    var m := MemberText(ms[0]);
    assert MemberOk(ms[0]) && pat[q] == pat[q + 0] == m[0];
    if |ms| > 1 { BracketParsed(pat, q + |m|, ms[1..]); }
    match ms[0] {
      case MClass(cl) => assert pat[q + 1] == m[1];
      case MRange(lo, hi) =>
        assert pat[q + 1] == m[1] && pat[q + 2] == m[2];
        assert BracketEnd(pat, q) == BracketEnd(pat, q + 1) == BracketEnd(pat, q + 2);
      case MByte(b) =>
    }
  }

  lemma {:induction false} MembersParsed(pat: seq<byte>, q: nat, ms: seq<Member>, ec: nat)
    requires MembersOk(ms) && ec == q + |MembersText(ms)| < |pat|
    requires pat[q..ec] == MembersText(ms) && pat[ec] == RBRACKET
    ensures SetMembers(pat, q, ec) == ms
    decreases |ms|
  {
    if ms != [] {
      FirstMember(pat, q, ms);
      var m := MemberText(ms[0]);
      assert MemberOk(ms[0]) && pat[q] == pat[q + 0] == m[0];
      MembersParsed(pat, q + |m|, ms[1..], ec);
      assert ms == [ms[0]] + ms[1..];
      if !ms[0].MByte? { assert pat[q + 1] == m[1]; }
      if ms[0].MRange? { assert pat[q + 2] == m[2]; }
    }
  }

  /** The parts of a set. */
  lemma {:induction false} SetParts(pat: seq<byte>, p: nat, negated: bool, ms: seq<Member>)
    requires SetOk(negated, ms) && p + |SingleText(SetOf(negated, ms))| <= |pat|
    requires pat[p..p + |SingleText(SetOf(negated, ms))|] == SingleText(SetOf(negated, ms))
    ensures var q, ec := if negated then p + 2 else p + 1, p + |SingleText(SetOf(negated, ms))| - 1;
            && p + 1 < |pat| && pat[p] == LBRACKET && ec == q + |MembersText(ms)| && q < ec < |pat| && pat[ec] == RBRACKET
            && pat[q..ec] == MembersText(ms) && (pat[p + 1] == CARET <==> negated)
  {
    var head := if negated then [LBRACKET, CARET] else [LBRACKET];
    var body := MembersText(ms);
    assert SingleText(SetOf(negated, ms)) == head + (body + [RBRACKET]);
    assert body == MemberText(ms[0]) + MembersText(ms[1..]);
    assert body != [] && body[0] == MemberText(ms[0])[0];
    hide MembersText, MemberText, SingleText;
    Bracketed(pat, p, head, body, RBRACKET);
    assert pat[p] == pat[p + 0] == head[0];
    if negated {
      assert pat[p + 1] == head[1];
    } else {
      assert pat[p + 1] == pat[p + 1..p + 1 + |body|][0];
    }
  }

  lemma {:induction false} Bracketed(pat: seq<byte>, p: nat, head: seq<byte>, body: seq<byte>, last: byte)
    requires var t := head + (body + [last]); p + |t| <= |pat| && pat[p..p + |t|] == t
    ensures forall i :: 0 <= i < |head| ==> pat[p + i] == head[i]
    ensures pat[p + |head|..p + |head| + |body|] == body && pat[p + |head| + |body|] == last
  {
    SplitAt(pat, p, head, body + [last]);
    SplitAt(pat, p + |head|, body, [last]);
    assert pat[p + |head| + |body|] == pat[p + |head| + |body|..p + |head| + |body| + 1][0];
  }

  lemma {:induction false} SetParsed(pat: seq<byte>, p: nat, negated: bool, ms: seq<Member>)
    requires SetOk(negated, ms) && p + |SingleText(SetOf(negated, ms))| <= |pat|
    requires pat[p..p + |SingleText(SetOf(negated, ms))|] == SingleText(SetOf(negated, ms))
    ensures var ep := p + |SingleText(SetOf(negated, ms))|;
            pat[p] == LBRACKET && ClassEnd(pat, p) == End(ep) && p < ep - 1 && SetAt(pat, p, ep - 1) == SetOf(negated, ms)
  {
    SetParts(pat, p, negated, ms);
    var q, ec := if negated then p + 2 else p + 1, p + |SingleText(SetOf(negated, ms))| - 1;
    hide SingleText, MembersText, BracketEnd, SetMembers;
    BracketParsed(pat, q, ms);
    MembersParsed(pat, q, ms, ec);
  }

  /** The text of a single-byte item is read as that item. */
  lemma {:induction false} SingleParsed(pat: seq<byte>, p: nat, x: Single)
    requires SingleOk(x) && p + |SingleText(x)| <= |pat| && pat[p..p + |SingleText(x)|] == SingleText(x)
    ensures ClassEnd(pat, p) == End(p + |SingleText(x)|) && SingleAt(pat, p, p + |SingleText(x)|) == x
  {
    if x.SetOf? {
      SetParsed(pat, p, x.negated, x.members);
    } else {
      var t := SingleText(x);
      assert pat[p] == pat[p..p + |t|][0] == t[0];
      if x.Class? { assert pat[p + 1] == pat[p..p + |t|][1] == t[1]; }
    }
    hide MembersText, BracketEnd, SetMembers, SetAt, SingleText;
  }

  /** What must not follow an item, lest it be read as another one. */
  predicate Separate(pat: seq<byte>, q: nat, item: Item) {
    && (item.One? ==> !IsSuffix(At(pat, q)))
    && (item.Open? ==> At(pat, q) != RPAREN)
    && (item.AtEnd? ==> At(pat, q) == 0)
  }

  /** The text of an item is read as that item. */
  lemma {:induction false} ItemParsed(pat: seq<byte>, p: nat, item: Item)
    requires ItemOk(item) && p + |ItemText(item)| <= |pat| && pat[p..p + |ItemText(item)|] == ItemText(item)
    requires Separate(pat, p + |ItemText(item)|, item)
    ensures Items(pat, p) == [item] + if item.AtEnd? then [] else Items(pat, p + |ItemText(item)|)
  {
    hide SingleOk, SingleText, ClassEnd, SingleAt;
    match item {
      case Frontier(x) =>
        var t := ItemText(item);
        assert pat[p] == pat[p..p + |t|][0] && pat[p + 1] == pat[p..p + |t|][1];
        assert pat[p + 2..p + |t|] == SingleText(x) by { assert pat[p..p + |t|][2..] == pat[p + 2..p + |t|]; }
        FrontierParsed(pat, p + 2, x);
      case Balance(_, _) => FixedParsed(pat, p, item);
      case Open => FixedParsed(pat, p, item);
      case Position => FixedParsed(pat, p, item);
      case Close => FixedParsed(pat, p, item);
      case BackRef(_) => FixedParsed(pat, p, item);
      case AtEnd => FixedParsed(pat, p, item);
      case _ => RepeatParsed(pat, p, item);
    }
  }

  /** Items written with certain bytes. */
  lemma {:induction false} FixedParsed(pat: seq<byte>, p: nat, item: Item)
    requires item.Balance? || item.Open? || item.Position? || item.Close? || item.BackRef? || item.AtEnd?
    requires ItemOk(item) && p + |ItemText(item)| <= |pat| && pat[p..p + |ItemText(item)|] == ItemText(item)
    requires Separate(pat, p + |ItemText(item)|, item)
    ensures Items(pat, p) == [item] + if item.AtEnd? then [] else Items(pat, p + |ItemText(item)|)
  {
    var t := ItemText(item);
    var all := pat[p..p + |t|];
    assert pat[p] == all[0] == t[0];
    if |t| > 1 { assert pat[p + 1] == all[1] == t[1]; }
    if |t| > 2 { assert pat[p + 2] == all[2] == t[2] && pat[p + 3] == all[3] == t[3]; }
  }

  /** A single-byte item with its suffix. */
  lemma {:induction false} RepeatParsed(pat: seq<byte>, p: nat, item: Item)
    requires item.One? || item.Optional? || item.Greedy? || item.GreedyPlus? || item.Lazy?
    requires ItemOk(item) && p + |ItemText(item)| <= |pat| && pat[p..p + |ItemText(item)|] == ItemText(item)
    requires Separate(pat, p + |ItemText(item)|, item)
    ensures Items(pat, p) == [item] + Items(pat, p + |ItemText(item)|)
  {
    hide SingleOk, SingleText, ClassEnd, SingleAt, Items;
    var t, x := ItemText(item), item.x;
    var n := |SingleText(x)|;
    assert pat[p..p + n] == SingleText(x) by { assert pat[p..p + |t|][..n] == pat[p..p + n] && t[..n] == SingleText(x); }
    DefaultParsed(pat, p, x);
    if !item.One? { assert pat[p + n] == pat[p..p + |t|][n] == t[n]; }
  }

  lemma {:induction false} FrontierParsed(pat: seq<byte>, p: nat, x: Single)
    requires x.SetOf? && SingleOk(x) && p + |SingleText(x)| <= |pat| && pat[p..p + |SingleText(x)|] == SingleText(x)
    ensures At(pat, p) == LBRACKET && ClassEnd(pat, p) == End(p + |SingleText(x)|)
    ensures SetAt(pat, p, p + |SingleText(x)| - 1) == x
  {
    SingleParsed(pat, p, x);
    assert pat[p] == pat[p..p + |SingleText(x)|][0];
  }

  /** A single-byte item is none of the others. */
  lemma {:induction false} DefaultParsed(pat: seq<byte>, p: nat, x: Single)
    requires SingleOk(x) && p + |SingleText(x)| <= |pat| && pat[p..p + |SingleText(x)|] == SingleText(x)
    ensures Items(pat, p) == ItemsDefault(pat, p)
    ensures ClassEnd(pat, p) == End(p + |SingleText(x)|) && SingleAt(pat, p, p + |SingleText(x)|) == x
  {
    SingleParsed(pat, p, x);
    var t := SingleText(x);
    assert pat[p] == pat[p..p + |t|][0];
    if x.Class? { assert pat[p + 1] == pat[p..p + |t|][1]; }
  }

  /** The first byte of an item is no suffix, and a closing parenthesis only of that item. */
  lemma {:induction false} FirstByte(items: seq<Item>)
    requires Spelled(items) && items != []
    ensures Text(items) != [] && !IsSuffix(Text(items)[0]) && (Text(items)[0] == RPAREN ==> items[0].Close?)
  {
    assert Text(items) == ItemText(items[0]) + Text(items[1..]);
    assert ItemText(items[0]) != [] && Text(items)[0] == ItemText(items[0])[0];
    match items[0] {
      case One(x) => assert Text(items)[0] == SingleText(x)[0];
      case Optional(x) => assert Text(items)[0] == SingleText(x)[0];
      case Greedy(x) => assert Text(items)[0] == SingleText(x)[0];
      case GreedyPlus(x) => assert Text(items)[0] == SingleText(x)[0];
      case Lazy(x) => assert Text(items)[0] == SingleText(x)[0];
      case _ =>
    }
  }

  /** Reading what was written gives the items back. */
  lemma {:induction false} TextParsed(pat: seq<byte>, p: nat, items: seq<Item>)
    requires p <= |pat| && Spelled(items) && pat[p..] == Text(items)
    ensures Items(pat, p) == items
    decreases |items|
  {
    hide ItemText, ItemOk, Items;
    if items != [] {
      var n := |ItemText(items[0])|;
      TextSplit(pat, p, items);
      ItemParsed(pat, p, items[0]);
      if !items[0].AtEnd? { TextParsed(pat, p + n, items[1..]); }
      assert items == [items[0]] + items[1..];
    } else {
      NothingLeft(pat, p);
    }
  }

  lemma {:induction false} NothingLeft(pat: seq<byte>, p: nat)
    requires p <= |pat| && pat[p..] == []
    ensures Items(pat, p) == []
  {}

  lemma {:induction false} TextSplit(pat: seq<byte>, p: nat, items: seq<Item>)
    requires p <= |pat| && Spelled(items) && pat[p..] == Text(items) && items != []
    ensures var n := |ItemText(items[0])|;
            && p + n <= |pat| && pat[p..p + n] == ItemText(items[0]) && pat[p + n..] == Text(items[1..])
            && Separate(pat, p + n, items[0])
  {
    hide ItemText, ItemOk;
    var t, rest := ItemText(items[0]), Text(items[1..]);
    assert pat[p..] == t + rest;
    assert pat[p..][..|t|] == pat[p..p + |t|] && pat[p..][|t|..] == pat[p + |t|..];
    if |items| > 1 {
      FirstByte(items[1..]);
      assert pat[p + |t|] == pat[p + |t|..][0] == rest[0];
      assert items[1..][0] == items[1];
    } else {
      assert items[1..] == [] && rest == [];
    }
  }

  /** Every list of items that can be written is what its text stands for. */
  lemma {:induction false} SpellingRoundTrip(items: seq<Item>)
    requires Spelled(items)
    ensures Items(Text(items), 0) == items
  {
    assert Text(items)[0..] == Text(items);
    TextParsed(Text(items), 0, items);
  }

  // ---------------------------------------------------------------- repetitions

  /** How often `x` may be used before `?`, `*`, `+` or `-`. */
  predicate TimesOk(suffix: byte, k: nat) { (suffix == QUESTION ==> k <= 1) && (suffix == PLUS ==> k >= 1) }

  /** `-` prefers fewer uses, all others prefer more. */
  predicate Preferred(suffix: byte, j: nat, k: nat) { if suffix == MINUS then j < k else j > k }

  /** How the pattern goes on behind the suffix, after k uses; leaving out `x?` needs no deeper call. */
  function GoOn(src: seq<byte>, rest: seq<Item>, suffix: byte, k: nat, s: nat, caps: seq<Cap>, d: nat): Res
    requires s + k <= |src|
  {
    if suffix == QUESTION && k == 0 then First(src, rest, s, caps, d) else Enter(src, rest, s + k, caps, d)
  }

  /** r is what comes of the preferred number of uses with which the pattern goes on. */
  ghost predicate TakesPreferred(src: seq<byte>, x: Single, suffix: byte, rest: seq<Item>, s: nat, caps: seq<Cap>, d: nat, r: Res) {
    && (r.Match? ==> exists k ::
          && TimesOk(suffix, k) && AllIn(src, s, k, x) && GoOn(src, rest, suffix, k, s, caps, d) == r
          && forall j :: TimesOk(suffix, j) && AllIn(src, s, j, x) && Preferred(suffix, j, k) ==>
               GoOn(src, rest, suffix, j, s, caps, d).NoMatch?)
    && (r.NoMatch? ==> forall k :: TimesOk(suffix, k) && AllIn(src, s, k, x) ==> GoOn(src, rest, suffix, k, s, caps, d).NoMatch?)
  }

  /** The text of a single-byte item and a suffix: `*`, `+` and `?` take the longest run of bytes with
      which what is behind them matches, `-` the shortest. */
  lemma {:induction false} RepetitionMeaning(src: seq<byte>, pat: seq<byte>, p: nat, x: Single, s: nat, caps: seq<Cap>, d: nat)
    requires SingleOk(x) && p + |SingleText(x)| < |pat| && pat[p..p + |SingleText(x)|] == SingleText(x)
    requires IsSuffix(pat[p + |SingleText(x)|]) && s <= |src|
    ensures var q := p + |SingleText(x)|;
            TakesPreferred(src, x, pat[q], Items(pat, q + 1), s, caps, d, First(src, Items(pat, p), s, caps, d))
  {
    var q := p + |SingleText(x)|;
    var rest, c := Items(pat, q + 1), pat[q];
    DefaultParsed(pat, p, x);
    hide SingleText, SingleOk, Items, TakesPreferred;
    if c == MINUS {
      assert Items(pat, p) == [Lazy(x)] + rest && ([Lazy(x)] + rest)[1..] == rest;
      UpPreferred(src, x, rest, s, caps, d);
    } else if c == QUESTION {
      assert Items(pat, p) == [Optional(x)] + rest && ([Optional(x)] + rest)[1..] == rest;
      OncePreferred(src, x, rest, s, caps, d);
    } else if c == STAR {
      assert Items(pat, p) == [Greedy(x)] + rest && ([Greedy(x)] + rest)[1..] == rest;
      DownPreferred(src, x, c, rest, s, caps, d);
    } else {
      assert Items(pat, p) == [GreedyPlus(x)] + rest && ([GreedyPlus(x)] + rest)[1..] == rest;
      if s < |src| && In(src[s], x) {
        DownPreferred(src, x, c, rest, s, caps, d);
      } else {
        NonePreferred(src, x, rest, s, caps, d);
      }
    }
  }

  lemma {:induction false} UpPreferred(src: seq<byte>, x: Single, rest: seq<Item>, s: nat, caps: seq<Cap>, d: nat)
    requires s <= |src|
    ensures TakesPreferred(src, x, MINUS, rest, s, caps, d, TryUp(src, rest, s, x, caps, d))
  {
    var t := TryUpMeaning(src, rest, s, x, caps, d);
    forall k: nat
      ensures AllIn(src, s, k, x) <==> s + k <= RunEnd(src, s, x)
    {
      RunMeaning(src, s, k, x);
    }
    assert AllIn(src, s, t - s, x) && GoOn(src, rest, MINUS, t - s, s, caps, d) == TryUp(src, rest, s, x, caps, d);
  }

  lemma {:induction false} DownPreferred(src: seq<byte>, x: Single, c: byte, rest: seq<Item>, s: nat, caps: seq<Cap>, d: nat)
    requires s <= |src| && (c == STAR || (c == PLUS && s < |src| && In(src[s], x)))
    ensures var low := if c == STAR then s else s + 1;
            TakesPreferred(src, x, c, rest, s, caps, d, TryDown(src, rest, low, RunEnd(src, low, x), caps, d))
  {
    var low := if c == STAR then s else s + 1;
    assert RunEnd(src, s, x) == RunEnd(src, low, x);
    var t := TryDownMeaning(src, rest, low, RunEnd(src, low, x), caps, d);
    forall k: nat
      ensures AllIn(src, s, k, x) <==> s + k <= RunEnd(src, s, x)
    {
      RunMeaning(src, s, k, x);
    }
    assert AllIn(src, s, t - s, x) && TimesOk(c, t - s);
    assert GoOn(src, rest, c, t - s, s, caps, d) == TryDown(src, rest, low, RunEnd(src, low, x), caps, d);
  }

  lemma {:induction false} OncePreferred(src: seq<byte>, x: Single, rest: seq<Item>, s: nat, caps: seq<Cap>, d: nat)
    requires s <= |src|
    ensures TakesPreferred(src, x, QUESTION, rest, s, caps, d, FirstItem(src, Optional(x), rest, s, caps, d))
  {
    assert AllIn(src, s, 0, x) && (AllIn(src, s, 1, x) <==> s < |src| && In(src[s], x));
    var r := FirstItem(src, Optional(x), rest, s, caps, d);
    if AllIn(src, s, 1, x) {
      assert GoOn(src, rest, QUESTION, 1, s, caps, d) == Enter(src, rest, s + 1, caps, d);
    }
    assert GoOn(src, rest, QUESTION, 0, s, caps, d) == First(src, rest, s, caps, d);
  }

  lemma {:induction false} NonePreferred(src: seq<byte>, x: Single, rest: seq<Item>, s: nat, caps: seq<Cap>, d: nat)
    requires s <= |src| && !(s < |src| && In(src[s], x))
    ensures TakesPreferred(src, x, PLUS, rest, s, caps, d, NoMatch)
  {
    forall k: nat | k >= 1
      ensures !AllIn(src, s, k, x)
    {}
  }
}
