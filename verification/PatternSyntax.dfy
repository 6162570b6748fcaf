/** Lua patterns: the byte classes, the items a pattern text stands for, and the parser
    that the matcher performs on the fly (luajit/lib_string.c).

    A text is a `seq<byte>`; like a C string it is followed by a zero byte, so `At` answers 0
    just past the end. A zero byte inside a pattern ends it. */
module PatternSyntax {

  type byte = b: int | 0 <= b < 256

  const ESC: byte := 37
  const LPAREN: byte := 40
  const RPAREN: byte := 41
  const STAR: byte := 42
  const PLUS: byte := 43
  const MINUS: byte := 45
  const DOT: byte := 46
  const QUESTION: byte := 63
  const LBRACKET: byte := 91
  const RBRACKET: byte := 93
  const CARET: byte := 94
  const DOLLAR: byte := 36
  const LOWER_B: byte := 98
  const LOWER_F: byte := 102
  const DIGIT0: byte := 48
  const DIGIT1: byte := 49
  const DIGIT9: byte := 57

  function At(text: seq<byte>, i: nat): byte {
    if i < |text| then text[i] else 0
  }

  // ---------------------------------------------------------------- byte classes

  const CNTRL: bv8 := 0x01
  const SPACE: bv8 := 0x02
  const PUNCT: bv8 := 0x04
  const DIGIT: bv8 := 0x08
  const XDIGIT: bv8 := 0x10
  const UPPER: bv8 := 0x20
  const LOWER: bv8 := 0x40
  const ALPHA: bv8 := 0x60
  const ALNUM: bv8 := 0x68
  const GRAPH: bv8 := 0x6c

  /** The rows of the table of class bits, one per run of equal entries. */
  function CharBits(c: byte): bv8 {
    if c < 9 then 1
    else if c < 14 then 3
    else if c < 32 then 1
    else if c < 33 then 2
    else if c < 48 then 4
    else if c < 58 then 152
    else if c < 65 then 4
    else if c < 71 then 176
    else if c < 91 then 160
    else if c < 95 then 4
    else if c < 96 then 132
    else if c < 97 then 4
    else if c < 103 then 208
    else if c < 123 then 192
    else if c < 127 then 4
    else if c < 128 then 1
    else 128
  }

  predicate IsA(c: byte, mask: bv8) {
    CharBits(c) & mask != 0
  }

  /** The class bits a letter selects (0 where the letter names no class). */
  function ClassMap(letter: nat): bv8 {
    match letter
    case 1 => ALPHA
    case 3 => CNTRL
    case 4 => DIGIT
    case 7 => GRAPH
    case 12 => LOWER
    case 16 => PUNCT
    case 19 => SPACE
    case 21 => UPPER
    case 23 => ALNUM
    case 24 => XDIGIT
    case _ => 0
  }

  /** Does byte c belong to the class written `%cl`? */
  predicate MatchClass(c: byte, cl: byte) {
    if 64 <= cl < 128 then
      var mask := ClassMap(cl % 32);
      if mask != 0 then (if (cl / 32) % 2 == 1 then IsA(c, mask) else !IsA(c, mask))
      else if cl == 122 then c == 0
      else if cl == 90 then c != 0
      else cl == c
    else cl == c
  }

  /** The letters that name a class. */
  predicate ClassLetter(cl: byte) {
    97 <= cl <= 122 && (ClassMap(cl % 32) != 0 || cl == 122)
  }

  /** Section 5.4.1: for every class letter, the upper case letter is the complement. */
  lemma UpperCaseIsComplement(c: byte, cl: byte)
    requires ClassLetter(cl)
    ensures MatchClass(c, cl - 32) == !MatchClass(c, cl)
  {
    assert (cl - 32) % 32 == cl % 32;
    assert ((cl - 32) / 32) % 2 == 0;
    assert (cl / 32) % 2 == 1;
  }

  /** The classes are the ASCII ranges the manual describes. */
  lemma ClassRanges(c: byte)
    ensures MatchClass(c, 100) <==> 48 <= c <= 57                                    // %d
    ensures MatchClass(c, 108) <==> 97 <= c <= 122                                   // %l
    ensures MatchClass(c, 117) <==> 65 <= c <= 90                                    // %u
    ensures MatchClass(c, 97) <==> MatchClass(c, 108) || MatchClass(c, 117)          // %a
    ensures MatchClass(c, 119) <==> MatchClass(c, 97) || MatchClass(c, 100)          // %w
    ensures MatchClass(c, 115) <==> c == 32 || 9 <= c <= 13                          // %s
    ensures MatchClass(c, 99) <==> c < 32 || c == 127                                // %c
    ensures MatchClass(c, 112) <==> 33 <= c <= 126 && !MatchClass(c, 119)            // %p
    ensures MatchClass(c, 120) <==> MatchClass(c, 100) || 65 <= c <= 70 || 97 <= c <= 102  // %x
  {
    var bits := CharBits(c);
    assert 100 % 32 == 4 && 108 % 32 == 12 && 117 % 32 == 21 && 97 % 32 == 1 && 119 % 32 == 23;
    assert 115 % 32 == 19 && 99 % 32 == 3 && 112 % 32 == 16 && 120 % 32 == 24;
  }

  // ---------------------------------------------------------------- single-byte items

  datatype Member = MClass(cl: byte) | MRange(lo: byte, hi: byte) | MByte(b: byte)

  datatype Single =
    | AnyByte
    | Class(cl: byte)
    | SetOf(negated: bool, members: seq<Member>)
    | Literal(b: byte)

  predicate InMember(c: byte, m: Member) {
    match m
    case MClass(cl) => MatchClass(c, cl)
    case MRange(lo, hi) => lo <= c <= hi
    case MByte(b) => b == c
  }

  predicate InMembers(c: byte, ms: seq<Member>) {
    exists i :: 0 <= i < |ms| && InMember(c, ms[i])
  }

  /** The set of bytes a single-byte item stands for. */
  predicate In(c: byte, x: Single) {
    match x
    case AnyByte => true
    case Class(cl) => MatchClass(c, cl)
    case SetOf(negated, ms) => InMembers(c, ms) != negated
    case Literal(b) => b == c
  }

  // ---------------------------------------------------------------- items and errors

  datatype Error =
    | EndsWithEsc          // LJ_ERR_STRPATE
    | MissingBracket       // LJ_ERR_STRPATM
    | MissingFrontierSet   // LJ_ERR_STRPATB
    | Unbalanced           // LJ_ERR_STRPATU
    | TooManyCaptures      // LJ_ERR_STRCAPN
    | BadCapture           // LJ_ERR_STRPATC
    | BadCaptureIndex      // LJ_ERR_STRCAPI
    | UnfinishedCapture    // LJ_ERR_STRCAPU
    | TooComplex           // LJ_ERR_STRPATX
    | InvalidReplacement   // LJ_ERR_STRGSRV

  datatype Item =
    | One(x: Single)
    | Optional(x: Single)
    | Greedy(x: Single)      // x*
    | GreedyPlus(x: Single)  // x+
    | Lazy(x: Single)        // x-
    | Balance(b: byte, e: byte)
    | Frontier(x: Single)
    | Open
    | Position
    | Close
    | BackRef(digit: byte)
    | AtEnd
    | Bad(error: Error)      // the text is malformed from here on

  datatype EndOrError = End(ep: nat) | Malformed(error: Error)

  /** End of a bracketed set whose contents start (or continue) at q. */
  function BracketEnd(pat: seq<byte>, q: nat): (r: EndOrError)
    requires q <= |pat|
    ensures r.End? ==> q + 2 <= r.ep <= |pat| && pat[r.ep - 1] == RBRACKET
    decreases |pat| - q
  {
    if At(pat, q) == 0 then Malformed(MissingBracket)
    else
      var q1 := if pat[q] == ESC && At(pat, q + 1) != 0 then q + 2 else q + 1;
      if At(pat, q1) == RBRACKET then End(q1 + 1) else BracketEnd(pat, q1)
  }

  /** End of the single-byte item that starts at p. */
  function ClassEnd(pat: seq<byte>, p: nat): (r: EndOrError)
    requires p < |pat|
    ensures r.End? ==> p < r.ep <= |pat|
    ensures r.End? && pat[p] == LBRACKET ==> p + 3 <= r.ep && pat[r.ep - 1] == RBRACKET
    ensures r.End? && pat[p] == ESC ==> r.ep == p + 2
  {
    if pat[p] == ESC then
      if At(pat, p + 1) == 0 then Malformed(EndsWithEsc) else End(p + 2)
    else if pat[p] == LBRACKET then
      BracketEnd(pat, if At(pat, p + 1) == CARET then p + 2 else p + 1)
    else End(p + 1)
  }

  /** The members written in pat[q..ec]; ec is the index of the closing bracket. */
  function SetMembers(pat: seq<byte>, q: nat, ec: nat): seq<Member>
    requires ec < |pat|
    decreases ec + 3 - q
  {
    if q >= ec then []
    else if pat[q] == ESC then [MClass(pat[q + 1])] + SetMembers(pat, q + 2, ec)
    else if pat[q + 1] == MINUS && q + 2 < ec then [MRange(pat[q], pat[q + 2])] + SetMembers(pat, q + 3, ec)
    else [MByte(pat[q])] + SetMembers(pat, q + 1, ec)
  }

  /** The set written between the brackets at p and ec. */
  function SetAt(pat: seq<byte>, p: nat, ec: nat): Single
    requires p < ec < |pat|
  {
    if pat[p + 1] == CARET then SetOf(true, SetMembers(pat, p + 2, ec))
    else SetOf(false, SetMembers(pat, p + 1, ec))
  }

  /** The single-byte item written in pat[p..ep]. */
  function SingleAt(pat: seq<byte>, p: nat, ep: nat): Single
    requires p < |pat| && ClassEnd(pat, p) == End(ep)
  {
    if pat[p] == DOT then AnyByte
    else if pat[p] == ESC then Class(pat[p + 1])
    else if pat[p] == LBRACKET then SetAt(pat, p, ep - 1)
    else Literal(pat[p])
  }

  predicate IsDigit(c: byte) {
    DIGIT0 <= c <= DIGIT9
  }

  /** A single-byte item at p with its repetition suffix, followed by the rest. */
  function ItemsDefault(pat: seq<byte>, p: nat): seq<Item>
    requires p < |pat|
    decreases |pat| - p, 0
  {
    match ClassEnd(pat, p)
    case Malformed(e) => [Bad(e)]
    case End(ep) =>
      var x := SingleAt(pat, p, ep);
      var c := At(pat, ep);
      if c == QUESTION then [Optional(x)] + Items(pat, ep + 1)
      else if c == STAR then [Greedy(x)] + Items(pat, ep + 1)
      else if c == PLUS then [GreedyPlus(x)] + Items(pat, ep + 1)
      else if c == MINUS then [Lazy(x)] + Items(pat, ep + 1)
      else [One(x)] + Items(pat, ep)
  }

  /** The items that the pattern text stands for from index p on. */
  function Items(pat: seq<byte>, p: nat): seq<Item>
    requires p <= |pat|
    decreases |pat| - p, 1
  {
    var c := At(pat, p);
    if c == 0 then []
    else if c == LPAREN then
      if At(pat, p + 1) == RPAREN then [Position] + Items(pat, p + 2) else [Open] + Items(pat, p + 1)
    else if c == RPAREN then [Close] + Items(pat, p + 1)
    else if c == ESC && At(pat, p + 1) == LOWER_B then
      if At(pat, p + 2) == 0 || At(pat, p + 3) == 0 then [Bad(Unbalanced)]
      else [Balance(pat[p + 2], pat[p + 3])] + Items(pat, p + 4)
    else if c == ESC && At(pat, p + 1) == LOWER_F then
      if At(pat, p + 2) != LBRACKET then [Bad(MissingFrontierSet)]
      else (match ClassEnd(pat, p + 2)
            case Malformed(e) => [Bad(e)]
            case End(ep) => [Frontier(SetAt(pat, p + 2, ep - 1))] + Items(pat, ep))
    else if c == ESC && IsDigit(At(pat, p + 1)) then [BackRef(pat[p + 1])] + Items(pat, p + 2)
    else if c == DOLLAR && At(pat, p + 1) == 0 then [AtEnd]
    else ItemsDefault(pat, p)
  }

  // ---------------------------------------------------------------- reading the text in place

  method EndOfClass(pat: seq<byte>, start: nat) returns (r: EndOrError)
    requires start < |pat|
    ensures r == ClassEnd(pat, start)
  {
    var p := start + 1;
    if pat[start] == ESC {
      if At(pat, p) == 0 { return Malformed(EndsWithEsc); }
      return End(p + 1);
    }
    if pat[start] != LBRACKET { return End(p); }
    if At(pat, p) == CARET { p := p + 1; }
    while true
      invariant p <= |pat|
      invariant ClassEnd(pat, start) == BracketEnd(pat, p)
      decreases |pat| - p
    {
      if At(pat, p) == 0 { return Malformed(MissingBracket); }
      p := p + 1;
      if pat[p - 1] == ESC && At(pat, p) != 0 { p := p + 1; }
      if At(pat, p) == RBRACKET { return End(p + 1); }
    }
  }

  lemma InMembersCons(c: byte, m: Member, ms: seq<Member>)
    ensures InMembers(c, [m] + ms) <==> InMember(c, m) || InMembers(c, ms)
  {
    var all := [m] + ms;
    if InMember(c, m) { assert InMember(c, all[0]); }
    if InMembers(c, ms) {
      var i :| 0 <= i < |ms| && InMember(c, ms[i]);
      assert all[i + 1] == ms[i];
    }
    if InMembers(c, all) {
      var i :| 0 <= i < |all| && InMember(c, all[i]);
      if i > 0 { assert ms[i - 1] == all[i]; }
    }
  }

  /** What membership in the remaining members means at each position of the scan. */
  lemma MembersStep(c: byte, pat: seq<byte>, p: nat, ec: nat)
    requires ec < |pat|
    ensures InMembers(c, SetMembers(pat, p, ec)) <==>
            if p >= ec then false
            else if pat[p] == ESC then MatchClass(c, pat[p + 1]) || InMembers(c, SetMembers(pat, p + 2, ec))
            else if pat[p + 1] == MINUS && p + 2 < ec then
              pat[p] <= c <= pat[p + 2] || InMembers(c, SetMembers(pat, p + 3, ec))
            else pat[p] == c || InMembers(c, SetMembers(pat, p + 1, ec))
  {
    if p < ec {
      if pat[p] == ESC {
        InMembersCons(c, MClass(pat[p + 1]), SetMembers(pat, p + 2, ec));
      } else if pat[p + 1] == MINUS && p + 2 < ec {
        InMembersCons(c, MRange(pat[p], pat[p + 2]), SetMembers(pat, p + 3, ec));
      } else {
        InMembersCons(c, MByte(pat[p]), SetMembers(pat, p + 1, ec));
      }
    }
  }

  /** `matchbracketclass`: the scan over the text decides membership in the set it spells. */
  method MatchBracketClass(c: byte, pat: seq<byte>, start: nat, ec: nat) returns (r: bool)
    requires start < ec < |pat|
    ensures r == In(c, SetAt(pat, start, ec))
  {
    var p, sig := start, true;
    if pat[p + 1] == CARET {
      sig := false;
      p := p + 1;
    }
    p := p + 1;
    ghost var member := InMembers(c, SetMembers(pat, p, ec));
    assert In(c, SetAt(pat, start, ec)) == (member == sig);
    hide MatchClass, SetMembers, InMembers, In, SetAt;
    while p < ec
      invariant member == InMembers(c, SetMembers(pat, p, ec))
      decreases ec - p
    {
      MembersStep(c, pat, p, ec);
      if pat[p] == ESC {
        p := p + 1;
        if MatchClass(c, pat[p]) { return sig; }
      } else if pat[p + 1] == MINUS && p + 2 < ec {
        p := p + 2;
        if pat[p - 2] <= c && c <= pat[p] { return sig; }
      } else {
        if pat[p] == c { return sig; }
      }
      p := p + 1;
    }
    MembersStep(c, pat, p, ec);
    return !sig;
  }

  /** `singlematch`. */
  method SingleMatch(c: byte, pat: seq<byte>, p: nat, ep: nat) returns (r: bool)
    requires p < |pat| && ClassEnd(pat, p) == End(ep)
    ensures r == In(c, SingleAt(pat, p, ep))
  {
    if pat[p] == DOT { return true; }
    if pat[p] == ESC { return MatchClass(c, pat[p + 1]); }
    if pat[p] == LBRACKET {
      r := MatchBracketClass(c, pat, p, ep - 1);
      return;
    }
    return pat[p] == c;
  }
}
