/** The parser accepts every JSON text that meets its bounds, and reads what the text denotes. The
    text of a syntax tree is followed from left to right: each part is found where the part before
    it ends, and one lemma for each kind of walk says how that walk steps over it. */
module Completeness {
  import opened Utf8
  import opened Json
  import opened ParseSpec
  import opened Grammar

  /** `t` stands at position `p` of `b`. */
  predicate TextAt(b: seq<byte>, p: nat, t: seq<byte>) {
    p + |t| <= |b| && forall i | 0 <= i < |t| :: t[i] == b[p + i]
  }

  lemma InText(b: seq<byte>, p: nat, t: seq<byte>)
    requires TextAt(b, p, t)
    ensures p + |t| <= |b|
  {
  }

  lemma SplitAt(b: seq<byte>, p: nat, s: seq<byte>, t: seq<byte>)
    requires TextAt(b, p, s + t)
    ensures TextAt(b, p, s) && TextAt(b, p + |s|, t)
  {
    assert forall i | 0 <= i < |s| :: s[i] == (s + t)[i];
    assert forall i | 0 <= i < |t| :: t[i] == (s + t)[|s| + i];
  }

  lemma CharAt(b: seq<byte>, p: nat, c: byte)
    requires TextAt(b, p, [c])
    ensures Peek(b, p, c)
  {
    assert [c][0] == b[p + 0];
  }

  lemma WsEnd(b: seq<byte>, p: nat, ws: seq<byte>)
    requires TextAt(b, p, ws) && Blank(ws)
    requires p + |ws| < |b| ==> !IsWs(b[p + |ws|])
    ensures SkipWs(b, p) == p + |ws|
  {
    assert forall k | p <= k < p + |ws| :: b[k] == ws[k - p];
  }

  // ---- strings ----

  lemma HexAt(b: seq<byte>, p: nat, h: seq<byte>)
    requires TextAt(b, p, h) && IsHex4(h)
    ensures ReadHex4(b, p) == Ok(HexNumber(h), p + 4)
  {
    assert b[p..p + 4] == h;
  }

  lemma UnitAt(b: seq<byte>, p: nat, h: seq<byte>)
    requires PieceOk(Unicode(h)) && TextAt(b, p, h)
    ensures var r := ReadUnicode(b, p); r.Ok? && r.pos == p + 4 && r.value == HexNumber(h)
  {
    HexAt(b, p, h);
    Hex4Bound(h);
    hide ReadHex4, TextAt, HexNumber, AllHex;
  }

  lemma EscapeMarkAt(b: seq<byte>, p: nat)
    requires TextAt(b, p, [BACKSLASH, LOWER_U])
    ensures Peek(b, p, BACKSLASH) && Peek(b, p + 1, LOWER_U)
  {
    assert [BACKSLASH, LOWER_U][0] == b[p + 0] && [BACKSLASH, LOWER_U][1] == b[p + 1];
  }

  /** The scalar a surrogate pair stands for. */
  function PairScalar(hi: nat, lo: nat): (c: nat)
    requires 0xD800 <= hi < 0xDC00 && 0xDC00 <= lo < 0xE000
    ensures 0x1_0000 <= c < 0x11_0000
  {
    0x1_0000 + (hi - 0xD800) * 1024 + (lo - 0xDC00)
  }

  lemma PairTextAt(b: seq<byte>, p: nat, hi: seq<byte>, lo: seq<byte>)
    requires |hi| == 4 && TextAt(b, p, hi + ([BACKSLASH, LOWER_U] + lo))
    ensures TextAt(b, p, hi) && TextAt(b, p + 4, [BACKSLASH, LOWER_U]) && TextAt(b, p + 6, lo)
  {
    hide *;
    SplitAt(b, p, hi, [BACKSLASH, LOWER_U] + lo);
    SplitAt(b, p + 4, [BACKSLASH, LOWER_U], lo);
  }

  lemma PairRead(b: seq<byte>, p: nat, hi: nat, lo: nat)
    requires p + 6 <= |b| && 0xD800 <= hi < 0xDC00 && 0xDC00 <= lo < 0xE000
    requires ReadHex4(b, p) == Ok(hi, p + 4) && Peek(b, p + 4, BACKSLASH) && Peek(b, p + 5, LOWER_U)
    requires ReadHex4(b, p + 6) == Ok(lo, p + 10)
    ensures ReadUnicode(b, p) == Ok(PairScalar(hi, lo), p + 10)
  {
    hide ReadHex4, Peek;
  }

  lemma PairAt(b: seq<byte>, p: nat, hi: seq<byte>, lo: seq<byte>)
    requires PieceOk(Pair(hi, lo)) && TextAt(b, p, hi + ([BACKSLASH, LOWER_U] + lo))
    ensures var r := ReadUnicode(b, p); r.Ok? && r.pos == p + 10 && r.value == PairScalar(HexNumber(hi), HexNumber(lo))
  {
    assert IsHex4(hi) && AllHex(hi) && 0xD800 <= HexNumber(hi) < 0xDC00;
    assert IsHex4(lo) && AllHex(lo) && 0xDC00 <= HexNumber(lo) < 0xE000;
    hide *;
    PairTextAt(b, p, hi, lo);
    HexAt(b, p, hi);
    HexAt(b, p + 6, lo);
    EscapeMarkAt(b, p + 4);
    InText(b, p + 6, lo);
    PairRead(b, p, HexNumber(hi), HexNumber(lo));
  }

  lemma UnicodeAt(b: seq<byte>, p: nat, t: Piece)
    requires PieceOk(t) && (t.Unicode? || t.Pair?)
    requires TextAt(b, p, UnicodeTail(t))
    ensures ReadUnicode(b, p).Ok?
    ensures ReadUnicode(b, p).pos == p + |UnicodeTail(t)|
    ensures EncodeScalar(ReadUnicode(b, p).value) == PieceBytes(t)
  {
    hide ReadUnicode, TextAt, HexNumber, AllHex, EncodeScalar;
    if t.Unicode? {
      UnitAt(b, p, t.h);
      Hex4Bound(t.h);
    } else {
      PairAt(b, p, t.hi, t.lo);
    }
  }

  lemma RawStep(b: seq<byte>, p: nat, buf: seq<byte>)
    requires p < |b| && b[p] != QUOTE && b[p] != BACKSLASH && b[p] >= 0x20
    ensures ScanString(b, p, buf) == ScanString(b, p + 1, buf + [b[p]])
  {
  }

  lemma EscapeStep(b: seq<byte>, p: nat, buf: seq<byte>)
    requires p + 1 < |b| && b[p] == BACKSLASH && IsEscape(b[p + 1])
    ensures ScanString(b, p, buf) == ScanString(b, p + 2, buf + [EscapeValue(b[p + 1])])
  {
    hide EscapeValue, ReadUnicode, EncodeScalar;
  }

  lemma UnicodeStep(b: seq<byte>, p: nat, buf: seq<byte>)
    requires p + 1 < |b| && b[p] == BACKSLASH && b[p + 1] == LOWER_U && ReadUnicode(b, p + 2).Ok?
    ensures ScanString(b, p, buf)
      == ScanString(b, ReadUnicode(b, p + 2).pos, buf + EncodeScalar(ReadUnicode(b, p + 2).value))
  {
    hide ReadUnicode, EncodeScalar;
  }

  lemma RawAt(b: seq<byte>, p: nat, t: Piece)
    requires PieceOk(t) && t.Raw? && TextAt(b, p, PieceText(t))
    ensures p < |b| && b[p] != QUOTE && b[p] != BACKSLASH && b[p] >= 0x20
    ensures |PieceText(t)| == 1 && PieceBytes(t) == [b[p]]
  {
    assert PieceText(t)[0] == b[p];
  }

  lemma EscapeAt(b: seq<byte>, p: nat, t: Piece)
    requires PieceOk(t) && t.Escape? && TextAt(b, p, PieceText(t))
    ensures p + 1 < |b| && b[p] == BACKSLASH && IsEscape(b[p + 1])
    ensures |PieceText(t)| == 2 && PieceBytes(t) == [EscapeValue(b[p + 1])]
  {
    hide EscapeValue;
    assert PieceText(t)[0] == b[p] && PieceText(t)[1] == b[p + 1];
  }

  lemma BackslashU(b: seq<byte>, p: nat, t: Piece)
    requires (t.Unicode? || t.Pair?) && TextAt(b, p, PieceText(t))
    ensures p + 1 < |b| && b[p] == BACKSLASH && b[p + 1] == LOWER_U
    ensures |PieceText(t)| == 2 + |UnicodeTail(t)| && TextAt(b, p + 2, UnicodeTail(t))
  {
    hide UnicodeTail;
    assert PieceText(t)[0] == b[p] && PieceText(t)[1] == b[p + 1];
    SplitAt(b, p, [BACKSLASH, LOWER_U], UnicodeTail(t));
  }

  lemma PieceAt(b: seq<byte>, p: nat, t: Piece, buf: seq<byte>)
    requires PieceOk(t) && TextAt(b, p, PieceText(t))
    ensures p + |PieceText(t)| <= |b|
    ensures ScanString(b, p, buf) == ScanString(b, p + |PieceText(t)|, buf + PieceBytes(t))
  {
    hide *;
    InText(b, p, PieceText(t));
    if t.Raw? {
      RawAt(b, p, t);
      RawStep(b, p, buf);
    } else if t.Escape? {
      EscapeAt(b, p, t);
      EscapeStep(b, p, buf);
    } else {
      BackslashU(b, p, t);
      UnicodeAt(b, p + 2, t);
      UnicodeStep(b, p, buf);
    }
  }

  lemma {:induction false} ScanAt(b: seq<byte>, p: nat, ps: seq<Piece>, buf: seq<byte>)
    requires PiecesOk(ps) && TextAt(b, p, StringText(ps) + [QUOTE])
    requires ValidUtf8(buf + StringBytes(ps))
    ensures ScanString(b, p, buf) == Ok(buf + StringBytes(ps), p + |StringText(ps)| + 1)
    decreases |ps|
  {
    hide ScanString, ValidUtf8, PieceText, PieceBytes, TextAt;
    if ps == [] {
      assert StringText(ps) + [QUOTE] == [QUOTE];
      assert buf + [] == buf;
      ScanEnd(b, p, buf);
    } else {
      var t := PieceText(ps[0]);
      assert StringText(ps) + [QUOTE] == t + (StringText(ps[1..]) + [QUOTE]);
      SplitAt(b, p, t, StringText(ps[1..]) + [QUOTE]);
      PieceAt(b, p, ps[0], buf);
      assert buf + StringBytes(ps) == buf + PieceBytes(ps[0]) + StringBytes(ps[1..]);
      ScanAt(b, p + |t|, ps[1..], buf + PieceBytes(ps[0]));
    }
  }

  lemma ScanEnd(b: seq<byte>, p: nat, buf: seq<byte>)
    requires TextAt(b, p, [QUOTE]) && ValidUtf8(buf)
    ensures ScanString(b, p, buf) == Ok(buf, p + 1)
  {
    CharAt(b, p, QUOTE);
  }

  lemma QuotedAt(b: seq<byte>, p: nat, ps: seq<Piece>)
    requires StringOk(ps) && TextAt(b, p, Quoted(ps))
    ensures Peek(b, p, QUOTE)
    ensures ScanString(b, p + 1, []) == Ok(StringBytes(ps), p + |Quoted(ps)|)
  {
    assert Quoted(ps) == [QUOTE] + (StringText(ps) + [QUOTE]);
    SplitAt(b, p, [QUOTE], StringText(ps) + [QUOTE]);
    CharAt(b, p, QUOTE);
    assert [] + StringBytes(ps) == StringBytes(ps);
    ScanAt(b, p + 1, ps, []);
  }

  // ---- numbers ----

  /** No byte that could prolong a number stands at `q`. */
  predicate NumberEnds(b: seq<byte>, q: nat) {
    q >= |b| || !(IsDigit(b[q]) || b[q] == DOT || b[q] == LOWER_E || b[q] == UPPER_E)
  }

  lemma DigitsAt(b: seq<byte>, p: nat, s: seq<byte>)
    requires IsDigits(s) && TextAt(b, p, s)
    requires p + |s| < |b| ==> !IsDigit(b[p + |s|])
    ensures Digits1(b, p) == Ok((), p + |s|)
  {
    assert forall k | p <= k < p + |s| :: b[k] == s[k - p];
  }

  lemma ExponentAt(b: seq<byte>, p: nat, n: NumberText)
    requires NumberOk(n) && TextAt(b, p, ExponentText(n.exp))
    requires NumberEnds(b, p + |ExponentText(n.exp)|)
    ensures ExpPart(b, p) == Ok((), p + |ExponentText(n.exp)|)
  {
    if n.exp.Exponent? {
      var e := n.exp;
      ExponentParts(b, p, e);
      CharAt(b, p, e.e);
      if e.sign != [] {
        CharAt(b, p + 1, e.sign[0]);
      } else {
        FirstAt(b, p + 1, e.digits);
      }
      DigitsAt(b, p + 1 + |e.sign|, e.digits);
      hide TextAt, Digits1, IsDigits, NumberEnds;
    }
  }

  lemma ExponentParts(b: seq<byte>, p: nat, e: Exponent)
    requires e.Exponent? && TextAt(b, p, ExponentText(e))
    ensures TextAt(b, p, [e.e]) && TextAt(b, p + 1, e.sign) && TextAt(b, p + 1 + |e.sign|, e.digits)
    ensures |ExponentText(e)| == 1 + |e.sign| + |e.digits|
  {
    hide TextAt;
    assert ExponentText(e) == [e.e] + (e.sign + e.digits);
    SplitAt(b, p, [e.e], e.sign + e.digits);
    SplitAt(b, p + 1, e.sign, e.digits);
  }

  lemma FractionAt(b: seq<byte>, p: nat, n: NumberText)
    requires NumberOk(n) && TextAt(b, p, FractionText(n.frac))
    requires var q := p + |FractionText(n.frac)|; q < |b| ==> !IsDigit(b[q]) && b[q] != DOT
    ensures FracPart(b, p) == Ok((), p + |FractionText(n.frac)|)
  {
    if n.frac.Fraction? {
      SplitAt(b, p, [DOT], n.frac.digits);
      CharAt(b, p, DOT);
      DigitsAt(b, p + 1, n.frac.digits);
    }
  }

  lemma WholeAt(b: seq<byte>, p: nat, n: NumberText)
    requires NumberOk(n) && TextAt(b, p, n.whole)
    requires p + |n.whole| < |b| ==> !IsDigit(b[p + |n.whole|])
    ensures IsDigit(b[p])
    ensures WholePart(b, p) == Ok((), p + |n.whole|)
  {
    assert n.whole[0] == b[p];
    if n.whole != [ZERO] {
      DigitsAt(b, p, n.whole);
    }
  }

  lemma NumberParts(b: seq<byte>, p: nat, n: NumberText)
    requires TextAt(b, p, NumText(n))
    ensures TextAt(b, p, MinusText(n.minus))
    ensures var q := p + |MinusText(n.minus)|; TextAt(b, q, n.whole)
    ensures var q := p + |MinusText(n.minus)| + |n.whole|; TextAt(b, q, FractionText(n.frac))
    ensures var q := p + |MinusText(n.minus)| + |n.whole| + |FractionText(n.frac)|; TextAt(b, q, ExponentText(n.exp))
    ensures p + |MinusText(n.minus)| + |n.whole| + |FractionText(n.frac)| + |ExponentText(n.exp)| == p + |NumText(n)|
  {
    var m, w, f, e := MinusText(n.minus), n.whole, FractionText(n.frac), ExponentText(n.exp);
    assert NumText(n) == m + (w + (f + e));
    SplitAt(b, p, m, w + (f + e));
    SplitAt(b, p + |m|, w, f + e);
    SplitAt(b, p + |m| + |w|, f, e);
  }

  lemma FirstAt(b: seq<byte>, p: nat, t: seq<byte>)
    requires TextAt(b, p, t) && t != []
    ensures Peek(b, p, t[0])
  {
  }

  lemma NumberTail(b: seq<byte>, q1: nat, n: NumberText)
    requires NumberOk(n)
    requires TextAt(b, q1, FractionText(n.frac))
    requires var q2 := q1 + |FractionText(n.frac)|;
      TextAt(b, q2, ExponentText(n.exp)) && NumberEnds(b, q2 + |ExponentText(n.exp)|)
    ensures q1 < |b| ==> !IsDigit(b[q1])
    ensures FracPart(b, q1) == Ok((), q1 + |FractionText(n.frac)|)
    ensures var q2 := q1 + |FractionText(n.frac)|; ExpPart(b, q2) == Ok((), q2 + |ExponentText(n.exp)|)
  {
    var q2 := q1 + |FractionText(n.frac)|;
    if n.exp.Exponent? {
      FirstAt(b, q2, ExponentText(n.exp));
    }
    if n.frac.Fraction? {
      FirstAt(b, q1, FractionText(n.frac));
    }
    FractionAt(b, q1, n);
    ExponentAt(b, q2, n);
  }

  lemma NumberFrom(b: seq<byte>, p: nat, q1: nat, q2: nat, q3: nat)
    requires p <= |b|
    requires WholePart(b, if Peek(b, p, MINUS) then p + 1 else p) == Ok((), q1)
    requires FracPart(b, q1) == Ok((), q2) && ExpPart(b, q2) == Ok((), q3)
    ensures ParseNumber(b, p) == Ok(Number(b[p..q3]), q3)
  {
  }

  lemma SignAt(b: seq<byte>, p: nat, n: NumberText)
    requires NumberOk(n) && TextAt(b, p, MinusText(n.minus))
    requires var q := p + |MinusText(n.minus)|; q < |b| && IsDigit(b[q])
    ensures p + |MinusText(n.minus)| == if Peek(b, p, MINUS) then p + 1 else p
    ensures b[p] == MINUS || IsDigit(b[p])
  {
    if n.minus {
      FirstAt(b, p, MinusText(true));
    }
  }

  lemma SliceAt(b: seq<byte>, p: nat, t: seq<byte>)
    requires TextAt(b, p, t)
    ensures p + |t| <= |b| && b[p..p + |t|] == t
  {
  }

  lemma NumberAt(b: seq<byte>, p: nat, n: NumberText)
    requires NumberOk(n) && TextAt(b, p, NumText(n))
    requires NumberEnds(b, p + |NumText(n)|)
    ensures p < |b| && (b[p] == MINUS || IsDigit(b[p]))
    ensures ParseNumber(b, p) == Ok(Number(NumText(n)), p + |NumText(n)|)
  {
    hide *;
    NumberParts(b, p, n);
    var p' := p + |MinusText(n.minus)|;
    var q1 := p' + |n.whole|;
    var q2 := q1 + |FractionText(n.frac)|;
    var q3 := q2 + |ExponentText(n.exp)|;
    NumberTail(b, q1, n);
    InText(b, p, NumText(n));
    InText(b, p', n.whole);
    WholeAt(b, p', n);
    SignAt(b, p, n);
    NumberFrom(b, p, q1, q2, q3);
    SliceAt(b, p, NumText(n));
  }

  // ---- values ----

  /** Blanks and then the byte `c`: what stands there, and that it ends a number. */
  lemma BlankThen(b: seq<byte>, p: nat, ws: seq<byte>, c: byte, rest: seq<byte>)
    requires TextAt(b, p, ws + ([c] + rest)) && Blank(ws) && !IsWs(c)
    ensures SkipWs(b, p) == p + |ws|
    ensures Peek(b, p + |ws|, c)
    ensures TextAt(b, p + |ws| + 1, rest)
    ensures c == COMMA || c == RBRACE || c == RBRACKET ==> NumberEnds(b, p)
  {
    SplitAt(b, p, ws, [c] + rest);
    SplitAt(b, p + |ws|, [c], rest);
    CharAt(b, p + |ws|, c);
    WsEnd(b, p, ws);
    if ws != [] {
      FirstAt(b, p, ws);
    }
  }

  lemma SeparatorAt(b: seq<byte>, p: nat, ws: seq<byte>, c: byte, close: byte)
    requires p <= |b| && SkipWs(b, p) == p + |ws| && Peek(b, p + |ws|, c) && (c == COMMA || c == close)
    requires close != COMMA
    ensures Separator(b, p, close) == Ok(c == COMMA, p + |ws| + 1)
  {
  }

  /** The text of a value without its leading whitespace. */
  function Bare(v: Value): seq<byte> {
    ValueText(v)[|v.ws|..]
  }

  lemma ValueStart(b: seq<byte>, p: nat, v: Value)
    requires ValueOk(v) && TextAt(b, p, ValueText(v))
    ensures Bare(v) != [] && !IsWs(Bare(v)[0])
    ensures SkipWs(b, p) == p + |v.ws| < |b|
    ensures TextAt(b, p + |v.ws|, Bare(v)) && b[p + |v.ws|] == Bare(v)[0]
    ensures |ValueText(v)| == |v.ws| + |Bare(v)|
  {
    BareStart(v);
    assert ValueText(v) == v.ws + Bare(v);
    SplitAt(b, p, v.ws, Bare(v));
    FirstAt(b, p + |v.ws|, Bare(v));
    WsEnd(b, p, v.ws);
  }

  lemma BareStart(v: Value)
    requires ValueOk(v)
    ensures Bare(v) != [] && !IsWs(Bare(v)[0])
  {
    if v.core.Num? {
      var n := v.core.n;
      assert n.whole[0] == ZERO || IsDigit(n.whole[0]);
      assert Bare(v) == NumText(n);
    }
  }

  lemma LiteralAt(b: seq<byte>, p: nat, v: Value, d: nat, lim: Limits)
    requires ValueOk(v) && TextAt(b, p, ValueText(v))
    requires v.core.NullLit? || v.core.TrueLit? || v.core.FalseLit?
    ensures ParseValue(b, p, d, lim) == Ok(Denote(v, lim), p + |ValueText(v)|)
    ensures SkipValue(b, p, d, lim) == Ok((), p + |ValueText(v)|)
  {
    hide ParseObject, ParseArray, SkipObject, SkipArray, ParseString, ParseNumber, SkipWs;
    ValueStart(b, p, v);
    assert Bare(v) == if v.core.NullLit? then NULL_TEXT else if v.core.TrueLit? then TRUE_TEXT else FALSE_TEXT;
  }

  lemma NumAt(b: seq<byte>, p: nat, v: Value, d: nat, lim: Limits)
    requires ValueOk(v) && TextAt(b, p, ValueText(v)) && v.core.Num?
    requires NumberEnds(b, p + |ValueText(v)|)
    ensures ParseValue(b, p, d, lim) == Ok(Denote(v, lim), p + |ValueText(v)|)
    ensures SkipValue(b, p, d, lim) == Ok((), p + |ValueText(v)|)
  {
    hide ParseObject, SkipObject, ParseArray, SkipArray, ParseNumber, NumText;
    ValueStart(b, p, v);
    assert Bare(v) == NumText(v.core.n);
    NumberAt(b, p + |v.ws|, v.core.n);
  }

  lemma StrAt(b: seq<byte>, p: nat, v: Value, d: nat, lim: Limits)
    requires ValueOk(v) && TextAt(b, p, ValueText(v)) && v.core.Str?
    requires |StringBytes(v.core.pieces)| <= lim.maxStringLen
    ensures ParseValue(b, p, d, lim) == Ok(Denote(v, lim), p + |ValueText(v)|)
    ensures SkipValue(b, p, d, lim) == Ok((), p + |ValueText(v)|)
  {
    hide ParseObject, SkipObject, ParseArray, SkipArray, ScanString, Quoted;
    ValueStart(b, p, v);
    assert Bare(v) == Quoted(v.core.pieces);
    QuotedAt(b, p + |v.ws|, v.core.pieces);
  }

  lemma EmptyBare(v: Value)
    requires v.core.EmptyArr? || v.core.EmptyObj?
    ensures var open, close := if v.core.EmptyArr? then LBRACKET else LBRACE,
      if v.core.EmptyArr? then RBRACKET else RBRACE;
      Bare(v) == [open] + (v.core.ws + ([close] + [])) && |ValueText(v)| == |v.ws| + |v.core.ws| + 2
  {
    hide ElementsText, MembersText, NumText, Quoted;
  }

  lemma EmptyDispatch(b: seq<byte>, p: nat, d: nat, lim: Limits)
    requires p <= |b| && d < lim.maxDepth
    requires var q := SkipWs(b, p);
      (Peek(b, q, LBRACKET) && Peek(b, SkipWs(b, q + 1), RBRACKET))
        || (Peek(b, q, LBRACE) && Peek(b, SkipWs(b, q + 1), RBRACE))
    ensures var q := SkipWs(b, p); var r := SkipWs(b, q + 1);
      ParseValue(b, p, d, lim) == Ok(if b[q] == LBRACE then Object([]) else Array([], false), r + 1)
      && SkipValue(b, p, d, lim) == Ok((), r + 1)
  {
    hide ParseMembers, SkipMembers, ParseElements, SkipElements, ParseString, ParseNumber, SkipLiteral, SkipWs;
  }

  lemma EmptyAt(b: seq<byte>, p: nat, v: Value, d: nat, lim: Limits)
    requires ValueOk(v) && TextAt(b, p, ValueText(v)) && (v.core.EmptyArr? || v.core.EmptyObj?)
    requires d < lim.maxDepth
    ensures ParseValue(b, p, d, lim) == Ok(Denote(v, lim), p + |ValueText(v)|)
    ensures SkipValue(b, p, d, lim) == Ok((), p + |ValueText(v)|)
  {
    hide ParseValue, SkipValue, ValueText, TextAt, SkipWs, Bare;
    ValueStart(b, p, v);
    EmptyBare(v);
    var q, ws := p + |v.ws|, v.core.ws;
    var open, close := if v.core.EmptyArr? then LBRACKET else LBRACE, if v.core.EmptyArr? then RBRACKET else RBRACE;
    SplitAt(b, q, [open], ws + ([close] + []));
    CharAt(b, q, open);
    BlankThen(b, q + 1, ws, close, []);
    EmptyDispatch(b, p, d, lim);
  }

  lemma ElementsEndIs(es: Elements)
    ensures var c, rest := if es.LastElement? then RBRACKET else COMMA,
      if es.LastElement? then [] else ElementsText(es.rest);
      ElementsText(es) == ValueText(es.v) + (es.ws + ([c] + rest))
      && |ElementsText(es)| == |ValueText(es.v)| + |es.ws| + 1 + |rest|
  {
    hide ValueText;
    if es.LastElement? {
      assert [RBRACKET] + [] == [RBRACKET];
    }
  }

  /** Where the parts of an element list stand. */
  lemma ElementsAtParts(b: seq<byte>, p: nat, es: Elements)
    requires ElementsOk(es) && TextAt(b, p, ElementsText(es))
    ensures TextAt(b, p, ValueText(es.v))
    ensures NumberEnds(b, p + |ValueText(es.v)|)
    ensures Separator(b, p + |ValueText(es.v)|, RBRACKET) == Ok(es.MoreElements?, p + |ValueText(es.v)| + |es.ws| + 1)
    ensures es.LastElement? ==> |ElementsText(es)| == |ValueText(es.v)| + |es.ws| + 1
    ensures es.MoreElements? ==>
              var q := p + |ValueText(es.v)| + |es.ws| + 1;
              TextAt(b, q, ElementsText(es.rest)) && p + |ElementsText(es)| == q + |ElementsText(es.rest)|
  {
    hide ValueText, ElementsText, TextAt, Separator, NumberEnds, Blank;
    var t := ValueText(es.v);
    var c, rest := if es.LastElement? then RBRACKET else COMMA, if es.LastElement? then [] else ElementsText(es.rest);
    ElementsEndIs(es);
    SplitAt(b, p, t, es.ws + ([c] + rest));
    BlankThen(b, p + |t|, es.ws, c, rest);
    SeparatorAt(b, p + |t|, es.ws, c, RBRACKET);
  }

  lemma ElementsStart(b: seq<byte>, p: nat, es: Elements)
    requires ElementsOk(es) && TextAt(b, p, [LBRACKET] + ElementsText(es))
    ensures TextAt(b, p + 1, ElementsText(es))
    ensures var q := SkipWs(b, p + 1);
      q < |b| && b[q] != RBRACKET && SkipWs(b, q) == q && q == p + 1 + |es.v.ws|
  {
    hide ElementsText, TextAt, ValueText, NumberEnds, Separator, Bare, Blank;
    SplitAt(b, p, [LBRACKET], ElementsText(es));
    ElementsAtParts(b, p + 1, es);
    ValueStart(b, p + 1, es.v);
    BareNotClose(es.v);
  }

  lemma BareNotClose(v: Value)
    requires ValueOk(v) && Bare(v) != []
    ensures Bare(v)[0] != RBRACKET
  {
    if v.core.Num? {
      assert Bare(v) == NumText(v.core.n);
      assert v.core.n.whole[0] == ZERO || IsDigit(v.core.n.whole[0]);
    }
  }

  /** Leading whitespace may be skipped before the loops start. */
  lemma LoopStart(b: seq<byte>, p: nat, d: nat, lim: Limits)
    requires p <= |b|
    ensures ParseElements(b, SkipWs(b, p), d, lim, [], false) == ParseElements(b, p, d, lim, [], false)
    ensures SkipElements(b, SkipWs(b, p), d, lim) == SkipElements(b, p, d, lim)
    ensures ParseMembers(b, SkipWs(b, p), d, lim, []) == ParseMembers(b, p, d, lim, [])
    ensures SkipMembers(b, SkipWs(b, p), d, lim) == SkipMembers(b, p, d, lim)
  {
    hide Separator, ExpectColon;
    var q := SkipWs(b, p);
    ValueStartSkip(b, p, d, lim);
    assert ParseMemberKey(b, q, lim) == ParseMemberKey(b, p, lim) by { assert SkipWs(b, q) == q; }
  }

  lemma ArrayDispatch(b: seq<byte>, p: nat, d: nat, lim: Limits)
    requires p <= |b| && Peek(b, SkipWs(b, p), LBRACKET) && d < lim.maxDepth
    requires !Peek(b, SkipWs(b, SkipWs(b, p) + 1), RBRACKET)
    ensures ParseValue(b, p, d, lim) == ParseElements(b, SkipWs(b, p) + 1, d + 1, lim, [], false)
    ensures SkipValue(b, p, d, lim) == SkipElements(b, SkipWs(b, p) + 1, d + 1, lim)
  {
    hide ParseElements, SkipElements, ParseObject, SkipObject, ParseString, ParseNumber, SkipLiteral, ParseMembers,
      SkipMembers;
    LoopStart(b, SkipWs(b, p) + 1, d + 1, lim);
  }

  lemma ObjectDispatch(b: seq<byte>, p: nat, d: nat, lim: Limits)
    requires p <= |b| && Peek(b, SkipWs(b, p), LBRACE) && d < lim.maxDepth
    requires !Peek(b, SkipWs(b, SkipWs(b, p) + 1), RBRACE)
    ensures ParseValue(b, p, d, lim) == ParseMembers(b, SkipWs(b, p) + 1, d + 1, lim, [])
    ensures SkipValue(b, p, d, lim) == SkipMembers(b, SkipWs(b, p) + 1, d + 1, lim)
  {
    hide ParseElements, SkipElements, ParseArray, SkipArray, ParseString, ParseNumber, SkipLiteral, ParseMembers,
      SkipMembers;
    LoopStart(b, SkipWs(b, p) + 1, d + 1, lim);
  }

  lemma ArrayAt(b: seq<byte>, p: nat, v: Value, d: nat, lim: Limits)
    requires ValueOk(v) && TextAt(b, p, ValueText(v)) && v.core.Arr? && d < lim.maxDepth
    ensures var q := p + |v.ws| + 1; TextAt(b, q, ElementsText(v.core.elements))
    ensures p + |ValueText(v)| == p + |v.ws| + 1 + |ElementsText(v.core.elements)|
    ensures ParseValue(b, p, d, lim) == ParseElements(b, p + |v.ws| + 1, d + 1, lim, [], false)
    ensures SkipValue(b, p, d, lim) == SkipElements(b, p + |v.ws| + 1, d + 1, lim)
  {
    hide ParseValue, SkipValue, ParseElements, SkipElements, ElementsText, SkipWs, TextAt;
    ValueStart(b, p, v);
    assert Bare(v) == [LBRACKET] + ElementsText(v.core.elements);
    ElementsStart(b, p + |v.ws|, v.core.elements);
    ArrayDispatch(b, p, d, lim);
  }

  lemma ObjectAt(b: seq<byte>, p: nat, v: Value, d: nat, lim: Limits)
    requires ValueOk(v) && TextAt(b, p, ValueText(v)) && v.core.Obj? && d < lim.maxDepth
    ensures var q := p + |v.ws| + 1; TextAt(b, q, MembersText(v.core.members))
    ensures p + |ValueText(v)| == p + |v.ws| + 1 + |MembersText(v.core.members)|
    ensures ParseValue(b, p, d, lim) == ParseMembers(b, p + |v.ws| + 1, d + 1, lim, [])
    ensures SkipValue(b, p, d, lim) == SkipMembers(b, p + |v.ws| + 1, d + 1, lim)
  {
    hide ParseValue, SkipValue, ParseMembers, SkipMembers, MembersText, SkipWs, TextAt;
    ValueStart(b, p, v);
    var q := p + |v.ws|;
    assert Bare(v) == [LBRACE] + MembersText(v.core.members);
    SplitAt(b, q, [LBRACE], MembersText(v.core.members));
    MemberStart(b, q + 1, v.core.members);
    ObjectDispatch(b, p, d, lim);
  }

  lemma MemberStart(b: seq<byte>, p: nat, ms: Members)
    requires MembersOk(ms) && TextAt(b, p, MembersText(ms))
    ensures SkipWs(b, p) == p + |ms.m.ws| && Peek(b, p + |ms.m.ws|, QUOTE)
    ensures TextAt(b, p + |ms.m.ws|, AfterBlank(ms))
    ensures |MembersText(ms)| == |ms.m.ws| + |AfterBlank(ms)|
  {
    hide StringText;
    assert MembersText(ms) == ms.m.ws + AfterBlank(ms);
    SplitAt(b, p, ms.m.ws, AfterBlank(ms));
    FirstAt(b, p + |ms.m.ws|, AfterBlank(ms));
    WsEnd(b, p, ms.m.ws);
  }

  function MembersEnd(ms: Members): seq<byte> {
    if ms.LastMember? then [RBRACE] else [COMMA] + MembersText(ms.rest)
  }

  function AfterColon(ms: Members): seq<byte> {
    ValueText(ms.m.v) + (ms.m.endWs + MembersEnd(ms))
  }

  function AfterBlank(ms: Members): seq<byte> {
    Quoted(ms.m.key) + (ms.m.colonWs + ([COLON] + AfterColon(ms)))
  }

  lemma KeyStep(b: seq<byte>, p: nat, lim: Limits, k: seq<byte>, e: nat)
    requires p <= |b| && Peek(b, SkipWs(b, p), QUOTE) && ScanString(b, SkipWs(b, p) + 1, []) == Ok(k, e)
    requires |k| <= lim.maxKeyLen
    ensures ParseMemberKey(b, p, lim) == Ok(k, e)
  {
    hide ScanString, SkipWs;
  }

  lemma AfterBlankIs(ms: Members)
    ensures AfterBlank(ms) == Quoted(ms.m.key) + (ms.m.colonWs + ([COLON] + AfterColon(ms)))
    ensures |AfterBlank(ms)| == |Quoted(ms.m.key)| + |ms.m.colonWs| + 1 + |AfterColon(ms)|
    ensures MembersOk(ms) ==> StringOk(ms.m.key) && PiecesOk(ms.m.key)
  {
    hide Quoted, AfterColon;
  }

  /** Where the parts of a member list stand. */
  lemma KeyAt(b: seq<byte>, p: nat, ms: Members, lim: Limits)
    requires MembersOk(ms) && TextAt(b, p, MembersText(ms))
    requires |StringBytes(ms.m.key)| <= lim.maxKeyLen
    ensures ParseMemberKey(b, p, lim) == Ok(StringBytes(ms.m.key), p + |ms.m.ws| + |Quoted(ms.m.key)|)
    ensures TextAt(b, p + |ms.m.ws| + |Quoted(ms.m.key)|, ms.m.colonWs + ([COLON] + AfterColon(ms)))
    ensures |MembersText(ms)| == |ms.m.ws| + |Quoted(ms.m.key)| + |ms.m.colonWs| + 1 + |AfterColon(ms)|
  {
    hide *;
    MemberStart(b, p, ms);
    AfterBlankIs(ms);
    InText(b, p, MembersText(ms));
    var q := p + |ms.m.ws|;
    SplitAt(b, q, Quoted(ms.m.key), ms.m.colonWs + ([COLON] + AfterColon(ms)));
    QuotedAt(b, q, ms.m.key);
    KeyStep(b, p, lim, StringBytes(ms.m.key), q + |Quoted(ms.m.key)|);
  }

  lemma ColonAt(b: seq<byte>, p: nat, ms: Members)
    requires MembersOk(ms) && TextAt(b, p, ms.m.colonWs + ([COLON] + AfterColon(ms)))
    ensures ExpectColon(b, p) == Ok((), p + |ms.m.colonWs| + 1)
    ensures TextAt(b, p + |ms.m.colonWs| + 1, AfterColon(ms))
  {
    hide AfterColon;
    BlankThen(b, p, ms.m.colonWs, COLON, AfterColon(ms));
  }

  lemma EndIs(ms: Members)
    ensures var c, rest := if ms.LastMember? then RBRACE else COMMA,
      if ms.LastMember? then [] else MembersText(ms.rest);
      AfterColon(ms) == ValueText(ms.m.v) + (ms.m.endWs + ([c] + rest))
      && |AfterColon(ms)| == |ValueText(ms.m.v)| + |ms.m.endWs| + 1 + |rest|
  {
    hide ValueText, MembersText;
    if ms.LastMember? {
      assert [RBRACE] + [] == [RBRACE];
    }
  }

  lemma MemberEndAt(b: seq<byte>, p: nat, ms: Members)
    requires MembersOk(ms) && TextAt(b, p, AfterColon(ms))
    ensures TextAt(b, p, ValueText(ms.m.v))
    ensures NumberEnds(b, p + |ValueText(ms.m.v)|)
    ensures Separator(b, p + |ValueText(ms.m.v)|, RBRACE)
      == Ok(ms.MoreMembers?, p + |ValueText(ms.m.v)| + |ms.m.endWs| + 1)
    ensures ms.LastMember? ==> |AfterColon(ms)| == |ValueText(ms.m.v)| + |ms.m.endWs| + 1
    ensures ms.MoreMembers? ==>
              var q := p + |ValueText(ms.m.v)| + |ms.m.endWs| + 1;
              TextAt(b, q, MembersText(ms.rest)) && p + |AfterColon(ms)| == q + |MembersText(ms.rest)|
  {
    hide ValueText, MembersText, TextAt, Separator, NumberEnds, Blank, AfterColon, MembersEnd;
    var t := ValueText(ms.m.v);
    var c, rest := if ms.LastMember? then RBRACE else COMMA, if ms.LastMember? then [] else MembersText(ms.rest);
    EndIs(ms);
    SplitAt(b, p, t, ms.m.endWs + ([c] + rest));
    BlankThen(b, p + |t|, ms.m.endWs, c, rest);
    SeparatorAt(b, p + |t|, ms.m.endWs, c, RBRACE);
  }

  /** A value that is not a list of members or elements. */
  lemma ScalarAt(b: seq<byte>, p: nat, v: Value, d: nat, lim: Limits)
    requires ValueOk(v) && TextAt(b, p, ValueText(v)) && !v.core.Arr? && !v.core.Obj?
    requires v.core.Num? ==> NumberEnds(b, p + |ValueText(v)|)
    requires v.core.Str? ==> |StringBytes(v.core.pieces)| <= lim.maxStringLen
    requires v.core.EmptyArr? || v.core.EmptyObj? ==> d < lim.maxDepth
    ensures ParseValue(b, p, d, lim) == Ok(Denote(v, lim), p + |ValueText(v)|)
    ensures SkipValue(b, p, d, lim) == Ok((), p + |ValueText(v)|)
  {
    hide ParseValue, SkipValue, ValueText, Denote, TextAt, NumberEnds, StringBytes, NumberOk, PiecesOk;
    match v.core
    case Num(_) => NumAt(b, p, v, d, lim);
    case Str(_) => StrAt(b, p, v, d, lim);
    case EmptyArr(_) => EmptyAt(b, p, v, d, lim);
    case EmptyObj(_) => EmptyAt(b, p, v, d, lim);
    case _ => LiteralAt(b, p, v, d, lim);
  }

  // ---- the theorems ----

  lemma Inside(v: Value, d: nat, lim: Limits, inspected: bool)
    requires ValueOk(v) && Fits(v, d, lim, inspected)
    ensures v.core.Arr? ==> ElementsOk(v.core.elements)
    ensures v.core.Arr? ==> ElementsFit(v.core.elements, d + 1, lim, if inspected then lim.maxArrayInspect else 0)
    ensures v.core.Obj? ==> MembersOk(v.core.members) && MembersFit(v.core.members, d + 1, lim, inspected)
    ensures v.core.Obj? && inspected ==>
      |MemberFields(v.core.members, lim)| <= lim.maxFieldsPerObject && Distinct(MemberFields(v.core.members, lim))
    ensures v.core.Arr? || v.core.Obj? ==> d < lim.maxDepth
    ensures v.core.Str? ==> |StringBytes(v.core.pieces)| <= lim.maxStringLen
    ensures v.core.EmptyArr? || v.core.EmptyObj? ==> d < lim.maxDepth
  {
    hide ElementsFit, MembersFit, ElementsOk, MembersOk, NumberOk, Distinct, MemberFields, StringBytes, PiecesOk, Blank;
  }

  /** The skipping walker passes over every value that meets the bounds it checks. */
  lemma {:induction false} SkipComplete(b: seq<byte>, p: nat, v: Value, d: nat, lim: Limits)
    requires ValueOk(v) && TextAt(b, p, ValueText(v)) && Fits(v, d, lim, false)
    requires v.core.Num? ==> NumberEnds(b, p + |ValueText(v)|)
    ensures SkipValue(b, p, d, lim) == Ok((), p + |ValueText(v)|)
    decreases v
  {
    hide *;
    Inside(v, d, lim, false);
    if v.core.Arr? {
      ArrayAt(b, p, v, d, lim);
      SkipElementsComplete(b, p + |v.ws| + 1, v.core.elements, d + 1, lim);
    } else if v.core.Obj? {
      ObjectAt(b, p, v, d, lim);
      SkipMembersComplete(b, p + |v.ws| + 1, v.core.members, d + 1, lim);
    } else {
      ScalarAt(b, p, v, d, lim);
    }
  }

  lemma {:induction false} SkipElementsComplete(b: seq<byte>, p: nat, es: Elements, d: nat, lim: Limits)
    requires ElementsOk(es) && TextAt(b, p, ElementsText(es)) && ElementsFit(es, d, lim, 0)
    ensures SkipElements(b, p, d, lim) == Ok((), p + |ElementsText(es)|)
    decreases es
  {
    hide SkipValue, ValueText, ElementsText, Separator, TextAt, NumberEnds, ValueOk;
    ElementsAtParts(b, p, es);
    SkipComplete(b, p, es.v, d, lim);
    if es.MoreElements? {
      SkipElementsComplete(b, p + |ValueText(es.v)| + |es.ws| + 1, es.rest, d, lim);
    }
  }

  lemma {:induction false} SkipMembersComplete(b: seq<byte>, p: nat, ms: Members, d: nat, lim: Limits)
    requires MembersOk(ms) && TextAt(b, p, MembersText(ms)) && MembersFit(ms, d, lim, false)
    ensures SkipMembers(b, p, d, lim) == Ok((), p + |MembersText(ms)|)
    decreases ms
  {
    hide SkipValue, ValueText, MembersText, AfterColon, Quoted, Separator, ExpectColon, ParseMemberKey, StringBytes;
    KeyAt(b, p, ms, lim);
    var q := p + |ms.m.ws| + |Quoted(ms.m.key)|;
    ColonAt(b, q, ms);
    var q2 := q + |ms.m.colonWs| + 1;
    MemberEndAt(b, q2, ms);
    SkipComplete(b, q2, ms.m.v, d, lim);
    if ms.MoreMembers? {
      SkipMembersComplete(b, q2 + |ValueText(ms.m.v)| + |ms.m.endWs| + 1, ms.rest, d, lim);
    }
  }

  lemma DenoteArr(v: Value, lim: Limits)
    requires ValueOk(v) && v.core.Arr?
    ensures var es := v.core.elements;
      Denote(v, lim) == Array([] + ElementNodes(es, lim, lim.maxArrayInspect), false || Count(es) > lim.maxArrayInspect)
  {
    hide ElementNodes, Count;
    assert [] + ElementNodes(v.core.elements, lim, lim.maxArrayInspect)
      == ElementNodes(v.core.elements, lim, lim.maxArrayInspect);
  }

  lemma DenoteObj(v: Value, lim: Limits)
    requires ValueOk(v) && v.core.Obj?
    ensures [] + MemberFields(v.core.members, lim) == MemberFields(v.core.members, lim)
    ensures Denote(v, lim) == Object([] + MemberFields(v.core.members, lim))
  {
    hide MemberFields;
    assert [] + MemberFields(v.core.members, lim) == MemberFields(v.core.members, lim);
  }

  /** The parser reads every value that meets the bounds as the document it denotes. */
  lemma {:induction false} ParseComplete(b: seq<byte>, p: nat, v: Value, d: nat, lim: Limits)
    requires ValueOk(v) && TextAt(b, p, ValueText(v)) && Fits(v, d, lim, true)
    requires v.core.Num? ==> NumberEnds(b, p + |ValueText(v)|)
    ensures ParseValue(b, p, d, lim) == Ok(Denote(v, lim), p + |ValueText(v)|)
    decreases v
  {
    hide *;
    Inside(v, d, lim, true);
    if v.core.Arr? {
      ArrayAt(b, p, v, d, lim);
      ElementsComplete(b, p + |v.ws| + 1, v.core.elements, d + 1, lim, [], false);
      DenoteArr(v, lim);
    } else if v.core.Obj? {
      ObjectAt(b, p, v, d, lim);
      DenoteObj(v, lim);
      MembersComplete(b, p + |v.ws| + 1, v.core.members, d + 1, lim, []);
    } else {
      ScalarAt(b, p, v, d, lim);
    }
  }

  lemma ElementStep(b: seq<byte>, p: nat, d: nat, lim: Limits, items: seq<Node>, truncated: bool, item: Node, q: nat,
                    more: bool, r: nat)
    requires p <= |b| && |items| < lim.maxArrayInspect
    requires ParseValue(b, p, d, lim) == Ok(item, q) && Separator(b, q, RBRACKET) == Ok(more, r)
    ensures ParseElements(b, p, d, lim, items, truncated)
         == if more then ParseElements(b, r, d, lim, items + [item], truncated)
           else Ok(Array(items + [item], truncated), r)
  {
    hide ParseValue, SkipValue, Separator;
  }

  lemma ElementSkipStep(b: seq<byte>, p: nat, d: nat, lim: Limits, items: seq<Node>, truncated: bool, q: nat,
                        more: bool, r: nat)
    requires p <= |b| && |items| >= lim.maxArrayInspect
    requires SkipValue(b, p, d, lim) == Ok((), q) && Separator(b, q, RBRACKET) == Ok(more, r)
    ensures ParseElements(b, p, d, lim, items, truncated)
         == if more then ParseElements(b, r, d, lim, items, true) else Ok(Array(items, true), r)
  {
    hide ParseValue, SkipValue, Separator;
  }

  /** The parts of an element list. */
  lemma ElementsIs(es: Elements, d: nat, lim: Limits, k: nat, items: seq<Node>)
    requires ElementsOk(es) && ElementsFit(es, d, lim, k)
    ensures ValueOk(es.v) && Fits(es.v, d, lim, k > 0)
    ensures es.MoreElements? ==> ElementsOk(es.rest) && ElementsFit(es.rest, d, lim, if k > 0 then k - 1 else 0)
    ensures Count(es) == if es.LastElement? then 1 else 1 + Count(es.rest)
    ensures k == 0 ==>
      items + ElementNodes(es, lim, k) == items && (es.MoreElements? ==> items + ElementNodes(es.rest, lim, 0) == items)
    ensures k > 0 && es.LastElement? ==> items + [Denote(es.v, lim)] == items + ElementNodes(es, lim, k)
    ensures k > 0 && es.MoreElements? ==>
      items + [Denote(es.v, lim)] + ElementNodes(es.rest, lim, k - 1) == items + ElementNodes(es, lim, k)
  {
    hide ValueOk, Fits, Denote;
  }

  lemma {:induction false} ElementsComplete(
    b: seq<byte>, p: nat, es: Elements, d: nat, lim: Limits, items: seq<Node>, truncated: bool)
    requires |items| <= lim.maxArrayInspect
    requires ElementsOk(es) && TextAt(b, p, ElementsText(es))
    requires ElementsFit(es, d, lim, lim.maxArrayInspect - |items|)
    ensures var k := lim.maxArrayInspect - |items|;
      ParseElements(b, p, d, lim, items, truncated)
      == Ok(Array(items + ElementNodes(es, lim, k), truncated || Count(es) > k), p + |ElementsText(es)|)
    decreases es
  {
    hide *;
    var k := lim.maxArrayInspect - |items|;
    ElementsAtParts(b, p, es);
    ElementsIs(es, d, lim, k, items);
    var q := p + |ValueText(es.v)|;
    var r := q + |es.ws| + 1;
    assert p <= |b| by { InText(b, p, ElementsText(es)); }
    if k > 0 {
      ParseComplete(b, p, es.v, d, lim);
      ElementStep(b, p, d, lim, items, truncated, Denote(es.v, lim), q, es.MoreElements?, r);
      if es.MoreElements? {
        ElementsComplete(b, r, es.rest, d, lim, items + [Denote(es.v, lim)], truncated);
      }
    } else {
      SkipComplete(b, p, es.v, d, lim);
      ElementSkipStep(b, p, d, lim, items, truncated, q, es.MoreElements?, r);
      if es.MoreElements? {
        ElementsComplete(b, r, es.rest, d, lim, items, true);
      }
    }
  }

  lemma DistinctPrefix(fields: seq<Field>, f: Field, rest: seq<Field>)
    requires Distinct(fields + ([f] + rest))
    ensures f.key !in Keys(fields)
  {
    var all := fields + ([f] + rest);
    assert all[|fields|] == f;
    assert forall i | 0 <= i < |fields| :: all[i] == fields[i];
  }

  lemma MemberStep(b: seq<byte>, p: nat, d: nat, lim: Limits, fields: seq<Field>,
                   key: seq<byte>, q1: nat, q2: nat, value: Node, q3: nat, more: bool, q4: nat)
    requires p <= |b| && ParseMemberKey(b, p, lim) == Ok(key, q1) && key !in Keys(fields)
    requires ExpectColon(b, q1) == Ok((), q2) && ParseValue(b, q2, d, lim) == Ok(value, q3)
    requires |fields| + 1 <= lim.maxFieldsPerObject && Separator(b, q3, RBRACE) == Ok(more, q4)
    ensures var fields' := fields + [Field(key, value)];
      ParseMembers(b, p, d, lim, fields) ==
        if more then ParseMembers(b, q4, d, lim, fields') else Ok(Object(fields'), q4)
  {
    hide ParseMemberKey, ExpectColon, ParseValue, Separator, Keys;
  }

  /** The parts of a member list. */
  lemma MembersIs(ms: Members, d: nat, lim: Limits, fields: seq<Field>)
    requires MembersOk(ms) && MembersFit(ms, d, lim, true)
    ensures PiecesOk(ms.m.key) && ValueOk(ms.m.v) && Fits(ms.m.v, d, lim, true)
    ensures |StringBytes(ms.m.key)| <= lim.maxKeyLen
    ensures ms.MoreMembers? ==> MembersOk(ms.rest) && MembersFit(ms.rest, d, lim, true)
    ensures var f := Field(StringBytes(ms.m.key), Denote(ms.m.v, lim));
      var rest := if ms.LastMember? then [] else MemberFields(ms.rest, lim);
      fields + MemberFields(ms, lim) == fields + ([f] + rest) == fields + [f] + rest
      && |fields| + 1 + |rest| == |fields + MemberFields(ms, lim)|
      && (ms.LastMember? ==> fields + [f] == fields + MemberFields(ms, lim))
  {
    hide ValueOk, Fits, Denote, StringBytes, Blank, ValidUtf8;
  }

  lemma {:induction false} MembersComplete(b: seq<byte>, p: nat, ms: Members, d: nat, lim: Limits, fields: seq<Field>)
    requires MembersOk(ms) && TextAt(b, p, MembersText(ms)) && MembersFit(ms, d, lim, true)
    requires |fields + MemberFields(ms, lim)| <= lim.maxFieldsPerObject
    requires Distinct(fields + MemberFields(ms, lim))
    ensures ParseMembers(b, p, d, lim, fields) == Ok(Object(fields + MemberFields(ms, lim)), p + |MembersText(ms)|)
    decreases ms
  {
    hide *;
    InText(b, p, MembersText(ms));
    MembersIs(ms, d, lim, fields);
    KeyAt(b, p, ms, lim);
    var q := p + |ms.m.ws| + |Quoted(ms.m.key)|;
    ColonAt(b, q, ms);
    var q2 := q + |ms.m.colonWs| + 1;
    MemberEndAt(b, q2, ms);
    ParseComplete(b, q2, ms.m.v, d, lim);
    var key := StringBytes(ms.m.key);
    var f := Field(key, Denote(ms.m.v, lim));
    DistinctPrefix(fields, f, if ms.LastMember? then [] else MemberFields(ms.rest, lim));
    var q3 := q2 + |ValueText(ms.m.v)|;
    var q4 := q3 + |ms.m.endWs| + 1;
    MemberStep(b, p, d, lim, fields, key, q, q2, f.value, q3, ms.MoreMembers?, q4);
    if ms.MoreMembers? {
      MembersComplete(b, q4, ms.rest, d, lim, fields + [f]);
    }
  }
}
