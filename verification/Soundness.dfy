/** Whatever the parser accepts is a JSON text that meets its bounds, and it reads what the text
    denotes. Every lemma returns the syntax tree of the stretch of input a walk went over: a walk's
    own steps give the parts, and the parts are joined where they stand, so that no sequence is ever
    compared as a whole. */
module Soundness {
  import opened Utf8
  import opened Json
  import opened ParseSpec
  import opened Grammar
  import opened Completeness
  import opened Walkers

  lemma JoinAt(b: seq<byte>, p: nat, s: seq<byte>, t: seq<byte>)
    requires TextAt(b, p, s) && TextAt(b, p + |s|, t)
    ensures TextAt(b, p, s + t)
  {
  }

  lemma SliceAt(b: seq<byte>, p: nat, q: nat)
    requires p <= q <= |b|
    ensures TextAt(b, p, b[p..q]) && |b[p..q]| == q - p
  {
  }

  lemma ByteAt(b: seq<byte>, p: nat)
    requires p < |b|
    ensures TextAt(b, p, [b[p]])
  {
  }

  /** The whitespace that `SkipWs` passes. */
  function WsText(b: seq<byte>, p: nat): (ws: seq<byte>)
    requires p <= |b|
    ensures |ws| == SkipWs(b, p) - p
  {
    b[p..SkipWs(b, p)]
  }

  lemma WsSound(b: seq<byte>, p: nat)
    requires p <= |b|
    ensures Blank(WsText(b, p)) && TextAt(b, p, WsText(b, p))
  {
    assert forall i | 0 <= i < |WsText(b, p)| :: WsText(b, p)[i] == b[p + i];
  }

  // ---- strings ----

  lemma HexSound(b: seq<byte>, p: nat)
    requires p <= |b| && ReadHex4(b, p).Ok?
    ensures IsHex4(b[p..p + 4]) && TextAt(b, p, b[p..p + 4])
    ensures ReadHex4(b, p).value == HexNumber(b[p..p + 4]) <= 0xFFFF
  {
    SliceAt(b, p, p + 4);
    Hex4Bound(b[p..p + 4]);
  }

  lemma UnicodeSound(b: seq<byte>, p: nat) returns (t: Piece)
    requires p <= |b| && ReadUnicode(b, p).Ok?
    ensures PieceOk(t) && (t.Unicode? || t.Pair?)
    ensures TextAt(b, p, UnicodeTail(t)) && ReadUnicode(b, p).pos == p + |UnicodeTail(t)|
    ensures PieceBytes(t) == EncodeScalar(ReadUnicode(b, p).value)
  {
    hide EncodeScalar, HexNumber;
    HexSound(b, p);
    var hi := b[p..p + 4];
    if 0xD800 <= HexNumber(hi) <= 0xDBFF {
      HexSound(b, p + 6);
      var lo := b[p + 6..p + 10];
      t := Pair(hi, lo);
      ByteAt(b, p + 4);
      ByteAt(b, p + 5);
      PairJoin(b, p, hi, lo);
    } else {
      t := Unicode(hi);
    }
  }

  lemma PairJoin(b: seq<byte>, p: nat, hi: seq<byte>, lo: seq<byte>)
    requires |hi| == 4 && TextAt(b, p, hi)
    requires TextAt(b, p + 4, [BACKSLASH]) && TextAt(b, p + 5, [LOWER_U]) && TextAt(b, p + 6, lo)
    ensures TextAt(b, p, hi + ([BACKSLASH, LOWER_U] + lo))
  {
    hide TextAt;
    JoinAt(b, p + 4, [BACKSLASH], [LOWER_U]);
    assert [BACKSLASH] + [LOWER_U] == [BACKSLASH, LOWER_U];
    JoinAt(b, p + 4, [BACKSLASH, LOWER_U], lo);
    JoinAt(b, p, hi, [BACKSLASH, LOWER_U] + lo);
  }

  lemma PieceSound(b: seq<byte>, p: nat, buf: seq<byte>) returns (t: Piece)
    requires p <= |b| && ScanString(b, p, buf).Ok? && b[p] != QUOTE
    ensures PieceOk(t) && TextAt(b, p, PieceText(t)) && |PieceText(t)| > 0
    ensures ScanString(b, p, buf) == ScanString(b, p + |PieceText(t)|, buf + PieceBytes(t))
  {
    hide ReadUnicode, EncodeScalar, ValidUtf8, HexNumber, TextAt;
    ByteAt(b, p);
    if b[p] != BACKSLASH {
      t := Raw(b[p]);
    } else {
      ByteAt(b, p + 1);
      JoinAt(b, p, [BACKSLASH], [b[p + 1]]);
      assert [BACKSLASH] + [b[p + 1]] == [BACKSLASH, b[p + 1]];
      if IsEscape(b[p + 1]) {
        t := Escape(b[p + 1]);
      } else {
        t := UnicodeSound(b, p + 2);
        JoinAt(b, p, [BACKSLASH, LOWER_U], UnicodeTail(t));
      }
    }
  }

  lemma {:induction false} ScanSound(b: seq<byte>, p: nat, buf: seq<byte>) returns (ps: seq<Piece>)
    requires p <= |b| && ScanString(b, p, buf).Ok?
    ensures PiecesOk(ps) && TextAt(b, p, StringText(ps) + [QUOTE])
    ensures ScanString(b, p, buf) == Ok(buf + StringBytes(ps), p + |StringText(ps)| + 1)
    ensures ValidUtf8(buf + StringBytes(ps))
    decreases |b| - p
  {
    hide ValidUtf8, PieceText, PieceBytes, TextAt;
    if b[p] == QUOTE {
      ps := [];
      ByteAt(b, p);
      assert StringText(ps) + [QUOTE] == [QUOTE];
      assert buf + [] == buf;
    } else {
      hide ScanString;
      var t := PieceSound(b, p, buf);
      TextWithin(b, p, PieceText(t));
      var rest := ScanSound(b, p + |PieceText(t)|, buf + PieceBytes(t));
      ps := [t] + rest;
      assert ps[1..] == rest;
      assert buf + PieceBytes(t) + StringBytes(rest) == buf + StringBytes(ps);
      JoinAt(b, p, PieceText(t), StringText(rest) + [QUOTE]);
      assert PieceText(t) + (StringText(rest) + [QUOTE]) == StringText(ps) + [QUOTE];
    }
  }

  lemma TextWithin(b: seq<byte>, p: nat, t: seq<byte>)
    requires TextAt(b, p, t)
    ensures p + |t| <= |b|
  {
  }

  lemma QuotedSound(b: seq<byte>, p: nat) returns (ps: seq<Piece>)
    requires Peek(b, p, QUOTE) && ScanString(b, p + 1, []).Ok?
    ensures StringOk(ps) && TextAt(b, p, Quoted(ps))
    ensures ScanString(b, p + 1, []) == Ok(StringBytes(ps), p + |Quoted(ps)|)
  {
    hide ScanString, ValidUtf8, TextAt;
    ps := ScanSound(b, p + 1, []);
    assert [] + StringBytes(ps) == StringBytes(ps);
    ByteAt(b, p);
    JoinAt(b, p, [QUOTE], StringText(ps) + [QUOTE]);
    assert [QUOTE] + (StringText(ps) + [QUOTE]) == Quoted(ps);
  }

  // ---- numbers ----

  lemma DigitsSound(b: seq<byte>, p: nat)
    requires p <= |b| && Digits1(b, p).Ok?
    ensures IsDigits(b[p..Digits1(b, p).pos]) && TextAt(b, p, b[p..Digits1(b, p).pos])
  {
    var q := Digits1(b, p).pos;
    SliceAt(b, p, q);
    assert forall i | 0 <= i < q - p :: b[p..q][i] == b[p + i];
  }

  /** Where the digits of an exponent start. */
  function DigitsStart(b: seq<byte>, p: nat): nat {
    if Peek(b, p + 1, PLUS) || Peek(b, p + 1, MINUS) then p + 2 else p + 1
  }

  lemma SignSound(b: seq<byte>, p: nat)
    requires Peek(b, p, LOWER_E) || Peek(b, p, UPPER_E)
    ensures p + 1 <= DigitsStart(b, p) <= |b|
    ensures var sign := b[p + 1..DigitsStart(b, p)];
      TextAt(b, p, [b[p]] + sign) && (sign == [] || sign == [PLUS] || sign == [MINUS])
  {
    SliceAt(b, p, DigitsStart(b, p));
    assert b[p..DigitsStart(b, p)] == [b[p]] + b[p + 1..DigitsStart(b, p)];
  }

  lemma ExponentSound(b: seq<byte>, p: nat) returns (e: Exponent)
    requires p <= |b| && ExpPart(b, p).Ok?
    ensures NumberOk(NumberText(false, [ZERO], NoFraction, e))
    ensures TextAt(b, p, ExponentText(e)) && ExpPart(b, p).pos == p + |ExponentText(e)|
  {
    hide TextAt, IsDigits, Digits1;
    if Peek(b, p, LOWER_E) || Peek(b, p, UPPER_E) {
      SignSound(b, p);
      var q := DigitsStart(b, p);
      DigitsSound(b, q);
      e := Exponent(b[p], b[p + 1..q], b[q..Digits1(b, q).pos]);
      JoinAt(b, p, [b[p]] + e.sign, e.digits);
    } else {
      e := NoExponent;
      assert TextAt(b, p, []) by { Nothing(b, p); }
    }
  }

  lemma Nothing(b: seq<byte>, p: nat)
    requires p <= |b|
    ensures TextAt(b, p, [])
  {
  }

  lemma FractionSound(b: seq<byte>, p: nat) returns (f: Fraction)
    requires p <= |b| && FracPart(b, p).Ok?
    ensures NumberOk(NumberText(false, [ZERO], f, NoExponent))
    ensures TextAt(b, p, FractionText(f)) && FracPart(b, p).pos == p + |FractionText(f)|
  {
    if Peek(b, p, DOT) {
      DigitsSound(b, p + 1);
      f := Fraction(b[p + 1..Digits1(b, p + 1).pos]);
      assert TextAt(b, p, [DOT]);
      JoinAt(b, p, [DOT], f.digits);
    } else {
      f := NoFraction;
    }
  }

  lemma WholeSound(b: seq<byte>, p: nat) returns (w: seq<byte>)
    requires p <= |b| && WholePart(b, p).Ok?
    ensures NumberOk(NumberText(false, w, NoFraction, NoExponent))
    ensures TextAt(b, p, w) && WholePart(b, p).pos == p + |w|
  {
    if Peek(b, p, ZERO) {
      w := [ZERO];
    } else {
      DigitsSound(b, p);
      w := b[p..Digits1(b, p).pos];
      assert w[0] == b[p];
    }
  }

  lemma NumberSound(b: seq<byte>, p: nat) returns (n: NumberText)
    requires p <= |b| && ParseNumber(b, p).Ok?
    ensures NumberOk(n) && TextAt(b, p, NumText(n))
    ensures ParseNumber(b, p) == Ok(Number(NumText(n)), p + |NumText(n)|)
  {
    hide WholePart, FracPart, ExpPart, NumText, FractionText, ExponentText, TextAt;
    var minus := Peek(b, p, MINUS);
    assert TextAt(b, p, MinusText(minus)) by { MinusAt(b, p); }
    var m := MinusText(minus);
    var w := WholeSound(b, p + |m|);
    var q1 := p + |m| + |w|;
    var f := FractionSound(b, q1);
    var q2 := q1 + |FractionText(f)|;
    var e := ExponentSound(b, q2);
    n := NumberText(minus, w, f, e);
    NumberJoin(b, p, n);
    var q3 := q2 + |ExponentText(e)|;
    SliceIs(b, p, NumText(n));
  }

  lemma MinusAt(b: seq<byte>, p: nat)
    requires p <= |b|
    ensures TextAt(b, p, MinusText(Peek(b, p, MINUS)))
  {
  }

  lemma SliceIs(b: seq<byte>, p: nat, t: seq<byte>)
    requires TextAt(b, p, t)
    ensures b[p..p + |t|] == t
  {
  }

  lemma NumberJoin(b: seq<byte>, p: nat, n: NumberText)
    requires TextAt(b, p, MinusText(n.minus))
    requires var q := p + |MinusText(n.minus)|; TextAt(b, q, n.whole)
    requires var q := p + |MinusText(n.minus)| + |n.whole|; TextAt(b, q, FractionText(n.frac))
    requires var q := p + |MinusText(n.minus)| + |n.whole| + |FractionText(n.frac)|; TextAt(b, q, ExponentText(n.exp))
    ensures TextAt(b, p, NumText(n))
    ensures |NumText(n)| == |MinusText(n.minus)| + |n.whole| + |FractionText(n.frac)| + |ExponentText(n.exp)|
  {
    hide TextAt, FractionText, ExponentText, MinusText;
    var m, w, f, e := MinusText(n.minus), n.whole, FractionText(n.frac), ExponentText(n.exp);
    JoinAt(b, p, m, w);
    JoinAt(b, p, m + w, f);
    JoinAt(b, p, m + w + f, e);
  }

  // ---- values ----

  lemma LiteralSound(b: seq<byte>, p: nat, kw: seq<byte>)
    requires p <= |b| && SkipLiteral(b, p, kw).Ok?
    ensures TextAt(b, p, kw)
  {
    assert forall i | 0 <= i < |kw| :: kw[i] == b[p..][i];
  }

  /** The tree of a value that is not a list of members or elements. */
  lemma ScalarSound(b: seq<byte>, p: nat, lim: Limits) returns (c: Core)
    requires p < |b| && !IsWs(b[p]) && b[p] != LBRACE && b[p] != LBRACKET
    requires SkipValue(b, p, 0, lim).Ok?
    ensures var v := Value([], c);
      ValueOk(v) && TextAt(b, p, ValueText(v)) && ValueText(v) != []
      && !c.Arr? && !c.Obj? && !c.EmptyArr? && !c.EmptyObj?
      && SkipValue(b, p, 0, lim) == Ok((), p + |ValueText(v)|)
      && (c.Str? ==> |StringBytes(c.pieces)| <= lim.maxStringLen)
      && (c.Num? ==> ParseNumber(b, p) == Ok(Number(NumText(c.n)), p + |NumText(c.n)|))
  {
    hide ParseNumber, TextAt, ScanString, Quoted, NumText, NumberOk, StringOk, SkipObject, SkipArray;
    if b[p] == QUOTE {
      var ps := QuotedSound(b, p);
      c := Str(ps);
    } else if b[p] == LOWER_T {
      LiteralSound(b, p, TRUE_TEXT);
      c := TrueLit;
    } else if b[p] == LOWER_F {
      LiteralSound(b, p, FALSE_TEXT);
      c := FalseLit;
    } else if b[p] == LOWER_N {
      LiteralSound(b, p, NULL_TEXT);
      c := NullLit;
    } else {
      var n := NumberSound(b, p);
      c := Num(n);
    }
    BareEqual(c);
  }

  lemma BareEqual(c: Core)
    ensures ValueText(Value([], c)) == match c
      case NullLit => NULL_TEXT
      case TrueLit => TRUE_TEXT
      case FalseLit => FALSE_TEXT
      case Num(n) => NumText(n)
      case Str(ps) => Quoted(ps)
      case EmptyArr(ws) => [LBRACKET] + ws + [RBRACKET]
      case Arr(es) => [LBRACKET] + ElementsText(es)
      case EmptyObj(ws) => [LBRACE] + ws + [RBRACE]
      case Obj(ms) => [LBRACE] + MembersText(ms)
  {
    hide NumText, Quoted, ElementsText, MembersText;
  }

  /** The whitespace in front of a tree's own text. */
  lemma WithWs(b: seq<byte>, p: nat, c: Core)
    requires p <= |b| && ValueOk(Value([], c)) && TextAt(b, SkipWs(b, p), ValueText(Value([], c)))
    ensures var v := Value(WsText(b, p), c);
      ValueOk(v) && TextAt(b, p, ValueText(v)) && p + |ValueText(v)| == SkipWs(b, p) + |ValueText(Value([], c))|
  {
    hide TextAt, ValueText, ValueOk, SkipWs, Blank;
    WsSound(b, p);
    var ws := WsText(b, p);
    JoinAt(b, p, ws, ValueText(Value([], c)));
    WsOnly(ws, c);
  }

  lemma WsOnly(ws: seq<byte>, c: Core)
    ensures ValueText(Value(ws, c)) == ws + ValueText(Value([], c))
    ensures Blank(ws) && ValueOk(Value([], c)) ==> ValueOk(Value(ws, c))
  {
    hide NumText, Quoted, ElementsText, MembersText, NumberOk, StringOk, ElementsOk, MembersOk;
    BareEqual(c);
  }

  lemma SeparatorSound(b: seq<byte>, p: nat, close: byte)
    requires p <= |b| && Separator(b, p, close).Ok?
    ensures Blank(WsText(b, p)) && TextAt(b, p, WsText(b, p))
    ensures TextAt(b, p + |WsText(b, p)|, [if Separator(b, p, close).value then COMMA else close])
    ensures Separator(b, p, close).pos == p + |WsText(b, p)| + 1
  {
    WsSound(b, p);
    ByteAt(b, SkipWs(b, p));
  }

  lemma ElementsJoin(b: seq<byte>, p: nat, es: Elements)
    requires TextAt(b, p, ValueText(es.v))
    requires var q := p + |ValueText(es.v)|; TextAt(b, q, es.ws)
    requires var q := p + |ValueText(es.v)| + |es.ws|; TextAt(b, q, [if es.LastElement? then RBRACKET else COMMA])
    requires var q := p + |ValueText(es.v)| + |es.ws| + 1; es.MoreElements? ==> TextAt(b, q, ElementsText(es.rest))
    ensures TextAt(b, p, ElementsText(es))
    ensures |ElementsText(es)| == |ValueText(es.v)| + |es.ws| + 1 +
      if es.LastElement? then 0 else |ElementsText(es.rest)|
  {
    hide TextAt, ValueText;
    var q := p + |ValueText(es.v)|;
    var tail := if es.LastElement? then [RBRACKET] else [COMMA] + ElementsText(es.rest);
    if es.MoreElements? {
      JoinAt(b, q + |es.ws|, [COMMA], ElementsText(es.rest));
    }
    JoinAt(b, q, es.ws, tail);
    JoinAt(b, p, ValueText(es.v), es.ws + tail);
  }

  /** A member's key and colon. */
  lemma KeySound(b: seq<byte>, p: nat, lim: Limits) returns (ws: seq<byte>, ps: seq<Piece>)
    requires p <= |b| && ParseMemberKey(b, p, lim).Ok?
    ensures Blank(ws) && StringOk(ps) && PiecesOk(ps) && |StringBytes(ps)| <= lim.maxKeyLen
    ensures ParseMemberKey(b, p, lim) == Ok(StringBytes(ps), p + |ws| + |Quoted(ps)|)
    ensures TextAt(b, p, ws) && TextAt(b, p + |ws|, Quoted(ps))
  {
    hide TextAt, ScanString, Quoted, ValidUtf8, IsWs;
    ws := WsText(b, p);
    WsSound(b, p);
    ps := QuotedSound(b, p + |ws|);
  }

  lemma ColonSound(b: seq<byte>, q: nat) returns (colonWs: seq<byte>)
    requires q <= |b| && ExpectColon(b, q).Ok?
    ensures Blank(colonWs) && ExpectColon(b, q) == Ok((), q + |colonWs| + 1)
    ensures TextAt(b, q, colonWs) && TextAt(b, q + |colonWs|, [COLON])
  {
    hide TextAt, IsWs;
    colonWs := WsText(b, q);
    WsSound(b, q);
    ByteAt(b, SkipWs(b, q));
  }

  lemma HeadSound(b: seq<byte>, p: nat, lim: Limits) returns (ws: seq<byte>, ps: seq<Piece>, colonWs: seq<byte>)
    requires p <= |b| && ParseMemberKey(b, p, lim).Ok? && ExpectColon(b, ParseMemberKey(b, p, lim).pos).Ok?
    ensures Blank(ws) && StringOk(ps) && PiecesOk(ps) && Blank(colonWs) && |StringBytes(ps)| <= lim.maxKeyLen
    ensures ParseMemberKey(b, p, lim) == Ok(StringBytes(ps), p + |ws| + |Quoted(ps)|)
    ensures ExpectColon(b, p + |ws| + |Quoted(ps)|) == Ok((), p + |ws| + |Quoted(ps)| + |colonWs| + 1)
    ensures TextAt(b, p, ws) && TextAt(b, p + |ws|, Quoted(ps)) && TextAt(b, p + |ws| + |Quoted(ps)|, colonWs)
    ensures TextAt(b, p + |ws| + |Quoted(ps)| + |colonWs|, [COLON])
  {
    hide *;
    ws, ps := KeySound(b, p, lim);
    colonWs := ColonSound(b, p + |ws| + |Quoted(ps)|);
  }

  lemma MembersJoin(b: seq<byte>, p: nat, ms: Members)
    requires TextAt(b, p, ms.m.ws)
    requires var q := p + |ms.m.ws|; TextAt(b, q, Quoted(ms.m.key))
    requires var q := p + |ms.m.ws| + |Quoted(ms.m.key)|; TextAt(b, q, ms.m.colonWs)
    requires var q := p + |ms.m.ws| + |Quoted(ms.m.key)| + |ms.m.colonWs|; TextAt(b, q, [COLON])
    requires var q := p + |ms.m.ws| + |Quoted(ms.m.key)| + |ms.m.colonWs| + 1; TextAt(b, q, AfterColon(ms))
    ensures TextAt(b, p, MembersText(ms))
    ensures |MembersText(ms)| == |ms.m.ws| + |Quoted(ms.m.key)| + |ms.m.colonWs| + 1 + |AfterColon(ms)|
  {
    hide TextAt, AfterColon, Quoted, MembersText;
    var q1 := p + |ms.m.ws|;
    var q2 := q1 + |Quoted(ms.m.key)|;
    var q3 := q2 + |ms.m.colonWs|;
    JoinAt(b, q3, [COLON], AfterColon(ms));
    JoinAt(b, q2, ms.m.colonWs, [COLON] + AfterColon(ms));
    JoinAt(b, q1, Quoted(ms.m.key), ms.m.colonWs + ([COLON] + AfterColon(ms)));
    JoinAt(b, p, ms.m.ws, AfterBlank(ms));
    MembersTextIs(ms);
  }

  lemma MembersTextIs(ms: Members)
    ensures MembersText(ms) == ms.m.ws + AfterBlank(ms)
  {
    hide Quoted, ValueText;
  }

  lemma AfterColonJoin(b: seq<byte>, p: nat, ms: Members)
    requires TextAt(b, p, ValueText(ms.m.v))
    requires var q := p + |ValueText(ms.m.v)|; TextAt(b, q, ms.m.endWs)
    requires var q := p + |ValueText(ms.m.v)| + |ms.m.endWs|; TextAt(b, q, [if ms.LastMember? then RBRACE else COMMA])
    requires var q := p + |ValueText(ms.m.v)| + |ms.m.endWs| + 1; ms.MoreMembers? ==> TextAt(b, q, MembersText(ms.rest))
    ensures TextAt(b, p, AfterColon(ms))
    ensures |AfterColon(ms)| == |ValueText(ms.m.v)| + |ms.m.endWs| + 1 +
      if ms.LastMember? then 0 else |MembersText(ms.rest)|
  {
    hide TextAt, ValueText, MembersText;
    var q := p + |ValueText(ms.m.v)|;
    if ms.MoreMembers? {
      JoinAt(b, q + |ms.m.endWs|, [COMMA], MembersText(ms.rest));
    }
    JoinAt(b, q, ms.m.endWs, MembersEnd(ms));
    JoinAt(b, p, ValueText(ms.m.v), ms.m.endWs + MembersEnd(ms));
  }

  /** An empty container. */
  lemma EmptySound(b: seq<byte>, p: nat) returns (c: Core)
    requires Peek(b, p, LBRACE) || Peek(b, p, LBRACKET)
    requires Peek(b, SkipWs(b, p + 1), if b[p] == LBRACE then RBRACE else RBRACKET)
    ensures c == if b[p] == LBRACE then EmptyObj(WsText(b, p + 1)) else EmptyArr(WsText(b, p + 1))
    ensures ValueOk(Value([], c)) && TextAt(b, p, ValueText(Value([], c)))
    ensures |ValueText(Value([], c))| == SkipWs(b, p + 1) + 1 - p
  {
    hide TextAt, ValueText, SkipWs, ElementsText, MembersText, NumText, Quoted, IsWs;
    var ws := WsText(b, p + 1);
    c := if b[p] == LBRACE then EmptyObj(ws) else EmptyArr(ws);
    WsSound(b, p + 1);
    ByteAt(b, p);
    ByteAt(b, p + 1 + |ws|);
    JoinAt(b, p, [b[p]], ws);
    JoinAt(b, p, [b[p]] + ws, [b[p + 1 + |ws|]]);
    BareEqual(c);
  }

  // ---- the theorems ----

  lemma {:induction false} SkipSound(b: seq<byte>, p: nat, d: nat, lim: Limits) returns (v: Value)
    requires p <= |b| && SkipValue(b, p, d, lim).Ok?
    ensures ValueOk(v) && TextAt(b, p, ValueText(v)) && Fits(v, d, lim, false)
    ensures SkipValue(b, p, d, lim) == Ok((), p + |ValueText(v)|)
    decreases |b| - p, 2
  {
    hide TextAt, ValueText, SkipObject, SkipArray, ParseString, ParseNumber, ElementsFit, MembersFit, ValueOk,
      StringBytes;
    var q := SkipWs(b, p);
    var c: Core;
    if b[q] == LBRACE {
      c := SkipObjectSound(b, q, d, lim);
    } else if b[q] == LBRACKET {
      c := SkipArraySound(b, q, d, lim);
    } else {
      c := SkipScalarSound(b, p, d, lim);
    }
    WithWs(b, p, c);
    v := Value(WsText(b, p), c);
  }

  lemma {:induction false} SkipObjectSound(b: seq<byte>, p: nat, d: nat, lim: Limits) returns (c: Core)
    requires Peek(b, p, LBRACE) && SkipObject(b, p, d, lim).Ok?
    ensures var v := Value([], c);
      (c.EmptyObj? || c.Obj?) && ValueOk(v) && TextAt(b, p, ValueText(v)) && Fits(v, d, lim, false)
      && SkipObject(b, p, d, lim) == Ok((), p + |ValueText(v)|)
    decreases |b| - p, 1
  {
    hide TextAt, ValueText, MembersText, SkipMembers, SkipElements, ParseMembers, ParseElements, MembersOk, MembersFit;
    if Peek(b, SkipWs(b, p + 1), RBRACE) {
      c := EmptySound(b, p);
    } else {
      LoopStart(b, p + 1, d + 1, lim);
      var ms := SkipMembersSound(b, p + 1, d + 1, lim);
      c := Obj(ms);
      OpenJoin(b, p, MembersText(ms));
      BareEqual(c);
    }
  }

  lemma {:induction false} SkipArraySound(b: seq<byte>, p: nat, d: nat, lim: Limits) returns (c: Core)
    requires Peek(b, p, LBRACKET) && SkipArray(b, p, d, lim).Ok?
    ensures var v := Value([], c);
      (c.EmptyArr? || c.Arr?) && ValueOk(v) && TextAt(b, p, ValueText(v)) && Fits(v, d, lim, false)
      && SkipArray(b, p, d, lim) == Ok((), p + |ValueText(v)|)
    decreases |b| - p, 1
  {
    hide TextAt, ValueText, ElementsText, SkipMembers, SkipElements, ParseMembers, ParseElements, ElementsOk,
      ElementsFit;
    if Peek(b, SkipWs(b, p + 1), RBRACKET) {
      c := EmptySound(b, p);
    } else {
      LoopStart(b, p + 1, d + 1, lim);
      var es := SkipElementsSound(b, p + 1, d + 1, lim);
      c := Arr(es);
      OpenJoin(b, p, ElementsText(es));
      BareEqual(c);
    }
  }

  lemma OpenJoin(b: seq<byte>, p: nat, t: seq<byte>)
    requires p < |b| && TextAt(b, p + 1, t)
    ensures TextAt(b, p, [b[p]] + t)
  {
    ByteAt(b, p);
    JoinAt(b, p, [b[p]], t);
  }

  lemma SkipScalarSound(b: seq<byte>, p: nat, d: nat, lim: Limits) returns (c: Core)
    requires p <= |b| && SkipValue(b, p, d, lim).Ok?
    requires var q := SkipWs(b, p); b[q] != LBRACE && b[q] != LBRACKET
    ensures var v, q := Value([], c), SkipWs(b, p);
      ValueOk(v) && TextAt(b, q, ValueText(v))
      && !c.Arr? && !c.Obj? && !c.EmptyArr? && !c.EmptyObj?
      && SkipValue(b, p, d, lim) == Ok((), q + |ValueText(v)|)
      && (c.Str? ==> |StringBytes(c.pieces)| <= lim.maxStringLen)
      && (c.Num? ==> ParseNumber(b, q) == Ok(Number(NumText(c.n)), q + |NumText(c.n)|))
  {
    hide TextAt, ValueText, SkipObject, SkipArray, ParseString, ParseNumber;
    var q := SkipWs(b, p);
    assert SkipWs(b, q) == q;
    assert SkipValue(b, p, d, lim) == SkipValue(b, q, 0, lim);
    c := ScalarSound(b, q, lim);
  }

  lemma {:induction false} SkipElementsSound(b: seq<byte>, p: nat, d: nat, lim: Limits) returns (es: Elements)
    requires p <= |b| && SkipElements(b, p, d, lim).Ok?
    ensures ElementsOk(es) && TextAt(b, p, ElementsText(es)) && ElementsFit(es, d, lim, 0)
    ensures SkipElements(b, p, d, lim) == Ok((), p + |ElementsText(es)|)
    decreases |b| - p, 3
  {
    hide TextAt, ValueText, ElementsText, SkipValue, Separator, Fits, ValueOk;
    var v := SkipSound(b, p, d, lim);
    var q := p + |ValueText(v)|;
    SeparatorSound(b, q, RBRACKET);
    var s := Separator(b, q, RBRACKET);
    if s.value {
      var rest := SkipElementsSound(b, s.pos, d, lim);
      es := MoreElements(v, WsText(b, q), rest);
    } else {
      es := LastElement(v, WsText(b, q));
    }
    ElementsJoin(b, p, es);
  }

  lemma {:induction false} SkipMembersSound(b: seq<byte>, p: nat, d: nat, lim: Limits) returns (ms: Members)
    requires p <= |b| && SkipMembers(b, p, d, lim).Ok?
    ensures MembersOk(ms) && TextAt(b, p, MembersText(ms)) && MembersFit(ms, d, lim, false)
    ensures SkipMembers(b, p, d, lim) == Ok((), p + |MembersText(ms)|)
    decreases |b| - p, 0
  {
    hide TextAt, ValueText, MembersText, SkipValue, Separator, Fits, ValueOk, ParseMemberKey, ExpectColon, Quoted,
      StringBytes, StringOk, AfterColon;
    var ws, ps, colonWs := HeadSound(b, p, lim);
    var q := p + |ws| + |Quoted(ps)| + |colonWs| + 1;
    var v := SkipSound(b, q, d, lim);
    var q2 := q + |ValueText(v)|;
    SeparatorSound(b, q2, RBRACE);
    var s := Separator(b, q2, RBRACE);
    var m := Member(ws, ps, colonWs, v, WsText(b, q2));
    if s.value {
      var rest := SkipMembersSound(b, s.pos, d, lim);
      ms := MoreMembers(m, rest);
    } else {
      ms := LastMember(m);
    }
    AfterColonJoin(b, q, ms);
    MembersJoin(b, p, ms);
  }

  lemma {:induction false} ParseSound(b: seq<byte>, p: nat, d: nat, lim: Limits) returns (v: Value)
    requires p <= |b| && ParseValue(b, p, d, lim).Ok?
    ensures ValueOk(v) && TextAt(b, p, ValueText(v)) && Fits(v, d, lim, true)
    ensures ParseValue(b, p, d, lim) == Ok(Denote(v, lim), p + |ValueText(v)|)
    decreases |b| - p, 2
  {
    hide TextAt, ValueText, ParseObject, ParseArray, ParseString, ParseNumber, ElementsFit, MembersFit, ValueOk,
      StringBytes, ElementNodes, MemberFields, Count, Distinct;
    var q := SkipWs(b, p);
    var c: Core;
    if b[q] == LBRACE {
      c := ParseObjectSound(b, q, d, lim);
    } else if b[q] == LBRACKET {
      c := ParseArraySound(b, q, d, lim);
    } else {
      c := ParseScalarSound(b, p, d, lim);
    }
    WithWs(b, p, c);
    v := Value(WsText(b, p), c);
  }

  lemma ParseScalarSound(b: seq<byte>, p: nat, d: nat, lim: Limits) returns (c: Core)
    requires p <= |b| && ParseValue(b, p, d, lim).Ok?
    requires var q := SkipWs(b, p); b[q] != LBRACE && b[q] != LBRACKET
    ensures var v, q := Value([], c), SkipWs(b, p);
      ValueOk(v) && TextAt(b, q, ValueText(v)) && Fits(v, d, lim, true)
      && ParseValue(b, p, d, lim) == Ok(Denote(v, lim), q + |ValueText(v)|)
  {
    hide TextAt, ValueText, ParseObject, ParseArray, SkipObject, SkipArray, ParseNumber, ParseString, NumText,
      StringBytes, SkipValue, ParseValue, StringOk, NumberOk;
    SkipSimulatesParse(b, p, d, lim);
    c := SkipScalarSound(b, p, d, lim);
    var q := SkipWs(b, p);
    if c.Num? {
      BareEqual(c);
      NumStart(b, q, c.n);
      NumDispatch(b, p, d, lim);
    } else {
      ScalarAt(b, q, Value([], c), d, lim);
      ValueStartSkip(b, p, d, lim);
    }
  }

  lemma NumDispatch(b: seq<byte>, p: nat, d: nat, lim: Limits)
    requires p <= |b|
    requires var q := SkipWs(b, p); q < |b| && (b[q] == MINUS || IsDigit(b[q]))
    ensures ParseValue(b, p, d, lim) == ParseNumber(b, SkipWs(b, p))
  {
    hide ParseObject, ParseArray, ParseNumber, ParseString;
  }

  lemma NumStart(b: seq<byte>, q: nat, n: NumberText)
    requires NumberOk(n) && TextAt(b, q, NumText(n))
    ensures q < |b| && (b[q] == MINUS || IsDigit(b[q]))
  {
    NumberParts(b, q, n);
    FirstAt(b, q + |MinusText(n.minus)|, n.whole);
    if n.minus {
      FirstAt(b, q, MinusText(true));
    }
  }

  lemma {:induction false} ParseObjectSound(b: seq<byte>, p: nat, d: nat, lim: Limits) returns (c: Core)
    requires Peek(b, p, LBRACE) && ParseObject(b, p, d, lim).Ok?
    ensures var v := Value([], c);
      (c.EmptyObj? || c.Obj?) && ValueOk(v) && TextAt(b, p, ValueText(v)) && Fits(v, d, lim, true)
      && ParseObject(b, p, d, lim) == Ok(Denote(v, lim), p + |ValueText(v)|)
    decreases |b| - p, 1
  {
    hide TextAt, ValueText, MembersText, SkipMembers, SkipElements, ParseMembers, ParseElements, MembersOk, MembersFit,
      MemberFields, Distinct;
    if Peek(b, SkipWs(b, p + 1), RBRACE) {
      c := EmptySound(b, p);
    } else {
      LoopStart(b, p + 1, d + 1, lim);
      NoneDistinct();
      var ms := ParseMembersSound(b, p + 1, d + 1, lim, []);
      c := Obj(ms);
      DenoteObj(Value([], c), lim);
      OpenJoin(b, p, MembersText(ms));
      BareEqual(c);
    }
  }

  lemma NoneDistinct()
    ensures Distinct([])
  {
  }

  lemma {:induction false} ParseArraySound(b: seq<byte>, p: nat, d: nat, lim: Limits) returns (c: Core)
    requires Peek(b, p, LBRACKET) && ParseArray(b, p, d, lim).Ok?
    ensures var v := Value([], c);
      (c.EmptyArr? || c.Arr?) && ValueOk(v) && TextAt(b, p, ValueText(v)) && Fits(v, d, lim, true)
      && ParseArray(b, p, d, lim) == Ok(Denote(v, lim), p + |ValueText(v)|)
    decreases |b| - p, 1
  {
    hide *;
    PeekIs(b, p, LBRACKET);
    BracketsDiffer();
    ArrayOpens(b, p, d, lim);
    if Peek(b, SkipWs(b, p + 1), RBRACKET) {
      c := EmptySound(b, p);
      WsSound(b, p + 1);
      EmptyArrFacts(WsText(b, p + 1), d, lim);
    } else {
      var es := ParseElementsSound(b, p + 1, d + 1, lim, [], false);
      c := Arr(es);
      ArrFacts(es, d, lim);
      DenoteArr(Value([], c), lim);
      OpenJoin(b, p, ElementsText(es));
      BareEqual(c);
    }
  }

  lemma PeekIs(b: seq<byte>, p: nat, c: byte)
    requires Peek(b, p, c)
    ensures p < |b| && b[p] == c
  {
  }

  lemma BracketsDiffer()
    ensures LBRACKET != LBRACE
  {
  }

  lemma ArrayOpens(b: seq<byte>, p: nat, d: nat, lim: Limits)
    requires Peek(b, p, LBRACKET) && ParseArray(b, p, d, lim).Ok?
    ensures d < lim.maxDepth
    ensures ParseArray(b, p, d, lim)
         == if Peek(b, SkipWs(b, p + 1), RBRACKET) then Ok(Array([], false), SkipWs(b, p + 1) + 1)
            else ParseElements(b, p + 1, d + 1, lim, [], false)
  {
    hide ParseElements, SkipElements, ParseMembers, SkipMembers, SkipWs, IsWs;
    LoopStart(b, p + 1, d + 1, lim);
  }

  lemma ArrFacts(es: Elements, d: nat, lim: Limits)
    requires ElementsOk(es)
    ensures ValueOk(Value([], Arr(es)))
    ensures Fits(Value([], Arr(es)), d, lim, true) <==>
      d < lim.maxDepth && ElementsFit(es, d + 1, lim, lim.maxArrayInspect)
  {
    hide ElementsOk, ElementsFit;
  }

  lemma EmptyArrFacts(ws: seq<byte>, d: nat, lim: Limits)
    requires Blank(ws)
    ensures ValueOk(Value([], EmptyArr(ws))) && Denote(Value([], EmptyArr(ws)), lim) == Array([], false)
    ensures Fits(Value([], EmptyArr(ws)), d, lim, true) <==> d < lim.maxDepth
  {
  }

  /** What an element loop that succeeded went through; `item` only counts while there is room. */
  lemma ElementParts(b: seq<byte>, p: nat, d: nat, lim: Limits, items: seq<Node>, truncated: bool)
    returns (q: nat, more: bool, r: nat)
    requires p <= |b| && ParseElements(b, p, d, lim, items, truncated).Ok?
    ensures p < q < r <= |b| && Separator(b, q, RBRACKET) == Ok(more, r)
    ensures |items| < lim.maxArrayInspect ==> var v := ParseValue(b, p, d, lim);
      v.Ok? && v.pos == q
      && ParseElements(b, p, d, lim, items, truncated)
         == if more then ParseElements(b, r, d, lim, items + [v.value], truncated)
           else Ok(Array(items + [v.value], truncated), r)
    ensures |items| >= lim.maxArrayInspect ==>
      SkipValue(b, p, d, lim).Ok? && SkipValue(b, p, d, lim).pos == q
      && ParseElements(b, p, d, lim, items, truncated)
         == if more then ParseElements(b, r, d, lim, items, true) else Ok(Array(items, true), r)
  {
    hide ParseValue, SkipValue, Separator;
    q := if |items| < lim.maxArrayInspect then ParseValue(b, p, d, lim).pos else SkipValue(b, p, d, lim).pos;
    more, r := Separator(b, q, RBRACKET).value, Separator(b, q, RBRACKET).pos;
  }

  /** An element and what follows it make a list of elements. */
  lemma ElementOk(es: Elements, d: nat, lim: Limits, k: nat, items: seq<Node>)
    requires ValueOk(es.v) && Blank(es.ws) && Fits(es.v, d, lim, k > 0)
    requires es.MoreElements? ==> ElementsOk(es.rest) && ElementsFit(es.rest, d, lim, if k > 0 then k - 1 else 0)
    ensures ElementsOk(es) && ElementsFit(es, d, lim, k)
    ensures Count(es) == if es.LastElement? then 1 else 1 + Count(es.rest)
    ensures k == 0 ==>
      items + ElementNodes(es, lim, k) == items && (es.MoreElements? ==> items + ElementNodes(es.rest, lim, 0) == items)
    ensures k > 0 && es.LastElement? ==> items + [Denote(es.v, lim)] == items + ElementNodes(es, lim, k)
    ensures k > 0 && es.MoreElements? ==>
      items + [Denote(es.v, lim)] + ElementNodes(es.rest, lim, k - 1) == items + ElementNodes(es, lim, k)
  {
    hide ValueOk, Fits, Denote, Blank;
  }

  lemma {:induction false} ParseElementsSound(
    b: seq<byte>, p: nat, d: nat, lim: Limits, items: seq<Node>, truncated: bool) returns (es: Elements)
    requires p <= |b| && |items| <= lim.maxArrayInspect && ParseElements(b, p, d, lim, items, truncated).Ok?
    ensures ElementsOk(es) && TextAt(b, p, ElementsText(es)) && ElementsFit(es, d, lim, lim.maxArrayInspect - |items|)
    ensures var k := lim.maxArrayInspect - |items|;
      ParseElements(b, p, d, lim, items, truncated)
      == Ok(Array(items + ElementNodes(es, lim, k), truncated || Count(es) > k), p + |ElementsText(es)|)
    decreases |b| - p, 3
  {
    hide *;
    var q, more, r := ElementParts(b, p, d, lim, items, truncated);
    SeparatorSound(b, q, RBRACKET);
    var k := lim.maxArrayInspect - |items|;
    var v: Value;
    if k > 0 {
      v := ParseSound(b, p, d, lim);
    } else {
      v := SkipSound(b, p, d, lim);
    }
    var items' := if k > 0 then items + [Denote(v, lim)] else items;
    if more {
      var rest := ParseElementsSound(b, r, d, lim, items', if k > 0 then truncated else true);
      es := MoreElements(v, WsText(b, q), rest);
    } else {
      es := LastElement(v, WsText(b, q));
    }
    ElementOk(es, d, lim, k, items);
    ElementsJoin(b, p, es);
  }

  lemma DistinctMore(fields: seq<Field>, f: Field)
    requires Distinct(fields) && f.key !in Keys(fields)
    ensures Distinct(fields + [f])
  {
    var all := fields + [f];
    forall i, j | 0 <= i < j < |all|
      ensures all[i].key != all[j].key
    {
      assert all[i] in fields;
    }
  }

  /** What a member loop that succeeded went through. */
  lemma MemberParts(b: seq<byte>, p: nat, d: nat, lim: Limits, fields: seq<Field>)
    returns (key: seq<byte>, q1: nat, q2: nat, value: Node, q3: nat, more: bool, q4: nat)
    requires p <= |b| && ParseMembers(b, p, d, lim, fields).Ok?
    ensures p < q1 < q2 < q3 < q4 <= |b|
    ensures ParseMemberKey(b, p, lim) == Ok(key, q1) && key !in Keys(fields)
    ensures ExpectColon(b, q1).Ok? && ExpectColon(b, q1).pos == q2
    ensures ParseValue(b, q2, d, lim) == Ok(value, q3)
    ensures |fields| + 1 <= lim.maxFieldsPerObject && Separator(b, q3, RBRACE) == Ok(more, q4)
    ensures ParseMembers(b, p, d, lim, fields)
         == if more then ParseMembers(b, q4, d, lim, fields + [Field(key, value)])
           else Ok(Object(fields + [Field(key, value)]), q4)
  {
    hide ParseMemberKey, ExpectColon, ParseValue, Separator, Keys;
    var k := ParseMemberKey(b, p, lim);
    var c := ExpectColon(b, k.pos);
    var v := ParseValue(b, c.pos, d, lim);
    var s := Separator(b, v.pos, RBRACE);
    key, q1, q2, value, q3, more, q4 := k.value, k.pos, c.pos, v.value, v.pos, s.value, s.pos;
  }

  lemma MemberOk(ms: Members, d: nat, lim: Limits, fields: seq<Field>)
    requires Blank(ms.m.ws) && StringOk(ms.m.key) && Blank(ms.m.colonWs) && ValueOk(ms.m.v) && Blank(ms.m.endWs)
    requires |StringBytes(ms.m.key)| <= lim.maxKeyLen && Fits(ms.m.v, d, lim, true)
    requires ms.MoreMembers? ==> MembersOk(ms.rest) && MembersFit(ms.rest, d, lim, true)
    ensures MembersOk(ms) && MembersFit(ms, d, lim, true)
    ensures var f := Field(StringBytes(ms.m.key), Denote(ms.m.v, lim));
      fields + MemberFields(ms, lim) == fields + [f] + if ms.LastMember? then [] else MemberFields(ms.rest, lim)
  {
    hide ValueOk, Fits, Denote, StringBytes, Blank, StringOk;
  }

  /** A member's parts and what follows it make a list of members. */
  lemma Assemble(b: seq<byte>, p: nat, ms: Members, d: nat, lim: Limits, fields: seq<Field>)
    requires Blank(ms.m.ws) && StringOk(ms.m.key) && Blank(ms.m.colonWs) && ValueOk(ms.m.v) && Blank(ms.m.endWs)
    requires |StringBytes(ms.m.key)| <= lim.maxKeyLen && Fits(ms.m.v, d, lim, true)
    requires ms.MoreMembers? ==> MembersOk(ms.rest) && MembersFit(ms.rest, d, lim, true)
    requires TextAt(b, p, ms.m.ws)
    requires var q := p + |ms.m.ws|; TextAt(b, q, Quoted(ms.m.key))
    requires var q := p + |ms.m.ws| + |Quoted(ms.m.key)|; TextAt(b, q, ms.m.colonWs)
    requires var q := p + |ms.m.ws| + |Quoted(ms.m.key)| + |ms.m.colonWs|; TextAt(b, q, [COLON])
    requires var q := p + |ms.m.ws| + |Quoted(ms.m.key)| + |ms.m.colonWs| + 1; TextAt(b, q, ValueText(ms.m.v))
    requires var q := p + |ms.m.ws| + |Quoted(ms.m.key)| + |ms.m.colonWs| + 1 + |ValueText(ms.m.v)|;
      TextAt(b, q, ms.m.endWs)
    requires var q := p + |ms.m.ws| + |Quoted(ms.m.key)| + |ms.m.colonWs| + 1 + |ValueText(ms.m.v)| + |ms.m.endWs|;
      TextAt(b, q, [if ms.LastMember? then RBRACE else COMMA])
        && (ms.MoreMembers? ==> TextAt(b, q + 1, MembersText(ms.rest)))
    ensures MembersOk(ms) && MembersFit(ms, d, lim, true) && TextAt(b, p, MembersText(ms))
    ensures |MembersText(ms)|
      == |ms.m.ws| + |Quoted(ms.m.key)| + |ms.m.colonWs| + 1 + |ValueText(ms.m.v)| + |ms.m.endWs| + 1
                                 + if ms.LastMember? then 0 else |MembersText(ms.rest)|
    ensures var f := Field(StringBytes(ms.m.key), Denote(ms.m.v, lim));
      fields + MemberFields(ms, lim) == fields + [f] + if ms.LastMember? then [] else MemberFields(ms.rest, lim)
  {
    hide *;
    MemberOk(ms, d, lim, fields);
    AfterColonJoin(b, p + |ms.m.ws| + |Quoted(ms.m.key)| + |ms.m.colonWs| + 1, ms);
    MembersJoin(b, p, ms);
  }

  lemma {:induction false} ParseMembersSound(b: seq<byte>, p: nat, d: nat, lim: Limits, fields: seq<Field>)
    returns (ms: Members)
    requires p <= |b| && ParseMembers(b, p, d, lim, fields).Ok? && Distinct(fields)
    ensures MembersOk(ms) && TextAt(b, p, MembersText(ms)) && MembersFit(ms, d, lim, true)
    ensures |fields + MemberFields(ms, lim)| <= lim.maxFieldsPerObject && Distinct(fields + MemberFields(ms, lim))
    ensures ParseMembers(b, p, d, lim, fields) == Ok(Object(fields + MemberFields(ms, lim)), p + |MembersText(ms)|)
    decreases |b| - p, 0
  {
    hide *;
    var key, q1, q, value, q2, more, q3 := MemberParts(b, p, d, lim, fields);
    var ws, ps, colonWs := HeadSound(b, p, lim);
    var v := ParseSound(b, q, d, lim);
    SeparatorSound(b, q2, RBRACE);
    var m := Member(ws, ps, colonWs, v, WsText(b, q2));
    var f := Field(key, value);
    DistinctMore(fields, f);
    if more {
      var rest := ParseMembersSound(b, q3, d, lim, fields + [f]);
      ms := MoreMembers(m, rest);
      Assemble(b, p, ms, d, lim, fields);
    } else {
      ms := LastMember(m);
      Assemble(b, p, ms, d, lim, fields);
      assert fields + [f] + [] == fields + [f];
    }
  }
}
