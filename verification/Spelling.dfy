/** One string has many spellings: what an escape stands for, and that it does not matter which is used. */
module Spelling {
  import opened Options
  import opened Utf8
  import opened Json
  import opened ParseSpec
  import opened Grammar
  import opened Canon
  import opened Completeness
  import opened Verdicts

  // ---- two spellings of one character ----

  lemma {:induction false} HexSnoc(h: seq<byte>, c: byte)
    requires AllHex(h) && IsHex(c)
    ensures AllHex(h + [c]) && HexNumber(h + [c]) == HexNumber(h) * 16 + HexValue(c)
  {
    hide HexValue, IsHex;
    assert (h + [c])[..|h|] == h;
  }

  lemma {:induction false} FourDigits(h: seq<byte>)
    requires IsHex4(h)
    ensures HexNumber(h) == ((HexValue(h[0]) * 16 + HexValue(h[1])) * 16 + HexValue(h[2])) * 16 + HexValue(h[3])
  {
    hide HexValue, IsHex, HexNumber;
    NoDigits();
    HexSnoc([], h[0]);
    HexSnoc([] + [h[0]], h[1]);
    HexSnoc([] + [h[0]] + [h[1]], h[2]);
    HexSnoc([] + [h[0]] + [h[1]] + [h[2]], h[3]);
    assert h == [] + [h[0]] + [h[1]] + [h[2]] + [h[3]];
  }

  lemma NoDigits()
    ensures HexNumber([]) == 0
  {
  }

  /** The four digits that stand for the same as a backslash and this letter: backspace for `b`, form feed
      for `f`, line feed for `n`, carriage return for `r`, tab for `t`, and itself for a quote, a backslash
      and a slash. */
  function Longhand(c: byte): Option<seq<byte>> {
    if c == 0x62 then Some([0x30, 0x30, 0x30, 0x38])
    else if c == 0x66 then Some([0x30, 0x30, 0x30, 0x63])
    else if c == 0x6E then Some([0x30, 0x30, 0x30, 0x61])
    else if c == 0x72 then Some([0x30, 0x30, 0x30, 0x64])
    else if c == 0x74 then Some([0x30, 0x30, 0x30, 0x39])
    else if c == 0x22 then Some([0x30, 0x30, 0x32, 0x32])
    else if c == 0x5C then Some([0x30, 0x30, 0x35, 0x63])
    else if c == 0x2F then Some([0x30, 0x30, 0x32, 0x66])
    else None
  }

  /** These letters are all the short escapes there are, and each means what its digits mean. */
  lemma {:induction false} ShortEscapes(c: byte)
    ensures PieceOk(Escape(c)) <==> Longhand(c).Some?
    ensures Longhand(c).Some? ==>
      PieceOk(Unicode(Longhand(c).value)) && PieceBytes(Escape(c)) == PieceBytes(Unicode(Longhand(c).value))
  {
    if Longhand(c).Some? {
      FourDigits(Longhand(c).value);
    }
    hide HexNumber;
  }

  /** One digit, in either case. */
  predicate SameDigit(c: byte, d: byte) {
    c == d || (0x61 <= c <= 0x66 && d == c - 0x20) || (0x61 <= d <= 0x66 && c == d - 0x20)
  }

  predicate SameDigits(g: seq<byte>, h: seq<byte>) {
    |g| == |h| == 4 && forall i | 0 <= i < 4 :: SameDigit(g[i], h[i])
  }

  lemma {:induction false} SameValue(c: byte, d: byte)
    requires SameDigit(c, d)
    ensures IsHex(c) <==> IsHex(d)
    ensures IsHex(c) ==> HexValue(c) == HexValue(d)
  {
  }

  lemma {:induction false} SameNumber(g: seq<byte>, h: seq<byte>)
    requires SameDigits(g, h)
    ensures IsHex4(g) <==> IsHex4(h)
    ensures IsHex4(g) ==> HexNumber(g) == HexNumber(h)
  {
    hide IsHex, HexValue, HexNumber, SameDigit;
    forall i | 0 <= i < 4
      ensures IsHex(g[i]) <==> IsHex(h[i])
      ensures IsHex(g[i]) ==> HexValue(g[i]) == HexValue(h[i])
    {
      SameValue(g[i], h[i]);
    }
    if IsHex4(g) {
      FourDigits(g);
      FourDigits(h);
    }
  }

  /** The case of hexadecimal digits does not matter. */
  lemma {:induction false} DigitCase(s: Piece, t: Piece)
    requires s.Unicode? && t.Unicode? ==> SameDigits(s.h, t.h)
    requires s.Pair? && t.Pair? ==> SameDigits(s.hi, t.hi) && SameDigits(s.lo, t.lo)
    requires (s.Unicode? && t.Unicode?) || (s.Pair? && t.Pair?)
    ensures PieceOk(s) <==> PieceOk(t)
    ensures PieceOk(s) ==> PieceBytes(s) == PieceBytes(t)
  {
    hide HexNumber, IsHex4, SameDigits, EncodeScalar;
    if s.Unicode? {
      SameNumber(s.h, t.h);
    } else {
      SameNumber(s.hi, t.hi);
      SameNumber(s.lo, t.lo);
    }
  }

  /** A number below 65536 in four digits. */
  function Hex4(v: nat): (h: seq<byte>)
    requires v < 0x1_0000
    ensures |h| == 4
  {
    [LowerHex(v / 4096), LowerHex(v / 256 % 16), LowerHex(v / 16 % 16), LowerHex(v % 16)]
  }

  lemma {:induction false} Hex4Number(v: nat)
    requires v < 0x1_0000
    ensures IsHex4(Hex4(v)) && HexNumber(Hex4(v)) == v
  {
    hide HexValue, IsHex, HexNumber;
    FourDigits(Hex4(v));
    Base16(v);
  }

  lemma Base16(v: nat)
    ensures ((v / 4096 * 16 + v / 256 % 16) * 16 + v / 16 % 16) * 16 + v % 16 == v
  {
    assert v / 256 == v / 16 / 16 && v / 4096 == v / 256 / 16;
  }

  function RawPieces(bytes: seq<byte>): seq<Piece> {
    if bytes == [] then [] else [Raw(bytes[0])] + RawPieces(bytes[1..])
  }

  lemma {:induction false} RawBytes(bytes: seq<byte>)
    requires forall i | 0 <= i < |bytes| :: bytes[i] >= 0x20 && bytes[i] != 0x22 && bytes[i] != 0x5C
    ensures PiecesOk(RawPieces(bytes)) && StringBytes(RawPieces(bytes)) == bytes
    ensures StringText(RawPieces(bytes)) == bytes
    decreases |bytes|
  {
    if bytes != [] {
      RawBytes(bytes[1..]);
      assert RawPieces(bytes)[1..] == RawPieces(bytes[1..]);
      assert bytes == [bytes[0]] + bytes[1..];
    }
  }

  /** The spelling of a character by its number: one escape, or a pair of them beyond the first 65536. */
  function ByNumber(c: Scalar): Piece {
    if c < 0x1_0000 then Unicode(Hex4(c))
    else Pair(Hex4(0xD800 + (c - 0x1_0000) / 1024), Hex4(0xDC00 + (c - 0x1_0000) % 1024))
  }

  lemma PlainBytes(c: Scalar)
    requires c >= 0x20 && c != 0x22 && c != 0x5C
    ensures forall i | 0 <= i < |EncodeScalar(c)| ::
      var e := EncodeScalar(c)[i]; e >= 0x20 && e != 0x22 && e != 0x5C
  {
  }

  /** Any character may be spelled by its number, and any but the control characters, the quote and the
      backslash as it is, to the same effect. */
  lemma {:induction false} ByNumberOrRaw(c: Scalar)
    ensures PieceOk(ByNumber(c)) && PieceBytes(ByNumber(c)) == EncodeScalar(c)
    ensures c >= 0x20 && c != 0x22 && c != 0x5C ==>
      && PiecesOk(RawPieces(EncodeScalar(c))) && StringText(RawPieces(EncodeScalar(c))) == EncodeScalar(c)
      && StringBytes(RawPieces(EncodeScalar(c))) == PieceBytes(ByNumber(c))
  {
    hide HexNumber, IsHex4, Hex4, EncodeScalar, RawPieces, StringText;
    if c < 0x1_0000 {
      Hex4Number(c);
    } else {
      Hex4Number(0xD800 + (c - 0x1_0000) / 1024);
      Hex4Number(0xDC00 + (c - 0x1_0000) % 1024);
    }
    if c >= 0x20 && c != 0x22 && c != 0x5C {
      PlainBytes(c);
      RawBytes(EncodeScalar(c));
    }
  }

  // ---- texts that differ only in spelling ----

  /** The same value, apart from whitespace and the spelling of strings. */
  predicate SameBut(v: Value, w: Value)
    requires ValueOk(v) && ValueOk(w)
  {
    match (v.core, w.core)
    case (NullLit, NullLit) => true
    case (TrueLit, TrueLit) => true
    case (FalseLit, FalseLit) => true
    case (Num(m), Num(n)) => NumText(m) == NumText(n)
    case (Str(ps), Str(qs)) => StringBytes(ps) == StringBytes(qs)
    case (EmptyArr(_), EmptyArr(_)) => true
    case (EmptyObj(_), EmptyObj(_)) => true
    case (Arr(es), Arr(fs)) => SameElements(es, fs)
    case (Obj(ms), Obj(ns)) => SameMembers(ms, ns)
    case _ => false
  }

  predicate SameElements(es: Elements, fs: Elements)
    requires ElementsOk(es) && ElementsOk(fs)
  {
    && SameBut(es.v, fs.v) && es.LastElement? == fs.LastElement?
    && (es.MoreElements? ==> SameElements(es.rest, fs.rest))
  }

  predicate SameMembers(ms: Members, ns: Members)
    requires MembersOk(ms) && MembersOk(ns)
  {
    && StringBytes(ms.m.key) == StringBytes(ns.m.key) && SameBut(ms.m.v, ns.m.v) && ms.LastMember? == ns.LastMember?
    && (ms.MoreMembers? ==> SameMembers(ms.rest, ns.rest))
  }

  lemma {:induction false} SameVerdict(v: Value, w: Value, d: nat, lim: Limits, inspected: bool)
    requires ValueOk(v) && ValueOk(w) && SameBut(v, w)
    ensures Verdict(v, d, lim, inspected) == Verdict(w, d, lim, inspected) && Denote(v, lim) == Denote(w, lim)
    decreases v
  {
    hide StringBytes, NumText;
    match v.core
    case Arr(es) =>
      SameElementVerdicts(es, w.core.elements, d + 1, lim, if inspected then lim.maxArrayInspect else 0);
      SameElementNodes(es, w.core.elements, lim, lim.maxArrayInspect);
    case Obj(ms) =>
      SameMemberVerdicts(ms, w.core.members, d + 1, lim, inspected, {}, 0);
    case _ =>
  }

  lemma {:induction false} SameElementVerdicts(es: Elements, fs: Elements, d: nat, lim: Limits, k: nat)
    requires ElementsOk(es) && ElementsOk(fs) && SameElements(es, fs)
    ensures ElementsVerdict(es, d, lim, k) == ElementsVerdict(fs, d, lim, k) && Count(es) == Count(fs)
    decreases es
  {
    hide Verdict, Denote, SameBut;
    SameVerdict(es.v, fs.v, d, lim, k > 0);
    if es.MoreElements? {
      SameElementVerdicts(es.rest, fs.rest, d, lim, if k > 0 then k - 1 else 0);
    }
  }

  lemma {:induction false} SameElementNodes(es: Elements, fs: Elements, lim: Limits, k: nat)
    requires ElementsOk(es) && ElementsOk(fs) && SameElements(es, fs)
    ensures ElementNodes(es, lim, k) == ElementNodes(fs, lim, k)
    decreases es
  {
    hide Verdict, Denote, SameBut;
    SameVerdict(es.v, fs.v, 0, lim, true);
    if es.MoreElements? && k > 0 {
      SameElementNodes(es.rest, fs.rest, lim, k - 1);
    }
  }

  lemma {:induction false} SameMemberVerdicts(
    ms: Members, ns: Members, d: nat, lim: Limits, inspected: bool, keys: set<seq<byte>>, count: nat)
    requires MembersOk(ms) && MembersOk(ns) && SameMembers(ms, ns)
    ensures MembersVerdict(ms, d, lim, inspected, keys, count) == MembersVerdict(ns, d, lim, inspected, keys, count)
    ensures MemberFields(ms, lim) == MemberFields(ns, lim)
    decreases ms
  {
    hide Verdict, Denote, SameBut, StringBytes;
    SameVerdict(ms.m.v, ns.m.v, d, lim, inspected);
    if ms.MoreMembers? {
      SameMemberVerdicts(ms.rest, ns.rest, d, lim, inspected, keys + {StringBytes(ms.m.key)}, count + 1);
    }
  }

  /** Texts that differ only in whitespace and in the spelling of strings get one and the same answer,
      the same document or the same reason, when both keep the size bound. */
  lemma {:induction false} SpellingIrrelevant(doc: Document, doc': Document, lim: Limits)
    requires DocumentOk(doc) && DocumentOk(doc') && SameBut(doc.v, doc'.v)
    requires |DocumentText(doc)| <= lim.maxBytes && |DocumentText(doc')| <= lim.maxBytes
    ensures ParseBounded(DocumentText(doc), lim) == ParseBounded(DocumentText(doc'), lim)
  {
    hide ParseBounded, DocumentText, SameBut, ValueOk, Verdict, Denote;
    AnswersText(doc, lim);
    AnswersText(doc', lim);
    SameVerdict(doc.v, doc'.v, 0, lim, true);
  }

  // ---- escapes written out ----

  function LongPieces(ps: seq<Piece>): seq<Piece> {
    if ps == [] then []
    else
      var t := ps[0];
      [if t.Escape? && Longhand(t.c).Some? then Unicode(Longhand(t.c).value) else t] + LongPieces(ps[1..])
  }

  function LongValue(v: Value): Value {
    match v.core
    case Str(ps) => Value(v.ws, Str(LongPieces(ps)))
    case Arr(es) => Value(v.ws, Arr(LongElements(es)))
    case Obj(ms) => Value(v.ws, Obj(LongMembers(ms)))
    case _ => v
  }

  function LongElements(es: Elements): Elements {
    match es
    case LastElement(v, ws) => LastElement(LongValue(v), ws)
    case MoreElements(v, ws, rest) => MoreElements(LongValue(v), ws, LongElements(rest))
  }

  function LongMember(m: Member): Member {
    Member(m.ws, LongPieces(m.key), m.colonWs, LongValue(m.v), m.endWs)
  }

  function LongMembers(ms: Members): Members {
    match ms
    case LastMember(m) => LastMember(LongMember(m))
    case MoreMembers(m, rest) => MoreMembers(LongMember(m), LongMembers(rest))
  }

  lemma {:induction false} LongString(ps: seq<Piece>)
    requires PiecesOk(ps)
    ensures PiecesOk(LongPieces(ps)) && StringBytes(LongPieces(ps)) == StringBytes(ps)
    decreases |ps|
  {
    if ps != [] {
      hide PieceOk, PieceBytes, Longhand;
      LongString(ps[1..]);
      var qs := LongPieces(ps);
      assert qs[1..] == LongPieces(ps[1..]);
      if ps[0].Escape? {
        ShortEscapes(ps[0].c);
      }
    }
  }

  lemma {:induction false} LongSame(v: Value)
    requires ValueOk(v)
    ensures ValueOk(LongValue(v)) && SameBut(v, LongValue(v))
    decreases v
  {
    hide PiecesOk, StringBytes, LongPieces, NumberOk, Blank, ValidUtf8;
    match v.core
    case Str(ps) => LongString(ps);
    case Arr(es) => LongSameElements(es);
    case Obj(ms) => LongSameMembers(ms);
    case _ =>
  }

  lemma {:induction false} LongSameElements(es: Elements)
    requires ElementsOk(es)
    ensures ElementsOk(LongElements(es)) && SameElements(es, LongElements(es))
    decreases es
  {
    hide ValueOk, SameBut, LongValue;
    LongSame(es.v);
    if es.MoreElements? {
      LongSameElements(es.rest);
    }
  }

  lemma {:induction false} LongSameMembers(ms: Members)
    requires MembersOk(ms)
    ensures MembersOk(LongMembers(ms)) && SameMembers(ms, LongMembers(ms))
    decreases ms
  {
    hide ValueOk, SameBut, LongValue, PiecesOk, StringBytes, LongPieces, ValidUtf8, Blank;
    LongString(ms.m.key);
    LongSame(ms.m.v);
    if ms.MoreMembers? {
      LongSameMembers(ms.rest);
    }
  }

  /** Writing every short escape of a text out in four digits changes nothing about its answer. */
  lemma {:induction false} EscapesWrittenOut(doc: Document, lim: Limits)
    requires DocumentOk(doc)
    ensures DocumentOk(Document(LongValue(doc.v), doc.ws))
    ensures var long := Document(LongValue(doc.v), doc.ws);
      |DocumentText(doc)| <= lim.maxBytes && |DocumentText(long)| <= lim.maxBytes ==>
        ParseBounded(DocumentText(long), lim) == ParseBounded(DocumentText(doc), lim)
  {
    hide ParseBounded, DocumentText, SameBut, ValueOk, LongValue, Blank;
    LongSame(doc.v);
    var long := Document(LongValue(doc.v), doc.ws);
    if |DocumentText(doc)| <= lim.maxBytes && |DocumentText(long)| <= lim.maxBytes {
      SpellingIrrelevant(doc, long, lim);
    }
  }

  // ---- strings that are no text ----

  lemma {:induction false} ScanOver(b: seq<byte>, p: nat, ps: seq<Piece>, buf: seq<byte>)
    requires PiecesOk(ps) && TextAt(b, p, StringText(ps))
    ensures p + |StringText(ps)| <= |b|
    ensures ScanString(b, p, buf) == ScanString(b, p + |StringText(ps)|, buf + StringBytes(ps))
    decreases |ps|
  {
    hide ScanString, PieceText, PieceBytes, TextAt;
    InText(b, p, StringText(ps));
    if ps == [] {
      assert buf + [] == buf;
    } else {
      var t := PieceText(ps[0]);
      SplitAt(b, p, t, StringText(ps[1..]));
      PieceAt(b, p, ps[0], buf);
      assert buf + StringBytes(ps) == buf + PieceBytes(ps[0]) + StringBytes(ps[1..]);
      ScanOver(b, p + |t|, ps[1..], buf + PieceBytes(ps[0]));
    }
  }

  lemma StringStarts(b: seq<byte>, lim: Limits)
    requires b != [] && b[0] == QUOTE && |b| <= lim.maxBytes && ScanString(b, 1, []).Fail?
    ensures ParseBounded(b, lim) == Failure(ScanString(b, 1, []).reason)
  {
    hide ScanString;
    assert SkipWs(b, 0) == 0;
  }

  /** A string literal whose bytes are not UTF-8 is rejected for that. */
  lemma {:induction false} NotUtf8(ps: seq<Piece>, rest: seq<byte>, lim: Limits)
    requires PiecesOk(ps) && !ValidUtf8(StringBytes(ps)) && |Quoted(ps) + rest| <= lim.maxBytes
    ensures ParseBounded(Quoted(ps) + rest, lim) == Failure(Utf8Error)
  {
    hide ParseBounded, StringText, StringBytes, ValidUtf8, PiecesOk;
    var b := Quoted(ps) + rest;
    assert TextAt(b, 1, StringText(ps)) && Peek(b, 1 + |StringText(ps)|, QUOTE);
    ScanOver(b, 1, ps, []);
    assert [] + StringBytes(ps) == StringBytes(ps);
    StringStarts(b, lim);
  }

  /** So is half a surrogate pair if it is the second half; a first half without its second is an error of
      the text. */
  lemma {:induction false} LoneSurrogate(ps: seq<Piece>, h: seq<byte>, rest: seq<byte>, lim: Limits)
    requires PiecesOk(ps) && IsHex4(h) && 0xD800 <= HexNumber(h) < 0xE000
    requires HexNumber(h) < 0xDC00 ==> !([BACKSLASH, LOWER_U] <= rest)
    requires var b := [QUOTE] + StringText(ps) + [BACKSLASH, LOWER_U] + h + rest; |b| <= lim.maxBytes
    ensures var b := [QUOTE] + StringText(ps) + [BACKSLASH, LOWER_U] + h + rest;
      ParseBounded(b, lim) == Failure(if HexNumber(h) < 0xDC00 then ParseError else Utf8Error)
  {
    hide ParseBounded, StringText, StringBytes, ValidUtf8, PiecesOk, HexNumber, AllHex;
    var b := [QUOTE] + StringText(ps) + [BACKSLASH, LOWER_U] + h + rest;
    var q := 1 + |StringText(ps)|;
    assert TextAt(b, 1, StringText(ps)) && Peek(b, q, BACKSLASH) && Peek(b, q + 1, LOWER_U) && TextAt(b, q + 2, h);
    assert TextAt(b, q + 6, rest) && |b| == q + 6 + |rest|;
    ScanOver(b, 1, ps, []);
    HexAt(b, q + 2, h);
    LoneEscape(b, q, HexNumber(h), [] + StringBytes(ps));
    StringStarts(b, lim);
  }

  lemma LoneEscape(b: seq<byte>, q: nat, v: nat, buf: seq<byte>)
    requires Peek(b, q, BACKSLASH) && Peek(b, q + 1, LOWER_U) && ReadHex4(b, q + 2) == Ok(v, q + 6)
    requires 0xD800 <= v < 0xE000
    requires v < 0xDC00 ==> !(Peek(b, q + 6, BACKSLASH) && Peek(b, q + 7, LOWER_U))
    ensures ScanString(b, q, buf) == Fail(if v < 0xDC00 then ParseError else Utf8Error)
  {
    hide ReadHex4, EscapeValue;
  }
}
