/** JSON texts after sections 2 to 7 of RFC 8259, as concrete syntax trees: what text a tree
    spells, which bounds it meets and which document it denotes. Nothing here looks at a parser. */
module Grammar {
  import opened Utf8
  import opened Json

  /** One step of a string literal's body. `Pair` is a surrogate pair. */
  datatype Piece =
    | Raw(b: byte)
    | Escape(c: byte)
    | Unicode(h: seq<byte>)
    | Pair(hi: seq<byte>, lo: seq<byte>)

  datatype Fraction = NoFraction | Fraction(digits: seq<byte>)
  datatype Exponent = NoExponent | Exponent(e: byte, sign: seq<byte>, digits: seq<byte>)
  datatype NumberText = NumberText(minus: bool, whole: seq<byte>, frac: Fraction, exp: Exponent)

  /** A value with the whitespace before it. */
  datatype Value = Value(ws: seq<byte>, core: Core)

  datatype Core =
    | NullLit | TrueLit | FalseLit
    | Num(n: NumberText)
    | Str(pieces: seq<Piece>)
    | EmptyArr(ws: seq<byte>)
    | Arr(elements: Elements)
    | EmptyObj(ws: seq<byte>)
    | Obj(members: Members)

  /** Elements up to and including the closing bracket; `ws` stands before the comma or bracket. */
  datatype Elements =
    | LastElement(v: Value, ws: seq<byte>)
    | MoreElements(v: Value, ws: seq<byte>, rest: Elements)

  datatype Member = Member(ws: seq<byte>, key: seq<Piece>, colonWs: seq<byte>, v: Value, endWs: seq<byte>)

  datatype Members =
    | LastMember(m: Member)
    | MoreMembers(m: Member, rest: Members)

  // ---- strings ----

  predicate IsHex4(h: seq<byte>) {
    |h| == 4 && AllHex(h)
  }

  predicate PieceOk(t: Piece) {
    match t
    case Raw(b) => b >= 0x20 && b != QUOTE && b != BACKSLASH
    case Escape(c) => IsEscape(c)
    case Unicode(h) => IsHex4(h) && !(0xD800 <= HexNumber(h) < 0xE000)
    case Pair(hi, lo) =>
      && IsHex4(hi) && 0xD800 <= HexNumber(hi) < 0xDC00
      && IsHex4(lo) && 0xDC00 <= HexNumber(lo) < 0xE000
  }

  /** What follows the first `\u` of a Unicode escape. */
  function UnicodeTail(t: Piece): seq<byte>
    requires t.Unicode? || t.Pair?
  {
    if t.Unicode? then t.h else t.hi + ([BACKSLASH, LOWER_U] + t.lo)
  }

  function PieceText(t: Piece): seq<byte> {
    match t
    case Raw(b) => [b]
    case Escape(c) => [BACKSLASH, c]
    case _ => [BACKSLASH, LOWER_U] + UnicodeTail(t)
  }

  lemma Hex4Bound(h: seq<byte>)
    requires IsHex4(h)
    ensures HexNumber(h) <= 0xFFFF
  {
    assert HexNumber(h[..1]) == HexValue(h[0]) by { assert h[..1][..0] == []; assert HexNumber([]) == 0; }
    assert h[..2][..1] == h[..1] && h[..3][..2] == h[..2] && h[..4] == h;
    assert HexNumber(h[..2]) <= 0xFF;
    assert HexNumber(h[..3]) <= 0xFFF;
  }

  /** The bytes a piece stands for. */
  function PieceBytes(t: Piece): seq<byte>
    requires PieceOk(t)
  {
    match t
    case Raw(b) => [b]
    case Escape(c) => [EscapeValue(c)]
    case Unicode(h) => Hex4Bound(h); EncodeScalar(HexNumber(h))
    case Pair(hi, lo) => EncodeScalar(0x1_0000 + (HexNumber(hi) - 0xD800) * 1024 + (HexNumber(lo) - 0xDC00))
  }

  function StringText(ps: seq<Piece>): seq<byte> {
    if ps == [] then [] else PieceText(ps[0]) + StringText(ps[1..])
  }

  predicate PiecesOk(ps: seq<Piece>) {
    ps == [] || (PieceOk(ps[0]) && PiecesOk(ps[1..]))
  }

  function StringBytes(ps: seq<Piece>): seq<byte>
    requires PiecesOk(ps)
  {
    if ps == [] then [] else PieceBytes(ps[0]) + StringBytes(ps[1..])
  }

  /** Surrogates are paired and the decoded bytes are UTF-8. */
  predicate StringOk(ps: seq<Piece>) {
    PiecesOk(ps) && ValidUtf8(StringBytes(ps))
  }

  // ---- numbers ----

  predicate IsDigits(s: seq<byte>) {
    s != [] && forall i | 0 <= i < |s| :: IsDigit(s[i])
  }

  predicate NumberOk(n: NumberText) {
    && (n.whole == [ZERO] || (IsDigits(n.whole) && n.whole[0] != ZERO))
    && (n.frac.Fraction? ==> IsDigits(n.frac.digits))
    && (n.exp.Exponent? ==>
          && (n.exp.e == LOWER_E || n.exp.e == UPPER_E)
          && (n.exp.sign == [] || n.exp.sign == [PLUS] || n.exp.sign == [MINUS])
          && IsDigits(n.exp.digits))
  }

  function FractionText(f: Fraction): seq<byte> {
    if f.NoFraction? then [] else [DOT] + f.digits
  }

  function ExponentText(e: Exponent): seq<byte> {
    if e.NoExponent? then [] else [e.e] + e.sign + e.digits
  }

  function MinusText(minus: bool): seq<byte> {
    if minus then [MINUS] else []
  }

  function NumText(n: NumberText): seq<byte> {
    MinusText(n.minus) + n.whole + FractionText(n.frac) + ExponentText(n.exp)
  }

  // ---- values ----

  predicate Blank(ws: seq<byte>) {
    forall i | 0 <= i < |ws| :: IsWs(ws[i])
  }

  predicate ValueOk(v: Value) {
    Blank(v.ws) &&
    match v.core
    case NullLit => true
    case TrueLit => true
    case FalseLit => true
    case Num(n) => NumberOk(n)
    case Str(ps) => StringOk(ps)
    case EmptyArr(ws) => Blank(ws)
    case Arr(es) => ElementsOk(es)
    case EmptyObj(ws) => Blank(ws)
    case Obj(ms) => MembersOk(ms)
  }

  predicate ElementsOk(es: Elements) {
    && ValueOk(es.v) && Blank(es.ws)
    && (es.MoreElements? ==> ElementsOk(es.rest))
  }

  predicate MembersOk(ms: Members) {
    && Blank(ms.m.ws) && StringOk(ms.m.key) && Blank(ms.m.colonWs)
    && ValueOk(ms.m.v) && Blank(ms.m.endWs)
    && (ms.MoreMembers? ==> MembersOk(ms.rest))
  }

  function ValueText(v: Value): seq<byte> {
    v.ws +
    match v.core
    case NullLit => NULL_TEXT
    case TrueLit => TRUE_TEXT
    case FalseLit => FALSE_TEXT
    case Num(n) => NumText(n)
    case Str(ps) => Quoted(ps)
    case EmptyArr(ws) => [LBRACKET] + ws + [RBRACKET]
    case Arr(es) => [LBRACKET] + ElementsText(es)
    case EmptyObj(ws) => [LBRACE] + ws + [RBRACE]
    case Obj(ms) => [LBRACE] + MembersText(ms)
  }

  function ElementsText(es: Elements): seq<byte> {
    ValueText(es.v) + (es.ws +
    if es.LastElement? then [RBRACKET] else [COMMA] + ElementsText(es.rest))
  }

  /** A string literal. */
  function Quoted(ps: seq<Piece>): seq<byte> {
    [QUOTE] + StringText(ps) + [QUOTE]
  }

  function MembersText(ms: Members): seq<byte> {
    ms.m.ws + (Quoted(ms.m.key) + (ms.m.colonWs + ([COLON] + (ValueText(ms.m.v) + (ms.m.endWs +
    if ms.LastMember? then [RBRACE] else [COMMA] + MembersText(ms.rest))))))
  }

  // ---- the document a tree denotes ----

  function Denote(v: Value, lim: Limits): Node
    requires ValueOk(v)
  {
    match v.core
    case NullLit => Null
    case TrueLit => Bool(true)
    case FalseLit => Bool(false)
    case Num(n) => Number(NumText(n))
    case Str(ps) => String(StringBytes(ps))
    case EmptyArr(_) => Array([], false)
    case Arr(es) => Array(ElementNodes(es, lim, lim.maxArrayInspect), Count(es) > lim.maxArrayInspect)
    case EmptyObj(_) => Object([])
    case Obj(ms) => Object(MemberFields(ms, lim))
  }

  function Count(es: Elements): nat {
    if es.LastElement? then 1 else 1 + Count(es.rest)
  }

  /** The first `k` elements. */
  function ElementNodes(es: Elements, lim: Limits, k: nat): (ns: seq<Node>)
    requires ElementsOk(es)
    ensures |ns| == if Count(es) < k then Count(es) else k
  {
    if k == 0 then []
    else [Denote(es.v, lim)] + if es.LastElement? then [] else ElementNodes(es.rest, lim, k - 1)
  }

  function MemberFields(ms: Members, lim: Limits): (fs: seq<Field>)
    requires MembersOk(ms)
  {
    [Field(StringBytes(ms.m.key), Denote(ms.m.v, lim))]
    + if ms.LastMember? then [] else MemberFields(ms.rest, lim)
  }

  // ---- the bounds ----

  predicate Distinct(fields: seq<Field>) {
    forall i, j | 0 <= i < j < |fields| :: fields[i].key != fields[j].key
  }

  /** `v`, standing inside `d` containers, meets every bound. Only inspected objects are held
      to the field count and to distinct keys; of an inspected array only the first
      `maxArrayInspect` elements are inspected. */
  predicate Fits(v: Value, d: nat, lim: Limits, inspected: bool)
    requires ValueOk(v)
  {
    match v.core
    case NullLit => true
    case TrueLit => true
    case FalseLit => true
    case Num(_) => true
    case Str(ps) => |StringBytes(ps)| <= lim.maxStringLen
    case EmptyArr(_) => d < lim.maxDepth
    case Arr(es) => d < lim.maxDepth && ElementsFit(es, d + 1, lim, if inspected then lim.maxArrayInspect else 0)
    case EmptyObj(_) => d < lim.maxDepth
    case Obj(ms) =>
      && d < lim.maxDepth
      && MembersFit(ms, d + 1, lim, inspected)
      && (inspected ==>
            && |MemberFields(ms, lim)| <= lim.maxFieldsPerObject
            && Distinct(MemberFields(ms, lim)))
  }

  predicate ElementsFit(es: Elements, d: nat, lim: Limits, k: nat)
    requires ElementsOk(es)
  {
    && Fits(es.v, d, lim, k > 0)
    && (es.MoreElements? ==> ElementsFit(es.rest, d, lim, if k > 0 then k - 1 else 0))
  }

  predicate MembersFit(ms: Members, d: nat, lim: Limits, inspected: bool)
    requires MembersOk(ms)
  {
    && |StringBytes(ms.m.key)| <= lim.maxKeyLen
    && Fits(ms.m.v, d, lim, inspected)
    && (ms.MoreMembers? ==> MembersFit(ms.rest, d, lim, inspected))
  }

  /** A whole JSON text: a value and the whitespace after it. */
  datatype Document = Document(v: Value, ws: seq<byte>)

  predicate DocumentOk(doc: Document) {
    ValueOk(doc.v) && Blank(doc.ws)
  }

  function DocumentText(doc: Document): seq<byte> {
    ValueText(doc.v) + doc.ws
  }

  /** `b` is a JSON text within `lim`, and it denotes `n`. */
  ghost predicate Accepts(b: seq<byte>, lim: Limits, n: Node) {
    && |b| <= lim.maxBytes
    && exists doc: Document ::
         && DocumentOk(doc) && DocumentText(doc) == b
         && Fits(doc.v, 0, lim, true) && Denote(doc.v, lim) == n
  }
}
