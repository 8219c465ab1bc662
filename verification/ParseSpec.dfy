/** What each walk of the parser computes, as a function of the input and the start position.
    `Parser` proves its methods equal to these; `Grammar` proves what they accept. */
module ParseSpec {
  import opened Utf8
  import opened Json

  function SkipWs(b: seq<byte>, p: nat): (q: nat)
    requires p <= |b|
    ensures p <= q <= |b|
    ensures q < |b| ==> !IsWs(b[q])
    ensures forall i | p <= i < q :: IsWs(b[i])
    decreases |b| - p
  {
    if p < |b| && IsWs(b[p]) then SkipWs(b, p + 1) else p
  }

  predicate Peek(b: seq<byte>, p: nat, c: byte) {
    p < |b| && b[p] == c
  }

  function SkipLiteral(b: seq<byte>, p: nat, kw: seq<byte>): (r: Parsed<()>)
    requires p <= |b|
    ensures r.Ok? ==> r.pos == p + |kw| <= |b|
  {
    if kw <= b[p..] then Ok((), p + |kw|) else Fail(ParseError)
  }

  function ReadHex4(b: seq<byte>, p: nat): (r: Parsed<nat>)
    requires p <= |b|
    ensures r.Ok? ==> r.pos == p + 4 <= |b|
  {
    if p + 4 <= |b| && AllHex(b[p..p + 4]) then Ok(HexNumber(b[p..p + 4]), p + 4) else Fail(ParseError)
  }

  function ToScalar(v: nat): (r: Result<Scalar>)
  {
    if v < 0xD800 || 0xE000 <= v < 0x11_0000 then Success(v) else Failure(Utf8Error)
  }

  /** A `\u` escape, read from just after the `u`; a high surrogate needs its low partner. */
  function ReadUnicode(b: seq<byte>, p: nat): (r: Parsed<Scalar>)
    requires p <= |b|
    ensures r.Ok? ==> p < r.pos <= |b|
  {
    var (hi, q) :- ReadHex4(b, p);
    if 0xD800 <= hi <= 0xDBFF then
      if !Peek(b, q, BACKSLASH) || !Peek(b, q + 1, LOWER_U) then Fail(ParseError)
      else
        var (lo, q') :- ReadHex4(b, q + 2);
        if !(0xDC00 <= lo <= 0xDFFF) then Fail(ParseError)
        else
          var c := ToScalar(0x1_0000 + (hi - 0xD800) * 1024 + (lo - 0xDC00));
          if c.Failure? then Fail(c.reason) else Ok(c.value, q')
    else
      var c := ToScalar(hi);
      if c.Failure? then Fail(c.reason) else Ok(c.value, q)
  }

  /** The body of a string literal, from just after its opening quote; `buf` is what is decoded so far. */
  function ScanString(b: seq<byte>, p: nat, buf: seq<byte>): (r: Parsed<seq<byte>>)
    requires p <= |b|
    ensures r.Ok? ==> p < r.pos <= |b|
    decreases |b| - p
  {
    if p == |b| then Fail(ParseError)
    else if b[p] == QUOTE then
      if ValidUtf8(buf) then Ok(buf, p + 1) else Fail(Utf8Error)
    else if b[p] == BACKSLASH then
      if p + 1 == |b| then Fail(ParseError)
      else if IsEscape(b[p + 1]) then ScanString(b, p + 2, buf + [EscapeValue(b[p + 1])])
      else if b[p + 1] == LOWER_U then
        var (c, q) :- ReadUnicode(b, p + 2);
        ScanString(b, q, buf + EncodeScalar(c))
      else Fail(ParseError)
    else if b[p] < 0x20 then Fail(ParseError)
    else ScanString(b, p + 1, buf + [b[p]])
  }

  function ParseKey(b: seq<byte>, p: nat, lim: Limits): (r: Parsed<seq<byte>>)
    requires p < |b|
    ensures r.Ok? ==> p < r.pos <= |b|
  {
    var (s, q) :- ScanString(b, p + 1, []);
    if |s| > lim.maxKeyLen then Fail(KeyLengthExceeded) else Ok(s, q)
  }

  function ParseString(b: seq<byte>, p: nat, lim: Limits): (r: Parsed<seq<byte>>)
    requires p < |b|
    ensures r.Ok? ==> p < r.pos <= |b|
  {
    var (s, q) :- ScanString(b, p + 1, []);
    if |s| > lim.maxStringLen then Fail(SizeExceeded) else Ok(s, q)
  }

  function SkipDigits(b: seq<byte>, p: nat): (q: nat)
    requires p <= |b|
    ensures p <= q <= |b|
    ensures forall i | p <= i < q :: IsDigit(b[i])
    ensures q < |b| ==> !IsDigit(b[q])
    decreases |b| - p
  {
    if p < |b| && IsDigit(b[p]) then SkipDigits(b, p + 1) else p
  }

  /** One or more digits. */
  function Digits1(b: seq<byte>, p: nat): (r: Parsed<()>)
    requires p <= |b|
    ensures r.Ok? ==> p < r.pos <= |b|
  {
    if p < |b| && IsDigit(b[p]) then Ok((), SkipDigits(b, p)) else Fail(ParseError)
  }

  function WholePart(b: seq<byte>, p: nat): (r: Parsed<()>)
    requires p <= |b|
    ensures r.Ok? ==> p < r.pos <= |b|
  {
    if Peek(b, p, ZERO) then Ok((), p + 1) else Digits1(b, p)
  }

  function FracPart(b: seq<byte>, p: nat): (r: Parsed<()>)
    requires p <= |b|
    ensures r.Ok? ==> p <= r.pos <= |b|
  {
    if Peek(b, p, DOT) then Digits1(b, p + 1) else Ok((), p)
  }

  function ExpPart(b: seq<byte>, p: nat): (r: Parsed<()>)
    requires p <= |b|
    ensures r.Ok? ==> p <= r.pos <= |b|
  {
    if Peek(b, p, LOWER_E) || Peek(b, p, UPPER_E) then
      Digits1(b, if Peek(b, p + 1, PLUS) || Peek(b, p + 1, MINUS) then p + 2 else p + 1)
    else Ok((), p)
  }

  function ParseNumber(b: seq<byte>, p: nat): (r: Parsed<Node>)
    requires p <= |b|
    ensures r.Ok? ==> p < r.pos <= |b|
  {
    var (_, q1) :- WholePart(b, if Peek(b, p, MINUS) then p + 1 else p);
    var (_, q2) :- FracPart(b, q1);
    var (_, q3) :- ExpPart(b, q2);
    Ok(Number(b[p..q3]), q3)
  }

  function Const(r: Parsed<()>, n: Node): Parsed<Node> {
    if r.Ok? then Ok(n, r.pos) else Fail(r.reason)
  }

  function ParseValue(b: seq<byte>, p: nat, d: nat, lim: Limits): (r: Parsed<Node>)
    requires p <= |b|
    ensures r.Ok? ==> p < r.pos <= |b|
    decreases |b| - p, 2
  {
    var q := SkipWs(b, p);
    if q == |b| then Fail(ParseError)
    else if b[q] == LBRACE then ParseObject(b, q, d, lim)
    else if b[q] == LBRACKET then ParseArray(b, q, d, lim)
    else if b[q] == QUOTE then
      var (s, q') :- ParseString(b, q, lim);
      Ok(String(s), q')
    else if b[q] == LOWER_T then Const(SkipLiteral(b, q, TRUE_TEXT), Bool(true))
    else if b[q] == LOWER_F then Const(SkipLiteral(b, q, FALSE_TEXT), Bool(false))
    else if b[q] == LOWER_N then Const(SkipLiteral(b, q, NULL_TEXT), Null)
    else if b[q] == MINUS || IsDigit(b[q]) then ParseNumber(b, q)
    else Fail(ParseError)
  }

  function ParseObject(b: seq<byte>, p: nat, d: nat, lim: Limits): (r: Parsed<Node>)
    requires p < |b|
    ensures r.Ok? ==> p < r.pos <= |b|
    decreases |b| - p, 1
  {
    if d + 1 > lim.maxDepth then Fail(DepthExceeded)
    else
      var q := SkipWs(b, p + 1);
      if Peek(b, q, RBRACE) then Ok(Object([]), q + 1)
      else ParseMembers(b, q, d + 1, lim, [])
  }

  /** The key and colon of one member, from its leading whitespace on. */
  function ParseMemberKey(b: seq<byte>, p: nat, lim: Limits): (r: Parsed<seq<byte>>)
    requires p <= |b|
    ensures r.Ok? ==> p < r.pos <= |b|
  {
    var q := SkipWs(b, p);
    if !Peek(b, q, QUOTE) then Fail(ParseError) else ParseKey(b, q, lim)
  }

  function ExpectColon(b: seq<byte>, p: nat): (r: Parsed<()>)
    requires p <= |b|
    ensures r.Ok? ==> p < r.pos <= |b|
  {
    var q := SkipWs(b, p);
    if Peek(b, q, COLON) then Ok((), q + 1) else Fail(ParseError)
  }

  /** After a member or an element: `Ok(true)` past a comma, `Ok(false)` past the closing byte. */
  function Separator(b: seq<byte>, p: nat, close: byte): (r: Parsed<bool>)
    requires p <= |b|
    ensures r.Ok? ==> p < r.pos <= |b|
  {
    var q := SkipWs(b, p);
    if Peek(b, q, COMMA) then Ok(true, q + 1)
    else if Peek(b, q, close) then Ok(false, q + 1)
    else Fail(ParseError)
  }

  /** The member loop; `fields` are those already pushed. */
  function ParseMembers(b: seq<byte>, p: nat, d: nat, lim: Limits, fields: seq<Field>): (r: Parsed<Node>)
    requires p <= |b|
    ensures r.Ok? ==> p < r.pos <= |b|
    decreases |b| - p, 0
  {
    var (key, q1) :- ParseMemberKey(b, p, lim);
    if key in Keys(fields) then Fail(DuplicateKey)
    else
      var (_, q2) :- ExpectColon(b, q1);
      var (value, q3) :- ParseValue(b, q2, d, lim);
      var fields' := fields + [Field(key, value)];
      if |fields'| > lim.maxFieldsPerObject then Fail(FieldCountExceeded)
      else
        var (more, q4) :- Separator(b, q3, RBRACE);
        if more then ParseMembers(b, q4, d, lim, fields') else Ok(Object(fields'), q4)
  }

  /** One round of the member loop. */
  lemma MembersRound(b: seq<byte>, p: nat, d: nat, lim: Limits, fields: seq<Field>)
    requires p <= |b|
    ensures var all := ParseMembers(b, p, d, lim, fields);
      match ParseMemberKey(b, p, lim)
      case Fail(reason) => all == Fail(reason)
      case Ok(key, q1) =>
        if key in Keys(fields) then all == Fail(DuplicateKey)
        else match ExpectColon(b, q1)
          case Fail(reason) => all == Fail(reason)
          case Ok(_, q2) => match ParseValue(b, q2, d, lim)
            case Fail(reason) => all == Fail(reason)
            case Ok(value, q3) =>
              if |fields| + 1 > lim.maxFieldsPerObject then all == Fail(FieldCountExceeded)
              else match Separator(b, q3, RBRACE)
                case Fail(reason) => all == Fail(reason)
                case Ok(more, q4) =>
                  all == if more then ParseMembers(b, q4, d, lim, fields + [Field(key, value)])
                         else Ok(Object(fields + [Field(key, value)]), q4)
  {
    hide ParseMemberKey, ExpectColon, ParseValue, Separator;
  }

  function ParseArray(b: seq<byte>, p: nat, d: nat, lim: Limits): (r: Parsed<Node>)
    requires p < |b|
    ensures r.Ok? ==> p < r.pos <= |b|
    decreases |b| - p, 1
  {
    if d + 1 > lim.maxDepth then Fail(DepthExceeded)
    else
      var q := SkipWs(b, p + 1);
      if Peek(b, q, RBRACKET) then Ok(Array([], false), q + 1)
      else ParseElements(b, q, d + 1, lim, [], false)
  }

  /** The element loop; `items` are those already pushed, `truncated` whether any was skipped. */
  function ParseElements(b: seq<byte>, p: nat, d: nat, lim: Limits, items: seq<Node>,
                         truncated: bool): (r: Parsed<Node>)
    requires p <= |b|
    ensures r.Ok? ==> p < r.pos <= |b|
    decreases |b| - p, 3
  {
    if |items| < lim.maxArrayInspect then
      var (item, q) :- ParseValue(b, p, d, lim);
      var (more, q') :- Separator(b, q, RBRACKET);
      if more then ParseElements(b, q', d, lim, items + [item], truncated)
      else Ok(Array(items + [item], truncated), q')
    else
      var (_, q) :- SkipValue(b, p, d, lim);
      var (more, q') :- Separator(b, q, RBRACKET);
      if more then ParseElements(b, q', d, lim, items, true)
      else Ok(Array(items, true), q')
  }

  /** One round of the element loop. */
  lemma ElementsRound(b: seq<byte>, p: nat, d: nat, lim: Limits, items: seq<Node>, truncated: bool)
    requires p <= |b|
    ensures |items| < lim.maxArrayInspect ==>
      var all, item := ParseElements(b, p, d, lim, items, truncated), ParseValue(b, p, d, lim);
      if item.Fail? then all == Fail(item.reason)
      else
        var next := Separator(b, item.pos, RBRACKET);
        if next.Fail? then all == Fail(next.reason)
        else if next.value then all == ParseElements(b, next.pos, d, lim, items + [item.value], truncated)
        else all == Ok(Array(items + [item.value], truncated), next.pos)
    ensures |items| >= lim.maxArrayInspect ==>
      var all, skipped := ParseElements(b, p, d, lim, items, truncated), SkipValue(b, p, d, lim);
      if skipped.Fail? then all == Fail(skipped.reason)
      else
        var next := Separator(b, skipped.pos, RBRACKET);
        if next.Fail? then all == Fail(next.reason)
        else if next.value then all == ParseElements(b, next.pos, d, lim, items, true)
        else all == Ok(Array(items, true), next.pos)
  {
    hide ParseValue, SkipValue, Separator;
  }

  function Unit<T>(r: Parsed<T>): Parsed<()> {
    if r.Ok? then Ok((), r.pos) else Fail(r.reason)
  }

  function SkipValue(b: seq<byte>, p: nat, d: nat, lim: Limits): (r: Parsed<()>)
    requires p <= |b|
    ensures r.Ok? ==> p < r.pos <= |b|
    decreases |b| - p, 2
  {
    var q := SkipWs(b, p);
    if q == |b| then Fail(ParseError)
    else if b[q] == LBRACE then SkipObject(b, q, d, lim)
    else if b[q] == LBRACKET then SkipArray(b, q, d, lim)
    else if b[q] == QUOTE then Unit(ParseString(b, q, lim))
    else if b[q] == LOWER_T then SkipLiteral(b, q, TRUE_TEXT)
    else if b[q] == LOWER_F then SkipLiteral(b, q, FALSE_TEXT)
    else if b[q] == LOWER_N then SkipLiteral(b, q, NULL_TEXT)
    else if b[q] == MINUS || IsDigit(b[q]) then Unit(ParseNumber(b, q))
    else Fail(ParseError)
  }

  function SkipObject(b: seq<byte>, p: nat, d: nat, lim: Limits): (r: Parsed<()>)
    requires p < |b|
    ensures r.Ok? ==> p < r.pos <= |b|
    decreases |b| - p, 1
  {
    if d + 1 > lim.maxDepth then Fail(DepthExceeded)
    else
      var q := SkipWs(b, p + 1);
      if Peek(b, q, RBRACE) then Ok((), q + 1)
      else SkipMembers(b, q, d + 1, lim)
  }

  function SkipMembers(b: seq<byte>, p: nat, d: nat, lim: Limits): (r: Parsed<()>)
    requires p <= |b|
    ensures r.Ok? ==> p < r.pos <= |b|
    decreases |b| - p, 0
  {
    var (_, q1) :- ParseMemberKey(b, p, lim);
    var (_, q2) :- ExpectColon(b, q1);
    var (_, q3) :- SkipValue(b, q2, d, lim);
    var (more, q4) :- Separator(b, q3, RBRACE);
    if more then SkipMembers(b, q4, d, lim) else Ok((), q4)
  }

  function SkipArray(b: seq<byte>, p: nat, d: nat, lim: Limits): (r: Parsed<()>)
    requires p < |b|
    ensures r.Ok? ==> p < r.pos <= |b|
    decreases |b| - p, 1
  {
    if d + 1 > lim.maxDepth then Fail(DepthExceeded)
    else
      var q := SkipWs(b, p + 1);
      if Peek(b, q, RBRACKET) then Ok((), q + 1)
      else SkipElements(b, q, d + 1, lim)
  }

  function SkipElements(b: seq<byte>, p: nat, d: nat, lim: Limits): (r: Parsed<()>)
    requires p <= |b|
    ensures r.Ok? ==> p < r.pos <= |b|
    decreases |b| - p, 3
  {
    var (_, q) :- SkipValue(b, p, d, lim);
    var (more, q') :- Separator(b, q, RBRACKET);
    if more then SkipElements(b, q', d, lim) else Ok((), q')
  }

  /** A value's leading whitespace may be skipped before it is parsed. */
  lemma ValueStartSkip(b: seq<byte>, p: nat, d: nat, lim: Limits)
    requires p <= |b|
    ensures ParseValue(b, SkipWs(b, p), d, lim) == ParseValue(b, p, d, lim)
    ensures SkipValue(b, SkipWs(b, p), d, lim) == SkipValue(b, p, d, lim)
  {
    hide ParseObject, ParseArray, SkipObject, SkipArray, ParseString, ParseNumber;
    assert SkipWs(b, SkipWs(b, p)) == SkipWs(b, p);
  }

  function ParseBounded(b: seq<byte>, lim: Limits): (r: Result<Node>) {
    if |b| > lim.maxBytes then Failure(SizeExceeded)
    else
      var v := ParseValue(b, 0, 0, lim);
      if v.Fail? then Failure(v.reason)
      else if SkipWs(b, v.pos) != |b| then Failure(ParseError)
      else Success(v.value)
  }
}
