/** The parsed document, the parser's bounds and its failure reasons. */
module Json {
  import opened Utf8

  /** A parsed JSON value. A number keeps its source text; `truncated` marks an array whose
      elements beyond the inspection bound were walked but not kept. */
  datatype Node =
    | Null
    | Bool(b: bool)
    | Number(text: seq<byte>)
    | String(chars: seq<byte>)
    | Array(items: seq<Node>, truncated: bool)
    | Object(fields: seq<Field>)

  datatype Field = Field(key: seq<byte>, value: Node)

  datatype Limits = Limits(
    maxBytes: nat, maxDepth: nat, maxFieldsPerObject: nat,
    maxKeyLen: nat, maxStringLen: nat, maxArrayInspect: nat)

  /** The `QuarantineReason`s the parser can produce. */
  datatype Reason =
    | DuplicateKey | DepthExceeded | SizeExceeded | FieldCountExceeded
    | KeyLengthExceeded | ParseError | Utf8Error

  /** Outcome of one walk over the input: a value and where the walk stopped, or the reason it failed. */
  datatype Parsed<+T> = Ok(value: T, pos: nat) | Fail(reason: Reason) {
    predicate IsFailure() { Fail? }
    function PropagateFailure<U>(): Parsed<U> requires Fail? { Fail(reason) }
    function Extract(): (T, nat) requires Ok? { (value, pos) }
  }

  datatype Result<+T> = Success(value: T) | Failure(reason: Reason) {
    predicate IsFailure() { Failure? }
    function PropagateFailure<U>(): Result<U> requires Failure? { Failure(reason) }
    function Extract(): T requires Success? { value }
  }

  const QUOTE: byte := 0x22
  const PLUS: byte := 0x2B
  const COMMA: byte := 0x2C
  const MINUS: byte := 0x2D
  const DOT: byte := 0x2E
  const SLASH: byte := 0x2F
  const ZERO: byte := 0x30
  const COLON: byte := 0x3A
  const LBRACKET: byte := 0x5B
  const BACKSLASH: byte := 0x5C
  const RBRACKET: byte := 0x5D
  const LOWER_B: byte := 0x62
  const LOWER_E: byte := 0x65
  const LOWER_F: byte := 0x66
  const LOWER_N: byte := 0x6E
  const LOWER_R: byte := 0x72
  const LOWER_T: byte := 0x74
  const LOWER_U: byte := 0x75
  const UPPER_E: byte := 0x45
  const LBRACE: byte := 0x7B
  const RBRACE: byte := 0x7D

  const TRUE_TEXT: seq<byte> := [0x74, 0x72, 0x75, 0x65]
  const FALSE_TEXT: seq<byte> := [0x66, 0x61, 0x6C, 0x73, 0x65]
  const NULL_TEXT: seq<byte> := [0x6E, 0x75, 0x6C, 0x6C]

  predicate IsWs(c: byte) {
    c == 0x20 || c == 0x09 || c == 0x0A || c == 0x0D
  }

  predicate IsDigit(c: byte) {
    0x30 <= c <= 0x39
  }

  predicate IsHex(c: byte) {
    IsDigit(c) || 0x61 <= c <= 0x66 || 0x41 <= c <= 0x46
  }

  function HexValue(c: byte): (v: nat)
    requires IsHex(c)
    ensures v < 16
  {
    if IsDigit(c) then (c - 0x30) as nat
    else if c >= 0x61 then (c - 0x61 + 10) as nat
    else (c - 0x41 + 10) as nat
  }

  predicate AllHex(s: seq<byte>) {
    forall i | 0 <= i < |s| :: IsHex(s[i])
  }

  /** The number hexadecimal digits spell, most significant first. */
  function HexNumber(s: seq<byte>): (v: nat)
    requires AllHex(s)
  {
    if s == [] then 0 else HexNumber(s[..|s| - 1]) * 16 + HexValue(s[|s| - 1])
  }

  /** The letters that may follow a backslash and stand for one byte. */
  predicate IsEscape(c: byte) {
    c == QUOTE || c == BACKSLASH || c == SLASH || c == LOWER_B || c == LOWER_F
    || c == LOWER_N || c == LOWER_R || c == LOWER_T
  }

  function EscapeValue(c: byte): byte
    requires IsEscape(c)
  {
    if c == LOWER_B then 0x08
    else if c == LOWER_F then 0x0C
    else if c == LOWER_N then 0x0A
    else if c == LOWER_R then 0x0D
    else if c == LOWER_T then 0x09
    else c
  }

  function Keys(fields: seq<Field>): set<seq<byte>> {
    set f | f in fields :: f.key
  }
}
