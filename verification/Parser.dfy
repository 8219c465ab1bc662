/** The parser itself: a moving position over the input, its loops pushing into local vectors.
    Every method is proved to compute its function in `ParseSpec` and to stop where that says. */
module ParserImpl {
  import opened Utf8
  import opened Json
  import opened KeyOrder
  import opened Options
  import opened Sequences
  import S = ParseSpec

  newtype u16 = x: int | 0 <= x < 0x1_0000

  /** The sorted key vector and the fields name the same keys. */
  ghost predicate Same(seenKeys: seq<seq<byte>>, fields: seq<Field>) {
    forall k :: k in seenKeys <==> k in Keys(fields)
  }

  lemma SameNone()
    ensures SortedKeys([]) && Same([], [])
  {
  }

  lemma SameMeans(seenKeys: seq<seq<byte>>, fields: seq<Field>, key: seq<byte>)
    requires Same(seenKeys, fields)
    ensures key in seenKeys <==> key in Keys(fields)
  {
  }

  lemma SameInsert(seenKeys: seq<seq<byte>>, at: nat, key: seq<byte>, fields: seq<Field>, value: Node)
    requires at <= |seenKeys| && Same(seenKeys, fields)
    ensures Same(seenKeys[..at] + [key] + seenKeys[at..], fields + [Field(key, value)])
  {
    var f := Field(key, value);
    assert Keys(fields + [f]) == Keys(fields) + {key} by {
      assert f in fields + [f];
      assert forall g :: g in fields + [f] <==> g in fields || g == f;
    }
    assert seenKeys == seenKeys[..at] + seenKeys[at..];
  }

  class Parser {
    const bytes: seq<byte>
    const limits: Limits
    var pos: nat

    constructor (bytes: seq<byte>, limits: Limits)
      ensures this.bytes == bytes && this.limits == limits && pos == 0
    {
      this.bytes, this.limits, pos := bytes, limits, 0;
    }

    ghost predicate Valid()
      reads this
    {
      pos <= |bytes|
    }

    /** `r` is what `spec` says, and on success the position is where `spec` stops. */
    ghost predicate Agrees<T>(r: Result<T>, spec: Parsed<T>)
      reads this
    {
      match spec
      case Ok(v, q) => r == Success(v) && pos == q
      case Fail(reason) => r == Failure(reason)
    }

    function Peek(): (c: Option<byte>)
      reads this
      ensures c.Some? <==> pos < |bytes|
      ensures c.Some? ==> c.value == bytes[pos]
    {
      if pos < |bytes| then Some(bytes[pos]) else None
    }

    method Bump() returns (c: Option<byte>)
      requires Valid()
      modifies this`pos
      ensures Valid()
      ensures c == old(Peek())
      ensures pos == old(pos) + if c.Some? then 1 else 0
    {
      c := Peek();
      if c.Some? {
        pos := pos + 1;
      }
    }

    method SkipWs()
      requires Valid()
      modifies this`pos
      ensures Valid() && pos == S.SkipWs(bytes, old(pos)) >= old(pos)
    {
      while Peek().Some? && IsWs(Peek().value)
        invariant Valid() && pos >= old(pos)
        invariant S.SkipWs(bytes, pos) == S.SkipWs(bytes, old(pos))
        decreases |bytes| - pos
      {
        pos := pos + 1;
      }
    }

    method SkipLiteral(kw: seq<byte>) returns (r: Result<()>)
      requires Valid()
      modifies this`pos
      ensures Valid() && pos >= old(pos) && Agrees(r, S.SkipLiteral(bytes, old(pos), kw))
    {
      if kw <= bytes[pos..] {
        pos := pos + |kw|;
        return Success(());
      }
      return Failure(ParseError);
    }

    method ParseLiteral(kw: seq<byte>, node: Node) returns (r: Result<Node>)
      requires Valid()
      modifies this`pos
      ensures Valid() && pos >= old(pos) && Agrees(r, S.Const(S.SkipLiteral(bytes, old(pos), kw), node))
    {
      var _ :- SkipLiteral(kw);
      return Success(node);
    }

    /** Four hexadecimal digits; the `u16` accumulator never overflows. */
    method ReadHex4() returns (r: Result<u16>)
      requires Valid()
      modifies this`pos
      ensures Valid() && pos >= old(pos)
      ensures match S.ReadHex4(bytes, old(pos))
        case Ok(v, q) => r.Success? && r.value as nat == v && pos == q
        case Fail(reason) => r == Failure(reason)
    {
      var v: u16 := 0;
      var start := pos;
      for i := 0 to 4
        invariant Valid() && pos == start + i
        invariant AllHex(bytes[start..pos])
        invariant v as nat == HexNumber(bytes[start..pos])
        invariant i == 0 ==> v == 0
        invariant i == 1 ==> v < 0x10
        invariant i == 2 ==> v < 0x100
        invariant i == 3 ==> v < 0x1000
      {
        ghost var before := bytes[start..pos];
        var c := Bump();
        if c.None? || !IsHex(c.value) {
          assert start + 4 <= |bytes| ==> bytes[start..start + 4][i] == bytes[start + i];
          return Failure(ParseError);
        }
        SliceSnoc(bytes, start, start + i);
        assert bytes[start..pos] == before + [c.value];
        v := v * 16 + HexValue(c.value) as u16;
      }
      return Success(v);
    }

    method ReadUnicodeEscape() returns (r: Result<Scalar>)
      requires Valid()
      modifies this`pos
      ensures Valid() && pos >= old(pos)
      ensures Agrees(r, S.ReadUnicode(bytes, old(pos)))
    {
      var hi :- ReadHex4();
      if 0xD800 <= hi <= 0xDBFF {
        var c := Bump();
        if c != Some(BACKSLASH) {
          return Failure(ParseError);
        }
        c := Bump();
        if c != Some(LOWER_U) {
          return Failure(ParseError);
        }
        var lo :- ReadHex4();
        if !(0xDC00 <= lo <= 0xDFFF) {
          return Failure(ParseError);
        }
        return S.ToScalar(0x1_0000 + (hi as int - 0xD800) * 1024 + (lo as int - 0xDC00));
      }
      return S.ToScalar(hi as int);
    }

    method ScanRawString() returns (r: Result<seq<byte>>)
      requires pos < |bytes|
      modifies this`pos
      ensures Valid() && pos >= old(pos) && Agrees(r, S.ScanString(bytes, old(pos) + 1, []))
    {
      var _ := Bump();
      var buf: seq<byte> := [];
      while true
        invariant Valid() && pos >= old(pos)
        invariant S.ScanString(bytes, old(pos) + 1, []) == S.ScanString(bytes, pos, buf)
        decreases |bytes| - pos
      {
        var c := Bump();
        if c.None? {
          return Failure(ParseError);
        } else if c.value == QUOTE {
          break;
        } else if c.value == BACKSLASH {
          var e := Bump();
          if e.None? {
            return Failure(ParseError);
          } else if IsEscape(e.value) {
            buf := buf + [EscapeValue(e.value)];
          } else if e.value == LOWER_U {
            var ch :- ReadUnicodeEscape();
            buf := buf + EncodeScalar(ch);
          } else {
            return Failure(ParseError);
          }
        } else if c.value < 0x20 {
          return Failure(ParseError);
        } else {
          buf := buf + [c.value];
        }
      }
      if !ValidUtf8(buf) {
        return Failure(Utf8Error);
      }
      return Success(buf);
    }

    method ParseKey() returns (r: Result<seq<byte>>)
      requires pos < |bytes|
      modifies this`pos
      ensures Valid() && pos >= old(pos) && Agrees(r, S.ParseKey(bytes, old(pos), limits))
    {
      var s :- ScanRawString();
      if |s| > limits.maxKeyLen {
        return Failure(KeyLengthExceeded);
      }
      return Success(s);
    }

    method ParseString() returns (r: Result<seq<byte>>)
      requires pos < |bytes|
      modifies this`pos
      ensures Valid() && pos >= old(pos) && Agrees(r, S.ParseString(bytes, old(pos), limits))
    {
      var s :- ScanRawString();
      if |s| > limits.maxStringLen {
        return Failure(SizeExceeded);
      }
      return Success(s);
    }

    method SkipDigits()
      requires Valid()
      modifies this`pos
      ensures Valid() && pos == S.SkipDigits(bytes, old(pos)) >= old(pos)
    {
      while Peek().Some? && IsDigit(Peek().value)
        invariant Valid() && pos >= old(pos)
        invariant S.SkipDigits(bytes, pos) == S.SkipDigits(bytes, old(pos))
        decreases |bytes| - pos
      {
        pos := pos + 1;
      }
    }

    method ScanWhole() returns (r: Result<()>)
      requires Valid()
      modifies this`pos
      ensures Valid() && pos >= old(pos) && Agrees(r, S.WholePart(bytes, old(pos)))
    {
      var c := Bump();
      if c == Some(ZERO) {
      } else if c.Some? && IsDigit(c.value) {
        SkipDigits();
      } else {
        return Failure(ParseError);
      }
      return Success(());
    }

    method ScanFraction() returns (r: Result<()>)
      requires Valid()
      modifies this`pos
      ensures Valid() && pos >= old(pos) && Agrees(r, S.FracPart(bytes, old(pos)))
    {
      if Peek() == Some(DOT) {
        var _ := Bump();
        if Peek().None? || !IsDigit(Peek().value) {
          return Failure(ParseError);
        }
        SkipDigits();
      }
      return Success(());
    }

    method ScanExponent() returns (r: Result<()>)
      requires Valid()
      modifies this`pos
      ensures Valid() && pos >= old(pos) && Agrees(r, S.ExpPart(bytes, old(pos)))
    {
      if Peek() == Some(LOWER_E) || Peek() == Some(UPPER_E) {
        var _ := Bump();
        if Peek() == Some(PLUS) || Peek() == Some(MINUS) {
          var _ := Bump();
        }
        if Peek().None? || !IsDigit(Peek().value) {
          return Failure(ParseError);
        }
        SkipDigits();
      }
      return Success(());
    }

    method ParseNumber() returns (r: Result<Node>)
      requires Valid()
      modifies this`pos
      ensures Valid() && pos >= old(pos) && Agrees(r, S.ParseNumber(bytes, old(pos)))
    {
      var start := pos;
      if Peek() == Some(MINUS) {
        var _ := Bump();
      }
      var _ :- ScanWhole();
      var _ :- ScanFraction();
      var _ :- ScanExponent();
      return Success(Number(bytes[start..pos]));
    }

    // The six methods below call each other on a depth that `maxDepth` bounds, and each descent into a
    // container raises it: `decreases limits.maxDepth - depth` says that on every input, rejected ones
    // and skipped elements included, no more than `2 * (maxDepth + 1)` of their calls are ever open.

    method ParseValue(depth: nat) returns (r: Result<Node>)
      requires Valid() && depth <= limits.maxDepth
      modifies this`pos
      ensures Valid() && pos >= old(pos) && Agrees(r, S.ParseValue(bytes, old(pos), depth, limits))
      decreases limits.maxDepth - depth, 1
    {
      SkipWs();
      var c := Peek();
      if c == Some(LBRACE) {
        r := ParseObject(depth);
      } else if c == Some(LBRACKET) {
        r := ParseArray(depth);
      } else if c == Some(QUOTE) {
        var s :- ParseString();
        r := Success(String(s));
      } else if c == Some(LOWER_T) {
        r := ParseLiteral(TRUE_TEXT, Bool(true));
      } else if c == Some(LOWER_F) {
        r := ParseLiteral(FALSE_TEXT, Bool(false));
      } else if c == Some(LOWER_N) {
        r := ParseLiteral(NULL_TEXT, Null);
      } else if c.Some? && (c.value == MINUS || IsDigit(c.value)) {
        r := ParseNumber();
      } else {
        r := Failure(ParseError);
      }
    }

    /** Walks past a value without building a node. */
    method SkipValue(depth: nat) returns (r: Result<()>)
      requires Valid() && depth <= limits.maxDepth
      modifies this`pos
      ensures Valid() && pos >= old(pos) && Agrees(r, S.SkipValue(bytes, old(pos), depth, limits))
      decreases limits.maxDepth - depth, 1
    {
      SkipWs();
      var c := Peek();
      if c == Some(LBRACE) {
        r := SkipObject(depth);
      } else if c == Some(LBRACKET) {
        r := SkipArray(depth);
      } else if c == Some(QUOTE) {
        var _ :- ParseString();
        r := Success(());
      } else if c == Some(LOWER_T) {
        r := SkipLiteral(TRUE_TEXT);
      } else if c == Some(LOWER_F) {
        r := SkipLiteral(FALSE_TEXT);
      } else if c == Some(LOWER_N) {
        r := SkipLiteral(NULL_TEXT);
      } else if c.Some? && (c.value == MINUS || IsDigit(c.value)) {
        var _ :- ParseNumber();
        r := Success(());
      } else {
        r := Failure(ParseError);
      }
    }

    /** The start of a member: blanks and the key. */
    method ParseMemberKey() returns (r: Result<seq<byte>>)
      requires Valid()
      modifies this`pos
      ensures Valid() && pos >= old(pos) && Agrees(r, S.ParseMemberKey(bytes, old(pos), limits))
    {
      SkipWs();
      if Peek() != Some(QUOTE) {
        return Failure(ParseError);
      }
      r := ParseKey();
    }

    method ExpectColon() returns (r: Result<()>)
      requires Valid()
      modifies this`pos
      ensures Valid() && pos >= old(pos) && Agrees(r, S.ExpectColon(bytes, old(pos)))
    {
      SkipWs();
      var c := Bump();
      if c != Some(COLON) {
        return Failure(ParseError);
      }
      return Success(());
    }

    /** The end of a member or an element: whether the loop goes on. */
    method NextSeparator(close: byte) returns (r: Result<bool>)
      requires Valid() && close != COMMA
      modifies this`pos
      ensures Valid() && pos >= old(pos) && Agrees(r, S.Separator(bytes, old(pos), close))
    {
      SkipWs();
      var c := Bump();
      if c == Some(COMMA) {
        return Success(true);
      } else if c == Some(close) {
        return Success(false);
      } else {
        return Failure(ParseError);
      }
    }

    method ParseObject(depth: nat) returns (r: Result<Node>)
      requires pos < |bytes| && depth <= limits.maxDepth
      modifies this`pos
      ensures Valid() && pos >= old(pos) && Agrees(r, S.ParseObject(bytes, old(pos), depth, limits))
      decreases limits.maxDepth - depth, 0
    {
      hide S.ParseValue, S.ParseMemberKey, S.ExpectColon, S.Separator, SortedKeys, Same;
      var nextDepth := depth + 1;
      if nextDepth > limits.maxDepth {
        return Failure(DepthExceeded);
      }
      var _ := Bump();
      var fields: seq<Field> := [];
      var seenKeys: seq<seq<byte>> := [];
      SameNone();
      SkipWs();
      if Peek() == Some(RBRACE) {
        var _ := Bump();
        return Success(Object(fields));
      }
      hide S.ParseMembers, S.ParseObject;
      while true
        invariant Valid() && pos > old(pos)
        invariant SortedKeys(seenKeys) && Same(seenKeys, fields)
        invariant S.ParseObject(bytes, old(pos), depth, limits) == S.ParseMembers(bytes, pos, nextDepth, limits, fields)
        decreases |bytes| - pos
      {
        S.MembersRound(bytes, pos, nextDepth, limits, fields);
        var key :- ParseMemberKey();
        var found, at := BinarySearch(seenKeys, key);
        SameMeans(seenKeys, fields, key);
        if found {
          return Failure(DuplicateKey);
        }
        var _ :- ExpectColon();
        var value :- ParseValue(nextDepth);
        SameInsert(seenKeys, at, key, fields, value);
        seenKeys := seenKeys[..at] + [key] + seenKeys[at..];
        fields := fields + [Field(key, value)];
        if |fields| > limits.maxFieldsPerObject {
          return Failure(FieldCountExceeded);
        }
        var more :- NextSeparator(RBRACE);
        if !more {
          break;
        }
      }
      return Success(Object(fields));
    }

    method SkipObject(depth: nat) returns (r: Result<()>)
      requires pos < |bytes| && depth <= limits.maxDepth
      modifies this`pos
      ensures Valid() && pos >= old(pos) && Agrees(r, S.SkipObject(bytes, old(pos), depth, limits))
      decreases limits.maxDepth - depth, 0
    {
      hide S.SkipValue, S.ParseMemberKey, S.ExpectColon, S.Separator;
      var nextDepth := depth + 1;
      if nextDepth > limits.maxDepth {
        return Failure(DepthExceeded);
      }
      var _ := Bump();
      SkipWs();
      if Peek() == Some(RBRACE) {
        var _ := Bump();
        return Success(());
      }
      while true
        invariant Valid() && pos > old(pos)
        invariant S.SkipObject(bytes, old(pos), depth, limits) == S.SkipMembers(bytes, pos, nextDepth, limits)
        decreases |bytes| - pos
      {
        var _ :- ParseMemberKey();
        var _ :- ExpectColon();
        var _ :- SkipValue(nextDepth);
        var more :- NextSeparator(RBRACE);
        if !more {
          break;
        }
      }
      return Success(());
    }

    method ParseArray(depth: nat) returns (r: Result<Node>)
      requires pos < |bytes| && depth <= limits.maxDepth
      modifies this`pos
      ensures Valid() && pos >= old(pos) && Agrees(r, S.ParseArray(bytes, old(pos), depth, limits))
      decreases limits.maxDepth - depth, 0
    {
      hide S.ParseValue, S.SkipValue, S.Separator;
      var nextDepth := depth + 1;
      if nextDepth > limits.maxDepth {
        return Failure(DepthExceeded);
      }
      var _ := Bump();
      var items: seq<Node> := [];
      var truncated := false;
      var index := 0;
      SkipWs();
      if Peek() == Some(RBRACKET) {
        var _ := Bump();
        return Success(Array(items, false));
      }
      hide S.ParseElements, S.ParseArray, S.SkipWs;
      while true
        invariant Valid() && pos > old(pos)
        invariant |items| <= limits.maxArrayInspect
        invariant |items| == if index < limits.maxArrayInspect then index else limits.maxArrayInspect
        invariant S.ParseArray(bytes, old(pos), depth, limits)
               == S.ParseElements(bytes, pos, nextDepth, limits, items, truncated)
        decreases |bytes| - pos
      {
        ghost var start := pos;
        S.ElementsRound(bytes, pos, nextDepth, limits, items, truncated);
        SkipWs();
        S.ValueStartSkip(bytes, start, nextDepth, limits);
        if index < limits.maxArrayInspect {
          var item :- ParseValue(nextDepth);
          items := items + [item];
        } else {
          var _ :- SkipValue(nextDepth);
          truncated := true;
        }
        index := index + 1;
        var more :- NextSeparator(RBRACKET);
        if !more {
          break;
        }
      }
      return Success(Array(items, truncated));
    }

    method SkipArray(depth: nat) returns (r: Result<()>)
      requires pos < |bytes| && depth <= limits.maxDepth
      modifies this`pos
      ensures Valid() && pos >= old(pos) && Agrees(r, S.SkipArray(bytes, old(pos), depth, limits))
      decreases limits.maxDepth - depth, 0
    {
      hide S.SkipValue, S.Separator;
      var nextDepth := depth + 1;
      if nextDepth > limits.maxDepth {
        return Failure(DepthExceeded);
      }
      var _ := Bump();
      SkipWs();
      if Peek() == Some(RBRACKET) {
        var _ := Bump();
        return Success(());
      }
      while true
        invariant Valid() && pos > old(pos)
        invariant S.SkipArray(bytes, old(pos), depth, limits) == S.SkipElements(bytes, pos, nextDepth, limits)
        decreases |bytes| - pos
      {
        var _ :- SkipValue(nextDepth);
        var more :- NextSeparator(RBRACKET);
        if !more {
          break;
        }
      }
      return Success(());
    }
  }

  method ParseBounded(bytes: seq<byte>, limits: Limits) returns (r: Result<Node>)
    ensures r == S.ParseBounded(bytes, limits)
  {
    if |bytes| > limits.maxBytes {
      return Failure(SizeExceeded);
    }
    var parser := new Parser(bytes, limits);
    var node :- parser.ParseValue(0);
    parser.SkipWs();
    if parser.pos != |bytes| {
      return Failure(ParseError);
    }
    return Success(node);
  }
}
