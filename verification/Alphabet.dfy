/** Characters and layout, spelled out: the bytes of JSON texts, canonical texts and generalized texts as literals. */
module Alphabet {
  import opened Utf8
  import opened Json
  import opened Grammar
  import opened Canon
  import opened Shapes
  import opened Options
  import opened Generalized
  import opened GeneralizedText
  import opened Profiles
  import opened Counting

  /** The character is one of those in the literal. */
  predicate OneOf(c: byte, s: string) {
    exists i | 0 <= i < |s| :: c as int == s[i] as int
  }

  lemma {:induction false} Among(c: byte, s: string, i: nat)
    requires i < |s| && c as int == s[i] as int
    ensures OneOf(c, s)
  {
  }

  lemma {:induction false} Blanks(c: byte)
    ensures IsWs(c) <==> OneOf(c, " \t\n\r")
  {
    if IsWs(c) {
      Among(c, " \t\n\r", if c == 0x20 then 0 else if c == 0x09 then 1 else if c == 0x0A then 2 else 3);
    }
  }

  lemma {:induction false} DecimalDigit(c: byte)
    ensures IsDigit(c) <==> OneOf(c, "0123456789")
  {
    if IsDigit(c) {
      Among(c, "0123456789", (c - 0x30) as nat);
    }
  }

  /** A hexadecimal digit stands for its place in the list of digits, whichever case it is in. */
  lemma {:induction false} HexDigit(c: byte, v: nat)
    requires v < 16
    ensures IsHex(c) && HexValue(c) == v <==>
      c as int == "0123456789abcdef"[v] as int || c as int == "0123456789ABCDEF"[v] as int
  {
    DigitChars(v);
  }

  lemma {:induction false} DigitChars(v: nat)
    requires v < 16
    ensures "0123456789abcdef"[v] as int == if v < 10 then 0x30 + v else 0x61 - 10 + v
    ensures "0123456789ABCDEF"[v] as int == if v < 10 then 0x30 + v else 0x41 - 10 + v
  {
  }

  lemma {:induction false} EscapeLetter(c: byte)
    requires IsEscape(c)
    ensures OneOf(c, "\"\\/bfnrt")
  {
    Among(c, "\"\\/bfnrt",
          if c == 0x22 then 0 else if c == 0x5C then 1 else if c == 0x2F then 2 else if c == 0x62 then 3
          else if c == 0x66 then 4 else if c == 0x6E then 5 else if c == 0x72 then 6 else 7);
  }

  lemma {:induction false} PlainLetter(c: byte)
    ensures c != QUOTE && c != BACKSLASH <==> !OneOf(c, "\"\\")
  {
    if c == QUOTE {
      Among(c, "\"\\", 0);
    } else if c == BACKSLASH {
      Among(c, "\"\\", 1);
    }
  }

  lemma Backslashes()
    ensures Ascii("\\") == [BACKSLASH] && Ascii("\\u") == [BACKSLASH, LOWER_U]
  {
  }

  /** What the pieces of a string are written as, and which characters need an escape. */
  lemma {:induction false} PiecesInText(t: Piece)
    ensures match t
      case Raw(c) => PieceText(t) == [c] && (PieceOk(t) <==> c as int >= 0x20 && !OneOf(c, "\"\\"))
      case Escape(c) => PieceText(t) == Ascii("\\") + [c] && (PieceOk(t) ==> OneOf(c, "\"\\/bfnrt"))
      case Unicode(h) => PieceText(t) == Ascii("\\u") + h
      case Pair(hi, lo) => PieceText(t) == Ascii("\\u") + hi + Ascii("\\u") + lo
  {
    Backslashes();
    hide OneOf, Ascii, IsHex4, IsEscape, HexNumber;
    match t
    case Raw(c) => PlainLetter(c);
    case Escape(c) =>
      if PieceOk(t) {
        EscapeLetter(c);
      }
    case Unicode(h) =>
    case Pair(hi, lo) =>
  }

  /** The words and the brackets of values without whitespace of their own. */
  lemma {:induction false} ValuesInText(c: Core)
    ensures var text := ValueText(Value([], c));
      match c
      case NullLit => text == Ascii("null")
      case TrueLit => text == Ascii("true")
      case FalseLit => text == Ascii("false")
      case Num(n) => text == NumText(n)
      case Str(ps) => text == Ascii("\"") + StringText(ps) + Ascii("\"")
      case EmptyArr(ws) => text == Ascii("[") + ws + Ascii("]")
      case Arr(es) => text == Ascii("[") + ElementsText(es)
      case EmptyObj(ws) => text == Ascii("{") + ws + Ascii("}")
      case Obj(ms) => text == Ascii("{") + MembersText(ms)
  {
    hide NumText, StringText, ElementsText, MembersText;
  }

  lemma {:induction false} ElementsInText(es: Elements)
    ensures ElementsText(es)
         == ValueText(es.v) + es.ws + if es.LastElement? then Ascii("]") else Ascii(",") + ElementsText(es.rest)
  {
    hide ValueText;
    assert Ascii("]") == [RBRACKET] && Ascii(",") == [COMMA];
    var more := if es.LastElement? then Ascii("]") else Ascii(",") + ElementsText(es.rest);
    assert ElementsText(es) == ValueText(es.v) + (es.ws + more);
    assert ValueText(es.v) + (es.ws + more) == ValueText(es.v) + es.ws + more;
  }

  lemma {:induction false} MembersInText(ms: Members)
    ensures MembersText(ms)
         == ms.m.ws + Quoted(ms.m.key) + ms.m.colonWs + Ascii(":") + ValueText(ms.m.v) + ms.m.endWs
            + if ms.LastMember? then Ascii("}") else Ascii(",") + MembersText(ms.rest)
  {
    hide Quoted, ValueText;
    assert Ascii("}") == [RBRACE] && Ascii(",") == [COMMA] && Ascii(":") == [COLON];
    hide Ascii;
    var more := if ms.LastMember? then Ascii("}") else Ascii(",") + MembersText(ms.rest);
    Regrouped(ms.m.ws, Quoted(ms.m.key), ms.m.colonWs, Ascii(":"), ValueText(ms.m.v), ms.m.endWs, more);
  }

  lemma Regrouped(a: seq<byte>, b: seq<byte>, c: seq<byte>, d: seq<byte>, e: seq<byte>, f: seq<byte>, g: seq<byte>)
    ensures a + (b + (c + (d + (e + (f + g))))) == a + b + c + d + e + f + g
  {
  }

  /** A number's parts and their signs. */
  lemma {:induction false} NumbersInText(n: NumberText)
    ensures NumText(n)
         == (if n.minus then Ascii("-") else []) + n.whole
            + (match n.frac case NoFraction => [] case Fraction(ds) => Ascii(".") + ds)
            + (match n.exp case NoExponent => [] case Exponent(e, sign, ds) => [e] + sign + ds)
    ensures NumberOk(n) && n.exp.Exponent? ==> OneOf(n.exp.e, "eE") && n.exp.sign in {[], Ascii("+"), Ascii("-")}
    ensures NumberOk(n) && n.whole != Ascii("0") ==> n.whole != [] && n.whole[0] as int != '0' as int
  {
    assert Ascii("+") == [PLUS] && Ascii("-") == [MINUS] && Ascii(".") == [DOT] && Ascii("0") == [ZERO];
    hide Ascii;
    if NumberOk(n) && n.exp.Exponent? {
      Among(n.exp.e, "eE", if n.exp.e == 0x65 then 0 else 1);
    }
  }

  // ---- what a profile says of a number's spelling ----

  lemma {:induction false} DigitsPlain(s: seq<byte>)
    requires IsDigits(s)
    ensures DOT !in s && LOWER_E !in s && UPPER_E !in s && MINUS !in s
  {
  }

  /** A number counts as no integer exactly when it is written with a fraction or an exponent, whatever its
      value; it counts as a negative zero exactly when it is zero and written with a minus. */
  lemma {:induction false} NumberSpelling(n: NumberText, rules: NumberRules)
    requires NumberOk(n)
    ensures Answer(Node.Number(NumText(n)), NotIntText, rules) <==> n.frac.Fraction? || n.exp.Exponent?
    ensures Answer(Node.Number(NumText(n)), NegZero, rules) <==> n.minus && rules.isZero(NumText(n))
  {
    var text := NumText(n);
    assert IsDigits(n.whole);
    DigitsPlain(n.whole);
    if n.frac.Fraction? {
      assert DOT in FractionText(n.frac) by { assert FractionText(n.frac)[0] == DOT; }
    }
    if n.exp.Exponent? {
      assert n.exp.e in ExponentText(n.exp) by { assert ExponentText(n.exp)[0] == n.exp.e; }
    }
    assert text != [] && (text[0] == MINUS <==> n.minus);
  }

  // ---- the layout of canonical texts ----

  /** In a key only quote, backslash and control characters are escaped, the last always as four digits in
      lower case. */
  lemma {:induction false} EscapedByte(c: byte)
    ensures OneOf(c, "\"\\") ==> EscapeByte(c) == Ascii("\\") + [c]
    ensures c as int < 0x20 ==>
      |EscapeByte(c)| == 6 && EscapeByte(c)[..4] == Ascii("\\u00")
      && EscapeByte(c)[4] as int == "0123456789abcdef"[c as nat / 16] as int
      && EscapeByte(c)[5] as int == "0123456789abcdef"[c as nat % 16] as int
    ensures c as int >= 0x20 && !OneOf(c, "\"\\") ==> EscapeByte(c) == [c]
  {
    PlainLetter(c);
    if c < 0x20 {
      DigitChars(c as nat / 16);
      DigitChars(c as nat % 16);
    }
  }

  /** No blanks, members in this order. */
  lemma {:induction false} CanonicalLayout(s: Shape)
    ensures match s
      case Null => Enc(s) == Ascii("{\"t\":\"") + Ascii("null") + Ascii("\"}")
      case Bool => Enc(s) == Ascii("{\"t\":\"") + Ascii("bool") + Ascii("\"}")
      case Number => Enc(s) == Ascii("{\"t\":\"") + Ascii("num") + Ascii("\"}")
      case String => Enc(s) == Ascii("{\"t\":\"") + Ascii("str") + Ascii("\"}")
      case Array(elems, e) =>
        Enc(s) == Ascii("{\"t\":\"arr\",\"e\":\"") + EmptinessText(e) + Ascii("\",\"of\":[") + EncSet(elems)
          + Ascii("]}")
      case Object(fields) => Enc(s) == Ascii("{\"t\":\"obj\",\"f\":{") + EncFields(fields) + Ascii("}}")
  {
    hide Ascii, EmptinessText, EncSet, EncFields;
  }

  /** Elements and fields stand between commas, a key and its value on either side of a colon. */
  lemma {:induction false} ListLayout(elems: seq<Shape>, fields: seq<ShapeField>)
    ensures EncSet([]) == [] == EncFields([])
    ensures elems != [] ==>
      EncSet(elems) == Enc(elems[0]) + if |elems| == 1 then [] else Ascii(",") + EncSet(elems[1..])
    ensures fields != [] ==>
      EncFields(fields)
      == Ascii("\"") + EscapeKey(fields[0].key) + Ascii("\"") + Ascii(":") + Enc(fields[0].value)
         + if |fields| == 1 then [] else Ascii(",") + EncFields(fields[1..])
  {
    Punctuation();
    hide Ascii, Enc, EscapeKey;
  }

  /** The generalized text: the flag, the types, then children and element where there are any. */
  lemma {:induction false} GeneralizedLayout(v: View)
    ensures GenText(v)
         == (Ascii("{") + Quotes("optional") + Ascii(":")) + (if v.optional then Ascii("true") else Ascii("false"))
            + (Ascii(",") + Quotes("types") + Ascii(":") + Ascii("[")) + NamesText(Names(v)) + Ascii("]")
            + (if v.children == [] then []
               else
                 (Ascii(",") + Quotes("children") + Ascii(":") + Ascii("{")) + ChildrenText(v.children) + Ascii("}"))
            + (match v.elem case None => [] case Some(e) => (Ascii(",") + Quotes("elem") + Ascii(":")) + GenText(e))
            + Ascii("}")
  {
    Heads();
    Punctuation();
    TruthWords();
    hide Ascii, NamesText, ChildrenText, Seen, TypeTable, Quotes, OPTIONAL_HEAD, TYPES_HEAD, CHILDREN_HEAD, ELEM_HEAD;
  }

  lemma Heads()
    ensures OPTIONAL_HEAD == Ascii("{") + Quotes("optional") + Ascii(":")
    ensures TYPES_HEAD == Ascii(",") + Quotes("types") + Ascii(":") + Ascii("[")
    ensures CHILDREN_HEAD == Ascii(",") + Quotes("children") + Ascii(":") + Ascii("{")
    ensures ELEM_HEAD == Ascii(",") + Quotes("elem") + Ascii(":")
  {
    Punctuation();
    hide Ascii;
    LabelText("optional");
    LabelText("types");
    LabelText("children");
    LabelText("elem");
    hide Label, Quotes;
  }

  function Quotes(s: string): seq<byte>
    requires PlainText(s)
  {
    Ascii("\"") + Ascii(s) + Ascii("\"")
  }

  lemma LabelText(s: string)
    requires PlainText(s)
    ensures Label(Ascii(s)) == Quotes(s) + Ascii(":")
  {
    Punctuation();
    hide Ascii;
  }

  lemma Punctuation()
    ensures Ascii(",") == [COMMA] && Ascii(":") == [COLON] && Ascii("\"") == [QUOTE]
    ensures Ascii("{") == [LBRACE] && Ascii("}") == [RBRACE] && Ascii("[") == [LBRACKET] && Ascii("]") == [RBRACKET]
  {
  }

  lemma TruthWords()
    ensures Ascii("true") == TRUE_TEXT && Ascii("false") == FALSE_TEXT
  {
  }

  /** Names and children stand between commas. */
  lemma {:induction false} GeneralizedLists(names: seq<seq<byte>>, cs: seq<ViewField>)
    ensures NamesText([]) == [] == ChildrenText([])
    ensures names != [] ==>
      var n := |names| - 1;
      NamesText(names)
      == NamesText(names[..n]) + (if n > 0 then Ascii(",") else [])
         + (Ascii("\"") + EscapeKey(names[n]) + Ascii("\""))
    ensures cs != [] ==>
      var n := |cs| - 1;
      ChildrenText(cs)
      == ChildrenText(cs[..n]) + (if n > 0 then Ascii(",") else [])
         + (Ascii("\"") + EscapeKey(cs[n].key) + Ascii("\"") + Ascii(":") + GenText(cs[n].view))
  {
    Punctuation();
    hide Ascii, GenText, EscapeKey;
  }
}
