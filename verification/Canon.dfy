/** The canonical text of a shape, and the JSON tree that spells it. The printer's constant pieces
    of text are cut at other places than the tree's members are, so most lemmas here only regroup
    one and the same sequence of bytes. */
module Canon {
  import opened Utf8
  import opened Shapes
  import opened Grammar
  import Json

  /** The bytes of an ASCII literal. */
  function Ascii(s: string): (b: seq<byte>)
    requires forall i | 0 <= i < |s| :: s[i] as int < 0x80
    ensures |b| == |s| && forall i | 0 <= i < |s| :: b[i] as int == s[i] as int
  {
    seq(|s|, i requires 0 <= i < |s| => s[i] as int as byte)
  }

  const ARRAY_HEAD := Ascii("{\"t\":\"arr\",\"e\":\"")
  const ARRAY_MIDDLE := Ascii("\",\"of\":[")
  const ARRAY_END := Ascii("]}")
  const OBJECT_HEAD := Ascii("{\"t\":\"obj\",\"f\":{")
  const OBJECT_END := Ascii("}}")

  const KEY_T := Ascii("t")
  const KEY_E := Ascii("e")
  const KEY_OF := Ascii("of")
  const KEY_F := Ascii("f")
  const WORD_ARR := Ascii("arr")
  const WORD_OBJ := Ascii("obj")

  function LowerHex(v: nat): (c: byte)
    requires v < 16
    ensures Json.IsHex(c) && Json.HexValue(c) == v
  {
    if v < 10 then (0x30 + v) as byte else (0x61 + v - 10) as byte
  }

  // ---- keys ----

  /** One byte of a key, as the printer writes it. */
  function EscapeByte(c: byte): seq<byte> {
    if c == Json.QUOTE || c == Json.BACKSLASH then [Json.BACKSLASH, c]
    else if c < 0x20 then
      [Json.BACKSLASH, Json.LOWER_U, 0x30, 0x30, LowerHex(c as nat / 16), LowerHex(c as nat % 16)]
    else [c]
  }

  function EscapeKey(k: seq<byte>): seq<byte> {
    if k == [] then [] else EscapeByte(k[0]) + EscapeKey(k[1..])
  }

  function JsonString(k: seq<byte>): seq<byte> {
    [Json.QUOTE] + EscapeKey(k) + [Json.QUOTE]
  }

  // ---- shapes ----

  function EmptinessText(e: Emptiness): seq<byte> {
    match e
    case Empty => Ascii("empty")
    case NonEmpty => Ascii("nonempty")
    case Partial => Ascii("partial")
  }

  /** Printable ASCII that needs no escape. */
  predicate PlainText(s: string) {
    forall i | 0 <= i < |s| :: 0x20 <= s[i] as int < 0x80 && s[i] != '\"' && s[i] != '\\'
  }

  /** The text of a scalar's shape: one member, `t`. */
  function Tagged(kind: string): seq<byte>
    requires PlainText(kind)
  {
    Ascii("{\"t\":\"") + Ascii(kind) + Ascii("\"}")
  }

  /** `canonical_bytes`. */
  function Enc(s: Shape): seq<byte> {
    match s
    case Null => Tagged("null")
    case Bool => Tagged("bool")
    case Number => Tagged("num")
    case String => Tagged("str")
    case Array(elems, e) =>
      ARRAY_HEAD + EmptinessText(e) + ARRAY_MIDDLE + EncSet(elems) + ARRAY_END
    case Object(fields) =>
      OBJECT_HEAD + EncFields(fields) + OBJECT_END
  }

  function EncSet(elems: seq<Shape>): seq<byte> {
    if elems == [] then []
    else if |elems| == 1 then Enc(elems[0])
    else Enc(elems[0]) + [Json.COMMA] + EncSet(elems[1..])
  }

  function EncField(f: ShapeField): seq<byte> {
    JsonString(f.key) + [Json.COLON] + Enc(f.value)
  }

  function EncFields(fields: seq<ShapeField>): seq<byte> {
    if fields == [] then []
    else if |fields| == 1 then EncField(fields[0])
    else EncField(fields[0]) + [Json.COMMA] + EncFields(fields[1..])
  }

  // ---- the tree the text spells ----

  function PieceOf(c: byte): Piece {
    if c == Json.QUOTE || c == Json.BACKSLASH then Escape(c)
    else if c < 0x20 then Unicode([0x30, 0x30, LowerHex(c as nat / 16), LowerHex(c as nat % 16)])
    else Raw(c)
  }

  function Pieces(k: seq<byte>): seq<Piece> {
    if k == [] then [] else [PieceOf(k[0])] + Pieces(k[1..])
  }

  lemma PieceOfByte(c: byte)
    ensures PieceOk(PieceOf(c)) && PieceText(PieceOf(c)) == EscapeByte(c) && PieceBytes(PieceOf(c)) == [c]
  {
    if PieceOf(c).Unicode? {
      var h := PieceOf(c).h;
      assert Json.HexNumber(h[..1]) == 0 by { assert h[..1][..0] == []; }
      assert h[..2][..1] == h[..1] && h[..3][..2] == h[..2] && h[..4] == h;
      assert Json.HexNumber(h[..2]) == 0;
      assert Json.HexNumber(h[..3]) == c as nat / 16;
      assert Json.HexNumber(h) == c as nat;
    }
  }

  lemma {:induction false} PiecesSpell(k: seq<byte>)
    ensures PiecesOk(Pieces(k)) && StringText(Pieces(k)) == EscapeKey(k) && StringBytes(Pieces(k)) == k
    decreases |k|
  {
    if k != [] {
      PiecesSpell(k[1..]);
      PieceOfByte(k[0]);
      var ps := Pieces(k);
      assert ps[0] == PieceOf(k[0]) && ps[1..] == Pieces(k[1..]);
      assert k == [k[0]] + k[1..];
    }
  }

  function StringTree(s: seq<byte>): Value {
    Value([], Str(Pieces(s)))
  }

  function MemberTree(key: seq<byte>, v: Value): Member {
    Member([], Pieces(key), [], v, [])
  }

  function Tag(kind: seq<byte>): Member {
    MemberTree(KEY_T, StringTree(kind))
  }

  function Tree(s: Shape): Value
    decreases s, 0
  {
    match s
    case Null => Value([], Obj(LastMember(Tag(Ascii("null")))))
    case Bool => Value([], Obj(LastMember(Tag(Ascii("bool")))))
    case Number => Value([], Obj(LastMember(Tag(Ascii("num")))))
    case String => Value([], Obj(LastMember(Tag(Ascii("str")))))
    case Array(elems, e) =>
      Value([], Obj(MoreMembers(Tag(WORD_ARR),
                    MoreMembers(MemberTree(KEY_E, StringTree(EmptinessText(e))),
                    LastMember(MemberTree(KEY_OF, OfTree(elems)))))))
    case Object(fields) =>
      Value([], Obj(MoreMembers(Tag(WORD_OBJ),
                    LastMember(MemberTree(KEY_F, FTree(fields))))))
  }

  /** The value of the `of` member. */
  function OfTree(elems: seq<Shape>): Value
    decreases elems, 1
  {
    Value([], if elems == [] then EmptyArr([]) else Arr(ElemTrees(elems)))
  }

  /** The value of the `f` member. */
  function FTree(fields: seq<ShapeField>): Value
    decreases fields, 1
  {
    Value([], if fields == [] then EmptyObj([]) else Obj(FieldTrees(fields)))
  }

  function ElemTrees(elems: seq<Shape>): Elements
    requires elems != []
    decreases elems, 0
  {
    if |elems| == 1 then LastElement(Tree(elems[0]), [])
    else MoreElements(Tree(elems[0]), [], ElemTrees(elems[1..]))
  }

  function FieldTrees(fields: seq<ShapeField>): Members
    requires fields != []
    decreases fields, 0
  {
    var m := MemberTree(fields[0].key, Tree(fields[0].value));
    if |fields| == 1 then LastMember(m) else MoreMembers(m, FieldTrees(fields[1..]))
  }

  // ---- the tree spells the text ----

  lemma {:induction false} PlainKey(k: seq<byte>)
    requires forall i | 0 <= i < |k| :: k[i] >= 0x20 && k[i] != Json.QUOTE && k[i] != Json.BACKSLASH
    ensures EscapeKey(k) == k
    decreases |k|
  {
    if k != [] {
      PlainKey(k[1..]);
      assert k == [k[0]] + k[1..];
    }
  }

  lemma {:induction false} EscapeLonger(k: seq<byte>)
    ensures |EscapeKey(k)| >= |k|
    decreases |k|
  {
    if k != [] {
      EscapeLonger(k[1..]);
    }
  }

  lemma PlainAscii(s: string)
    requires PlainText(s)
    ensures JsonString(Ascii(s)) == [Json.QUOTE] + Ascii(s) + [Json.QUOTE] && ValidUtf8(Ascii(s))
  {
    PlainKey(Ascii(s));
    AsciiValid(Ascii(s));
  }

  /** The literal pieces of the encoding, cut where the JSON grammar cuts them. */
  lemma TaggedText(kind: string)
    requires PlainText(kind)
    ensures Tagged(kind)
         == [Json.LBRACE] + (JsonString(KEY_T) + [Json.COLON] + JsonString(Ascii(kind)) + [Json.RBRACE])
  {
    PlainWords();
    PlainAscii(kind);
  }

  /** The words and keys of the encoding need no escape. */
  lemma PlainWords()
    ensures forall k | k in {KEY_T, KEY_E, KEY_OF, KEY_F, WORD_ARR, WORD_OBJ} ::
              JsonString(k) == [Json.QUOTE] + k + [Json.QUOTE] && ValidUtf8(k)
  {
    hide JsonString, ValidUtf8;
    PlainAscii("t");
    PlainAscii("e");
    PlainAscii("of");
    PlainAscii("f");
    PlainAscii("arr");
    PlainAscii("obj");
  }

  lemma ArrayHead()
    ensures ARRAY_HEAD
         == [Json.LBRACE] + JsonString(KEY_T) + [Json.COLON] + JsonString(WORD_ARR) + [Json.COMMA]
            + JsonString(KEY_E) + [Json.COLON] + [Json.QUOTE]
  {
    hide JsonString;
    PlainWords();
  }

  lemma ArrayMiddle()
    ensures ARRAY_MIDDLE
         == [Json.QUOTE] + [Json.COMMA] + JsonString(KEY_OF) + [Json.COLON] + [Json.LBRACKET]
    ensures ARRAY_END == [Json.RBRACKET] + [Json.RBRACE]
  {
    hide JsonString;
    PlainWords();
  }

  lemma ObjectHead()
    ensures OBJECT_HEAD
         == [Json.LBRACE] + JsonString(KEY_T) + [Json.COLON] + JsonString(WORD_OBJ) + [Json.COMMA]
            + JsonString(KEY_F) + [Json.COLON] + [Json.LBRACE]
    ensures OBJECT_END == [Json.RBRACE] + [Json.RBRACE]
  {
    hide JsonString;
    PlainWords();
  }

  lemma QuotedPieces(k: seq<byte>)
    ensures Quoted(Pieces(k)) == JsonString(k)
  {
    PiecesSpell(k);
  }

  lemma StringTreeText(k: seq<byte>)
    ensures ValueText(StringTree(k)) == JsonString(k)
    ensures ValidUtf8(k) ==> ValueOk(StringTree(k))
  {
    hide Pieces, EscapeKey, ValidUtf8, StringText, StringBytes, PiecesOk, PieceOk;
    PiecesSpell(k);
  }

  lemma MemberTreeText(key: seq<byte>, v: Value, ms: Members)
    requires ms.m == MemberTree(key, v)
    ensures MembersText(ms) == JsonString(key) + [Json.COLON] + ValueText(v)
                               + if ms.LastMember? then [Json.RBRACE] else [Json.COMMA] + MembersText(ms.rest)
    ensures ValidUtf8(key) && ValueOk(v) && (ms.MoreMembers? ==> MembersOk(ms.rest)) ==> MembersOk(ms)
  {
    hide Quoted, ValueText, JsonString, ValidUtf8;
    QuotedPieces(key);
    PiecesSpell(key);
    var tail := if ms.LastMember? then [Json.RBRACE] else [Json.COMMA] + MembersText(ms.rest);
    assert MembersText(ms) == [] + (Quoted(Pieces(key)) + ([] + ([Json.COLON] + (ValueText(v) + ([] + tail)))));
    NoBlanks(Quoted(Pieces(key)), ValueText(v), tail);
  }

  lemma NoBlanks(k: seq<byte>, v: seq<byte>, tail: seq<byte>)
    ensures [] + (k + ([] + ([Json.COLON] + (v + ([] + tail))))) == k + [Json.COLON] + v + tail
  {
  }

  lemma BracedText(c: Core)
    ensures c.Obj? ==> ValueText(Value([], c)) == [Json.LBRACE] + MembersText(c.members)
    ensures c.Arr? ==> ValueText(Value([], c)) == [Json.LBRACKET] + ElementsText(c.elements)
    ensures c == EmptyObj([]) ==> ValueText(Value([], c)) == [Json.LBRACE] + [Json.RBRACE]
    ensures c == EmptyArr([]) ==> ValueText(Value([], c)) == [Json.LBRACKET] + [Json.RBRACKET]
  {
    hide MembersText, ElementsText, StringText, NumText;
  }

  lemma TagTreeText(kind: string)
    requires PlainText(kind)
    ensures var v := Value([], Obj(LastMember(Tag(Ascii(kind))))); ValueText(v) == Tagged(kind) && ValueOk(v)
  {
    hide ValueText, MembersText, JsonString, Ascii, ValidUtf8, Tagged;
    PlainWords();
    PlainAscii(kind);
    TaggedText(kind);
    StringTreeText(Ascii(kind));
    var ms := LastMember(Tag(Ascii(kind)));
    MemberTreeText(KEY_T, StringTree(Ascii(kind)), ms);
    BracedText(Obj(ms));
  }

  lemma ScalarTreeText(s: Shape)
    requires !s.Array? && !s.Object?
    ensures ValueText(Tree(s)) == Enc(s) && ValueOk(Tree(s))
  {
    hide ValueText, ValueOk, Tag, Tagged;
    TagTreeText("null");
    TagTreeText("bool");
    TagTreeText("num");
    TagTreeText("str");
  }

  /** `WellFormed` of every element, for the loops over a set. */
  predicate WellFormedSet(elems: seq<Shape>) {
    forall x | x in elems :: WellFormed(x)
  }

  predicate WellFormedFields(fields: seq<ShapeField>) {
    forall f | f in fields :: ValidUtf8(f.key) && WellFormed(f.value)
  }

  /** The tree of a shape spells its canonical text. */
  lemma {:induction false} TreeText(s: Shape)
    requires WellFormed(s)
    ensures ValueText(Tree(s)) == Enc(s) && ValueOk(Tree(s))
    decreases s
  {
    match s
    case Array(elems, e) =>
      if elems != [] {
        ElemTreesText(elems);
      }
      ArrayTreeText(s);
    case Object(fields) =>
      if fields != [] {
        FieldTreesText(fields);
      }
      ObjectTreeText(s);
    case _ => ScalarTreeText(s);
  }

  lemma {:induction false} ElemTreesText(elems: seq<Shape>)
    requires elems != [] && WellFormedSet(elems)
    ensures ElementsText(ElemTrees(elems)) == EncSet(elems) + [Json.RBRACKET] && ElementsOk(ElemTrees(elems))
    decreases elems
  {
    hide ValueText, ValueOk, Tree, Enc;
    TreeText(elems[0]);
    if |elems| > 1 {
      ElemTreesText(elems[1..]);
    }
  }

  lemma {:induction false} FieldTreesText(fields: seq<ShapeField>)
    requires fields != [] && WellFormedFields(fields)
    ensures MembersText(FieldTrees(fields)) == EncFields(fields) + [Json.RBRACE] && MembersOk(FieldTrees(fields))
    decreases fields
  {
    hide ValueText, ValueOk, Tree, Enc, JsonString, MembersText, MembersOk, ValidUtf8;
    var f := fields[0];
    TreeText(f.value);
    MemberTreeText(f.key, Tree(f.value), FieldTrees(fields));
    if |fields| > 1 {
      FieldTreesText(fields[1..]);
      assert EncField(f) + ([Json.COMMA] + (EncFields(fields[1..]) + [Json.RBRACE]))
        == EncFields(fields) + [Json.RBRACE];
    }
  }

  lemma EmptinessPlain(e: Emptiness)
    ensures JsonString(EmptinessText(e)) == [Json.QUOTE] + EmptinessText(e) + [Json.QUOTE]
    ensures ValidUtf8(EmptinessText(e))
  {
    hide JsonString, ValidUtf8, Ascii;
    PlainAscii("empty");
    PlainAscii("nonempty");
    PlainAscii("partial");
  }

  lemma OfTreeText(elems: seq<Shape>)
    requires elems != [] ==>
      ElementsText(ElemTrees(elems)) == EncSet(elems) + [Json.RBRACKET] && ElementsOk(ElemTrees(elems))
    ensures ValueText(OfTree(elems)) == [Json.LBRACKET] + (EncSet(elems) + [Json.RBRACKET]) && ValueOk(OfTree(elems))
  {
    hide ElementsText, ElementsOk, ElemTrees, Enc;
    BracedText(OfTree(elems).core);
  }

  lemma FTreeText(fields: seq<ShapeField>)
    requires fields != [] ==>
      MembersText(FieldTrees(fields)) == EncFields(fields) + [Json.RBRACE] && MembersOk(FieldTrees(fields))
    ensures ValueText(FTree(fields)) == [Json.LBRACE] + (EncFields(fields) + [Json.RBRACE]) && ValueOk(FTree(fields))
  {
    hide MembersText, MembersOk, FieldTrees, Enc;
    BracedText(FTree(fields).core);
  }

  lemma ArrayTreeText(s: Shape)
    requires s.Array?
    requires s.elems != [] ==>
      ElementsText(ElemTrees(s.elems)) == EncSet(s.elems) + [Json.RBRACKET] && ElementsOk(ElemTrees(s.elems))
    ensures ValueText(Tree(s)) == Enc(s) && ValueOk(Tree(s))
  {
    hide ValueText, ElementsText, ElementsOk, MembersText, MembersOk, OfTree, JsonString, ValidUtf8, Ascii,
      EmptinessText, EncSet, KEY_T, KEY_E, KEY_OF, WORD_ARR, ARRAY_HEAD, ARRAY_MIDDLE, ARRAY_END;
    var e := EmptinessText(s.emptiness);
    OfTreeText(s.elems);
    EmptinessPlain(s.emptiness);
    PlainWords();
    StringTreeText(e);
    StringTreeText(WORD_ARR);
    var m3 := LastMember(MemberTree(KEY_OF, OfTree(s.elems)));
    MemberTreeText(KEY_OF, OfTree(s.elems), m3);
    var m2 := MoreMembers(MemberTree(KEY_E, StringTree(e)), m3);
    MemberTreeText(KEY_E, StringTree(e), m2);
    var m1 := MoreMembers(Tag(WORD_ARR), m2);
    MemberTreeText(KEY_T, StringTree(WORD_ARR), m1);
    BracedText(Obj(m1));
    assert Tree(s) == Value([], Obj(m1));
    ArrayHead();
    ArrayMiddle();
    ArrayRegroup(JsonString(KEY_T), JsonString(WORD_ARR), JsonString(KEY_E), e, JsonString(KEY_OF), EncSet(s.elems));
  }

  lemma ArrayRegroup(t: seq<byte>, arr: seq<byte>, ek: seq<byte>, e: seq<byte>, of: seq<byte>, set_: seq<byte>)
    ensures [Json.LBRACE]
      + (t + [Json.COLON] + arr + ([Json.COMMA] + (ek + [Json.COLON] + ([Json.QUOTE] + e + [Json.QUOTE])
              + ([Json.COMMA] + (of + [Json.COLON] + ([Json.LBRACKET] + (set_ + [Json.RBRACKET])) + [Json.RBRACE])))))
         == ([Json.LBRACE] + t + [Json.COLON] + arr + [Json.COMMA] + ek + [Json.COLON] + [Json.QUOTE]) + e
            + ([Json.QUOTE] + [Json.COMMA] + of + [Json.COLON] + [Json.LBRACKET]) + set_
              + ([Json.RBRACKET] + [Json.RBRACE])
  {
  }

  lemma ObjectTreeText(s: Shape)
    requires s.Object?
    requires s.fields != [] ==>
      MembersText(FieldTrees(s.fields)) == EncFields(s.fields) + [Json.RBRACE] && MembersOk(FieldTrees(s.fields))
    ensures ValueText(Tree(s)) == Enc(s) && ValueOk(Tree(s))
  {
    hide ValueText, MembersText, MembersOk, FTree, JsonString, ValidUtf8, Ascii, EncFields, KEY_T, KEY_F, WORD_OBJ,
      OBJECT_HEAD, OBJECT_END;
    FTreeText(s.fields);
    PlainWords();
    StringTreeText(WORD_OBJ);
    var m2 := LastMember(MemberTree(KEY_F, FTree(s.fields)));
    MemberTreeText(KEY_F, FTree(s.fields), m2);
    var m1 := MoreMembers(Tag(WORD_OBJ), m2);
    MemberTreeText(KEY_T, StringTree(WORD_OBJ), m1);
    BracedText(Obj(m1));
    assert Tree(s) == Value([], Obj(m1));
    ObjectHead();
    ObjectRegroup(JsonString(KEY_T), JsonString(WORD_OBJ), JsonString(KEY_F), EncFields(s.fields));
  }

  lemma ObjectRegroup(t: seq<byte>, obj: seq<byte>, fk: seq<byte>, fields: seq<byte>)
    ensures [Json.LBRACE] + (t + [Json.COLON] + obj + ([Json.COMMA]
              + (fk + [Json.COLON] + ([Json.LBRACE] + (fields + [Json.RBRACE])) + [Json.RBRACE])))
         == ([Json.LBRACE] + t + [Json.COLON] + obj + [Json.COMMA] + fk + [Json.COLON] + [Json.LBRACE]) + fields
            + ([Json.RBRACE] + [Json.RBRACE])
  {
  }
}
