/** The parser undoes the canonical printer, so the canonical text identifies the shape. */
module RoundTrip {
  import opened Utf8
  import opened KeyOrder
  import opened Shapes
  import opened Grammar
  import opened Canon
  import opened ParseSpec
  import opened Recognition
  import Json

  /** The document that spells a shape. */
  function Spelled(s: Shape): Json.Node {
    match s
    case Null => Json.Object([Json.Field(KEY_T, Json.String(Ascii("null")))])
    case Bool => Json.Object([Json.Field(KEY_T, Json.String(Ascii("bool")))])
    case Number => Json.Object([Json.Field(KEY_T, Json.String(Ascii("num")))])
    case String => Json.Object([Json.Field(KEY_T, Json.String(Ascii("str")))])
    case Array(elems, e) =>
      Json.Object([Json.Field(KEY_T, Json.String(WORD_ARR)),
                   Json.Field(KEY_E, Json.String(EmptinessText(e))),
                   Json.Field(KEY_OF, Json.Array(SpelledSet(elems), false))])
    case Object(fields) =>
      Json.Object([Json.Field(KEY_T, Json.String(WORD_OBJ)),
                   Json.Field(KEY_F, Json.Object(SpelledFields(fields)))])
  }

  function SpelledSet(elems: seq<Shape>): (r: seq<Json.Node>)
    ensures |r| == |elems|
  {
    if elems == [] then [] else [Spelled(elems[0])] + SpelledSet(elems[1..])
  }

  function SpelledFields(fields: seq<ShapeField>): (r: seq<Json.Field>)
    ensures |r| == |fields|
    ensures forall i | 0 <= i < |fields| :: r[i].key == fields[i].key
  {
    if fields == [] then [] else [Json.Field(fields[0].key, Spelled(fields[0].value))] + SpelledFields(fields[1..])
  }

  /** Every bound at `n`. */
  function AllLimits(n: nat): Json.Limits {
    Json.Limits(n, n, n, n, n, n)
  }

  /** Room for the keys and words the printer itself writes. */
  predicate BaseRoom(lim: Json.Limits) {
    lim.maxStringLen >= 8 && lim.maxKeyLen >= 2 && lim.maxFieldsPerObject >= 3
  }

  /** Room for every set and every object of the shape. */
  predicate Roomy(s: Shape, lim: Json.Limits) {
    match s
    case Array(elems, _) => |elems| <= lim.maxArrayInspect && forall x | x in elems :: Roomy(x, lim)
    case Object(fields) =>
      |fields| <= lim.maxFieldsPerObject && forall f | f in fields :: |f.key| <= lim.maxKeyLen && Roomy(f.value, lim)
    case _ => true
  }

  predicate RoomySet(elems: seq<Shape>, lim: Json.Limits) {
    forall x | x in elems :: Roomy(x, lim)
  }

  predicate RoomyFields(fields: seq<ShapeField>, lim: Json.Limits) {
    forall f | f in fields :: |f.key| <= lim.maxKeyLen && Roomy(f.value, lim)
  }

  lemma StringTreeMeaning(k: seq<byte>, d: nat, lim: Json.Limits)
    requires ValidUtf8(k)
    ensures ValueOk(StringTree(k)) && Denote(StringTree(k), lim) == Json.String(k)
    ensures |k| <= lim.maxStringLen ==> Fits(StringTree(k), d, lim, true)
  {
    PiecesSpell(k);
  }

  /** One member in front of others: what it denotes and whether it fits. */
  lemma MemberTreeMeaning(key: seq<byte>, v: Value, ms: Members, d: nat, lim: Json.Limits)
    requires ms.m == MemberTree(key, v) && ValidUtf8(key) && ValueOk(v) && (ms.MoreMembers? ==> MembersOk(ms.rest))
    ensures MembersOk(ms)
    ensures MemberFields(ms, lim) == [Json.Field(key, Denote(v, lim))] +
      if ms.LastMember? then [] else MemberFields(ms.rest, lim)
    ensures |key| <= lim.maxKeyLen && Fits(v, d, lim, true) && (ms.MoreMembers? ==> MembersFit(ms.rest, d, lim, true))
      ==> MembersFit(ms, d, lim, true)
  {
    hide ValueOk, Denote, Fits, ValidUtf8;
    PiecesSpell(key);
  }

  lemma ObjMeaning(ms: Members, d: nat, lim: Json.Limits)
    requires MembersOk(ms) && MembersFit(ms, d + 1, lim, true) && d < lim.maxDepth
    requires |MemberFields(ms, lim)| <= lim.maxFieldsPerObject && Distinct(MemberFields(ms, lim))
    ensures var v := Value([], Obj(ms));
      ValueOk(v) && Fits(v, d, lim, true) && Denote(v, lim) == Json.Object(MemberFields(ms, lim))
  {
    hide MembersOk, MembersFit, MemberFields, Distinct;
  }

  lemma ShortWords()
    ensures forall k | k in {KEY_T, KEY_E, KEY_OF, KEY_F} :: |k| <= 2
    ensures |WORD_ARR| <= 8 && |WORD_OBJ| <= 8
    ensures KEY_T != KEY_E && KEY_T != KEY_OF && KEY_E != KEY_OF && KEY_T != KEY_F
  {
    assert KEY_T[0] == 0x74 && KEY_E[0] == 0x65 && KEY_F[0] == 0x66 && |KEY_OF| == 2;
  }

  lemma TagMeaning(kind: seq<byte>, d: nat, lim: Json.Limits)
    requires ValidUtf8(kind) && |kind| <= 8 && BaseRoom(lim) && d < lim.maxDepth
    ensures var v := Value([], Obj(LastMember(Tag(kind))));
      ValueOk(v) && Fits(v, d, lim, true) && Denote(v, lim) == Json.Object([Json.Field(KEY_T, Json.String(kind))])
  {
    hide ValidUtf8, KEY_T, StringTree, Fits, Denote, ValueOk, MembersOk, MembersFit, MemberFields;
    PlainWords();
    ShortWords();
    StringTreeMeaning(kind, d + 1, lim);
    var ms := LastMember(Tag(kind));
    MemberTreeMeaning(KEY_T, StringTree(kind), ms, d + 1, lim);
    assert [Json.Field(KEY_T, Json.String(kind))] + [] == [Json.Field(KEY_T, Json.String(kind))];
    ObjMeaning(ms, d, lim);
  }

  lemma ScalarMeaning(s: Shape, d: nat, lim: Json.Limits)
    requires !s.Array? && !s.Object? && BaseRoom(lim) && d < lim.maxDepth
    ensures ValueOk(Tree(s)) && Fits(Tree(s), d, lim, true) && Denote(Tree(s), lim) == Spelled(s)
  {
    hide ValidUtf8, Fits, Denote, ValueOk, Tag, Ascii, KEY_T;
    KindsShort();
    TagMeaning(Ascii("null"), d, lim);
    TagMeaning(Ascii("bool"), d, lim);
    TagMeaning(Ascii("num"), d, lim);
    TagMeaning(Ascii("str"), d, lim);
  }

  lemma KindsShort()
    ensures forall k | k in {Ascii("null"), Ascii("bool"), Ascii("num"), Ascii("str")} :: |k| <= 8 && ValidUtf8(k)
  {
    hide ValidUtf8, JsonString;
    PlainAscii("null");
    PlainAscii("bool");
    PlainAscii("num");
    PlainAscii("str");
  }

  /** The tree of a shape fits in limits twice as deep, and denotes the document that spells the shape. */
  lemma {:induction false} TreeMeaning(s: Shape, d: nat, lim: Json.Limits)
    requires WellFormed(s) && Roomy(s, lim) && BaseRoom(lim) && d + 2 * ShapeDepth(s) <= lim.maxDepth
    ensures ValueOk(Tree(s)) && Fits(Tree(s), d, lim, true) && Denote(Tree(s), lim) == Spelled(s)
    decreases s, 2
  {
    hide Tree, Spelled, Fits, Denote, ValueOk;
    match s
    case Array(elems, e) => ArrayMeaning(s, d, lim);
    case Object(fields) => ObjectMeaning(s, d, lim);
    case _ => ScalarMeaning(s, d, lim);
  }

  lemma {:induction false} ElemsMeaning(elems: seq<Shape>, d: nat, lim: Json.Limits, k: nat)
    requires elems != [] && WellFormedSet(elems) && RoomySet(elems, lim) && BaseRoom(lim)
    requires d + 2 * MaxElemDepth(elems) <= lim.maxDepth && |elems| <= k
    ensures var es := ElemTrees(elems);
      ElementsOk(es) && ElementsFit(es, d, lim, k) && Count(es) == |elems|
      && ElementNodes(es, lim, k) == SpelledSet(elems)
    decreases elems, 0
  {
    hide Tree, Spelled, Fits, Denote, ValueOk, ShapeDepth;
    TreeMeaning(elems[0], d, lim);
    if |elems| > 1 {
      ElemsMeaning(elems[1..], d, lim, k - 1);
    }
  }

  lemma {:induction false} FieldsMeaning(fields: seq<ShapeField>, d: nat, lim: Json.Limits)
    requires fields != [] && WellFormedFields(fields) && RoomyFields(fields, lim) && BaseRoom(lim)
    requires d + 2 * MaxFieldDepth(fields) <= lim.maxDepth
    ensures var ms := FieldTrees(fields);
      MembersOk(ms) && MembersFit(ms, d, lim, true) && MemberFields(ms, lim) == SpelledFields(fields)
    decreases fields, 0
  {
    hide Tree, Spelled, Fits, Denote, ValueOk, ShapeDepth, ValidUtf8, MembersOk, MembersFit, MemberFields;
    var f := fields[0];
    TreeMeaning(f.value, d, lim);
    if |fields| > 1 {
      FieldsMeaning(fields[1..], d, lim);
    }
    MemberTreeMeaning(f.key, Tree(f.value), FieldTrees(fields), d, lim);
  }

  lemma SpelledDistinct(fields: seq<ShapeField>)
    requires SortedFields(fields)
    ensures Distinct(SpelledFields(fields))
  {
    forall i, j | 0 <= i < j < |fields| ensures fields[i].key != fields[j].key {
      CompareKeysFlip(fields[i].key, fields[j].key);
    }
  }

  lemma {:induction false} OfMeaning(elems: seq<Shape>, d: nat, lim: Json.Limits)
    requires WellFormedSet(elems) && RoomySet(elems, lim) && BaseRoom(lim) && |elems| <= lim.maxArrayInspect
    requires d + 1 + 2 * MaxElemDepth(elems) <= lim.maxDepth
    ensures ValueOk(OfTree(elems)) && Fits(OfTree(elems), d, lim, true)
    ensures Denote(OfTree(elems), lim) == Json.Array(SpelledSet(elems), false)
    decreases elems, 1
  {
    if elems != [] {
      hide ElementsOk, ElementsFit, ElementNodes, ElemTrees, Count;
      ElemsMeaning(elems, d + 1, lim, lim.maxArrayInspect);
    }
  }

  lemma {:induction false} FMeaning(fields: seq<ShapeField>, d: nat, lim: Json.Limits)
    requires SortedFields(fields) && WellFormedFields(fields) && RoomyFields(fields, lim) && BaseRoom(lim)
    requires |fields| <= lim.maxFieldsPerObject && d + 1 + 2 * MaxFieldDepth(fields) <= lim.maxDepth
    ensures ValueOk(FTree(fields)) && Fits(FTree(fields), d, lim, true)
    ensures Denote(FTree(fields), lim) == Json.Object(SpelledFields(fields))
    decreases fields, 1
  {
    if fields != [] {
      hide *;
      FieldsMeaning(fields, d + 1, lim);
      SpelledDistinct(fields);
      FMeans(fields, d, lim);
    } else {
      hide ValidUtf8;
    }
  }

  /** From the members to the object. */
  lemma FMeans(fields: seq<ShapeField>, d: nat, lim: Json.Limits)
    requires fields != [] && d < lim.maxDepth && |SpelledFields(fields)| <= lim.maxFieldsPerObject
    requires Distinct(SpelledFields(fields))
    requires var ms := FieldTrees(fields);
      MembersOk(ms) && MembersFit(ms, d + 1, lim, true) && MemberFields(ms, lim) == SpelledFields(fields)
    ensures ValueOk(FTree(fields)) && Fits(FTree(fields), d, lim, true)
    ensures Denote(FTree(fields), lim) == Json.Object(SpelledFields(fields))
  {
    hide FieldTrees, MembersOk, MembersFit, MemberFields, Distinct, SpelledFields;
  }

  lemma DistinctThree(fs: seq<Json.Field>)
    requires |fs| <= 3
    requires |fs| >= 2 ==> fs[0].key != fs[1].key
    requires |fs| == 3 ==> fs[0].key != fs[2].key && fs[1].key != fs[2].key
    ensures Distinct(fs)
  {
  }

  lemma {:induction false} ArrayMeaning(s: Shape, d: nat, lim: Json.Limits)
    requires s.Array? && WellFormed(s) && Roomy(s, lim) && BaseRoom(lim) && d + 2 * ShapeDepth(s) <= lim.maxDepth
    ensures ValueOk(Tree(s)) && Fits(Tree(s), d, lim, true) && Denote(Tree(s), lim) == Spelled(s)
    decreases s, 1
  {
    hide ValidUtf8, KEY_T, KEY_E, KEY_OF, WORD_ARR, EmptinessText, StringTree, OfTree, SpelledSet, Fits, Denote,
      ValueOk, MembersOk, MembersFit, MemberFields, Distinct;
    PlainWords();
    ShortWords();
    EmptinessPlain(s.emptiness);
    EmptinessShort(s.emptiness);
    var e := EmptinessText(s.emptiness);
    OfMeaning(s.elems, d + 1, lim);
    StringTreeMeaning(e, d + 1, lim);
    StringTreeMeaning(WORD_ARR, d + 1, lim);
    var m3 := LastMember(MemberTree(KEY_OF, OfTree(s.elems)));
    MemberTreeMeaning(KEY_OF, OfTree(s.elems), m3, d + 1, lim);
    var m2 := MoreMembers(MemberTree(KEY_E, StringTree(e)), m3);
    MemberTreeMeaning(KEY_E, StringTree(e), m2, d + 1, lim);
    var m1 := MoreMembers(Tag(WORD_ARR), m2);
    MemberTreeMeaning(KEY_T, StringTree(WORD_ARR), m1, d + 1, lim);
    var f1, f2, f3 := Json.Field(KEY_T, Json.String(WORD_ARR)), Json.Field(KEY_E, Json.String(e)),
      Json.Field(KEY_OF, Json.Array(SpelledSet(s.elems), false));
    assert [f1] + ([f2] + ([f3] + [])) == [f1, f2, f3];
    DistinctThree([f1, f2, f3]);
    ObjMeaning(m1, d, lim);
    assert Tree(s) == Value([], Obj(m1));
  }

  lemma EmptinessShort(e: Emptiness)
    ensures |EmptinessText(e)| <= 8
  {
  }

  lemma {:induction false} ObjectMeaning(s: Shape, d: nat, lim: Json.Limits)
    requires s.Object? && WellFormed(s) && Roomy(s, lim) && BaseRoom(lim) && d + 2 * ShapeDepth(s) <= lim.maxDepth
    ensures ValueOk(Tree(s)) && Fits(Tree(s), d, lim, true) && Denote(Tree(s), lim) == Spelled(s)
    decreases s, 1
  {
    hide ValidUtf8, KEY_T, KEY_F, WORD_OBJ, StringTree, FTree, SpelledFields, Fits, Denote, ValueOk, MembersOk,
      MembersFit, MemberFields, Distinct;
    PlainWords();
    ShortWords();
    FMeaning(s.fields, d + 1, lim);
    StringTreeMeaning(WORD_OBJ, d + 1, lim);
    var m2 := LastMember(MemberTree(KEY_F, FTree(s.fields)));
    MemberTreeMeaning(KEY_F, FTree(s.fields), m2, d + 1, lim);
    var m1 := MoreMembers(Tag(WORD_OBJ), m2);
    MemberTreeMeaning(KEY_T, StringTree(WORD_OBJ), m1, d + 1, lim);
    var f1, f2 := Json.Field(KEY_T, Json.String(WORD_OBJ)), Json.Field(KEY_F, Json.Object(SpelledFields(s.fields)));
    assert [f1] + ([f2] + []) == [f1, f2];
    DistinctThree([f1, f2]);
    ObjMeaning(m1, d, lim);
    assert Tree(s) == Value([], Obj(m1));
  }

  // ---- the round trip ----

  /** The parser reads back, from the canonical text of any shape, the document that spells it. */
  lemma ParsesCanonical(s: Shape, lim: Json.Limits)
    requires WellFormed(s) && Roomy(s, lim) && BaseRoom(lim)
    requires 2 * ShapeDepth(s) <= lim.maxDepth && |Enc(s)| <= lim.maxBytes
    ensures ParseBounded(Enc(s), lim) == Json.Success(Spelled(s))
  {
    hide Tree, Enc, Fits, Denote, ValueOk, ValueText, ParseValue;
    TreeMeaning(s, 0, lim);
    TreeText(s);
    var doc := Document(Tree(s), []);
    assert DocumentText(doc) == Enc(s);
    AcceptedParses(Enc(s), lim, doc);
  }

  /** Different shapes are spelled by different documents. */
  lemma {:induction false} SpelledInjective(s: Shape, t: Shape)
    requires Spelled(s) == Spelled(t)
    ensures s == t
    decreases s
  {
    KindsDiffer(s, t);
    if s.Array? && t.Array? {
      FieldsOfThree(s, t);
      EmptinessDiffers(s.emptiness, t.emptiness);
      SpelledSetInjective(s.elems, t.elems);
    } else if s.Object? && t.Object? {
      FieldsOfTwo(s, t);
      SpelledFieldsInjective(s.fields, t.fields);
    }
  }

  lemma {:induction false} SpelledSetInjective(xs: seq<Shape>, ys: seq<Shape>)
    requires SpelledSet(xs) == SpelledSet(ys)
    ensures xs == ys
    decreases xs
  {
    if xs != [] && ys != [] {
      hide Spelled;
      assert SpelledSet(xs)[0] == SpelledSet(ys)[0] && SpelledSet(xs)[1..] == SpelledSet(ys)[1..];
      SpelledInjective(xs[0], ys[0]);
      SpelledSetInjective(xs[1..], ys[1..]);
      assert xs == [xs[0]] + xs[1..] && ys == [ys[0]] + ys[1..];
    }
  }

  lemma {:induction false} SpelledFieldsInjective(xs: seq<ShapeField>, ys: seq<ShapeField>)
    requires SpelledFields(xs) == SpelledFields(ys)
    ensures xs == ys
    decreases xs
  {
    if xs != [] && ys != [] {
      hide Spelled;
      assert SpelledFields(xs)[0] == SpelledFields(ys)[0] && SpelledFields(xs)[1..] == SpelledFields(ys)[1..];
      SpelledInjective(xs[0].value, ys[0].value);
      SpelledFieldsInjective(xs[1..], ys[1..]);
      assert xs == [xs[0]] + xs[1..] && ys == [ys[0]] + ys[1..];
    }
  }

  lemma FieldsOfThree(s: Shape, t: Shape)
    requires s.Array? && t.Array? && Spelled(s) == Spelled(t)
    ensures EmptinessText(s.emptiness) == EmptinessText(t.emptiness) && SpelledSet(s.elems) == SpelledSet(t.elems)
  {
    hide SpelledSet, EmptinessText;
    var f, g := Spelled(s).fields, Spelled(t).fields;
    assert f[1] == g[1] && f[2] == g[2];
  }

  lemma FieldsOfTwo(s: Shape, t: Shape)
    requires s.Object? && t.Object? && Spelled(s) == Spelled(t)
    ensures SpelledFields(s.fields) == SpelledFields(t.fields)
  {
    hide SpelledFields;
    var f, g := Spelled(s).fields, Spelled(t).fields;
    assert f[1] == g[1];
  }

  /** The word an encoding names its variant by. */
  function Word(s: Shape): seq<byte> {
    match s
    case Null => Ascii("null")
    case Bool => Ascii("bool")
    case Number => Ascii("num")
    case String => Ascii("str")
    case Array(_, _) => WORD_ARR
    case Object(_) => WORD_OBJ
  }

  lemma WordsDiffer(s: Shape, t: Shape)
    requires Word(s) == Word(t)
    ensures Rank(s) == Rank(t)
  {
    assert Word(s)[0] == Word(t)[0] && Word(s)[1] == Word(t)[1];
  }

  lemma KindsDiffer(s: Shape, t: Shape)
    requires Spelled(s) == Spelled(t)
    ensures Rank(s) == Rank(t)
  {
    hide Word, Ascii, SpelledSet, SpelledFields;
    assert Spelled(s).fields[0] == Spelled(t).fields[0];
    WordOf(s);
    WordOf(t);
    WordsDiffer(s, t);
  }

  lemma WordOf(s: Shape)
    ensures Spelled(s).Object? && |Spelled(s).fields| > 0
    ensures Spelled(s).fields[0] == Json.Field(KEY_T, Json.String(Word(s)))
  {
    hide Ascii, SpelledSet, SpelledFields;
  }

  lemma EmptinessDiffers(e: Emptiness, f: Emptiness)
    requires EmptinessText(e) == EmptinessText(f)
    ensures e == f
  {
    assert EmptinessText(e)[0] == EmptinessText(f)[0];
  }
}
