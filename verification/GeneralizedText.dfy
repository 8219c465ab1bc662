/** The text of the generalized view, the JSON tree that spells it and the document that tree denotes.
    An object is handled as a list of entries, grown at its end as the printer grows it; first for
    the text alone, then for its meaning under limits large enough to hold it. */
module GeneralizedText {
  import opened Sequences
  import opened Utf8
  import opened KeyOrder
  import opened Grammar
  import opened Canon
  import opened RoundTrip
  import opened Generalized
  import Json

  // ---- the text ----

  const OPTIONAL := Ascii("optional")
  const TYPES := Ascii("types")
  const CHILDREN := Ascii("children")
  const ELEM := Ascii("elem")

  /** A quoted label and its colon; the labels need no escape. */
  function Label(k: seq<byte>): seq<byte> {
    [Json.QUOTE] + k + [Json.QUOTE] + [Json.COLON]
  }

  const OPTIONAL_HEAD := [Json.LBRACE] + Label(OPTIONAL)
  const TYPES_HEAD := [Json.COMMA] + Label(TYPES) + [Json.LBRACKET]
  const CHILDREN_HEAD := [Json.COMMA] + Label(CHILDREN) + [Json.LBRACE]
  const ELEM_HEAD := [Json.COMMA] + Label(ELEM)

  /** The type names, in the order they are written, and whether each was seen. */
  function TypeTable(t: TypeSupport): seq<(seq<byte>, bool)> {
    [(Ascii("array"), t.arrays), (Ascii("bool"), t.bools), (Ascii("null"), t.nulls),
     (Ascii("number"), t.numbers), (Ascii("object"), t.objects), (Ascii("string"), t.strings)]
  }

  function Seen(table: seq<(seq<byte>, bool)>): seq<seq<byte>> {
    if table == [] then []
    else
      var n := |table| - 1;
      Seen(table[..n]) + if table[n].1 then [table[n].0] else []
  }

  function NamesText(names: seq<seq<byte>>): seq<byte> {
    if names == [] then []
    else
      var n := |names| - 1;
      NamesText(names[..n]) + (if n > 0 then [Json.COMMA] else []) + JsonString(names[n])
  }

  function BoolText(b: bool): seq<byte> {
    if b then Json.TRUE_TEXT else Json.FALSE_TEXT
  }

  /** `generalized_canonical_json` of the view. */
  function GenText(v: View): seq<byte> {
    BaseText(v)
    + (if v.children == [] then [] else CHILDREN_HEAD + ChildrenText(v.children) + [Json.RBRACE])
    + (match v.elem case None => [] case Some(e) => ELEM_HEAD + GenText(e))
    + [Json.RBRACE]
  }

  /** The flag and the types. */
  function BaseText(v: View): seq<byte> {
    OPTIONAL_HEAD + BoolText(v.optional) + TYPES_HEAD + NamesText(Seen(TypeTable(v.support))) + [Json.RBRACKET]
  }

  function ChildrenText(cs: seq<ViewField>): seq<byte> {
    if cs == [] then []
    else
      var n := |cs| - 1;
      ChildrenText(cs[..n]) + (if n > 0 then [Json.COMMA] else [])
      + (JsonString(cs[n].key) + [Json.COLON] + GenText(cs[n].view))
  }

  // ---- objects as lists of entries ----

  datatype Entry = Entry(key: seq<byte>, v: Value)

  function EntryMembers(es: seq<Entry>): Members
    requires es != []
    decreases |es|
  {
    var m := MemberTree(es[0].key, es[0].v);
    if |es| == 1 then LastMember(m) else MoreMembers(m, EntryMembers(es[1..]))
  }

  function EntryText(e: Entry): seq<byte> {
    JsonString(e.key) + [Json.COLON] + ValueText(e.v)
  }

  function EntriesText(es: seq<Entry>): seq<byte> {
    if es == [] then []
    else
      var n := |es| - 1;
      EntriesText(es[..n]) + (if n > 0 then [Json.COMMA] else []) + EntryText(es[n])
  }

  predicate EntriesOk(es: seq<Entry>) {
    forall e | e in es :: ValidUtf8(e.key) && ValueOk(e.v)
  }

  lemma LastEntry(es: seq<Entry>)
    requires es != []
    ensures var n := |es| - 1;
      EntriesText(es) == EntriesText(es[..n]) + (if n > 0 then [Json.COMMA] else []) + EntryText(es[n])
  {
    hide EntryText;
  }

  lemma OneEntry(e: Entry)
    ensures EntriesText([e]) == EntryText(e)
  {
    hide EntryText;
    assert [e][..0] == [];
  }

  lemma Shift(x: seq<byte>, y: seq<byte>, z: seq<byte>, w: seq<byte>)
    ensures x + (y + z) + w == x + (y + (z + w))
  {
  }

  lemma {:induction false} EntriesTextFront(es: seq<Entry>)
    requires es != []
    ensures EntriesText(es) == EntryText(es[0]) + if |es| == 1 then [] else [Json.COMMA] + EntriesText(es[1..])
    decreases |es|
  {
    hide *;
    var n := |es| - 1;
    if n == 0 {
      assert es == [es[0]];
      OneEntry(es[0]);
      assert EntryText(es[0]) + [] == EntryText(es[0]);
    } else {
      LastEntry(es);
      LastEntry(es[1..]);
      EntriesTextFront(es[..n]);
      assert es[..n][1..] == es[1..][..n - 1];
      if n == 1 {
        assert es[1..] == [es[1]] && es[..1] == [es[0]];
        OneEntry(es[0]);
        OneEntry(es[1]);
        Shift(EntryText(es[0]), [], [Json.COMMA], EntryText(es[1]));
      } else {
        Shift(EntryText(es[0]), [Json.COMMA], EntriesText(es[1..][..n - 1]), [Json.COMMA] + EntryText(es[n]));
        Associate(EntriesText(es[..n]), [Json.COMMA], EntryText(es[n]));
        Associate(EntriesText(es[1..][..n - 1]), [Json.COMMA], EntryText(es[n]));
      }
    }
  }

  lemma {:induction false} EntryMembersText(es: seq<Entry>)
    requires es != [] && EntriesOk(es)
    ensures MembersText(EntryMembers(es)) == EntriesText(es) + [Json.RBRACE] && MembersOk(EntryMembers(es))
    decreases |es|
  {
    hide ValueText, ValueOk, JsonString, MembersText, MembersOk, ValidUtf8, EntriesText;
    EntriesTextFront(es);
    MemberTreeText(es[0].key, es[0].v, EntryMembers(es));
    if |es| > 1 {
      EntryMembersText(es[1..]);
    }
  }

  function EntryFields(es: seq<Entry>, lim: Json.Limits): seq<Json.Field>
    requires EntriesOk(es)
  {
    if es == [] then [] else [Json.Field(es[0].key, Denote(es[0].v, lim))] + EntryFields(es[1..], lim)
  }

  predicate EntriesFit(es: seq<Entry>, d: nat, lim: Json.Limits)
    requires EntriesOk(es)
  {
    forall e | e in es :: |e.key| <= lim.maxKeyLen && Fits(e.v, d, lim, true)
  }

  lemma {:induction false} EntryMembersMeaning(es: seq<Entry>, d: nat, lim: Json.Limits)
    requires es != [] && EntriesOk(es) && EntriesFit(es, d, lim)
    ensures MembersOk(EntryMembers(es)) && MembersFit(EntryMembers(es), d, lim, true)
    ensures MemberFields(EntryMembers(es), lim) == EntryFields(es, lim)
    decreases |es|
  {
    hide ValueOk, ValidUtf8, MembersOk, MembersFit, MemberFields, Fits, Denote;
    if |es| > 1 {
      EntryMembersMeaning(es[1..], d, lim);
    } else {
      assert EntryFields(es[1..], lim) == [];
    }
    MemberTreeMeaning(es[0].key, es[0].v, EntryMembers(es), d, lim);
  }

  // ---- arrays of names ----

  function NameElements(names: seq<seq<byte>>): Elements
    requires names != []
    decreases |names|
  {
    if |names| == 1 then LastElement(StringTree(names[0]), [])
    else MoreElements(StringTree(names[0]), [], NameElements(names[1..]))
  }

  function NamesTree(names: seq<seq<byte>>): Value {
    Value([], if names == [] then EmptyArr([]) else Arr(NameElements(names)))
  }

  predicate NamesOk(names: seq<seq<byte>>) {
    forall n | n in names :: ValidUtf8(n)
  }

  lemma {:induction false} NamesTextFront(names: seq<seq<byte>>)
    requires names != []
    ensures NamesText(names) == JsonString(names[0]) + if |names| == 1 then [] else [Json.COMMA] + NamesText(names[1..])
    decreases |names|
  {
    hide JsonString;
    var n := |names| - 1;
    if n == 0 {
      assert names[..0] == [];
    } else {
      NamesTextFront(names[..n]);
      assert names[..n][1..] == names[1..][..n - 1];
      if n == 1 {
        assert names[1..][..0] == [];
        assert NamesText(names[1..]) == JsonString(names[1]) by { assert NamesText([]) == []; }
      }
    }
  }

  lemma {:induction false} NameElementsText(names: seq<seq<byte>>)
    requires names != [] && NamesOk(names)
    ensures ElementsText(NameElements(names)) == NamesText(names) + [Json.RBRACKET] && ElementsOk(NameElements(names))
    decreases |names|
  {
    hide ValueText, ValueOk, JsonString, ValidUtf8, StringTree, NamesText;
    NamesTextFront(names);
    StringTreeText(names[0]);
    if |names| > 1 {
      NameElementsText(names[1..]);
    }
  }

  lemma NamesTreeText(names: seq<seq<byte>>)
    requires NamesOk(names)
    ensures ValueText(NamesTree(names)) == [Json.LBRACKET] + (NamesText(names) + [Json.RBRACKET])
    ensures ValueOk(NamesTree(names))
  {
    hide ElementsText, ElementsOk, NameElements, ValidUtf8, JsonString;
    if names != [] {
      NameElementsText(names);
    }
    BracedText(NamesTree(names).core);
  }

  function NameNodes(names: seq<seq<byte>>): (r: seq<Json.Node>)
    ensures |r| == |names| && forall i | 0 <= i < |names| :: r[i] == Json.String(names[i])
  {
    if names == [] then [] else [Json.String(names[0])] + NameNodes(names[1..])
  }

  lemma {:induction false} NameElementsMeaning(names: seq<seq<byte>>, d: nat, lim: Json.Limits, k: nat)
    requires names != [] && NamesOk(names) && |names| <= k && forall n | n in names :: |n| <= lim.maxStringLen
    ensures var es := NameElements(names);
      ElementsOk(es) && ElementsFit(es, d, lim, k) && Count(es) == |names|
        && ElementNodes(es, lim, k) == NameNodes(names)
    decreases |names|
  {
    hide *;
    NamesOkSplit(names);
    StringTreeMeaning(names[0], d, lim);
    if |names| > 1 {
      NameElementsMeaning(names[1..], d, lim, k - 1);
    }
    NameElementsStep(names, d, lim, k);
  }

  lemma NamesOkSplit(names: seq<seq<byte>>)
    requires names != [] && NamesOk(names)
    ensures ValidUtf8(names[0]) && NamesOk(names[1..])
  {
    hide ValidUtf8;
  }

  /** The first name in front of the others. */
  lemma NameElementsStep(names: seq<seq<byte>>, d: nat, lim: Json.Limits, k: nat)
    requires names != [] && k > 0
    requires var v := StringTree(names[0]);
      ValueOk(v) && Fits(v, d, lim, true) && Denote(v, lim) == Json.String(names[0])
    requires |names| > 1 ==> var es := NameElements(names[1..]);
      ElementsOk(es) && ElementsFit(es, d, lim, k - 1) && Count(es) == |names| - 1
        && ElementNodes(es, lim, k - 1) == NameNodes(names[1..])
    ensures var es := NameElements(names);
      ElementsOk(es) && ElementsFit(es, d, lim, k) && Count(es) == |names|
        && ElementNodes(es, lim, k) == NameNodes(names)
  {
    hide ValueOk, ValidUtf8, Fits, Denote, StringTree;
    assert |names| == 1 ==> NameNodes(names[1..]) == [];
  }

  lemma ArrMeaning(es: Elements, d: nat, lim: Json.Limits)
    requires ElementsOk(es) && d < lim.maxDepth && ElementsFit(es, d + 1, lim, lim.maxArrayInspect)
    ensures var v := Value([], Arr(es));
      ValueOk(v) && Fits(v, d, lim, true)
      && Denote(v, lim) == Json.Array(ElementNodes(es, lim, lim.maxArrayInspect), Count(es) > lim.maxArrayInspect)
  {
    hide ElementsOk, ElementsFit, ElementNodes, Count;
  }

  lemma EmptyMeaning(d: nat, lim: Json.Limits)
    requires d < lim.maxDepth
    ensures var v := Value([], EmptyArr([]));
      ValueOk(v) && Fits(v, d, lim, true) && Denote(v, lim) == Json.Array(NameNodes([]), false)
  {
  }

  lemma NamesTreeIs(names: seq<seq<byte>>)
    ensures NamesTree(names) == Value([], if names == [] then EmptyArr([]) else Arr(NameElements(names)))
  {
    hide NameElements;
  }

  lemma NamesTreeMeaning(names: seq<seq<byte>>, d: nat, lim: Json.Limits)
    requires NamesOk(names) && d < lim.maxDepth && |names| <= lim.maxArrayInspect
    requires forall n | n in names :: |n| <= lim.maxStringLen
    ensures var v := NamesTree(names);
      ValueOk(v) && Fits(v, d, lim, true) && Denote(v, lim) == Json.Array(NameNodes(names), false)
  {
    hide *;
    NamesTreeIs(names);
    if names == [] {
      EmptyMeaning(d, lim);
    } else {
      NameElementsMeaning(names, d + 1, lim, lim.maxArrayInspect);
      ArrMeaning(NameElements(names), d, lim);
    }
  }

  // ---- the tree of a view ----

  function Names(v: View): seq<seq<byte>> {
    Seen(TypeTable(v.support))
  }

  function Entries(v: View): (es: seq<Entry>)
    ensures |es| >= 2
    decreases v, 0
  {
    BaseEntries(v)
    + (if v.children == [] then [] else [Entry(CHILDREN, Value([], Obj(EntryMembers(ChildEntries(v.children)))))])
    + (match v.elem case None => [] case Some(e) => [Entry(ELEM, GenTree(e))])
  }

  function BaseEntries(v: View): seq<Entry> {
    [Entry(OPTIONAL, Value([], if v.optional then TrueLit else FalseLit)), Entry(TYPES, NamesTree(Names(v)))]
  }

  function GenTree(v: View): Value
    decreases v, 1
  {
    Value([], Obj(EntryMembers(Entries(v))))
  }

  function ChildEntries(cs: seq<ViewField>): (es: seq<Entry>)
    ensures |es| == |cs|
    decreases cs, 0
  {
    if cs == [] then []
    else
      var n := |cs| - 1;
      ChildEntries(cs[..n]) + [Entry(cs[n].key, GenTree(cs[n].view))]
  }

  /** Child keys in increasing order, all of them UTF-8, at every level. */
  predicate ViewOk(v: View) {
    && (forall i, j | 0 <= i < j < |v.children| :: KeyLess(v.children[i].key, v.children[j].key))
    && (forall c | c in v.children :: ValidUtf8(c.key) && ViewOk(c.view))
    && (v.elem.Some? ==> ViewOk(v.elem.value))
  }

  predicate ChildrenOk(cs: seq<ViewField>) {
    forall c | c in cs :: ValidUtf8(c.key) && ViewOk(c.view)
  }

  lemma PlainLabels()
    ensures forall k | k in {OPTIONAL, TYPES, CHILDREN, ELEM} ::
              JsonString(k) == [Json.QUOTE] + k + [Json.QUOTE] && ValidUtf8(k) && |k| <= 8
    ensures OPTIONAL != TYPES && OPTIONAL != CHILDREN && OPTIONAL != ELEM && TYPES != CHILDREN && TYPES != ELEM
    ensures CHILDREN != ELEM
  {
    hide JsonString, ValidUtf8;
    PlainAscii("optional");
    PlainAscii("types");
    PlainAscii("children");
    PlainAscii("elem");
    assert OPTIONAL[0] == 0x6F && TYPES[0] == 0x74 && CHILDREN[0] == 0x63 && ELEM[0] == 0x65;
  }

  lemma Heads()
    ensures OPTIONAL_HEAD == [Json.LBRACE] + JsonString(OPTIONAL) + [Json.COLON]
    ensures TYPES_HEAD == [Json.COMMA] + JsonString(TYPES) + [Json.COLON] + [Json.LBRACKET]
    ensures CHILDREN_HEAD == [Json.COMMA] + JsonString(CHILDREN) + [Json.COLON] + [Json.LBRACE]
    ensures ELEM_HEAD == [Json.COMMA] + JsonString(ELEM) + [Json.COLON]
  {
    hide JsonString, OPTIONAL, TYPES, CHILDREN, ELEM;
    PlainLabels();
  }

  lemma {:induction false} SeenNames(table: seq<(seq<byte>, bool)>)
    ensures |Seen(table)| <= |table|
    ensures forall x | x in Seen(table) :: exists i :: 0 <= i < |table| && table[i].0 == x
    decreases |table|
  {
    if table != [] {
      var n := |table| - 1;
      SeenNames(table[..n]);
      forall x | x in Seen(table) ensures exists i :: 0 <= i < |table| && table[i].0 == x {
        if x in Seen(table[..n]) {
          var i :| 0 <= i < n && table[..n][i].0 == x;
          assert table[i].0 == x;
        } else {
          assert table[n].0 == x;
        }
      }
    }
  }

  lemma NamesFine(v: View)
    ensures NamesOk(Names(v)) && |Names(v)| <= 6 && forall x | x in Names(v) :: |x| <= 6
  {
    var t := TypeTable(v.support);
    assert |t| == 6;
    hide Seen, TypeTable, ValidUtf8, JsonString;
    SeenNames(t);
    TypeNames(v.support);
    forall x | x in Seen(t) ensures ValidUtf8(x) && |x| <= 6 {
      var i :| 0 <= i < |t| && t[i].0 == x;
      assert t[i] in t;
    }
  }

  lemma TypeName(s: string)
    requires s == "array" || s == "bool" || s == "null" || s == "number" || s == "object" || s == "string"
    ensures ValidUtf8(Ascii(s)) && |Ascii(s)| <= 6 && JsonString(Ascii(s)) == [Json.QUOTE] + Ascii(s) + [Json.QUOTE]
  {
    hide ValidUtf8, JsonString;
    PlainAscii(s);
  }

  /** The names of types are short and need no escaping. */
  lemma TypeNames(t: TypeSupport)
    ensures forall e | e in TypeTable(t) ::
      ValidUtf8(e.0) && |e.0| <= 6 && JsonString(e.0) == [Json.QUOTE] + e.0 + [Json.QUOTE]
  {
    hide ValidUtf8, JsonString, Ascii;
    TypeName("array");
    TypeName("bool");
    TypeName("null");
    TypeName("number");
    TypeName("object");
    TypeName("string");
  }

  lemma EntriesSnoc(es: seq<Entry>, e: Entry)
    ensures EntriesText(es + [e]) == EntriesText(es) + (if es != [] then [Json.COMMA] else []) + EntryText(e)
  {
    hide EntryText;
    assert (es + [e])[..|es|] == es;
  }

  /** Each entry of a view, spelled. */
  lemma {:induction false} EntriesSpell(v: View)
    requires ViewOk(v)
    ensures EntriesOk(Entries(v)) && [Json.LBRACE] + (EntriesText(Entries(v)) + [Json.RBRACE]) == GenText(v)
    decreases v, 0
  {
    hide ValueText, ValueOk, EntryMembers, ChildrenText, EntriesText, EntriesOk, ViewOk, BaseText, BaseEntries,
      NamesTree, CHILDREN, ELEM, CHILDREN_HEAD, ELEM_HEAD, GenText, GenTree, ChildEntries;
    BaseSpell(v);
    ViewParts(v);
    var base := BaseEntries(v);
    var mid := base +
      if v.children == [] then [] else [Entry(CHILDREN, Value([], Obj(EntryMembers(ChildEntries(v.children)))))];
    var childrenPart := if v.children == [] then [] else CHILDREN_HEAD + ChildrenText(v.children) + [Json.RBRACE];
    var elemPart := match v.elem case None => [] case Some(e) => ELEM_HEAD + GenText(e);
    if v.children != [] {
      ChildrenSpell(v.children);
      ChildrenEntrySpell(v.children, base);
    } else {
      assert mid == base && EntriesText(base) + [] == EntriesText(base);
    }
    assert EntriesOk(mid) && EntriesText(mid) == EntriesText(base) + childrenPart;
    if v.elem.Some? {
      TreeSpells(v.elem.value);
      ElemEntrySpell(v.elem.value, mid);
    } else {
      assert Entries(v) == mid && EntriesText(mid) + [] == EntriesText(mid);
    }
    assert EntriesText(Entries(v)) == EntriesText(mid) + elemPart;
    GenTextParts(v);
    Regroup(EntriesText(base), childrenPart, elemPart);
  }

  lemma Regroup(base: seq<byte>, children: seq<byte>, elem: seq<byte>)
    ensures [Json.LBRACE] + (base + children + elem + [Json.RBRACE])
      == [Json.LBRACE] + base + children + elem + [Json.RBRACE]
  {
  }

  lemma ViewParts(v: View)
    requires ViewOk(v)
    ensures ChildrenOk(v.children) && (v.elem.Some? ==> ViewOk(v.elem.value))
  {
  }

  lemma GenTextParts(v: View)
    ensures GenText(v) == BaseText(v)
                          + (if v.children == [] then [] else CHILDREN_HEAD + ChildrenText(v.children) + [Json.RBRACE])
                          + (match v.elem case None => [] case Some(e) => ELEM_HEAD + GenText(e)) + [Json.RBRACE]
  {
    hide ChildrenText, BaseText;
  }

  lemma BaseParts(v: View)
    ensures BaseEntries(v)
      == [Entry(OPTIONAL, Value([], if v.optional then TrueLit else FalseLit)), Entry(TYPES, NamesTree(Names(v)))]
    ensures BaseText(v) == OPTIONAL_HEAD + BoolText(v.optional) + TYPES_HEAD + NamesText(Names(v)) + [Json.RBRACKET]
  {
    hide NamesTree, NamesText, Seen, TypeTable, OPTIONAL, TYPES, OPTIONAL_HEAD, TYPES_HEAD, BoolText;
  }

  lemma BoolSpells(b: bool)
    ensures var v := Value([], if b then TrueLit else FalseLit); ValueText(v) == BoolText(b) && ValueOk(v)
  {
  }

  lemma EntryTextIs(e: Entry)
    ensures EntryText(e) == JsonString(e.key) + [Json.COLON] + ValueText(e.v)
  {
    hide JsonString, ValueText;
  }

  lemma TwoOk(o: Entry, t: Entry)
    requires ValidUtf8(o.key) && ValueOk(o.v) && ValidUtf8(t.key) && ValueOk(t.v)
    ensures EntriesOk([o, t])
  {
    hide ValidUtf8, ValueOk;
  }

  /** Two entries, in order. */
  lemma TwoText(o: Entry, t: Entry)
    ensures EntriesText([o, t]) == [] + [] + EntryText(o) + [Json.COMMA] + EntryText(t)
  {
    hide EntryText, EntriesText;
    EntriesSnoc([], o);
    EntriesSnoc([o], t);
    NoEntries();
    assert [] + [o] == [o] && [o] + [t] == [o, t];
  }

  lemma BaseSpell(v: View)
    ensures EntriesOk(BaseEntries(v)) && |BaseEntries(v)| == 2
    ensures [Json.LBRACE] + EntriesText(BaseEntries(v)) == BaseText(v)
  {
    hide *;
    BaseParts(v);
    var o, t := BaseEntries(v)[0], BaseEntries(v)[1];
    LabelsUtf8();
    NamesFine(v);
    NamesTreeText(Names(v));
    BoolSpells(v.optional);
    TwoOk(o, t);
    TwoText(o, t);
    EntryTextIs(o);
    EntryTextIs(t);
    Heads();
    TwoRegroup(JsonString(OPTIONAL), BoolText(v.optional), JsonString(TYPES), NamesText(Names(v)));
  }

  lemma LabelsUtf8()
    ensures ValidUtf8(OPTIONAL) && ValidUtf8(TYPES)
  {
    hide ValidUtf8, JsonString, OPTIONAL, TYPES, CHILDREN, ELEM;
    PlainLabels();
  }

  lemma NoEntries()
    ensures EntriesText([]) == []
  {
  }

  lemma TwoRegroup(o: seq<byte>, b: seq<byte>, t: seq<byte>, names: seq<byte>)
    ensures [Json.LBRACE]
      + ([] + [] + (o + [Json.COLON] + b) + [Json.COMMA]
      + (t + [Json.COLON] + ([Json.LBRACKET] + (names + [Json.RBRACKET]))))
         == ([Json.LBRACE] + o + [Json.COLON]) + b + ([Json.COMMA] + t + [Json.COLON] + [Json.LBRACKET]) + names
           + [Json.RBRACKET]
  {
  }

  lemma ChildrenEntrySpell(cs: seq<ViewField>, base: seq<Entry>)
    requires cs != [] && base != [] && EntriesOk(base) && EntriesOk(ChildEntries(cs))
    requires EntriesText(ChildEntries(cs)) == ChildrenText(cs)
    ensures var e := Entry(CHILDREN, Value([], Obj(EntryMembers(ChildEntries(cs)))));
      EntriesOk(base + [e])
        && EntriesText(base + [e]) == EntriesText(base) + (CHILDREN_HEAD + ChildrenText(cs) + [Json.RBRACE])
  {
    hide ValidUtf8, JsonString, ValueText, ValueOk, EntryMembers, ChildrenText, EntriesText, EntriesOk, ChildEntries,
      CHILDREN, CHILDREN_HEAD, MembersText, MembersOk;
    PlainLabels();
    var ms := EntryMembers(ChildEntries(cs));
    var e := Entry(CHILDREN, Value([], Obj(ms)));
    EntryMembersText(ChildEntries(cs));
    BracedText(e.v.core);
    ObjOk(ms);
    EntriesSnoc(base, e);
    Heads();
    OkSnoc(base, e);
    ChildrenRegroup(EntriesText(base), JsonString(CHILDREN), ChildrenText(cs));
  }

  lemma ObjOk(ms: Members)
    requires MembersOk(ms)
    ensures ValueOk(Value([], Obj(ms)))
  {
  }

  lemma ElemEntrySpell(v: View, base: seq<Entry>)
    requires base != [] && EntriesOk(base) && ValueText(GenTree(v)) == GenText(v) && ValueOk(GenTree(v))
    ensures var e := Entry(ELEM, GenTree(v));
      EntriesOk(base + [e]) && EntriesText(base + [e]) == EntriesText(base) + (ELEM_HEAD + GenText(v))
  {
    hide ValidUtf8, JsonString, ValueText, ValueOk, EntriesText, EntriesOk, GenTree, GenText, ELEM, ELEM_HEAD;
    PlainLabels();
    EntriesSnoc(base, Entry(ELEM, GenTree(v)));
    Heads();
    OkSnoc(base, Entry(ELEM, GenTree(v)));
    ElemRegroup(EntriesText(base), JsonString(ELEM), GenText(v));
  }

  lemma OkSnoc(base: seq<Entry>, e: Entry)
    requires EntriesOk(base) && ValidUtf8(e.key) && ValueOk(e.v)
    ensures EntriesOk(base + [e])
  {
    hide ValidUtf8, ValueOk;
  }

  lemma ElemRegroup(t: seq<byte>, k: seq<byte>, g: seq<byte>)
    ensures t + [Json.COMMA] + (k + [Json.COLON] + g) == t + (([Json.COMMA] + k + [Json.COLON]) + g)
  {
  }

  lemma ChildrenRegroup(t: seq<byte>, k: seq<byte>, g: seq<byte>)
    ensures t + [Json.COMMA] + (k + [Json.COLON] + ([Json.LBRACE] + (g + [Json.RBRACE])))
         == t + (([Json.COMMA] + k + [Json.COLON] + [Json.LBRACE]) + g + [Json.RBRACE])
  {
  }

  /** The tree of a view spells its text. */
  lemma {:induction false} TreeSpells(v: View)
    requires ViewOk(v)
    ensures ValueText(GenTree(v)) == GenText(v) && ValueOk(GenTree(v))
    decreases v, 1
  {
    hide ValueText, ValueOk, MembersText, MembersOk, EntryMembers, Entries, GenText, EntriesText, ViewOk, EntriesOk;
    EntriesSpell(v);
    EntryMembersText(Entries(v));
    ObjOk(EntryMembers(Entries(v)));
    BracedText(GenTree(v).core);
  }

  /** The last child, apart. */
  lemma LastChildParts(cs: seq<ViewField>)
    requires cs != [] && ChildrenOk(cs)
    ensures var n := |cs| - 1;
      && ChildrenOk(cs[..n]) && ValidUtf8(cs[n].key) && ViewOk(cs[n].view)
      && ChildEntries(cs) == ChildEntries(cs[..n]) + [Entry(cs[n].key, GenTree(cs[n].view))]
      && (ChildEntries(cs[..n]) != [] <==> n > 0)
      && ChildrenText(cs) == ChildrenText(cs[..n]) + (if n > 0 then [Json.COMMA] else [])
                             + (JsonString(cs[n].key) + [Json.COLON] + GenText(cs[n].view))
  {
    hide ViewOk, GenTree, GenText, JsonString, ValidUtf8;
  }

  lemma NoChildren()
    ensures ChildEntries([]) == [] && EntriesText([]) == [] && ChildrenText([]) == [] && EntriesOk([])
  {
  }

  lemma {:induction false} ChildrenSpell(cs: seq<ViewField>)
    requires ChildrenOk(cs)
    ensures EntriesOk(ChildEntries(cs)) && EntriesText(ChildEntries(cs)) == ChildrenText(cs)
    decreases cs, 0
  {
    hide *;
    if cs == [] {
      NoChildren();
    } else {
      var n := |cs| - 1;
      LastChildParts(cs);
      ChildrenSpell(cs[..n]);
      TreeSpells(cs[n].view);
      var e := Entry(cs[n].key, GenTree(cs[n].view));
      EntriesSnoc(ChildEntries(cs[..n]), e);
      EntryTextIs(e);
      OkSnoc(ChildEntries(cs[..n]), e);
    }
  }

  // ---- what the tree denotes ----

  lemma {:induction false} EntryFieldsSnoc(es: seq<Entry>, e: Entry, lim: Json.Limits)
    requires EntriesOk(es + [e])
    ensures EntriesOk(es) && EntryFields(es + [e], lim) == EntryFields(es, lim) + [Json.Field(e.key, Denote(e.v, lim))]
    decreases |es|
  {
    hide ValidUtf8, ValueOk, Denote;
    assert forall x | x in es :: x in es + [e];
    assert e in es + [e];
    if es == [] {
      assert es + [e] == [e];
    } else {
      assert (es + [e])[0] == es[0] && (es + [e])[1..] == es[1..] + [e];
      EntryFieldsSnoc(es[1..], e, lim);
    }
  }

  /** The document that spells a view. */
  function SpelledView(v: View): Json.Node
    decreases v, 1
  {
    Json.Object(BaseFields(v) + ChildrenField(v) + ElemField(v))
  }

  function BaseFields(v: View): seq<Json.Field> {
    [Json.Field(OPTIONAL, Json.Bool(v.optional)), Json.Field(TYPES, Json.Array(NameNodes(Names(v)), false))]
  }

  function ChildrenField(v: View): seq<Json.Field>
    decreases v, 0
  {
    if v.children == [] then [] else [Json.Field(CHILDREN, Json.Object(SpelledChildren(v.children)))]
  }

  function ElemField(v: View): seq<Json.Field>
    decreases v, 0
  {
    match v.elem case None => [] case Some(e) => [Json.Field(ELEM, SpelledView(e))]
  }

  function SpelledChildren(cs: seq<ViewField>): (r: seq<Json.Field>)
    ensures |r| == |cs| && forall i | 0 <= i < |cs| :: r[i].key == cs[i].key
    decreases cs, 0
  {
    if cs == [] then []
    else
      var n := |cs| - 1;
      SpelledChildren(cs[..n]) + [Json.Field(cs[n].key, SpelledView(cs[n].view))]
  }

  /** A number no bound needs to exceed for the view's text. */
  function NeedView(v: View): nat
    decreases v, 1
  {
    9 + |v.children| + NeedChildren(v.children) + match v.elem case None => 0 case Some(e) => NeedView(e)
  }

  function NeedChildren(cs: seq<ViewField>): nat
    decreases cs, 0
  {
    if cs == [] then 0
    else
      var n := |cs| - 1;
      NeedChildren(cs[..n]) + |cs[n].key| + NeedView(cs[n].view)
  }

  lemma {:induction false} ViewMeaning(v: View, d: nat, n: nat)
    requires ViewOk(v) && d + NeedView(v) <= n
    ensures ValueOk(GenTree(v)) && Fits(GenTree(v), d, AllLimits(n), true)
    ensures Denote(GenTree(v), AllLimits(n)) == SpelledView(v)
    decreases v, 2
  {
    hide ValueOk, ViewOk, Entries, EntriesOk, EntriesFit, EntryFields, EntryMembers, MembersOk, MembersFit,
      MemberFields, Distinct, BaseFields, ChildrenField, ElemField, NeedView, Fits, Denote;
    var lim := AllLimits(n);
    assert NeedView(v) >= 9 by { NeedAtLeast(v); }
    EntriesMeaning(v, d + 1, n);
    EntryMembersMeaning(Entries(v), d + 1, lim);
    FieldsDistinct(v);
    ObjMeaning(EntryMembers(Entries(v)), d, lim);
  }

  lemma NeedAtLeast(v: View)
    ensures NeedView(v) >= 9 + |v.children| + NeedChildren(v.children)
    ensures v.elem.Some? ==> NeedView(v) >= 9 + NeedView(v.elem.value)
  {
  }

  lemma FieldsDistinct(v: View)
    ensures var fs := BaseFields(v) + ChildrenField(v) + ElemField(v); |fs| <= 4 && Distinct(fs)
  {
    hide SpelledChildren, SpelledView, NameNodes, Names, OPTIONAL, TYPES, CHILDREN, ELEM, JsonString, ValidUtf8;
    PlainLabels();
    var base := BaseFields(v);
    if v.children == [] {
      assert base + [] == base;
      if v.elem.None? {
        assert base + [] == base;
      } else {
        DistinctSnoc(base, ElemField(v)[0]);
      }
    } else {
      DistinctSnoc(base, ChildrenField(v)[0]);
      var three := base + ChildrenField(v);
      if v.elem.None? {
        assert three + [] == three;
      } else {
        DistinctSnoc(three, ElemField(v)[0]);
      }
    }
  }

  lemma DistinctSnoc(fs: seq<Json.Field>, f: Json.Field)
    requires Distinct(fs) && forall g | g in fs :: g.key != f.key
    ensures Distinct(fs + [f])
  {
  }

  lemma {:induction false} EntriesMeaning(v: View, d: nat, n: nat)
    requires ViewOk(v) && d + NeedView(v) <= n + 1
    ensures EntriesOk(Entries(v)) && EntriesFit(Entries(v), d, AllLimits(n))
    ensures EntryFields(Entries(v), AllLimits(n)) == BaseFields(v) + ChildrenField(v) + ElemField(v)
    decreases v, 1
  {
    hide ValueOk, ViewOk, EntriesOk, EntriesFit, EntryFields, EntryMembers, BaseEntries, BaseFields, NeedView, Fits,
      Denote, GenTree, SpelledView, SpelledChildren, ChildEntries, CHILDREN, ELEM;
    var lim := AllLimits(n);
    NeedAtLeast(v);
    ViewParts(v);
    BaseMeaning(v, d, n);
    var base := BaseEntries(v);
    var childEntry :=
      if v.children == [] then [] else [Entry(CHILDREN, Value([], Obj(EntryMembers(ChildEntries(v.children)))))];
    var mid := base + childEntry;
    if v.children != [] {
      ChildrenMeaning(v.children, d + 1, n);
      ChildKeys(v);
      ChildrenEntryMeaning(v.children, base, d, n);
    } else {
      assert mid == base && BaseFields(v) + [] == BaseFields(v);
    }
    assert EntryFields(mid, lim) == BaseFields(v) + ChildrenField(v);
    if v.elem.Some? {
      ViewMeaning(v.elem.value, d, n);
      ElemEntryMeaning(v.elem.value, mid, d, n);
    } else {
      assert Entries(v) == mid && EntryFields(mid, lim) + [] == EntryFields(mid, lim);
    }
  }

  lemma ChildKeys(v: View)
    requires ViewOk(v)
    ensures Distinct(SpelledChildren(v.children))
  {
    hide SpelledView;
    forall i, j | 0 <= i < j < |v.children| ensures v.children[i].key != v.children[j].key {
      CompareKeysFlip(v.children[i].key, v.children[j].key);
    }
  }

  lemma BaseMeaning(v: View, d: nat, n: nat)
    requires d + 8 <= n
    ensures EntriesOk(BaseEntries(v)) && EntriesFit(BaseEntries(v), d, AllLimits(n))
    ensures EntryFields(BaseEntries(v), AllLimits(n)) == BaseFields(v)
  {
    hide ValidUtf8, NamesTree, NameNodes, Names, OPTIONAL, TYPES, JsonString;
    PlainLabels();
    NamesFine(v);
    NamesTreeMeaning(Names(v), d, AllLimits(n));
    var es := BaseEntries(v);
    assert es[1..] == [es[1]] && es[1..][1..] == [];
    assert EntryFields(es[1..][1..], AllLimits(n)) == [];
  }

  lemma FitSnoc(base: seq<Entry>, e: Entry, d: nat, n: nat)
    requires EntriesOk(base) && EntriesFit(base, d, AllLimits(n)) && ValidUtf8(e.key) && |e.key| <= n
    requires ValueOk(e.v) && Fits(e.v, d, AllLimits(n), true)
    ensures EntriesOk(base + [e]) && EntriesFit(base + [e], d, AllLimits(n))
    ensures EntryFields(base + [e], AllLimits(n))
      == EntryFields(base, AllLimits(n)) + [Json.Field(e.key, Denote(e.v, AllLimits(n)))]
  {
    hide ValidUtf8, ValueOk, Fits, Denote, EntryFields;
    OkSnoc(base, e);
    EntryFieldsSnoc(base, e, AllLimits(n));
  }

  lemma ChildrenEntryMeaning(cs: seq<ViewField>, base: seq<Entry>, d: nat, n: nat)
    requires cs != [] && EntriesOk(base) && EntriesFit(base, d, AllLimits(n)) && d + 8 <= n && |cs| <= n
    requires EntriesOk(ChildEntries(cs)) && EntriesFit(ChildEntries(cs), d + 1, AllLimits(n))
    requires EntryFields(ChildEntries(cs), AllLimits(n)) == SpelledChildren(cs) && Distinct(SpelledChildren(cs))
    ensures var e := Entry(CHILDREN, Value([], Obj(EntryMembers(ChildEntries(cs)))));
      EntriesOk(base + [e]) && EntriesFit(base + [e], d, AllLimits(n))
      && EntryFields(base + [e], AllLimits(n))
         == EntryFields(base, AllLimits(n)) + [Json.Field(CHILDREN, Json.Object(SpelledChildren(cs)))]
  {
    hide ValidUtf8, ValueOk, Fits, Denote, EntriesOk, EntriesFit, EntryFields, EntryMembers, ChildEntries,
      SpelledChildren, Distinct, CHILDREN, MembersOk, MembersFit, MemberFields, JsonString;
    var lim := AllLimits(n);
    PlainLabels();
    var ms := EntryMembers(ChildEntries(cs));
    EntryMembersMeaning(ChildEntries(cs), d + 1, lim);
    ObjMeaning(ms, d, lim);
    FitSnoc(base, Entry(CHILDREN, Value([], Obj(ms))), d, n);
  }

  lemma ElemEntryMeaning(v: View, base: seq<Entry>, d: nat, n: nat)
    requires EntriesOk(base) && EntriesFit(base, d, AllLimits(n)) && n >= 8
    requires ValueOk(GenTree(v)) && Fits(GenTree(v), d, AllLimits(n), true)
    requires Denote(GenTree(v), AllLimits(n)) == SpelledView(v)
    ensures var e := Entry(ELEM, GenTree(v));
      EntriesOk(base + [e]) && EntriesFit(base + [e], d, AllLimits(n))
      && EntryFields(base + [e], AllLimits(n)) == EntryFields(base, AllLimits(n)) + [Json.Field(ELEM, SpelledView(v))]
  {
    hide ValidUtf8, ValueOk, Fits, Denote, EntriesOk, EntriesFit, EntryFields, GenTree, SpelledView, ELEM, JsonString;
    PlainLabels();
    FitSnoc(base, Entry(ELEM, GenTree(v)), d, n);
  }

  lemma {:induction false} ChildrenMeaning(cs: seq<ViewField>, d: nat, n: nat)
    requires ChildrenOk(cs) && d + NeedChildren(cs) <= n
    ensures EntriesOk(ChildEntries(cs)) && EntriesFit(ChildEntries(cs), d, AllLimits(n))
    ensures EntryFields(ChildEntries(cs), AllLimits(n)) == SpelledChildren(cs)
    decreases cs, 0
  {
    if cs != [] {
      hide ValueOk, ViewOk, Fits, Denote, GenTree, SpelledView, NeedView, ValidUtf8, EntriesOk, EntriesFit, EntryFields;
      var i := |cs| - 1;
      ChildrenMeaning(cs[..i], d, n);
      ViewMeaning(cs[i].view, d, n);
      FitSnoc(ChildEntries(cs[..i]), Entry(cs[i].key, GenTree(cs[i].view)), d, n);
    } else {
      NoFields(d, n);
    }
  }

  lemma NoFields(d: nat, n: nat)
    ensures EntriesOk([]) && EntriesFit([], d, AllLimits(n)) && EntryFields([], AllLimits(n)) == []
  {
  }
}
