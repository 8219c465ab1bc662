/** The generalized text and its hash identify the generalized view. */
module GeneralizedIdentity {
  import opened Sequences
  import opened Options
  import opened Utf8
  import opened KeyOrder
  import opened Identity
  import opened Grammar
  import opened Canon
  import opened RoundTrip
  import opened ParseSpec
  import opened Completeness
  import opened Fingerprint
  import opened Profiles
  import opened Counting
  import opened Generalized
  import opened GeneralizedText
  import opened Optionality
  import Printer
  import Json

  // ---- the spelled document determines the view ----

  lemma {:induction false} SeenExactly(table: seq<(seq<byte>, bool)>, i: nat)
    requires i < |table| && forall j, k | 0 <= j < k < |table| :: table[j].0 != table[k].0
    ensures table[i].0 in Seen(table) <==> table[i].1
    decreases |table|
  {
    var n := |table| - 1;
    if i < n {
      SeenExactly(table[..n], i);
      assert table[..n][i] == table[i];
    } else {
      SeenNames(table[..n]);
      assert forall j | 0 <= j < n :: table[..n][j].0 != table[n].0;
    }
  }

  lemma NamesDiffer(t: TypeSupport)
    ensures var table := TypeTable(t); forall j, k | 0 <= j < k < |table| :: table[j].0 != table[k].0
  {
    hide Ascii;
    var table := TypeTable(t);
    assert forall i | 0 <= i < 6 :: |table[i].0| >= 4;
    assert table[0].0[0] == 0x61 && table[1].0[0] == 0x62 && table[2].0[0] == 0x6E && table[2].0[2] == 0x6C
        && table[3].0[0] == 0x6E && table[3].0[2] == 0x6D && table[4].0[0] == 0x6F && table[5].0[0] == 0x73;
  }

  /** The list of names says which types were seen. */
  lemma NamesDetermine(v: View, w: View)
    requires Names(v) == Names(w)
    ensures v.support == w.support
  {
    hide Ascii, Seen;
    NamesDiffer(v.support);
    NamesDiffer(w.support);
    var a, b := TypeTable(v.support), TypeTable(w.support);
    forall i: nat | i < 6 ensures a[i].1 == b[i].1 {
      SeenExactly(a, i);
      SeenExactly(b, i);
      assert a[i].0 == b[i].0;
    }
    assert a[0].1 == b[0].1 && a[1].1 == b[1].1 && a[2].1 == b[2].1 && a[3].1 == b[3].1 && a[4].1 == b[4].1
      && a[5].1 == b[5].1;
  }

  lemma NodesDetermine(a: seq<seq<byte>>, b: seq<seq<byte>>)
    requires NameNodes(a) == NameNodes(b)
    ensures a == b
  {
    forall i | 0 <= i < |a| ensures a[i] == b[i] {
      assert NameNodes(a)[i] == NameNodes(b)[i];
    }
  }

  /** What the four members of a spelled view give back. */
  lemma Members(v: View, w: View)
    requires SpelledView(v) == SpelledView(w)
    ensures v.optional == w.optional && v.support == w.support
    ensures ChildrenField(v) == ChildrenField(w) && ElemField(v) == ElemField(w)
  {
    hide *;
    SpelledFieldsOf(v);
    SpelledFieldsOf(w);
    NodesDetermine(Names(v), Names(w));
    NamesDetermine(v, w);
    Tails(v, w);
  }

  lemma SpelledFieldsOf(v: View)
    ensures SpelledView(v).Object? && |SpelledView(v).fields| >= 2
    ensures var f := SpelledView(v).fields;
      && f[0] == Json.Field(OPTIONAL, Json.Bool(v.optional))
      && f[1] == Json.Field(TYPES, Json.Array(NameNodes(Names(v)), false))
      && f[2..] == ChildrenField(v) + ElemField(v)
  {
    hide ChildrenField, ElemField, NameNodes, Names, OPTIONAL, TYPES;
    var base, tail := BaseFields(v), ChildrenField(v) + ElemField(v);
    Associate(base, ChildrenField(v), ElemField(v));
    assert (base + tail)[2..] == tail;
  }

  lemma Tails(v: View, w: View)
    requires ChildrenField(v) + ElemField(v) == ChildrenField(w) + ElemField(w)
    ensures ChildrenField(v) == ChildrenField(w) && ElemField(v) == ElemField(w)
  {
    hide OPTIONAL, TYPES, CHILDREN, ELEM, SpelledChildren, SpelledView, JsonString, ValidUtf8;
    PlainLabels();
    var f, g := ChildrenField(v) + ElemField(v), ChildrenField(w) + ElemField(w);
    assert v.children != [] <==> f != [] && f[0].key == CHILDREN;
    assert w.children != [] <==> g != [] && g[0].key == CHILDREN;
    var k := |ChildrenField(v)|;
    assert f[..k] == ChildrenField(v) && g[..k] == ChildrenField(w) && f[k..] == ElemField(v) && g[k..] == ElemField(w);
  }

  /** Different views are spelled by different documents. */
  lemma {:induction false} SpelledViewInjective(v: View, w: View)
    requires SpelledView(v) == SpelledView(w)
    ensures v == w
    decreases v
  {
    hide SpelledView, SpelledChildren, CHILDREN, ELEM;
    Members(v, w);
    if v.children != [] {
      assert ChildrenField(v)[0] == ChildrenField(w)[0];
      SpelledChildrenInjective(v.children, w.children);
    }
    if v.elem.Some? {
      assert ElemField(v)[0] == ElemField(w)[0];
      SpelledViewInjective(v.elem.value, w.elem.value);
    }
  }

  lemma LastSpelled(cs: seq<ViewField>)
    requires cs != []
    ensures var n := |cs| - 1;
      SpelledChildren(cs) == SpelledChildren(cs[..n]) + [Json.Field(cs[n].key, SpelledView(cs[n].view))]
        && |SpelledChildren(cs[..n])| == n
  {
    hide SpelledView;
  }

  lemma NoneSpelled(cs: seq<ViewField>)
    ensures SpelledChildren(cs) == [] <==> cs == []
  {
    hide SpelledView;
  }

  lemma {:induction false} SpelledChildrenInjective(xs: seq<ViewField>, ys: seq<ViewField>)
    requires SpelledChildren(xs) == SpelledChildren(ys)
    ensures xs == ys
    decreases xs
  {
    hide *;
    NoneSpelled(xs);
    NoneSpelled(ys);
    if xs != [] {
      var m, n := |xs| - 1, |ys| - 1;
      LastSpelled(xs);
      LastSpelled(ys);
      SnocEqual(SpelledChildren(xs[..m]), Json.Field(xs[m].key, SpelledView(xs[m].view)),
                SpelledChildren(ys[..n]), Json.Field(ys[n].key, SpelledView(ys[n].view)));
      SpelledViewInjective(xs[m].view, ys[n].view);
      SpelledChildrenInjective(xs[..m], ys[..n]);
      assert xs == xs[..m] + [xs[m]] && ys == ys[..n] + [ys[n]];
    }
  }

  // ---- the text determines the view ----

  /** Whatever follows it, the generalized text is read as the document that spells its view. */
  lemma ReadsView(v: View, x: seq<byte>, n: nat)
    requires ViewOk(v) && NeedView(v) <= n
    ensures ParseValue(GenText(v) + x, 0, 0, AllLimits(n)) == Json.Ok(SpelledView(v), |GenText(v)|)
  {
    hide GenText, Fits, Denote, ValueOk, ValueText, ParseValue, SpelledView, EntryMembers, Entries, ViewOk, NeedView;
    ViewMeaning(v, 0, n);
    TreeSpells(v);
    ParseComplete(GenText(v) + x, 0, GenTree(v), 0, AllLimits(n));
  }

  /** From a text that starts with a generalized view, the view and the rest are determined. */
  lemma GenTextPrefixFree(v: View, w: View, x: seq<byte>, y: seq<byte>)
    requires ViewOk(v) && ViewOk(w) && GenText(v) + x == GenText(w) + y
    ensures v == w && x == y
  {
    hide GenText, ParseValue, SpelledView, ViewOk, NeedView;
    var n := NeedView(v) + NeedView(w);
    ReadsView(v, x, n);
    ReadsView(w, y, n);
    SpelledViewInjective(v, w);
    assert x == (GenText(v) + x)[|GenText(v)|..];
    assert y == (GenText(w) + y)[|GenText(w)|..];
  }

  // ---- profiles ----

  /** What Rust's `String` keys guarantee. */
  predicate ProfileKeysValid(f: FieldNode) {
    && (forall k | k in f.children :: ValidUtf8(k) && ProfileKeysValid(f.children[k]))
    && (f.arrayElem.Some? ==> ProfileKeysValid(f.arrayElem.value))
  }

  lemma KeysValidBelow(f: FieldNode)
    requires ProfileKeysValid(f)
    ensures forall k | k in f.children :: ValidUtf8(k) && ProfileKeysValid(f.children[k])
    ensures f.arrayElem.Some? ==> ProfileKeysValid(f.arrayElem.value)
  {
    hide ValidUtf8;
  }

  lemma {:induction false} ViewOfOk(f: FieldNode, denom: nat)
    requires ProfileKeysValid(f)
    ensures ViewOk(ViewOf(f, denom))
    decreases f
  {
    hide *;
    KeysValidBelow(f);
    var ks := Listing(f.children.Keys);
    assert SortedKeys(ks) && forall k :: k in ks <==> k in f.children.Keys;
    forall i | 0 <= i < |ks|
      ensures ks[i] in f.children && ValidUtf8(ks[i]) && ViewOk(ViewOf(f.children[ks[i]], f.stats.types.objects))
    {
      assert ks[i] in ks;
      ViewOfOk(f.children[ks[i]], f.stats.types.objects);
    }
    if f.arrayElem.Some? {
      ViewOfOk(f.arrayElem.value, f.stats.types.arrays);
    }
    ViewOkParts(f, denom);
  }

  /** A view is well-formed if its parts are. */
  lemma ViewOkParts(f: FieldNode, denom: nat)
    requires var ks := Listing(f.children.Keys); forall i | 0 <= i < |ks| ::
      ks[i] in f.children && ValidUtf8(ks[i]) && ViewOk(ViewOf(f.children[ks[i]], f.stats.types.objects))
    requires f.arrayElem.Some? ==> ViewOk(ViewOf(f.arrayElem.value, f.stats.types.arrays))
    ensures ViewOk(ViewOf(f, denom))
  {
    hide *;
    var ks, v := Listing(f.children.Keys), ViewOf(f, denom);
    SortedPairs(ks);
    PartsOfView(f, denom);
    forall i, j | 0 <= i < j < |v.children| ensures KeyLess(v.children[i].key, v.children[j].key) {
      assert KeyLess(ks[i], ks[j]);
    }
    forall c | c in v.children ensures ValidUtf8(c.key) && ViewOk(c.view) {
      var i :| 0 <= i < |v.children| && v.children[i] == c;
    }
    ViewOkFrom(v);
  }

  lemma SortedPairs(ks: seq<seq<byte>>)
    requires SortedKeys(ks)
    ensures forall i, j | 0 <= i < j < |ks| :: KeyLess(ks[i], ks[j])
  {
    hide KeyLess;
  }

  lemma ViewOkFrom(v: View)
    requires forall i, j | 0 <= i < j < |v.children| :: KeyLess(v.children[i].key, v.children[j].key)
    requires forall c | c in v.children :: ValidUtf8(c.key) && ViewOk(c.view)
    requires v.elem.Some? ==> ViewOk(v.elem.value)
    ensures ViewOk(v)
  {
    hide ValidUtf8, KeyLess;
  }

  lemma PartsOfView(f: FieldNode, denom: nat)
    requires var ks := Listing(f.children.Keys); forall i | 0 <= i < |ks| :: ks[i] in f.children
    ensures var ks, v := Listing(f.children.Keys), ViewOf(f, denom);
      && |v.children| == |ks|
      && (forall i | 0 <= i < |ks| ::
        v.children[i] == ViewField(ks[i], ViewOf(f.children[ks[i]], f.stats.types.objects)))
      && v.elem == match f.arrayElem case None => None case Some(e) => Some(ViewOf(e, f.stats.types.arrays))
  {
    hide Support, ValidUtf8;
  }

  lemma {:induction false} MergeKeysValid(f: FieldNode, g: FieldNode)
    requires ProfileKeysValid(f) && ProfileKeysValid(g)
    ensures ProfileKeysValid(Merge(f, g))
    decreases f
  {
    hide ValidUtf8;
    forall k | k in f.children && k in g.children ensures ProfileKeysValid(Merge(f.children[k], g.children[k])) {
      MergeKeysValid(f.children[k], g.children[k]);
    }
    if f.arrayElem.Some? && g.arrayElem.Some? {
      MergeKeysValid(f.arrayElem.value, g.arrayElem.value);
    }
  }

  lemma {:induction false} FromNodeKeysValid(n: Json.Node, rules: NumberRules)
    requires KeysValid(n)
    ensures ProfileKeysValid(FromNode(n, rules))
    decreases n, 1
  {
    hide ValidUtf8, StatsOf;
    if n.Object? {
      forall k | k in Json.Keys(n.fields)
        ensures ValidUtf8(k) && ProfileKeysValid(FromNode(Lookup(n.fields, k), rules)) {
        assert Json.Field(k, Lookup(n.fields, k)) in n.fields;
        FromNodeKeysValid(Lookup(n.fields, k), rules);
      }
    }
    if n.Array? {
      FromItemsKeysValid(n.items, rules);
    }
  }

  lemma {:induction false} FromItemsKeysValid(items: seq<Json.Node>, rules: NumberRules)
    requires forall x | x in items :: KeysValid(x)
    ensures FromItems(items, rules).Some? ==> ProfileKeysValid(FromItems(items, rules).value)
    decreases items, 0
  {
    hide ValidUtf8, FromNode, ProfileKeysValid, Merge;
    if items != [] {
      var n := |items| - 1;
      FromItemsKeysValid(items[..n], rules);
      FromNodeKeysValid(items[n], rules);
      if FromItems(items[..n], rules).Some? {
        MergeKeysValid(FromItems(items[..n], rules).value, FromNode(items[n], rules));
      }
    }
  }

  /** Every profile built from parsed documents has UTF-8 keys throughout. */
  lemma {:induction false} ObservedKeysValid(m: Merging, rules: NumberRules)
    requires forall d | d in Docs(m) :: KeysValid(d)
    ensures ProfileKeysValid(Observed(m, rules).root)
  {
    hide ProfileKeysValid, KeysValid, Merge, FromNode;
    match m
    case Doc(d) => FromNodeKeysValid(d, rules);
    case Both(l, r) =>
      ObservedKeysValid(l, rules);
      ObservedKeysValid(r, rules);
      MergeKeysValid(Observed(l, rules).root, Observed(r, rules).root);
  }

  // ---- the hash ----

  const GENERALIZER := Ascii("deblob-monoid-v1")
  const GEN_HEAD := Ascii("{\"gen\":\"")
  const GEN_MIDDLE := Ascii("\",\"fields\":")

  function GeneralizedBody(v: View): seq<byte> {
    GEN_HEAD + GENERALIZER + GEN_MIDDLE + GenText(v) + [Json.RBRACE]
  }

  ghost function GeneralizedFingerprint(p: Profile): Digest {
    Sha256(GENERALIZER + [0] + GeneralizedBody(ProfileView(p)))
  }

  lemma Unframe(head: seq<byte>, a: seq<byte>, b: seq<byte>, tail: seq<byte>)
    requires head + a + tail == head + b + tail
    ensures a == b
  {
    assert |a| == |b|;
    assert (head + a + tail)[|head|..|head| + |a|] == a;
    assert (head + b + tail)[|head|..|head| + |b|] == b;
  }

  /** Two profiles have one generalized text, and one generalized fingerprint, exactly when they
      carry the same optional flags, types, keys and elements at every path. */
  lemma SameGeneralized(a: Profile, b: Profile)
    requires ProfileKeysValid(a.root) && ProfileKeysValid(b.root)
    ensures GenText(ProfileView(a)) == GenText(ProfileView(b)) <==> SameFlags(a.root, a.count, b.root, b.count)
    ensures GeneralizedFingerprint(a) == GeneralizedFingerprint(b) <==> SameFlags(a.root, a.count, b.root, b.count)
  {
    hide GenText, ViewOf, ViewOk, SameFlags, ProfileKeysValid, GENERALIZER, GEN_HEAD, GEN_MIDDLE;
    var v, w := ProfileView(a), ProfileView(b);
    ViewsAgree(a.root, a.count, b.root, b.count);
    ViewOfOk(a.root, a.count);
    ViewOfOk(b.root, b.count);
    if GeneralizedFingerprint(a) == GeneralizedFingerprint(b) {
      var head := GENERALIZER + [0] + GEN_HEAD + GENERALIZER + GEN_MIDDLE;
      assert GENERALIZER + [0] + GeneralizedBody(v) == head + GenText(v) + [Json.RBRACE];
      assert GENERALIZER + [0] + GeneralizedBody(w) == head + GenText(w) + [Json.RBRACE];
      Unframe(head, GenText(v), GenText(w), [Json.RBRACE]);
    }
    if GenText(v) == GenText(w) {
      GenTextPrefixFree(v, w, [], []);
    }
  }

  /** Merging a profile with itself changes neither. */
  lemma SelfMergeSameText(a: Profile)
    ensures GenText(ProfileView(MergeProfiles(a, a))) == GenText(ProfileView(a))
    ensures GeneralizedFingerprint(MergeProfiles(a, a)) == GeneralizedFingerprint(a)
  {
    hide GenText, ViewOf, MergeProfiles;
    SelfMergeSameView(a);
  }

  // ---- the text is always UTF-8 ----

  lemma EscapedValid(c: Scalar)
    ensures ValidUtf8(Printer.EscapedScalar(c))
  {
    hide ValidUtf8, EncodeScalar;
    if c < 0x80 {
      AsciiValid(Printer.EscapedScalar(c));
    } else {
      EncodeValid(c);
    }
  }

  lemma {:induction false} EscapeValid(k: seq<byte>)
    requires ValidUtf8(k)
    ensures ValidUtf8(EscapeKey(k))
    decreases |k|
  {
    if k != [] {
      var n := FirstLen(k);
      assert n > 0 && ValidUtf8(k[n..]);
      hide *;
      EscapeValid(k[n..]);
      Printer.EscapeScalar(k);
      EscapedValid(FirstScalar(k));
      ValidConcat(EscapeKey(k[..n]), EscapeKey(k[n..]));
    }
  }

  lemma StringValid(k: seq<byte>)
    requires ValidUtf8(k)
    ensures ValidUtf8(JsonString(k))
  {
    hide EscapeKey, ValidUtf8;
    EscapeValid(k);
    AsciiValid([Json.QUOTE]);
    ValidConcat([Json.QUOTE], EscapeKey(k));
    ValidConcat([Json.QUOTE] + EscapeKey(k), [Json.QUOTE]);
  }

  lemma Three(a: seq<byte>, b: seq<byte>, c: seq<byte>)
    requires ValidUtf8(a) && ValidUtf8(b) && ValidUtf8(c)
    ensures ValidUtf8(a + b + c)
  {
    hide ValidUtf8;
    ValidConcat(a, b);
    ValidConcat(a + b, c);
  }

  lemma {:induction false} NamesTextValid(names: seq<seq<byte>>)
    requires NamesOk(names)
    ensures ValidUtf8(NamesText(names))
    decreases |names|
  {
    if names == [] {
      AsciiValid([]);
    } else {
      hide ValidUtf8, JsonString;
      var n := |names| - 1;
      NamesTextValid(names[..n]);
      StringValid(names[n]);
      var comma := if n > 0 then [Json.COMMA] else [];
      AsciiValid(comma);
      Three(NamesText(names[..n]), comma, JsonString(names[n]));
    }
  }

  lemma HeadsValid()
    ensures ValidUtf8(OPTIONAL_HEAD) && ValidUtf8(TYPES_HEAD) && ValidUtf8(CHILDREN_HEAD) && ValidUtf8(ELEM_HEAD)
  {
    hide ValidUtf8, Ascii;
    AsciiValid(OPTIONAL_HEAD);
    AsciiValid(TYPES_HEAD);
    AsciiValid(CHILDREN_HEAD);
    AsciiValid(ELEM_HEAD);
  }

  lemma BaseTextValid(v: View)
    ensures ValidUtf8(BaseText(v))
  {
    hide ValidUtf8, NamesText, Seen, TypeTable, OPTIONAL_HEAD, TYPES_HEAD;
    HeadsValid();
    NamesFine(v);
    NamesTextValid(Names(v));
    AsciiValid(BoolText(v.optional));
    AsciiValid([Json.RBRACKET]);
    Three(OPTIONAL_HEAD, BoolText(v.optional), TYPES_HEAD);
    Three(OPTIONAL_HEAD + BoolText(v.optional) + TYPES_HEAD, NamesText(Names(v)), [Json.RBRACKET]);
  }

  /** `String::from_utf8` never fails on a generalized text. */
  lemma {:induction false} GenTextValid(v: View)
    requires ViewOk(v)
    ensures ValidUtf8(GenText(v))
    decreases v, 1
  {
    hide ValidUtf8, BaseText, ChildrenText, ViewOk, CHILDREN_HEAD, ELEM_HEAD;
    HeadsValid();
    BaseTextValid(v);
    ViewParts(v);
    AsciiValid([Json.RBRACE]);
    AsciiValid([]);
    var childrenPart := if v.children == [] then [] else CHILDREN_HEAD + ChildrenText(v.children) + [Json.RBRACE];
    if v.children != [] {
      ChildrenTextValid(v.children);
      Three(CHILDREN_HEAD, ChildrenText(v.children), [Json.RBRACE]);
    }
    var elemPart := match v.elem case None => [] case Some(e) => ELEM_HEAD + GenText(e);
    if v.elem.Some? {
      GenTextValid(v.elem.value);
      ValidConcat(ELEM_HEAD, GenText(v.elem.value));
    }
    Three(BaseText(v), childrenPart, elemPart);
    ValidConcat(BaseText(v) + childrenPart + elemPart, [Json.RBRACE]);
  }

  lemma LastChild(cs: seq<ViewField>)
    requires cs != []
    ensures var n := |cs| - 1;
      ChildrenText(cs) == ChildrenText(cs[..n]) + (if n > 0 then [Json.COMMA] else [])
                          + (JsonString(cs[n].key) + [Json.COLON] + GenText(cs[n].view))
  {
    hide JsonString, GenText;
  }

  lemma MarksValid()
    ensures ValidUtf8([]) && ValidUtf8([Json.COMMA]) && ValidUtf8([Json.COLON])
  {
    hide ValidUtf8;
    AsciiValid([]);
    AsciiValid([Json.COMMA]);
    AsciiValid([Json.COLON]);
  }

  lemma LastOk(cs: seq<ViewField>)
    requires ChildrenOk(cs) && cs != []
    ensures var n := |cs| - 1; ChildrenOk(cs[..n]) && cs[n] in cs && ValidUtf8(cs[n].key) && ViewOk(cs[n].view)
  {
    hide ValidUtf8, ViewOk;
  }

  lemma {:induction false} ChildrenTextValid(cs: seq<ViewField>)
    requires ChildrenOk(cs)
    ensures ValidUtf8(ChildrenText(cs))
    decreases cs, 0
  {
    hide *;
    MarksValid();
    if cs == [] {
      NoChildren();
    } else {
      var n := |cs| - 1;
      LastOk(cs);
      LastChild(cs);
      ChildrenTextValid(cs[..n]);
      StringValid(cs[n].key);
      GenTextValid(cs[n].view);
      var comma := if n > 0 then [Json.COMMA] else [];
      var entry := JsonString(cs[n].key) + [Json.COLON] + GenText(cs[n].view);
      Three(JsonString(cs[n].key), [Json.COLON], GenText(cs[n].view));
      Three(ChildrenText(cs[..n]), comma, entry);
    }
  }
}
