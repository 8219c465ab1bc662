/** The generalized printer: loops that append one position after another to an output buffer. */
module GeneralizedPrinter {
  import opened Sequences
  import opened Options
  import opened Utf8
  import opened KeyOrder
  import opened Canon
  import opened Printer
  import opened Profiles
  import opened Generalized
  import opened GeneralizedText
  import opened GeneralizedIdentity
  import Json

  /** The keys in the order a `BTreeMap` yields them. */
  method KeysInOrder(children: map<seq<byte>, FieldNode>) returns (keys: seq<seq<byte>>)
    ensures keys == Listing(children.Keys)
  {
    keys := [];
    var todo := children.Keys;
    while todo != {}
      invariant todo <= children.Keys && SortedKeys(keys)
      invariant forall k :: k in keys <==> k in children.Keys - todo
      decreases todo
    {
      var k :| k in todo;
      todo := todo - {k};
      InsertKeySorted(k, keys);
      keys := InsertKey(k, keys);
    }
    ListingUnique(keys, Listing(children.Keys));
  }

  lemma SeenSnoc(table: seq<(seq<byte>, bool)>, i: nat)
    requires i < |table|
    ensures Seen(table[..i + 1]) == if table[i].1 then Seen(table[..i]) + [table[i].0] else Seen(table[..i])
  {
    assert table[..i + 1][..i] == table[..i];
  }

  lemma NamesSnoc(names: seq<seq<byte>>, x: seq<byte>)
    ensures NamesText(names + [x]) == NamesText(names) + (if names != [] then [Json.COMMA] else []) + JsonString(x)
  {
    hide JsonString;
    assert (names + [x])[..|names|] == names;
  }

  lemma TableNames(t: TypeSupport)
    ensures forall e | e in TypeTable(t) :: Plain(e.0)
  {
    hide JsonString, ValidUtf8, TypeTable;
    TypeNames(t);
  }

  predicate Plain(name: seq<byte>) {
    JsonString(name) == [Json.QUOTE] + name + [Json.QUOTE]
  }

  method WriteName(name: seq<byte>, out: Buffer)
    requires Plain(name)
    modifies out
    ensures out.data == old(out.data) + JsonString(name)
  {
    hide JsonString;
    out.Push(Json.QUOTE);
    out.Extend(name);
    out.Push(Json.QUOTE);
  }

  /** The names seen, between commas. */
  method WriteTypes(table: seq<(seq<byte>, bool)>, out: Buffer)
    requires forall e | e in table :: Plain(e.0)
    modifies out
    ensures out.data == old(out.data) + NamesText(Seen(table))
  {
    hide JsonString, NamesText, Seen, Plain;
    var first := true;
    ghost var base := out.data;
    NothingSeen();
    for i := 0 to |table|
      invariant first <==> Seen(table[..i]) == []
      invariant out.data == base + NamesText(Seen(table[..i]))
    {
      SeenSnoc(table, i);
      if table[i].1 {
        NamesSnoc(Seen(table[..i]), table[i].0);
        Group(base, NamesText(Seen(table[..i])), if !first then [Json.COMMA] else [], JsonString(table[i].0));
        if !first {
          out.Push(Json.COMMA);
        }
        first := false;
        assert table[i] in table;
        WriteName(table[i].0, out);
      }
    }
    assert table[..|table|] == table;
  }

  lemma NothingSeen()
    ensures Seen([]) == [] && NamesText([]) == [] && ChildrenText([]) == []
  {
  }

  lemma ChildrenSnoc(cs: seq<ViewField>, i: nat)
    requires i < |cs|
    ensures ChildrenText(cs[..i + 1])
         == ChildrenText(cs[..i]) + (if i > 0 then [Json.COMMA] else [])
           + (JsonString(cs[i].key) + [Json.COLON] + GenText(cs[i].view))
  {
    hide JsonString, GenText, ChildrenText;
    LastChild(cs[..i + 1]);
    assert cs[..i + 1][..i] == cs[..i];
  }

  /** What the view of a position is made of. */
  lemma ViewIs(field: FieldNode, denom: nat)
    ensures var v := ViewOf(field, denom);
      && v.optional == (field.stats.present < denom) && v.support == Support(field.stats.types)
      && (v.children == [] <==> field.children.Keys == {})
      && v.elem == match field.arrayElem { case None => None case Some(e) => Some(ViewOf(e, field.stats.types.arrays)) }
  {
    hide Support;
    var ks := Listing(field.children.Keys);
    if ks != [] {
      assert ks[0] in ks;
    }
  }

  lemma ViewChild(field: FieldNode, denom: nat, i: nat)
    ensures |ViewOf(field, denom).children| == |Listing(field.children.Keys)|
    ensures i < |Listing(field.children.Keys)| ==>
      var k := Listing(field.children.Keys)[i];
      k in field.children
        && ViewOf(field, denom).children[i] == ViewField(k, ViewOf(field.children[k], field.stats.types.objects))
  {
    hide Support;
    var ks := Listing(field.children.Keys);
    if i < |ks| {
      assert ks[i] in ks;
    }
  }

  /** `write_generalized_field`. */
  method WriteGeneralizedField(field: FieldNode, denom: nat, out: Buffer)
    requires ProfileKeysValid(field)
    modifies out
    ensures out.data == old(out.data) + GenText(ViewOf(field, denom))
    decreases field, 1
  {
    hide ViewOf, GenText, BaseText, ChildrenText, CHILDREN_HEAD, ELEM_HEAD, Support;
    ghost var v := ViewOf(field, denom);
    ViewIs(field, denom);
    GenTextParts(v);
    WriteBase(field, denom, out);
    ghost var base := out.data;
    ghost var childrenPart := if v.children == [] then [] else CHILDREN_HEAD + ChildrenText(v.children) + [Json.RBRACE];
    if field.children.Keys != {} {
      out.Extend(CHILDREN_HEAD);
      WriteChildren(field, denom, out);
      out.Push(Json.RBRACE);
      Group(base, CHILDREN_HEAD, ChildrenText(v.children), [Json.RBRACE]);
    }
    assert out.data == base + childrenPart;
    ghost var mid := out.data;
    ghost var elemPart := match v.elem case None => [] case Some(e) => ELEM_HEAD + GenText(e);
    if field.arrayElem.Some? {
      out.Extend(ELEM_HEAD);
      WriteGeneralizedField(field.arrayElem.value, field.stats.types.arrays, out);
    }
    assert out.data == mid + elemPart;
    out.Push(Json.RBRACE);
    Group(old(out.data), BaseText(v), childrenPart, elemPart);
    Associate(old(out.data), BaseText(v) + childrenPart + elemPart, [Json.RBRACE]);
  }

  lemma Group(o: seq<byte>, a: seq<byte>, b: seq<byte>, c: seq<byte>)
    ensures o + a + b + c == o + (a + b + c)
  {
  }

  /** The flag and the types. */
  method WriteBase(field: FieldNode, denom: nat, out: Buffer)
    modifies out
    ensures out.data == old(out.data) + BaseText(ViewOf(field, denom))
  {
    hide ViewOf, OPTIONAL_HEAD, TYPES_HEAD, Support, NamesText, Seen, TypeTable, Plain;
    ViewIs(field, denom);
    out.Extend(OPTIONAL_HEAD);
    out.Extend(BoolText(field.stats.present < denom));
    out.Extend(TYPES_HEAD);
    TableNames(Support(field.stats.types));
    WriteTypes(TypeTable(Support(field.stats.types)), out);
    out.Push(Json.RBRACKET);
  }

  method WriteChildren(field: FieldNode, ghost denom: nat, out: Buffer)
    requires ProfileKeysValid(field)
    modifies out
    ensures out.data == old(out.data) + ChildrenText(ViewOf(field, denom).children)
    decreases field, 0
  {
    hide *;
    var keys := KeysInOrder(field.children);
    ghost var cs := ViewOf(field, denom).children;
    ghost var base := out.data;
    var first := true;
    assert ChildrenText(cs[..0]) == [] by { NothingSeen(); }
    ViewChild(field, denom, 0);
    for i := 0 to |keys|
      invariant first <==> i == 0
      invariant out.data == base + ChildrenText(cs[..i])
    {
      ViewChild(field, denom, i);
      ChildValid(field, keys[i]);
      WriteChild(keys[i], field.children[keys[i]], field.stats.types.objects, first, out);
      ChildTextIs(cs, i);
      Associate(base, ChildrenText(cs[..i]), ChildText(cs[i], first));
      first := false;
    }
    assert cs[..|keys|] == cs;
  }

  /** One entry, after a comma unless it is the first. */
  method WriteChild(key: seq<byte>, child: FieldNode, denom: nat, first: bool, out: Buffer)
    requires ValidUtf8(key) && ProfileKeysValid(child)
    modifies out
    ensures out.data == old(out.data) + ChildText(ViewField(key, ViewOf(child, denom)), first)
    decreases child, 2
  {
    hide JsonString, GenText, ValidUtf8, ViewOf, ProfileKeysValid;
    ghost var start := out.data;
    if !first {
      out.Push(Json.COMMA);
    }
    ghost var mid := out.data;
    WriteJsonString(key, out);
    out.Push(Json.COLON);
    WriteGeneralizedField(child, denom, out);
    Group(mid, JsonString(key), [Json.COLON], GenText(ViewOf(child, denom)));
    Associate(start, if first then [] else [Json.COMMA],
      JsonString(key) + [Json.COLON] + GenText(ViewOf(child, denom)));
  }

  ghost function ChildText(c: ViewField, first: bool): seq<byte> {
    (if first then [] else [Json.COMMA]) + (JsonString(c.key) + [Json.COLON] + GenText(c.view))
  }

  lemma ChildTextIs(cs: seq<ViewField>, i: nat)
    requires i < |cs|
    ensures ChildrenText(cs[..i + 1]) == ChildrenText(cs[..i]) + ChildText(cs[i], i == 0)
  {
    hide JsonString, GenText, ChildrenText;
    ChildrenSnoc(cs, i);
    Associate(ChildrenText(cs[..i]), if i > 0 then [Json.COMMA] else [],
      JsonString(cs[i].key) + [Json.COLON] + GenText(cs[i].view));
  }

  lemma ChildValid(field: FieldNode, key: seq<byte>)
    requires ProfileKeysValid(field) && key in field.children
    ensures ValidUtf8(key) && ProfileKeysValid(field.children[key])
  {
    hide ValidUtf8;
  }

  /** `generalized_canonical_json`: always UTF-8. */
  method GeneralizedCanonicalJson(p: Profile) returns (text: seq<byte>)
    requires ProfileKeysValid(p.root)
    ensures text == GenText(ProfileView(p)) && ValidUtf8(text)
  {
    hide GenText, ViewOf;
    var body := new Buffer();
    WriteGeneralizedField(p.root, p.count, body);
    text := body.data;
    assert [] + GenText(ProfileView(p)) == GenText(ProfileView(p));
    ViewOfOk(p.root, p.count);
    GenTextValid(ProfileView(p));
  }
}
