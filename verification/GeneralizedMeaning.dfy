/** What the generalized text says of the documents behind it, read off the JSON document it is. */
module GeneralizedMeaning {
  import opened Options
  import opened Utf8
  import opened KeyOrder
  import opened Identity
  import opened Grammar
  import opened Canon
  import opened RoundTrip
  import opened ParseSpec
  import opened Fingerprint
  import opened Profiles
  import opened Counting
  import opened Generalized
  import opened GeneralizedText
  import opened GeneralizedIdentity
  import opened Optionality
  import Json

  /** The place of a path in such a document: under `children` and then the key, or under `elem`. */
  function Place(d: Json.Node, p: seq<Step>): Option<Json.Node>
    decreases |p|
  {
    if p == [] then Some(d)
    else match p[0]
      case Key(k) =>
        if !d.Object? || Ascii("children") !in Json.Keys(d.fields) then None
        else
          var below := Lookup(d.fields, Ascii("children"));
          if below.Object? && k in Json.Keys(below.fields) then Place(Lookup(below.fields, k), p[1..]) else None
      case Elem =>
        if !d.Object? || Ascii("elem") !in Json.Keys(d.fields) then None
        else Place(Lookup(d.fields, Ascii("elem")), p[1..])
  }

  // ---- the text's own length bounds all that it holds ----

  lemma BaseLength(v: View)
    ensures |BaseText(v)| >= 20 && |CHILDREN_HEAD| >= 10 && |ELEM_HEAD| >= 5
  {
    hide NamesText, Seen, TypeTable;
  }

  lemma {:induction false} NeedShort(v: View)
    ensures NeedView(v) <= |GenText(v)|
    decreases v, 1
  {
    hide BaseText, ChildrenText, NeedChildren, CHILDREN_HEAD, ELEM_HEAD;
    BaseLength(v);
    NeedChildrenShort(v.children);
    if v.elem.Some? {
      NeedShort(v.elem.value);
    }
    assert v.children == [] ==> NeedChildren(v.children) == 0 by { NoNeed(); }
  }

  lemma NoNeed()
    ensures NeedChildren([]) == 0
  {
  }

  lemma {:induction false} NeedChildrenShort(cs: seq<ViewField>)
    ensures |cs| + NeedChildren(cs) <= |ChildrenText(cs)|
    decreases cs, 0
  {
    hide GenText, NeedView;
    if cs != [] {
      var n := |cs| - 1;
      NeedChildrenShort(cs[..n]);
      NeedShort(cs[n].view);
      EscapeLonger(cs[n].key);
    }
  }

  lemma {:induction false} TextParses(v: View, n: nat)
    requires ViewOk(v) && |GenText(v)| <= n
    ensures ParseBounded(GenText(v), AllLimits(n)) == Json.Success(SpelledView(v))
  {
    hide GenText, NeedView, SpelledView, ViewOk, ParseValue;
    NeedShort(v);
    ReadsView(v, [], n);
    assert GenText(v) + [] == GenText(v);
  }

  // ---- one step down ----

  lemma {:induction false} SpelledAt(cs: seq<ViewField>, i: nat)
    requires i < |cs|
    ensures SpelledChildren(cs)[i] == Json.Field(cs[i].key, SpelledView(cs[i].view))
    decreases |cs|
  {
    hide SpelledView, SpelledChildren;
    LastSpelled(cs);
    var n := |cs| - 1;
    if i < n {
      SpelledAt(cs[..n], i);
    }
  }

  /** The members of a position, looked up by name. */
  lemma {:induction false} NamedMembers(v: View)
    ensures var d := SpelledView(v);
      && d.Object? && Distinct(d.fields)
      && Json.Field(OPTIONAL, Json.Bool(v.optional)) in d.fields
      && Json.Field(TYPES, Json.Array(NameNodes(Names(v)), false)) in d.fields
      && if v.children == [] then CHILDREN !in Json.Keys(d.fields)
         else CHILDREN in Json.Keys(d.fields) && Lookup(d.fields, CHILDREN) == Json.Object(SpelledChildren(v.children))
    ensures var d := SpelledView(v);
      if v.elem.None? then ELEM !in Json.Keys(d.fields)
      else ELEM in Json.Keys(d.fields) && Lookup(d.fields, ELEM) == SpelledView(v.elem.value)
  {
    hide *;
    FieldsDistinct(v);
    SpelledFields(v);
    FieldsByName(v);
    var d := SpelledView(v);
    if v.children != [] {
      OwnValue(d.fields, Json.Field(CHILDREN, Json.Object(SpelledChildren(v.children))));
    }
    if v.elem.Some? {
      OwnValue(d.fields, Json.Field(ELEM, SpelledView(v.elem.value)));
    }
  }

  lemma Labels()
    ensures Ascii("optional") == OPTIONAL && Ascii("types") == TYPES
    ensures Ascii("children") == CHILDREN && Ascii("elem") == ELEM
  {
    hide Ascii;
  }

  lemma SpelledFields(v: View)
    ensures SpelledView(v) == Json.Object(BaseFields(v) + ChildrenField(v) + ElemField(v))
  {
    hide BaseFields, ChildrenField, ElemField;
  }

  lemma {:induction false} FieldsByName(v: View)
    ensures var fs := BaseFields(v) + ChildrenField(v) + ElemField(v);
      && Json.Field(OPTIONAL, Json.Bool(v.optional)) in fs
      && Json.Field(TYPES, Json.Array(NameNodes(Names(v)), false)) in fs
      && (CHILDREN in Json.Keys(fs) <==> v.children != [])
      && (v.children != [] ==> Json.Field(CHILDREN, Json.Object(SpelledChildren(v.children))) in fs)
      && (ELEM in Json.Keys(fs) <==> v.elem.Some?)
      && (v.elem.Some? ==> Json.Field(ELEM, SpelledView(v.elem.value)) in fs)
  {
    hide SpelledChildren, SpelledView, NameNodes, Names, OPTIONAL, TYPES, CHILDREN, ELEM, JsonString, ValidUtf8;
    PlainLabels();
    var a, b, c := BaseFields(v), ChildrenField(v), ElemField(v);
    assert a[0] in a && a[1] in a;
    assert b != [] ==> b[0] in b;
    assert c != [] ==> c[0] in c;
    KeysOfThree(a, b, c, CHILDREN);
    KeysOfThree(a, b, c, ELEM);
  }

  lemma KeysOfThree(a: seq<Json.Field>, b: seq<Json.Field>, c: seq<Json.Field>, k: seq<byte>)
    ensures forall f :: f in a + b + c <==> f in a || f in b || f in c
    ensures k in Json.Keys(a + b + c) <==> k in Json.Keys(a) || k in Json.Keys(b) || k in Json.Keys(c)
  {
  }

  lemma {:induction false} PlaceKey(v: View, k: seq<byte>, q: seq<Step>)
    requires ViewOk(v)
    ensures forall i | 0 <= i < |v.children| && v.children[i].key == k ::
              Place(SpelledView(v), [Key(k)] + q) == Place(SpelledView(v.children[i].view), q)
    ensures (forall i | 0 <= i < |v.children| :: v.children[i].key != k) ==>
              Place(SpelledView(v), [Key(k)] + q) == None
  {
    hide SpelledView, SpelledChildren, ViewOk, Names, NameNodes, Ascii, OPTIONAL, TYPES, CHILDREN, ELEM;
    NamedMembers(v);
    Labels();
    assert ([Key(k)] + q)[1..] == q;
    if v.children != [] {
      var below := SpelledChildren(v.children);
      ChildKeys(v);
      forall i | 0 <= i < |v.children| && v.children[i].key == k
        ensures k in Json.Keys(below) && Lookup(below, k) == SpelledView(v.children[i].view)
      {
        SpelledAt(v.children, i);
        assert below[i] in below;
        OwnValue(below, below[i]);
      }
      if k in Json.Keys(below) {
        var f :| f in below && f.key == k;
        var i :| 0 <= i < |below| && below[i] == f;
        assert v.children[i].key == k;
      }
    }
  }

  lemma {:induction false} PlaceElem(v: View, q: seq<Step>)
    ensures Place(SpelledView(v), [Elem] + q) ==
      match v.elem case None => None case Some(e) => Place(SpelledView(e), q)
  {
    hide SpelledView, SpelledChildren, Names, NameNodes, Ascii, OPTIONAL, TYPES, CHILDREN, ELEM;
    NamedMembers(v);
    Labels();
    assert ([Elem] + q)[1..] == q;
  }

  lemma {:induction false} PlaceStep(f: FieldNode, m: nat, s: Step, q: seq<Step>)
    requires ProfileKeysValid(f)
    ensures Place(SpelledView(ViewOf(f, m)), [s] + q) ==
      match Child(f, s) case None => None case Some(c) => Place(SpelledView(ViewOf(c, Denominator(f, s))), q)
  {
    hide SpelledView, ViewOk, Place, ProfileKeysValid;
    ViewOfOk(f, m);
    match s
    case Key(k) =>
      var cs := ViewOf(f, m).children;
      PlaceKey(ViewOf(f, m), k, q);
      FindChild(f, m, k);
      hide ViewOf;
      if i :| 0 <= i < |cs| && cs[i].key == k {
        assert ChildView(f, Key(k)) == Some(cs[i].view);
      }
    case Elem => PlaceElem(ViewOf(f, m), q);
  }

  /** The position of a path holds the view of the node there. */
  lemma {:induction false} PlaceAt(f: FieldNode, m: nat, p: seq<Step>) returns (denom: nat)
    requires ProfileKeysValid(f)
    ensures match At(f, p)
      case None => Place(SpelledView(ViewOf(f, m)), p) == None
      case Some(g) =>
        && Place(SpelledView(ViewOf(f, m)), p) == Some(SpelledView(ViewOf(g, denom)))
        && FlagsAt(f, m, p) == Flags(g.stats.present < denom, Support(g.stats.types))
    decreases |p|
  {
    hide SpelledView, ViewOf, ProfileKeysValid, Support;
    denom := m;
    if p != [] {
      assert p == [p[0]] + p[1..];
      PlaceStep(f, m, p[0], p[1..]);
      if Child(f, p[0]).Some? {
        ChildKeysValid(f, p[0]);
        denom := PlaceAt(Child(f, p[0]).value, Denominator(f, p[0]), p[1..]);
      }
    }
  }

  lemma ChildKeysValid(f: FieldNode, s: Step)
    requires ProfileKeysValid(f) && Child(f, s).Some?
    ensures ProfileKeysValid(Child(f, s).value)
  {
    hide ValidUtf8;
    KeysValidBelow(f);
  }

  // ---- the type names ----

  lemma {:induction false} SeenSorted(table: seq<(seq<byte>, bool)>)
    requires forall i, j | 0 <= i < j < |table| :: KeyLess(table[i].0, table[j].0)
    ensures SortedKeys(Seen(table))
    decreases |table|
  {
    hide KeyLess;
    if table != [] {
      var n := |table| - 1;
      SeenSorted(table[..n]);
      SeenNames(table[..n]);
      var before := Seen(table[..n]);
      forall i | 0 <= i < |before| ensures KeyLess(before[i], table[n].0) {
        assert before[i] in before;
        var j :| 0 <= j < n && table[..n][j].0 == before[i];
        assert KeyLess(table[j].0, table[n].0);
      }
    }
  }

  lemma {:induction false} FirstByteLess(a: seq<byte>, b: seq<byte>)
    requires a != [] && b != [] && a[0] < b[0]
    ensures KeyLess(a, b)
  {
  }

  lemma {:induction false} TableSorted(t: TypeSupport)
    ensures var table := TypeTable(t); forall i, j | 0 <= i < j < |table| :: KeyLess(table[i].0, table[j].0)
  {
    hide KeyLess, Ascii;
    var a, b, n, m, o, s := Ascii("array"), Ascii("bool"), Ascii("null"), Ascii("number"), Ascii("object"),
      Ascii("string");
    assert a[0] == 0x61 && b[0] == 0x62 && n[0] == m[0] == 0x6E && o[0] == 0x6F && s[0] == 0x73;
    forall x, y | x != [] && y != [] && x[0] < y[0] ensures KeyLess(x, y) {
      FirstByteLess(x, y);
    }
    NullBeforeNumber();
  }

  lemma {:induction false} NullBeforeNumber()
    ensures KeyLess(Ascii("null"), Ascii("number"))
  {
    var a, b := Ascii("null"), Ascii("number");
    hide Ascii;
    assert a[0] == b[0] && a[1] == b[1] && a[2] < b[2];
    assert a[1..][1..][0] == a[2] && b[1..][1..][0] == b[2];
    assert CompareKeys(a[1..][1..], b[1..][1..]) == Lt;
    assert CompareKeys(a[1..], b[1..]) == CompareKeys(a[1..][1..], b[1..][1..]);
  }

  lemma {:induction false} NamesMean(v: View)
    ensures Ascii("array") in Names(v) <==> v.support.arrays
    ensures Ascii("bool") in Names(v) <==> v.support.bools
    ensures Ascii("null") in Names(v) <==> v.support.nulls
    ensures Ascii("number") in Names(v) <==> v.support.numbers
    ensures Ascii("object") in Names(v) <==> v.support.objects
    ensures Ascii("string") in Names(v) <==> v.support.strings
    ensures SortedKeys(Names(v))
    ensures forall x | x in Names(v) ::
      x in {Ascii("array"), Ascii("bool"), Ascii("null"), Ascii("number"), Ascii("object"), Ascii("string")}
  {
    var table := TypeTable(v.support);
    NamesDiffer(v.support);
    TableSorted(v.support);
    hide Seen, Ascii, KeyLess;
    SeenSorted(table);
    SeenNames(table);
    SeenExactly(table, 0);
    SeenExactly(table, 1);
    SeenExactly(table, 2);
    SeenExactly(table, 3);
    SeenExactly(table, 4);
    SeenExactly(table, 5);
  }

  // ---- what the text says ----

  /** The types listed at a position, as JSON strings. */
  ghost predicate ListsTypes(types: seq<Json.Node>, docs: seq<Json.Node>, p: seq<Step>, rules: NumberRules) {
    && (Json.String(Ascii("array")) in types <==> CountAll(docs, p, IsArray, rules) > 0)
    && (Json.String(Ascii("bool")) in types <==> CountAll(docs, p, IsBool, rules) > 0)
    && (Json.String(Ascii("null")) in types <==> CountAll(docs, p, IsNull, rules) > 0)
    && (Json.String(Ascii("number")) in types <==> CountAll(docs, p, IsNumber, rules) > 0)
    && (Json.String(Ascii("object")) in types <==> CountAll(docs, p, IsObject, rules) > 0)
    && (Json.String(Ascii("string")) in types <==> CountAll(docs, p, IsString, rules) > 0)
    && (forall x | x in types :: x.String?)
    && (forall i, j | 0 <= i < j < |types| ::
      types[i].String? && types[j].String? && KeyLess(types[i].chars, types[j].chars))
  }

  lemma {:induction false} ViewListsTypes(v: View, t: TypeCounts, docs: seq<Json.Node>, p: seq<Step>,
                                          rules: NumberRules)
    requires v.support == Support(t)
    requires t == TypeCounts(CountAll(docs, p, IsNull, rules), CountAll(docs, p, IsBool, rules),
                             CountAll(docs, p, IsNumber, rules), CountAll(docs, p, IsString, rules),
                             CountAll(docs, p, IsArray, rules), CountAll(docs, p, IsObject, rules))
    ensures ListsTypes(NameNodes(Names(v)), docs, p, rules)
  {
    NamesMean(v);
    hide CountAll, Names, Ascii, KeyLess;
    var names := Names(v);
    NodeOf(names, Ascii("array"));
    NodeOf(names, Ascii("bool"));
    NodeOf(names, Ascii("null"));
    NodeOf(names, Ascii("number"));
    NodeOf(names, Ascii("object"));
    NodeOf(names, Ascii("string"));
  }

  lemma NodeOf(names: seq<seq<byte>>, x: seq<byte>)
    ensures x in names <==> Json.String(x) in NameNodes(names)
  {
    var nodes := NameNodes(names);
    if x in names {
      var i :| 0 <= i < |names| && names[i] == x;
      assert nodes[i] == Json.String(x);
    }
    if Json.String(x) in nodes {
      var i :| 0 <= i < |nodes| && nodes[i] == Json.String(x);
    }
  }

  /** Whether a position is optional, by what was seen of it and of the position above. */
  ghost predicate FlagMeans(optional: bool, docs: seq<Json.Node>, p: seq<Step>, rules: NumberRules) {
    if p == [] then !optional
    else
      var n := |p| - 1;
      match p[n]
      case Key(k) => optional <==> CountAll(docs, p[..n], Lacks(k), rules) > 0
      case Elem => optional <==> CountAll(docs, p, Present, rules) < CountAll(docs, p[..n], IsArray, rules)
  }

  lemma {:induction false} FlagIs(m: Merging, p: seq<Step>, rules: NumberRules)
    requires var f := Observed(m, rules); At(f.root, p).Some?
    ensures var f := Observed(m, rules); var flags := FlagsAt(f.root, f.count, p);
      flags.Flags? && FlagMeans(flags.optional, Docs(m), p, rules)
  {
    hide Observed, At, FlagsAt, CountAll, Docs;
    if p == [] {
      RootRequired(m, rules);
    } else {
      var n := |p| - 1;
      assert p == p[..n] + [p[n]];
      match p[n]
      case Key(k) => OptionalExactly(m, p[..n], k, rules);
      case Elem => ElementOptionalExactly(m, p[..n], rules);
    }
  }

  /** The text has the position exactly when something was seen there; then it holds the flag and the types. */
  ghost predicate Reports(d: Json.Node, optional: bool, types: seq<Json.Node>, docs: seq<Json.Node>, p: seq<Step>,
                          rules: NumberRules)
  {
    && (Place(d, p).Some? <==> CountAll(docs, p, Present, rules) > 0)
    && (Place(d, p).Some? ==>
          var o := Place(d, p).value;
          && o.Object? && Distinct(o.fields)
          && Json.Field(Ascii("optional"), Json.Bool(optional)) in o.fields
          && Json.Field(Ascii("types"), Json.Array(types, false)) in o.fields
          && FlagMeans(optional, docs, p, rules)
          && ListsTypes(types, docs, p, rules))
  }

  /** The generalized text of any merging of documents is read back, under limits of at least its length,
      as a document that has a position for exactly the paths at which something was observed; there it
      lists exactly the types observed, in order, and its flag says whether the field was ever missing. */
  lemma {:induction false} GeneralizedMeans(m: Merging, p: seq<Step>, rules: NumberRules, n: nat)
      returns (d: Json.Node, optional: bool, types: seq<Json.Node>)
    requires forall x | x in Docs(m) :: KeysValid(x)
    requires |GenText(ProfileView(Observed(m, rules)))| <= n
    ensures ParseBounded(GenText(ProfileView(Observed(m, rules))), AllLimits(n)) == Json.Success(d)
    ensures Reports(d, optional, types, Docs(m), p, rules)
  {
    hide *;
    var f := Observed(m, rules);
    ObservedKeysValid(m, rules);
    ViewOfOk(f.root, f.count);
    ViewOfProfile(f);
    TextParses(ProfileView(f), n);
    d, optional, types := SpelledView(ProfileView(f)), false, [];
    var denom := PlaceAt(f.root, f.count, p);
    ProfileCounts(m, p, rules);
    NodeCounts(m, p, rules);
    if At(f.root, p).Some? {
      var g := At(f.root, p).value;
      var v := ViewOf(g, denom);
      ViewFlags(g, denom);
      optional, types := v.optional, NameNodes(Names(v));
      NamedMembers(v);
      Labels();
      FlagIs(m, p, rules);
      ViewListsTypes(v, g.stats.types, Docs(m), p, rules);
    }
    Reported(d, optional, types, Docs(m), p, rules);
  }

  lemma Reported(d: Json.Node, optional: bool, types: seq<Json.Node>, docs: seq<Json.Node>, p: seq<Step>,
                 rules: NumberRules)
    requires Place(d, p).Some? <==> CountAll(docs, p, Present, rules) > 0
    requires Place(d, p).Some? ==>
      var o := Place(d, p).value;
      && o.Object? && Distinct(o.fields)
      && Json.Field(Ascii("optional"), Json.Bool(optional)) in o.fields
      && Json.Field(Ascii("types"), Json.Array(types, false)) in o.fields
    requires Place(d, p).Some? ==> FlagMeans(optional, docs, p, rules) && ListsTypes(types, docs, p, rules)
    ensures Reports(d, optional, types, docs, p, rules)
  {
    hide Place, FlagMeans, ListsTypes, CountAll;
  }

  lemma ViewOfProfile(f: Profile)
    ensures ProfileView(f) == ViewOf(f.root, f.count)
  {
    hide ViewOf;
  }

  lemma ViewFlags(f: FieldNode, m: nat)
    ensures ViewOf(f, m).optional == (f.stats.present < m) && ViewOf(f, m).support == Support(f.stats.types)
  {
    hide Support;
  }

  lemma {:induction false} NodeCounts(m: Merging, p: seq<Step>, rules: NumberRules)
    ensures var g := At(Observed(m, rules).root, p);
      && (g.Some? <==> CountAll(Docs(m), p, Present, rules) > 0)
      && (g.Some? ==>
            g.value.stats.types
            == TypeCounts(CountAll(Docs(m), p, IsNull, rules), CountAll(Docs(m), p, IsBool, rules),
                          CountAll(Docs(m), p, IsNumber, rules), CountAll(Docs(m), p, IsString, rules),
                          CountAll(Docs(m), p, IsArray, rules), CountAll(Docs(m), p, IsObject, rules)))
  {
    hide Observed, At, CountAll, Docs;
    ProfileCounts(m, p, rules);
  }

  /** What is printed and hashed frames that text, under the name of its version. */
  lemma {:induction false} GeneralizedFramed(p: Profile)
    ensures GeneralizedBody(ProfileView(p))
         == Ascii("{\"gen\":\"") + Ascii("deblob-monoid-v1") + Ascii("\",\"fields\":") + GenText(ProfileView(p))
            + Ascii("}")
    ensures GeneralizedFingerprint(p)
         == Sha256(Ascii("deblob-monoid-v1") + [0] + GeneralizedBody(ProfileView(p)))
  {
    hide GenText, ProfileView;
    Frame();
    hide Ascii, GEN_HEAD, GEN_MIDDLE, GENERALIZER;
  }

  lemma Frame()
    ensures GEN_HEAD == Ascii("{\"gen\":\"") && GENERALIZER == Ascii("deblob-monoid-v1")
    ensures GEN_MIDDLE == Ascii("\",\"fields\":") && [Json.RBRACE] == Ascii("}")
  {
  }
}
