/** What the canonical text says: read back, it is a description of the document it was made from. */
module Description {
  import opened Utf8
  import opened KeyOrder
  import opened Shapes
  import opened Identity
  import opened Canon
  import opened RoundTrip
  import opened ParseSpec
  import opened Fingerprint
  import Json

  /** `d` has just these members, in this order. */
  predicate HasMembers(d: Json.Node, names: seq<seq<byte>>) {
    d.Object? && |d.fields| == |names| && forall i | 0 <= i < |names| :: d.fields[i].key == names[i]
  }

  /** `d` names the kind of `n`; of an array it says whether it was empty or cut, and describes each element
      once, up to what descriptions tell apart; of an object it describes the value of each key. */
  ghost predicate Describes(d: Json.Node, n: Json.Node)
    decreases n
  {
    match n
    case Null => HasMembers(d, [Ascii("t")]) && d.fields[0].value == Json.String(Ascii("null"))
    case Bool(_) => HasMembers(d, [Ascii("t")]) && d.fields[0].value == Json.String(Ascii("bool"))
    case Number(_) => HasMembers(d, [Ascii("t")]) && d.fields[0].value == Json.String(Ascii("num"))
    case String(_) => HasMembers(d, [Ascii("t")]) && d.fields[0].value == Json.String(Ascii("str"))
    case Array(items, truncated) =>
      && HasMembers(d, [Ascii("t"), Ascii("e"), Ascii("of")])
      && d.fields[0].value == Json.String(Ascii("arr"))
      && d.fields[1].value ==
           Json.String(if truncated then Ascii("partial") else
             if items == [] then Ascii("empty") else Ascii("nonempty"))
      && var of := d.fields[2].value;
         && of.Array? && !of.truncated
         && EachDescribed(of.items, items) && EachDescribes(of.items, items)
         && (forall i, j | 0 <= i < j < |of.items| :: of.items[i] != of.items[j])
    case Object(fields) =>
      && HasMembers(d, [Ascii("t"), Ascii("f")])
      && d.fields[0].value == Json.String(Ascii("obj"))
      && var f := d.fields[1].value;
         && f.Object? && Json.Keys(f.fields) == Json.Keys(fields)
         && (forall i, j | 0 <= i < j < |f.fields| :: KeyLess(f.fields[i].key, f.fields[j].key))
         && (forall k | k in Json.Keys(fields) :: Describes(Lookup(f.fields, k), Lookup(fields, k)))
  }

  /** Every item has its description. */
  ghost predicate EachDescribed(of: seq<Json.Node>, items: seq<Json.Node>)
    decreases items
  {
    forall x | x in items :: exists y | y in of :: Describes(y, x)
  }

  /** Every description is one of an item. */
  ghost predicate EachDescribes(of: seq<Json.Node>, items: seq<Json.Node>)
    decreases items
  {
    forall y | y in of :: exists x | x in items :: Describes(y, x)
  }

  // ---- the spelled shape describes the document ----

  lemma {:induction false} SpelledElem(elems: seq<Shape>, i: nat)
    requires i < |elems|
    ensures SpelledSet(elems)[i] == Spelled(elems[i])
    decreases |elems|
  {
    hide Spelled;
    if i > 0 {
      SpelledElem(elems[1..], i - 1);
    }
  }

  lemma {:induction false} SpelledField(fields: seq<ShapeField>, i: nat)
    requires i < |fields|
    ensures SpelledFields(fields)[i] == Json.Field(fields[i].key, Spelled(fields[i].value))
    decreases |fields|
  {
    hide Spelled;
    if i > 0 {
      SpelledField(fields[1..], i - 1);
    }
  }

  /** The spelled elements are the spellings of the items' shapes, each once. */
  lemma {:induction false} ElemsDescribed(items: seq<Json.Node>)
    ensures var of := SpelledSet(CollectShapes(items));
      && (forall x | x in items :: Spelled(ShapeOf(x)) in of)
      && (forall y | y in of :: exists x | x in items :: y == Spelled(ShapeOf(x)))
      && (forall i, j | 0 <= i < j < |of| :: of[i] != of[j])
  {
    Collected(items);
    var xs := CollectShapes(items);
    var of := SpelledSet(xs);
    hide Spelled, CollectShapes, ShapeOf;
    forall x | x in items ensures Spelled(ShapeOf(x)) in of {
      assert ShapeOf(x) in Images(items);
      var i :| 0 <= i < |xs| && xs[i] == ShapeOf(x);
      SpelledElem(xs, i);
    }
    forall y | y in of ensures exists x | x in items :: y == Spelled(ShapeOf(x)) {
      var i :| 0 <= i < |of| && of[i] == y;
      SpelledElem(xs, i);
      assert xs[i] in Images(items);
    }
    forall i, j | 0 <= i < j < |of| ensures of[i] != of[j] {
      SpelledElem(xs, i);
      SpelledElem(xs, j);
      assert Less(xs[i], xs[j]);
      CompareFlip(xs[i], xs[j]);
      assert xs[i] != xs[j];
      if of[i] == of[j] {
        SpelledInjective(xs[i], xs[j]);
      }
    }
  }

  lemma {:induction false} FieldAt(fs: seq<ShapeField>, g: ShapeField)
    requires g in fs && SortedFields(fs)
    ensures var f := SpelledFields(fs);
      g.key in Json.Keys(f) && Lookup(f, g.key) == Spelled(g.value)
  {
    hide Spelled, KeyLess;
    var f := SpelledFields(fs);
    forall i, j | 0 <= i < j < |f| ensures f[i].key != f[j].key {
      SpelledField(fs, i);
      SpelledField(fs, j);
      KeysDiffer(fs[i].key, fs[j].key);
    }
    var i :| 0 <= i < |fs| && fs[i] == g;
    SpelledField(fs, i);
    assert f[i] in f;
    OwnValue(f, f[i]);
  }

  lemma {:induction false} FieldsDescribed(fields: seq<Json.Field>)
    ensures var f := SpelledFields(CollectFields(fields));
      && Json.Keys(f) == Json.Keys(fields)
      && (forall i, j | 0 <= i < j < |f| :: KeyLess(f[i].key, f[j].key))
      && (forall k | k in Json.Keys(fields) :: Lookup(f, k) == Spelled(ShapeOf(Lookup(fields, k))))
  {
    CollectedFields(fields);
    var fs := CollectFields(fields);
    var f := SpelledFields(fs);
    hide Spelled, CollectFields, ShapeOf, KeyLess;
    forall i, j | 0 <= i < j < |f| ensures KeyLess(f[i].key, f[j].key) {
      SpelledField(fs, i);
      SpelledField(fs, j);
    }
    forall k | k in Json.Keys(f) ensures k in Json.Keys(fields) {
      var g :| g in f && g.key == k;
      var i :| 0 <= i < |f| && f[i] == g;
      SpelledField(fs, i);
      assert fs[i] in fs;
    }
    forall k | k in Json.Keys(fields) ensures k in Json.Keys(f) && Lookup(f, k) == Spelled(ShapeOf(Lookup(fields, k))) {
      var g := ShapeField(k, ShapeOf(Lookup(fields, k)));
      assert g in fs;
      FieldAt(fs, g);
    }
  }

  lemma KeysDiffer(a: seq<byte>, b: seq<byte>)
    requires KeyLess(a, b)
    ensures a != b
  {
    CompareKeysFlip(a, b);
  }

  lemma {:induction false} SpelledDescribes(n: Json.Node)
    ensures Describes(Spelled(ShapeOf(n)), n)
    decreases n
  {
    hide *;
    match n
    case Array(items, truncated) =>
      forall x | x in items ensures Describes(Spelled(ShapeOf(x)), x) {
        SpelledDescribes(x);
      }
      ArrayDescribed(n);
    case Object(fields) =>
      forall k | k in Json.Keys(fields) ensures Describes(Spelled(ShapeOf(Lookup(fields, k))), Lookup(fields, k)) {
        ValueOf(fields, k);
        SpelledDescribes(Lookup(fields, k));
      }
      FieldsDescribed(fields);
      ObjectDescribed(n);
    case _ => ScalarDescribed(n);
  }

  lemma ValueOf(fields: seq<Json.Field>, k: seq<byte>)
    requires k in Json.Keys(fields)
    ensures Json.Field(k, Lookup(fields, k)) in fields
  {
  }

  lemma ScalarDescribed(n: Json.Node)
    requires !n.Array? && !n.Object?
    ensures Describes(Spelled(ShapeOf(n)), n)
  {
    hide Ascii;
  }

  lemma {:induction false} ArrayDescribed(n: Json.Node)
    requires n.Array? && forall x | x in n.items :: Describes(Spelled(ShapeOf(x)), x)
    ensures Describes(Spelled(ShapeOf(n)), n)
  {
    hide *;
    ElemsDescribed(n.items);
    var of := SpelledSet(CollectShapes(n.items));
    assert forall x | x in n.items :: Spelled(ShapeOf(x)) in of && Describes(Spelled(ShapeOf(x)), x);
    DescribedEach(of, n.items);
    DescribesEach(of, n.items);
    ArrayParts(n);
    DescribesArray(Spelled(ShapeOf(n)), n);
  }

  lemma {:induction false} ArrayParts(n: Json.Node)
    requires n.Array?
    ensures var d := Spelled(ShapeOf(n));
      && HasMembers(d, [Ascii("t"), Ascii("e"), Ascii("of")])
      && d.fields[0].value == Json.String(Ascii("arr"))
      && d.fields[1].value == Json.String(
           if n.truncated then Ascii("partial") else if n.items == [] then Ascii("empty") else Ascii("nonempty"))
      && d.fields[2].value == Json.Array(SpelledSet(CollectShapes(n.items)), false)
  {
  }

  lemma {:induction false} DescribesArray(d: Json.Node, n: Json.Node)
    requires n.Array? && HasMembers(d, [Ascii("t"), Ascii("e"), Ascii("of")])
    requires d.fields[0].value == Json.String(Ascii("arr"))
    requires d.fields[1].value == Json.String(
        if n.truncated then Ascii("partial") else if n.items == [] then Ascii("empty") else Ascii("nonempty"))
    requires d.fields[2].value.Array? && !d.fields[2].value.truncated
    requires EachDescribed(d.fields[2].value.items, n.items) && EachDescribes(d.fields[2].value.items, n.items)
    requires var of := d.fields[2].value.items;
      forall i, j | 0 <= i < j < |of| :: of[i] != of[j]
    ensures Describes(d, n)
  {
    hide Ascii, EachDescribed, EachDescribes;
  }

  lemma {:induction false} DescribedEach(of: seq<Json.Node>, items: seq<Json.Node>)
    requires forall x | x in items :: Spelled(ShapeOf(x)) in of && Describes(Spelled(ShapeOf(x)), x)
    ensures EachDescribed(of, items)
  {
    hide Describes, ShapeOf, Spelled;
  }

  lemma {:induction false} DescribesEach(of: seq<Json.Node>, items: seq<Json.Node>)
    requires forall x | x in items :: Describes(Spelled(ShapeOf(x)), x)
    requires forall y | y in of :: exists x | x in items :: y == Spelled(ShapeOf(x))
    ensures EachDescribes(of, items)
  {
    hide Describes, ShapeOf, Spelled;
    forall y | y in of ensures exists x | x in items :: Describes(y, x) {
      var x :| x in items && y == Spelled(ShapeOf(x));
      assert Describes(y, x);
    }
  }

  lemma {:induction false} ObjectDescribed(n: Json.Node)
    requires n.Object?
    requires forall k | k in Json.Keys(n.fields) ::
      Describes(Spelled(ShapeOf(Lookup(n.fields, k))), Lookup(n.fields, k))
    requires var f := SpelledFields(CollectFields(n.fields));
      && Json.Keys(f) == Json.Keys(n.fields)
      && (forall i, j | 0 <= i < j < |f| :: KeyLess(f[i].key, f[j].key))
      && (forall k | k in Json.Keys(n.fields) :: Lookup(f, k) == Spelled(ShapeOf(Lookup(n.fields, k))))
    ensures Describes(Spelled(ShapeOf(n)), n)
  {
    var d := Spelled(ShapeOf(n));
    assert d.fields[1].value == Json.Object(SpelledFields(CollectFields(n.fields)));
  }

  // ---- the text's own length bounds all that it holds ----

  lemma {:induction false} NeedShort(s: Shape)
    ensures Need(s) <= |Enc(s)|
    decreases s
  {
    match s
    case Array(elems, e) => NeedSetShort(elems);
    case Object(fields) => NeedFieldsShort(fields);
    case _ =>
  }

  lemma {:induction false} NeedSetShort(elems: seq<Shape>)
    ensures NeedSet(elems) + |elems| <= |EncSet(elems)| + 1
    decreases elems
  {
    hide Enc, Need;
    if elems != [] {
      NeedShort(elems[0]);
      NeedSetShort(elems[1..]);
    }
  }

  lemma {:induction false} NeedFieldsShort(fields: seq<ShapeField>)
    ensures NeedFields(fields) + |fields| <= |EncFields(fields)| + 1
    decreases fields
  {
    hide Enc, Need;
    if fields != [] {
      NeedShort(fields[0].value);
      EscapeLonger(fields[0].key);
      NeedFieldsShort(fields[1..]);
    }
  }

  /** The canonical text of a document's shape is read back, under limits of at least its length, as a
      description of that document; the fingerprint hashes the version tag, a zero byte and that text. */
  lemma {:induction false} CanonicalDescribes(n: Json.Node, k: nat) returns (d: Json.Node)
    requires KeysValid(n) && |Enc(ShapeOf(n))| <= k
    ensures ParseBounded(Enc(ShapeOf(n)), AllLimits(k)) == Json.Success(d) && Describes(d, n)
    ensures FingerprintOf(ShapeOf(n)) == Sha256(Ascii("deblob-canon-v1") + [0] + Enc(ShapeOf(n)))
  {
    hide Enc, ShapeOf, Describes, ParseBounded, Spelled, Need, Roomy, ShapeDepth, Ascii;
    var s := ShapeOf(n);
    ShapeWellFormed(n);
    NeedShort(s);
    NeedEnough(s, k);
    AtLeastEight(s);
    ParsesCanonical(s, AllLimits(k));
    SpelledDescribes(n);
    d := Spelled(s);
  }

  lemma AtLeastEight(s: Shape)
    ensures Need(s) >= 8
  {
  }
}
