/** When two documents have one shape. */
module Identity {
  import opened Utf8
  import opened Shapes
  import Json

  /** The value an object gives `key`: the last one, if the key is repeated. */
  function Lookup(fields: seq<Json.Field>, key: seq<byte>): (v: Json.Node)
    requires key in Json.Keys(fields)
    ensures Json.Field(key, v) in fields
  {
    var n := |fields| - 1;
    if fields[n].key == key then fields[n].value
    else
      assert fields == fields[..n] + [fields[n]];
      Lookup(fields[..n], key)
  }

  /** The documents differ at most in the order of object fields, in the order and repetition of
      array elements, and in scalar values of one type. */
  ghost predicate Alike(a: Json.Node, b: Json.Node) {
    match (a, b)
    case (Null, Null) => true
    case (Bool(_), Bool(_)) => true
    case (Number(_), Number(_)) => true
    case (String(_), String(_)) => true
    case (Array(xs, tx), Array(ys, ty)) =>
      && tx == ty
      && (forall x | x in xs :: exists y | y in ys :: Alike(x, y))
      && (forall y | y in ys :: exists x | x in xs :: Alike(x, y))
    case (Object(fs), Object(gs)) =>
      && Json.Keys(fs) == Json.Keys(gs)
      && (forall k | k in Json.Keys(fs) :: Alike(Lookup(fs, k), Lookup(gs, k)))
    case _ => false
  }

  /** The element shapes. */
  ghost function Images(items: seq<Json.Node>): set<Shape> {
    set x | x in items :: ShapeOf(x)
  }

  lemma ImagesGrow(items: seq<Json.Node>, x: Json.Node)
    ensures Images(items + [x]) == Images(items) + {ShapeOf(x)}
  {
    assert x in items + [x];
    assert forall y :: y in items + [x] <==> y in items || y == x;
  }

  lemma {:induction false} Collected(items: seq<Json.Node>)
    ensures SortedSet(CollectShapes(items))
    ensures forall s :: s in CollectShapes(items) <==> s in Images(items)
    decreases |items|
  {
    if items != [] {
      var n := |items| - 1;
      Collected(items[..n]);
      InsertSorted(ShapeOf(items[n]), CollectShapes(items[..n]));
      assert items == items[..n] + [items[n]];
      ImagesGrow(items[..n], items[n]);
    }
  }

  lemma {:induction false} CollectedFields(fields: seq<Json.Field>)
    ensures SortedFields(CollectFields(fields))
    ensures forall f :: f in CollectFields(fields) <==>
                          f.key in Json.Keys(fields) && f.value == ShapeOf(Lookup(fields, f.key))
    decreases |fields|
  {
    if fields != [] {
      var n := |fields| - 1;
      CollectedFields(fields[..n]);
      InsertFieldSorted(fields[n].key, ShapeOf(fields[n].value), CollectFields(fields[..n]));
      assert fields == fields[..n] + [fields[n]];
      KeysGrow(fields[..n], fields[n]);
    }
  }

  lemma KeysGrow(fields: seq<Json.Field>, f: Json.Field)
    ensures Json.Keys(fields + [f]) == Json.Keys(fields) + {f.key}
  {
    assert f in fields + [f];
    assert forall g :: g in fields + [f] <==> g in fields || g == f;
  }

  /** Two documents have the same shape exactly when they are alike. */
  lemma {:induction false} SameShape(a: Json.Node, b: Json.Node)
    ensures ShapeOf(a) == ShapeOf(b) <==> Alike(a, b)
    decreases a
  {
    match (a, b)
    case (Array(xs, tx), Array(ys, ty)) => SameElems(a, b);
    case (Object(fs), Object(gs)) => SameFields(a, b);
    case _ =>
  }

  /** Every element of either array has its like in the other. */
  ghost predicate Cover(xs: seq<Json.Node>, ys: seq<Json.Node>) {
    && (forall x | x in xs :: exists y | y in ys :: Alike(x, y))
    && (forall y | y in ys :: exists x | x in xs :: Alike(x, y))
  }

  lemma CoverImages(xs: seq<Json.Node>, ys: seq<Json.Node>)
    requires forall x, y | x in xs && y in ys :: ShapeOf(x) == ShapeOf(y) <==> Alike(x, y)
    ensures Cover(xs, ys) <==> Images(xs) == Images(ys)
  {
    hide *;
    if Cover(xs, ys) {
      CoversWithin(xs, ys);
    }
    if Images(xs) == Images(ys) {
      ImagesCover(xs, ys);
    }
  }

  lemma CoversWithin(xs: seq<Json.Node>, ys: seq<Json.Node>)
    requires forall x, y | x in xs && y in ys :: ShapeOf(x) == ShapeOf(y) <==> Alike(x, y)
    requires Cover(xs, ys)
    ensures Images(xs) == Images(ys)
  {
    hide ShapeOf, Alike;
    forall s | s in Images(xs) ensures s in Images(ys) {
      var x :| x in xs && ShapeOf(x) == s;
    }
    forall s | s in Images(ys) ensures s in Images(xs) {
      var y :| y in ys && ShapeOf(y) == s;
    }
  }

  lemma ImagesCover(xs: seq<Json.Node>, ys: seq<Json.Node>)
    requires forall x, y | x in xs && y in ys :: ShapeOf(x) == ShapeOf(y) <==> Alike(x, y)
    requires Images(xs) == Images(ys)
    ensures Cover(xs, ys)
  {
    hide ShapeOf, Alike;
    forall x | x in xs ensures exists y | y in ys :: Alike(x, y) {
      assert ShapeOf(x) in Images(ys);
    }
    forall y | y in ys ensures exists x | x in xs :: Alike(x, y) {
      assert ShapeOf(y) in Images(xs);
    }
  }

  lemma {:induction false} SameElems(a: Json.Node, b: Json.Node)
    requires a.Array? && b.Array?
    ensures ShapeOf(a) == ShapeOf(b) <==> Alike(a, b)
    decreases a, 0
  {
    hide *;
    var xs, ys := a.items, b.items;
    forall x, y | x in xs && y in ys
      ensures ShapeOf(x) == ShapeOf(y) <==> Alike(x, y)
    {
      SameShape(x, y);
    }
    CoverImages(xs, ys);
    SameCollection(xs, ys);
    AlikeArrays(a, b);
    SameEmptiness(a, b);
  }

  lemma AlikeArrays(a: Json.Node, b: Json.Node)
    requires a.Array? && b.Array?
    ensures Alike(a, b) <==> a.truncated == b.truncated && Cover(a.items, b.items)
  {
  }

  lemma SameCollection(xs: seq<Json.Node>, ys: seq<Json.Node>)
    ensures CollectShapes(xs) == CollectShapes(ys) <==> Images(xs) == Images(ys)
    ensures CollectShapes(xs) == [] <==> xs == []
  {
    hide CollectShapes, ShapeOf, Insert;
    Collected(xs);
    Collected(ys);
    if Images(xs) == Images(ys) {
      SortedSetUnique(CollectShapes(xs), CollectShapes(ys));
    }
    HasFirst(xs);
    HasFirst(CollectShapes(xs));
    assert xs != [] ==> ShapeOf(xs[0]) in CollectShapes(xs);
  }

  lemma SameEmptiness(a: Json.Node, b: Json.Node)
    requires a.Array? && b.Array?
    ensures ShapeOf(a) == ShapeOf(b) <==> a.truncated == b.truncated && CollectShapes(a.items) == CollectShapes(b.items)
  {
    hide CollectShapes;
    SameCollection(a.items, b.items);
    SameCollection(b.items, a.items);
  }

  lemma {:induction false} SameFields(a: Json.Node, b: Json.Node)
    requires a.Object? && b.Object?
    ensures ShapeOf(a) == ShapeOf(b) <==> Alike(a, b)
    decreases a, 0
  {
    var fs, gs := a.fields, b.fields;
    CollectedFields(fs);
    CollectedFields(gs);
    forall k | k in Json.Keys(fs) && k in Json.Keys(gs)
      ensures ShapeOf(Lookup(fs, k)) == ShapeOf(Lookup(gs, k)) <==> Alike(Lookup(fs, k), Lookup(gs, k))
    {
      assert Json.Field(k, Lookup(fs, k)) in fs;
      SameShape(Lookup(fs, k), Lookup(gs, k));
    }
    if Alike(a, b) {
      SortedFieldsUnique(CollectFields(fs), CollectFields(gs));
    }
    if ShapeOf(a) == ShapeOf(b) {
      forall k ensures k in Json.Keys(fs) <==> k in Json.Keys(gs) {
        if k in Json.Keys(fs) {
          assert ShapeField(k, ShapeOf(Lookup(fs, k))) in CollectFields(gs);
        }
        if k in Json.Keys(gs) {
          assert ShapeField(k, ShapeOf(Lookup(gs, k))) in CollectFields(fs);
        }
      }
      forall k | k in Json.Keys(fs) ensures Alike(Lookup(fs, k), Lookup(gs, k)) {
        assert ShapeField(k, ShapeOf(Lookup(fs, k))) in CollectFields(gs);
      }
    }
  }
}
