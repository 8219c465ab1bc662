/** Structural shapes: what remains of a document when its values are erased. `BTreeSet` and
    `BTreeMap` are sequences in strictly increasing order, so equal sets are equal sequences. */
module Shapes {
  import opened Sequences
  import opened Utf8
  import opened KeyOrder
  import Json

  datatype Emptiness = Empty | NonEmpty | Partial

  datatype Shape =
    | Null | Bool | Number | String
    | Array(elems: seq<Shape>, emptiness: Emptiness)
    | Object(fields: seq<ShapeField>)

  datatype ShapeField = ShapeField(key: seq<byte>, value: Shape)

  // ---- the derived order ----

  function Rank(s: Shape): nat {
    match s
    case Null => 0
    case Bool => 1
    case Number => 2
    case String => 3
    case Array(_, _) => 4
    case Object(_) => 5
  }

  function CompareNat(a: nat, b: nat): Ordering {
    if a < b then Lt else if a > b then Gt else Eq
  }

  function EmptinessRank(e: Emptiness): nat {
    match e case Empty => 0 case NonEmpty => 1 case Partial => 2
  }

  /** The first comparison that is not `Eq` decides. */
  function Then(first: Ordering, second: Ordering): Ordering {
    if first == Eq then second else first
  }

  function Compare(a: Shape, b: Shape): Ordering {
    if a.Array? && b.Array? then
      Then(CompareSets(a.elems, b.elems), CompareNat(EmptinessRank(a.emptiness), EmptinessRank(b.emptiness)))
    else if a.Object? && b.Object? then CompareFields(a.fields, b.fields)
    else CompareNat(Rank(a), Rank(b))
  }

  function CompareSets(xs: seq<Shape>, ys: seq<Shape>): Ordering {
    if xs == [] then if ys == [] then Eq else Lt
    else if ys == [] then Gt
    else Then(Compare(xs[0], ys[0]), CompareSets(xs[1..], ys[1..]))
  }

  function CompareFields(xs: seq<ShapeField>, ys: seq<ShapeField>): Ordering {
    if xs == [] then if ys == [] then Eq else Lt
    else if ys == [] then Gt
    else Then(Then(CompareKeys(xs[0].key, ys[0].key), Compare(xs[0].value, ys[0].value)),
      CompareFields(xs[1..], ys[1..]))
  }

  predicate Less(a: Shape, b: Shape) {
    Compare(a, b) == Lt
  }

  lemma {:induction false} CompareFlip(a: Shape, b: Shape)
    ensures Compare(b, a) == Compare(a, b).Flip()
    ensures Compare(a, b) == Eq <==> a == b
  {
    if a.Array? && b.Array? {
      CompareSetsFlip(a.elems, b.elems);
    } else if a.Object? && b.Object? {
      CompareFieldsFlip(a.fields, b.fields);
    }
  }

  lemma {:induction false} CompareSetsFlip(xs: seq<Shape>, ys: seq<Shape>)
    ensures CompareSets(ys, xs) == CompareSets(xs, ys).Flip()
    ensures CompareSets(xs, ys) == Eq <==> xs == ys
  {
    if xs != [] && ys != [] {
      CompareFlip(xs[0], ys[0]);
      CompareSetsFlip(xs[1..], ys[1..]);
      assert xs == [xs[0]] + xs[1..] && ys == [ys[0]] + ys[1..];
    }
  }

  lemma {:induction false} CompareFieldsFlip(xs: seq<ShapeField>, ys: seq<ShapeField>)
    ensures CompareFields(ys, xs) == CompareFields(xs, ys).Flip()
    ensures CompareFields(xs, ys) == Eq <==> xs == ys
  {
    if xs != [] && ys != [] {
      CompareKeysFlip(xs[0].key, ys[0].key);
      CompareFlip(xs[0].value, ys[0].value);
      CompareFieldsFlip(xs[1..], ys[1..]);
      assert xs == [xs[0]] + xs[1..] && ys == [ys[0]] + ys[1..];
    }
  }

  lemma {:induction false} LessTransitive(a: Shape, b: Shape, c: Shape)
    requires Less(a, b) && Less(b, c)
    ensures Less(a, c)
  {
    if a.Array? && b.Array? && c.Array? {
      SetsTransitive(a.elems, b.elems, c.elems);
    } else if a.Object? && b.Object? && c.Object? {
      FieldsTransitive(a.fields, b.fields, c.fields);
    }
  }

  lemma {:induction false} SetsTransitive(xs: seq<Shape>, ys: seq<Shape>, zs: seq<Shape>)
    ensures CompareSets(xs, ys) != Gt && CompareSets(ys, zs) != Gt ==>
              CompareSets(xs, zs) == Then(CompareSets(xs, ys), CompareSets(ys, zs))
  {
    CompareSetsFlip(xs, ys);
    CompareSetsFlip(ys, zs);
    if xs != [] && ys != [] && zs != [] {
      CompareFlip(xs[0], ys[0]);
      CompareFlip(ys[0], zs[0]);
      if Less(xs[0], ys[0]) && Less(ys[0], zs[0]) {
        LessTransitive(xs[0], ys[0], zs[0]);
      }
      SetsTransitive(xs[1..], ys[1..], zs[1..]);
    }
  }

  lemma {:induction false} FieldsTransitive(xs: seq<ShapeField>, ys: seq<ShapeField>, zs: seq<ShapeField>)
    ensures CompareFields(xs, ys) != Gt && CompareFields(ys, zs) != Gt ==>
              CompareFields(xs, zs) == Then(CompareFields(xs, ys), CompareFields(ys, zs))
  {
    CompareFieldsFlip(xs, ys);
    CompareFieldsFlip(ys, zs);
    if xs != [] && ys != [] && zs != [] {
      var x, y, z := xs[0], ys[0], zs[0];
      CompareKeysFlip(x.key, y.key);
      CompareKeysFlip(y.key, z.key);
      CompareFlip(x.value, y.value);
      CompareFlip(y.value, z.value);
      if KeyLess(x.key, y.key) && KeyLess(y.key, z.key) {
        KeyLessTransitive(x.key, y.key, z.key);
      }
      if Less(x.value, y.value) && Less(y.value, z.value) {
        LessTransitive(x.value, y.value, z.value);
      }
      FieldsTransitive(xs[1..], ys[1..], zs[1..]);
    }
  }

  /** The derived order on shapes is a strict total order. */
  lemma StrictTotalOrder(a: Shape, b: Shape, c: Shape)
    ensures !Less(a, a)
    ensures Less(a, b) || Less(b, a) || a == b
    ensures Less(a, b) ==> !Less(b, a) && a != b
    ensures Less(a, b) && Less(b, c) ==> Less(a, c)
  {
    CompareFlip(a, a);
    CompareFlip(a, b);
    if Less(a, b) && Less(b, c) {
      LessTransitive(a, b, c);
    }
  }

  // ---- sorted sets and maps ----

  predicate SortedSet(xs: seq<Shape>) {
    forall i, j | 0 <= i < j < |xs| :: Less(xs[i], xs[j])
  }

  predicate SortedFields(fs: seq<ShapeField>) {
    forall i, j | 0 <= i < j < |fs| :: KeyLess(fs[i].key, fs[j].key)
  }

  /** What Rust's types guarantee of every `Shape`: sets and maps in order, keys UTF-8. */
  predicate WellFormed(s: Shape) {
    match s
    case Array(elems, _) => SortedSet(elems) && forall x | x in elems :: WellFormed(x)
    case Object(fields) => SortedFields(fields) && forall f | f in fields :: ValidUtf8(f.key) && WellFormed(f.value)
    case _ => true
  }

  /** `BTreeSet::insert`. */
  function Insert(s: Shape, xs: seq<Shape>): seq<Shape> {
    if xs == [] then [s]
    else match Compare(s, xs[0])
      case Eq => xs
      case Lt => [s] + xs
      case Gt => [xs[0]] + Insert(s, xs[1..])
  }

  /** `BTreeMap::insert`: a key already present keeps its place and takes the new value. */
  function InsertField(key: seq<byte>, s: Shape, fs: seq<ShapeField>): seq<ShapeField> {
    if fs == [] then [ShapeField(key, s)]
    else match CompareKeys(key, fs[0].key)
      case Eq => [ShapeField(key, s)] + fs[1..]
      case Lt => [ShapeField(key, s)] + fs
      case Gt => [fs[0]] + InsertField(key, s, fs[1..])
  }

  lemma {:induction false} InsertSorted(s: Shape, xs: seq<Shape>)
    requires SortedSet(xs)
    ensures SortedSet(Insert(s, xs))
    ensures forall x :: x in Insert(s, xs) <==> x == s || x in xs
  {
    if xs != [] {
      CompareFlip(s, xs[0]);
      assert xs == [xs[0]] + xs[1..];
      match Compare(s, xs[0]) {
        case Eq =>
        case Lt =>
          forall j | 0 <= j < |xs| ensures Less(s, xs[j]) {
            if j > 0 { LessTransitive(s, xs[0], xs[j]); }
          }
        case Gt =>
          InsertSorted(s, xs[1..]);
          var r := Insert(s, xs[1..]);
          forall j | 0 <= j < |r| ensures Less(xs[0], r[j]) {
            assert r[j] in r;
          }
      }
    }
  }

  lemma {:induction false} InsertFieldSorted(key: seq<byte>, s: Shape, fs: seq<ShapeField>)
    requires SortedFields(fs)
    ensures SortedFields(InsertField(key, s, fs))
    ensures forall f :: f in InsertField(key, s, fs) <==> f == ShapeField(key, s) || (f in fs && f.key != key)
    decreases |fs|
  {
    hide CompareKeys;
    if fs != [] {
      CompareKeysFlip(key, fs[0].key);
      assert SortedFields(fs[1..]) && forall f | f in fs[1..] :: KeyLess(fs[0].key, f.key);
      FirstApart(fs);
      var rest := fs[1..];
      match CompareKeys(key, fs[0].key) {
        case Eq =>
          KeysAbove(key, rest);
          PrependSorted(ShapeField(key, s), rest);
        case Lt =>
          forall f | f in rest ensures KeyLess(key, f.key) {
            KeyLessTransitive(key, fs[0].key, f.key);
          }
          KeysAbove(key, fs);
          PrependSorted(ShapeField(key, s), fs);
        case Gt =>
          InsertFieldSorted(key, s, rest);
          PrependSorted(fs[0], InsertField(key, s, rest));
      }
    }
  }

  lemma KeysAbove(key: seq<byte>, fs: seq<ShapeField>)
    requires forall f | f in fs :: KeyLess(key, f.key)
    ensures forall f | f in fs :: f.key != key
  {
    hide CompareKeys;
    CompareKeysFlip(key, key);
  }

  lemma PrependSorted(f: ShapeField, fs: seq<ShapeField>)
    requires SortedFields(fs) && forall g | g in fs :: KeyLess(f.key, g.key)
    ensures SortedFields([f] + fs)
  {
    hide KeyLess;
    var all := [f] + fs;
    forall i, j | 0 <= i < j < |all| ensures KeyLess(all[i].key, all[j].key) {
      assert all[j] == fs[j - 1];
    }
  }

  lemma HasFirst<T>(s: seq<T>)
    ensures s != [] ==> s[0] in s
  {
  }

  /** A set has one sorted listing. */
  lemma {:induction false} SortedSetUnique(xs: seq<Shape>, ys: seq<Shape>)
    requires SortedSet(xs) && SortedSet(ys)
    requires forall x :: x in xs <==> x in ys
    ensures xs == ys
    decreases |xs|
  {
    HasFirst(ys);
    if xs != [] {
      assert xs[0] in xs && ys != [];
      var i :| 0 <= i < |ys| && ys[i] == xs[0];
      var j :| 0 <= j < |xs| && xs[j] == ys[0];
      CompareFlip(xs[0], ys[0]);
      assert xs[0] == ys[0];
      CompareFlip(xs[0], xs[0]);
      forall x ensures x in xs[1..] <==> x in ys[1..] {
        assert x in xs <==> x == xs[0] || x in xs[1..];
        assert x in ys <==> x == ys[0] || x in ys[1..];
      }
      SortedSetUnique(xs[1..], ys[1..]);
    }
  }

  /** A map has one sorted listing. */
  lemma {:induction false} SortedFieldsUnique(xs: seq<ShapeField>, ys: seq<ShapeField>)
    requires SortedFields(xs) && SortedFields(ys)
    requires forall x :: x in xs <==> x in ys
    ensures xs == ys
    decreases |xs|
  {
    HasFirst(ys);
    if xs != [] {
      assert xs[0] in xs && ys != [];
      var i :| 0 <= i < |ys| && ys[i] == xs[0];
      var j :| 0 <= j < |xs| && xs[j] == ys[0];
      CompareKeysFlip(xs[0].key, ys[0].key);
      assert xs[0] == ys[0];
      CompareKeysFlip(xs[0].key, xs[0].key);
      forall x ensures x in xs[1..] <==> x in ys[1..] {
        assert x in xs <==> x == xs[0] || x in xs[1..];
        assert x in ys <==> x == ys[0] || x in ys[1..];
      }
      SortedFieldsUnique(xs[1..], ys[1..]);
    }
  }

  // ---- shape_of ----

  function ArrayEmptiness(items: seq<Json.Node>, truncated: bool): Emptiness {
    if truncated then Partial else if items == [] then Empty else NonEmpty
  }

  function ShapeOf(n: Json.Node): Shape {
    match n
    case Null => Shape.Null
    case Bool(_) => Shape.Bool
    case Number(_) => Shape.Number
    case String(_) => Shape.String
    case Array(items, truncated) => Shape.Array(CollectShapes(items), ArrayEmptiness(items, truncated))
    case Object(fields) => Shape.Object(CollectFields(fields))
  }

  /** `collect` into a `BTreeSet`, inserting from the front on. */
  function CollectShapes(items: seq<Json.Node>): seq<Shape> {
    if items == [] then []
    else Insert(ShapeOf(items[|items| - 1]), CollectShapes(items[..|items| - 1]))
  }

  /** `collect` into a `BTreeMap`: of two fields with one key the later wins. */
  function CollectFields(fields: seq<Json.Field>): seq<ShapeField> {
    if fields == [] then []
    else
      var f := fields[|fields| - 1];
      InsertField(f.key, ShapeOf(f.value), CollectFields(fields[..|fields| - 1]))
  }

  function ShapeDepth(s: Shape): nat {
    match s
    case Array(elems, _) => 1 + MaxElemDepth(elems)
    case Object(fields) => 1 + MaxFieldDepth(fields)
    case _ => 1
  }

  function Max(a: nat, b: nat): nat {
    if a > b then a else b
  }

  function MaxElemDepth(elems: seq<Shape>): nat {
    if elems == [] then 0 else Max(ShapeDepth(elems[0]), MaxElemDepth(elems[1..]))
  }

  function MaxFieldDepth(fields: seq<ShapeField>): nat {
    if fields == [] then 0 else Max(ShapeDepth(fields[0].value), MaxFieldDepth(fields[1..]))
  }

  datatype ShapeSummary = ShapeSummary(topLevelFields: nat, depth: nat, topKeysSorted: seq<seq<byte>>)

  function Summarize(s: Shape): ShapeSummary {
    var keys := if s.Object? then seq(|s.fields|, i requires 0 <= i < |s.fields| => s.fields[i].key) else [];
    ShapeSummary(|keys|, ShapeDepth(s), keys)
  }
}
