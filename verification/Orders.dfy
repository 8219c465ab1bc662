/** The orders that canonical texts list keys and shapes in, each said by the first difference. */
module Orders {
  import opened Utf8
  import opened KeyOrder
  import opened Shapes

  lemma {:induction false} Differ<T>(xs: seq<T>, ys: seq<T>)
    ensures xs != [] && ys != [] && xs[0] != ys[0] ==>
      forall k | 0 < k <= |xs| && k <= |ys| :: xs[..k] != ys[..k]
  {
    forall k | 0 < k <= |xs| && k <= |ys| && xs[0] != ys[0] ensures xs[..k] != ys[..k] {
      assert xs[..k][0] == xs[0] && ys[..k][0] == ys[0];
    }
  }

  // ---- bytes ----

  /** The first `k` bytes agree, and `a` ends there or has the smaller byte. */
  predicate FirstBelow(a: seq<byte>, b: seq<byte>, k: nat) {
    k <= |a| && k < |b| && a[..k] == b[..k] && (k == |a| || a[k] < b[k])
  }

  lemma {:induction false} KeysBelow(a: seq<byte>, b: seq<byte>)
    ensures KeyLess(a, b) <==> exists k: nat :: FirstBelow(a, b, k)
    decreases |a|
  {
    if a == [] || b == [] || a[0] != b[0] {
      if KeyLess(a, b) {
        assert FirstBelow(a, b, 0);
      }
    } else {
      KeysBelow(a[1..], b[1..]);
      if KeyLess(a, b) {
        var k: nat :| FirstBelow(a[1..], b[1..], k);
        assert a[..k + 1] == [a[0]] + a[1..][..k] && b[..k + 1] == [b[0]] + b[1..][..k];
        assert FirstBelow(a, b, k + 1);
      }
      forall k: nat | FirstBelow(a, b, k) ensures KeyLess(a, b) {
        if k > 0 {
          assert a[1..][..k - 1] == a[..k][1..] && b[1..][..k - 1] == b[..k][1..];
          assert FirstBelow(a[1..], b[1..], k - 1);
        }
      }
    }
  }

  // ---- code points ----

  lemma {:induction false} DigitsBelow(x: nat, y: nat)
    requires x < y
    ensures x / 64 < y / 64 || (x / 64 == y / 64 && x % 64 < y % 64)
  {
  }

  /** Where two encodings first differ, both still go on. */
  lemma {:induction false} ScalarBelow(x: Scalar, y: Scalar) returns (k: nat)
    requires x < y
    ensures var a, b := EncodeScalar(x), EncodeScalar(y);
      k < |a| && k < |b| && a[..k] == b[..k] && a[k] < b[k]
  {
    DigitsBelow(x, y);
    k := 0;
    if |EncodeScalar(x)| == |EncodeScalar(y)| == 2 {
      k := if x / 64 < y / 64 then 0 else 1;
    } else if |EncodeScalar(x)| == |EncodeScalar(y)| == 3 {
      k := ThreeBelow(x, y);
    } else if |EncodeScalar(x)| == |EncodeScalar(y)| == 4 {
      k := FourBelow(x, y);
    } else {
      LeadRanges(x);
      LeadRanges(y);
    }
  }

  lemma {:induction false} LeadRanges(x: Scalar)
    ensures var e := EncodeScalar(x);
      match |e|
      case 1 => e[0] < 0x80
      case 2 => 0xC0 <= e[0] < 0xE0
      case 3 => 0xE0 <= e[0] < 0xF0
      case _ => 0xF0 <= e[0]
  {
    if 0x800 <= x < 0x1_0000 {
      assert x / 64 / 64 < 16;
    }
  }

  lemma {:induction false} ThreeBelow(x: Scalar, y: Scalar) returns (k: nat)
    requires 0x800 <= x < y < 0x1_0000
    ensures var a, b := EncodeScalar(x), EncodeScalar(y);
      k < 3 == |a| == |b| && a[..k] == b[..k] && a[k] < b[k]
  {
    DigitsBelow(x, y);
    if x / 64 == y / 64 {
      k := 2;
    } else {
      DigitsBelow(x / 64, y / 64);
      k := if x / 64 / 64 == y / 64 / 64 then 1 else 0;
    }
  }

  lemma {:induction false} FourBelow(x: Scalar, y: Scalar) returns (k: nat)
    requires 0x1_0000 <= x < y
    ensures var a, b := EncodeScalar(x), EncodeScalar(y);
      k < 4 == |a| == |b| && a[..k] == b[..k] && a[k] < b[k]
  {
    DigitsBelow(x, y);
    if x / 64 == y / 64 {
      k := 3;
    } else {
      DigitsBelow(x / 64, y / 64);
      if x / 64 / 64 == y / 64 / 64 {
        k := 2;
      } else {
        DigitsBelow(x / 64 / 64, y / 64 / 64);
        k := if x / 64 / 64 / 64 == y / 64 / 64 / 64 then 1 else 0;
      }
    }
  }

  /** The text of some code points. */
  function Encoded(xs: seq<Scalar>): seq<byte> {
    if xs == [] then [] else EncodeScalar(xs[0]) + Encoded(xs[1..])
  }

  /** The first `k` code points agree, and `xs` ends there or has the smaller one. */
  predicate PointsBelow(xs: seq<Scalar>, ys: seq<Scalar>, k: nat) {
    k <= |xs| && k < |ys| && xs[..k] == ys[..k] && (k == |xs| || xs[k] < ys[k])
  }

  /** Texts are ordered by their bytes exactly as they are by their code points. */
  lemma {:induction false} CodePointOrder(xs: seq<Scalar>, ys: seq<Scalar>)
    ensures KeyLess(Encoded(xs), Encoded(ys)) <==> exists k: nat :: PointsBelow(xs, ys, k)
    decreases |xs|
  {
    hide EncodeScalar;
    if xs == [] || ys == [] {
      if ys != [] {
        assert PointsBelow(xs, ys, 0);
      }
    } else if xs[0] == ys[0] {
      CodePointOrder(xs[1..], ys[1..]);
      SamePrefix(EncodeScalar(xs[0]), Encoded(xs[1..]), Encoded(ys[1..]));
      TailsBelow(xs, ys);
    } else if xs[0] < ys[0] {
      assert PointsBelow(xs, ys, 0);
      ApartBelow(xs, ys);
    } else {
      ApartBelow(ys, xs);
      CompareKeysFlip(Encoded(xs), Encoded(ys));
      Differ(xs, ys);
    }
  }

  lemma {:induction false} TailsBelow(xs: seq<Scalar>, ys: seq<Scalar>)
    requires xs != [] && ys != [] && xs[0] == ys[0]
    ensures (exists k: nat :: PointsBelow(xs, ys, k)) <==> exists k: nat :: PointsBelow(xs[1..], ys[1..], k)
  {
    forall k: nat | PointsBelow(xs, ys, k) ensures exists j: nat :: PointsBelow(xs[1..], ys[1..], j) {
      assert xs[1..][..k - 1] == xs[..k][1..] && ys[1..][..k - 1] == ys[..k][1..];
      assert PointsBelow(xs[1..], ys[1..], k - 1);
    }
    forall k: nat | PointsBelow(xs[1..], ys[1..], k) ensures exists j: nat :: PointsBelow(xs, ys, j) {
      assert xs[..k + 1] == [xs[0]] + xs[1..][..k] && ys[..k + 1] == [ys[0]] + ys[1..][..k];
      assert PointsBelow(xs, ys, k + 1);
    }
  }

  lemma {:induction false} SamePrefix(p: seq<byte>, a: seq<byte>, b: seq<byte>)
    ensures CompareKeys(p + a, p + b) == CompareKeys(a, b)
    decreases |p|
  {
    if p == [] {
      assert p + a == a && p + b == b;
    } else {
      SamePrefix(p[1..], a, b);
      assert (p + a)[1..] == p[1..] + a && (p + b)[1..] == p[1..] + b;
    }
  }

  lemma {:induction false} ApartBelow(xs: seq<Scalar>, ys: seq<Scalar>)
    requires xs != [] && ys != [] && xs[0] < ys[0]
    ensures KeyLess(Encoded(xs), Encoded(ys))
  {
    hide EncodeScalar;
    var k := ScalarBelow(xs[0], ys[0]);
    var a, b := Encoded(xs), Encoded(ys);
    assert a[..k] == EncodeScalar(xs[0])[..k] && b[..k] == EncodeScalar(ys[0])[..k];
    assert FirstBelow(a, b, k);
    KeysBelow(a, b);
  }

  /** Every UTF-8 text is the text of some code points. */
  lemma {:induction false} IsEncoded(s: seq<byte>) returns (xs: seq<Scalar>)
    requires ValidUtf8(s)
    ensures Encoded(xs) == s
    decreases |s|
  {
    hide EncodeScalar, FirstScalar, FirstLen;
    xs := [];
    if s != [] {
      var n := FirstLen(s);
      EncodeDecode(s);
      var x := FirstScalar(s);
      var rest := IsEncoded(s[n..]);
      xs := [x] + rest;
      assert s == s[..n] + s[n..];
      EncodedOne(x, rest);
    }
  }

  lemma EncodedOne(x: Scalar, rest: seq<Scalar>)
    ensures Encoded([x] + rest) == EncodeScalar(x) + Encoded(rest)
  {
    hide EncodeScalar;
    assert ([x] + rest)[1..] == rest;
  }

  // ---- shapes ----

  /** The kinds in their order: null, bool, number, string, array, object. */
  predicate KindBelow(a: Shape, b: Shape) {
    || (a.Null? && !b.Null?)
    || (a.Bool? && (b.Number? || b.String? || b.Array? || b.Object?))
    || (a.Number? && (b.String? || b.Array? || b.Object?))
    || (a.String? && (b.Array? || b.Object?))
    || (a.Array? && b.Object?)
  }

  predicate EmptinessBelow(a: Emptiness, b: Emptiness) {
    (a.Empty? && b.NonEmpty?) || (a.Empty? && b.Partial?) || (a.NonEmpty? && b.Partial?)
  }

  predicate ElemsBelow(xs: seq<Shape>, ys: seq<Shape>, k: nat) {
    k <= |xs| && k < |ys| && xs[..k] == ys[..k] && (k == |xs| || Less(xs[k], ys[k]))
  }

  predicate FieldsBelow(xs: seq<ShapeField>, ys: seq<ShapeField>, k: nat) {
    && k <= |xs| && k < |ys| && xs[..k] == ys[..k]
    && (k == |xs| || KeyLess(xs[k].key, ys[k].key) || (xs[k].key == ys[k].key && Less(xs[k].value, ys[k].value)))
  }

  /** Shapes are ordered by kind; arrays by the first element that differs and then by emptiness; objects by
      the first field that differs, its key before its value. */
  lemma {:induction false} ShapesBelow(a: Shape, b: Shape)
    ensures Less(a, b) <==>
      || KindBelow(a, b)
      || (a.Array? && b.Array? &&
          ((exists k: nat :: ElemsBelow(a.elems, b.elems, k))
           || (a.elems == b.elems && EmptinessBelow(a.emptiness, b.emptiness))))
      || (a.Object? && b.Object? && exists k: nat :: FieldsBelow(a.fields, b.fields, k))
  {
    hide ElemsBelow, FieldsBelow, CompareSets, CompareFields;
    if a.Array? && b.Array? {
      ElementsOrder(a.elems, b.elems);
      CompareSetsFlip(a.elems, b.elems);
    } else if a.Object? && b.Object? {
      FieldsOrder(a.fields, b.fields);
    }
  }

  lemma {:induction false} ElementsOrder(xs: seq<Shape>, ys: seq<Shape>)
    ensures CompareSets(xs, ys) == Lt <==> exists k: nat :: ElemsBelow(xs, ys, k)
    decreases |xs|
  {
    hide Compare;
    if xs == [] || ys == [] || xs[0] != ys[0] {
      if xs != [] && ys != [] {
        CompareFlip(xs[0], ys[0]);
      }
      if CompareSets(xs, ys) == Lt {
        assert ElemsBelow(xs, ys, 0);
      }
      Differ(xs, ys);
    } else {
      CompareFlip(xs[0], ys[0]);
      ElementsOrder(xs[1..], ys[1..]);
      forall k: nat | ElemsBelow(xs, ys, k) ensures exists j: nat :: ElemsBelow(xs[1..], ys[1..], j) {
        assert xs[1..][..k - 1] == xs[..k][1..] && ys[1..][..k - 1] == ys[..k][1..];
        assert ElemsBelow(xs[1..], ys[1..], k - 1);
      }
      forall k: nat | ElemsBelow(xs[1..], ys[1..], k) ensures exists j: nat :: ElemsBelow(xs, ys, j) {
        assert xs[..k + 1] == [xs[0]] + xs[1..][..k] && ys[..k + 1] == [ys[0]] + ys[1..][..k];
        assert ElemsBelow(xs, ys, k + 1);
      }
    }
  }

  lemma {:induction false} FieldsOrder(xs: seq<ShapeField>, ys: seq<ShapeField>)
    ensures CompareFields(xs, ys) == Lt <==> exists k: nat :: FieldsBelow(xs, ys, k)
    decreases |xs|
  {
    hide Compare, CompareKeys;
    if xs != [] && ys != [] {
      CompareKeysFlip(xs[0].key, ys[0].key);
      CompareFlip(xs[0].value, ys[0].value);
    }
    if xs == [] || ys == [] || xs[0] != ys[0] {
      if CompareFields(xs, ys) == Lt {
        assert FieldsBelow(xs, ys, 0);
      }
      Differ(xs, ys);
    } else {
      FieldsOrder(xs[1..], ys[1..]);
      forall k: nat | FieldsBelow(xs, ys, k) ensures exists j: nat :: FieldsBelow(xs[1..], ys[1..], j) {
        assert xs[1..][..k - 1] == xs[..k][1..] && ys[1..][..k - 1] == ys[..k][1..];
        assert FieldsBelow(xs[1..], ys[1..], k - 1);
      }
      forall k: nat | FieldsBelow(xs[1..], ys[1..], k) ensures exists j: nat :: FieldsBelow(xs, ys, j) {
        assert xs[..k + 1] == [xs[0]] + xs[1..][..k] && ys[..k + 1] == [ys[0]] + ys[1..][..k];
        assert FieldsBelow(xs, ys, k + 1);
      }
    }
  }
}
