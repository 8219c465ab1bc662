/** The canonical printer: loops that append to one output buffer. */
module Printer {
  import opened Sequences
  import opened Utf8
  import opened Shapes
  import opened Canon
  import Json

  /** A growing `Vec<u8>`. */
  class Buffer {
    var data: seq<byte>

    constructor ()
      ensures data == []
    {
      data := [];
    }

    method Push(b: byte)
      modifies this
      ensures data == old(data) + [b]
    {
      data := data + [b];
    }

    method Extend(bs: seq<byte>)
      modifies this
      ensures data == old(data) + bs
    {
      data := data + bs;
    }
  }

  // ---- keys ----

  lemma EscapeStep(c: byte, rest: seq<byte>)
    ensures EscapeKey([c] + rest) == EscapeByte(c) + EscapeKey(rest)
  {
    hide EscapeByte;
    assert ([c] + rest)[1..] == rest;
  }

  lemma {:induction false} EscapeConcat(a: seq<byte>, b: seq<byte>)
    ensures EscapeKey(a + b) == EscapeKey(a) + EscapeKey(b)
    decreases |a|
  {
    if a == [] {
      assert a + b == b;
    } else {
      hide *;
      EscapeConcat(a[1..], b);
      FirstApart(a);
      Associate([a[0]], a[1..], b);
      EscapeStep(a[0], a[1..]);
      EscapeStep(a[0], a[1..] + b);
      Associate(EscapeByte(a[0]), EscapeKey(a[1..]), EscapeKey(b));
    }
  }

  /** The bytes of one scalar are all escaped alike: the scalar alone decides. */
  lemma EscapeScalar(rest: seq<byte>)
    requires FirstLen(rest) > 0
    ensures var c, n := FirstScalar(rest), FirstLen(rest);
      && EscapeKey(rest) == EscapeKey(rest[..n]) + EscapeKey(rest[n..])
      && EscapeKey(rest[..n]) == EscapedScalar(c)
  {
    var n := FirstLen(rest);
    assert rest == rest[..n] + rest[n..];
    EscapeConcat(rest[..n], rest[n..]);
    EncodeDecode(rest);
    if n == 1 {
      assert rest[..1] == [rest[0]];
      assert EscapeKey([rest[0]]) == EscapeByte(rest[0]) + EscapeKey([]);
    } else {
      PlainKey(rest[..n]);
    }
  }

  function EscapedScalar(c: Scalar): seq<byte> {
    if c < 0x80 then EscapeByte(c as byte) else EncodeScalar(c)
  }

  method WriteScalar(c: Scalar, out: Buffer)
    modifies out
    ensures out.data == old(out.data) + EscapedScalar(c)
  {
    if c == 0x22 {
      out.Extend([Json.BACKSLASH, Json.QUOTE]);
    } else if c == 0x5C {
      out.Extend([Json.BACKSLASH, Json.BACKSLASH]);
    } else if c < 0x20 {
      out.Extend([Json.BACKSLASH, Json.LOWER_U, 0x30, 0x30, LowerHex(c / 16), LowerHex(c % 16)]);
    } else {
      out.Extend(EncodeScalar(c));
    }
  }

  lemma NothingEscaped()
    ensures EscapeKey([]) == []
  {
  }

  lemma JsonStringIs(s: seq<byte>)
    ensures JsonString(s) == [Json.QUOTE] + EscapeKey(s) + [Json.QUOTE]
  {
  }

  lemma RestValid(s: seq<byte>)
    requires ValidUtf8(s) && s != []
    ensures FirstLen(s) > 0 && ValidUtf8(s[FirstLen(s)..])
  {
  }

  method WriteJsonString(s: seq<byte>, out: Buffer)
    requires ValidUtf8(s)
    modifies out
    ensures out.data == old(out.data) + JsonString(s)
  {
    hide *;
    out.Push(Json.QUOTE);
    var rest := s;
    ghost var base := out.data;
    while rest != []
      invariant ValidUtf8(rest)
      invariant out.data + EscapeKey(rest) == base + EscapeKey(s)
      decreases |rest|
    {
      RestValid(rest);
      var n := FirstLen(rest);
      EscapeScalar(rest);
      ghost var before := out.data;
      WriteScalar(FirstScalar(rest), out);
      Associate(before, EscapeKey(rest[..n]), EscapeKey(rest[n..]));
      rest := rest[n..];
    }
    NothingEscaped();
    assert out.data + [] == out.data;
    out.Push(Json.QUOTE);
    JsonStringIs(s);
    Associate(old(out.data), [Json.QUOTE], EscapeKey(s));
    Associate(old(out.data), [Json.QUOTE] + EscapeKey(s), [Json.QUOTE]);
  }

  // ---- shapes ----

  lemma {:induction false} EncFieldsSnoc(fs: seq<ShapeField>, f: ShapeField)
    ensures EncFields(fs + [f]) == if fs == [] then EncField(f) else EncFields(fs) + [Json.COMMA] + EncField(f)
    decreases |fs|
  {
    hide EncField;
    if fs == [] {
      assert fs + [f] == [f];
    } else {
      EncFieldsSnoc(fs[1..], f);
      assert (fs + [f])[1..] == fs[1..] + [f];
      if |fs| > 1 {
        assert EncField(fs[0]) + [Json.COMMA] + (EncFields(fs[1..]) + [Json.COMMA] + EncField(f))
            == EncField(fs[0]) + [Json.COMMA] + EncFields(fs[1..]) + [Json.COMMA] + EncField(f);
      }
    }
  }

  lemma {:induction false} EncSetSnoc(xs: seq<Shape>, x: Shape)
    ensures EncSet(xs + [x]) == if xs == [] then Enc(x) else EncSet(xs) + [Json.COMMA] + Enc(x)
    decreases |xs|
  {
    hide Enc;
    if xs == [] {
      assert xs + [x] == [x];
    } else {
      EncSetSnoc(xs[1..], x);
      assert (xs + [x])[1..] == xs[1..] + [x];
      if |xs| > 1 {
        assert Enc(xs[0]) + [Json.COMMA] + (EncSet(xs[1..]) + [Json.COMMA] + Enc(x))
            == Enc(xs[0]) + [Json.COMMA] + EncSet(xs[1..]) + [Json.COMMA] + Enc(x);
      }
    }
  }

  lemma EncIs(s: Shape)
    ensures Enc(s) == match s
      case Null => Tagged("null")
      case Bool => Tagged("bool")
      case Number => Tagged("num")
      case String => Tagged("str")
      case Array(elems, e) => ARRAY_HEAD + EmptinessText(e) + ARRAY_MIDDLE + EncSet(elems) + ARRAY_END
      case Object(fields) => OBJECT_HEAD + EncFields(fields) + OBJECT_END
  {
    hide EncSet, EncFields, EmptinessText, Tagged, ARRAY_HEAD, ARRAY_MIDDLE, ARRAY_END, OBJECT_HEAD, OBJECT_END;
  }

  lemma PartsWellFormed(s: Shape)
    requires WellFormed(s)
    ensures s.Array? ==> WellFormedSet(s.elems)
    ensures s.Object? ==> WellFormedFields(s.fields)
  {
    hide SortedSet, SortedFields, ValidUtf8;
  }

  lemma Joined5(o: seq<byte>, a: seq<byte>, b: seq<byte>, c: seq<byte>, d: seq<byte>, e: seq<byte>)
    ensures o + a + b + c + d + e == o + (a + b + c + d + e)
  {
  }

  lemma Joined3(o: seq<byte>, a: seq<byte>, b: seq<byte>, c: seq<byte>)
    ensures o + a + b + c == o + (a + b + c)
  {
  }

  method WriteShape(shape: Shape, out: Buffer)
    requires WellFormed(shape)
    modifies out
    ensures out.data == old(out.data) + Enc(shape)
    decreases shape
  {
    hide Enc, EncSet, EncFields, EmptinessText, Tagged, WellFormed, ARRAY_HEAD, ARRAY_MIDDLE, ARRAY_END, OBJECT_HEAD,
      OBJECT_END;
    EncIs(shape);
    PartsWellFormed(shape);
    match shape
    case Null => out.Extend(Tagged("null"));
    case Bool => out.Extend(Tagged("bool"));
    case Number => out.Extend(Tagged("num"));
    case String => out.Extend(Tagged("str"));
    case Array(set_, emptiness) =>
      out.Extend(ARRAY_HEAD);
      out.Extend(EmptinessText(emptiness));
      out.Extend(ARRAY_MIDDLE);
      WriteShapeSet(set_, out);
      out.Extend(ARRAY_END);
      Joined5(old(out.data), ARRAY_HEAD, EmptinessText(emptiness), ARRAY_MIDDLE, EncSet(set_), ARRAY_END);
    case Object(fields) =>
      out.Extend(OBJECT_HEAD);
      WriteFields(fields, out);
      out.Extend(OBJECT_END);
      Joined3(old(out.data), OBJECT_HEAD, EncFields(fields), OBJECT_END);
  }

  method WriteFields(fields: seq<ShapeField>, out: Buffer)
    requires WellFormedFields(fields)
    modifies out
    ensures out.data == old(out.data) + EncFields(fields)
    decreases fields
  {
    hide *;
    var first := true;
    ghost var base := out.data;
    assert EncFields([]) == [] by { EncNone(); }
    for i := 0 to |fields|
      invariant first <==> i == 0
      invariant out.data == base + EncFields(fields[..i])
    {
      FieldWellFormed(fields, i);
      WriteField(fields[i], first, out);
      FieldTextIs(fields, i);
      Associate(base, EncFields(fields[..i]), FieldText(fields[i], first));
      first := false;
    }
    assert fields[..|fields|] == fields;
  }

  /** One field, after a comma unless it is the first. */
  method WriteField(f: ShapeField, first: bool, out: Buffer)
    requires ValidUtf8(f.key) && WellFormed(f.value)
    modifies out
    ensures out.data == old(out.data) + FieldText(f, first)
    decreases f
  {
    hide JsonString, Enc, ValidUtf8, WellFormed;
    ghost var start := out.data;
    if !first {
      out.Push(Json.COMMA);
    }
    ghost var mid := out.data;
    WriteJsonString(f.key, out);
    out.Push(Json.COLON);
    WriteShape(f.value, out);
    Joined3(mid, JsonString(f.key), [Json.COLON], Enc(f.value));
    Associate(start, if first then [] else [Json.COMMA], EncField(f));
  }

  function FieldText(f: ShapeField, first: bool): seq<byte> {
    (if first then [] else [Json.COMMA]) + EncField(f)
  }

  lemma FieldTextIs(fields: seq<ShapeField>, i: nat)
    requires i < |fields|
    ensures EncFields(fields[..i + 1]) == EncFields(fields[..i]) + FieldText(fields[i], i == 0)
  {
    hide EncField, EncFields;
    EncFieldsSnoc(fields[..i], fields[i]);
    EncNone();
    assert fields[..i + 1] == fields[..i] + [fields[i]];
    if i == 0 {
      assert fields[..i] == [];
    } else {
      Associate(EncFields(fields[..i]), [Json.COMMA], EncField(fields[i]));
    }
  }

  lemma FieldWellFormed(fields: seq<ShapeField>, i: nat)
    requires WellFormedFields(fields) && i < |fields|
    ensures ValidUtf8(fields[i].key) && WellFormed(fields[i].value)
  {
    hide ValidUtf8;
    assert fields[i] in fields;
  }

  lemma EncNone()
    ensures EncFields([]) == [] && EncSet([]) == []
  {
  }

  method WriteShapeSet(set_: seq<Shape>, out: Buffer)
    requires WellFormedSet(set_)
    modifies out
    ensures out.data == old(out.data) + EncSet(set_)
    decreases set_
  {
    hide EncSet, Enc;
    var first := true;
    ghost var base := out.data;
    assert EncSet([]) == [] by { EncNone(); }
    for i := 0 to |set_|
      invariant first <==> i == 0
      invariant out.data == base + EncSet(set_[..i])
    {
      EncSetSnoc(set_[..i], set_[i]);
      assert set_[..i + 1] == set_[..i] + [set_[i]];
      if !first {
        out.Push(Json.COMMA);
      }
      first := false;
      assert set_[i] in set_;
      WriteShape(set_[i], out);
    }
    assert set_[..|set_|] == set_;
  }

  method CanonicalBytes(shape: Shape) returns (bytes: seq<byte>)
    requires WellFormed(shape)
    ensures bytes == Enc(shape)
  {
    var out := new Buffer();
    WriteShape(shape, out);
    bytes := out.data;
    assert [] + Enc(shape) == Enc(shape);
  }
}
