/** The identity of a document: the hash of its shape's canonical text. SHA-256 is taken as a free
    function of its preimage, so distinct preimages have distinct digests. */
module Fingerprint {
  import opened Utf8
  import opened Shapes
  import opened Identity
  import opened Grammar
  import opened Canon
  import opened RoundTrip
  import opened ParseSpec
  import opened Completeness
  import opened Bounds
  import Json

  datatype Digest = Sha256(preimage: seq<byte>)

  const CANONICALIZER := Ascii("deblob-canon-v1")

  function FingerprintOf(s: Shape): Digest {
    Sha256(CANONICALIZER + [0] + Enc(s))
  }

  // ---- limits that hold a given shape ----

  function Need(s: Shape): nat {
    match s
    case Array(elems, _) => 8 + |elems| + NeedSet(elems)
    case Object(fields) => 8 + |fields| + NeedFields(fields)
    case _ => 8
  }

  function NeedSet(elems: seq<Shape>): nat {
    if elems == [] then 0 else Need(elems[0]) + NeedSet(elems[1..])
  }

  function NeedFields(fields: seq<ShapeField>): nat {
    if fields == [] then 0 else |fields[0].key| + Need(fields[0].value) + NeedFields(fields[1..])
  }

  lemma {:induction false} NeedEnough(s: Shape, n: nat)
    requires Need(s) <= n
    ensures Roomy(s, AllLimits(n)) && 2 * ShapeDepth(s) <= Need(s)
    decreases s
  {
    match s
    case Array(elems, _) => NeedSetEnough(elems, n);
    case Object(fields) => NeedFieldsEnough(fields, n);
    case _ =>
  }

  lemma {:induction false} NeedSetEnough(elems: seq<Shape>, n: nat)
    requires NeedSet(elems) <= n
    ensures RoomySet(elems, AllLimits(n)) && 2 * MaxElemDepth(elems) <= NeedSet(elems)
    decreases elems
  {
    if elems != [] {
      NeedEnough(elems[0], n);
      NeedSetEnough(elems[1..], n);
    }
  }

  lemma {:induction false} NeedFieldsEnough(fields: seq<ShapeField>, n: nat)
    requires NeedFields(fields) <= n
    ensures RoomyFields(fields, AllLimits(n)) && 2 * MaxFieldDepth(fields) <= NeedFields(fields)
    decreases fields
  {
    if fields != [] {
      NeedEnough(fields[0].value, n);
      NeedFieldsEnough(fields[1..], n);
    }
  }

  // ---- unique decodability ----

  /** Whatever follows it, the canonical text is read as the document that spells its shape. */
  lemma ReadsPrefix(s: Shape, x: seq<byte>, n: nat)
    requires WellFormed(s) && Need(s) <= n
    ensures ParseValue(Enc(s) + x, 0, 0, AllLimits(n)) == Json.Ok(Spelled(s), |Enc(s)|)
  {
    hide Tree, Enc, Fits, Denote, ValueOk, ValueText, ParseValue, Spelled;
    NeedEnough(s, n);
    assert Need(s) >= 8;
    TreeMeaning(s, 0, AllLimits(n));
    TreeText(s);
    TreeIsObject(s);
    ParseComplete(Enc(s) + x, 0, Tree(s), 0, AllLimits(n));
  }

  lemma TreeIsObject(s: Shape)
    ensures !Tree(s).core.Num?
  {
    hide FieldTrees, ElemTrees, Pieces, Ascii;
  }

  /** The canonical encoding is prefix-free: from a text that starts with an encoding, the shape
      and the rest are determined. */
  lemma PrefixFree(s: Shape, t: Shape, x: seq<byte>, y: seq<byte>)
    requires WellFormed(s) && WellFormed(t) && Enc(s) + x == Enc(t) + y
    ensures s == t && x == y
  {
    hide Enc, ParseValue, Spelled;
    var n := Need(s) + Need(t);
    ReadsPrefix(s, x, n);
    ReadsPrefix(t, y, n);
    SpelledInjective(s, t);
    assert x == (Enc(s) + x)[|Enc(s)|..];
    assert y == (Enc(t) + y)[|Enc(t)|..];
  }

  // ---- identity ----

  /** What Rust's `String` guarantees: every object key is UTF-8. */
  predicate KeysValid(n: Json.Node) {
    match n
    case Array(items, _) => forall x | x in items :: KeysValid(x)
    case Object(fields) => forall f | f in fields :: ValidUtf8(f.key) && KeysValid(f.value)
    case _ => true
  }

  /** With distinct keys every field is found under its key. */
  lemma {:induction false} OwnValue(fields: seq<Json.Field>, f: Json.Field)
    requires Distinct(fields) && f in fields
    ensures f.key in Json.Keys(fields) && Lookup(fields, f.key) == f.value
  {
    var g := Json.Field(f.key, Lookup(fields, f.key));
    assert g in fields;
    var i :| 0 <= i < |fields| && fields[i] == f;
    var j :| 0 <= j < |fields| && fields[j] == g;
  }

  lemma {:induction false} ShapeWellFormed(n: Json.Node)
    requires KeysValid(n)
    ensures WellFormed(ShapeOf(n))
    decreases n
  {
    match n
    case Array(items, _) =>
      Collected(items);
      forall x | x in items ensures WellFormed(ShapeOf(x)) {
        ShapeWellFormed(x);
      }
    case Object(fields) =>
      CollectedFields(fields);
      forall f | f in fields ensures WellFormed(ShapeOf(f.value)) {
        ShapeWellFormed(f.value);
      }
      forall g | g in CollectFields(fields) ensures ValidUtf8(g.key) && WellFormed(g.value) {
        assert Json.Field(g.key, Lookup(fields, g.key)) in fields;
      }
    case _ =>
  }

  /** Two documents have one fingerprint exactly when they are alike. */
  lemma SameFingerprint(a: Json.Node, b: Json.Node)
    requires KeysValid(a) && KeysValid(b)
    ensures FingerprintOf(ShapeOf(a)) == FingerprintOf(ShapeOf(b)) <==> Alike(a, b)
    ensures Enc(ShapeOf(a)) == Enc(ShapeOf(b)) <==> Alike(a, b)
  {
    hide Enc, ShapeOf, Alike, CANONICALIZER;
    SameShape(a, b);
    ShapeWellFormed(a);
    ShapeWellFormed(b);
    var s, t := ShapeOf(a), ShapeOf(b);
    if FingerprintOf(s) == FingerprintOf(t) || Enc(s) == Enc(t) {
      var tag := CANONICALIZER + [0];
      assert (tag + Enc(s))[|tag|..] == Enc(s) && (tag + Enc(t))[|tag|..] == Enc(t);
      PrefixFree(s, t, [], []);
    }
  }

  lemma {:induction false} WithinKeys(n: Json.Node, lim: Json.Limits, depth: nat)
    requires Within(n, lim, depth)
    ensures KeysValid(n)
    ensures ShapeDepth(ShapeOf(n)) <= depth + 1
    decreases n
  {
    match n
    case Array(items, _) =>
      forall x | x in items ensures KeysValid(x) && ShapeDepth(ShapeOf(x)) <= depth {
        WithinKeys(x, lim, depth - 1);
      }
      Collected(items);
      SetDepth(CollectShapes(items), depth);
    case Object(fields) =>
      forall f | f in fields ensures KeysValid(f.value) && ShapeDepth(ShapeOf(f.value)) <= depth {
        WithinKeys(f.value, lim, depth - 1);
      }
      CollectedFields(fields);
      forall g | g in CollectFields(fields) ensures ShapeDepth(g.value) <= depth {
        assert Json.Field(g.key, Lookup(fields, g.key)) in fields;
      }
      FieldsDepth(CollectFields(fields), depth);
    case _ =>
  }

  lemma {:induction false} SetDepth(xs: seq<Shape>, depth: nat)
    requires forall x | x in xs :: ShapeDepth(x) <= depth
    ensures MaxElemDepth(xs) <= depth
    decreases |xs|
  {
    if xs != [] {
      SetDepth(xs[1..], depth);
    }
  }

  lemma {:induction false} FieldsDepth(fs: seq<ShapeField>, depth: nat)
    requires forall f | f in fs :: ShapeDepth(f.value) <= depth
    ensures MaxFieldDepth(fs) <= depth
    decreases |fs|
  {
    if fs != [] {
      FieldsDepth(fs[1..], depth);
    }
  }

  /** For any two accepted inputs, under any limits: one fingerprint exactly when the documents are
      alike, and no shape is deeper than the nesting bound plus one. */
  lemma ParsedIdentity(b1: seq<byte>, lim1: Json.Limits, b2: seq<byte>, lim2: Json.Limits)
    requires ParseBounded(b1, lim1).Success? && ParseBounded(b2, lim2).Success?
    ensures var n1, n2 := ParseBounded(b1, lim1).value, ParseBounded(b2, lim2).value;
      && (FingerprintOf(ShapeOf(n1)) == FingerprintOf(ShapeOf(n2)) <==> Alike(n1, n2))
      && ShapeDepth(ShapeOf(n1)) <= lim1.maxDepth + 1
  {
    hide ParseBounded, FingerprintOf, ShapeOf, Alike, ShapeDepth;
    ParsedBounds(b1, lim1);
    ParsedBounds(b2, lim2);
    WithinKeys(ParseBounded(b1, lim1).value, lim1, lim1.maxDepth);
    WithinKeys(ParseBounded(b2, lim2).value, lim2, lim2.maxDepth);
    SameFingerprint(ParseBounded(b1, lim1).value, ParseBounded(b2, lim2).value);
  }
}
