/** Where a document belongs in the index, read off the document itself. */
module Placement {
  import opened Options
  import opened Utf8
  import opened KeyOrder
  import opened Shapes
  import opened Identity
  import Grammar
  import opened Canon
  import opened Members
  import opened Publication
  import opened ParseSpec
  import opened Fingerprint
  import opened Bounds
  import opened Matcher
  import Json

  /** Nested no deeper than `d`, where a scalar or an empty container counts 1. */
  predicate NestsWithin(n: Json.Node, d: nat) {
    d > 0 &&
    match n
    case Array(items, _) => forall x | x in items :: NestsWithin(x, d - 1)
    case Object(fields) => forall f | f in fields :: NestsWithin(f.value, d - 1)
    case _ => true
  }

  lemma {:induction false} ElemsWithin(xs: seq<Shape>, d: nat)
    ensures MaxElemDepth(xs) <= d <==> forall x | x in xs :: ShapeDepth(x) <= d
    decreases |xs|
  {
    if xs != [] {
      hide ShapeDepth;
      ElemsWithin(xs[1..], d);
      assert xs[0] in xs && forall x :: x in xs <==> x == xs[0] || x in xs[1..];
    }
  }

  lemma {:induction false} FieldsWithin(fs: seq<ShapeField>, d: nat)
    ensures MaxFieldDepth(fs) <= d <==> forall f | f in fs :: ShapeDepth(f.value) <= d
    decreases |fs|
  {
    if fs != [] {
      hide ShapeDepth;
      FieldsWithin(fs[1..], d);
      assert fs[0] in fs && forall f :: f in fs <==> f == fs[0] || f in fs[1..];
    }
  }

  /** The depth of a document's shape is that of the document. */
  lemma {:induction false} DepthOfShape(n: Json.Node, d: nat, lim: Json.Limits, depth: nat)
    requires Within(n, lim, depth)
    ensures ShapeDepth(ShapeOf(n)) <= d <==> NestsWithin(n, d)
    decreases n
  {
    match n
    case Array(items, _) =>
      if d > 0 {
        forall x | x in items ensures ShapeDepth(ShapeOf(x)) <= d - 1 <==> NestsWithin(x, d - 1) {
          DepthOfShape(x, d - 1, lim, depth - 1);
        }
        Collected(items);
        ElemsWithin(CollectShapes(items), d - 1);
        ImagesWithin(items, CollectShapes(items), d - 1);
      }
    case Object(fields) =>
      if d > 0 {
        forall f | f in fields ensures ShapeDepth(ShapeOf(f.value)) <= d - 1 <==> NestsWithin(f.value, d - 1) {
          DepthOfShape(f.value, d - 1, lim, depth - 1);
        }
        CollectedFields(fields);
        FieldsWithin(CollectFields(fields), d - 1);
        ValuesWithin(fields, CollectFields(fields), d - 1);
      }
    case _ =>
  }

  lemma ImagesWithin(items: seq<Json.Node>, xs: seq<Shape>, d: nat)
    requires forall s :: s in xs <==> s in Images(items)
    ensures (forall x | x in xs :: ShapeDepth(x) <= d) <==> forall x | x in items :: ShapeDepth(ShapeOf(x)) <= d
  {
    hide ShapeOf, ShapeDepth;
    forall x | x in items ensures ShapeOf(x) in xs {
      assert ShapeOf(x) in Images(items);
    }
  }

  lemma ValuesWithin(fields: seq<Json.Field>, fs: seq<ShapeField>, d: nat)
    requires Grammar.Distinct(fields)
    requires forall f :: f in fs <==> f.key in Json.Keys(fields) && f.value == ShapeOf(Lookup(fields, f.key))
    ensures (forall f | f in fs :: ShapeDepth(f.value) <= d)
       <==> forall f | f in fields :: ShapeDepth(ShapeOf(f.value)) <= d
  {
    hide ShapeOf, ShapeDepth, Grammar.Distinct;
    forall f | f in fields ensures ShapeField(f.key, ShapeOf(f.value)) in fs {
      OwnValue(fields, f);
    }
    forall g | g in fs ensures Json.Field(g.key, Lookup(fields, g.key)) in fields {
    }
  }

  // ---- the top-level keys ----

  lemma {:induction false} CountListed(keys: seq<seq<byte>>, all: set<seq<byte>>)
    requires SortedKeys(keys) && forall k :: k in keys <==> k in all
    ensures |keys| == |all|
    decreases |keys|
  {
    if keys == [] {
      assert all == {};
    } else {
      var n := |keys| - 1;
      assert keys == keys[..n] + [keys[n]];
      forall i | 0 <= i < n ensures keys[i] != keys[n] {
        CompareKeysFlip(keys[i], keys[n]);
      }
      forall k ensures k in keys[..n] <==> k in all - {keys[n]} {
      }
      CountListed(keys[..n], all - {keys[n]});
    }
  }

  lemma SummaryKeys(n: Json.Node)
    ensures var keys := Summarize(ShapeOf(n)).topKeysSorted;
      && SortedKeys(keys) && Summarize(ShapeOf(n)).topLevelFields == |keys|
      && forall k :: k in keys <==> n.Object? && k in Json.Keys(n.fields)
  {
    if n.Object? {
      CollectedFields(n.fields);
      var fs := CollectFields(n.fields);
      var keys := Summarize(ShapeOf(n)).topKeysSorted;
      forall k ensures k in keys <==> k in Json.Keys(n.fields) {
        if k in Json.Keys(n.fields) {
          var f := ShapeField(k, ShapeOf(Lookup(n.fields, k)));
          assert f in fs;
          var i :| 0 <= i < |fs| && fs[i] == f;
          assert keys[i] == k;
        }
        if k in keys {
          var i :| 0 <= i < |keys| && keys[i] == k;
          assert fs[i] in fs;
        }
      }
    }
  }

  /** The answer names the bucket of these keys at this depth and the hash of the canonical text. */
  ghost predicate LookedUp(r: Classification, codec: Codec, n: Json.Node, d: nat, keys: seq<seq<byte>>) {
    && r.quarantine == None && r.fieldsCount == |keys|
    && r.bucket == Some("deblob:index:" + Decimal(FieldBand(|keys|)) + ":" + Decimal(d) + ":" + codec.keyHash(keys))
    && r.rawFp == Some(Sha256(Ascii("deblob-canon-v1") + [0] + Enc(ShapeOf(n))))
    && forall index, id :: Filed(index, ShapeOf(n), codec, id) <==>
         Posting(r.bucket.value, codec.base32(r.rawFp.value) + "=" + id) in index
  }

  /** An accepted document is looked up under the band of its number of top-level fields, its own
      nesting depth and the hash of its top-level keys in order, whatever the cache holds and the
      registry replies. */
  lemma BucketOfDocument(
      lru: seq<Entry>, capacity: nat, codec: Codec, source: string, payload: seq<byte>, limits: Json.Limits,
        reply: Reply)
    returns (d: nat, keys: seq<seq<byte>>)
    requires capacity > 0 && ParseBounded(payload, limits).Success?
    ensures var n := ParseBounded(payload, limits).value;
      && NestsWithin(n, d) && (forall e: nat | e < d :: !NestsWithin(n, e))
      && SortedKeys(keys) && (forall k :: k in keys <==> n.Object? && k in Json.Keys(n.fields))
      && |keys| == (if n.Object? then |Json.Keys(n.fields)| else 0)
    ensures LookedUp(Classify(lru, capacity, codec, source, payload, limits, reply).1, codec,
                     ParseBounded(payload, limits).value, d, keys)
  {
    hide ParseBounded, ShapeOf, ShapeDepth, NestsWithin, Within, Decide, Decimal, FieldBand, SortedKeys, Enc, Ascii;
    var n := ParseBounded(payload, limits).value;
    ParsedBounds(payload, limits);
    SummaryKeys(n);
    var m := Summarize(ShapeOf(n));
    d, keys := ShapeDepth(ShapeOf(n)), m.topKeysSorted;
    forall e: nat ensures d <= e <==> NestsWithin(n, e) {
      DepthOfShape(n, e, limits, limits.maxDepth);
    }
    CountListed(keys, if n.Object? then Json.Keys(n.fields) else {});
  }

  /** What a message is answered: malformed with the parser's reason if it cannot be parsed; the schema cached
      under the hash of its canonical text, whatever the registry would say; else what the registry found, a
      candidate of this source and hash where it found nothing, and no answer while it is unavailable. */
  lemma AnswerOfDocument(lru: seq<Entry>, capacity: nat, codec: Codec, source: string, payload: seq<byte>,
                         limits: Json.Limits, reply: Reply)
    requires capacity > 0
    ensures var r := Classify(lru, capacity, codec, source, payload, limits, reply).1;
      match ParseBounded(payload, limits)
      case Failure(reason) => r == Classification(Malformed, Some(reason), None, None, 0)
      case Success(n) =>
        var fp := Sha256(Ascii("deblob-canon-v1") + [0] + Enc(ShapeOf(n)));
        if forall e | e in lru :: e.fp != fp then
          match reply
          case Found(None) => r.schemaRef == Provisional(CandidateId(source, fp))
          case Found(Some(id)) => r.schemaRef == Known(id)
          case Unavailable => r.schemaRef == Unresolved
        else r.schemaRef.Known? && Entry(fp, r.schemaRef.id) in lru
  {
    hide ParseBounded, ShapeOf, Enc, Ascii, BucketOf, Summarize, Touched, CachePut;
  }
}
