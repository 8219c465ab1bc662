/** The hot matcher: a cache keyed by fingerprint alone in front of an index keyed by bucket and fingerprint. */
module Matcher {
  import opened Options
  import opened Utf8
  import opened Shapes
  import opened Fingerprint
  import opened Members
  import opened Publication
  import opened StructuralIndex
  import opened VaultRuns
  import opened ParseSpec
  import opened Bounds
  import Canon
  import Json
  import ParserImpl

  /** The text forms of hashes: base32 of a digest, and the eight digits that stand for the top-level keys. */
  datatype Codec = Codec(base32: Digest -> string, keyHash: seq<seq<byte>> -> string)

  datatype CandidateId = CandidateId(source: string, digest: Digest)

  datatype SchemaRef = Known(id: string) | Provisional(candidate: CandidateId) | Unresolved | Malformed | Tombstone

  datatype Classification = Classification(
    schemaRef: SchemaRef, quarantine: Option<Json.Reason>, rawFp: Option<Digest>, bucket: Option<string>,
    fieldsCount: nat)

  /** What `resolve_structural` answers. */
  datatype Reply = Found(id: Option<string>) | Unavailable

  function BucketOf(s: Shape, codec: Codec): string {
    var m := Summarize(s);
    BucketKey(m.topLevelFields, m.depth, codec.keyHash(m.topKeysSorted))
  }

  /** The schemas filed under one bucket and fingerprint; a bucket may hold several. */
  predicate Filed(index: set<Posting>, s: Shape, codec: Codec, id: string) {
    Posting(BucketOf(s, codec), VariantMember(codec.base32(FingerprintOf(s)), id)) in index
  }

  /** The registry either is down or answers from its index at that moment. */
  ghost predicate Answers(index: set<Posting>, s: Shape, codec: Codec, reply: Reply) {
    match reply
    case Unavailable => true
    case Found(None) => forall id :: !Filed(index, s, codec, id)
    case Found(Some(id)) => Filed(index, s, codec, id)
  }

  // ---- the cache ----

  datatype Entry = Entry(fp: Digest, id: string)

  /** Most recently used first. */
  function CacheGet(lru: seq<Entry>, fp: Digest): (r: Option<string>)
    ensures r.Some? <==> exists i :: 0 <= i < |lru| && lru[i].fp == fp
    ensures r.Some? ==> Entry(fp, r.value) in lru
  {
    if lru == [] then None
    else if lru[0].fp == fp then
      assert lru[0] == Entry(fp, lru[0].id);
      Some(lru[0].id)
    else
      var r := CacheGet(lru[1..], fp);
      assert forall i | 0 <= i < |lru| - 1 :: lru[1..][i] == lru[i + 1];
      assert r.None? ==> forall i | 0 < i < |lru| :: lru[i] == lru[1..][i - 1];
      r
  }

  function Without(lru: seq<Entry>, fp: Digest): (r: seq<Entry>)
    ensures forall e :: e in r <==> e in lru && e.fp != fp
    ensures |r| <= |lru|
  {
    if lru == [] then [] else (if lru[0].fp == fp then [] else [lru[0]]) + Without(lru[1..], fp)
  }

  /** A hit becomes the most recent entry. */
  function Touched(lru: seq<Entry>, fp: Digest): seq<Entry> {
    match CacheGet(lru, fp) case None => lru case Some(id) => [Entry(fp, id)] + Without(lru, fp)
  }

  /** A new entry evicts the least recent ones beyond the capacity. */
  function CachePut(lru: seq<Entry>, capacity: nat, fp: Digest, id: string): (r: seq<Entry>)
    requires capacity > 0
    ensures 0 < |r| <= capacity && r[0] == Entry(fp, id)
    ensures forall e | e in r :: e == Entry(fp, id) || e in lru
  {
    var all := [Entry(fp, id)] + Without(lru, fp);
    if |all| <= capacity then all else all[..capacity]
  }

  // ---- classifying ----

  function Classify(lru: seq<Entry>, capacity: nat, codec: Codec, source: string, payload: seq<byte>,
                    limits: Json.Limits, reply: Reply):
      (seq<Entry>, Classification)
    requires capacity > 0
  {
    match ParseBounded(payload, limits)
    case Failure(reason) => (lru, Classification(Malformed, Some(reason), None, None, 0))
    case Success(node) =>
      var s := ShapeOf(node);
      var fp := FingerprintOf(s);
      var (cache, schemaRef) := Decide(lru, capacity, source, fp, reply);
      (cache, Classification(schemaRef, None, Some(fp), Some(BucketOf(s, codec)), Summarize(s).topLevelFields))
  }

  function Decide(lru: seq<Entry>, capacity: nat, source: string, fp: Digest, reply: Reply): (seq<Entry>, SchemaRef)
    requires capacity > 0
  {
    match CacheGet(lru, fp)
    case Some(id) => (Touched(lru, fp), Known(id))
    case None =>
      match reply
      case Found(Some(id)) => (CachePut(lru, capacity, fp, id), Known(id))
      case Found(None) => (lru, Provisional(CandidateId(source, fp)))
      case Unavailable => (lru, Unresolved)
  }

  class HotMatcher {
    const capacity: nat
    const codec: Codec
    var lru: seq<Entry>

    constructor (lruCapacity: nat, codec: Codec)
      ensures capacity == (if lruCapacity == 0 then 1 else lruCapacity) && this.codec == codec && lru == []
    {
      capacity := if lruCapacity == 0 then 1 else lruCapacity;
      this.codec := codec;
      lru := [];
    }

    /** `reply` is what the registry answers if it is asked. */
    method ClassifyMessage(source: string, payload: seq<byte>, limits: Json.Limits, reply: Reply)
        returns (r: Classification)
      requires capacity > 0
      modifies `lru
      ensures (lru, r) == Classify(old(lru), capacity, codec, source, payload, limits, reply)
    {
      hide ParseBounded, ShapeOf, FingerprintOf, BucketOf;
      var parsed := ParserImpl.ParseBounded(payload, limits);
      if parsed.Failure? {
        return Classification(Malformed, Some(parsed.reason), None, None, 0);
      }
      var shape := ShapeOf(parsed.value);
      var rawFp := FingerprintOf(shape);
      var summary := Summarize(shape);
      var bucket := BucketOf(shape, codec);
      var hit := CacheGet(lru, rawFp);
      if hit.Some? {
        lru := Touched(lru, rawFp);
        return Classification(Known(hit.value), None, Some(rawFp), Some(bucket), summary.topLevelFields);
      }
      var schemaRef;
      match reply {
        case Found(Some(id)) =>
          lru := CachePut(lru, capacity, rawFp, id);
          schemaRef := Known(id);
        case Found(None) =>
          schemaRef := Provisional(CandidateId(source, rawFp));
        case Unavailable =>
          schemaRef := Unresolved;
      }
      return Classification(schemaRef, None, Some(rawFp), Some(bucket), summary.topLevelFields);
    }
  }

  // ---- any interleaving with publishes, rebuilds and outages ----

  datatype World = World(lru: seq<Entry>, registry: Registry)

  datatype Event =
    | Message(source: string, payload: seq<byte>, limits: Json.Limits, reply: Reply)
    | Publishing(q: PublishRequest)
    | Rebuilding

  function Next(w: World, capacity: nat, codec: Codec, e: Event): World
    requires capacity > 0
  {
    match e
    case Message(source, payload, limits, reply) =>
      w.(lru := Classify(w.lru, capacity, codec, source, payload, limits, reply).0)
    case Publishing(q) => w.(registry := Publish(w.registry, q).0)
    case Rebuilding => w.(registry := Rebuild(w.registry))
  }

  function Run(start: Registry, capacity: nat, codec: Codec, events: seq<Event>): World
    requires capacity > 0
  {
    if events == [] then World([], start)
    else Next(Run(start, capacity, codec, events[..|events| - 1]), capacity, codec, events[|events| - 1])
  }

  /** If the registry is asked about this document, it answers from its index. */
  ghost predicate HonestReply(index: set<Posting>, codec: Codec, payload: seq<byte>, limits: Json.Limits,
                              reply: Reply) {
    var parsed := ParseBounded(payload, limits);
    parsed.Success? ==> Answers(index, ShapeOf(parsed.value), codec, reply)
  }

  ghost predicate Honest(w: World, codec: Codec, e: Event) {
    e.Message? ==> HonestReply(w.registry.index, codec, e.payload, e.limits, e.reply)
  }

  ghost predicate HonestRun(start: Registry, capacity: nat, codec: Codec, events: seq<Event>)
    requires capacity > 0
  {
    forall i | 0 <= i < |events| :: Honest(Run(start, capacity, codec, events[..i]), codec, events[i])
  }

  /** The postings the index has held at some moment of the run. */
  function EverIndexed(start: Registry, capacity: nat, codec: Codec, events: seq<Event>): set<Posting>
    requires capacity > 0
  {
    set i, p | 0 <= i <= |events| && p in Run(start, capacity, codec, events[..i]).registry.index :: p
  }

  lemma EverSnoc(start: Registry, capacity: nat, codec: Codec, events: seq<Event>)
    requires capacity > 0 && events != []
    ensures EverIndexed(start, capacity, codec, events)
         == EverIndexed(start, capacity, codec, events[..|events| - 1])
           + Run(start, capacity, codec, events).registry.index
  {
    hide Run;
    var n := |events| - 1;
    var before := events[..n];
    assert events[..n + 1] == events;
    assert forall i | 0 <= i <= n :: before[..i] == events[..i];
  }

  /** Each cached answer was filed under the bucket of a shape with that fingerprint. */
  ghost predicate Sound(known: set<Posting>, codec: Codec, e: Entry) {
    exists s :: WellFormed(s) && FingerprintOf(s) == e.fp && Filed(known, s, codec, e.id)
  }

  ghost predicate CacheInv(lru: seq<Entry>, capacity: nat, codec: Codec, known: set<Posting>) {
    |lru| <= capacity && forall e | e in lru :: Sound(known, codec, e)
  }

  lemma ParsedWellFormed(payload: seq<byte>, limits: Json.Limits)
    requires ParseBounded(payload, limits).Success?
    ensures WellFormed(ShapeOf(ParseBounded(payload, limits).value))
  {
    hide ParseBounded, ShapeOf;
    ParsedBounds(payload, limits);
    WithinKeys(ParseBounded(payload, limits).value, limits, limits.maxDepth);
    ShapeWellFormed(ParseBounded(payload, limits).value);
  }

  /** A fingerprint determines the shape, so it determines the bucket too. */
  lemma FingerprintInjective(s: Shape, t: Shape)
    requires WellFormed(s) && WellFormed(t) && FingerprintOf(s) == FingerprintOf(t)
    ensures s == t
  {
    hide Canon.Enc, CANONICALIZER;
    var tag := CANONICALIZER + [0];
    assert (tag + Canon.Enc(s))[|tag|..] == Canon.Enc(s) && (tag + Canon.Enc(t))[|tag|..] == Canon.Enc(t);
    PrefixFree(s, t, [], []);
  }

  lemma SoundGrows(known: set<Posting>, more: set<Posting>, codec: Codec, e: Entry)
    requires Sound(known, codec, e) && known <= more
    ensures Sound(more, codec, e)
  {
    hide WellFormed, FingerprintOf, BucketOf;
    var s :| WellFormed(s) && FingerprintOf(s) == e.fp && Filed(known, s, codec, e.id);
    assert Filed(more, s, codec, e.id);
  }

  lemma CacheInvGrows(lru: seq<Entry>, capacity: nat, codec: Codec, known: set<Posting>, more: set<Posting>)
    requires CacheInv(lru, capacity, codec, known) && known <= more
    ensures CacheInv(lru, capacity, codec, more)
  {
    hide Sound;
    forall e | e in lru ensures Sound(more, codec, e) {
      SoundGrows(known, more, codec, e);
    }
  }

  lemma DecideKeepsCache(lru: seq<Entry>, capacity: nat, codec: Codec, known: set<Posting>, source: string, s: Shape,
                         reply: Reply)
    requires capacity > 0 && CacheInv(lru, capacity, codec, known) && WellFormed(s)
    requires reply.Found? && reply.id.Some? ==> Filed(known, s, codec, reply.id.value)
    ensures CacheInv(Decide(lru, capacity, source, FingerprintOf(s), reply).0, capacity, codec, known)
  {
    hide FingerprintOf, BucketOf, WellFormed, Filed;
    var fp := FingerprintOf(s);
    match CacheGet(lru, fp)
    case Some(id) =>
      WithoutShorter(lru, fp);
      assert Entry(fp, id) in lru;
    case None =>
      if reply.Found? && reply.id.Some? {
        assert Sound(known, codec, Entry(fp, reply.id.value));
      }
  }

  lemma {:induction false} WithoutShorter(lru: seq<Entry>, fp: Digest)
    requires CacheGet(lru, fp).Some?
    ensures |Without(lru, fp)| < |lru|
    decreases |lru|
  {
    if lru[0].fp != fp {
      WithoutShorter(lru[1..], fp);
    }
  }

  /** One message, whatever the index held before this moment. */
  lemma ClassifyKeepsCache(lru: seq<Entry>, capacity: nat, codec: Codec, known: set<Posting>, now: set<Posting>,
                           source: string, payload: seq<byte>, limits: Json.Limits, reply: Reply)
    requires capacity > 0 && CacheInv(lru, capacity, codec, known) && now <= known
    requires HonestReply(now, codec, payload, limits, reply)
    ensures CacheInv(Classify(lru, capacity, codec, source, payload, limits, reply).0, capacity, codec, known)
  {
    hide ParseBounded, ShapeOf, FingerprintOf, BucketOf, WellFormed, CacheInv, Summarize, Decide;
    if ParseBounded(payload, limits).Success? {
      ParsedWellFormed(payload, limits);
      DecideKeepsCache(lru, capacity, codec, known, source, ShapeOf(ParseBounded(payload, limits).value), reply);
    }
  }

  /** The cache stays within its capacity, and every entry was filed at some moment of the run. */
  lemma {:induction false} CacheAlwaysSound(start: Registry, capacity: nat, codec: Codec, events: seq<Event>)
    requires capacity > 0 && HonestRun(start, capacity, codec, events)
    ensures CacheInv(Run(start, capacity, codec, events).lru, capacity, codec,
      EverIndexed(start, capacity, codec, events))
    decreases |events|
  {
    if events != [] {
      hide CacheInv, HonestReply, Classify, EverIndexed, Publish, Rebuild;
      var n := |events| - 1;
      forall i | 0 <= i < n ensures Honest(Run(start, capacity, codec, events[..n][..i]), codec, events[..n][i]) {
        assert events[..n][..i] == events[..i];
      }
      CacheAlwaysSound(start, capacity, codec, events[..n]);
      EverSnoc(start, capacity, codec, events);
      var w, e := Run(start, capacity, codec, events[..n]), events[n];
      NowIsEver(start, capacity, codec, events[..n]);
      var known := EverIndexed(start, capacity, codec, events[..n]);
      if e.Message? {
        ClassifyKeepsCache(w.lru, capacity, codec, known, w.registry.index, e.source, e.payload, e.limits, e.reply);
      }
      CacheInvGrows(Run(start, capacity, codec, events).lru, capacity, codec, known,
        EverIndexed(start, capacity, codec, events));
    }
  }

  lemma NowIsEver(start: Registry, capacity: nat, codec: Codec, events: seq<Event>)
    requires capacity > 0
    ensures Run(start, capacity, codec, events).registry.index <= EverIndexed(start, capacity, codec, events)
  {
    hide Run;
    assert events[..|events|] == events;
  }

  /** The answers the decision table allows for one document, given what is known to have been filed,
      the index and whether the registry is up. */
  ghost predicate Allowed(known: set<Posting>, index: set<Posting>, codec: Codec, source: string, payload: seq<byte>,
                          limits: Json.Limits, up: bool, r: Classification) {
    match ParseBounded(payload, limits)
    case Failure(reason) => r == Classification(Malformed, Some(reason), None, None, 0)
    case Success(node) =>
      var s := ShapeOf(node);
      && r.quarantine == None && r.rawFp == Some(FingerprintOf(s)) && r.bucket == Some(BucketOf(s, codec))
      && r.fieldsCount == Summarize(s).topLevelFields
      && match r.schemaRef
         case Known(id) => Filed(known, s, codec, id)
         case Provisional(c) =>
           up && c == CandidateId(source, FingerprintOf(s)) && forall id :: !Filed(index, s, codec, id)
         case Unresolved => !up
         case _ => false
  }

  lemma HitIsFiled(lru: seq<Entry>, capacity: nat, codec: Codec, known: set<Posting>, s: Shape)
    requires CacheInv(lru, capacity, codec, known) && WellFormed(s)
    ensures var hit := CacheGet(lru, FingerprintOf(s)); hit.Some? ==> Filed(known, s, codec, hit.value)
  {
    hide FingerprintOf, BucketOf, WellFormed, Filed;
    var hit := CacheGet(lru, FingerprintOf(s));
    if hit.Some? {
      var e := Entry(FingerprintOf(s), hit.value);
      assert Sound(known, codec, e);
      var t :| WellFormed(t) && FingerprintOf(t) == e.fp && Filed(known, t, codec, e.id);
      FingerprintInjective(s, t);
    }
  }

  /** An answer from a sound cache or an honest reply is allowed. */
  lemma AnswerAllowed(lru: seq<Entry>, capacity: nat, codec: Codec, known: set<Posting>, now: set<Posting>,
                      source: string, payload: seq<byte>, limits: Json.Limits, reply: Reply)
    requires capacity > 0 && CacheInv(lru, capacity, codec, known) && now <= known
    requires HonestReply(now, codec, payload, limits, reply)
    ensures Allowed(known, now, codec, source, payload, limits, reply.Found?,
                    Classify(lru, capacity, codec, source, payload, limits, reply).1)
  {
    hide ParseBounded, ShapeOf, FingerprintOf, BucketOf, WellFormed, Summarize, CacheInv;
    if ParseBounded(payload, limits).Success? {
      ParsedWellFormed(payload, limits);
      HitIsFiled(lru, capacity, codec, known, ShapeOf(ParseBounded(payload, limits).value));
    }
  }

  /** Over any interleaving of messages, publishes, rebuilds and outages, and for every capacity: an
      answer that names a schema names one that was filed, at some moment of the run, under the
      document's own bucket and fingerprint, although the cache never looks at the bucket. */
  lemma AnswersWereFiled(start: Registry, capacity: nat, codec: Codec, events: seq<Event>, e: Event)
    requires capacity > 0 && HonestRun(start, capacity, codec, events) && e.Message?
    requires Honest(Run(start, capacity, codec, events), codec, e)
    ensures var w := Run(start, capacity, codec, events);
      var r := Classify(w.lru, capacity, codec, e.source, e.payload, e.limits, e.reply).1;
      Allowed(EverIndexed(start, capacity, codec, events), w.registry.index, codec, e.source, e.payload, e.limits,
        e.reply.Found?, r)
  {
    hide Run, HonestRun, Classify, Allowed, CacheInv, HonestReply, EverIndexed;
    CacheAlwaysSound(start, capacity, codec, events);
    NowIsEver(start, capacity, codec, events);
    var w := Run(start, capacity, codec, events);
    AnswerAllowed(w.lru, capacity, codec, EverIndexed(start, capacity, codec, events), w.registry.index, e.source,
      e.payload, e.limits, e.reply);
  }

  // ---- while no rebuild loses a posting ----

  /** Every rebuild of the run gives back all the index held. */
  ghost predicate LosesNothing(start: Registry, capacity: nat, codec: Codec, events: seq<Event>)
    requires capacity > 0
  {
    forall i | 0 <= i < |events| && events[i].Rebuilding? ::
      var s := Run(start, capacity, codec, events[..i]).registry; s.index <= Rebuild(s).index
  }

  lemma IndexGrows(s: Registry, q: PublishRequest)
    ensures s.index <= Publish(s, q).0.index
  {
    hide Added, HashAfter, FamilyAfter, VersionFor;
  }

  lemma {:induction false} IndexOnlyGrows(start: Registry, capacity: nat, codec: Codec, events: seq<Event>, i: nat)
    requires capacity > 0 && i <= |events| && LosesNothing(start, capacity, codec, events)
    ensures Run(start, capacity, codec, events[..i]).registry.index
      <= Run(start, capacity, codec, events).registry.index
    decreases |events| - i
  {
    hide Classify, Publish, Rebuild;
    if i == |events| {
      assert events[..i] == events;
    } else {
      var e := events[i];
      assert events[..i + 1][..i] == events[..i];
      if e.Publishing? {
        IndexGrows(Run(start, capacity, codec, events[..i]).registry, e.q);
      }
      IndexOnlyGrows(start, capacity, codec, events, i + 1);
    }
  }

  /** Then each answer is one the index itself allows at that moment. */
  lemma CachedRefinesIndex(start: Registry, capacity: nat, codec: Codec, events: seq<Event>, e: Event)
    requires capacity > 0 && HonestRun(start, capacity, codec, events) && LosesNothing(start, capacity, codec, events)
    requires e.Message? && Honest(Run(start, capacity, codec, events), codec, e)
    ensures var w := Run(start, capacity, codec, events);
      var r := Classify(w.lru, capacity, codec, e.source, e.payload, e.limits, e.reply).1;
      Allowed(w.registry.index, w.registry.index, codec, e.source, e.payload, e.limits, e.reply.Found?, r)
  {
    hide HonestRun, Classify, Allowed, HonestReply, Run, LosesNothing;
    AnswersWereFiled(start, capacity, codec, events, e);
    forall i | 0 <= i <= |events|
      ensures Run(start, capacity, codec, events[..i]).registry.index
        <= Run(start, capacity, codec, events).registry.index
    {
      IndexOnlyGrows(start, capacity, codec, events, i);
    }
    NowIsEver(start, capacity, codec, events);
    assert EverIndexed(start, capacity, codec, events) == Run(start, capacity, codec, events).registry.index;
  }

  /** Callers that keep the buckets and name all variants recorded before. */
  ghost predicate FullestRun(start: Registry, capacity: nat, codec: Codec, events: seq<Event>)
    requires capacity > 0
  {
    forall i | 0 <= i < |events| && events[i].Publishing? ::
      WellMade(events[i].q) && GrantedFullest(Run(start, capacity, codec, events[..i]).registry, events[i].q)
  }

  lemma FullestStep(w: World, capacity: nat, codec: Codec, e: Event)
    requires capacity > 0 && Inv(w.registry) && Exact(w.registry)
    requires e.Publishing? ==> WellMade(e.q) && GrantedFullest(w.registry, e.q)
    ensures var s := Next(w, capacity, codec, e).registry; Inv(s) && Exact(s)
  {
    hide WellMade, GrantedFullest, Publish, Rebuild, Inv, Classify;
    if e.Publishing? {
      PublishKeepsInv(w.registry, e.q);
      ExactStep(w.registry, e.q);
    }
  }

  lemma {:induction false} FullestKeeps(start: Registry, capacity: nat, codec: Codec, events: seq<Event>, i: nat)
    requires capacity > 0 && Inv(start) && Exact(start) && FullestRun(start, capacity, codec, events) && i <= |events|
    ensures var s := Run(start, capacity, codec, events[..i]).registry; Inv(s) && Exact(s)
    decreases i
  {
    hide WellMade, GrantedFullest, Next, Rebuild, Inv;
    if i > 0 {
      FullestKeeps(start, capacity, codec, events, i - 1);
      assert events[..i][..i - 1] == events[..i - 1];
      FullestStep(Run(start, capacity, codec, events[..i - 1]), capacity, codec, events[i - 1]);
    }
  }

  /** From an index its records account for, fullest publishes are all it takes: rebuilds at any time
      then lose nothing, in fact change nothing. */
  lemma FullestLosesNothing(start: Registry, capacity: nat, codec: Codec, events: seq<Event>)
    requires capacity > 0 && Inv(start) && Exact(start) && FullestRun(start, capacity, codec, events)
    ensures LosesNothing(start, capacity, codec, events)
    ensures Exact(Run(start, capacity, codec, events).registry)
  {
    hide FullestRun, Run, Rebuild, Inv;
    forall i | 0 <= i < |events|
      ensures var s := Run(start, capacity, codec, events[..i]).registry; s.index <= Rebuild(s).index
    {
      FullestKeeps(start, capacity, codec, events, i);
    }
    assert events[..|events|] == events;
    FullestKeeps(start, capacity, codec, events, |events|);
  }

  /** Otherwise the cache outlives the index. A schema is published with a document's shape as its only
      variant and the document is classified; the schema is published again without variants and the
      index rebuilt: the document is still answered Known, though nothing files it any more. */
  lemma RebuildForgets(capacity: nat, codec: Codec, id: string, bucket: string, source: string, payload: seq<byte>,
                       limits: Json.Limits)
      returns (events: seq<Event>)
    requires capacity > 0 && ParseBounded(payload, limits).Success? && IsSchemaId(id) && IsBucketKey(bucket)
    requires var s := ShapeOf(ParseBounded(payload, limits).value);
      IsBucketKey(BucketOf(s, codec)) && '=' !in codec.base32(FingerprintOf(s)) && bucket != BucketOf(s, codec)
    ensures HonestRun(EMPTY_REGISTRY, capacity, codec, events)
    ensures forall e | e in events && e.Publishing? :: WellMade(e.q)
    ensures var w := Run(EMPTY_REGISTRY, capacity, codec, events);
      var s := ShapeOf(ParseBounded(payload, limits).value);
      && (forall reply :: Classify(w.lru, capacity, codec, source, payload, limits, reply).1.schemaRef == Known(id))
      && !Filed(w.registry.index, s, codec, id)
  {
    hide ParseBounded, ShapeOf, FingerprintOf, BucketOf, IsSchemaId, IsBucketKey, InIndex, Publish, Rebuild, Summarize,
      VariantMember;
    var s := ShapeOf(ParseBounded(payload, limits).value);
    KeyInIndex(BucketOf(s, codec));
    var fp := FingerprintOf(s);
    var v := Variant(BucketOf(s, codec), codec.base32(fp));
    var first, second := SomePublish(id, bucket, [v]), SomePublish(id, bucket, []);
    var message := Message(source, payload, limits, Found(Some(id)));
    events := [Publishing(first), message, Publishing(second), Rebuilding];
    assert events[..0] == [] && events[..1][..0] == [] && events[..2][..1] == events[..1]
      && events[..3][..2] == events[..2] && events[..4] == events;
    var r1 := Publish(EMPTY_REGISTRY, first).0;
    var w1, w2 := World([], r1), World([Entry(fp, id)], r1);
    assert Run(EMPTY_REGISTRY, capacity, codec, events[..0]) == World([], EMPTY_REGISTRY);
    assert Run(EMPTY_REGISTRY, capacity, codec, events[..1]) == w1;
    ForgetsFirst(id, bucket, v);
    assert Filed(r1.index, s, codec, id);
    assert Without([], fp) == [];
    assert Run(EMPTY_REGISTRY, capacity, codec, events[..2]) == w2;
    assert Run(EMPTY_REGISTRY, capacity, codec, events[..3]) == World(w2.lru, Publish(r1, second).0);
    assert Run(EMPTY_REGISTRY, capacity, codec, events) == World(w2.lru, Rebuild(Publish(r1, second).0));
    assert CacheGet(w2.lru, fp) == Some(id);
    TwoPublishes(id, bucket, v);
  }

  lemma KeyInIndex(key: string)
    requires IsBucketKey(key)
    ensures InIndex(key)
  {
  }

  lemma ForgetsFirst(id: string, bucket: string, v: Variant)
    ensures Posting(v.bucket, VariantMember(v.fp, id)) in Publish(EMPTY_REGISTRY, SomePublish(id, bucket, [v])).0.index
  {
    hide VariantMember, HashAfter, FamilyAfter, VersionFor;
    assert v in [v];
  }

  // ---- what a rebuild takes away, exactly ----

  ghost predicate NoEquals(codec: Codec) {
    forall d :: '=' !in codec.base32(d)
  }

  /** The entry's fingerprint is filed by its own schema's current record. */
  ghost predicate KeptByRecord(r: Registry, codec: Codec, e: Entry) {
    e.id in r.schemas
    && exists s :: WellFormed(s) && FingerprintOf(s) == e.fp && Filed(PostingsOf(e.id, r.schemas[e.id]), s, codec, e.id)
  }

  ghost predicate AllKept(lru: seq<Entry>, r: Registry, codec: Codec) {
    forall e | e in lru :: KeptByRecord(r, codec, e)
  }

  lemma OwnerOfFiled(s: Shape, codec: Codec, id: string)
    requires NoEquals(codec)
    ensures Owner(Posting(BucketOf(s, codec), VariantMember(codec.base32(FingerprintOf(s)), id))) == Some(id)
  {
    hide FingerprintOf, BucketOf;
    SplitJoined(codec.base32(FingerprintOf(s)), id);
  }

  /** What the rebuilt index files under a schema is what that schema's own record files. */
  lemma RebuiltFiles(r: Registry, s: Shape, codec: Codec, id: string)
    requires Inv(r) && NoEquals(codec)
    ensures Filed(Rebuild(r).index, s, codec, id) <==>
      id in r.schemas && Filed(PostingsOf(id, r.schemas[id]), s, codec, id)
  {
    hide FingerprintOf, BucketOf, NoEquals, Owner, PostingsOf, Inv, Rebuild, VariantMember;
    OwnerOfFiled(s, codec, id);
    NothingForeign(r);
    OwnersOwn(r);
  }

  lemma EntryKept(r: Registry, codec: Codec, e: Entry)
    requires Inv(r) && NoEquals(codec)
    ensures Sound(Rebuild(r).index, codec, e) <==> KeptByRecord(r, codec, e)
  {
    hide FingerprintOf, Filed, WellFormed, NoEquals, PostingsOf, Inv, Rebuild;
    forall s ensures Filed(Rebuild(r).index, s, codec, e.id)
                <==> e.id in r.schemas && Filed(PostingsOf(e.id, r.schemas[e.id]), s, codec, e.id) {
      RebuiltFiles(r, s, codec, e.id);
    }
  }

  /** A rebuild leaves the cache sound exactly when every entry is one its schema's own record files. */
  lemma RebuildKeepsCache(r: Registry, lru: seq<Entry>, capacity: nat, codec: Codec)
    requires Inv(r) && NoEquals(codec) && |lru| <= capacity
    ensures CacheInv(lru, capacity, codec, Rebuild(r).index) <==> AllKept(lru, r, codec)
  {
    hide Sound, KeptByRecord, NoEquals, Inv, Rebuild;
    forall e | e in lru ensures Sound(Rebuild(r).index, codec, e) <==> KeptByRecord(r, codec, e) {
      EntryKept(r, codec, e);
    }
  }

  /** The answer to any document at this moment, honest reply or none, is one the index allows. */
  ghost predicate AnswersHold(lru: seq<Entry>, capacity: nat, codec: Codec, index: set<Posting>)
    requires capacity > 0
  {
    forall source, payload, limits, reply | HonestReply(index, codec, payload, limits, reply) ::
      Allowed(index, index, codec, source, payload, limits, reply.Found?,
              Classify(lru, capacity, codec, source, payload, limits, reply).1)
  }

  /** Some document put the entry there. */
  ghost predicate HasDocument(e: Entry) {
    exists payload, limits ::
      ParseBounded(payload, limits).Success? && FingerprintOf(ShapeOf(ParseBounded(payload, limits).value)) == e.fp
  }

  /** What holds of the cache whatever the registry replies. */
  ghost predicate CacheOk(lru: seq<Entry>, capacity: nat) {
    && |lru| <= capacity
    && Distinct(lru)
    && (forall e | e in lru :: HasDocument(e))
  }

  ghost predicate Distinct(lru: seq<Entry>) {
    forall i, j | 0 <= i < j < |lru| :: lru[i].fp != lru[j].fp
  }

  lemma {:induction false} WithoutDistinct(lru: seq<Entry>, fp: Digest)
    requires Distinct(lru)
    ensures Distinct(Without(lru, fp))
    decreases |lru|
  {
    if lru != [] {
      WithoutDistinct(lru[1..], fp);
      DistinctCons(lru[0], Without(lru[1..], fp), lru[1..]);
    }
  }

  lemma DistinctCons(e: Entry, rest: seq<Entry>, tail: seq<Entry>)
    requires Distinct(rest) && Distinct([e] + tail) && forall x | x in rest :: x in tail
    ensures Distinct([e] + rest)
  {
    forall i | 0 <= i < |rest| ensures rest[i].fp != e.fp {
      assert rest[i] in tail;
      var k :| 0 <= k < |tail| && tail[k] == rest[i];
      assert ([e] + tail)[0] == e && ([e] + tail)[k + 1] == rest[i];
    }
  }

  /** An entry put in front of the others, in place of the one with its fingerprint. */
  lemma FrontOk(lru: seq<Entry>, capacity: nat, e: Entry)
    requires CacheOk(lru, capacity) && HasDocument(e)
    ensures var all := [e] + Without(lru, e.fp); Distinct(all) && forall x | x in all :: HasDocument(x)
  {
    hide HasDocument;
    var rest := Without(lru, e.fp);
    WithoutDistinct(lru, e.fp);
    forall i | 0 <= i < |rest| ensures rest[i].fp != e.fp {
      assert rest[i] in rest;
    }
  }

  lemma TouchedOk(lru: seq<Entry>, capacity: nat, fp: Digest)
    requires CacheOk(lru, capacity) && forall id :: HasDocument(Entry(fp, id))
    ensures CacheOk(Touched(lru, fp), capacity)
  {
    hide HasDocument, Distinct;
    var hit := CacheGet(lru, fp);
    if hit.Some? {
      WithoutShorter(lru, fp);
      FrontOk(lru, capacity, Entry(fp, hit.value));
    }
  }

  lemma PutOk(lru: seq<Entry>, capacity: nat, fp: Digest, id: string)
    requires capacity > 0 && CacheOk(lru, capacity) && HasDocument(Entry(fp, id))
    ensures CacheOk(CachePut(lru, capacity, fp, id), capacity)
  {
    hide HasDocument;
    FrontOk(lru, capacity, Entry(fp, id));
  }

  lemma DecideKeepsOk(lru: seq<Entry>, capacity: nat, source: string, fp: Digest, reply: Reply)
    requires capacity > 0 && CacheOk(lru, capacity) && forall id :: HasDocument(Entry(fp, id))
    ensures CacheOk(Decide(lru, capacity, source, fp, reply).0, capacity)
  {
    hide HasDocument, CacheOk, Touched, CachePut;
    TouchedOk(lru, capacity, fp);
    if reply.Found? && reply.id.Some? {
      PutOk(lru, capacity, fp, reply.id.value);
    }
  }

  lemma ClassifyKeepsOk(lru: seq<Entry>, capacity: nat, codec: Codec, source: string, payload: seq<byte>,
                        limits: Json.Limits, reply: Reply)
    requires capacity > 0 && CacheOk(lru, capacity)
    ensures CacheOk(Classify(lru, capacity, codec, source, payload, limits, reply).0, capacity)
  {
    hide ParseBounded, ShapeOf, FingerprintOf, BucketOf, CacheOk, Summarize, Decide;
    if ParseBounded(payload, limits).Success? {
      var fp := FingerprintOf(ShapeOf(ParseBounded(payload, limits).value));
      forall id ensures HasDocument(Entry(fp, id)) {
      }
      DecideKeepsOk(lru, capacity, source, fp, reply);
    }
  }

  lemma {:induction false} CacheAlwaysOk(start: Registry, capacity: nat, codec: Codec, events: seq<Event>)
    requires capacity > 0
    ensures CacheOk(Run(start, capacity, codec, events).lru, capacity)
    decreases |events|
  {
    if events != [] {
      hide CacheOk, Classify, Publish, Rebuild;
      var n := |events| - 1;
      CacheAlwaysOk(start, capacity, codec, events[..n]);
      var w, e := Run(start, capacity, codec, events[..n]), events[n];
      if e.Message? {
        ClassifyKeepsOk(w.lru, capacity, codec, e.source, e.payload, e.limits, e.reply);
      }
    }
  }

  lemma {:induction false} GetsOwn(lru: seq<Entry>, e: Entry)
    requires e in lru && Distinct(lru)
    ensures CacheGet(lru, e.fp) == Some(e.id)
    decreases |lru|
  {
    var k :| 0 <= k < |lru| && lru[k] == e;
    if k > 0 {
      assert lru[1..][k - 1] == e;
      GetsOwn(lru[1..], e);
    }
  }

  /** While the registry is down, the document behind an entry is answered from that entry. */
  lemma EntryAnswered(lru: seq<Entry>, capacity: nat, codec: Codec, index: set<Posting>, e: Entry)
    requires capacity > 0 && CacheOk(lru, capacity) && e in lru && AnswersHold(lru, capacity, codec, index)
    ensures Sound(index, codec, e)
  {
    hide ParseBounded, ShapeOf, FingerprintOf, BucketOf, WellFormed, Filed, Summarize;
    assert HasDocument(e);
    var payload, limits :|
      ParseBounded(payload, limits).Success? && FingerprintOf(ShapeOf(ParseBounded(payload, limits).value)) == e.fp;
    ParsedWellFormed(payload, limits);
    GetsOwn(lru, e);
    assert HonestReply(index, codec, payload, limits, Unavailable);
    var r := Classify(lru, capacity, codec, "", payload, limits, Unavailable).1;
    assert r.schemaRef == Known(e.id);
    assert Allowed(index, index, codec, "", payload, limits, false, r);
  }

  /** Every answer is one the index allows exactly when every cached entry is filed in it. */
  lemma AnswersHoldExactly(lru: seq<Entry>, capacity: nat, codec: Codec, index: set<Posting>)
    requires capacity > 0 && CacheOk(lru, capacity)
    ensures AnswersHold(lru, capacity, codec, index) <==> CacheInv(lru, capacity, codec, index)
  {
    hide Sound, HonestReply, Allowed, Classify, HasDocument;
    if AnswersHold(lru, capacity, codec, index) {
      forall e | e in lru ensures Sound(index, codec, e) {
        EntryAnswered(lru, capacity, codec, index, e);
      }
    }
    if CacheInv(lru, capacity, codec, index) {
      forall source, payload, limits, reply | HonestReply(index, codec, payload, limits, reply)
        ensures Allowed(index, index, codec, source, payload, limits, reply.Found?,
                        Classify(lru, capacity, codec, source, payload, limits, reply).1)
      {
        AnswerAllowed(lru, capacity, codec, index, index, source, payload, limits, reply);
      }
    }
  }

  ghost predicate LawfulEvents(events: seq<Event>) {
    forall e | e in events && e.Publishing? :: WellMade(e.q)
  }

  /** At every moment of the run every answer is one the index of that moment allows. */
  ghost predicate AlwaysHold(start: Registry, capacity: nat, codec: Codec, events: seq<Event>)
    requires capacity > 0
  {
    forall k | 0 <= k <= |events| ::
      var w := Run(start, capacity, codec, events[..k]); AnswersHold(w.lru, capacity, codec, w.registry.index)
  }

  /** Whenever the run rebuilds, every cached entry is one its schema's own record files. */
  ghost predicate RebuildsKeep(start: Registry, capacity: nat, codec: Codec, events: seq<Event>)
    requires capacity > 0
  {
    forall i | 0 <= i < |events| && events[i].Rebuilding? ::
      var w := Run(start, capacity, codec, events[..i]); AllKept(w.lru, w.registry, codec)
  }

  lemma NextKeepsInv(w: World, capacity: nat, codec: Codec, e: Event)
    requires capacity > 0 && Inv(w.registry) && (e.Publishing? ==> WellMade(e.q))
    ensures Inv(Next(w, capacity, codec, e).registry)
  {
    hide WellMade, Publish, Rebuild, Inv, Classify;
    match e
    case Message(_, _, _, _) =>
    case Publishing(q) => PublishKeepsInv(w.registry, q);
    case Rebuilding => RebuildKeepsInv(w.registry);
  }

  lemma {:induction false} RunKeepsInv(start: Registry, capacity: nat, codec: Codec, events: seq<Event>)
    requires capacity > 0 && Inv(start) && LawfulEvents(events)
    ensures Inv(Run(start, capacity, codec, events).registry)
    decreases |events|
  {
    hide WellMade, Next, Inv;
    if events != [] {
      var n := |events| - 1;
      RunKeepsInv(start, capacity, codec, events[..n]);
      NextKeepsInv(Run(start, capacity, codec, events[..n]), capacity, codec, events[n]);
    }
  }

  /** From a moment at which every answer holds, one event keeps that so exactly when it is no rebuild
      or one that keeps the cache. */
  lemma NextHolds(w: World, capacity: nat, codec: Codec, e: Event)
    requires capacity > 0 && Inv(w.registry) && NoEquals(codec) && CacheOk(w.lru, capacity) && Honest(w, codec, e)
    requires AnswersHold(w.lru, capacity, codec, w.registry.index)
    ensures var t := Next(w, capacity, codec, e);
      AnswersHold(t.lru, capacity, codec, t.registry.index) <==> (e.Rebuilding? ==> AllKept(w.lru, w.registry, codec))
  {
    hide Sound, HonestReply, AnswersHold, CacheOk, CacheInv, AllKept, Classify, Publish, Rebuild, Inv, NoEquals;
    var t := Next(w, capacity, codec, e);
    var now := w.registry.index;
    AnswersHoldExactly(w.lru, capacity, codec, now);
    match e
    case Message(source, payload, limits, reply) =>
      ClassifyKeepsCache(w.lru, capacity, codec, now, now, source, payload, limits, reply);
      ClassifyKeepsOk(w.lru, capacity, codec, source, payload, limits, reply);
      AnswersHoldExactly(t.lru, capacity, codec, now);
    case Publishing(q) =>
      IndexGrows(w.registry, q);
      CacheInvGrows(w.lru, capacity, codec, now, t.registry.index);
      AnswersHoldExactly(w.lru, capacity, codec, t.registry.index);
    case Rebuilding =>
      WithinCapacity(w.lru, capacity);
      RebuildKeepsCache(w.registry, w.lru, capacity, codec);
      AnswersHoldExactly(w.lru, capacity, codec, t.registry.index);
  }

  lemma WithinCapacity(lru: seq<Entry>, capacity: nat)
    requires CacheOk(lru, capacity)
    ensures |lru| <= capacity
  {
    hide HasDocument;
  }

  lemma RunSnoc(start: Registry, capacity: nat, codec: Codec, events: seq<Event>)
    requires capacity > 0 && events != []
    ensures var n := |events| - 1;
      Run(start, capacity, codec, events) == Next(Run(start, capacity, codec, events[..n]), capacity, codec, events[n])
  {
    hide Next;
  }

  /** What the last event of a run adds to both. */
  lemma HoldSnoc(start: Registry, capacity: nat, codec: Codec, events: seq<Event>)
    requires capacity > 0 && events != []
    ensures var before, w := events[..|events| - 1], Run(start, capacity, codec, events);
      AlwaysHold(start, capacity, codec, events) <==>
        AlwaysHold(start, capacity, codec, before) && AnswersHold(w.lru, capacity, codec, w.registry.index)
  {
    hide Run, AnswersHold;
    var n := |events| - 1;
    assert events[..n + 1] == events;
    forall k | 0 <= k <= n ensures events[..n][..k] == events[..k] {
    }
  }

  lemma KeepSnoc(start: Registry, capacity: nat, codec: Codec, events: seq<Event>)
    requires capacity > 0 && events != []
    ensures var n := |events| - 1; var w := Run(start, capacity, codec, events[..n]);
      RebuildsKeep(start, capacity, codec, events) <==>
        RebuildsKeep(start, capacity, codec, events[..n])
          && (events[n].Rebuilding? ==> AllKept(w.lru, w.registry, codec))
  {
    hide Run, AllKept;
    var n := |events| - 1;
    forall k | 0 <= k <= n ensures events[..n][..k] == events[..k] {
    }
  }

  lemma HoldNow(start: Registry, capacity: nat, codec: Codec, events: seq<Event>)
    requires capacity > 0 && AlwaysHold(start, capacity, codec, events)
    ensures var w := Run(start, capacity, codec, events); AnswersHold(w.lru, capacity, codec, w.registry.index)
  {
    hide Run, AnswersHold;
    assert events[..|events|] == events;
  }

  lemma HonestPrefix(start: Registry, capacity: nat, codec: Codec, events: seq<Event>)
    requires capacity > 0 && events != [] && HonestRun(start, capacity, codec, events) && LawfulEvents(events)
    ensures var n := |events| - 1;
      && HonestRun(start, capacity, codec, events[..n]) && LawfulEvents(events[..n])
      && Honest(Run(start, capacity, codec, events[..n]), codec, events[n])
  {
    hide Run, Honest, WellMade;
    var n := |events| - 1;
    forall i | 0 <= i < n ensures events[..n][..i] == events[..i] {
    }
  }

  lemma NothingCached(start: Registry, capacity: nat, codec: Codec, events: seq<Event>)
    requires capacity > 0 && events == []
    ensures AlwaysHold(start, capacity, codec, events) && RebuildsKeep(start, capacity, codec, events)
  {
    hide AnswersHold;
    assert events[..0] == [];
    AnswersHoldExactly([], capacity, codec, start.index);
  }

  /** Rebuilds are safe while messages are classified exactly when each comes at a moment at which every
      cached entry is filed by its own schema's record: then, and only then, is every answer of the run,
      from the cache or not, one the index of that moment allows. */
  lemma {:induction false} RebuildsSafeExactly(start: Registry, capacity: nat, codec: Codec, events: seq<Event>)
    requires capacity > 0 && Inv(start) && NoEquals(codec) && LawfulEvents(events)
    requires HonestRun(start, capacity, codec, events)
    ensures AlwaysHold(start, capacity, codec, events) <==> RebuildsKeep(start, capacity, codec, events)
    decreases |events|
  {
    hide *;
    if events == [] {
      NothingCached(start, capacity, codec, events);
    } else {
      var before := events[..|events| - 1];
      HonestPrefix(start, capacity, codec, events);
      RebuildsSafeExactly(start, capacity, codec, before);
      RunSnoc(start, capacity, codec, events);
      HoldSnoc(start, capacity, codec, events);
      KeepSnoc(start, capacity, codec, events);
      RunKeepsInv(start, capacity, codec, before);
      CacheAlwaysOk(start, capacity, codec, before);
      if AlwaysHold(start, capacity, codec, before) {
        HoldNow(start, capacity, codec, before);
        NextHolds(Run(start, capacity, codec, before), capacity, codec, events[|events| - 1]);
      }
    }
  }

  // ---- after a publish ----

  /** Once a publish was granted, every variant shape it recorded is answered Known from then on,
      unless the registry is down and the answer not cached. */
  lemma VariantsResolve(start: Registry, capacity: nat, codec: Codec, events: seq<Event>, i: nat, e: Event)
    requires capacity > 0 && HonestRun(start, capacity, codec, events) && i < |events| && events[i].Publishing?
    requires LosesNothing(start, capacity, codec, events)
    requires Publish(Run(start, capacity, codec, events[..i]).registry, events[i].q).1.Published?
    requires e.Message? && Honest(Run(start, capacity, codec, events), codec, e)
    requires ParseBounded(e.payload, e.limits).Success?
    requires var s := ShapeOf(ParseBounded(e.payload, e.limits).value);
      Variant(BucketOf(s, codec), codec.base32(FingerprintOf(s))) in events[i].q.variants
    ensures var w := Run(start, capacity, codec, events); var s := ShapeOf(ParseBounded(e.payload, e.limits).value);
      var r := Classify(w.lru, capacity, codec, e.source, e.payload, e.limits, e.reply).1;
      r.schemaRef.Known? || (r.schemaRef.Unresolved? && e.reply.Unavailable? && CacheGet(w.lru, FingerprintOf(s)).None?)
  {
    hide ParseBounded, ShapeOf, FingerprintOf, BucketOf, WellFormed, HonestRun, Summarize, Publish, VariantMember;
    var q := events[i].q;
    var s := ShapeOf(ParseBounded(e.payload, e.limits).value);
    var before := Run(start, capacity, codec, events[..i]).registry;
    assert events[..i + 1][..i] == events[..i];
    PublishAdds(before, q);
    assert Filed(Added(q), s, codec, q.schemaId) by {
      assert Variant(BucketOf(s, codec), codec.base32(FingerprintOf(s))) in q.variants;
    }
    IndexOnlyGrows(start, capacity, codec, events, i + 1);
    hide Run;
    assert Filed(Run(start, capacity, codec, events).registry.index, s, codec, q.schemaId);
  }

  lemma PublishAdds(s: Registry, q: PublishRequest)
    requires Publish(s, q).1.Published?
    ensures Added(q) <= Publish(s, q).0.index
  {
    hide Added, HashAfter, FamilyAfter, VersionFor;
  }

  /** What is filed is a published schema: no answer names one that does not exist. */
  lemma FiledIsPublished(r: Registry, s: Shape, codec: Codec, id: string)
    requires Inv(r) && Filed(r.index, s, codec, id) && '=' !in codec.base32(FingerprintOf(s))
    ensures id in r.schemas && IsSchemaId(id)
  {
    hide FingerprintOf, BucketOf, FamilyInv, PostingsOf;
    SplitJoined(codec.base32(FingerprintOf(s)), id);
    assert PostingInv(r, Posting(BucketOf(s, codec), VariantMember(codec.base32(FingerprintOf(s)), id)));
    assert SchemaInv(r, id);
  }
}
