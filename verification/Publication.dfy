/** Publication as one atomic transition of the vault's state, and what every run of it keeps. */
module Publication {
  import opened Options
  import opened Members

  /** The hash at `deblob:schema:<sch_id>`. Records older than the structural index lack `bucket`
      and `variants`. */
  datatype SchemaHash = SchemaHash(
    record: string, canonical: string, canonicalizer: string, family: string, version: nat,
    bucket: Option<string>, variants: Option<seq<string>>)

  /** The hash at `deblob:family:<fam_id>`: the counter and the `v:<n>` fields. */
  datatype Family = Family(familyId: string, nextVersion: nat, versions: map<nat, string>)

  /** A member of one bucket's set. A Redis set without members does not exist, so the index is
      the set of its postings. */
  datatype Posting = Posting(bucket: string, member: string)

  datatype Registry = Registry(
    schemas: map<string, SchemaHash>, families: map<string, Family>, aliases: map<string, string>,
    published: map<string, nat>, listing: set<string>, index: set<Posting>)

  const EMPTY_REGISTRY := Registry(map[], map[], map[], map[], {}, {})

  datatype PublishRequest = PublishRequest(
    schemaId: string, familyId: string, candidateId: string, bucket: string,
    record: string, canonical: string, canonicalizer: string, variants: seq<Variant>,
    actor: string, reason: string, nowMs: string)

  datatype PublishError = Immutability | AliasConflict
  datatype PublishResult = Published(version: nat) | Refused(error: PublishError)

  // ---- the transition ----

  predicate Clashes(s: Registry, q: PublishRequest) {
    q.schemaId in s.schemas
    && (s.schemas[q.schemaId].canonical != q.canonical || s.schemas[q.schemaId].canonicalizer != q.canonicalizer)
  }

  predicate AliasTaken(s: Registry, q: PublishRequest) {
    q.candidateId in s.aliases && s.aliases[q.candidateId] != q.schemaId
  }

  function NextVersion(families: map<string, Family>, f: string): nat {
    if f in families then families[f].nextVersion + 1 else 1
  }

  function FamilyAfter(families: map<string, Family>, f: string, sch: string): Family {
    var version := NextVersion(families, f);
    Family(f, version, (if f in families then families[f].versions else map[])[version := sch])
  }

  function VersionFor(s: Registry, q: PublishRequest): nat {
    if q.schemaId in s.published then s.published[q.schemaId] else NextVersion(s.families, q.familyId)
  }

  function HashAfter(s: Registry, q: PublishRequest): SchemaHash {
    var base :=
      if q.schemaId in s.schemas then s.schemas[q.schemaId]
      else SchemaHash(q.record, q.canonical, q.canonicalizer, q.familyId, VersionFor(s, q), Some(q.bucket), None);
    base.(variants := Some(EncodeVariants(q.variants)))
  }

  /** The members a publish adds: the schema's own, and one for each variant. */
  function Added(q: PublishRequest): set<Posting> {
    {Posting(q.bucket, BucketMember(q.schemaId))} + VariantPostings(q.schemaId, q.variants)
  }

  function VariantPostings(sch: string, vs: seq<Variant>): set<Posting> {
    set v | v in vs :: Posting(v.bucket, VariantMember(v.fp, sch))
  }

  function Publish(s: Registry, q: PublishRequest): (Registry, PublishResult) {
    if Clashes(s, q) then (s, Refused(Immutability))
    else if AliasTaken(s, q) then (s, Refused(AliasConflict))
    else
      var version := VersionFor(s, q);
      (Registry(
         s.schemas[q.schemaId := HashAfter(s, q)],
         if q.schemaId in s.published then s.families
         else s.families[q.familyId := FamilyAfter(s.families, q.familyId, q.schemaId)],
         s.aliases[q.candidateId := q.schemaId],
         s.published[q.schemaId := version],
         s.listing + {q.schemaId},
         s.index + Added(q)),
       Published(version))
  }

  /** The postings one schema's own record gives back. */
  function PostingsOf(sch: string, h: SchemaHash): set<Posting> {
    match h.bucket
    case None => {}
    case Some(b) =>
      {Posting(b, BucketMember(sch))}
      + match h.variants { case None => {} case Some(es) => VariantPostings(sch, DecodeVariants(es)) }
  }

  // ---- what the callers supply ----

  /** Bucket keys come from `bucket_key`: they lie in the index and hold no `=`. */
  predicate IsBucketKey(key: string) {
    InIndex(key) && '=' !in key
  }

  /** Ids and fingerprints are base32, so they hold no `=` either. */
  predicate WellMade(q: PublishRequest) {
    && IsSchemaId(q.schemaId)
    && IsBucketKey(q.bucket)
    && forall v | v in q.variants :: IsBucketKey(v.bucket) && '=' !in v.fp
  }

  // ---- the invariant ----

  /** One family: its `v:<n>` fields are 1 to the counter, and name the family's schemas by version. */
  ghost predicate FamilyInv(s: Registry, f: string)
    requires f in s.families
  {
    var g := s.families[f];
    && g.familyId == f
    && (forall n :: n in g.versions <==> 1 <= n <= g.nextVersion)
    && (forall n | n in g.versions ::
          var sch := g.versions[n];
          sch in s.schemas && s.schemas[sch].family == f && s.schemas[sch].version == n)
  }

  /** The schema a posting names. */
  function Owner(p: Posting): Option<string> {
    match SplitOnce(p.member) case None => None case Some(pair) => Some(pair.1)
  }

  predicate SchemaInv(s: Registry, sch: string)
    requires sch in s.schemas
  {
    var h := s.schemas[sch];
    && IsSchemaId(sch)
    && sch in s.published && s.published[sch] == h.version
    && h.family in s.families && h.version in s.families[h.family].versions
    && s.families[h.family].versions[h.version] == sch
    && h.bucket.Some? && h.variants.Some?
    && '=' !in h.bucket.value
    && PostingsOf(sch, h) <= s.index
    && forall p | p in PostingsOf(sch, h) :: Owner(p) == Some(sch)
  }

  predicate PostingInv(s: Registry, p: Posting) {
    InIndex(p.bucket) && Owner(p).Some? && Owner(p).value in s.schemas
  }

  ghost predicate Inv(s: Registry) {
    && (forall f | f in s.families :: FamilyInv(s, f))
    && (forall sch | sch in s.schemas :: SchemaInv(s, sch))
    && s.published.Keys == s.schemas.Keys == s.listing
    && (forall c | c in s.aliases :: s.aliases[c] in s.schemas)
    && (forall p | p in s.index :: PostingInv(s, p))
  }

  lemma InvEmpty()
    ensures Inv(EMPTY_REGISTRY)
  {
  }

  lemma OwnerIs(q: PublishRequest, p: Posting)
    requires WellMade(q)
    requires p.member == BucketMember(q.schemaId) || p in VariantPostings(q.schemaId, q.variants)
    ensures Owner(p) == Some(q.schemaId)
  {
    IdHasNoEquals(q.schemaId);
    if p.member == BucketMember(q.schemaId) {
      SplitJoined(Body(q.schemaId), q.schemaId);
    } else {
      var v :| v in q.variants && p == Posting(v.bucket, VariantMember(v.fp, q.schemaId));
      SplitJoined(v.fp, q.schemaId);
    }
  }

  lemma AddedWell(q: PublishRequest, p: Posting)
    requires WellMade(q) && p in Added(q)
    ensures Owner(p) == Some(q.schemaId) && InIndex(p.bucket)
  {
    hide Owner, IsSchemaId, InIndex, VariantMember, BucketMember;
    OwnerIs(q, p);
  }

  lemma HashPostings(s: Registry, q: PublishRequest)
    requires Inv(s) && WellMade(q) && !Clashes(s, q)
    ensures var h := HashAfter(s, q);
      && h.bucket.Some? && h.variants.Some? && DecodeVariants(h.variants.value) == q.variants && '=' !in h.bucket.value
      && (q.schemaId !in s.schemas ==> h.bucket == Some(q.bucket))
      && PostingsOf(q.schemaId, h) <= s.index + Added(q)
      && forall p | p in PostingsOf(q.schemaId, h) :: Owner(p) == Some(q.schemaId)
  {
    hide *;
    HashFields(s, q);
    var h := HashAfter(s, q);
    TwoParts(q.schemaId, h);
    AddedIs(q);
    forall p | p in PostingsOf(q.schemaId, h) ensures Owner(p) == Some(q.schemaId) && p in s.index + Added(q) {
      OwnerIs(q, p);
      if q.schemaId in s.schemas && p !in Added(q) {
        TwoParts(q.schemaId, s.schemas[q.schemaId]);
        OwnPosted(s, q.schemaId);
      }
    }
  }

  /** The bucket on record stays the first publish's, the variants are this one's. */
  lemma HashFields(s: Registry, q: PublishRequest)
    requires Inv(s) && WellMade(q) && !Clashes(s, q)
    ensures var h := HashAfter(s, q);
      && h.bucket.Some? && h.variants.Some? && DecodeVariants(h.variants.value) == q.variants && '=' !in h.bucket.value
      && (if q.schemaId in s.schemas then
        h.bucket == s.schemas[q.schemaId].bucket && s.schemas[q.schemaId].variants.Some?
          else h.bucket == Some(q.bucket))
  {
    hide DecodeVariants, EncodeVariants, PostingsOf, FamilyInv, PostingInv, Owner, IsSchemaId, VersionFor;
    VariantsRoundTrip(q.variants);
    if q.schemaId in s.schemas {
      assert SchemaInv(s, q.schemaId);
    }
  }

  lemma TwoParts(sch: string, h: SchemaHash)
    requires h.bucket.Some? && h.variants.Some?
    ensures PostingsOf(sch, h)
      == {Posting(h.bucket.value, BucketMember(sch))} + VariantPostings(sch, DecodeVariants(h.variants.value))
  {
    hide BucketMember, VariantPostings, DecodeVariants;
  }

  lemma AddedIs(q: PublishRequest)
    ensures Added(q) == {Posting(q.bucket, BucketMember(q.schemaId))} + VariantPostings(q.schemaId, q.variants)
  {
    hide BucketMember, VariantPostings;
  }

  lemma OwnPosted(s: Registry, sch: string)
    requires Inv(s) && sch in s.schemas
    ensures PostingsOf(sch, s.schemas[sch]) <= s.index
  {
    hide PostingsOf, FamilyInv, PostingInv, Owner, IsSchemaId;
    assert SchemaInv(s, sch);
  }

  /** The family a first publish goes into. */
  lemma FreshKeepsFamily(s: Registry, q: PublishRequest)
    requires Inv(s) && !Clashes(s, q) && !AliasTaken(s, q) && q.schemaId !in s.schemas
    ensures FamilyInv(Publish(s, q).0, q.familyId)
  {
    hide SchemaInv, PostingInv, EncodeVariants, Added;
    if q.familyId in s.families {
      assert FamilyInv(s, q.familyId);
    }
  }

  lemma SameFamily(s: Registry, t: Registry, f: string)
    requires f in s.families && FamilyInv(s, f) && f in t.families && t.families[f] == s.families[f]
    requires forall sch | sch in s.schemas ::
      sch in t.schemas && t.schemas[sch].family == s.schemas[sch].family
        && t.schemas[sch].version == s.schemas[sch].version
    ensures FamilyInv(t, f)
  {
  }

  lemma OtherFamilies(s: Registry, q: PublishRequest, f: string)
    requires Inv(s) && !Clashes(s, q) && !AliasTaken(s, q) && f in Publish(s, q).0.families
    requires q.schemaId in s.schemas || f != q.familyId
    ensures f in s.families && FamilyInv(s, f) && Publish(s, q).0.families[f] == s.families[f]
  {
    hide SchemaInv, PostingInv, HashAfter, Added, FamilyAfter, VersionFor, FamilyInv;
  }

  lemma OldHashes(s: Registry, q: PublishRequest)
    ensures var t := Publish(s, q).0;
      forall sch | sch in s.schemas ::
        sch in t.schemas && t.schemas[sch].family == s.schemas[sch].family
          && t.schemas[sch].version == s.schemas[sch].version
  {
    hide EncodeVariants, Added, FamilyAfter, VersionFor;
  }

  lemma PublishKeepsFamily(s: Registry, q: PublishRequest, f: string)
    requires Inv(s) && !Clashes(s, q) && !AliasTaken(s, q) && f in Publish(s, q).0.families
    ensures FamilyInv(Publish(s, q).0, f)
  {
    hide *;
    if q.schemaId !in s.schemas && f == q.familyId {
      FreshKeepsFamily(s, q);
    } else {
      OtherFamilies(s, q, f);
      OldHashes(s, q);
      SameFamily(s, Publish(s, q).0, f);
    }
  }

  lemma PublishKeepsOwn(s: Registry, q: PublishRequest)
    requires Inv(s) && WellMade(q) && !Clashes(s, q) && !AliasTaken(s, q)
    ensures SchemaInv(Publish(s, q).0, q.schemaId)
  {
    hide PostingInv, EncodeVariants, PostingsOf, IsSchemaId, DecodeVariants, Added, Owner, FamilyInv;
    HashPostings(s, q);
    if q.schemaId in s.schemas {
      assert SchemaInv(s, q.schemaId);
    }
  }

  lemma PublishExtendsFamilies(s: Registry, q: PublishRequest, f: string)
    requires Inv(s) && f in s.families
    ensures var t := Publish(s, q).0;
      f in t.families && s.families[f].nextVersion <= t.families[f].nextVersion
      && forall n | n in s.families[f].versions ::
           n in t.families[f].versions && t.families[f].versions[n] == s.families[f].versions[n]
  {
    hide PostingsOf, PostingInv, Added, HashAfter, SchemaInv, VersionFor;
    assert FamilyInv(s, f);
  }

  lemma PublishKeepsOther(s: Registry, q: PublishRequest, sch: string)
    requires Inv(s) && !Clashes(s, q) && !AliasTaken(s, q) && sch in s.schemas && sch != q.schemaId
    ensures SchemaInv(Publish(s, q).0, sch)
  {
    assert SchemaInv(s, sch) && s.published.Keys == s.schemas.Keys;
    hide Inv, Publish, PostingsOf, IsSchemaId, Owner, Clashes, AliasTaken;
    PublishExtendsFamilies(s, q, s.schemas[sch].family);
    PublishLeaves(s, q, sch);
  }

  lemma PublishLeaves(s: Registry, q: PublishRequest, sch: string)
    requires sch in s.schemas && sch in s.published && sch != q.schemaId
    ensures var t := Publish(s, q).0;
      && sch in t.schemas && t.schemas[sch] == s.schemas[sch]
      && sch in t.published && t.published[sch] == s.published[sch] && s.index <= t.index
  {
    hide Added, HashAfter, FamilyAfter, VersionFor, Clashes, AliasTaken;
  }

  /** Every publish, granted or refused, keeps the invariant. */
  lemma PublishKeepsInv(s: Registry, q: PublishRequest)
    requires Inv(s) && WellMade(q)
    ensures Inv(Publish(s, q).0)
  {
    hide FamilyInv, SchemaInv, WellMade, HashAfter, Owner, FamilyAfter, Clashes, AliasTaken, VariantPostings,
      BucketMember;
    if Clashes(s, q) || AliasTaken(s, q) {
      return;
    }
    var s' := Publish(s, q).0;
    forall f | f in s'.families ensures FamilyInv(s', f) {
      PublishKeepsFamily(s, q, f);
    }
    forall sch | sch in s'.schemas ensures SchemaInv(s', sch) {
      if sch == q.schemaId {
        PublishKeepsOwn(s, q);
      } else {
        PublishKeepsOther(s, q, sch);
      }
    }
    forall p | p in s'.index ensures PostingInv(s', p) {
      if p in s.index {
        assert PostingInv(s, p);
      } else {
        AddedWell(q, p);
      }
    }
  }

  // ---- what later transitions leave alone ----

  /** Everything write-once is as it was; counters have only grown. */
  ghost predicate Extends(s: Registry, t: Registry) {
    && (forall sch | sch in s.schemas ::
          sch in t.schemas && t.schemas[sch].(variants := None) == s.schemas[sch].(variants := None))
    && (forall c | c in s.aliases :: c in t.aliases && t.aliases[c] == s.aliases[c])
    && (forall sch | sch in s.published :: sch in t.published && t.published[sch] == s.published[sch])
    && (forall f | f in s.families ::
          f in t.families && s.families[f].nextVersion <= t.families[f].nextVersion
          && forall n | n in s.families[f].versions ::
               n in t.families[f].versions && t.families[f].versions[n] == s.families[f].versions[n])
  }

  lemma ExtendsTransitive(s: Registry, t: Registry, u: Registry)
    requires Extends(s, t) && Extends(t, u)
    ensures Extends(s, u)
  {
  }

  lemma PublishExtendsSchemas(s: Registry, q: PublishRequest)
    requires Inv(s)
    ensures var t := Publish(s, q).0;
      && (forall sch | sch in s.schemas ::
            sch in t.schemas && t.schemas[sch].(variants := None) == s.schemas[sch].(variants := None))
      && (forall sch | sch in s.published :: sch in t.published && t.published[sch] == s.published[sch])
  {
    hide PostingsOf, PostingInv, Added, EncodeVariants, SchemaInv, FamilyInv, FamilyAfter, NextVersion;
  }

  lemma PublishExtends(s: Registry, q: PublishRequest)
    requires Inv(s)
    ensures Extends(s, Publish(s, q).0) && s.index <= Publish(s, q).0.index
  {
    hide Publish, Inv;
    PublishExtendsSchemas(s, q);
    PublishExtendsIndex(s, q);
    forall f | f in s.families
      ensures var t := Publish(s, q).0;
        f in t.families && s.families[f].nextVersion <= t.families[f].nextVersion
        && forall n | n in s.families[f].versions ::
             n in t.families[f].versions && t.families[f].versions[n] == s.families[f].versions[n]
    {
      PublishExtendsFamilies(s, q, f);
    }
  }

  lemma PublishExtendsIndex(s: Registry, q: PublishRequest)
    ensures var t := Publish(s, q).0;
      s.index <= t.index && forall c | c in s.aliases :: c in t.aliases && t.aliases[c] == s.aliases[c]
  {
    hide Added, HashAfter, FamilyAfter, VersionFor;
  }

  /** The first publish of a schema in a family gets the next number. */
  lemma FreshVersion(s: Registry, q: PublishRequest)
    requires Inv(s) && q.schemaId !in s.schemas && Publish(s, q).1.Published?
    ensures var (s', r) := Publish(s, q);
      && r.version == s'.families[q.familyId].nextVersion == NextVersion(s.families, q.familyId)
      && s'.families[q.familyId].versions[r.version] == q.schemaId
  {
  }

  /** Repeating a publish, any time later: the same version, and at most the schema's own variants
      field and postings are written again. */
  lemma Republish(s: Registry, q: PublishRequest, t: Registry)
    requires Inv(s) && Inv(t) && Publish(s, q).1.Published? && Extends(Publish(s, q).0, t)
    ensures Publish(t, q).1 == Publish(s, q).1
    ensures q.schemaId in t.schemas
    ensures Publish(t, q).0
         == t.(schemas := t.schemas[q.schemaId := t.schemas[q.schemaId].(variants := Some(EncodeVariants(q.variants)))],
               index := t.index + Added(q))
  {
    hide PostingsOf, PostingInv, Added, EncodeVariants, FamilyInv, SchemaInv, FamilyAfter, NextVersion;
    AfterPublish(s, q);
    var s1 := Publish(s, q).0;
    hide Publish, VersionFor, HashAfter;
    assert q.schemaId in t.schemas && q.schemaId in t.published && q.candidateId in t.aliases;
    assert t.schemas[q.schemaId].(variants := None) == s1.schemas[q.schemaId].(variants := None);
    Again(t, q);
  }

  /** What a granted publish leaves behind. */
  lemma AfterPublish(s: Registry, q: PublishRequest)
    requires Inv(s) && Publish(s, q).1.Published?
    ensures var t := Publish(s, q).0;
      && q.schemaId in t.schemas && t.schemas[q.schemaId].canonical == q.canonical
      && t.schemas[q.schemaId].canonicalizer == q.canonicalizer
      && q.schemaId in t.published && t.published[q.schemaId] == Publish(s, q).1.version
      && q.candidateId in t.aliases && t.aliases[q.candidateId] == q.schemaId
  {
    hide PostingsOf, Added, EncodeVariants, FamilyInv, SchemaInv, FamilyAfter, NextVersion;
  }

  /** A publish of what is already there. */
  lemma Again(t: Registry, q: PublishRequest)
    requires t.published.Keys == t.schemas.Keys == t.listing && q.schemaId in t.schemas
    requires t.schemas[q.schemaId].canonical == q.canonical && t.schemas[q.schemaId].canonicalizer == q.canonicalizer
    requires q.candidateId in t.aliases && t.aliases[q.candidateId] == q.schemaId
    ensures Publish(t, q).1 == Published(t.published[q.schemaId])
    ensures Publish(t, q).0
         == t.(schemas := t.schemas[q.schemaId := t.schemas[q.schemaId].(variants := Some(EncodeVariants(q.variants)))],
               index := t.index + Added(q))
  {
    hide Added, EncodeVariants, FamilyAfter, NextVersion;
    assert t.aliases[q.candidateId := q.schemaId] == t.aliases;
    assert t.published[q.schemaId := t.published[q.schemaId]] == t.published;
    assert t.listing + {q.schemaId} == t.listing;
  }
}
