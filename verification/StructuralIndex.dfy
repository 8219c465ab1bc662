/** The structural index as something derived: rebuilding it from the schema records, checking it
    against them, and when a rebuild loses nothing. */
module StructuralIndex {
  import opened Options
  import opened Members
  import opened Publication

  function Rebuilt(schemas: map<string, SchemaHash>): set<Posting> {
    set sch, p | sch in schemas && p in PostingsOf(sch, schemas[sch]) :: p
  }

  /** What the first sweep leaves: sets under other keys. */
  function Foreign(index: set<Posting>): set<Posting> {
    set p | p in index && !InIndex(p.bucket)
  }

  /** `rebuild_index`, when every schema key is a schema id. */
  function Rebuild(s: Registry): Registry {
    s.(listing := s.schemas.Keys, index := Foreign(s.index) + Rebuilt(s.schemas))
  }

  datatype Problem =
    | MalformedMember(posting: Posting)
    | MissingSchema(posting: Posting, sch: string)
    | NoRecordedBucket(sch: string)
    | InvalidId(sch: string)
    | NotInBucket(sch: string, bucket: string)

  function PostingProblems(s: Registry, p: Posting): set<Problem> {
    match SplitOnce(p.member)
    case None => {MalformedMember(p)}
    case Some(pair) => if pair.1 in s.schemas then {} else {MissingSchema(p, pair.1)}
  }

  function SchemaProblems(s: Registry, sch: string): set<Problem>
    requires sch in s.schemas
  {
    match s.schemas[sch].bucket
    case None => {NoRecordedBucket(sch)}
    case Some(b) =>
      if !IsSchemaId(sch) then {InvalidId(sch)}
      else if Posting(b, BucketMember(sch)) in s.index then {}
      else {NotInBucket(sch, b)}
  }

  /** Everything `verify_index` reports. */
  function Problems(s: Registry): set<Problem> {
    (set p, x | p in s.index - Foreign(s.index) && x in PostingProblems(s, p) :: x)
    + (set sch, x | sch in s.schemas && x in SchemaProblems(s, sch) :: x)
  }

  // ---- what the check finds ----

  lemma SplitsAt(m: string, right: string)
    ensures SplitOnce(m).None? <==> '=' !in m
    ensures SplitOnce(m).Some? && SplitOnce(m).value.1 == right <==>
      exists left :: '=' !in left && m == left + "=" + right
  {
    var i := FirstIndex(m, '=');
    if i < |m| {
      assert m == m[..i] + "=" + m[i + 1..];
    }
    forall left | '=' !in left && m == left + "=" + right ensures SplitOnce(m) == Some((left, right)) {
      SplitJoined(left, right);
    }
  }

  lemma PostingReports(s: Registry, p: Posting, sch: string)
    ensures MalformedMember(p) in PostingProblems(s, p) <==> '=' !in p.member
    ensures MissingSchema(p, sch) in PostingProblems(s, p) <==>
              sch !in s.schemas && exists left :: '=' !in left && p.member == left + "=" + sch
    ensures forall x | x in PostingProblems(s, p) :: (x.MalformedMember? || x.MissingSchema?) && x.posting == p
  {
    hide SplitOnce;
    SplitsAt(p.member, sch);
  }

  lemma OwnMemberIs(sch: string)
    requires IsSchemaId(sch)
    ensures |sch| == 56 && BucketMember(sch) == sch[4..] + "=" + sch
  {
  }

  lemma SchemaReports(s: Registry, sch: string, b: string)
    requires sch in s.schemas
    ensures NoRecordedBucket(sch) in SchemaProblems(s, sch) <==> s.schemas[sch].bucket.None?
    ensures InvalidId(sch) in SchemaProblems(s, sch) <==> s.schemas[sch].bucket.Some? && !IsSchemaId(sch)
    ensures NotInBucket(sch, b) in SchemaProblems(s, sch) <==>
              s.schemas[sch].bucket == Some(b) && IsSchemaId(sch) && Posting(b, sch[4..] + "=" + sch) !in s.index
    ensures forall x | x in SchemaProblems(s, sch) ::
              (x.NoRecordedBucket? || x.InvalidId? || x.NotInBucket?) && x.sch == sch
  {
    if IsSchemaId(sch) {
      OwnMemberIs(sch);
    }
    hide IsSchemaId, BucketMember;
  }

  /** In any store, consistent or not, a scanned member is reported exactly when it does not split or
      names no schema. */
  lemma PostingsReported(s: Registry, p: Posting, sch: string)
    ensures MalformedMember(p) in Problems(s) <==> p in s.index && "deblob:index:" <= p.bucket && '=' !in p.member
    ensures MissingSchema(p, sch) in Problems(s) <==>
              && p in s.index && "deblob:index:" <= p.bucket && sch !in s.schemas
              && exists left :: '=' !in left && p.member == left + "=" + sch
  {
    hide PostingProblems, SchemaProblems;
    forall k | k in s.schemas
      ensures forall x | x in SchemaProblems(s, k) :: x.NoRecordedBucket? || x.InvalidId? || x.NotInBucket?
    {
      SchemaReports(s, k, "");
    }
    forall o ensures forall x | x in PostingProblems(s, o) ::
      (x.MalformedMember? || x.MissingSchema?) && x.posting == o {
      PostingReports(s, o, sch);
    }
    PostingReports(s, p, sch);
  }

  /** And a stored schema is, exactly when it records no bucket, its id is malformed, or the bucket it
      records does not hold it. */
  lemma SchemasReported(s: Registry, sch: string, b: string)
    ensures NoRecordedBucket(sch) in Problems(s) <==> sch in s.schemas && s.schemas[sch].bucket.None?
    ensures InvalidId(sch) in Problems(s) <==> sch in s.schemas && s.schemas[sch].bucket.Some? && !IsSchemaId(sch)
    ensures NotInBucket(sch, b) in Problems(s) <==>
              && sch in s.schemas && s.schemas[sch].bucket == Some(b) && IsSchemaId(sch)
              && Posting(b, sch[4..] + "=" + sch) !in s.index
  {
    hide PostingProblems, SchemaProblems;
    forall o ensures forall x | x in PostingProblems(s, o) :: x.MalformedMember? || x.MissingSchema? {
      PostingReports(s, o, "");
    }
    forall k | k in s.schemas
      ensures forall x | x in SchemaProblems(s, k) ::
                (x.NoRecordedBucket? || x.InvalidId? || x.NotInBucket?) && x.sch == k
    {
      SchemaReports(s, k, "");
    }
    if sch in s.schemas {
      SchemaReports(s, sch, b);
    }
  }

  lemma SplitsOnce(m: string, left: string, right: string, left': string, right': string)
    requires '=' !in left && '=' !in left' && m == left + "=" + right == left' + "=" + right'
    ensures '=' in m && right == right'
  {
    SplitJoined(left, right);
    SplitJoined(left', right');
    assert m[|left|] == '=';
  }

  /** The check is silent exactly when every scanned member names a stored schema and every stored
      schema is filed, under a valid id, in the bucket it records. */
  lemma SilentExactly(s: Registry)
    ensures Problems(s) == {} <==>
      && (forall p | p in s.index && "deblob:index:" <= p.bucket ::
            exists left, sch :: '=' !in left && p.member == left + "=" + sch && sch in s.schemas)
      && (forall sch | sch in s.schemas ::
            && IsSchemaId(sch) && s.schemas[sch].bucket.Some?
            && Posting(s.schemas[sch].bucket.value, sch[4..] + "=" + sch) in s.index)
  {
    if Problems(s) == {} {
      forall p | p in s.index && "deblob:index:" <= p.bucket
        ensures exists left, sch :: '=' !in left && p.member == left + "=" + sch && sch in s.schemas
      {
        NoProblem(s, p);
      }
      forall sch | sch in s.schemas
        ensures && IsSchemaId(sch) && s.schemas[sch].bucket.Some?
                && Posting(s.schemas[sch].bucket.value, sch[4..] + "=" + sch) in s.index
      {
        SchemasReported(s, sch, if s.schemas[sch].bucket.Some? then s.schemas[sch].bucket.value else "");
      }
    } else {
      var x :| x in Problems(s);
      hide Problems;
      match x
      case MalformedMember(p) => PostingsReported(s, p, "");
      case MissingSchema(p, sch) =>
        PostingsReported(s, p, sch);
        var left :| '=' !in left && p.member == left + "=" + sch;
        if l, k :| '=' !in l && p.member == l + "=" + k && k in s.schemas {
          SplitsOnce(p.member, left, sch, l, k);
        }
      case NoRecordedBucket(sch) => SchemasReported(s, sch, "");
      case InvalidId(sch) => SchemasReported(s, sch, "");
      case NotInBucket(sch, b) => SchemasReported(s, sch, b);
    }
  }

  lemma NoProblem(s: Registry, p: Posting)
    requires Problems(s) == {} && p in s.index && "deblob:index:" <= p.bucket
    ensures exists left, sch :: '=' !in left && p.member == left + "=" + sch && sch in s.schemas
  {
    hide Problems;
    PostingsReported(s, p, "");
    var i := FirstIndex(p.member, '=');
    var left, sch := p.member[..i], p.member[i + 1..];
    assert p.member == left + "=" + sch;
    PostingsReported(s, p, sch);
  }

  // ---- rebuild ----

  lemma PostingsInRebuilt(schemas: map<string, SchemaHash>, sch: string)
    requires sch in schemas
    ensures PostingsOf(sch, schemas[sch]) <= Rebuilt(schemas)
  {
    hide PostingsOf;
  }

  /** Rebuilding from the records alone yields at most what publishing maintained. */
  lemma RebuildIncluded(s: Registry)
    requires Inv(s)
    ensures Rebuild(s).index <= s.index
  {
    hide PostingsOf;
    forall p | p in Rebuilt(s.schemas) ensures p in s.index {
      var sch :| sch in s.schemas && p in PostingsOf(sch, s.schemas[sch]);
      assert SchemaInv(s, sch);
    }
  }

  /** In a state that meets the invariant the sweeps miss nothing. */
  lemma NothingForeign(s: Registry)
    requires Inv(s)
    ensures Foreign(s.index) == {} && Rebuild(s).index == Rebuilt(s.schemas)
  {
    hide FamilyInv, SchemaInv, Owner, InIndex, Rebuilt;
    forall p | p in s.index ensures InIndex(p.bucket) {
      assert PostingInv(s, p);
    }
  }

  /** In any store a rebuild keeps what is not scanned and files each record with a bucket under its own
      id there and under each recorded variant's bucket and fingerprint. */
  lemma RebuildFiles(s: Registry, p: Posting)
    requires forall sch | sch in s.schemas :: IsSchemaId(sch)
    ensures p in Rebuild(s).index <==>
      || (p in s.index && !("deblob:index:" <= p.bucket))
      || exists sch | sch in s.schemas && IsSchemaId(sch) && s.schemas[sch].bucket.Some? ::
           || p == Posting(s.schemas[sch].bucket.value, sch[4..] + "=" + sch)
           || (s.schemas[sch].variants.Some? && '=' !in p.bucket && exists fp: string ::
                 p.bucket + "=" + fp in s.schemas[sch].variants.value && p.member == fp + "=" + sch)
  {
    forall sch | sch in s.schemas && IsSchemaId(sch)
      ensures |sch| == 56
      ensures p in PostingsOf(sch, s.schemas[sch]) <==>
        s.schemas[sch].bucket.Some? &&
        (|| p == Posting(s.schemas[sch].bucket.value, sch[4..] + "=" + sch)
         || (s.schemas[sch].variants.Some? && '=' !in p.bucket && exists fp: string ::
               p.bucket + "=" + fp in s.schemas[sch].variants.value && p.member == fp + "=" + sch))
    {
      OwnMemberIs(sch);
      RecordFiles(s.schemas[sch], sch, p);
    }
    hide PostingsOf;
  }

  lemma RecordFiles(h: SchemaHash, sch: string, p: Posting)
    requires IsSchemaId(sch)
    ensures p in PostingsOf(sch, h) <==>
      h.bucket.Some? &&
      (|| p == Posting(h.bucket.value, sch[4..] + "=" + sch)
       || (h.variants.Some? && '=' !in p.bucket && exists fp: string ::
             p.bucket + "=" + fp in h.variants.value && p.member == fp + "=" + sch))
  {
    OwnMemberIs(sch);
    hide IsSchemaId, BucketMember;
    if h.bucket.Some? && h.variants.Some? {
      var vs := DecodeVariants(h.variants.value);
      if p in VariantPostings(sch, vs) {
        var v :| v in vs && p == Posting(v.bucket, VariantMember(v.fp, sch));
        Decoded(h.variants.value, v);
      }
      forall fp: string | '=' !in p.bucket && p.bucket + "=" + fp in h.variants.value && p.member == fp + "=" + sch
        ensures p in VariantPostings(sch, vs)
      {
        Decoded(h.variants.value, Variant(p.bucket, fp));
        assert Variant(p.bucket, fp) in vs;
      }
    }
  }

  lemma RebuildKeepsSchema(s: Registry, sch: string)
    requires Inv(s) && sch in s.schemas
    ensures SchemaInv(Rebuild(s), sch)
  {
    hide PostingsOf, IsSchemaId, Owner, Rebuilt, FamilyInv, PostingInv, Foreign;
    assert SchemaInv(s, sch);
    PostingsInRebuilt(s.schemas, sch);
  }

  lemma RebuildKeepsFamily(s: Registry, f: string)
    requires Inv(s) && f in s.families
    ensures FamilyInv(Rebuild(s), f)
  {
    hide SchemaInv, PostingInv, Rebuilt, Foreign;
    assert FamilyInv(s, f);
    SameFamily(s, Rebuild(s), f);
  }

  lemma RebuildKeepsPosting(s: Registry, p: Posting)
    requires Inv(s) && p in Rebuild(s).index
    ensures PostingInv(Rebuild(s), p)
  {
    RebuildIncluded(s);
    hide SchemaInv, FamilyInv, Owner, InIndex, Rebuilt, Foreign;
    assert PostingInv(s, p);
  }

  lemma RebuildKeepsInv(s: Registry)
    requires Inv(s)
    ensures Inv(Rebuild(s))
  {
    hide FamilyInv, SchemaInv, PostingInv, Rebuilt, Foreign;
    var s' := Rebuild(s);
    forall sch | sch in s'.schemas ensures SchemaInv(s', sch) {
      RebuildKeepsSchema(s, sch);
    }
    forall f | f in s'.families ensures FamilyInv(s', f) {
      RebuildKeepsFamily(s, f);
    }
    forall p | p in s'.index ensures PostingInv(s', p) {
      RebuildKeepsPosting(s, p);
    }
  }

  lemma SoundPosting(s: Registry, p: Posting)
    ensures PostingInv(s, p) ==> PostingProblems(s, p) == {}
  {
    hide SplitOnce;
  }

  lemma SoundSchema(s: Registry, sch: string)
    requires sch in s.schemas
    ensures SchemaInv(s, sch) ==> SchemaProblems(s, sch) == {}
  {
    hide IsSchemaId, BucketMember, VariantPostings, DecodeVariants;
  }

  /** `verify_index` reports nothing. */
  lemma NothingToReport(s: Registry)
    requires Inv(s)
    ensures Problems(s) == {}
  {
    hide FamilyInv, SchemaInv, PostingInv, PostingProblems, SchemaProblems;
    forall p | p in s.index ensures PostingProblems(s, p) == {} {
      SoundPosting(s, p);
    }
    forall sch | sch in s.schemas ensures SchemaProblems(s, sch) == {} {
      SoundSchema(s, sch);
    }
  }

  // ---- when rebuilding loses nothing ----

  /** A publish that leaves the record accounting for everything this schema ever indexed. */
  predicate Fullest(s: Registry, q: PublishRequest) {
    q.schemaId in s.schemas ==>
      var h := s.schemas[q.schemaId];
      && (h.bucket == Some(q.bucket) || Variant(q.bucket, Body(q.schemaId)) in q.variants)
      && (h.variants.Some? ==> forall v | v in DecodeVariants(h.variants.value) ::
            v in q.variants || (h.bucket == Some(v.bucket) && v.fp == Body(q.schemaId)))
  }

  /** Whose posting it is can be read off its member. */
  lemma OwnPosting(sch: string, vs: seq<Variant>, b: string, fp: string)
    ensures Posting(b, VariantMember(fp, sch)) in VariantPostings(sch, vs) <==> Variant(b, fp) in vs
  {
    forall fp' | VariantMember(fp', sch) == VariantMember(fp, sch) ensures fp' == fp {
      var m, m' := VariantMember(fp, sch), VariantMember(fp', sch);
      assert |fp| == |fp'| && m[..|fp|] == fp && m'[..|fp'|] == fp';
    }
    if Posting(b, VariantMember(fp, sch)) in VariantPostings(sch, vs) {
      var v :| v in vs && Posting(b, VariantMember(fp, sch)) == Posting(v.bucket, VariantMember(v.fp, sch));
      assert v == Variant(b, fp);
    }
  }

  lemma OwnVariants(sch: string, vs: seq<Variant>, ws: seq<Variant>, b: string)
    ensures VariantPostings(sch, vs) <= {Posting(b, BucketMember(sch))} + VariantPostings(sch, ws)
       <==> forall v | v in vs :: v in ws || (v.bucket == b && v.fp == Body(sch))
  {
    hide VariantPostings;
    forall v | v in vs ensures Posting(v.bucket, VariantMember(v.fp, sch)) in VariantPostings(sch, vs) {
      OwnPosting(sch, vs, v.bucket, v.fp);
      assert v == Variant(v.bucket, v.fp);
    }
    forall v: Variant
      ensures Posting(v.bucket, VariantMember(v.fp, sch)) in {Posting(b, BucketMember(sch))} + VariantPostings(sch, ws)
         <==> v in ws || (v.bucket == b && v.fp == Body(sch))
    {
      OwnPosting(sch, ws, v.bucket, v.fp);
      assert v == Variant(v.bucket, v.fp);
      OwnPosting(sch, [Variant(b, Body(sch))], v.bucket, v.fp);
      OwnMember(sch, b);
    }
    VariantPostingsOnly(sch, vs);
  }

  lemma OwnMember(sch: string, b: string)
    ensures VariantPostings(sch, [Variant(b, Body(sch))]) == {Posting(b, BucketMember(sch))}
  {
    assert Variant(b, Body(sch)) in [Variant(b, Body(sch))];
  }

  lemma VariantPostingsOnly(sch: string, vs: seq<Variant>)
    ensures forall p | p in VariantPostings(sch, vs) :: exists v ::
      v in vs && p == Posting(v.bucket, VariantMember(v.fp, sch))
  {
  }

  /** The record of a republished schema accounts for its postings exactly when the publish was a fullest one. */
  lemma FullestExactly(s: Registry, q: PublishRequest)
    requires Inv(s) && WellMade(q) && !Clashes(s, q) && q.schemaId in s.schemas
    ensures Added(q) + PostingsOf(q.schemaId, s.schemas[q.schemaId]) <= PostingsOf(q.schemaId, HashAfter(s, q)) <==>
      Fullest(s, q)
  {
    hide VariantPostings, BucketMember, EncodeVariants, Owner, IsSchemaId, PostingsOf, FamilyInv, PostingInv,
      DecodeVariants, WellMade;
    HashPostings(s, q);
    assert SchemaInv(s, q.schemaId);
    var h := s.schemas[q.schemaId];
    TwoParts(q.schemaId, h);
    TwoParts(q.schemaId, HashAfter(s, q));
    OwnVariants(q.schemaId, DecodeVariants(h.variants.value), q.variants, h.bucket.value);
    OwnVariants(q.schemaId, [Variant(q.bucket, Body(q.schemaId))], q.variants, h.bucket.value);
    OwnMember(q.schemaId, q.bucket);
    assert Variant(q.bucket, Body(q.schemaId)) in [Variant(q.bucket, Body(q.schemaId))];
  }

  /** Index and postings before and after a publish, seen as sets: `own`, `added` and `now` are the
      published schema's, `rest` all others'. */
  lemma SetsAgree(sch: string, before: set<Posting>, rest: set<Posting>, own: set<Posting>, added: set<Posting>,
                  now: set<Posting>, after: set<Posting>)
    requires forall p | p in rest :: Owner(p) != Some(sch)
    requires forall p | p in own || p in added || p in now :: Owner(p) == Some(sch)
    requires before == rest + own && after == rest + now && now <= own + added
    ensures before + added == after <==> added + own <= now
  {
    hide Owner;
    if added + own <= now {
      assert before + added == after;
    }
    if before + added == after {
      forall p | p in added + own ensures p in now {
        assert p in after;
      }
    }
  }

  /** The postings of the other schemas. */
  function OthersOf(schemas: map<string, SchemaHash>, sch: string): set<Posting> {
    Rebuilt(map k | k in schemas && k != sch :: schemas[k])
  }

  lemma SplitRebuilt(schemas: map<string, SchemaHash>, sch: string)
    ensures Rebuilt(schemas) == OthersOf(schemas, sch) + if sch in schemas then PostingsOf(sch, schemas[sch]) else {}
  {
    hide PostingsOf;
    var others := map k | k in schemas && k != sch :: schemas[k];
    forall p | p in Rebuilt(schemas)
      ensures p in OthersOf(schemas, sch) || (sch in schemas && p in PostingsOf(sch, schemas[sch])) {
      var k :| k in schemas && p in PostingsOf(k, schemas[k]);
      if k != sch {
        assert k in others && p in PostingsOf(k, others[k]);
      }
    }
    forall p | p in OthersOf(schemas, sch) ensures p in Rebuilt(schemas) {
      var k :| k in others && p in PostingsOf(k, others[k]);
      assert k in schemas && p in PostingsOf(k, schemas[k]);
    }
  }

  lemma OthersForeign(s: Registry, sch: string)
    requires Inv(s)
    ensures forall p | p in OthersOf(s.schemas, sch) :: Owner(p) != Some(sch)
  {
    hide PostingsOf, Owner, FamilyInv, SchemaInv, PostingInv;
    OwnersOwn(s);
    forall p | p in OthersOf(s.schemas, sch) ensures Owner(p) != Some(sch) {
      var k :| k in s.schemas && k != sch && p in PostingsOf(k, s.schemas[k]);
    }
  }

  /** A publish keeps the index equal to what the records give back exactly when it is a fullest one. */
  lemma RebuildExactly(s: Registry, q: PublishRequest)
    requires Inv(s) && WellMade(q) && s.index == Rebuilt(s.schemas) && Publish(s, q).1.Published?
    ensures Publish(s, q).0.index == Rebuilt(Publish(s, q).0.schemas) <==> Fullest(s, q)
  {
    hide *;
    AfterIndex(s, q);
    var after := Publish(s, q).0.schemas;
    var sch := q.schemaId;
    var own := if sch in s.schemas then PostingsOf(sch, s.schemas[sch]) else {};
    var now := PostingsOf(sch, HashAfter(s, q));
    SplitRebuilt(s.schemas, sch);
    SplitRebuilt(after, sch);
    OthersForeign(s, sch);
    OwnPostings(s, q);
    NowWithin(s, q);
    SetsAgree(sch, s.index, OthersOf(s.schemas, sch), own, Added(q), now, Rebuilt(after));
    if sch in s.schemas {
      FullestExactly(s, q);
    } else {
      FreshPostings(s, q);
    }
  }

  lemma AfterIndex(s: Registry, q: PublishRequest)
    requires Publish(s, q).1.Published?
    ensures !Clashes(s, q) && !AliasTaken(s, q)
    ensures var s' := Publish(s, q).0;
      && s'.index == s.index + Added(q) && q.schemaId in s'.schemas && s'.schemas[q.schemaId] == HashAfter(s, q)
      && OthersOf(s'.schemas, q.schemaId) == OthersOf(s.schemas, q.schemaId)
  {
    hide Rebuilt, Added, HashAfter, FamilyAfter, VersionFor, Clashes, AliasTaken;
    var s' := Publish(s, q).0;
    assert (map k | k in s'.schemas && k != q.schemaId :: s'.schemas[k])
      == (map k | k in s.schemas && k != q.schemaId :: s.schemas[k]);
  }

  /** All of these name the published schema. */
  lemma OwnPostings(s: Registry, q: PublishRequest)
    requires Inv(s) && WellMade(q) && !Clashes(s, q)
    ensures forall p | p in Added(q) || p in PostingsOf(q.schemaId, HashAfter(s, q)) :: Owner(p) == Some(q.schemaId)
    ensures q.schemaId in s.schemas ==>
      forall p | p in PostingsOf(q.schemaId, s.schemas[q.schemaId]) :: Owner(p) == Some(q.schemaId)
  {
    hide PostingsOf, FamilyInv, WellMade, HashAfter, Owner, BucketMember, VariantPostings, SchemaInv, PostingInv;
    OwnersOwn(s);
    HashPostings(s, q);
    forall p | p in Added(q) ensures Owner(p) == Some(q.schemaId) {
      OwnerIs(q, p);
    }
  }

  /** The new record names nothing beyond what was there and what was added. */
  lemma NowWithin(s: Registry, q: PublishRequest)
    requires Inv(s) && WellMade(q) && !Clashes(s, q)
    ensures var own := if q.schemaId in s.schemas then PostingsOf(q.schemaId, s.schemas[q.schemaId]) else {};
      PostingsOf(q.schemaId, HashAfter(s, q)) <= own + Added(q)
  {
    hide BucketMember, EncodeVariants, Owner, IsSchemaId, FamilyInv, PostingInv, DecodeVariants, WellMade,
      VariantPostings, PostingsOf;
    HashPostings(s, q);
    TwoParts(q.schemaId, HashAfter(s, q));
    if q.schemaId in s.schemas {
      assert SchemaInv(s, q.schemaId);
      TwoParts(q.schemaId, s.schemas[q.schemaId]);
    }
  }

  lemma FreshPostings(s: Registry, q: PublishRequest)
    requires Inv(s) && WellMade(q) && q.schemaId !in s.schemas
    ensures PostingsOf(q.schemaId, HashAfter(s, q)) == Added(q) && Fullest(s, q)
  {
    hide VariantPostings, BucketMember, EncodeVariants, Owner, IsSchemaId;
    HashPostings(s, q);
  }

  lemma OwnersOwn(s: Registry)
    requires Inv(s)
    ensures forall sch, p | sch in s.schemas && p in PostingsOf(sch, s.schemas[sch]) :: Owner(p) == Some(sch)
  {
    hide PostingsOf, FamilyInv, Owner, IsSchemaId;
    forall sch | sch in s.schemas ensures forall p | p in PostingsOf(sch, s.schemas[sch]) :: Owner(p) == Some(sch) {
      assert SchemaInv(s, sch);
    }
  }
}
