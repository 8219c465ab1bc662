/** The vault as an object: each script and each maintenance sweep as one method. */
module Vault {
  import opened Options
  import opened Members
  import opened Publication
  import opened StructuralIndex
  import opened VaultRuns
  import A = Annotations

  datatype Resolution = Hit(id: string) | Miss | Corrupt(member: string)

  class RedisVault {
    var schemas: map<string, SchemaHash>
    var families: map<string, Publication.Family>
    var aliases: map<string, string>
    var published: map<string, nat>
    var listing: set<string>
    var index: set<Posting>
    var active: map<string, A.Active>
    var revisions: map<A.RevisionKey, A.Revision>
    var semIndex: set<A.Link>
    var semSig: set<A.Link>
    var annotated: set<string>
    var audit: seq<AuditEvent>

    function Contents(): Store
      reads this
    {
      Store(Registry(schemas, families, aliases, published, listing, index),
            A.Annotations(active, revisions, semIndex, semSig, annotated), audit)
    }

    constructor ()
      ensures Contents() == EMPTY_STORE
    {
      schemas, families, aliases, published, listing, index := map[], map[], map[], map[], {}, {};
      active, revisions, semIndex, semSig, annotated := map[], map[], {}, {}, {};
      audit := [];
    }

    /** `PUBLISH_SCRIPT`. */
    method Publish(q: PublishRequest) returns (r: PublishResult)
      modifies this
      ensures Contents() == PublishStore(old(Contents()), q).0
      ensures r == PublishStore(old(Contents()), q).1
    {
      hide Added, VersionFor, HashAfter, FamilyAfter;
      if q.schemaId in schemas {
        var h := schemas[q.schemaId];
        if h.canonical != q.canonical || h.canonicalizer != q.canonicalizer {
          return Refused(Immutability);
        }
      }
      if q.candidateId in aliases && aliases[q.candidateId] != q.schemaId {
        return Refused(AliasConflict);
      }
      var version := WriteAll(q);
      return Published(version);
    }

    /** Everything a granted publish writes. */
    method WriteAll(q: PublishRequest) returns (version: nat)
      requires !Clashes(Contents().registry, q) && !AliasTaken(Contents().registry, q)
      modifies `schemas, `families, `aliases, `published, `listing, `index, `audit
      ensures Contents().registry == Publication.Publish(old(Contents()).registry, q).0
      ensures version == VersionFor(old(Contents()).registry, q)
      ensures audit == old(audit) + [PublishEvent(q)]
    {
      hide Added, VersionFor, HashAfter, FamilyAfter, Clashes, Publication.Publish;
      ghost var before := Contents().registry;
      Granted(before, q);
      version := AllocateVersion(q);
      RecordSchema(q, version, before);
      if q.candidateId !in aliases {
        aliases := aliases[q.candidateId := q.schemaId];
      } else {
        KnownAlias(before, q);
      }
      hide AliasTaken;
      IndexMembers(q);
      listing := listing + {q.schemaId};
      audit := audit + [AuditEvent(q.actor, q.reason, q.schemaId, None, q.nowMs)];
    }

    /** The version of a first publish comes from the family's counter, of a later one from the marker. */
    method AllocateVersion(q: PublishRequest) returns (version: nat)
      modifies `families, `published
      ensures var s := old(Contents()).registry;
        && version == VersionFor(s, q) && published == s.published[q.schemaId := version]
        && families == if q.schemaId in s.published then s.families
                       else s.families[q.familyId := FamilyAfter(s.families, q.familyId, q.schemaId)]
    {
      if q.schemaId in published {
        version := published[q.schemaId];
      } else {
        var g := if q.familyId in families then families[q.familyId] else Publication.Family(q.familyId, 0, map[]);
        version := g.nextVersion + 1;
        g := g.(nextVersion := version, versions := g.versions[version := q.schemaId], familyId := q.familyId);
        families := families[q.familyId := g];
        published := published[q.schemaId := version];
      }
    }

    /** The record is written once, its variants field every time. */
    method RecordSchema(q: PublishRequest, version: nat, ghost before: Registry)
      requires before.schemas == schemas && version == VersionFor(before, q)
      modifies `schemas
      ensures schemas == before.schemas[q.schemaId := HashAfter(before, q)]
    {
      hide VersionFor, EncodeVariants;
      if q.schemaId !in schemas {
        schemas := schemas[q.schemaId :=
          SchemaHash(q.record, q.canonical, q.canonicalizer, q.familyId, version, Some(q.bucket), None)];
      }
      schemas := schemas[q.schemaId := schemas[q.schemaId].(variants := Some(EncodeVariants(q.variants)))];
    }

    /** The schema's own member into its bucket, then each variant's into its own. */
    method IndexMembers(q: PublishRequest)
      modifies `index
      ensures index == old(index) + Added(q)
    {
      index := index + {Posting(q.bucket, BucketMember(q.schemaId))};
      ghost var own := index;
      for i := 0 to |q.variants|
        invariant index == own + VariantPostings(q.schemaId, q.variants[..i])
      {
        VariantsSnoc(q.schemaId, q.variants, i);
        var v := q.variants[i];
        index := index + {Posting(v.bucket, VariantMember(v.fp, q.schemaId))};
      }
      assert q.variants[..|q.variants|] == q.variants;
      AddedIs(q);
    }

    /** `SEM_APPEND_SCRIPT`, with the feature keys its caller computed. */
    method AppendRevision(a: A.AppendRequest, sig: A.Signature) returns (r: A.AppendResult)
      modifies this
      ensures Contents() == AppendStore(old(Contents()), a, sig).0
      ensures r == AppendStore(old(Contents()), a, sig).1
    {
      hide A.Links;
      var etag: nat := 0;
      var previous := "";
      var oldFeatures := [];
      if a.sch in active {
        var cur := active[a.sch];
        etag := cur.etag;
        previous := cur.revisionId;
        if cur.features.Some? {
          oldFeatures := cur.features.value;
        }
        var key := A.RevisionKey(a.sch, cur.revisionId);
        if key in revisions && revisions[key].bytes == a.bytes {
          return A.AlreadyActive(cur.revisionId, cur.semId, etag);
        }
      }
      if a.reason == "" {
        return A.MissingReason;
      }
      var expected := if a.expected.None? then 0 else a.expected.value;
      if expected != etag {
        return A.EtagConflict(etag);
      }
      WriteRevision(a, previous, etag, oldFeatures, sig);
      return A.Appended(a.newRevision, a.semId, etag + 1);
    }

    /** Everything a granted append writes. */
    method WriteRevision(a: A.AppendRequest, previous: string, etag: nat, oldFeatures: seq<string>, sig: A.Signature)
      requires A.Grants(Contents().notes, a) && etag == A.CurrentEtag(Contents().notes, a.sch)
      requires previous == A.NewRevision(Contents().notes, a).previous
      requires oldFeatures == A.OldFeatures(Contents().notes, a.sch)
      modifies `active, `revisions, `semIndex, `semSig, `annotated, `audit
      ensures Contents().notes == A.Append(old(Contents()).notes, a, sig).0
      ensures audit == old(audit) + [AppendEvent(a)]
    {
      hide A.Replays, A.OldFeatures, A.CurrentEtag, A.Links, A.Unlinked;
      ghost var before := Contents().notes;
      Relink(a);
      revisions := revisions[A.RevisionKey(a.sch, a.newRevision) :=
        A.Revision(a.semId, a.bytes, a.metadata, previous, a.actor, a.reasonCode, a.reason, a.recordedAt,
          a.effectiveFrom)];
      assert revisions == before.revisions[A.RevisionKey(a.sch, a.newRevision) := A.NewRevision(before, a)];
      hide A.NewRevision;
      annotated := annotated + {a.sch};
      SwapPostings(a.sch, oldFeatures, sig(a.metadata));
      active := active[a.sch := A.Active(a.newRevision, a.semId, etag + 1, Some(sig(a.metadata)))];
      audit := audit + [AuditEvent(a.actor, a.reason, a.sch, Some(a.semId), a.recordedAt)];
    }

    /** Out of the old assertion's reverse-index set, if it is another one, and into the new one's. */
    method Relink(a: A.AppendRequest)
      modifies `semIndex
      ensures semIndex == A.Unlinked(old(Contents()).notes, a) + {A.Link(a.semId, a.sch)}
    {
      if a.sch in active && active[a.sch].semId != a.semId {
        semIndex := semIndex - {A.Link(active[a.sch].semId, a.sch)};
      }
      semIndex := semIndex + {A.Link(a.semId, a.sch)};
    }

    /** The old features' postings out, then the new features' in. */
    method SwapPostings(sch: string, oldFeatures: seq<string>, newFeatures: seq<string>)
      modifies `semSig
      ensures semSig == old(semSig) - A.Links(oldFeatures, sch) + A.Links(newFeatures, sch)
    {
      for i := 0 to |oldFeatures|
        invariant semSig == old(semSig) - A.Links(oldFeatures[..i], sch)
      {
        LinksSnoc(oldFeatures, i, sch);
        semSig := semSig - {A.Link(oldFeatures[i], sch)};
      }
      assert oldFeatures[..|oldFeatures|] == oldFeatures;
      ghost var removed := semSig;
      for i := 0 to |newFeatures|
        invariant semSig == removed + A.Links(newFeatures[..i], sch)
      {
        LinksSnoc(newFeatures, i, sch);
        semSig := semSig + {A.Link(newFeatures[i], sch)};
      }
      assert newFeatures[..|newFeatures|] == newFeatures;
    }

    /** `SEM_IDF_STATS_SCRIPT`: the population, then each requested document frequency. */
    method IdfStats(features: seq<string>) returns (out: seq<nat>)
      ensures |out| == |features| + 1 && out[0] == |annotated|
      ensures forall i | 0 <= i < |features| :: out[i + 1] == A.Frequency(Contents().notes, features[i])
    {
      out := [|annotated|];
      for i := 0 to |features|
        invariant |out| == i + 1 && out[0] == |annotated|
        invariant forall j | 0 <= j < i :: out[j + 1] == A.Frequency(Contents().notes, features[j])
      {
        var posting := set l | l in semSig && l.key == features[i] :: l.sch;
        out := out + [|posting|];
      }
    }

    /** `rebuild_index` on a quiescent store. None: a schema key is no schema id, and the sweep stopped. */
    method RebuildIndex() returns (count: Option<nat>)
      modifies `index, `listing
      ensures count.Some? <==> IdsOk(schemas, schemas.Keys)
      ensures count.Some? ==> Contents().registry == Rebuild(old(Contents()).registry)
      ensures count.Some? ==> count.value == |set sch | sch in schemas && schemas[sch].bucket.Some?|
    {
      hide PostingsOf, IsSchemaId, IdsOk, Foreign, Rebuilt, Midway;
      ghost var kept := Foreign(index);
      DropIndex();
      listing := {};
      var n := 0;
      var todo := schemas.Keys;
      ghost var done: set<string> := {};
      MidwayStart(schemas, kept);
      while todo != {}
        invariant done + todo == schemas.Keys && done !! todo
        invariant Midway(schemas, kept, done, Progress(listing, index, n))
        decreases todo
      {
        var sch :| sch in todo;
        MovedOver(schemas.Keys, done, todo, sch);
        MidwayMore(schemas, kept, done, Progress(listing, index, n), sch);
        listing := listing + {sch};
        if schemas[sch].bucket.Some? {
          if !IsSchemaId(sch) {
            BadId(schemas, sch);
            return None;
          }
          RestoreRecord(sch);
          n := n + 1;
        }
        todo, done := todo - {sch}, done + {sch};
      }
      assert done == schemas.Keys;
      MidwayEnd(schemas, kept, Progress(listing, index, n));
      count := Some(n);
    }

    /** Deletes every key under `deblob:index:`. */
    method DropIndex()
      modifies `index
      ensures index == Foreign(old(index))
    {
      index := set p | p in index && !InIndex(p.bucket);
    }

    /** The schema's own member into its recorded bucket, then each recorded variant into its own. */
    method RestoreRecord(sch: string)
      requires sch in schemas && schemas[sch].bucket.Some?
      modifies `index
      ensures index == old(index) + PostingsOf(sch, schemas[sch])
    {
      hide DecodeVariants, BucketMember, VariantMember, VariantPostings;
      index := index + {Posting(schemas[sch].bucket.value, BucketMember(sch))};
      if schemas[sch].variants.Some? {
        RestoreVariants(sch, DecodeVariants(schemas[sch].variants.value));
      }
    }

    method RestoreVariants(sch: string, vs: seq<Variant>)
      modifies `index
      ensures index == old(index) + VariantPostings(sch, vs)
    {
      hide VariantMember;
      for i := 0 to |vs|
        invariant index == old(index) + VariantPostings(sch, vs[..i])
      {
        VariantsSnoc(sch, vs, i);
        index := index + {Posting(vs[i].bucket, VariantMember(vs[i].fp, sch))};
      }
      assert vs[..|vs|] == vs;
    }

    /** `rebuild_semantic_index` on a quiescent store: drops what is derived, then goes by the active pointers. */
    method RebuildSemanticIndex(sig: A.Signature) returns (count: nat)
      modifies `active, `semIndex, `semSig, `annotated
      ensures Contents().notes == A.Rebuild(old(Contents()).notes, sig)
      ensures count == |active|
    {
      hide A.Rebuild, Restored, Halfway;
      ghost var before := Contents().notes;
      semIndex, semSig, annotated := {}, {}, {};
      RestoredNone(before, sig);
      var n, todo := 0, active.Keys;
      AtStart(active.Keys);
      while todo != {}
        invariant active.Keys == before.active.Keys && Halfway(active.Keys, annotated, todo, n)
        invariant revisions == before.revisions && Restored(before, sig, Contents().notes)
        decreases todo
      {
        var sch :| sch in todo;
        OneMoved(active.Keys, annotated, todo, n, sch);
        RestoreNote(sch, sig, before);
        n, todo := n + 1, todo - {sch};
      }
      AtEnd(active.Keys, annotated, todo, n);
      RestoredAll(before, sig, Contents().notes);
      count := n;
    }

    /** What one active pointer and its revision give back. */
    method RestoreNote(sch: string, sig: A.Signature, ghost before: A.Annotations)
      requires Restored(before, sig, Contents().notes) && revisions == before.revisions
      requires sch in active && sch !in annotated
      modifies `active, `semIndex, `semSig, `annotated
      ensures Restored(before, sig, Contents().notes)
      ensures annotated == old(annotated) + {sch} && active.Keys == old(active).Keys
    {
      ghost var was := Contents().notes;
      assert active[sch] == before.active[sch] && active.Keys == before.active.Keys;
      hide Restored, A.Links;
      semIndex := semIndex + {A.Link(active[sch].semId, sch)};
      annotated := annotated + {sch};
      var key := A.RevisionKey(sch, active[sch].revisionId);
      if key in revisions {
        var features := sig(revisions[key].metadata);
        AddPostings(sch, features);
        active := active[sch := active[sch].(features := Some(features))];
      }
      RestoredOne(before, sig, was, Contents().notes, sch);
    }

    method AddPostings(sch: string, features: seq<string>)
      modifies `semSig
      ensures semSig == old(semSig) + A.Links(features, sch)
    {
      hide A.Links;
      assert features[..0] == [];
      NoLinks(sch);
      for i := 0 to |features|
        invariant semSig == old(semSig) + A.Links(features[..i], sch)
      {
        LinksSnoc(features, i, sch);
        semSig := semSig + {A.Link(features[i], sch)};
      }
      assert features[..|features|] == features;
    }

    /** `verify_index`: every inconsistency, in both directions. */
    method VerifyIndex() returns (problems: seq<Problem>)
      ensures forall x :: x in problems <==> x in Problems(Contents().registry)
      ensures problems == [] <==>
        && (forall p | p in index && "deblob:index:" <= p.bucket ::
              exists left, sch :: '=' !in left && p.member == left + "=" + sch && sch in schemas)
        && (forall sch | sch in schemas ::
              && IsSchemaId(sch) && schemas[sch].bucket.Some?
              && Posting(schemas[sch].bucket.value, sch[4..] + "=" + sch) in index)
    {
      hide SplitOnce, IsSchemaId, BucketMember, InIndex;
      problems := [];
      var s := Contents().registry;
      var scanned := set p | p in index && InIndex(p.bucket);
      assert scanned == index - Foreign(index);
      var postings := scanned;
      while postings != {}
        invariant postings <= scanned
        invariant forall x :: x in problems <==> exists p | p in scanned - postings :: x in PostingProblems(s, p)
        decreases postings
      {
        var p :| p in postings;
        ghost var before := problems;
        ghost var done := scanned - postings;
        postings := postings - {p};
        match SplitOnce(p.member) {
          case None => problems := problems + [MalformedMember(p)];
          case Some(pair) =>
            if pair.1 !in schemas {
              problems := problems + [MissingSchema(p, pair.1)];
            }
        }
        assert forall x :: x in problems <==> x in before || x in PostingProblems(s, p);
        assert scanned - postings == done + {p};
      }
      ghost var first := problems;
      var todo := schemas.Keys;
      while todo != {}
        invariant todo <= schemas.Keys
        invariant forall x :: x in problems <==> x in first || exists sch | sch in schemas.Keys - todo ::
          x in SchemaProblems(s, sch)
        decreases todo
      {
        var sch :| sch in todo;
        ghost var before := problems;
        ghost var done := schemas.Keys - todo;
        todo := todo - {sch};
        match schemas[sch].bucket {
          case None => problems := problems + [NoRecordedBucket(sch)];
          case Some(b) =>
            if !IsSchemaId(sch) {
              problems := problems + [InvalidId(sch)];
            } else if Posting(b, BucketMember(sch)) !in index {
              problems := problems + [NotInBucket(sch, b)];
            }
        }
        assert forall x :: x in problems <==> x in before || x in SchemaProblems(s, sch);
        assert schemas.Keys - todo == done + {sch};
      }
      SilentExactly(s);
      EmptyListing(problems, Problems(s));
    }

    /** `resolve_structural_bucketed`: any member of the bucket filed under the fingerprint. */
    method Resolve(bucket: string, fingerprint: string) returns (r: Resolution)
      requires IsSchemaId(fingerprint)
      ensures r.Hit? ==> IsSchemaId(r.id) && Posting(bucket, VariantMember(Body(fingerprint), r.id)) in index
      ensures r.Miss? <==> forall sch :: Posting(bucket, VariantMember(Body(fingerprint), sch)) !in index
      ensures r.Corrupt? ==>
        exists sch :: Posting(bucket, VariantMember(Body(fingerprint), sch)) in index && !IsSchemaId(sch)
    {
      hide IsSchemaId, BucketMember;
      var fp := Body(fingerprint);
      IdHasNoEquals(fingerprint);
      var todo := set p | p in index && p.bucket == bucket :: p.member;
      while todo != {}
        invariant forall sch :: Posting(bucket, VariantMember(fp, sch)) in index ==> VariantMember(fp, sch) in todo
        invariant forall m | m in todo :: Posting(bucket, m) in index
        decreases todo
      {
        var member :| member in todo;
        todo := todo - {member};
        if fp + "=" <= member {
          var tail := member[|fp| + 1..];
          assert member == VariantMember(fp, tail);
          SplitJoined(fp, tail);
          if IsSchemaId(tail) {
            return Hit(tail);
          }
          return Corrupt(member);
        }
        assert forall sch :: fp + "=" <= VariantMember(fp, sch);
      }
      return Miss;
    }
  }

  lemma EmptyListing<T>(xs: seq<T>, all: set<T>)
    requires forall x :: x in xs <==> x in all
    ensures xs == [] <==> all == {}
  {
    if xs != [] {
      assert xs[0] in xs;
    }
  }

  // ---- one more element ----

  /** The new state of a granted publish, part by part. */
  lemma Granted(s: Registry, q: PublishRequest)
    requires !Clashes(s, q) && !AliasTaken(s, q)
    ensures var (t, r) := Publication.Publish(s, q);
      && r.Published?
      && t.schemas == s.schemas[q.schemaId := HashAfter(s, q)]
      && t.families == (if q.schemaId in s.published then s.families
                        else s.families[q.familyId := FamilyAfter(s.families, q.familyId, q.schemaId)])
      && t.aliases == s.aliases[q.candidateId := q.schemaId]
      && t.published == s.published[q.schemaId := VersionFor(s, q)]
      && t.listing == s.listing + {q.schemaId}
      && t.index == s.index + Added(q)
  {
    hide Added, VersionFor, HashAfter, FamilyAfter;
  }

  lemma KnownAlias(s: Registry, q: PublishRequest)
    requires q.candidateId in s.aliases && !AliasTaken(s, q)
    ensures s.aliases == s.aliases[q.candidateId := q.schemaId]
  {
  }

  lemma VariantsSnoc(sch: string, vs: seq<Variant>, i: nat)
    requires i < |vs|
    ensures VariantPostings(sch, vs[..i + 1])
      == VariantPostings(sch, vs[..i]) + {Posting(vs[i].bucket, VariantMember(vs[i].fp, sch))}
  {
    hide VariantMember;
    assert vs[..i + 1] == vs[..i] + [vs[i]];
  }

  lemma NoLinks(sch: string)
    ensures A.Links([], sch) == {}
  {
  }

  /** The derived state of the schemas visited so far, which are those annotated again. */
  ghost predicate Restored(before: A.Annotations, sig: A.Signature, n: A.Annotations) {
    && n.annotated <= before.active.Keys == n.active.Keys
    && (forall l :: l in n.semIndex <==> l.sch in n.annotated && l.key == before.active[l.sch].semId)
    && (forall l :: l in n.semSig <==> l.sch in n.annotated && l.key in A.ActiveFeatures(before, l.sch, sig))
    && (forall sch | sch in n.active ::
          n.active[sch] ==
            if sch in n.annotated && A.RevisionKey(sch, before.active[sch].revisionId) in before.revisions
            then before.active[sch].(features := Some(A.ActiveFeatures(before, sch, sig))) else before.active[sch])
  }

  lemma RestoredNone(before: A.Annotations, sig: A.Signature)
    ensures Restored(before, sig, before.(semIndex := {}, semSig := {}, annotated := {}))
  {
    hide A.ActiveFeatures;
  }

  lemma RestoredOne(before: A.Annotations, sig: A.Signature, was: A.Annotations, now: A.Annotations, sch: string)
    requires Restored(before, sig, was) && sch in before.active && sch !in was.annotated
    requires now.semIndex == was.semIndex + {A.Link(before.active[sch].semId, sch)}
    requires now.annotated == was.annotated + {sch}
    requires var key := A.RevisionKey(sch, before.active[sch].revisionId);
      if key in before.revisions then
        && now.semSig == was.semSig + A.Links(sig(before.revisions[key].metadata), sch)
        && now.active
           == was.active[sch := was.active[sch].(features := Some(sig(before.revisions[key].metadata)))]
      else now.semSig == was.semSig && now.active == was.active
    ensures Restored(before, sig, now)
  {
    FeaturesOf(before, sig, sch);
    hide A.ActiveFeatures;
  }

  lemma FeaturesOf(s: A.Annotations, sig: A.Signature, sch: string)
    requires sch in s.active
    ensures var key := A.RevisionKey(sch, s.active[sch].revisionId);
      A.ActiveFeatures(s, sch, sig) == if key in s.revisions then sig(s.revisions[key].metadata) else []
  {
  }

  lemma RestoredAll(before: A.Annotations, sig: A.Signature, n: A.Annotations)
    requires Restored(before, sig, n) && n.annotated == before.active.Keys && n.revisions == before.revisions
    ensures n == A.Rebuild(before, sig)
  {
    hide A.ActiveFeatures;
    var t := A.Rebuild(before, sig);
    assert n.active == t.active;
    assert forall l: A.Link :: l in t.semIndex <==> l in n.semIndex by {
      forall l: A.Link ensures l in t.semIndex <==> l in n.semIndex {
        assert l == A.Link(l.key, l.sch);
      }
    }
    assert forall l: A.Link :: l in t.semSig <==> l in n.semSig by {
      forall l: A.Link ensures l in t.semSig <==> l in n.semSig {
        assert l == A.Link(l.key, l.sch);
      }
    }
  }

  lemma LinksSnoc(keys: seq<string>, i: nat, sch: string)
    requires i < |keys|
    ensures A.Links(keys[..i + 1], sch) == A.Links(keys[..i], sch) + {A.Link(keys[i], sch)}
  {
    assert keys[..i + 1] == keys[..i] + [keys[i]];
  }

  function RebuiltFrom(schemas: map<string, SchemaHash>, done: set<string>): set<Posting>
    requires done <= schemas.Keys
  {
    set sch, p | sch in done && p in PostingsOf(sch, schemas[sch]) :: p
  }

  function Bucketed(schemas: map<string, SchemaHash>, done: set<string>): set<string>
    requires done <= schemas.Keys
  {
    set sch | sch in done && schemas[sch].bucket.Some?
  }

  ghost predicate IdsOk(schemas: map<string, SchemaHash>, done: set<string>) {
    forall sch | sch in done && sch in schemas :: schemas[sch].bucket.Some? ==> IsSchemaId(sch)
  }

  lemma BadId(schemas: map<string, SchemaHash>, sch: string)
    requires sch in schemas && schemas[sch].bucket.Some? && !IsSchemaId(sch)
    ensures !IdsOk(schemas, schemas.Keys)
  {
    hide IsSchemaId;
  }

  /** What the rebuild has written so far. */
  datatype Progress = Progress(listing: set<string>, index: set<Posting>, count: nat)

  ghost predicate Midway(schemas: map<string, SchemaHash>, kept: set<Posting>, done: set<string>, g: Progress) {
    && done <= schemas.Keys && g.listing == done && g.index == kept + RebuiltFrom(schemas, done)
    && IdsOk(schemas, done) && g.count == |Bucketed(schemas, done)|
  }

  lemma MidwayStart(schemas: map<string, SchemaHash>, kept: set<Posting>)
    ensures Midway(schemas, kept, {}, Progress({}, kept, 0))
  {
    hide PostingsOf, IsSchemaId;
    assert RebuiltFrom(schemas, {}) == {} && Bucketed(schemas, {}) == {};
  }

  /** One more record. */
  lemma MidwayMore(schemas: map<string, SchemaHash>, kept: set<Posting>, done: set<string>, g: Progress, sch: string)
    requires Midway(schemas, kept, done, g) && sch in schemas && sch !in done
    ensures schemas[sch].bucket.None? ==>
      Midway(schemas, kept, done + {sch}, Progress(g.listing + {sch}, g.index, g.count))
    ensures schemas[sch].bucket.Some? && IsSchemaId(sch) ==>
      Midway(schemas, kept, done + {sch},
        Progress(g.listing + {sch}, g.index + PostingsOf(sch, schemas[sch]), g.count + 1))
  {
    hide IsSchemaId, PostingsOf, RebuiltFrom, Bucketed;
    RebuiltMore(schemas, done, sch, kept);
    BucketedMore(schemas, done, sch);
  }

  lemma RebuiltMore(schemas: map<string, SchemaHash>, done: set<string>, sch: string, kept: set<Posting>)
    requires done <= schemas.Keys && sch in schemas && sch !in done
    ensures kept + RebuiltFrom(schemas, done + {sch})
         == kept + RebuiltFrom(schemas, done) + if schemas[sch].bucket.Some? then PostingsOf(sch, schemas[sch]) else {}
  {
    assert schemas[sch].bucket.None? ==> PostingsOf(sch, schemas[sch]) == {};
    hide PostingsOf;
    var now, before := RebuiltFrom(schemas, done + {sch}), RebuiltFrom(schemas, done);
    assert forall p :: p in now <==> p in before || p in PostingsOf(sch, schemas[sch]);
  }

  lemma BucketedMore(schemas: map<string, SchemaHash>, done: set<string>, sch: string)
    requires done <= schemas.Keys && sch in schemas && sch !in done
    ensures |Bucketed(schemas, done + {sch})| == |Bucketed(schemas, done)| + if schemas[sch].bucket.Some? then 1 else 0
  {
    assert Bucketed(schemas, done + {sch}) == Bucketed(schemas, done) + if schemas[sch].bucket.Some? then {sch} else {};
  }

  lemma MidwayEnd(schemas: map<string, SchemaHash>, kept: set<Posting>, g: Progress)
    requires Midway(schemas, kept, schemas.Keys, g)
    ensures IdsOk(schemas, schemas.Keys) && g.listing == schemas.Keys && g.index == kept + Rebuilt(schemas)
    ensures g.count == |set sch | sch in schemas && schemas[sch].bucket.Some?|
  {
    hide PostingsOf, IsSchemaId;
    assert RebuiltFrom(schemas, schemas.Keys) == Rebuilt(schemas);
    assert Bucketed(schemas, schemas.Keys) == set sch | sch in schemas && schemas[sch].bucket.Some?;
  }

  /** `n` keys are done, the others still to do. */
  predicate Halfway(all: set<string>, done: set<string>, todo: set<string>, n: nat) {
    done + todo == all && done !! todo && n == |done|
  }

  lemma AtStart(all: set<string>)
    ensures Halfway(all, {}, all, 0)
  {
  }

  lemma OneMoved(all: set<string>, done: set<string>, todo: set<string>, n: nat, sch: string)
    requires Halfway(all, done, todo, n) && sch in todo
    ensures Halfway(all, done + {sch}, todo - {sch}, n + 1) && sch in all && sch !in done
  {
    MovedOver(all, done, todo, sch);
  }

  lemma AtEnd(all: set<string>, done: set<string>, todo: set<string>, n: nat)
    requires Halfway(all, done, todo, n) && todo == {}
    ensures done == all && n == |all|
  {
  }

  lemma MovedOver(all: set<string>, done: set<string>, todo: set<string>, sch: string)
    requires done + todo == all && done !! todo && sch in todo
    ensures done + {sch} + (todo - {sch}) == all && done + {sch} !! todo - {sch} && sch in all && sch !in done
  {
  }

  // ---- what resolving finds in a reachable state ----

  /** Every member found names a published schema, so a lookup never meets a corrupt one. */
  lemma MembersAreSchemas(ops: seq<Op>, sig: A.Signature, bucket: string, fingerprint: string, sch: string)
    requires LawfulRun(ops, sig) && IsSchemaId(fingerprint)
    requires Posting(bucket, VariantMember(Body(fingerprint), sch)) in Run(ops, sig).registry.index
    ensures sch in Run(ops, sig).registry.schemas && IsSchemaId(sch)
  {
    hide LawfulRun, Run, A.Inv, FamilyInv, PostingsOf;
    Reachable(ops, sig);
    var s := Run(ops, sig).registry;
    IdHasNoEquals(fingerprint);
    SplitJoined(Body(fingerprint), sch);
    assert PostingInv(s, Posting(bucket, VariantMember(Body(fingerprint), sch)));
    assert SchemaInv(s, sch);
  }
}
