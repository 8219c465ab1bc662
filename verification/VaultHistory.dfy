/** The whole store read off its history: every field of every record, revision, pointer, posting and audit
    event is one that a granted call of the run asked for. */
module VaultHistory {
  import opened Options
  import opened Members
  import opened Publication
  import opened StructuralIndex
  import opened VaultRuns
  import A = Annotations

  // ---- what was granted ----

  /** The granted publishes of a run, in order. */
  ghost function Grants(ops: seq<Op>, sig: A.Signature): seq<PublishRequest> {
    if ops == [] then []
    else
      var n := |ops| - 1;
      Grants(ops[..n], sig) + if GrantedAt(ops, sig, n) then [ops[n].publish] else []
  }

  /** Those of one schema. */
  ghost function GrantsOf(ops: seq<Op>, sig: A.Signature, sch: string): seq<PublishRequest> {
    if ops == [] then []
    else
      var n := |ops| - 1;
      GrantsOf(ops[..n], sig, sch)
      + if GrantedAt(ops, sig, n) && ops[n].publish.schemaId == sch then [ops[n].publish] else []
  }

  /** The granted appends to one schema, in order. */
  ghost function Appends(ops: seq<Op>, sig: A.Signature, sch: string): seq<A.AppendRequest> {
    if ops == [] then []
    else
      var n := |ops| - 1;
      Appends(ops[..n], sig, sch) + if AppendedAt(ops, sig, sch, n) then [ops[n].append] else []
  }

  // ---- records ----

  /** A record holds what its schema's first grant asked for, and the variants of the last. */
  ghost predicate RecordedBy(s: Registry, sch: string, ps: seq<PublishRequest>) {
    && (sch in s.schemas <==> ps != [])
    && (sch in s.listing <==> ps != [])
    && (ps != [] ==>
          var h, first, vs := s.schemas[sch], ps[0], ps[|ps| - 1].variants;
          && h.record == first.record && h.canonical == first.canonical && h.canonicalizer == first.canonicalizer
          && h.family == first.familyId && h.bucket == Some(first.bucket)
          && h.variants.Some? && |h.variants.value| == |vs|
          && forall k | 0 <= k < |vs| :: h.variants.value[k] == vs[k].bucket + "=" + vs[k].fp)
  }

  lemma {:induction false} RecordGranted(s: Registry, q: PublishRequest, sch: string, ps: seq<PublishRequest>)
    requires s.listing == s.schemas.Keys && RecordedBy(s, sch, ps) && Publish(s, q).1.Published?
    ensures RecordedBy(Publish(s, q).0, sch, if q.schemaId == sch then ps + [q] else ps)
    ensures Publish(s, q).0.listing == Publish(s, q).0.schemas.Keys
  {
    hide Added, FamilyAfter, VersionFor, EncodeVariants;
    if q.schemaId == sch {
      var all := ps + [q];
      assert all[|all| - 1] == q && all[0] == if ps == [] then q else ps[0];
    }
  }

  lemma {:induction false} RecordKept(s: Store, op: Op, sig: A.Signature, sch: string, ps: seq<PublishRequest>)
    requires s.registry.listing == s.registry.schemas.Keys && RecordedBy(s.registry, sch, ps)
    requires op.PublishOp? ==> !Publish(s.registry, op.publish).1.Published?
    ensures RecordedBy(Apply(s, op, sig).registry, sch, ps)
    ensures Apply(s, op, sig).registry.listing == Apply(s, op, sig).registry.schemas.Keys
  {
    hide Added, FamilyAfter, VersionFor, HashAfter, Rebuilt, Foreign, A.Append, A.Rebuild;
  }

  lemma GrantApplied(s: Store, q: PublishRequest, sig: A.Signature)
    ensures Apply(s, PublishOp(q), sig).registry == Publish(s.registry, q).0
  {
    hide Publish;
  }

  /** Over any run a schema has a record exactly when a publish of it was granted; the record is what the
      first of them asked for, under the variants of the last. */
  lemma {:induction false} RecordsByHistory(ops: seq<Op>, sig: A.Signature, sch: string)
    ensures RecordedBy(Run(ops, sig).registry, sch, GrantsOf(ops, sig, sch))
    ensures Run(ops, sig).registry.listing == Run(ops, sig).registry.schemas.Keys
    decreases |ops|
  {
    hide RecordedBy, Apply, Publish;
    if ops == [] {
      NothingRecorded(sch);
    } else {
      var n := |ops| - 1;
      RecordsByHistory(ops[..n], sig, sch);
      var before, ps := Run(ops[..n], sig), GrantsOf(ops[..n], sig, sch);
      assert ps + [] == ps;
      if GrantedAt(ops, sig, n) {
        RecordGranted(before.registry, ops[n].publish, sch, ps);
        GrantApplied(before, ops[n].publish, sig);
      } else {
        RecordKept(before, ops[n], sig, sch, ps);
      }
    }
  }

  lemma NothingRecorded(sch: string)
    ensures RecordedBy(EMPTY_STORE.registry, sch, [])
    ensures EMPTY_STORE.registry.listing == EMPTY_STORE.registry.schemas.Keys
  {
  }

  // ---- aliases ----

  ghost predicate AliasedBy(s: Registry, qs: seq<PublishRequest>) {
    && (forall c | c in s.aliases :: exists k | 0 <= k < |qs| :: qs[k].candidateId == c)
    && (forall k | 0 <= k < |qs| :: qs[k].candidateId in s.aliases && s.aliases[qs[k].candidateId] == qs[k].schemaId)
  }

  lemma {:induction false} AliasGranted(s: Registry, q: PublishRequest, qs: seq<PublishRequest>)
    requires AliasedBy(s, qs) && Publish(s, q).1.Published?
    ensures AliasedBy(Publish(s, q).0, qs + [q])
  {
    hide Added, FamilyAfter, VersionFor, HashAfter;
    var all, t := qs + [q], Publish(s, q).0;
    forall c | c in t.aliases ensures exists k | 0 <= k < |all| :: all[k].candidateId == c {
      if c in s.aliases {
        var k :| 0 <= k < |qs| && qs[k].candidateId == c;
        assert all[k].candidateId == c;
      } else {
        assert all[|qs|].candidateId == c;
      }
    }
  }

  lemma SameAliases(s: Store, op: Op, sig: A.Signature)
    requires op.PublishOp? ==> !Publish(s.registry, op.publish).1.Published?
    ensures Apply(s, op, sig).registry.aliases == s.registry.aliases
  {
    hide Added, FamilyAfter, VersionFor, HashAfter, Rebuilt, Foreign, A.Append, A.Rebuild;
  }

  /** Over any run a candidate has an alias exactly when a publish of it was granted, and the alias is the
      schema that publish named. */
  lemma {:induction false} AliasesByHistory(ops: seq<Op>, sig: A.Signature)
    ensures AliasedBy(Run(ops, sig).registry, Grants(ops, sig))
    decreases |ops|
  {
    hide Apply, Publish;
    if ops != [] {
      var n := |ops| - 1;
      AliasesByHistory(ops[..n], sig);
      var before := Run(ops[..n], sig);
      hide AliasedBy;
      if GrantedAt(ops, sig, n) {
        AliasGranted(before.registry, ops[n].publish, Grants(ops[..n], sig));
        GrantApplied(before, ops[n].publish, sig);
      } else {
        SameAliases(before, ops[n], sig);
        SameAliased(before.registry, Run(ops, sig).registry, Grants(ops[..n], sig));
        assert Grants(ops[..n], sig) + [] == Grants(ops[..n], sig);
      }
    }
  }

  lemma SameAliased(s: Registry, t: Registry, qs: seq<PublishRequest>)
    requires s.aliases == t.aliases && AliasedBy(s, qs)
    ensures AliasedBy(t, qs)
  {
  }

  // ---- revisions ----

  /** A schema's annotation is what its granted appends left: one revision each, carrying all that was asked
      and the id of the one before, the last of them active under their number. */
  ghost predicate AnnotatedBy(n: A.Annotations, sig: A.Signature, sch: string, appends: seq<A.AppendRequest>) {
    && (forall rev ::
          A.RevisionKey(sch, rev) in n.revisions <==> exists k | 0 <= k < |appends| :: appends[k].newRevision == rev)
    && (forall k | 0 <= k < |appends| :: RevisionBy(n, sch, appends, k))
    && (sch in n.active <==> appends != [])
    && (appends != [] ==>
          var last := appends[|appends| - 1];
          n.active[sch] == A.Active(last.newRevision, last.semId, |appends|, Some(sig(last.metadata))))
  }

  ghost predicate RevisionBy(n: A.Annotations, sch: string, appends: seq<A.AppendRequest>, k: nat)
    requires k < |appends|
  {
    var a := appends[k];
    && A.RevisionKey(sch, a.newRevision) in n.revisions
    && var r := n.revisions[A.RevisionKey(sch, a.newRevision)];
      && r.semId == a.semId && r.bytes == a.bytes && r.metadata == a.metadata
      && r.actor == a.actor && r.reasonCode == a.reasonCode && r.reason == a.reason && a.reason != ""
      && r.recordedAt == a.recordedAt && r.effectiveFrom == a.effectiveFrom
      && r.previous == (if k == 0 then "" else appends[k - 1].newRevision)
      && (if k == 0 then a.expected == None || a.expected == Some(0) else a.expected == Some(k))
  }

  lemma {:induction false} OneMore(n: A.Annotations, a: A.AppendRequest, sig: A.Signature,
                                   appends: seq<A.AppendRequest>)
    requires AnnotatedBy(n, sig, a.sch, appends) && A.Fresh(n, a) && A.Append(n, a, sig).1.Appended?
    ensures AnnotatedBy(A.Append(n, a, sig).0, sig, a.sch, appends + [a])
  {
    hide A.Links, A.Unlinked, A.OldFeatures;
    var all, m := appends + [a], A.Append(n, a, sig).0;
    forall k | 0 <= k < |all| ensures RevisionBy(m, a.sch, all, k) {
      if k < |appends| {
        assert RevisionBy(n, a.sch, appends, k);
        assert appends[k].newRevision != a.newRevision;
      }
    }
    forall rev
      ensures A.RevisionKey(a.sch, rev) in m.revisions <==> exists k | 0 <= k < |all| :: all[k].newRevision == rev
    {
      if A.RevisionKey(a.sch, rev) in n.revisions {
        var k :| 0 <= k < |appends| && appends[k].newRevision == rev;
        assert all[k].newRevision == rev;
      } else if rev == a.newRevision {
        assert all[|appends|].newRevision == rev;
      }
    }
  }

  lemma {:induction false} AnotherSchema(n: A.Annotations, a: A.AppendRequest, sig: A.Signature, sch: string,
                                         appends: seq<A.AppendRequest>)
    requires AnnotatedBy(n, sig, sch, appends) && (a.sch == sch ==> !A.Append(n, a, sig).1.Appended?)
    ensures AnnotatedBy(A.Append(n, a, sig).0, sig, sch, appends)
  {
    hide A.Links, A.Unlinked, A.OldFeatures;
    var m := A.Append(n, a, sig).0;
    forall k | 0 <= k < |appends| ensures RevisionBy(m, sch, appends, k) {
      assert RevisionBy(n, sch, appends, k);
    }
  }

  lemma {:induction false} NotesKept(s: Store, op: Op, sig: A.Signature)
    requires A.Inv(s.notes, sig) && !op.AppendOp?
    ensures Apply(s, op, sig).notes == s.notes
  {
    hide A.Inv, A.Rebuild, Rebuild, Publish;
    A.RebuildChangesNothing(s.notes, sig);
  }

  lemma NothingAnnotated(sig: A.Signature, sch: string)
    ensures AnnotatedBy(EMPTY_STORE.notes, sig, sch, [])
  {
  }

  lemma LawfulAppend(s: Store, a: A.AppendRequest)
    requires Lawful(s, AppendOp(a))
    ensures A.Fresh(s.notes, a)
  {
  }

  /** Over any lawful run a schema's revisions are its granted appends, in order, each expecting the number
      of those before it. */
  lemma {:induction false} RevisionsByHistory(ops: seq<Op>, sig: A.Signature, sch: string)
    requires LawfulRun(ops, sig)
    ensures AnnotatedBy(Run(ops, sig).notes, sig, sch, Appends(ops, sig, sch))
    decreases |ops|
  {
    hide A.Append, A.Inv, Apply, LawfulRun, Lawful, AnnotatedBy, StoreInv, A.Fresh;
    if ops == [] {
      NothingAnnotated(sig, sch);
    } else {
      var n := |ops| - 1;
      LawfulPrefix(ops, sig, n);
      RevisionsByHistory(ops[..n], sig, sch);
      Reachable(ops[..n], sig);
      var before := Run(ops[..n], sig);
      assert Appends(ops[..n], sig, sch) + [] == Appends(ops[..n], sig, sch);
      if ops[n].AppendOp? {
        var a := ops[n].append;
        AppendApplied(before, a, sig);
        if AppendedAt(ops, sig, sch, n) {
          LawfulAppend(before, a);
          OneMore(before.notes, a, sig, Appends(ops[..n], sig, sch));
        } else {
          AnotherSchema(before.notes, a, sig, sch, Appends(ops[..n], sig, sch));
        }
      } else {
        NotesOf(before, sig);
        NotesKept(before, ops[n], sig);
      }
    }
  }

  // ---- the audit log ----

  /** The call at position `i` was granted. */
  ghost predicate WrittenAt(ops: seq<Op>, sig: A.Signature, i: nat)
    requires i < |ops|
  {
    GrantedAt(ops, sig, i) || (ops[i].AppendOp? && AppendedAt(ops, sig, ops[i].append.sch, i))
  }

  /** The event says who did what to which schema, why and when. */
  predicate Tells(e: AuditEvent, op: Op) {
    match op
    case PublishOp(q) =>
      e.actor == q.actor && e.reason == q.reason && e.schema == q.schemaId && e.sem == None && e.ts == q.nowMs
    case AppendOp(a) =>
      && e.actor == a.actor && e.reason == a.reason && e.schema == a.sch && e.sem == Some(a.semId)
      && e.ts == a.recordedAt
    case _ => false
  }

  /** Over any run the audit log has one event for each granted call, in their order, and none besides. */
  lemma {:induction false} AuditByHistory(ops: seq<Op>, sig: A.Signature) returns (at: seq<nat>)
    ensures forall i: nat :: i in at <==> i < |ops| && WrittenAt(ops, sig, i)
    ensures forall j, k | 0 <= j < k < |at| :: at[j] < at[k]
    ensures |at| == |Run(ops, sig).audit|
    ensures forall k | 0 <= k < |at| :: at[k] < |ops| && Tells(Run(ops, sig).audit[k], ops[at[k]])
    decreases |ops|
  {
    hide Tells, WrittenAt, Apply;
    at := [];
    if ops != [] {
      var n := |ops| - 1;
      at := AuditByHistory(ops[..n], sig);
      forall i | 0 <= i < n ensures WrittenAt(ops[..n], sig, i) <==> WrittenAt(ops, sig, i) {
        WrittenInPrefix(ops, sig, n, i);
      }
      AuditStep(ops, sig);
      assert forall k | 0 <= k < |at| :: at[k] in at;
      if WrittenAt(ops, sig, n) {
        at := at + [n];
      }
    }
  }

  lemma WrittenInPrefix(ops: seq<Op>, sig: A.Signature, n: nat, i: nat)
    requires i < n <= |ops|
    ensures WrittenAt(ops[..n], sig, i) <==> WrittenAt(ops, sig, i)
  {
    hide Run, Publish, A.Append;
    assert ops[..n][..i] == ops[..i];
  }

  lemma AuditStep(ops: seq<Op>, sig: A.Signature)
    requires ops != []
    ensures var n, before, after := |ops| - 1, Run(ops[..|ops| - 1], sig).audit, Run(ops, sig).audit;
      if WrittenAt(ops, sig, n) then
        |after| == |before| + 1 && after[..|before|] == before && Tells(after[|before|], ops[n])
      else after == before
  {
    hide Publish, A.Append, Rebuild, A.Rebuild;
  }

  // ---- the index ----

  /** What a publish files: its schema under its own bucket, and each variant under the variant's. */
  predicate Files(q: PublishRequest, p: Posting) {
    |q.schemaId| >= 4
    && (|| p == Posting(q.bucket, q.schemaId[4..] + "=" + q.schemaId)
        || exists k | 0 <= k < |q.variants| ::
             p == Posting(q.variants[k].bucket, q.variants[k].fp + "=" + q.schemaId))
  }

  /** What a rebuild files of a schema goes by the bucket of its first grant and the variants of its last. */
  predicate Refiles(ps: seq<PublishRequest>, p: Posting) {
    ps != [] && Files(ps[|ps| - 1].(bucket := ps[0].bucket), p)
  }

  /** Some granted publish of the schema filed the posting, and every rebuild since has filed it again. */
  ghost predicate FiledBy(ops: seq<Op>, sig: A.Signature, sch: string, p: Posting) {
    exists i | 0 <= i < |ops| :: FiledAt(ops, sig, sch, p, i)
  }

  ghost predicate FiledAt(ops: seq<Op>, sig: A.Signature, sch: string, p: Posting, i: nat)
    requires i < |ops|
  {
    && GrantedAt(ops, sig, i) && ops[i].publish.schemaId == sch && Files(ops[i].publish, p)
    && forall r | i < r < |ops| && ops[r].RebuildIndexOp? :: Refiles(GrantsOf(ops[..r], sig, sch), p)
  }

  lemma {:induction false} FilesExactly(q: PublishRequest, p: Posting)
    requires IsSchemaId(q.schemaId)
    ensures p in Added(q) <==> Files(q, p)
  {
    OwnMemberIs(q.schemaId);
    hide IsSchemaId, BucketMember;
    var vs := q.variants;
    if p in VariantPostings(q.schemaId, vs) {
      var v :| v in vs && p == Posting(v.bucket, VariantMember(v.fp, q.schemaId));
      var k :| 0 <= k < |vs| && vs[k] == v;
      assert p == Posting(vs[k].bucket, vs[k].fp + "=" + q.schemaId);
    }
    forall k | 0 <= k < |vs| && p == Posting(vs[k].bucket, vs[k].fp + "=" + q.schemaId)
      ensures p in VariantPostings(q.schemaId, vs)
    {
      assert vs[k] in vs;
    }
  }

  /** The record's own postings are what the first grant's bucket and the last grant's variants file. */
  lemma {:induction false} RefilesExactly(s: Registry, sch: string, ps: seq<PublishRequest>, p: Posting)
    requires RecordedBy(s, sch, ps) && ps != [] && WellMade(ps[|ps| - 1]) && ps[|ps| - 1].schemaId == sch
    ensures p in PostingsOf(sch, s.schemas[sch]) <==> Refiles(ps, p)
  {
    var h, q := s.schemas[sch], ps[|ps| - 1].(bucket := ps[0].bucket);
    var vs := q.variants;
    RoundTripped(vs, h.variants.value);
    FilesExactly(q, p);
    assert forall v | v in ps[|ps| - 1].variants :: IsBucketKey(v.bucket);
    hide IsSchemaId, Files, WellMade, BucketMember, VariantPostings;
  }

  lemma {:induction false} RoundTripped(vs: seq<Variant>, entries: seq<string>)
    requires |entries| == |vs| && forall k | 0 <= k < |vs| :: entries[k] == vs[k].bucket + "=" + vs[k].fp
    requires forall v | v in vs :: '=' !in v.bucket
    ensures DecodeVariants(entries) == vs
  {
    assert entries == EncodeVariants(vs);
    VariantsRoundTrip(vs);
  }

  lemma {:induction false} GrantsWell(ops: seq<Op>, sig: A.Signature, sch: string)
    requires LawfulRun(ops, sig)
    ensures forall q | q in GrantsOf(ops, sig, sch) :: WellMade(q) && q.schemaId == sch
    decreases |ops|
  {
    hide Run, WellMade, Publish;
    if ops != [] {
      var n := |ops| - 1;
      LawfulPrefix(ops, sig, n);
      GrantsWell(ops[..n], sig, sch);
    }
  }

  /** What the last transition of a run adds to it. */
  lemma {:induction false} FiledSnoc(ops: seq<Op>, sig: A.Signature, sch: string, p: Posting)
    requires ops != []
    ensures var n := |ops| - 1;
      FiledBy(ops, sig, sch, p) <==>
        || (GrantedAt(ops, sig, n) && ops[n].publish.schemaId == sch && Files(ops[n].publish, p))
        || (FiledBy(ops[..n], sig, sch, p) && (ops[n].RebuildIndexOp? ==> Refiles(GrantsOf(ops[..n], sig, sch), p)))
  {
    hide GrantedAt, Files, Refiles, GrantsOf, FiledAt;
    var n := |ops| - 1;
    FiledNow(ops, sig, sch, p);
    forall i | 0 <= i < n
      ensures FiledAt(ops, sig, sch, p, i) <==>
        FiledAt(ops[..n], sig, sch, p, i) && (ops[n].RebuildIndexOp? ==> Refiles(GrantsOf(ops[..n], sig, sch), p))
    {
      FiledEarlier(ops, sig, sch, p, i);
    }
  }

  lemma FiledNow(ops: seq<Op>, sig: A.Signature, sch: string, p: Posting)
    requires ops != []
    ensures var n := |ops| - 1;
      FiledAt(ops, sig, sch, p, n) <==>
        GrantedAt(ops, sig, n) && ops[n].publish.schemaId == sch && Files(ops[n].publish, p)
  {
    hide GrantedAt, Files, Refiles, GrantsOf;
  }

  lemma {:induction false} FiledEarlier(ops: seq<Op>, sig: A.Signature, sch: string, p: Posting, i: nat)
    requires i + 1 < |ops|
    ensures var n := |ops| - 1;
      FiledAt(ops, sig, sch, p, i) <==>
        FiledAt(ops[..n], sig, sch, p, i) && (ops[n].RebuildIndexOp? ==> Refiles(GrantsOf(ops[..n], sig, sch), p))
  {
    hide GrantedAt, Files, Refiles, GrantsOf;
    var n := |ops| - 1;
    GrantedInPrefix(ops, sig, n, i);
    assert forall r | i < r < n :: ops[..n][..r] == ops[..r] && ops[..n][r] == ops[r];
    if FiledAt(ops[..n], sig, sch, p, i) && (ops[n].RebuildIndexOp? ==> Refiles(GrantsOf(ops[..n], sig, sch), p)) {
      forall r | i < r < |ops| && ops[r].RebuildIndexOp? ensures Refiles(GrantsOf(ops[..r], sig, sch), p) {
        assert r < n ==> ops[..n][r].RebuildIndexOp?;
      }
    }
    if FiledAt(ops, sig, sch, p, i) {
      forall r | i < r < n && ops[..n][r].RebuildIndexOp? ensures Refiles(GrantsOf(ops[..n][..r], sig, sch), p) {
        assert ops[r].RebuildIndexOp?;
      }
    }
  }

  lemma OwnedBy(s: Registry, sch: string, p: Posting)
    requires Inv(s) && Owner(p) == Some(sch)
    ensures p in Rebuild(s).index <==> sch in s.schemas && p in PostingsOf(sch, s.schemas[sch])
    ensures p in Rebuild(s).index ==> p in s.index
  {
    hide PostingsOf, Owner, FamilyInv, PostingInv;
    NothingForeign(s);
    RebuildIncluded(s);
    if p in Rebuilt(s.schemas) {
      var t :| t in s.schemas && p in PostingsOf(t, s.schemas[t]);
      assert SchemaInv(s, t);
    }
  }

  lemma {:induction false} IndexGranted(s: Registry, q: PublishRequest, sch: string, p: Posting)
    requires WellMade(q) && Publish(s, q).1.Published? && Owner(p) == Some(sch)
    ensures p in Publish(s, q).0.index <==> p in s.index || (q.schemaId == sch && Files(q, p))
  {
    FilesExactly(q, p);
    if p in Added(q) {
      AddedWell(q, p);
    }
    hide Files, Added, Owner, HashAfter, FamilyAfter, VersionFor, WellMade;
  }

  lemma SameIndex(s: Store, op: Op, sig: A.Signature)
    requires !op.RebuildIndexOp? && (op.PublishOp? ==> !Publish(s.registry, op.publish).1.Published?)
    ensures Apply(s, op, sig).registry.index == s.registry.index
  {
    hide Added, FamilyAfter, VersionFor, HashAfter, A.Append, A.Rebuild;
  }

  lemma LawfulPublish(s: Store, q: PublishRequest)
    requires Lawful(s, PublishOp(q))
    ensures WellMade(q)
  {
    hide WellMade;
  }

  lemma {:induction false} PostingByHistory(ops: seq<Op>, sig: A.Signature, sch: string, p: Posting)
    requires LawfulRun(ops, sig) && Owner(p) == Some(sch)
    ensures p in Run(ops, sig).registry.index <==> FiledBy(ops, sig, sch, p)
    decreases |ops|
  {
    hide *;
    if ops == [] {
      NothingFiled(ops, sig, sch, p);
    } else {
      var n := |ops| - 1;
      LawfulPrefix(ops, sig, n);
      PostingByHistory(ops[..n], sig, sch, p);
      RunSnoc(ops, sig);
      FiledSnoc(ops, sig, sch, p);
      LastStep(ops, sig, sch, p);
    }
  }

  lemma NothingFiled(ops: seq<Op>, sig: A.Signature, sch: string, p: Posting)
    requires ops == []
    ensures p !in Run(ops, sig).registry.index && !FiledBy(ops, sig, sch, p)
  {
  }

  lemma {:induction false} LastStep(ops: seq<Op>, sig: A.Signature, sch: string, p: Posting)
    requires ops != [] && LawfulRun(ops, sig) && Owner(p) == Some(sch)
    ensures var n := |ops| - 1; var before := Run(ops[..n], sig).registry.index;
      p in Run(ops, sig).registry.index <==>
        || (GrantedAt(ops, sig, n) && ops[n].publish.schemaId == sch && Files(ops[n].publish, p))
        || (p in before && (ops[n].RebuildIndexOp? ==> Refiles(GrantsOf(ops[..n], sig, sch), p)))
  {
    var n := |ops| - 1;
    var before := Run(ops[..n], sig);
    LawfulPrefix(ops, sig, n);
    RunSnoc(ops, sig);
    hide Run, LawfulRun, Publish, Owner, Files, Refiles, GrantsOf, Lawful, WellMade, Apply;
    if GrantedAt(ops, sig, n) {
      LawfulPublish(before, ops[n].publish);
      IndexGranted(before.registry, ops[n].publish, sch, p);
      GrantApplied(before, ops[n].publish, sig);
    } else if ops[n].RebuildIndexOp? {
      RefiledStep(ops[..n], sig, sch, p);
      RebuildApplied(before, sig);
    } else {
      SameIndex(before, ops[n], sig);
    }
  }

  lemma RebuildApplied(s: Store, sig: A.Signature)
    ensures Apply(s, RebuildIndexOp, sig).registry == Rebuild(s.registry)
  {
    hide Rebuild;
  }

  lemma {:induction false} RefiledStep(ops: seq<Op>, sig: A.Signature, sch: string, p: Posting)
    requires LawfulRun(ops, sig) && Owner(p) == Some(sch)
    ensures var s := Run(ops, sig).registry;
      p in Rebuild(s).index <==> p in s.index && Refiles(GrantsOf(ops, sig, sch), p)
  {
    hide *;
    var s, ps := Run(ops, sig).registry, GrantsOf(ops, sig, sch);
    Reachable(ops, sig);
    RegistryOf(Run(ops, sig), sig);
    OwnedBy(s, sch, p);
    RecordsByHistory(ops, sig, sch);
    HasRecord(s, sch, ps);
    if ps != [] {
      GrantsWell(ops, sig, sch);
      assert ps[|ps| - 1] in ps;
      RefilesExactly(s, sch, ps, p);
    } else {
      NotRefiled(ps, p);
    }
  }

  lemma RegistryOf(s: Store, sig: A.Signature)
    requires StoreInv(s, sig)
    ensures Inv(s.registry)
  {
    hide Inv, A.Inv;
  }

  lemma HasRecord(s: Registry, sch: string, ps: seq<PublishRequest>)
    requires RecordedBy(s, sch, ps)
    ensures sch in s.schemas <==> ps != []
  {
  }

  lemma NotRefiled(ps: seq<PublishRequest>, p: Posting)
    requires ps == []
    ensures !Refiles(ps, p)
  {
  }

  lemma {:induction false} FiledOwner(ops: seq<Op>, sig: A.Signature, sch: string, p: Posting)
    requires LawfulRun(ops, sig) && FiledBy(ops, sig, sch, p)
    ensures Owner(p) == Some(sch)
  {
    var i :| 0 <= i < |ops| && FiledAt(ops, sig, sch, p, i);
    var q := ops[i].publish;
    LawfulPrefix(ops, sig, i);
    hide Run, Publish, Owner, Files, LawfulRun, Refiles, GrantsOf;
    assert WellMade(q);
    FilesExactly(q, p);
    AddedWell(q, p);
  }

  /** Over any lawful run the structural index holds a posting exactly when some granted publish filed it and
      every rebuild since has filed it again, by the bucket of the first publish and the variants of the last
      one granted before that rebuild. */
  lemma {:induction false} IndexByHistory(ops: seq<Op>, sig: A.Signature, p: Posting)
    requires LawfulRun(ops, sig)
    ensures p in Run(ops, sig).registry.index <==> exists sch :: FiledBy(ops, sig, sch, p)
  {
    hide *;
    if p in Run(ops, sig).registry.index {
      Reachable(ops, sig);
      RegistryOf(Run(ops, sig), sig);
      HasOwner(Run(ops, sig).registry, p);
      PostingByHistory(ops, sig, Owner(p).value, p);
    }
    forall sch | FiledBy(ops, sig, sch, p) ensures p in Run(ops, sig).registry.index {
      FiledOwner(ops, sig, sch, p);
      PostingByHistory(ops, sig, sch, p);
    }
  }

  lemma HasOwner(s: Registry, p: Posting)
    requires Inv(s) && p in s.index
    ensures Owner(p).Some?
  {
    hide FamilyInv, SchemaInv, Owner;
    assert PostingInv(s, p);
  }
}
