/** Semantic annotations: appending a revision as one atomic transition, and what every run of it keeps. */
module Annotations {
  import opened Sequences
  import opened Options

  /** The hash at `deblob:sem-active:<sch_id>`. Pointers older than the postings lack `features`. */
  datatype Active = Active(revisionId: string, semId: string, etag: nat, features: Option<seq<string>>)

  /** The immutable hash at `deblob:sem-rev:<sch_id>:<rev_id>`. */
  datatype Revision = Revision(
    semId: string, bytes: string, metadata: string, previous: string, actor: string,
    reasonCode: string, reason: string, recordedAt: string, effectiveFrom: string)

  datatype RevisionKey = RevisionKey(sch: string, rev: string)

  /** `sch` is a member of the set kept under `key`. */
  datatype Link = Link(key: string, sch: string)

  datatype Annotations = Annotations(
    active: map<string, Active>, revisions: map<RevisionKey, Revision>,
    semIndex: set<Link>, semSig: set<Link>, annotated: set<string>)

  const EMPTY_ANNOTATIONS := Annotations(map[], map[], {}, {}, {})

  /** The feature keys of a metadata text's signature. */
  type Signature = string -> seq<string>

  datatype AppendRequest = AppendRequest(
    sch: string, semId: string, bytes: string, metadata: string, actor: string, reasonCode: string, reason: string,
    recordedAt: string, effectiveFrom: string, newRevision: string, expected: Option<nat>)

  datatype AppendResult =
    | AlreadyActive(revisionId: string, semId: string, etag: nat)
    | Appended(revisionId: string, semId: string, etag: nat)
    | MissingReason
    | EtagConflict(current: nat)

  // ---- the transition ----

  function CurrentEtag(s: Annotations, sch: string): nat {
    if sch in s.active then s.active[sch].etag else 0
  }

  /** No expected etag means: none yet. */
  function Expected(a: AppendRequest): nat {
    match a.expected case None => 0 case Some(e) => e
  }

  /** The active revision already carries these bytes. */
  predicate Replays(s: Annotations, a: AppendRequest) {
    a.sch in s.active
    && var key := RevisionKey(a.sch, s.active[a.sch].revisionId);
      key in s.revisions && s.revisions[key].bytes == a.bytes
  }

  function NewRevision(s: Annotations, a: AppendRequest): Revision {
    Revision(a.semId, a.bytes, a.metadata, if a.sch in s.active then s.active[a.sch].revisionId else "",
             a.actor, a.reasonCode, a.reason, a.recordedAt, a.effectiveFrom)
  }

  function Links(keys: seq<string>, sch: string): set<Link> {
    set k | k in keys :: Link(k, sch)
  }

  function OldFeatures(s: Annotations, sch: string): seq<string> {
    if sch in s.active && s.active[sch].features.Some? then s.active[sch].features.value else []
  }

  function Unlinked(s: Annotations, a: AppendRequest): set<Link> {
    if a.sch in s.active && s.active[a.sch].semId != a.semId then s.semIndex - {Link(s.active[a.sch].semId, a.sch)}
    else s.semIndex
  }

  function Append(s: Annotations, a: AppendRequest, sig: Signature): (Annotations, AppendResult) {
    if Replays(s, a) then
      var cur := s.active[a.sch];
      (s, AlreadyActive(cur.revisionId, cur.semId, cur.etag))
    else if a.reason == "" then (s, MissingReason)
    else if Expected(a) != CurrentEtag(s, a.sch) then (s, EtagConflict(CurrentEtag(s, a.sch)))
    else
      var etag := CurrentEtag(s, a.sch) + 1;
      (Annotations(
         s.active[a.sch := Active(a.newRevision, a.semId, etag, Some(sig(a.metadata)))],
         s.revisions[RevisionKey(a.sch, a.newRevision) := NewRevision(s, a)],
         Unlinked(s, a) + {Link(a.semId, a.sch)},
         s.semSig - Links(OldFeatures(s, a.sch), a.sch) + Links(sig(a.metadata), a.sch),
         s.annotated + {a.sch}),
       Appended(a.newRevision, a.semId, etag))
  }

  /** Revision ids are minted afresh for every call. */
  predicate Fresh(s: Annotations, a: AppendRequest) {
    a.newRevision != "" && RevisionKey(a.sch, a.newRevision) !in s.revisions
  }

  // ---- the chain of revisions ----

  /** The last `n` revisions up to `rev`, following the links back; oldest first. */
  function Walk(revisions: map<RevisionKey, Revision>, sch: string, rev: string, n: nat): seq<string>
    decreases n
  {
    if n == 0 then []
    else
      (if RevisionKey(sch, rev) in revisions
       then Walk(revisions, sch, revisions[RevisionKey(sch, rev)].previous, n - 1)
       else [])
      + [rev]
  }

  function Chain(s: Annotations, sch: string): seq<string> {
    if sch in s.active then Walk(s.revisions, sch, s.active[sch].revisionId, s.active[sch].etag) else []
  }

  /** Each revision names the one before it, the first names none. */
  predicate Linked(revisions: map<RevisionKey, Revision>, sch: string, c: seq<string>) {
    forall i | 0 <= i < |c| ::
      RevisionKey(sch, c[i]) in revisions
      && revisions[RevisionKey(sch, c[i])].previous == Before(c, i)
  }

  function Before(c: seq<string>, i: nat): string
    requires i <= |c|
  {
    if i == 0 then "" else c[i - 1]
  }

  lemma {:induction false} LinkedWalk(revisions: map<RevisionKey, Revision>, sch: string, c: seq<string>)
    requires Linked(revisions, sch, c) && c != []
    ensures Walk(revisions, sch, c[|c| - 1], |c|) == c
    decreases |c|
  {
    var n := |c| - 1;
    LinkedPrefix(revisions, sch, c);
    var last := RevisionKey(sch, c[n]);
    assert last in revisions && revisions[last].previous == Before(c, n);
    assert n > 0 ==> Before(c, n) == c[..n][n - 1];
    hide *;
    WalkStep(revisions, sch, c[n], n);
    LastApart(c);
    if n > 0 {
      LinkedWalk(revisions, sch, c[..n]);
    } else {
      assert c[..n] == [];
    }
  }

  lemma WalkStep(revisions: map<RevisionKey, Revision>, sch: string, rev: string, n: nat)
    requires RevisionKey(sch, rev) in revisions
    ensures Walk(revisions, sch, rev, n + 1)
      == Walk(revisions, sch, revisions[RevisionKey(sch, rev)].previous, n) + [rev]
    ensures n == 0 ==> Walk(revisions, sch, rev, n + 1) == [rev]
  {
  }

  lemma LinkedPrefix(revisions: map<RevisionKey, Revision>, sch: string, c: seq<string>)
    requires Linked(revisions, sch, c) && c != []
    ensures Linked(revisions, sch, c[..|c| - 1])
  {
    var d := c[..|c| - 1];
    forall i | 0 <= i < |d|
      ensures RevisionKey(sch, d[i]) in revisions && revisions[RevisionKey(sch, d[i])].previous == Before(d, i)
    {
      assert d[i] == c[i] && Before(d, i) == Before(c, i);
    }
  }

  /** The links from the active revision visit every stored revision of the schema exactly once. */
  ghost predicate ChainInv(s: Annotations, sch: string) {
    var c := Chain(s, sch);
    && |c| == CurrentEtag(s, sch)
    && (sch in s.active ==> c != [] && c[|c| - 1] == s.active[sch].revisionId)
    && Linked(s.revisions, sch, c)
    && (forall i, j | 0 <= i < j < |c| :: c[i] != c[j])
    && (forall r :: r in c <==> RevisionKey(sch, r) in s.revisions)
  }

  // ---- the invariant ----

  /** The features of a schema's active revision, by its own metadata. */
  function ActiveFeatures(s: Annotations, sch: string, sig: Signature): seq<string> {
    if sch !in s.active then []
    else
      var key := RevisionKey(sch, s.active[sch].revisionId);
      if key in s.revisions then sig(s.revisions[key].metadata) else []
  }

  ghost predicate ActiveInv(s: Annotations, sch: string, sig: Signature)
    requires sch in s.active
  {
    var key := RevisionKey(sch, s.active[sch].revisionId);
    && key in s.revisions && s.revisions[key].semId == s.active[sch].semId
    && s.active[sch].features == Some(ActiveFeatures(s, sch, sig))
  }

  /** The reverse index, the postings and the population are exactly what the active pointers say. */
  ghost predicate IndexesInv(s: Annotations, sig: Signature) {
    && (forall k, sch :: Link(k, sch) in s.semIndex <==> sch in s.active && s.active[sch].semId == k)
    && (forall k, sch :: Link(k, sch) in s.semSig <==> k in ActiveFeatures(s, sch, sig))
    && s.annotated == s.active.Keys
  }

  ghost predicate Inv(s: Annotations, sig: Signature) {
    && (forall sch | sch in s.active :: ActiveInv(s, sch, sig))
    && (forall sch :: ChainInv(s, sch))
    && IndexesInv(s, sig)
  }

  lemma InvEmpty(sig: Signature)
    ensures Inv(EMPTY_ANNOTATIONS, sig)
  {
  }

  lemma LinkIn(keys: seq<string>, sch: string, k: string, t: string)
    ensures Link(k, t) in Links(keys, sch) <==> t == sch && k in keys
  {
  }

  predicate Grants(s: Annotations, a: AppendRequest) {
    !Replays(s, a) && a.reason != "" && Expected(a) == CurrentEtag(s, a.sch)
  }

  lemma LinkedGrow(revisions: map<RevisionKey, Revision>, more: map<RevisionKey, Revision>, sch: string, c: seq<string>)
    requires Linked(revisions, sch, c) && forall k | k in revisions :: k in more && more[k] == revisions[k]
    ensures Linked(more, sch, c)
  {
  }

  lemma LinkedSnoc(revisions: map<RevisionKey, Revision>, sch: string, c: seq<string>, r: string)
    requires Linked(revisions, sch, c) && RevisionKey(sch, r) in revisions
    requires revisions[RevisionKey(sch, r)].previous == Before(c, |c|)
    ensures Linked(revisions, sch, c + [r])
  {
    var d := c + [r];
    forall i | 0 <= i < |d|
      ensures RevisionKey(sch, d[i]) in revisions && revisions[RevisionKey(sch, d[i])].previous == Before(d, i)
    {
      assert Before(d, i) == Before(c, i);
      assert i < |c| ==> d[i] == c[i];
    }
  }

  lemma AppendKeepsChain(s: Annotations, a: AppendRequest, sig: Signature)
    requires Inv(s, sig) && Fresh(s, a) && Grants(s, a)
    ensures ChainInv(Append(s, a, sig).0, a.sch)
    ensures Chain(Append(s, a, sig).0, a.sch) == Chain(s, a.sch) + [a.newRevision]
  {
    hide IndexesInv, ActiveInv, Replays, Links, OldFeatures, Unlinked, Walk, Linked;
    var t := Append(s, a, sig).0;
    var c := Chain(s, a.sch);
    assert ChainInv(s, a.sch);
    var d := c + [a.newRevision];
    LinkedGrow(s.revisions, t.revisions, a.sch, c);
    LinkedSnoc(t.revisions, a.sch, c, a.newRevision);
    LinkedWalk(t.revisions, a.sch, d);
    assert Chain(t, a.sch) == d;
  }

  lemma AppendKeepsOtherChain(s: Annotations, a: AppendRequest, sig: Signature, sch: string)
    requires Inv(s, sig) && Fresh(s, a) && Grants(s, a) && sch != a.sch
    ensures ChainInv(Append(s, a, sig).0, sch) && Chain(Append(s, a, sig).0, sch) == Chain(s, sch)
  {
    hide IndexesInv, ActiveInv, Replays, Links, OldFeatures, Unlinked, Walk, Linked;
    var t := Append(s, a, sig).0;
    var c := Chain(s, sch);
    assert ChainInv(s, sch);
    LinkedGrow(s.revisions, t.revisions, sch, c);
    if c != [] {
      LinkedWalk(t.revisions, sch, c);
    }
  }

  lemma AppendKeepsActive(s: Annotations, a: AppendRequest, sig: Signature, sch: string)
    requires Inv(s, sig) && Fresh(s, a) && Grants(s, a) && sch in Append(s, a, sig).0.active
    ensures ActiveInv(Append(s, a, sig).0, sch, sig)
    ensures sch != a.sch ==> ActiveFeatures(Append(s, a, sig).0, sch, sig) == ActiveFeatures(s, sch, sig)
    ensures sch == a.sch ==> ActiveFeatures(Append(s, a, sig).0, sch, sig) == sig(a.metadata)
  {
    hide IndexesInv, ChainInv, Replays, Links, OldFeatures, Unlinked;
    if sch != a.sch {
      assert ActiveInv(s, sch, sig);
    }
  }

  lemma AppendKeepsIndexes(s: Annotations, a: AppendRequest, sig: Signature)
    requires Inv(s, sig) && Fresh(s, a) && Grants(s, a)
    ensures IndexesInv(Append(s, a, sig).0, sig)
  {
    hide ChainInv, Replays, Links, ActiveFeatures;
    var t := Append(s, a, sig).0;
    forall k, sch ensures Link(k, sch) in t.semSig <==> k in ActiveFeatures(t, sch, sig) {
      LinkIn(OldFeatures(s, a.sch), a.sch, k, sch);
      LinkIn(sig(a.metadata), a.sch, k, sch);
      SameFeatures(s, a, sig, sch);
      if a.sch in s.active {
        assert ActiveInv(s, a.sch, sig);
      } else {
        assert ActiveFeatures(s, a.sch, sig) == [] by { NoFeatures(s, a.sch, sig); }
      }
    }
  }

  lemma NoFeatures(s: Annotations, sch: string, sig: Signature)
    requires sch !in s.active
    ensures ActiveFeatures(s, sch, sig) == []
  {
  }

  lemma SameFeatures(s: Annotations, a: AppendRequest, sig: Signature, sch: string)
    requires Inv(s, sig) && Fresh(s, a) && Grants(s, a)
    ensures ActiveFeatures(Append(s, a, sig).0, sch, sig) ==
      if sch == a.sch then sig(a.metadata) else ActiveFeatures(s, sch, sig)
  {
    hide Inv, Replays, Links, OldFeatures, Unlinked, ActiveFeatures;
    if sch in Append(s, a, sig).0.active {
      AppendKeepsActive(s, a, sig, sch);
    } else {
      NoFeatures(s, sch, sig);
      NoFeatures(Append(s, a, sig).0, sch, sig);
    }
  }

  /** Every append, whatever its outcome, keeps the invariant. */
  lemma AppendKeepsInv(s: Annotations, a: AppendRequest, sig: Signature)
    requires Inv(s, sig) && Fresh(s, a)
    ensures Inv(Append(s, a, sig).0, sig)
  {
    hide ChainInv, ActiveInv, IndexesInv, Replays, Links, OldFeatures, Unlinked;
    if Grants(s, a) {
      var t := Append(s, a, sig).0;
      forall sch | sch in t.active ensures ActiveInv(t, sch, sig) {
        AppendKeepsActive(s, a, sig, sch);
      }
      forall sch ensures ChainInv(t, sch) {
        if sch == a.sch {
          AppendKeepsChain(s, a, sig);
        } else {
          AppendKeepsOtherChain(s, a, sig, sch);
        }
      }
      AppendKeepsIndexes(s, a, sig);
    }
  }

  // ---- compare-and-swap ----

  /** Stored revisions never change and etags never fall. */
  ghost predicate Extends(s: Annotations, t: Annotations) {
    && (forall k | k in s.revisions :: k in t.revisions && t.revisions[k] == s.revisions[k])
    && (forall sch :: CurrentEtag(s, sch) <= CurrentEtag(t, sch))
  }

  lemma AppendExtends(s: Annotations, a: AppendRequest, sig: Signature)
    requires Fresh(s, a)
    ensures Extends(s, Append(s, a, sig).0)
    ensures match Append(s, a, sig).1
      case Appended(rev, sem, etag) =>
        etag == Expected(a) + 1 == CurrentEtag(s, a.sch) + 1 == CurrentEtag(Append(s, a, sig).0, a.sch)
      case _ => Append(s, a, sig).0 == s
  {
    hide Replays, Links, OldFeatures, Unlinked;
  }

  /** Of two appends to one schema, the later one is granted a larger etag, and they cannot both
      have expected the same one. */
  lemma LaterEtag(s: Annotations, a: AppendRequest, t: Annotations, b: AppendRequest, sig: Signature)
    requires a.sch == b.sch && Fresh(s, a) && Fresh(t, b) && Extends(Append(s, a, sig).0, t)
    requires Append(s, a, sig).1.Appended? && Append(t, b, sig).1.Appended?
    ensures Append(s, a, sig).1.etag < Append(t, b, sig).1.etag
    ensures Expected(a) != Expected(b)
  {
    hide Append;
    AppendExtends(s, a, sig);
    AppendExtends(t, b, sig);
  }

  // ---- document frequencies ----

  /** `SCARD` of a feature's posting set. */
  ghost function Frequency(s: Annotations, k: string): nat {
    |set l | l in s.semSig && l.key == k :: l.sch|
  }

  lemma {:induction false} SubsetSmaller<T>(a: set<T>, b: set<T>)
    requires a <= b
    ensures |a| <= |b|
    decreases a
  {
    if a != {} {
      var x :| x in a;
      SubsetSmaller(a - {x}, b - {x});
    }
  }

  /** A document frequency counts exactly the annotated schemas with the feature, so it never exceeds their number. */
  lemma FrequencyBounded(s: Annotations, k: string, sig: Signature)
    requires Inv(s, sig)
    ensures Frequency(s, k) == |set sch | sch in s.annotated && k in ActiveFeatures(s, sch, sig)|
    ensures Frequency(s, k) <= |s.annotated|
  {
    hide ChainInv, ActiveFeatures;
    var posting := set l | l in s.semSig && l.key == k :: l.sch;
    var holders := set sch | sch in s.annotated && k in ActiveFeatures(s, sch, sig);
    forall sch ensures sch in posting <==> sch in holders {
      if sch in holders {
        assert Link(k, sch) in s.semSig;
      }
      if sch !in s.active {
        NoFeatures(s, sch, sig);
      }
      if sch in posting {
        var l :| l in s.semSig && l.key == k && l.sch == sch;
        assert l == Link(k, sch);
      }
    }
    assert posting == holders;
    SubsetSmaller(holders, s.annotated);
  }

  // ---- rebuilding ----

  /** `rebuild_semantic_index`: both indexes and the population, from the active pointers alone. */
  ghost function Rebuild(s: Annotations, sig: Signature): Annotations {
    s.(active := map sch | sch in s.active ::
         if RevisionKey(sch, s.active[sch].revisionId) in s.revisions
         then s.active[sch].(features := Some(ActiveFeatures(s, sch, sig))) else s.active[sch],
       semIndex := set sch | sch in s.active :: Link(s.active[sch].semId, sch),
       semSig := set sch, k | sch in s.active && k in ActiveFeatures(s, sch, sig) :: Link(k, sch),
       annotated := s.active.Keys)
  }

  /** Rebuilding changes nothing: it agrees with what was maintained append by append. */
  lemma RebuildChangesNothing(s: Annotations, sig: Signature)
    requires Inv(s, sig)
    ensures Rebuild(s, sig) == s
  {
    hide ChainInv, ActiveFeatures;
    var t := Rebuild(s, sig);
    forall sch | sch in s.active ensures t.active[sch] == s.active[sch] {
      assert ActiveInv(s, sch, sig);
    }
    assert t.active == s.active;
    forall l ensures l in t.semIndex <==> l in s.semIndex {
      assert l == Link(l.key, l.sch);
    }
    forall l ensures l in t.semSig <==> l in s.semSig {
      assert l == Link(l.key, l.sch);
      if l.sch !in s.active {
        NoFeatures(s, l.sch, sig);
      }
    }
  }

  /** In any store, whatever its indexes had drifted to, a rebuild derives them from the active pointers and
      their revisions' metadata alone; of those it only refreshes the feature list, where there is a revision. */
  lemma {:induction false} RebuildRepairs(s: Annotations, sig: Signature, sch: string, k: string)
    ensures var t := Rebuild(s, sig); var known := sch in s.active;
      var meta := known && RevisionKey(sch, s.active[sch].revisionId) in s.revisions;
      && (Link(k, sch) in t.semIndex <==> known && s.active[sch].semId == k)
      && (Link(k, sch) in t.semSig <==>
            meta && k in sig(s.revisions[RevisionKey(sch, s.active[sch].revisionId)].metadata))
      && (sch in t.annotated <==> known) && (sch in t.active <==> known) && t.revisions == s.revisions
      && (known ==>
            t.active[sch] == if meta then
              s.active[sch].(features := Some(sig(s.revisions[RevisionKey(sch, s.active[sch].revisionId)].metadata)))
            else s.active[sch])
    ensures IndexesInv(Rebuild(s, sig), sig)
  {
    RebuildIndexes(s, sig);
  }

  lemma {:induction false} RebuildIndexes(s: Annotations, sig: Signature)
    ensures IndexesInv(Rebuild(s, sig), sig)
  {
    var t := Rebuild(s, sig);
    forall sch ensures ActiveFeatures(t, sch, sig) == ActiveFeatures(s, sch, sig) {
    }
    hide ActiveFeatures;
    forall k, sch ensures Link(k, sch) in t.semSig <==> k in ActiveFeatures(t, sch, sig) {
      if k in ActiveFeatures(s, sch, sig) && sch !in s.active {
        NoFeatures(s, sch, sig);
      }
    }
  }
}
