/** The whole vault over any sequence of transitions, from the empty store on. */
module VaultRuns {
  import opened Options
  import opened Members
  import opened Publication
  import opened StructuralIndex
  import A = Annotations

  datatype AuditEvent = AuditEvent(actor: string, reason: string, schema: string, sem: Option<string>, ts: string)

  datatype Store = Store(registry: Registry, notes: A.Annotations, audit: seq<AuditEvent>)

  const EMPTY_STORE := Store(EMPTY_REGISTRY, A.EMPTY_ANNOTATIONS, [])

  datatype Op =
    | PublishOp(publish: PublishRequest)
    | AppendOp(append: A.AppendRequest)
    | RebuildIndexOp
    | RebuildNotesOp

  function PublishEvent(q: PublishRequest): AuditEvent {
    AuditEvent(q.actor, q.reason, q.schemaId, None, q.nowMs)
  }

  function AppendEvent(a: A.AppendRequest): AuditEvent {
    AuditEvent(a.actor, a.reason, a.sch, Some(a.semId), a.recordedAt)
  }

  function PublishStore(s: Store, q: PublishRequest): (Store, PublishResult) {
    var (r, result) := Publish(s.registry, q);
    (s.(registry := r, audit := if result.Published? then s.audit + [PublishEvent(q)] else s.audit), result)
  }

  function AppendStore(s: Store, a: A.AppendRequest, sig: A.Signature): (Store, A.AppendResult) {
    var (n, result) := A.Append(s.notes, a, sig);
    (s.(notes := n, audit := if result.Appended? then s.audit + [AppendEvent(a)] else s.audit), result)
  }

  ghost function Apply(s: Store, op: Op, sig: A.Signature): Store {
    match op
    case PublishOp(q) => PublishStore(s, q).0
    case AppendOp(a) => AppendStore(s, a, sig).0
    case RebuildIndexOp => s.(registry := Rebuild(s.registry))
    case RebuildNotesOp => s.(notes := A.Rebuild(s.notes, sig))
  }

  ghost function Run(ops: seq<Op>, sig: A.Signature): Store {
    if ops == [] then EMPTY_STORE else Apply(Run(ops[..|ops| - 1], sig), ops[|ops| - 1], sig)
  }

  /** What the callers guarantee of one call: well-made keys, a revision id never used before. */
  predicate Lawful(s: Store, op: Op) {
    match op
    case PublishOp(q) => WellMade(q)
    case AppendOp(a) => A.Fresh(s.notes, a)
    case _ => true
  }

  ghost predicate LawfulRun(ops: seq<Op>, sig: A.Signature) {
    forall i | 0 <= i < |ops| :: Lawful(Run(ops[..i], sig), ops[i])
  }

  ghost predicate StoreInv(s: Store, sig: A.Signature) {
    Inv(s.registry) && A.Inv(s.notes, sig)
  }

  lemma ApplyKeepsInv(s: Store, op: Op, sig: A.Signature)
    requires StoreInv(s, sig) && Lawful(s, op)
    ensures StoreInv(Apply(s, op, sig), sig)
  {
    hide Inv, A.Inv, Publish, A.Append, Rebuild, A.Rebuild, WellMade, A.Fresh;
    match op
    case PublishOp(q) => PublishKeepsInv(s.registry, q);
    case AppendOp(a) => A.AppendKeepsInv(s.notes, a, sig);
    case RebuildIndexOp => RebuildKeepsInv(s.registry);
    case RebuildNotesOp => A.RebuildChangesNothing(s.notes, sig);
  }

  lemma LawfulPrefix(ops: seq<Op>, sig: A.Signature, i: nat)
    requires LawfulRun(ops, sig) && i <= |ops|
    ensures LawfulRun(ops[..i], sig)
    ensures i < |ops| ==>
      Lawful(Run(ops[..i], sig), ops[i]) && Run(ops[..i + 1], sig) == Apply(Run(ops[..i], sig), ops[i], sig)
  {
    hide Lawful, Apply;
    var p := ops[..i];
    forall j | 0 <= j < i ensures Lawful(Run(p[..j], sig), p[j]) {
      assert p[..j] == ops[..j] && p[j] == ops[j];
    }
    if i < |ops| {
      assert ops[..i + 1][..i] == ops[..i];
    }
  }

  /** Every reachable state satisfies both invariants. */
  lemma {:induction false} Reachable(ops: seq<Op>, sig: A.Signature)
    requires LawfulRun(ops, sig)
    ensures StoreInv(Run(ops, sig), sig)
    decreases |ops|
  {
    hide StoreInv, LawfulRun, Lawful, Apply;
    if ops == [] {
      EmptyInv(sig);
    } else {
      var n := |ops| - 1;
      LawfulPrefix(ops, sig, n);
      Reachable(ops[..n], sig);
      ApplyKeepsInv(Run(ops[..n], sig), ops[n], sig);
    }
  }

  lemma EmptyInv(sig: A.Signature)
    ensures StoreInv(EMPTY_STORE, sig)
  {
    InvEmpty();
    A.InvEmpty(sig);
  }

  // ---- what the rest of a run leaves alone ----

  ghost predicate StoreExtends(s: Store, t: Store) {
    Extends(s.registry, t.registry) && A.Extends(s.notes, t.notes) && s.audit <= t.audit
  }

  lemma ApplyExtends(s: Store, op: Op, sig: A.Signature)
    requires StoreInv(s, sig) && Lawful(s, op)
    ensures StoreExtends(s, Apply(s, op, sig))
  {
    hide Inv, A.Inv, Publish, A.Append, A.Rebuild, WellMade, A.Fresh;
    match op
    case PublishOp(q) => PublishExtends(s.registry, q);
    case AppendOp(a) => A.AppendExtends(s.notes, a, sig);
    case RebuildIndexOp =>
    case RebuildNotesOp => A.RebuildChangesNothing(s.notes, sig);
  }

  /** Whatever was written once stays as it was for the rest of the run: canonical forms, families,
      versions, aliases, stored revisions, audit events. */
  lemma {:induction false} NeverChanges(ops: seq<Op>, sig: A.Signature, i: nat)
    requires LawfulRun(ops, sig) && i <= |ops|
    ensures StoreExtends(Run(ops[..i], sig), Run(ops, sig))
    decreases |ops| - i
  {
    hide StoreInv, LawfulRun, Lawful, Apply;
    if i == |ops| {
      assert ops[..i] == ops;
      ExtendsSelf(Run(ops, sig));
    } else {
      LawfulPrefix(ops, sig, i);
      Reachable(ops[..i], sig);
      ApplyExtends(Run(ops[..i], sig), ops[i], sig);
      NeverChanges(ops, sig, i + 1);
      StoreExtendsTransitive(Run(ops[..i], sig), Run(ops[..i + 1], sig), Run(ops, sig));
    }
  }

  lemma ExtendsSelf(s: Store)
    ensures StoreExtends(s, s)
  {
  }

  lemma StoreExtendsTransitive(s: Store, t: Store, u: Store)
    requires StoreExtends(s, t) && StoreExtends(t, u)
    ensures StoreExtends(s, u)
  {
    ExtendsTransitive(s.registry, t.registry, u.registry);
  }

  // ---- families ----

  /** `v:<n>` and the version of a schema are inverse to each other, between 1 to the counter and the
      schemas of the family, and the published marker agrees. */
  ghost predicate FamilyExact(s: Registry, f: string)
    requires f in s.families
  {
    var g := s.families[f];
    && (forall n :: n in g.versions <==> 1 <= n <= g.nextVersion)
    && (forall n | n in g.versions ::
          var sch := g.versions[n];
          sch in s.schemas && s.schemas[sch].family == f && s.schemas[sch].version == n)
    && (forall sch | sch in s.schemas && s.schemas[sch].family == f ::
          var n := s.schemas[sch].version;
          n in g.versions && g.versions[n] == sch && sch in s.published && s.published[sch] == n)
    && |FamilyMembers(s, f)| == g.nextVersion
  }

  function FamilyMembers(s: Registry, f: string): set<string> {
    set sch | sch in s.schemas && s.schemas[sch].family == f
  }

  /** Family versions are exact in every reachable state. */
  lemma FamilyVersions(ops: seq<Op>, sig: A.Signature, f: string)
    requires LawfulRun(ops, sig) && f in Run(ops, sig).registry.families
    ensures FamilyExact(Run(ops, sig).registry, f)
  {
    hide PostingsOf, Owner, IsSchemaId, A.Inv, PostingInv, Run;
    Reachable(ops, sig);
    var s := Run(ops, sig).registry;
    var g := s.families[f];
    assert FamilyInv(s, f);
    assert forall sch | sch in s.schemas :: SchemaInv(s, sch);
    CountNumbered(FamilyMembers(s, f), g.versions, g.nextVersion);
  }

  lemma {:induction false} CountNumbered(members: set<string>, numbered: map<nat, string>, n: nat)
    requires forall k | 1 <= k <= n :: k in numbered && numbered[k] in members
    requires forall m | m in members :: exists k :: 1 <= k <= n && numbered[k] == m
    requires forall j, k | 1 <= j < k <= n :: numbered[j] != numbered[k]
    ensures |members| == n
    decreases n
  {
    if n > 0 {
      forall m | m in members - {numbered[n]} ensures exists k :: 1 <= k <= n - 1 && numbered[k] == m {
        var k :| 1 <= k <= n && numbered[k] == m;
      }
      CountNumbered(members - {numbered[n]}, numbered, n - 1);
    } else {
      assert members == {};
    }
  }

  /** Position `i` holds a granted first publish into the family. */
  ghost predicate FirstAt(ops: seq<Op>, sig: A.Signature, f: string, i: nat)
    requires i < |ops|
  {
    GrantedAt(ops, sig, i) && ops[i].publish.familyId == f
      && ops[i].publish.schemaId !in Run(ops[..i], sig).registry.schemas
  }

  /** How many of them the run holds. */
  ghost function FirstCount(ops: seq<Op>, sig: A.Signature, f: string): nat {
    if ops == [] then 0
    else FirstCount(ops[..|ops| - 1], sig, f) + if FirstAt(ops, sig, f, |ops| - 1) then 1 else 0
  }

  /** The version the publish at position `i` was granted. */
  ghost function VersionAt(ops: seq<Op>, sig: A.Signature, i: nat): nat
    requires i < |ops| && GrantedAt(ops, sig, i)
  {
    Publish(Run(ops[..i], sig).registry, ops[i].publish).1.version
  }

  /** The family's counter. */
  function CounterOf(s: Registry, f: string): nat {
    if f in s.families then s.families[f].nextVersion else 0
  }

  lemma SameKeys(s: Registry)
    requires Inv(s)
    ensures s.published.Keys == s.schemas.Keys
  {
    hide FamilyInv, SchemaInv, PostingInv;
  }

  lemma CounterPublish(s: Registry, q: PublishRequest, f: string)
    requires s.published.Keys == s.schemas.Keys
    ensures CounterOf(Publish(s, q).0, f)
         == CounterOf(s, f) + if Publish(s, q).1.Published? && q.familyId == f && q.schemaId !in s.schemas then 1 else 0
  {
    hide Added, HashAfter, VersionFor, Clashes, AliasTaken;
  }

  lemma CounterApply(s: Store, op: Op, sig: A.Signature, f: string)
    requires !op.PublishOp?
    ensures CounterOf(Apply(s, op, sig).registry, f) == CounterOf(s.registry, f)
  {
    hide A.Append, A.Rebuild, Rebuilt, Foreign;
  }

  /** A family's counter is the number of first publishes the run granted into it. */
  lemma {:induction false} CounterCounts(ops: seq<Op>, sig: A.Signature, f: string)
    requires LawfulRun(ops, sig)
    ensures CounterOf(Run(ops, sig).registry, f) == FirstCount(ops, sig, f)
    decreases |ops|
  {
    hide *;
    if ops == [] {
      NoCounter(ops, sig, f);
    } else {
      var n := |ops| - 1;
      LawfulPrefix(ops, sig, n);
      CounterCounts(ops[..n], sig, f);
      CounterSnoc(ops, sig, f);
    }
  }

  lemma NoCounter(ops: seq<Op>, sig: A.Signature, f: string)
    requires ops == []
    ensures CounterOf(Run(ops, sig).registry, f) == FirstCount(ops, sig, f)
  {
  }

  lemma CounterSnoc(ops: seq<Op>, sig: A.Signature, f: string)
    requires LawfulRun(ops, sig) && ops != []
    requires var before := ops[..|ops| - 1]; CounterOf(Run(before, sig).registry, f) == FirstCount(before, sig, f)
    ensures CounterOf(Run(ops, sig).registry, f) == FirstCount(ops, sig, f)
  {
    hide Run, Publish, LawfulRun, CounterOf, Inv, A.Inv, A.Append, Rebuild, A.Rebuild;
    var n := |ops| - 1;
    LawfulPrefix(ops, sig, n);
    Reachable(ops[..n], sig);
    RunSnoc(ops, sig);
    var before := Run(ops[..n], sig);
    if ops[n].PublishOp? {
      PublishStoreIs(before, ops[n].publish);
      SameKeys(before.registry);
      CounterPublish(before.registry, ops[n].publish, f);
    } else {
      CounterApply(before, ops[n], sig, f);
    }
  }

  /** The first publishes of a run into a family are numbered 1, 2, 3, …, in the order they were granted:
      each gets one more than the number granted before it. */
  lemma FirstPublish(ops: seq<Op>, sig: A.Signature, f: string, i: nat)
    requires LawfulRun(ops, sig) && i < |ops| && FirstAt(ops, sig, f, i)
    ensures VersionAt(ops, sig, i) == FirstCount(ops[..i], sig, f) + 1
  {
    hide Inv, A.Inv, Run, LawfulRun, Publish, FirstCount;
    LawfulPrefix(ops, sig, i);
    Reachable(ops[..i], sig);
    CounterCounts(ops[..i], sig, f);
    FreshVersion(Run(ops[..i], sig).registry, ops[i].publish);
  }

  /** Of two first publishes into one family with none between them, the later gets the next version,
      whatever else happened in between. */
  lemma NextVersionFollows(ops: seq<Op>, sig: A.Signature, f: string, i: nat, j: nat)
    requires LawfulRun(ops, sig) && i < j < |ops| && FirstAt(ops, sig, f, i) && FirstAt(ops, sig, f, j)
    requires forall k | i < k < j :: !FirstAt(ops, sig, f, k)
    ensures VersionAt(ops, sig, j) == VersionAt(ops, sig, i) + 1
  {
    hide LawfulRun, FirstAt, VersionAt, Run, FirstCount;
    FirstPublish(ops, sig, f, i);
    FirstPublish(ops, sig, f, j);
    NoneBetween(ops, sig, f, i, j);
  }

  lemma {:induction false} NoneBetween(ops: seq<Op>, sig: A.Signature, f: string, i: nat, j: nat)
    requires i < j < |ops| && FirstAt(ops, sig, f, i) && forall k | i < k < j :: !FirstAt(ops, sig, f, k)
    ensures FirstCount(ops[..j], sig, f) == FirstCount(ops[..i], sig, f) + 1
    decreases j
  {
    hide FirstAt;
    assert ops[..j][..j - 1] == ops[..j - 1];
    FirstInPrefix(ops, sig, f, j, j - 1);
    if j > i + 1 {
      NoneBetween(ops, sig, f, i, j - 1);
    }
  }

  lemma FirstInPrefix(ops: seq<Op>, sig: A.Signature, f: string, n: nat, i: nat)
    requires i < n <= |ops|
    ensures FirstAt(ops[..n], sig, f, i) <==> FirstAt(ops, sig, f, i)
  {
    hide Run, Publish;
    assert ops[..n][..i] == ops[..i];
  }

  // ---- repeating a publish ----

  predicate Rewrites(op: Op, sch: string) {
    match op
    case PublishOp(q) => q.schemaId == sch
    case RebuildIndexOp => true
    case _ => false
  }

  lemma Untouched(s: Store, op: Op, sig: A.Signature, sch: string)
    requires !Rewrites(op, sch)
    ensures s.registry.index <= Apply(s, op, sig).registry.index
    ensures sch in s.registry.schemas ==>
      sch in Apply(s, op, sig).registry.schemas && Apply(s, op, sig).registry.schemas[sch] == s.registry.schemas[sch]
  {
    hide A.Append, A.Rebuild, HashAfter, Added, FamilyAfter, VersionFor, Clashes, AliasTaken;
  }

  lemma {:induction false} UntouchedRun(ops: seq<Op>, sig: A.Signature, i: nat, sch: string)
    requires LawfulRun(ops, sig) && i <= |ops| && sch in Run(ops[..i], sig).registry.schemas
    requires forall j | i <= j < |ops| :: !Rewrites(ops[j], sch)
    ensures var s, t := Run(ops[..i], sig).registry, Run(ops, sig).registry;
      s.index <= t.index && sch in t.schemas && t.schemas[sch] == s.schemas[sch]
    decreases |ops| - i
  {
    hide LawfulRun, Lawful, Apply, Run;
    if i == |ops| {
      assert ops[..i] == ops;
    } else {
      LawfulPrefix(ops, sig, i);
      Untouched(Run(ops[..i], sig), ops[i], sig, sch);
      UntouchedRun(ops, sig, i + 1, sch);
    }
  }

  /** A publish granted anywhere in a run is granted again after it, with the version it got first.
      If no rebuild and no other publish of that schema came between, only the audit log changes. */
  lemma RepeatedPublish(ops: seq<Op>, sig: A.Signature, i: nat, q: PublishRequest)
    requires LawfulRun(ops, sig) && i < |ops| && ops[i] == PublishOp(q)
    requires Publish(Run(ops[..i], sig).registry, q).1.Published?
    ensures var t := Run(ops, sig); var (u, again) := PublishStore(t, q);
      && again == Publish(Run(ops[..i], sig).registry, q).1
      && u.audit == t.audit + [PublishEvent(q)]
      && ((forall j | i < j < |ops| :: !Rewrites(ops[j], q.schemaId)) ==> u == t.(audit := u.audit))
  {
    hide *;
    AtStep(ops, sig, i, q);
    Reachable(ops[..i], sig);
    Reachable(ops, sig);
    NeverChanges(ops, sig, i + 1);
    var s, t := Run(ops[..i], sig).registry, Run(ops, sig).registry;
    InvOf(Run(ops[..i], sig), Run(ops[..i + 1], sig), Run(ops, sig), sig);
    Republish(s, q, t);
    StoreAfter(Run(ops, sig), q);
    if forall j | i < j < |ops| :: !Rewrites(ops[j], q.schemaId) {
      Written(s, q);
      UntouchedRun(ops, sig, i + 1, q.schemaId);
      NothingNew(t, q);
    }
  }

  lemma AtStep(ops: seq<Op>, sig: A.Signature, i: nat, q: PublishRequest)
    requires LawfulRun(ops, sig) && i < |ops| && ops[i] == PublishOp(q)
    ensures LawfulRun(ops[..i], sig) && LawfulRun(ops[..i + 1], sig)
    ensures Run(ops[..i + 1], sig).registry == Publish(Run(ops[..i], sig).registry, q).0
  {
    hide LawfulRun, Run, Publish;
    LawfulPrefix(ops, sig, i);
    LawfulPrefix(ops, sig, i + 1);
  }

  lemma InvOf(s: Store, next: Store, t: Store, sig: A.Signature)
    requires StoreInv(s, sig) && StoreInv(t, sig) && StoreExtends(next, t)
    ensures Inv(s.registry) && Inv(t.registry) && Extends(next.registry, t.registry)
  {
    hide Inv, A.Inv, Extends, A.Extends;
  }

  lemma StoreAfter(s: Store, q: PublishRequest)
    requires Publish(s.registry, q).1.Published?
    ensures PublishStore(s, q)
      == (s.(registry := Publish(s.registry, q).0, audit := s.audit + [PublishEvent(q)]), Publish(s.registry, q).1)
  {
    hide Publish, PublishEvent;
  }

  lemma NothingNew(t: Registry, q: PublishRequest)
    requires q.schemaId in t.schemas && t.schemas[q.schemaId].variants == Some(EncodeVariants(q.variants))
    requires Added(q) <= t.index
    ensures t.(schemas := t.schemas[q.schemaId := t.schemas[q.schemaId].(variants := Some(EncodeVariants(q.variants)))],
               index := t.index + Added(q)) == t
  {
    hide Added, EncodeVariants;
    assert t.index + Added(q) == t.index;
    assert t.schemas[q.schemaId := t.schemas[q.schemaId]] == t.schemas;
  }

  lemma Written(s: Registry, q: PublishRequest)
    requires Publish(s, q).1.Published?
    ensures var t := Publish(s, q).0;
      q.schemaId in t.schemas && t.schemas[q.schemaId].variants == Some(EncodeVariants(q.variants))
        && Added(q) <= t.index
  {
    hide Added, EncodeVariants, FamilyAfter, VersionFor;
  }

  // ---- when a publish is granted ----

  /** No record with another canonical identity, no alias of another schema. */
  predicate Permits(s: Registry, q: PublishRequest) {
    && (q.schemaId in s.schemas ==>
          s.schemas[q.schemaId].canonical == q.canonical && s.schemas[q.schemaId].canonicalizer == q.canonicalizer)
    && (q.candidateId in s.aliases ==> s.aliases[q.candidateId] == q.schemaId)
  }

  /** A publish is granted exactly when neither its schema's record nor its candidate's alias stands
      against it, the record being looked at first; whatever is refused changes nothing, not even the
      audit log, and whatever is granted changes at least that. */
  lemma OnlyGrantedPublish(s: Store, q: PublishRequest)
    ensures PublishStore(s, q).1.Published? <==> Permits(s.registry, q)
    ensures PublishStore(s, q).0 == s <==> !PublishStore(s, q).1.Published?
    ensures PublishStore(s, q).1 == Refused(Immutability) <==>
      q.schemaId in s.registry.schemas
      && (s.registry.schemas[q.schemaId].canonical != q.canonical
        || s.registry.schemas[q.schemaId].canonicalizer != q.canonicalizer)
  {
    hide Added, HashAfter, FamilyAfter, VersionFor;
    var t := PublishStore(s, q).0;
    assert PublishStore(s, q).1.Published? ==> |t.audit| == |s.audit| + 1;
  }

  /** The publish at position `i` was granted. */
  ghost predicate GrantedAt(ops: seq<Op>, sig: A.Signature, i: nat)
    requires i < |ops|
  {
    ops[i].PublishOp? && Publish(Run(ops[..i], sig).registry, ops[i].publish).1.Published?
  }

  /** One schema has one canonical identity, and one candidate becomes one schema. */
  predicate Compatible(p: PublishRequest, q: PublishRequest) {
    && (p.schemaId == q.schemaId ==> p.canonical == q.canonical && p.canonicalizer == q.canonicalizer)
    && (p.candidateId == q.candidateId ==> p.schemaId == q.schemaId)
  }

  lemma PermitsAfter(s: Registry, p: PublishRequest, q: PublishRequest)
    requires Publish(s, p).1.Published?
    ensures Permits(Publish(s, p).0, q) <==> Permits(s, q) && Compatible(p, q)
  {
    hide Added, FamilyAfter, VersionFor, EncodeVariants;
  }

  lemma PermitsUntouched(s: Store, op: Op, sig: A.Signature, q: PublishRequest)
    requires op.PublishOp? ==> !Publish(s.registry, op.publish).1.Published?
    ensures Permits(Apply(s, op, sig).registry, q) <==> Permits(s.registry, q)
  {
    hide Added, HashAfter, FamilyAfter, VersionFor, A.Append, A.Rebuild, Rebuilt, Foreign;
  }

  /** Over any run a publish is granted exactly when every publish granted before it is compatible with
      it: same canonical identity if it named the same schema, same schema if it named the same candidate.
      Whatever is refused changes nothing, not even the audit log. */
  lemma {:induction false} GrantedByHistory(ops: seq<Op>, sig: A.Signature, q: PublishRequest)
    ensures Publish(Run(ops, sig).registry, q).1.Published?
       <==> forall i | 0 <= i < |ops| && GrantedAt(ops, sig, i) :: Compatible(ops[i].publish, q)
    ensures PublishStore(Run(ops, sig), q).0 == Run(ops, sig) <==> !Publish(Run(ops, sig).registry, q).1.Published?
    decreases |ops|
  {
    hide *;
    PublishStoreIs(Run(ops, sig), q);
    OnlyGrantedPublish(Run(ops, sig), q);
    if ops == [] {
      NothingRefused(q, sig);
    } else {
      var n := |ops| - 1;
      GrantedByHistory(ops[..n], sig, q);
      OnlyGrantedPublish(Run(ops[..n], sig), q);
      PublishStoreIs(Run(ops[..n], sig), q);
      PermitsSnoc(ops, sig, q);
      forall i | 0 <= i < n ensures (GrantedAt(ops[..n], sig, i) <==> GrantedAt(ops, sig, i)) && ops[..n][i] == ops[i] {
        GrantedInPrefix(ops, sig, n, i);
      }
    }
  }

  lemma PublishStoreIs(s: Store, q: PublishRequest)
    ensures PublishStore(s, q).1 == Publish(s.registry, q).1
    ensures PublishStore(s, q).0.registry == Publish(s.registry, q).0
  {
    hide Publish;
  }

  lemma GrantedInPrefix(ops: seq<Op>, sig: A.Signature, n: nat, i: nat)
    requires i < n <= |ops|
    ensures GrantedAt(ops[..n], sig, i) <==> GrantedAt(ops, sig, i)
  {
    hide Run, Publish;
    assert ops[..n][..i] == ops[..i];
  }

  lemma RunSnoc(ops: seq<Op>, sig: A.Signature)
    requires ops != []
    ensures var n := |ops| - 1; Run(ops, sig) == Apply(Run(ops[..n], sig), ops[n], sig)
  {
    hide Apply;
  }

  /** What the last transition of a run adds to the conditions. */
  lemma PermitsSnoc(ops: seq<Op>, sig: A.Signature, q: PublishRequest)
    requires ops != []
    ensures var n := |ops| - 1;
      Permits(Run(ops, sig).registry, q)
      <==> Permits(Run(ops[..n], sig).registry, q) && (GrantedAt(ops, sig, n) ==> Compatible(ops[n].publish, q))
  {
    hide Permits, Compatible, Publish, Run, Rebuild, A.Append, A.Rebuild;
    var n := |ops| - 1;
    var before := Run(ops[..n], sig);
    RunSnoc(ops, sig);
    if GrantedAt(ops, sig, n) {
      PublishStoreIs(before, ops[n].publish);
      PermitsAfter(before.registry, ops[n].publish, q);
    } else {
      PermitsUntouched(before, ops[n], sig, q);
    }
  }

  lemma NothingRefused(q: PublishRequest, sig: A.Signature)
    ensures Permits(Run([], sig).registry, q)
  {
  }

  // ---- the structural index ----

  /** In every reachable state the index checks out, before and after a rebuild, and a rebuild adds nothing. */
  lemma IndexSound(ops: seq<Op>, sig: A.Signature)
    requires LawfulRun(ops, sig)
    ensures var s := Run(ops, sig).registry;
      Problems(s) == {} && Problems(Rebuild(s)) == {} && Rebuild(s).index <= s.index && Rebuild(s).listing == s.listing
  {
    hide Run, Problems, LawfulRun, A.Inv, FamilyInv, SchemaInv, PostingInv, Rebuilt;
    Reachable(ops, sig);
    var s := Run(ops, sig).registry;
    NothingToReport(s);
    RebuildIncluded(s);
    RebuildKeepsInv(s);
    NothingToReport(Rebuild(s));
  }

  /** Every granted republish kept the schema's bucket and named all variants recorded before. */
  ghost predicate AlwaysFullest(ops: seq<Op>, sig: A.Signature) {
    forall i | 0 <= i < |ops| && ops[i].PublishOp? :: GrantedFullest(Run(ops[..i], sig).registry, ops[i].publish)
  }

  predicate GrantedFullest(s: Registry, q: PublishRequest) {
    Publish(s, q).1.Published? ==> Fullest(s, q)
  }

  /** A rebuild gives back exactly the index that was maintained. */
  predicate Exact(s: Registry) {
    Rebuild(s) == s
  }

  ghost predicate AlwaysExact(ops: seq<Op>, sig: A.Signature) {
    forall k | 0 <= k <= |ops| :: Exact(Run(ops[..k], sig).registry)
  }

  /** A rebuild would change nothing at any moment of a run exactly when every granted republish of the
      run is a fullest one. */
  lemma {:induction false} RebuildsExactly(ops: seq<Op>, sig: A.Signature)
    requires LawfulRun(ops, sig)
    ensures AlwaysExact(ops, sig) <==> AlwaysFullest(ops, sig)
    decreases |ops|
  {
    hide *;
    if ops == [] {
      NothingToRebuild(ops, sig);
    } else {
      var n := |ops| - 1;
      LawfulPrefix(ops, sig, n);
      RebuildsExactly(ops[..n], sig);
      RunSnoc(ops, sig);
      ExactSnoc(ops, sig);
      FullestSnoc(ops, sig);
      if AlwaysExact(ops[..n], sig) {
        Reachable(ops[..n], sig);
        ExactNow(ops[..n], sig);
        ExactApply(Run(ops[..n], sig), ops[n], sig);
      }
    }
  }

  lemma NothingToRebuild(ops: seq<Op>, sig: A.Signature)
    requires ops == []
    ensures AlwaysExact(ops, sig) && AlwaysFullest(ops, sig)
  {
    hide Rebuilt;
    NoneRebuilt();
  }

  lemma ExactNow(ops: seq<Op>, sig: A.Signature)
    requires AlwaysExact(ops, sig)
    ensures Exact(Run(ops, sig).registry)
  {
    hide Run, Exact;
    assert ops[..|ops|] == ops;
  }

  /** What the last transition of a run adds to both. */
  lemma {:induction false} ExactSnoc(ops: seq<Op>, sig: A.Signature)
    requires ops != []
    ensures AlwaysExact(ops, sig) <==> AlwaysExact(ops[..|ops| - 1], sig) && Exact(Run(ops, sig).registry)
  {
    hide Run, Exact;
    var n := |ops| - 1;
    assert ops[..n + 1] == ops;
    forall k | 0 <= k <= n ensures ops[..n][..k] == ops[..k] {
    }
  }

  lemma FullestSnoc(ops: seq<Op>, sig: A.Signature)
    requires ops != []
    ensures var n := |ops| - 1;
      AlwaysFullest(ops, sig) <==>
        AlwaysFullest(ops[..n], sig)
        && (ops[n].PublishOp? ==> GrantedFullest(Run(ops[..n], sig).registry, ops[n].publish))
  {
    hide Run, GrantedFullest;
    var n := |ops| - 1;
    forall k | 0 <= k <= n ensures ops[..n][..k] == ops[..k] {
    }
  }

  lemma ExactApply(s: Store, op: Op, sig: A.Signature)
    requires StoreInv(s, sig) && Lawful(s, op) && Exact(s.registry)
    ensures Exact(Apply(s, op, sig).registry) <==> (op.PublishOp? ==> GrantedFullest(s.registry, op.publish))
  {
    hide WellMade, A.Fresh, Publish, Rebuild, GrantedFullest, Inv, A.Inv, A.Append, A.Rebuild;
    if op.PublishOp? {
      ExactStep(s.registry, op.publish);
    }
  }

  lemma NoneRebuilt()
    ensures Rebuilt(map[]) == {}
  {
  }

  lemma ExactStep(s: Registry, q: PublishRequest)
    requires Inv(s) && WellMade(q) && Exact(s)
    ensures Exact(Publish(s, q).0) <==> GrantedFullest(s, q)
  {
    hide Rebuilt, Fullest, FamilyInv, SchemaInv, PostingInv, Publish, Foreign;
    PublishKeepsInv(s, q);
    NothingForeign(s);
    NothingForeign(Publish(s, q).0);
    RefusedSame(s, q);
    if Publish(s, q).1.Published? {
      RebuildExactly(s, q);
    }
  }

  lemma RefusedSame(s: Registry, q: PublishRequest)
    ensures !Publish(s, q).1.Published? ==> Publish(s, q).0 == s
  {
    hide Clashes, AliasTaken, Added, HashAfter, FamilyAfter, VersionFor;
  }

  function SomePublish(id: string, bucket: string, vs: seq<Variant>): PublishRequest {
    PublishRequest(id, "fam_1", "cand_1", bucket, "{}", "{}", "deblob-canon-v1", vs, "op", "why", "0")
  }

  /** Without that, a rebuild can lose observed variants: a republish that names none overwrites
      the recorded list, although the index still holds their postings. */
  lemma RebuildLosesVariant(id: string, bucket: string, v: Variant, sig: A.Signature)
    requires IsSchemaId(id) && IsBucketKey(bucket) && IsBucketKey(v.bucket) && '=' !in v.fp && v.bucket != bucket
    ensures var ops := [PublishOp(SomePublish(id, bucket, [v])), PublishOp(SomePublish(id, bucket, []))];
      var s := Run(ops, sig).registry; var p := Posting(v.bucket, VariantMember(v.fp, id));
      LawfulRun(ops, sig) && p in s.index && p !in Rebuild(s).index
  {
    assert InIndex(v.bucket);
    hide Publish, Rebuild, IsSchemaId, IsBucketKey, InIndex;
    var first, second := SomePublish(id, bucket, [v]), SomePublish(id, bucket, []);
    var ops := [PublishOp(first), PublishOp(second)];
    assert WellMade(first) && WellMade(second);
    hide WellMade;
    assert ops[..0] == [] && ops[..1] == [PublishOp(first)] && ops[..2] == ops;
    assert [PublishOp(first)][..0] == [];
    assert Run([], sig) == EMPTY_STORE;
    assert Run(ops[..1], sig).registry == Publish(EMPTY_REGISTRY, first).0;
    assert Run(ops, sig).registry == Publish(Publish(EMPTY_REGISTRY, first).0, second).0;
    TwoPublishes(id, bucket, v);
  }

  lemma TwoPublishes(id: string, bucket: string, v: Variant)
    requires v.bucket != bucket && InIndex(v.bucket)
    ensures var s := Publish(Publish(EMPTY_REGISTRY, SomePublish(id, bucket, [v])).0, SomePublish(id, bucket, [])).0;
      var p := Posting(v.bucket, VariantMember(v.fp, id));
      p in s.index && p !in Rebuild(s).index
  {
    hide VariantMember, BucketMember, InIndex;
    var first, second := SomePublish(id, bucket, [v]), SomePublish(id, bucket, []);
    var r1 := Publish(EMPTY_REGISTRY, first).0;
    assert v in [v];
    assert EncodeVariants([]) == [];
    assert r1.schemas == map[id := HashAfter(EMPTY_REGISTRY, first)];
    var r2 := Publish(r1, second).0;
    assert r2.schemas == map[id := HashAfter(r1, second)];
    assert DecodeVariants([]) == [];
    assert PostingsOf(id, r2.schemas[id]) == {Posting(second.bucket, BucketMember(id))};
  }

  // ---- semantic annotations ----

  /** In every reachable state the reverse index and the postings are the exact inverse of the active
      pointers, no document frequency exceeds the population, and rebuilding them changes nothing. */
  lemma SemanticIndexesExact(ops: seq<Op>, sig: A.Signature)
    requires LawfulRun(ops, sig)
    ensures var s := Run(ops, sig).notes;
      && (forall k, sch :: A.Link(k, sch) in s.semIndex <==> sch in s.active && s.active[sch].semId == k)
      && (forall k, sch :: A.Link(k, sch) in s.semSig <==>
            sch in s.active && s.active[sch].features.Some? && k in s.active[sch].features.value)
      && s.annotated == s.active.Keys
      && (forall k :: A.Frequency(s, k) <= |s.annotated|)
      && A.Rebuild(s, sig) == s
  {
    hide Run, LawfulRun, Inv, A.ChainInv, A.ActiveFeatures, A.Frequency, A.Rebuild;
    Reachable(ops, sig);
    var s := Run(ops, sig).notes;
    A.RebuildChangesNothing(s, sig);
    forall k ensures A.Frequency(s, k) <= |s.annotated| {
      A.FrequencyBounded(s, k, sig);
    }
    forall k, sch ensures A.Link(k, sch) in s.semSig <==>
            sch in s.active && s.active[sch].features.Some? && k in s.active[sch].features.value {
      if sch in s.active {
        assert A.ActiveInv(s, sch, sig);
      } else {
        A.NoFeatures(s, sch, sig);
      }
    }
  }

  /** A schema's etag is the number of its stored revisions: following `previous_revision_id` from
      the active one for that many steps visits each exactly once and ends at the empty id. */
  lemma RevisionChain(ops: seq<Op>, sig: A.Signature, sch: string)
    requires LawfulRun(ops, sig)
    ensures var s := Run(ops, sig).notes; var c := A.Chain(s, sch);
      && |c| == A.CurrentEtag(s, sch) == |set k | k in s.revisions && k.sch == sch|
      && (sch in s.active ==> c != [] && c[|c| - 1] == s.active[sch].revisionId)
      && A.Linked(s.revisions, sch, c)
      && (forall i, j | 0 <= i < j < |c| :: c[i] != c[j])
      && (forall k | k in s.revisions && k.sch == sch :: k.rev in c)
  {
    hide Run, LawfulRun, Inv, A.IndexesInv, A.ActiveInv, A.Chain, A.Linked;
    Reachable(ops, sig);
    var s := Run(ops, sig).notes;
    assert A.ChainInv(s, sch);
    var c := A.Chain(s, sch);
    forall k | k in s.revisions && k.sch == sch ensures k.rev in c {
      assert k == A.RevisionKey(sch, k.rev);
    }
    CountKeys(c, sch, (set k | k in s.revisions && k.sch == sch));
  }

  lemma {:induction false} CountKeys(c: seq<string>, sch: string, keys: set<A.RevisionKey>)
    requires forall i, j | 0 <= i < j < |c| :: c[i] != c[j]
    requires forall k :: k in keys <==> k.sch == sch && k.rev in c
    ensures |keys| == |c|
    decreases |c|
  {
    if c == [] {
      assert keys == {} by {
        forall k ensures k !in keys {
        }
      }
    } else {
      var n := |c| - 1;
      var last := A.RevisionKey(sch, c[n]);
      forall k ensures k in keys - {last} <==> k.sch == sch && k.rev in c[..n] {
        assert c == c[..n] + [c[n]];
        assert k == last <==> k.sch == sch && k.rev == c[n];
      }
      CountKeys(c[..n], sch, keys - {last});
    }
  }

  /** Each etag is granted at most once: of any appends to one schema in a run, a later granted one
      gets a larger etag, and no two of them expected the same one. */
  lemma OneWinner(ops: seq<Op>, sig: A.Signature, i: nat, j: nat)
    requires LawfulRun(ops, sig) && i < j < |ops| && ops[i].AppendOp? && ops[j].AppendOp?
    requires ops[i].append.sch == ops[j].append.sch
    requires A.Append(Run(ops[..i], sig).notes, ops[i].append, sig).1.Appended?
    requires A.Append(Run(ops[..j], sig).notes, ops[j].append, sig).1.Appended?
    ensures A.Append(Run(ops[..i], sig).notes, ops[i].append, sig).1.etag
      < A.Append(Run(ops[..j], sig).notes, ops[j].append, sig).1.etag
    ensures A.Expected(ops[i].append) != A.Expected(ops[j].append)
  {
    hide Run, A.Append, A.Extends, Extends, LawfulRun;
    LawfulPrefix(ops, sig, i);
    LawfulPrefix(ops, sig, j);
    assert ops[..j][..i + 1] == ops[..i + 1];
    NeverChanges(ops[..j], sig, i + 1);
    A.LaterEtag(Run(ops[..i], sig).notes, ops[i].append, Run(ops[..j], sig).notes, ops[j].append, sig);
  }

  /** The append at position `i` was granted. */
  ghost predicate AppendedAt(ops: seq<Op>, sig: A.Signature, sch: string, i: nat)
    requires i < |ops|
  {
    ops[i].AppendOp? && ops[i].append.sch == sch && A.Append(Run(ops[..i], sig).notes, ops[i].append, sig).1.Appended?
  }

  /** How many appends to the schema the run granted. */
  ghost function AppendCount(ops: seq<Op>, sig: A.Signature, sch: string): nat {
    if ops == [] then 0
    else AppendCount(ops[..|ops| - 1], sig, sch) + if AppendedAt(ops, sig, sch, |ops| - 1) then 1 else 0
  }

  /** The last of them. */
  ghost function LastAppend(ops: seq<Op>, sig: A.Signature, sch: string): Option<A.AppendRequest> {
    if ops == [] then None
    else if AppendedAt(ops, sig, sch, |ops| - 1) then Some(ops[|ops| - 1].append)
    else LastAppend(ops[..|ops| - 1], sig, sch)
  }

  /** A schema's annotation is what its last granted append left, under the number of them. */
  ghost predicate NotedBy(n: A.Annotations, sch: string, count: nat, last: Option<A.AppendRequest>) {
    && A.CurrentEtag(n, sch) == count
    && (sch in n.active <==> last.Some?)
    && (last.Some? ==>
          var rev := last.value.newRevision;
          && n.active[sch].revisionId == rev && n.active[sch].semId == last.value.semId
          && A.RevisionKey(sch, rev) in n.revisions && n.revisions[A.RevisionKey(sch, rev)].bytes == last.value.bytes)
  }

  lemma NotedAppend(n: A.Annotations, a: A.AppendRequest, sig: A.Signature, sch: string, count: nat,
                    last: Option<A.AppendRequest>)
    requires NotedBy(n, sch, count, last)
    ensures var (m, r) := A.Append(n, a, sig);
      if r.Appended? && a.sch == sch then NotedBy(m, sch, count + 1, Some(a)) else NotedBy(m, sch, count, last)
  {
    hide A.Links, A.Unlinked, A.OldFeatures;
  }

  lemma NotedApply(s: Store, op: Op, sig: A.Signature, sch: string, count: nat, last: Option<A.AppendRequest>)
    requires A.Inv(s.notes, sig) && !op.AppendOp? && NotedBy(s.notes, sch, count, last)
    ensures NotedBy(Apply(s, op, sig).notes, sch, count, last)
  {
    hide A.Inv, A.Rebuild, Rebuild, Publish, NotedBy;
    A.RebuildChangesNothing(s.notes, sig);
  }

  lemma NotesOf(s: Store, sig: A.Signature)
    requires StoreInv(s, sig)
    ensures A.Inv(s.notes, sig)
  {
    hide A.Inv, Inv;
  }

  lemma {:induction false} NotedAlways(ops: seq<Op>, sig: A.Signature, sch: string)
    requires LawfulRun(ops, sig)
    ensures NotedBy(Run(ops, sig).notes, sch, AppendCount(ops, sig, sch), LastAppend(ops, sig, sch))
    decreases |ops|
  {
    hide A.Append, A.Inv, Apply, LawfulRun, Lawful, NotedBy, StoreInv;
    if ops == [] {
      NothingNoted(sch);
    } else {
      var n := |ops| - 1;
      LawfulPrefix(ops, sig, n);
      NotedAlways(ops[..n], sig, sch);
      Reachable(ops[..n], sig);
      var before, count, last := Run(ops[..n], sig), AppendCount(ops[..n], sig, sch), LastAppend(ops[..n], sig, sch);
      if ops[n].AppendOp? {
        NotedAppend(before.notes, ops[n].append, sig, sch, count, last);
        AppendApplied(before, ops[n].append, sig);
      } else {
        NotesOf(before, sig);
        NotedApply(before, ops[n], sig, sch, count, last);
      }
    }
  }

  lemma AppendApplied(s: Store, a: A.AppendRequest, sig: A.Signature)
    ensures Apply(s, AppendOp(a), sig).notes == A.Append(s.notes, a, sig).0
  {
    hide A.Append;
  }

  lemma NothingNoted(sch: string)
    ensures NotedBy(EMPTY_STORE.notes, sch, 0, None)
  {
  }

  /** The answer that the number of appends granted so far and the last of them call for. */
  function AppendAnswer(a: A.AppendRequest, count: nat, last: Option<A.AppendRequest>): A.AppendResult {
    if last.Some? && last.value.bytes == a.bytes then
      A.AlreadyActive(last.value.newRevision, last.value.semId, count)
    else if a.reason == "" then A.MissingReason
    else if (match a.expected case None => 0 case Some(e) => e) != count then A.EtagConflict(count)
    else A.Appended(a.newRevision, a.semId, count + 1)
  }

  /** Over any run an append is answered by the history of its schema's granted appends alone: one that
      repeats the bytes of the last of them is answered with that one; then a missing reason is refused;
      then the expected etag must be the number of them, and the append gets the next. Whatever is not
      granted changes nothing, not even the audit log. */
  lemma AppendedByHistory(ops: seq<Op>, sig: A.Signature, a: A.AppendRequest)
    requires LawfulRun(ops, sig)
    ensures var (t, r) := AppendStore(Run(ops, sig), a, sig);
      && r == AppendAnswer(a, AppendCount(ops, sig, a.sch), LastAppend(ops, sig, a.sch))
      && (t == Run(ops, sig) <==> !r.Appended?)
  {
    hide Run, LawfulRun, AppendCount, LastAppend, A.Links, A.Unlinked, A.OldFeatures;
    NotedAlways(ops, sig, a.sch);
    var (t, r) := AppendStore(Run(ops, sig), a, sig);
    assert r.Appended? ==> |t.audit| == |Run(ops, sig).audit| + 1;
  }
}
