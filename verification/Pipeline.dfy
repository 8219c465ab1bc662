/** The relay, its matcher and the vault as one system: batches whose records are classified one by
    one, through the cache, against an index that publishes and rebuilds change in between. */
module Pipeline {
  import opened Options
  import opened Shapes
  import opened Fingerprint
  import opened Members
  import opened Publication
  import opened ParseSpec
  import opened Settle
  import opened Routing
  import A = Annotations
  import D = Delivery
  import M = Matcher
  import VR = VaultRuns
  import V = Vault
  import Json

  type Log = map<Cursor, RawRecord>

  datatype Setup = Setup(cfg: RelayCfg, limits: Json.Limits, codec: M.Codec, capacity: nat, sig: A.Signature)

  /** `answers` are the classifications of the first records of the batch in hand. */
  datatype System = System(world: D.World, lru: seq<M.Entry>, answers: seq<M.Classification>, store: VR.Store)

  datatype Event =
    | RelayStep(step: D.Event)
    | Ask(reply: M.Reply)
    | VaultStep(op: VR.Op)

  /** Stands for the classification of a record that needs none. */
  const NOT_ASKED := M.Classification(M.Unresolved, None, None, None, 0)

  ghost predicate AllExplained(answers: seq<M.Classification>) {
    forall c | c in answers :: Explained(c)
  }

  /** The counters after the first `k` records of the batch. */
  ghost function Mid(cfg: RelayCfg, m: Counters, batch: seq<RawRecord>, answers: seq<M.Classification>,
                     k: nat): (r: Counters)
    requires AllInBounds(cfg.settle, m) && AllExplained(answers) && k <= |batch| && k <= |answers|
    ensures AllInBounds(cfg.settle, r)
  {
    if k == 0 then m else Plan(cfg, Mid(cfg, m, batch, answers, k - 1), batch[k - 1], answers[k - 1]).1
  }

  /** Whether the relay asks the matcher about the record. */
  predicate Asks(cfg: RelayCfg, m: Counters, r: RawRecord)
    requires AllInBounds(cfg.settle, m)
  {
    r.payload.Some? && |r.payload.value| <= ProduceCap(cfg) && Before(cfg.settle, m, r.cursor.at.topic).1.Classify?
  }

  ghost predicate Ready(setup: Setup, s: System) {
    setup.capacity > 0 && AllInBounds(setup.cfg.settle, s.world.counters) && AllExplained(s.answers)
  }

  /** The next record's classification, and the cache after it. */
  ghost function Answer(setup: Setup, s: System, reply: M.Reply): (seq<M.Entry>, M.Classification)
    requires Ready(setup, s) && |s.answers| < |s.world.batch|
  {
    var r := s.world.batch[|s.answers|];
    if Asks(setup.cfg, Mid(setup.cfg, s.world.counters, s.world.batch, s.answers, |s.answers|), r) then
      M.Classify(s.lru, setup.capacity, setup.codec, r.cursor.at.topic, r.payload.value, setup.limits, reply)
    else (s.lru, NOT_ASKED)
  }

  /** The batch is processed with the answers given, and no record behind the first failure has one. */
  ghost predicate Answered(cfg: RelayCfg, w: D.World, answers: seq<M.Classification>, env: Env)
    requires AllInBounds(cfg.settle, w.counters) && EnvExplained(env)
  {
    var n := |answers|;
    && 0 < n <= |w.batch|
    && (forall i | 0 <= i < n :: env.classify(i) == answers[i])
    && EnqueueFrom(cfg, w.counters, w.batch[..n - 1], 0, [], env).1.Produced?
    && (n == |w.batch| || !EnqueueFrom(cfg, w.counters, w.batch[..n], 0, [], env).1.Produced?)
  }

  /** If the registry is asked about the record, it answers from its index. */
  ghost predicate HonestAbout(setup: Setup, index: set<Posting>, r: RawRecord, reply: M.Reply) {
    r.payload.Some? ==> M.HonestReply(index, setup.codec, r.payload.value, setup.limits, reply)
  }

  /** One event of the relay or its broker. A restarted relay begins with an empty cache. */
  ghost predicate RelayMoves(setup: Setup, s: System, d: D.Event, t: System)
    requires Ready(setup, s)
  {
    && D.Enabled(s.world, d)
    && (d.Receive? ==> s.answers == [])
    && (d.Flush? ==> Answered(setup.cfg, s.world, s.answers, d.env))
    && t == System(D.Next(setup.cfg, s.world, d), if d.Restart? then [] else s.lru,
                   if d.Arrive? || d.Receive? then s.answers else [], s.store)
  }

  /** The next record of the batch in hand is classified. */
  ghost predicate Classifies(setup: Setup, s: System, reply: M.Reply, t: System)
    requires Ready(setup, s)
  {
    && s.world.up && |s.answers| < |s.world.batch|
    && HonestAbout(setup, s.store.registry.index, s.world.batch[|s.answers|], reply)
    && var (lru, c) := Answer(setup, s, reply);
       t == s.(lru := lru, answers := s.answers + [c])
  }

  ghost predicate StepTo(setup: Setup, s: System, e: Event, t: System) {
    Ready(setup, s) &&
    match e
    case RelayStep(d) => RelayMoves(setup, s, d, t)
    case Ask(reply) => Classifies(setup, s, reply, t)
    case VaultStep(op) => VR.Lawful(s.store, op) && t == s.(store := VR.Apply(s.store, op, setup.sig))
  }

  /** A run: a system after each event, from a relay that is down and has read nothing. */
  ghost predicate IsRun(setup: Setup, store: VR.Store, systems: seq<System>, events: seq<Event>) {
    && |systems| == |events| + 1 && systems[0] == System(D.START, [], [], store)
    && forall i | 0 <= i < |events| :: StepTo(setup, systems[i], events[i], systems[i + 1])
  }

  // ---- the vault's answers are honest ----

  /** Base32 of a digest is the body of a schema id, and the key hash is eight hexadecimal digits. */
  ghost predicate CodecOk(codec: M.Codec) {
    && (forall d :: IsSchemaId(SCHEMA_PREFIX + codec.base32(d)))
    && (forall keys :: IsHexDigits(codec.keyHash(keys)))
  }

  function ReplyOf(r: V.Resolution): M.Reply {
    match r
    case Hit(id) => M.Found(Some(id))
    case Miss => M.Found(None)
    case Corrupt(_) => M.Unavailable
  }

  lemma BodyOf(body: string)
    ensures Body(SCHEMA_PREFIX + body) == body
  {
    assert (SCHEMA_PREFIX + body)[..4] == SCHEMA_PREFIX && (SCHEMA_PREFIX + body)[4..] == body;
  }

  /** Asking the vault: its answer is honest, and in a state of the invariant it always has one. */
  method ResolveStructural(vault: V.RedisVault, codec: M.Codec, s: Shape) returns (reply: M.Reply)
    requires CodecOk(codec)
    ensures M.Answers(vault.index, s, codec, reply)
    ensures Inv(vault.Contents().registry) ==> reply.Found?
  {
    hide IsSchemaId, FingerprintOf, M.BucketOf, Inv;
    BodyOf(codec.base32(FingerprintOf(s)));
    var r := vault.Resolve(M.BucketOf(s, codec), SCHEMA_PREFIX + codec.base32(FingerprintOf(s)));
    reply := ReplyOf(r);
    if Inv(vault.Contents().registry) {
      forall id | M.Filed(vault.index, s, codec, id) ensures IsSchemaId(id) {
        FiledId(vault.Contents().registry, s, codec, id);
      }
    }
  }

  lemma FiledId(r: Registry, s: Shape, codec: M.Codec, id: string)
    requires Inv(r) && CodecOk(codec) && M.Filed(r.index, s, codec, id)
    ensures IsSchemaId(id) && id in r.schemas
  {
    hide IsSchemaId, FingerprintOf, M.BucketOf, Inv, M.Filed;
    var body := codec.base32(FingerprintOf(s));
    BodyOf(body);
    IdHasNoEquals(SCHEMA_PREFIX + body);
    M.FiledIsPublished(r, s, codec, id);
  }

  // ---- what a tag rests on ----

  /** The record's own document was filed under `id`. */
  predicate FiledFor(setup: Setup, known: set<Posting>, r: RawRecord, id: string) {
    r.payload.Some?
    && var p := ParseBounded(r.payload.value, setup.limits);
       p.Success? && M.Filed(known, ShapeOf(p.value), setup.codec, id)
  }

  predicate AnswerOk(setup: Setup, known: set<Posting>, r: RawRecord, c: M.Classification) {
    Explained(c) && (c.schemaRef.Known? ==> FiledFor(setup, known, r, c.schemaRef.id))
  }

  // ---- more is known later ----

  lemma FiledForGrows(setup: Setup, known: set<Posting>, more: set<Posting>, r: RawRecord, id: string)
    requires FiledFor(setup, known, r, id) && known <= more
    ensures FiledFor(setup, more, r, id)
  {
    hide ParseBounded, ShapeOf, FingerprintOf, M.BucketOf;
  }

  ghost predicate LogGrows(log: Log, log': Log) {
    forall c | c in log :: c in log' && log'[c] == log[c]
  }

  /** A failure among the first records is the failure of the batch. */
  lemma {:induction false} FailsEarly(cfg: RelayCfg, m: Counters, batch: seq<RawRecord>, n: nat, i: nat,
                                      open: seq<Output>, env: Env)
    requires AllInBounds(cfg.settle, m) && EnvExplained(env) && i <= n <= |batch|
    ensures !EnqueueFrom(cfg, m, batch[..n], i, open, env).1.Produced? ==>
      EnqueueFrom(cfg, m, batch, i, open, env) == EnqueueFrom(cfg, m, batch[..n], i, open, env)
    decreases n - i
  {
    hide Plan, SendAll, AllInBounds;
    if i < n {
      var (outs, m') := Plan(cfg, m, batch[i], env.classify(i));
      var (open', status) := SendAll(cfg, outs, open, env.enqueueOk);
      if status.Produced? {
        FailsEarly(cfg, m', batch, n, i + 1, open', env);
      }
    }
  }

  // ---- the invariant ----

  /** Everything that has been filed names a published schema. */
  ghost predicate Owned(known: set<Posting>, schemas: map<string, SchemaHash>) {
    forall p | p in known :: Owner(p).Some? && Owner(p).value in schemas
  }

  ghost predicate AnswersOk(setup: Setup, known: set<Posting>, batch: seq<RawRecord>, answers: seq<M.Classification>) {
    |answers| <= |batch| && forall i | 0 <= i < |answers| :: AnswerOk(setup, known, batch[i], answers[i])
  }

  /** `known` holds all the index has held so far. */
  ghost predicate SystemInv(setup: Setup, s: System, known: set<Posting>) {
    && D.Inv(setup.cfg, s.world)
    && VR.StoreInv(s.store, setup.sig)
    && s.store.registry.index <= known && Owned(known, s.store.registry.schemas)
    && M.CacheInv(s.lru, setup.capacity, setup.codec, known)
    && AnswersOk(setup, known, s.world.batch, s.answers)
  }

  lemma AnswersExplained(setup: Setup, known: set<Posting>, batch: seq<RawRecord>, answers: seq<M.Classification>)
    requires AnswersOk(setup, known, batch, answers)
    ensures AllExplained(answers) && |answers| <= |batch|
  {
    hide FiledFor;
  }

  lemma InvReady(setup: Setup, s: System, known: set<Posting>)
    requires SystemInv(setup, s, known) && setup.capacity > 0
    ensures Ready(setup, s) && |s.answers| <= |s.world.batch|
  {
    hide VR.StoreInv, Owned, M.CacheInv, AllInBounds, AnswersOk, D.RecordsOk;
    AnswersExplained(setup, known, s.world.batch, s.answers);
  }

  /** The answer to one record is backed. */
  lemma AnswerBacked(setup: Setup, s: System, known: set<Posting>, reply: M.Reply, t: System)
    requires Ready(setup, s) && Classifies(setup, s, reply, t)
    requires s.store.registry.index <= known && M.CacheInv(s.lru, setup.capacity, setup.codec, known)
    ensures M.CacheInv(t.lru, setup.capacity, setup.codec, known) && |s.answers| < |s.world.batch|
    ensures exists c ::
      t == s.(lru := t.lru, answers := s.answers + [c]) && AnswerOk(setup, known, s.world.batch[|s.answers|], c)
  {
    hide Mid, M.CacheInv, M.Classify, AllInBounds, M.HonestReply, AllExplained, AnswerOk;
    var r := s.world.batch[|s.answers|];
    var c := Answer(setup, s, reply).1;
    if Asks(setup.cfg, Mid(setup.cfg, s.world.counters, s.world.batch, s.answers, |s.answers|), r) {
      var topic, payload := r.cursor.at.topic, r.payload.value;
      M.ClassifyKeepsCache(s.lru, setup.capacity, setup.codec, known, s.store.registry.index, topic, payload,
        setup.limits, reply);
      M.AnswerAllowed(s.lru, setup.capacity, setup.codec, known, s.store.registry.index, topic, payload, setup.limits,
        reply);
      AllowedOk(setup, known, s.store.registry.index, r, reply.Found?,
                M.Classify(s.lru, setup.capacity, setup.codec, topic, payload, setup.limits, reply).1);
    } else {
      NotAskedOk(setup, known, r);
    }
    assert AnswerOk(setup, known, r, c);
  }

  lemma NotAskedOk(setup: Setup, known: set<Posting>, r: RawRecord)
    ensures AnswerOk(setup, known, r, NOT_ASKED)
  {
  }

  lemma AllowedOk(setup: Setup, known: set<Posting>, now: set<Posting>, r: RawRecord, up: bool, c: M.Classification)
    requires r.payload.Some?
    requires M.Allowed(known, now, setup.codec, r.cursor.at.topic, r.payload.value, setup.limits, up, c)
    ensures AnswerOk(setup, known, r, c)
  {
    hide ParseBounded, ShapeOf, FingerprintOf, M.BucketOf, M.Filed;
  }

  // ---- every step keeps it ----

  lemma AskKeeps(setup: Setup, s: System, known: set<Posting>, reply: M.Reply, t: System)
    requires SystemInv(setup, s, known) && StepTo(setup, s, Ask(reply), t)
    ensures SystemInv(setup, t, known) && t.store == s.store
  {
    hide AnswerOk, AnswersOk, Classifies, D.Inv, M.CacheInv, Mains, Owned, Ready, RelayMoves, VR.Apply, VR.Lawful,
      VR.StoreInv;
    AnswerBacked(setup, s, known, reply, t);
    var c :| t == s.(lru := t.lru, answers := s.answers + [c]) && AnswerOk(setup, known, s.world.batch[|s.answers|], c);
    AnswersSnoc(setup, known, s.world.batch, s.answers, c);
  }

  lemma AnswersSnoc(setup: Setup, known: set<Posting>, batch: seq<RawRecord>, answers: seq<M.Classification>,
                    c: M.Classification)
    requires AnswersOk(setup, known, batch, answers) && |answers| < |batch|
    requires AnswerOk(setup, known, batch[|answers|], c)
    ensures AnswersOk(setup, known, batch, answers + [c])
  {
    hide AnswerOk;
  }

  lemma VaultKeeps(setup: Setup, s: System, known: set<Posting>, op: VR.Op, t: System)
    requires SystemInv(setup, s, known) && StepTo(setup, s, VaultStep(op), t)
    ensures SystemInv(setup, t, known + t.store.registry.index)
  {
    hide AnswersOk, Classifies, D.Inv, LogGrows, M.CacheInv, Mains, Owned, Ready, RelayMoves, VR.Apply, VR.Lawful,
      VR.StoreInv;
    var more := known + t.store.registry.index;
    VR.ApplyKeepsInv(s.store, op, setup.sig);
    M.CacheInvGrows(s.lru, setup.capacity, setup.codec, known, more);
    AnswersGrow(setup, known, more, s.world.batch, s.answers);
    OwnedGrows(setup, s.store, op, known);
  }

  lemma AnswersGrow(setup: Setup, known: set<Posting>, more: set<Posting>, batch: seq<RawRecord>,
                    answers: seq<M.Classification>)
    requires AnswersOk(setup, known, batch, answers) && known <= more
    ensures AnswersOk(setup, more, batch, answers)
  {
    hide FiledFor;
    forall i | 0 <= i < |answers| ensures AnswerOk(setup, more, batch[i], answers[i]) {
      if answers[i].schemaRef.Known? {
        FiledForGrows(setup, known, more, batch[i], answers[i].schemaRef.id);
      }
    }
  }

  lemma OwnedGrows(setup: Setup, store: VR.Store, op: VR.Op, known: set<Posting>)
    requires VR.StoreInv(store, setup.sig) && VR.Lawful(store, op) && Owned(known, store.registry.schemas)
    ensures var t := VR.Apply(store, op, setup.sig).registry; Owned(known + t.index, t.schemas)
  {
    hide VR.Apply, VR.Lawful, A.Inv, A.Extends, Owner, FamilyInv, SchemaInv;
    VR.ApplyKeepsInv(store, op, setup.sig);
    VR.ApplyExtends(store, op, setup.sig);
    var t := VR.Apply(store, op, setup.sig).registry;
    forall p | p in t.index ensures Owner(p).Some? && Owner(p).value in t.schemas {
      assert PostingInv(t, p);
    }
  }

  lemma FlushKeeps(setup: Setup, s: System, known: set<Posting>, env: Env, t: System)
    requires SystemInv(setup, s, known) && StepTo(setup, s, RelayStep(D.Flush(env)), t)
    ensures SystemInv(setup, t, known) && t.store == s.store
  {
    hide AllExplained, AllInBounds, Answered, AnswersOk, Classifies, D.Enabled, D.Inv, D.Next, M.CacheInv, Mains, Owned,
      VR.Apply, VR.Lawful, VR.StoreInv;
    D.NextKeeps(setup.cfg, s.world, D.Flush(env));
    NoAnswers(setup, known, t.world.batch);
  }

  lemma OtherKeeps(setup: Setup, s: System, known: set<Posting>, d: D.Event, t: System)
    requires SystemInv(setup, s, known) && StepTo(setup, s, RelayStep(d), t) && !d.Flush?
    ensures SystemInv(setup, t, known) && t.store == s.store
  {
    hide AllExplained, AllInBounds, Answered, AnswersOk, Classifies, D.Enabled, D.Inv, D.Next, LogGrows, M.CacheInv,
      Mains, Owned, VR.Apply, VR.Lawful, VR.StoreInv;
    D.NextKeeps(setup.cfg, s.world, d);
    OtherSame(setup.cfg, s.world, d);
    NoCache(setup, known);
    NoAnswers(setup, known, t.world.batch);
  }

  lemma NoCache(setup: Setup, known: set<Posting>)
    ensures M.CacheInv([], setup.capacity, setup.codec, known)
  {
  }

  lemma NoAnswers(setup: Setup, known: set<Posting>, batch: seq<RawRecord>)
    ensures AnswersOk(setup, known, batch, [])
  {
  }

  /** Only a batch changes what is committed. */
  lemma OtherSame(cfg: RelayCfg, w: D.World, d: D.Event)
    requires D.Enabled(w, d) && AllInBounds(cfg.settle, w.counters) && !d.Flush?
    ensures var t := D.Next(cfg, w, d);
      && LogGrows(w.log, t.log) && t.broker.committed == w.broker.committed
      && t.counters == (if d.Restart? then map[] else w.counters)
      && (d.Arrive? ==> t.batch == w.batch)
  {
    hide Process, AllInBounds;
    if d.Arrive? {
      D.NotThere(D.BooksOf(w), d.record.cursor);
    }
  }

  lemma NextKeeps(setup: Setup, s: System, known: set<Posting>, e: Event, t: System)
    requires SystemInv(setup, s, known) && StepTo(setup, s, e, t)
    ensures SystemInv(setup, t, known + t.store.registry.index)
  {
    hide *;
    match e
    case RelayStep(d) =>
      if d.Flush? {
        FlushKeeps(setup, s, known, d.env, t);
      } else {
        OtherKeeps(setup, s, known, d, t);
      }
      IndexKnown(setup, s, known);
    case Ask(reply) =>
      AskKeeps(setup, s, known, reply, t);
      IndexKnown(setup, s, known);
    case VaultStep(op) =>
      VaultKeeps(setup, s, known, op, t);
  }

  lemma IndexKnown(setup: Setup, s: System, known: set<Posting>)
    requires SystemInv(setup, s, known)
    ensures known + s.store.registry.index == known
  {
    hide AnswersOk, D.Inv, M.CacheInv, Mains, Owned, VR.StoreInv;
  }

  // ---- runs ----

  /** The postings the index has held at some moment of the run. */
  function EverFiled(systems: seq<System>): set<Posting> {
    set i, p | 0 <= i < |systems| && p in systems[i].store.registry.index :: p
  }

  lemma EverSnoc(systems: seq<System>, t: System)
    ensures EverFiled(systems + [t]) == EverFiled(systems) + t.store.registry.index
  {
    var all := systems + [t];
    assert all[|systems|] == t;
    assert forall i | 0 <= i < |systems| :: all[i] == systems[i];
  }

  lemma NothingEver()
    ensures EverFiled([]) == {}
  {
  }

  lemma StartInv(setup: Setup, store: VR.Store)
    requires VR.StoreInv(store, setup.sig)
    ensures SystemInv(setup, System(D.START, [], [], store), store.registry.index)
  {
    hide AnswersOk, D.Inv, M.CacheInv, Mains, Owned, VR.StoreInv;
    D.InvStart(setup.cfg);
    assert Owned(store.registry.index, store.registry.schemas) by { IndexOwned(setup, store); }
    NoCache(setup, store.registry.index);
    NoAnswers(setup, store.registry.index, []);
  }

  lemma IndexOwned(setup: Setup, store: VR.Store)
    requires VR.StoreInv(store, setup.sig)
    ensures Owned(store.registry.index, store.registry.schemas)
  {
    hide Owner, FamilyInv, SchemaInv, A.Inv;
    forall p | p in store.registry.index ensures Owner(p).Some? && Owner(p).value in store.registry.schemas {
      assert PostingInv(store.registry, p);
    }
  }

  lemma {:induction false} RunInv(setup: Setup, store: VR.Store, systems: seq<System>, events: seq<Event>, i: nat)
    requires IsRun(setup, store, systems, events) && VR.StoreInv(store, setup.sig) && i <= |events|
    ensures SystemInv(setup, systems[i], EverFiled(systems[..i + 1]))
    decreases i
  {
    hide EverFiled, StepTo, SystemInv, VR.StoreInv;
    if i == 0 {
      StartInv(setup, store);
      assert systems[..1] == [] + [systems[0]];
      EverSnoc([], systems[0]);
      NothingEver();
      assert {} + store.registry.index == store.registry.index;
    } else {
      RunInv(setup, store, systems, events, i - 1);
      NextKeeps(setup, systems[i - 1], EverFiled(systems[..i]), events[i - 1], systems[i]);
      assert systems[..i + 1] == systems[..i] + [systems[i]];
      EverSnoc(systems[..i], systems[i]);
    }
  }

  // ---- no reachable system is stuck ----

  /** The registry's answer from its index. */
  lemma HonestExists(setup: Setup, index: set<Posting>, r: RawRecord) returns (reply: M.Reply)
    ensures HonestAbout(setup, index, r, reply) && reply.Found?
  {
    hide ParseBounded, ShapeOf, M.Filed;
    reply := M.Found(None);
    if r.payload.Some? && ParseBounded(r.payload.value, setup.limits).Success? {
      var s := ShapeOf(ParseBounded(r.payload.value, setup.limits).value);
      if id :| M.Filed(index, s, setup.codec, id) {
        reply := M.Found(Some(id));
      }
    }
  }

  /** Every call on the broker succeeds. */
  function Willing(answers: seq<M.Classification>): Env {
    Env((i: nat) => if i < |answers| then answers[i] else NOT_ASKED, _ => true, _ => true, true)
  }

  lemma WillingExplained(answers: seq<M.Classification>)
    requires AllExplained(answers)
    ensures EnvExplained(Willing(answers))
  {
  }

  lemma {:induction false} AllAccepted(cfg: RelayCfg, outs: seq<Output>, open: seq<Output>, ok: nat -> bool)
    requires cfg.fault.None? && forall k :: ok(k)
    ensures SendAll(cfg, outs, open, ok).1.Produced?
    decreases |outs|
  {
    if outs != [] {
      AllAccepted(cfg, outs[1..], open + [outs[0]], ok);
    }
  }

  lemma {:induction false} AllEnqueued(cfg: RelayCfg, m: Counters, batch: seq<RawRecord>, i: nat, open: seq<Output>,
                                       env: Env)
    requires AllInBounds(cfg.settle, m) && EnvExplained(env) && i <= |batch|
    requires cfg.fault.None? && forall k :: env.enqueueOk(k)
    ensures EnqueueFrom(cfg, m, batch, i, open, env).1.Produced?
    decreases |batch| - i
  {
    hide AllInBounds, EnvExplained, Plan, SendAll;
    if i < |batch| {
      assert Explained(env.classify(i)) by { OneExplained(env, i); }
      var (outs, m') := Plan(cfg, m, batch[i], env.classify(i));
      AllAccepted(cfg, outs, open, env.enqueueOk);
      AllEnqueued(cfg, m', batch, i + 1, SendAll(cfg, outs, open, env.enqueueOk).0, env);
    }
  }

  lemma OneExplained(env: Env, i: nat)
    requires EnvExplained(env)
    ensures Explained(env.classify(i))
  {
  }

  lemma WillingAnswers(cfg: RelayCfg, w: D.World, answers: seq<M.Classification>)
    requires AllInBounds(cfg.settle, w.counters) && AllExplained(answers) && cfg.fault.None?
    requires |answers| == |w.batch| > 0
    ensures var env := Willing(answers); EnvExplained(env) && Answered(cfg, w, answers, env)
    ensures EnqueueFrom(cfg, w.counters, w.batch, 0, [], Willing(answers)).1.Produced?
  {
    hide AllInBounds, AllExplained, EnvExplained, EnqueueFrom;
    WillingExplained(answers);
    var env := Willing(answers);
    AllEnqueued(cfg, w.counters, w.batch[..|answers| - 1], 0, [], env);
    AllEnqueued(cfg, w.counters, w.batch, 0, [], env);
  }

  /** The next record can be classified. */
  ghost predicate CanAsk(setup: Setup, s: System) {
    exists reply: M.Reply, t: System ::
      reply.Found? && StepTo(setup, s, Ask(reply), t) && |t.answers| == |s.answers| + 1
  }

  /** The batch can be committed. */
  ghost predicate CanCommitBatch(setup: Setup, s: System) {
    exists env: Env, t: System ::
      StepTo(setup, s, RelayStep(D.Flush(env)), t) && t.world.up && t.world.batch == []
      && |t.world.broker.committed| > |s.world.broker.committed| && t.world.skipped == s.world.skipped
  }

  lemma AskNext(setup: Setup, s: System)
    requires Ready(setup, s) && s.world.up && |s.answers| < |s.world.batch|
    ensures CanAsk(setup, s)
  {
    hide Answer, HonestAbout, Ready, RelayMoves;
    var reply := HonestExists(setup, s.store.registry.index, s.world.batch[|s.answers|]);
    var (lru, c) := Answer(setup, s, reply);
    assert StepTo(setup, s, Ask(reply), s.(lru := lru, answers := s.answers + [c]));
  }

  lemma {:induction false} EnqueueGrows(cfg: RelayCfg, m: Counters, batch: seq<RawRecord>, i: nat, open: seq<Output>,
                                        env: Env)
    requires AllInBounds(cfg.settle, m) && EnvExplained(env) && i <= |batch|
    ensures var (open', status, _) := EnqueueFrom(cfg, m, batch, i, open, env);
      status.Produced? ==> |open'| >= |open| + |batch| - i
    decreases |batch| - i
  {
    hide AllInBounds, EnvExplained, Plan, SendAll;
    if i < |batch| {
      OneExplained(env, i);
      var (outs, m') := Plan(cfg, m, batch[i], env.classify(i));
      AllSent(cfg, outs, open, env.enqueueOk);
      if SendAll(cfg, outs, open, env.enqueueOk).1.Produced? {
        EnqueueGrows(cfg, m', batch, i + 1, open + outs, env);
      }
    }
  }

  lemma WillingCommits(cfg: RelayCfg, b: Broker, m: Counters, batch: seq<RawRecord>, env: Env)
    requires AllInBounds(cfg.settle, m) && EnvExplained(env) && cfg.fault.None? && batch != []
    requires EnqueueFrom(cfg, m, batch, 0, [], env).1.Produced? && env.offsetsOk && forall k :: env.deliveryOk(k)
    ensures var (b', _, outcome) := Process(cfg, b, m, batch, env); outcome.Committed? && |b'.committed| > |b.committed|
  {
    hide AllInBounds, EnvExplained, EnqueueFrom, MaxOffsets, NextOffsets;
    EnqueueGrows(cfg, m, batch, 0, [], env);
  }

  lemma CommitNext(setup: Setup, s: System)
    requires Ready(setup, s) && s.world.up && |s.answers| == |s.world.batch| > 0 && setup.cfg.fault.None?
    ensures CanCommitBatch(setup, s)
  {
    hide AllInBounds, AllExplained, Answered, EnvExplained, EnqueueFrom, Process, D.Cursors;
    var env := Willing(s.answers);
    WillingAnswers(setup.cfg, s.world, s.answers);
    WillingCommits(setup.cfg, s.world.broker, s.world.counters, s.world.batch, env);
    var w := D.Next(setup.cfg, s.world, D.Flush(env));
    var t := System(w, s.lru, [], s.store);
    assert StepTo(setup, s, RelayStep(D.Flush(env)), t);
  }

  /** The condition `Ready`, under which a system takes its steps, shuts out no reachable system; and no
      reachable one is stuck: while the relay is up, the next record of its batch can always be classified,
      and a batch that has all its answers can be committed unless a fault is configured. */
  lemma AlwaysReady(setup: Setup, store: VR.Store, systems: seq<System>, events: seq<Event>, i: nat)
    requires IsRun(setup, store, systems, events) && VR.StoreInv(store, setup.sig) && i <= |events|
    requires setup.capacity > 0
    ensures var s := systems[i];
      && Ready(setup, s) && |s.answers| <= |s.world.batch|
      && (s.world.up && |s.answers| < |s.world.batch| ==> CanAsk(setup, s))
      && (s.world.up && |s.answers| == |s.world.batch| > 0 && setup.cfg.fault.None? ==> CanCommitBatch(setup, s))
  {
    hide IsRun, SystemInv, Ready, CanAsk, CanCommitBatch, VR.StoreInv;
    SystemsOfRun(setup, store, systems, events);
    var s := systems[i];
    RunInv(setup, store, systems, events, i);
    InvReady(setup, s, EverFiled(systems[..i + 1]));
    if s.world.up && |s.answers| < |s.world.batch| {
      AskNext(setup, s);
    }
    if s.world.up && |s.answers| == |s.world.batch| > 0 && setup.cfg.fault.None? {
      CommitNext(setup, s);
    }
  }

  lemma SystemsOfRun(setup: Setup, store: VR.Store, systems: seq<System>, events: seq<Event>)
    requires IsRun(setup, store, systems, events)
    ensures |systems| == |events| + 1
  {
    hide StepTo;
  }

  // ---- what is filed is published ----

  lemma FiledForMeans(setup: Setup, known: set<Posting>, r: RawRecord, id: string) returns (bucket: string, d: Digest)
    requires FiledFor(setup, known, r, id)
    ensures Posting(bucket, VariantMember(setup.codec.base32(d), id)) in known
  {
    hide ParseBounded, ShapeOf, FingerprintOf, M.BucketOf, VariantMember;
    var s := ShapeOf(ParseBounded(r.payload.value, setup.limits).value);
    bucket, d := M.BucketOf(s, setup.codec), FingerprintOf(s);
  }

  lemma BodyClean(codec: M.Codec, d: Digest)
    requires CodecOk(codec)
    ensures '=' !in codec.base32(d)
  {
    hide IsSchemaId, Body;
    BodyOf(codec.base32(d));
    IdHasNoEquals(SCHEMA_PREFIX + codec.base32(d));
  }

  lemma OwnedSchema(known: set<Posting>, schemas: map<string, SchemaHash>, bucket: string, body: string, id: string)
    requires Owned(known, schemas) && '=' !in body && Posting(bucket, VariantMember(body, id)) in known
    ensures id in schemas
  {
    hide SplitOnce, Joined;
    SplitJoined(body, id);
  }

  lemma PublishedId(setup: Setup, store: VR.Store, id: string)
    requires VR.StoreInv(store, setup.sig) && id in store.registry.schemas
    ensures IsSchemaId(id)
  {
    hide A.Inv, IsSchemaId, PostingsOf, Owner, FamilyInv;
    assert SchemaInv(store.registry, id);
  }

  lemma InvParts(setup: Setup, s: System, known: set<Posting>)
    requires SystemInv(setup, s, known)
    ensures VR.StoreInv(s.store, setup.sig) && Owned(known, s.store.registry.schemas)
  {
    hide AnswersOk, D.Inv, M.CacheInv, Mains, Owned, VR.StoreInv;
  }

  /** What was ever filed for a record names a schema that is published for good. */
  lemma FiledForPublished(setup: Setup, s: System, known: set<Posting>, r: RawRecord, id: string)
    requires SystemInv(setup, s, known) && CodecOk(setup.codec) && FiledFor(setup, known, r, id)
    ensures id in s.store.registry.schemas && IsSchemaId(id)
  {
    hide *;
    InvParts(setup, s, known);
    var bucket, d := FiledForMeans(setup, known, r, id);
    BodyClean(setup.codec, d);
    OwnedSchema(known, s.store.registry.schemas, bucket, setup.codec.base32(d), id);
    PublishedId(setup, s.store, id);
  }
}
