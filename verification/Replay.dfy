/** Replaying: what the runs of relay and matcher over one fixed index can commit for a raw record, and
    exactly when they must all commit the same. */
module Replay {
  import opened Options
  import opened Utf8
  import opened Shapes
  import opened Fingerprint
  import opened Members
  import opened Publication
  import opened ParseSpec
  import opened Settle
  import opened Routing
  import opened Pipeline
  import D = Delivery
  import M = Matcher
  import VR = VaultRuns
  import Relay

  /** The registry is up whenever it is asked, and its index stays as it is. */
  ghost predicate Steady(index: set<Posting>, systems: seq<System>, events: seq<Pipeline.Event>) {
    && (forall s | s in systems :: s.store.registry.index == index)
    && (forall e | e in events && e.Ask? :: e.reply.Found?)
  }

  /** The classifications the index allows for a record, from whatever cache and through whichever reply. */
  ghost predicate MayAnswer(setup: Setup, index: set<Posting>, r: RawRecord, c: M.Classification) {
    && Explained(c)
    && (r.payload.Some? && |r.payload.value| <= ProduceCap(setup.cfg) ==>
          M.Allowed(index, index, setup.codec, r.cursor.at.topic, r.payload.value, setup.limits, true, c))
  }

  lemma NoneInBounds(cfg: RelayCfg)
    ensures AllInBounds(cfg.settle, map[])
  {
  }

  /** What a record's main output may then be. */
  ghost predicate MayCommit(setup: Setup, index: set<Posting>, r: RawRecord, o: Output) {
    NoneInBounds(setup.cfg);
    exists c :: MayAnswer(setup, index, r, c) && o == MainOf(setup.cfg, map[], r, c)
  }

  ghost predicate AllMay(setup: Setup, index: set<Posting>, log: Log, mains: seq<Output>) {
    forall o | o in mains :: o.Main? && o.origin in log && MayCommit(setup, index, log[o.origin], o)
  }

  // ---- one batch ----

  lemma MayExplained(setup: Setup, index: set<Posting>, r: RawRecord, c: M.Classification)
    requires MayAnswer(setup, index, r, c)
    ensures Explained(c)
  {
    hide Explained, M.Allowed;
  }

  /** With settling off the counters play no part. */
  lemma PlanMay(setup: Setup, index: set<Posting>, log: Log, m: Counters, r: RawRecord, c: M.Classification)
    requires !setup.cfg.settle.enabled && AllInBounds(setup.cfg.settle, m)
    requires MayAnswer(setup, index, r, c) && r.cursor in log && log[r.cursor] == r
    ensures AllMay(setup, index, log, Mains(Plan(setup.cfg, m, r, c).0)) && Plan(setup.cfg, m, r, c).1 == m
  {
    hide AllInBounds, Explained, Mains, MayAnswer, Plan;
    MayExplained(setup, index, r, c);
    NoneInBounds(setup.cfg);
    StatelessPlan(setup.cfg, m, map[], r, c);
    OneMainOutput(setup.cfg, m, r, c);
  }

  lemma MayConcat(setup: Setup, index: set<Posting>, log: Log, a: seq<Output>, b: seq<Output>)
    requires AllMay(setup, index, log, Mains(a)) && AllMay(setup, index, log, Mains(b))
    ensures AllMay(setup, index, log, Mains(a + b))
  {
    hide Mains, MayCommit;
    MainsConcat(a, b);
  }

  ghost predicate BatchMay(setup: Setup, index: set<Posting>, log: Log, batch: seq<RawRecord>, env: Env) {
    forall i | 0 <= i < |batch| ::
      MayAnswer(setup, index, batch[i], env.classify(i)) && batch[i].cursor in log && log[batch[i].cursor] == batch[i]
  }

  lemma {:induction false} BatchOutputs(setup: Setup, index: set<Posting>, log: Log, m: Counters, batch: seq<RawRecord>,
                                        i: nat, open: seq<Output>, env: Env)
    requires !setup.cfg.settle.enabled && AllInBounds(setup.cfg.settle, m) && EnvExplained(env) && i <= |batch|
    requires BatchMay(setup, index, log, batch, env) && AllMay(setup, index, log, Mains(open))
    ensures var (open', status, _) := EnqueueFrom(setup.cfg, m, batch, i, open, env);
      status.Produced? ==> AllMay(setup, index, log, Mains(open'))
    decreases |batch| - i
  {
    hide AllInBounds, AllMay, Explained, Mains, MayAnswer, Plan, SendAll;
    if i < |batch| {
      var (outs, m') := Plan(setup.cfg, m, batch[i], env.classify(i));
      PlanMay(setup, index, log, m, batch[i], env.classify(i));
      AllSent(setup.cfg, outs, open, env.enqueueOk);
      MayConcat(setup, index, log, open, outs);
      if SendAll(setup.cfg, outs, open, env.enqueueOk).1.Produced? {
        BatchOutputs(setup, index, log, m', batch, i + 1, open + outs, env);
      }
    }
  }

  /** Only a batch answered throughout is committed. */
  lemma CommittedAnswered(cfg: RelayCfg, w: D.World, answers: seq<M.Classification>, env: Env)
    requires AllInBounds(cfg.settle, w.counters) && EnvExplained(env) && Answered(cfg, w, answers, env)
    requires EnqueueFrom(cfg, w.counters, w.batch, 0, [], env).1.Produced?
    ensures |answers| == |w.batch|
  {
    hide AllInBounds, EnqueueFrom, EnvExplained;
    FailsEarly(cfg, w.counters, w.batch, |answers|, 0, [], env);
  }

  ghost predicate AnswersMay(setup: Setup, index: set<Posting>, batch: seq<RawRecord>, answers: seq<M.Classification>) {
    |answers| <= |batch| && forall i | 0 <= i < |answers| :: MayAnswer(setup, index, batch[i], answers[i])
  }

  lemma AnsweredMay(setup: Setup, index: set<Posting>, w: D.World, answers: seq<M.Classification>, env: Env)
    requires D.RecordsOk(w) && AllInBounds(setup.cfg.settle, w.counters) && EnvExplained(env)
    requires Answered(setup.cfg, w, answers, env)
    requires AnswersMay(setup, index, w.batch, answers) && |answers| == |w.batch|
    ensures BatchMay(setup, index, w.log, w.batch, env)
  {
    hide AllInBounds, EnqueueFrom, EnvExplained, MayAnswer;
    forall i | 0 <= i < |w.batch|
      ensures MayAnswer(setup, index, w.batch[i], env.classify(i)) && w.batch[i].cursor in w.log
      ensures w.log[w.batch[i].cursor] == w.batch[i]
    {
      assert w.batch[i] in w.batch;
    }
  }

  lemma NothingCommitted(setup: Setup, index: set<Posting>, log: Log)
    ensures AllMay(setup, index, log, Mains([]))
  {
    hide MayCommit;
  }

  lemma EnqueuedMay(setup: Setup, index: set<Posting>, w: D.World, answers: seq<M.Classification>, env: Env)
    requires !setup.cfg.settle.enabled && D.RecordsOk(w)
    requires AllInBounds(setup.cfg.settle, w.counters) && EnvExplained(env) && Answered(setup.cfg, w, answers, env)
    requires AnswersMay(setup, index, w.batch, answers)
    ensures var (open, status, _) := EnqueueFrom(setup.cfg, w.counters, w.batch, 0, [], env);
      status.Produced? ==> AllMay(setup, index, w.log, Mains(open))
  {
    hide *;
    if EnqueueFrom(setup.cfg, w.counters, w.batch, 0, [], env).1.Produced? {
      CommittedAnswered(setup.cfg, w, answers, env);
      AnsweredMay(setup, index, w, answers, env);
      NothingCommitted(setup, index, w.log);
      BatchOutputs(setup, index, w.log, w.counters, w.batch, 0, [], env);
    }
  }

  lemma ProcessMay(setup: Setup, index: set<Posting>, log: Log, b: Broker, m: Counters, batch: seq<RawRecord>, env: Env)
    requires AllInBounds(setup.cfg.settle, m) && EnvExplained(env) && AllMay(setup, index, log, Mains(b.committed))
    requires var (open, status, _) := EnqueueFrom(setup.cfg, m, batch, 0, [], env);
      status.Produced? ==> AllMay(setup, index, log, Mains(open))
    ensures AllMay(setup, index, log, Mains(Process(setup.cfg, b, m, batch, env).0.committed))
  {
    hide AllInBounds, AllMay, EnqueueFrom, EnvExplained, Mains, MaxOffsets, NextOffsets;
    var (open, status, _) := EnqueueFrom(setup.cfg, m, batch, 0, [], env);
    if status.Produced? {
      MayConcat(setup, index, log, b.committed, open);
    }
  }

  lemma FlushMay(setup: Setup, index: set<Posting>, w: D.World, answers: seq<M.Classification>, env: Env)
    requires !setup.cfg.settle.enabled && D.RecordsOk(w) && D.Enabled(w, D.Flush(env))
    requires AllInBounds(setup.cfg.settle, w.counters) && EnvExplained(env) && Answered(setup.cfg, w, answers, env)
    requires AnswersMay(setup, index, w.batch, answers) && AllMay(setup, index, w.log, Mains(w.broker.committed))
    ensures var t := D.Next(setup.cfg, w, D.Flush(env));
      t.log == w.log && AllMay(setup, index, t.log, Mains(t.broker.committed))
  {
    hide *;
    EnqueuedMay(setup, index, w, answers, env);
    ProcessMay(setup, index, w.log, w.broker, w.counters, w.batch, env);
    FlushedWorld(setup.cfg, w, env);
  }

  lemma FlushedWorld(cfg: RelayCfg, w: D.World, env: Env)
    requires AllInBounds(cfg.settle, w.counters) && D.Enabled(w, D.Flush(env)) && EnvExplained(env)
    ensures var t := D.Next(cfg, w, D.Flush(env));
      t.log == w.log && t.broker == Process(cfg, w.broker, w.counters, w.batch, env).0
  {
    hide AllInBounds, Process, EnvExplained, D.Cursors;
  }

  // ---- whole runs ----

  /** So far, answers and committed outputs are what the index allows. */
  ghost predicate Faithful(setup: Setup, index: set<Posting>, s: System) {
    && AnswersMay(setup, index, s.world.batch, s.answers)
    && AllMay(setup, index, s.world.log, Mains(s.world.broker.committed))
  }

  lemma AnswerMay(setup: Setup, index: set<Posting>, s: System, reply: M.Reply, t: System)
    requires !setup.cfg.settle.enabled && Ready(setup, s) && Classifies(setup, s, reply, t) && reply.Found?
    requires s.store.registry.index == index && M.CacheInv(s.lru, setup.capacity, setup.codec, index)
    ensures |s.answers| < |s.world.batch|
    ensures exists c ::
      t == s.(lru := t.lru, answers := s.answers + [c]) && MayAnswer(setup, index, s.world.batch[|s.answers|], c)
  {
    hide AllExplained, AllInBounds, Before, Explained, M.Allowed, M.CacheInv, M.Classify, M.HonestReply, MayAnswer, Mid,
      ProduceCap;
    var r := s.world.batch[|s.answers|];
    var c := Answer(setup, s, reply).1;
    var m := Mid(setup.cfg, s.world.counters, s.world.batch, s.answers, |s.answers|);
    if Asks(setup.cfg, m, r) {
      var topic, payload := r.cursor.at.topic, r.payload.value;
      M.AnswerAllowed(s.lru, setup.capacity, setup.codec, index, index, topic, payload, setup.limits, reply);
      Relay.MatcherExplains(s.lru, setup.capacity, setup.codec, topic, payload, setup.limits, reply);
    } else {
      NotAskedExplained();
      NeverFast(setup.cfg, m, r);
    }
    AnswerIsMay(setup, index, r, c);
  }

  lemma NotAskedExplained()
    ensures Explained(NOT_ASKED)
  {
  }

  lemma AnswerIsMay(setup: Setup, index: set<Posting>, r: RawRecord, c: M.Classification)
    requires Explained(c)
    requires r.payload.Some? && |r.payload.value| <= ProduceCap(setup.cfg) ==>
      M.Allowed(index, index, setup.codec, r.cursor.at.topic, r.payload.value, setup.limits, true, c)
    ensures MayAnswer(setup, index, r, c)
  {
    hide Explained, M.Allowed;
  }

  lemma NeverFast(cfg: RelayCfg, m: Counters, r: RawRecord)
    requires !cfg.settle.enabled && AllInBounds(cfg.settle, m)
    ensures Before(cfg.settle, m, r.cursor.at.topic).1.Classify?
  {
  }

  lemma NextFaithful(setup: Setup, index: set<Posting>, s: System, e: Pipeline.Event, t: System)
    requires !setup.cfg.settle.enabled && SystemInv(setup, s, index) && Faithful(setup, index, s)
    requires StepTo(setup, s, e, t) && s.store.registry.index == index && (e.Ask? ==> e.reply.Found?)
    ensures Faithful(setup, index, t)
  {
    hide AllInBounds, AllMay, Answered, AnswersMay, AnswersOk, Classifies, D.Enabled, D.Inv, D.Next, D.RecordsOk,
      EnvExplained, LogGrows, M.CacheInv, Mains, MayAnswer, Owned, Ready, RelayMoves, VR.Apply, VR.Lawful, VR.StoreInv;
    match e
    case Ask(reply) =>
      AnswerMay(setup, index, s, reply, t);
      var c :| t == s.(lru := t.lru, answers := s.answers + [c])
        && MayAnswer(setup, index, s.world.batch[|s.answers|], c);
      MaySnoc(setup, index, s.world.batch, s.answers, c);
    case VaultStep(_) =>
    case RelayStep(d) => RelayFaithful(setup, index, s, d, t);
  }

  lemma RelayFaithful(setup: Setup, index: set<Posting>, s: System, d: D.Event, t: System)
    requires !setup.cfg.settle.enabled && D.Inv(setup.cfg, s.world) && Faithful(setup, index, s)
    requires Ready(setup, s) && RelayMoves(setup, s, d, t)
    ensures Faithful(setup, index, t)
  {
    hide AllMay, Answered, AnswersMay, AllInBounds, AllExplained, D.Enabled, D.Next, EnvExplained, LogGrows, Mains,
      D.RecordsOk;
    NoneMay(setup, index, t.world.batch);
    if d.Flush? {
      FlushEnabled(s.world, d.env);
      FlushMay(setup, index, s.world, s.answers, d.env);
    } else {
      OtherSame(setup.cfg, s.world, d);
      MayGrow(setup, index, s.world.log, t.world.log, Mains(s.world.broker.committed));
    }
  }

  lemma FlushEnabled(w: D.World, env: Env)
    requires D.Enabled(w, D.Flush(env))
    ensures EnvExplained(env)
  {
    hide EnvExplained;
  }

  lemma MaySnoc(setup: Setup, index: set<Posting>, batch: seq<RawRecord>, answers: seq<M.Classification>,
                c: M.Classification)
    requires AnswersMay(setup, index, batch, answers) && |answers| < |batch|
    requires MayAnswer(setup, index, batch[|answers|], c)
    ensures AnswersMay(setup, index, batch, answers + [c])
  {
    hide MayAnswer;
  }

  lemma NoneMay(setup: Setup, index: set<Posting>, batch: seq<RawRecord>)
    ensures AnswersMay(setup, index, batch, [])
  {
  }

  lemma MayGrow(setup: Setup, index: set<Posting>, log: Log, log': Log, mains: seq<Output>)
    requires AllMay(setup, index, log, mains) && LogGrows(log, log')
    ensures AllMay(setup, index, log', mains)
  {
    hide MayCommit;
  }

  lemma StartFaithful(setup: Setup, store: VR.Store, index: set<Posting>)
    ensures Faithful(setup, index, System(D.START, [], [], store))
  {
    hide MayCommit, MayAnswer;
  }

  lemma {:induction false} RunFaithful(setup: Setup, store: VR.Store, systems: seq<System>, events: seq<Pipeline.Event>,
                                       i: nat)
    requires IsRun(setup, store, systems, events) && VR.StoreInv(store, setup.sig)
    requires Steady(store.registry.index, systems, events)
    requires !setup.cfg.settle.enabled && i <= |events|
    ensures Faithful(setup, store.registry.index, systems[i])
    decreases i
  {
    hide EverFiled, Faithful, StepTo, SystemInv, VR.StoreInv;
    var index := store.registry.index;
    if i == 0 {
      StartFaithful(setup, store, index);
    } else {
      RunFaithful(setup, store, systems, events, i - 1);
      RunInv(setup, store, systems, events, i - 1);
      SteadyEver(index, systems[..i]);
      assert events[i - 1] in events && systems[i - 1] in systems;
      NextFaithful(setup, index, systems[i - 1], events[i - 1], systems[i]);
    }
  }

  lemma SteadyEver(index: set<Posting>, systems: seq<System>)
    requires systems != [] && forall s | s in systems :: s.store.registry.index == index
    ensures EverFiled(systems) == index
  {
    assert systems[0] in systems;
  }

  /** Over every steady run, batched, aborted, crashed and restarted in any way, what is committed for a
      raw record is an output the index allows for it. */
  lemma CommitsAllowed(setup: Setup, store: VR.Store, systems: seq<System>, events: seq<Pipeline.Event>, o: Output)
    requires IsRun(setup, store, systems, events) && VR.StoreInv(store, setup.sig)
    requires Steady(store.registry.index, systems, events)
    requires !setup.cfg.settle.enabled && o in Mains(systems[|events|].world.broker.committed)
    ensures var log := systems[|events|].world.log;
      o.Main? && o.origin in log && MayCommit(setup, store.registry.index, log[o.origin], o)
  {
    hide AnswersMay, Mains, MayCommit, Steady, StepTo, VR.StoreInv;
    RunFaithful(setup, store, systems, events, |events|);
  }

  // ---- one answer, one output ----

  /** At most one schema is filed under the document's bucket and fingerprint. */
  ghost predicate OneAnswer(setup: Setup, index: set<Posting>, r: RawRecord) {
    r.payload.Some? && |r.payload.value| <= ProduceCap(setup.cfg)
      && ParseBounded(r.payload.value, setup.limits).Success? ==>
      var s := ShapeOf(ParseBounded(r.payload.value, setup.limits).value);
      forall i, j | M.Filed(index, s, setup.codec, i) && M.Filed(index, s, setup.codec, j) :: i == j
  }

  lemma SameAnswer(setup: Setup, index: set<Posting>, r: RawRecord, c: M.Classification, c': M.Classification)
    requires OneAnswer(setup, index, r) && r.payload.Some? && |r.payload.value| <= ProduceCap(setup.cfg)
    requires MayAnswer(setup, index, r, c) && MayAnswer(setup, index, r, c')
    ensures c == c'
  {
    hide Explained, FingerprintOf, M.BucketOf, M.Filed, ParseBounded, ProduceCap, ShapeOf, Summarize;
  }

  lemma MayWitness(setup: Setup, index: set<Posting>, r: RawRecord, o: Output) returns (c: M.Classification)
    requires MayCommit(setup, index, r, o)
    ensures MayAnswer(setup, index, r, c) && AllInBounds(setup.cfg.settle, map[]) && Explained(c)
    ensures o == MainOf(setup.cfg, map[], r, c)
  {
    hide MainOf, M.Allowed, Explained;
    NoneInBounds(setup.cfg);
    hide AllInBounds;
    c :| MayAnswer(setup, index, r, c) && o == MainOf(setup.cfg, map[], r, c);
  }

  lemma OneOutput(setup: Setup, index: set<Posting>, r: RawRecord, o: Output, o': Output)
    requires OneAnswer(setup, index, r) && MayCommit(setup, index, r, o) && MayCommit(setup, index, r, o')
    ensures o == o'
  {
    hide *;
    var c := MayWitness(setup, index, r, o);
    var c' := MayWitness(setup, index, r, o');
    if r.payload.Some? && |r.payload.value| <= ProduceCap(setup.cfg) {
      SameAnswer(setup, index, r, c, c');
    } else {
      MayExplained(setup, index, r, c);
      MayExplained(setup, index, r, c');
      Unasked(setup.cfg, r, c, c');
    }
  }

  lemma Unasked(cfg: RelayCfg, r: RawRecord, c: M.Classification, c': M.Classification)
    requires AllInBounds(cfg.settle, map[]) && Explained(c) && Explained(c')
    requires r.payload.Some? ==> |r.payload.value| > ProduceCap(cfg)
    ensures MainOf(cfg, map[], r, c) == MainOf(cfg, map[], r, c')
  {
  }

  /** Some steady run over the store reads `r` and commits `o` for it. */
  ghost predicate CanCommit(setup: Setup, store: VR.Store, r: RawRecord, o: Output) {
    exists systems, events ::
      IsRun(setup, store, systems, events) && Steady(store.registry.index, systems, events)
      && Commits(systems[|events|], r, o)
  }

  ghost predicate Commits(s: System, r: RawRecord, o: Output) {
    && r.cursor in s.world.log && s.world.log[r.cursor] == r
    && o in Mains(s.world.broker.committed) && o.Main? && o.origin == r.cursor
  }

  /** Whatever two steady runs commit for the record, it is the same. */
  ghost predicate Replayable(setup: Setup, store: VR.Store, r: RawRecord) {
    forall o, o' | CanCommit(setup, store, r, o) && CanCommit(setup, store, r, o') :: o == o'
  }

  lemma CanOnlyAllowed(setup: Setup, store: VR.Store, r: RawRecord, o: Output)
    requires VR.StoreInv(store, setup.sig) && !setup.cfg.settle.enabled && CanCommit(setup, store, r, o)
    ensures MayCommit(setup, store.registry.index, r, o)
  {
    hide Mains, MayCommit, Steady, StepTo, VR.StoreInv;
    var systems, events :| IsRun(setup, store, systems, events) && Steady(store.registry.index, systems, events)
                           && Commits(systems[|events|], r, o);
    CommitsAllowed(setup, store, systems, events, o);
  }

  // ---- two answers, two outputs ----

  /** Every call on the broker succeeds, and the one record is classified as `c`. */
  function Smooth(c: M.Classification): Env {
    Env(_ => c, _ => true, _ => true, true)
  }

  lemma SmoothExplained(c: M.Classification)
    requires Explained(c)
    ensures EnvExplained(Smooth(c))
  {
    hide Explained;
  }

  lemma SmoothEnqueue(cfg: RelayCfg, m: Counters, r: RawRecord, c: M.Classification)
    requires AllInBounds(cfg.settle, m) && Explained(c)
    requires Plan(cfg, m, r, c).0 == [MainOf(cfg, m, r, c)] && MainOf(cfg, m, r, c).Main?
    ensures EnvExplained(Smooth(c))
    ensures var (open, status, _) := EnqueueFrom(cfg, m, [r], 0, [], Smooth(c));
      open == [MainOf(cfg, m, r, c)] && status.Produced?
  {
    hide AllInBounds, EnqueueFrom, EnvExplained, Explained, MainOf, Plan;
    SmoothExplained(c);
    var main, env := MainOf(cfg, m, r, c), Smooth(c);
    assert [main][1..] == [] && [] + [main] == [main];
    assert SendAll(cfg, [main], [], env.enqueueOk) == SendAll(cfg, [], [main], env.enqueueOk) == ([main], Produced);
    OneEnqueued(cfg, m, r, env);
  }

  lemma OneEnqueued(cfg: RelayCfg, m: Counters, r: RawRecord, env: Env)
    requires AllInBounds(cfg.settle, m) && EnvExplained(env)
    ensures Explained(env.classify(0))
    ensures var (outs, m') := Plan(cfg, m, r, env.classify(0));
      var (open, status) := SendAll(cfg, outs, [], env.enqueueOk);
      EnqueueFrom(cfg, m, [r], 0, [], env) == (open, status, m')
  {
    hide Plan, SendAll, AllInBounds;
    var (outs, m') := Plan(cfg, m, r, env.classify(0));
    var (open, status) := SendAll(cfg, outs, [], env.enqueueOk);
    assert EnqueueFrom(cfg, m', [r], 1, open, env) == (open, Produced, m');
  }

  lemma SmoothProcess(cfg: RelayCfg, b: Broker, m: Counters, r: RawRecord, c: M.Classification)
    requires AllInBounds(cfg.settle, m) && Explained(c) && cfg.fault != Some(AfterProduceBeforeCommit)
    requires Plan(cfg, m, r, c).0 == [MainOf(cfg, m, r, c)] && MainOf(cfg, m, r, c).Main?
    ensures EnvExplained(Smooth(c)) && EnqueueFrom(cfg, m, [r], 0, [], Smooth(c)).1.Produced?
    ensures var (b', _, outcome) := Process(cfg, b, m, [r], Smooth(c));
      outcome.Committed? && b'.committed == b.committed + [MainOf(cfg, m, r, c)]
  {
    hide EnqueueFrom, AllInBounds, EnvExplained, Explained, MainOf, Plan, MaxOffsets, NextOffsets;
    SmoothEnqueue(cfg, m, r, c);
    assert forall k: nat :: Smooth(c).deliveryOk(k);
  }

  /** The classification of a document whose fingerprint is not cached, when the index answers `id`. */
  function Named(setup: Setup, payload: seq<byte>, id: string): M.Classification
    requires ParseBounded(payload, setup.limits).Success?
  {
    var s := ShapeOf(ParseBounded(payload, setup.limits).value);
    M.Classification(M.Known(id), None, Some(FingerprintOf(s)), Some(M.BucketOf(s, setup.codec)),
      Summarize(s).topLevelFields)
  }

  lemma FreshAnswer(setup: Setup, source: string, payload: seq<byte>, id: string)
    requires setup.capacity > 0 && ParseBounded(payload, setup.limits).Success?
    ensures M.Classify([], setup.capacity, setup.codec, source, payload, setup.limits, M.Found(Some(id))).1
      == Named(setup, payload, id)
  {
    hide ParseBounded, ShapeOf, FingerprintOf, M.BucketOf, Summarize;
  }

  /** What such a record calls for. */
  lemma NamedPlan(setup: Setup, r: RawRecord, id: string)
    requires !setup.cfg.settle.enabled && r.payload.Some? && |r.payload.value| <= ProduceCap(setup.cfg)
    requires ParseBounded(r.payload.value, setup.limits).Success?
    ensures AllInBounds(setup.cfg.settle, map[]) && Explained(Named(setup, r.payload.value, id))
    ensures var c := Named(setup, r.payload.value, id); var main := MainOf(setup.cfg, map[], r, c);
      main.Main? && main.origin == r.cursor && main.tag == M.Known(id) && Plan(setup.cfg, map[], r, c).0 == [main]
  {
    hide AllInBounds, Before, FingerprintOf, M.BucketOf, M.Classify, MainOf, Mains, ParseBounded, Plan, ShapeOf,
      Summarize;
    NoneInBounds(setup.cfg);
    var c := Named(setup, r.payload.value, id);
    NeverFast(setup.cfg, map[], r);
    OneMainOutput(setup.cfg, map[], r, c);
    MainRouting(setup.cfg, map[], r, c);
    EvidenceExactly(setup.cfg, map[], r, c);
  }

  /** The record arrives, the relay starts and reads it. */
  lemma OneRead(cfg: RelayCfg, r: RawRecord) returns (w1: D.World, w2: D.World, w3: D.World)
    ensures AllInBounds(cfg.settle, map[]) && D.START.counters == map[]
    ensures D.Enabled(D.START, D.Arrive(r)) && w1 == D.Next(cfg, D.START, D.Arrive(r)) && w1.counters == map[]
    ensures D.Enabled(w1, D.Restart) && w2 == D.Next(cfg, w1, D.Restart) && w2.counters == map[]
    ensures D.Enabled(w2, D.Receive(r.cursor)) && w3 == D.Next(cfg, w2, D.Receive(r.cursor))
    ensures w3.log == map[r.cursor := r] && w3.up && w3.batch == [r] && w3.counters == map[]
    ensures w3.broker.committed == []
  {
    hide AllInBounds, Process, D.Origins;
    NoneInBounds(cfg);
    w1 := D.Next(cfg, D.START, D.Arrive(r));
    w2 := D.Next(cfg, w1, D.Restart);
    w3 := D.Next(cfg, w2, D.Receive(r.cursor));
  }

  /** A steady run that commits the record under any one id the index holds for it. */
  lemma CommitsNamed(setup: Setup, store: VR.Store, r: RawRecord, id: string) returns (o: Output)
    requires setup.capacity > 0 && !setup.cfg.settle.enabled && setup.cfg.fault != Some(AfterProduceBeforeCommit)
    requires r.payload.Some? && |r.payload.value| <= ProduceCap(setup.cfg)
    requires ParseBounded(r.payload.value, setup.limits).Success?
    requires M.Filed(store.registry.index, ShapeOf(ParseBounded(r.payload.value, setup.limits).value), setup.codec, id)
    ensures CanCommit(setup, store, r, o) && o.Main? && o.tag == M.Known(id)
  {
    hide *;
    var c := Named(setup, r.payload.value, id);
    NamedPlan(setup, r, id);
    o := MainOf(setup.cfg, map[], r, c);
    var w1, w2, w3 := OneRead(setup.cfg, r);
    var reply := M.Found(Some(id));
    var s0, s1, s2, s3 := System(D.START, [], [], store), System(w1, [], [], store), System(w2, [], [], store),
      System(w3, [], [], store);
    PlainStep(setup, D.START, D.Arrive(r), store);
    PlainStep(setup, w1, D.Restart, store);
    PlainStep(setup, w2, D.Receive(r.cursor), store);
    var lru := M.Classify([], setup.capacity, setup.codec, r.cursor.at.topic, r.payload.value, setup.limits, reply).0;
    var s4 := System(w3, lru, [c], store);
    AskedOnce(setup, store, w3, r, id);
    FlushedOnce(setup, store, w3, lru, r, c);
    var s5 := System(D.Next(setup.cfg, w3, D.Flush(Smooth(c))), lru, [], store);
    FlushedCommits(setup, store, w3, lru, r, c);
    FiveSteps(setup, store, r, o, [s0, s1, s2, s3, s4, s5],
              [RelayStep(D.Arrive(r)), RelayStep(D.Restart), RelayStep(D.Receive(r.cursor)), Ask(reply),
                RelayStep(D.Flush(Smooth(c)))]);
  }

  lemma FiveSteps(setup: Setup, store: VR.Store, r: RawRecord, o: Output, systems: seq<System>,
                  events: seq<Pipeline.Event>)
    requires |systems| == 6 && |events| == 5 && systems[0] == System(D.START, [], [], store)
    requires StepTo(setup, systems[0], events[0], systems[1]) && StepTo(setup, systems[1], events[1], systems[2])
             && StepTo(setup, systems[2], events[2], systems[3]) && StepTo(setup, systems[3], events[3], systems[4])
             && StepTo(setup, systems[4], events[4], systems[5])
    requires forall s | s in systems :: s.store == store
    requires forall e | e in events && e.Ask? :: e.reply.Found?
    requires Commits(systems[5], r, o)
    ensures CanCommit(setup, store, r, o)
  {
    hide StepTo, Commits, D.START;
    forall i | 0 <= i < |events| ensures StepTo(setup, systems[i], events[i], systems[i + 1]) {
      assert i == 0 || i == 1 || i == 2 || i == 3 || i == 4;
    }
    assert IsRun(setup, store, systems, events) && Steady(store.registry.index, systems, events);
    hide IsRun, Steady;
    assert systems[|events|] == systems[5];
  }

  lemma PlainStep(setup: Setup, w: D.World, d: D.Event, store: VR.Store)
    requires setup.capacity > 0 && AllInBounds(setup.cfg.settle, w.counters) && D.Enabled(w, d)
    requires (d.Arrive? || d.Receive? || d.Restart?)
    ensures StepTo(setup, System(w, [], [], store), RelayStep(d), System(D.Next(setup.cfg, w, d), [], [], store))
  {
    hide AllInBounds, D.Enabled, D.Next, Answered, Classifies, VR.Apply, VR.Lawful;
  }

  lemma AsksIt(cfg: RelayCfg, r: RawRecord)
    requires !cfg.settle.enabled && AllInBounds(cfg.settle, map[]) && r.payload.Some?
    requires |r.payload.value| <= ProduceCap(cfg)
    ensures Asks(cfg, map[], r)
  {
    NeverFast(cfg, map[], r);
    hide Before, AllInBounds;
  }

  lemma AskedOnce(setup: Setup, store: VR.Store, w: D.World, r: RawRecord, id: string)
    requires setup.capacity > 0 && !setup.cfg.settle.enabled && AllInBounds(setup.cfg.settle, map[])
    requires r.payload.Some? && |r.payload.value| <= ProduceCap(setup.cfg)
    requires ParseBounded(r.payload.value, setup.limits).Success?
    requires M.Filed(store.registry.index, ShapeOf(ParseBounded(r.payload.value, setup.limits).value), setup.codec, id)
    requires w.batch == [r] && w.up && w.counters == map[]
    ensures var reply := M.Found(Some(id));
      var lru := M.Classify([], setup.capacity, setup.codec, r.cursor.at.topic, r.payload.value, setup.limits, reply).0;
      StepTo(setup, System(w, [], [], store), Ask(reply), System(w, lru, [Named(setup, r.payload.value, id)], store))
  {
    hide AllInBounds, Asks, Before, Explained, M.Classify, M.Filed, Named, ParseBounded, Plan, ProduceCap, RelayMoves,
      ShapeOf, VR.Apply, VR.Lawful;
    NeverFast(setup.cfg, map[], r);
    AsksIt(setup.cfg, r);
    FreshAnswer(setup, r.cursor.at.topic, r.payload.value, id);
  }

  lemma FlushedOnce(setup: Setup, store: VR.Store, w: D.World, lru: seq<M.Entry>, r: RawRecord, c: M.Classification)
    requires setup.capacity > 0 && AllInBounds(setup.cfg.settle, map[]) && Explained(c)
    requires setup.cfg.fault != Some(AfterProduceBeforeCommit)
    requires Plan(setup.cfg, map[], r, c).0 == [MainOf(setup.cfg, map[], r, c)] && MainOf(setup.cfg, map[], r, c).Main?
    requires w.batch == [r] && w.up && w.counters == map[]
    ensures D.Enabled(w, D.Flush(Smooth(c)))
    ensures StepTo(setup, System(w, lru, [c], store), RelayStep(D.Flush(Smooth(c))),
                   System(D.Next(setup.cfg, w, D.Flush(Smooth(c))), lru, [], store))
  {
    hide AllInBounds, Explained, EnvExplained, MainOf, Plan, EnqueueFrom, Process, D.Next, D.BooksOf, Classifies,
      VR.Apply, VR.Lawful;
    SmoothProcess(setup.cfg, w.broker, map[], r, c);
    assert [r][..1] == [r];
    NoneEnqueued(setup.cfg, map[], [r], Smooth(c));
  }

  lemma NoneEnqueued(cfg: RelayCfg, m: Counters, batch: seq<RawRecord>, env: Env)
    requires AllInBounds(cfg.settle, m) && EnvExplained(env)
    ensures EnqueueFrom(cfg, m, batch[..0], 0, [], env).1.Produced?
  {
    hide AllInBounds, EnvExplained, Plan, SendAll;
  }

  lemma FlushedCommits(setup: Setup, store: VR.Store, w: D.World, lru: seq<M.Entry>, r: RawRecord, c: M.Classification)
    requires AllInBounds(setup.cfg.settle, map[]) && Explained(c) && setup.cfg.fault != Some(AfterProduceBeforeCommit)
    requires Plan(setup.cfg, map[], r, c).0 == [MainOf(setup.cfg, map[], r, c)]
    requires var o := MainOf(setup.cfg, map[], r, c); o.Main? && o.origin == r.cursor
    requires w.batch == [r] && w.up && w.counters == map[] && w.log == map[r.cursor := r] && w.broker.committed == []
    requires D.Enabled(w, D.Flush(Smooth(c)))
    ensures Commits(System(D.Next(setup.cfg, w, D.Flush(Smooth(c))), lru, [], store), r, MainOf(setup.cfg, map[], r, c))
  {
    hide AllInBounds, Explained, EnvExplained, MainOf, Plan, EnqueueFrom, Process, D.Next, D.Enabled, Mains;
    SmoothProcess(setup.cfg, w.broker, map[], r, c);
    var o := MainOf(setup.cfg, map[], r, c);
    OnlyMain(o);
    assert [] + [o] == [o];
    FlushedWorld(setup.cfg, w, Smooth(c));
  }

  // ---- the condition ----

  lemma TwoAnswers(setup: Setup, index: set<Posting>, r: RawRecord) returns (i: string, j: string)
    requires !OneAnswer(setup, index, r)
    ensures r.payload.Some? && |r.payload.value| <= ProduceCap(setup.cfg)
    ensures ParseBounded(r.payload.value, setup.limits).Success?
    ensures var s := ShapeOf(ParseBounded(r.payload.value, setup.limits).value);
      i != j && M.Filed(index, s, setup.codec, i) && M.Filed(index, s, setup.codec, j)
  {
    hide ParseBounded, ShapeOf, M.Filed;
    var s := ShapeOf(ParseBounded(r.payload.value, setup.limits).value);
    i, j :| M.Filed(index, s, setup.codec, i) && M.Filed(index, s, setup.codec, j) && i != j;
  }

  lemma NotOneAnswer(setup: Setup, index: set<Posting>, r: RawRecord, i: string, j: string)
    requires r.payload.Some? && |r.payload.value| <= ProduceCap(setup.cfg)
    requires ParseBounded(r.payload.value, setup.limits).Success?
    requires var s := ShapeOf(ParseBounded(r.payload.value, setup.limits).value);
      i != j
      && Posting(M.BucketOf(s, setup.codec), VariantMember(setup.codec.base32(FingerprintOf(s)), i)) in index
      && Posting(M.BucketOf(s, setup.codec), VariantMember(setup.codec.base32(FingerprintOf(s)), j)) in index
    ensures !OneAnswer(setup, index, r)
  {
    hide ParseBounded, ShapeOf, M.BucketOf, VariantMember, FingerprintOf;
    var s := ShapeOf(ParseBounded(r.payload.value, setup.limits).value);
    assert M.Filed(index, s, setup.codec, i) && M.Filed(index, s, setup.codec, j);
  }

  /** Replaying is deterministic for a raw record exactly when at most one schema is filed under its
      document's bucket and fingerprint: with settling off and a steady registry, any two runs that
      commit an output for it then commit the same, and otherwise two runs do not. */
  lemma ReplayDeterministic(setup: Setup, store: VR.Store, r: RawRecord)
    requires VR.StoreInv(store, setup.sig) && setup.capacity > 0
    requires !setup.cfg.settle.enabled && setup.cfg.fault != Some(AfterProduceBeforeCommit)
    ensures Replayable(setup, store, r) <==> OneAnswer(setup, store.registry.index, r)
  {
    hide CanCommit, M.Filed, MayCommit, OneAnswer, ParseBounded, ProduceCap, ShapeOf, VR.StoreInv;
    var index := store.registry.index;
    if OneAnswer(setup, index, r) {
      forall o, o' | CanCommit(setup, store, r, o) && CanCommit(setup, store, r, o') ensures o == o' {
        CanOnlyAllowed(setup, store, r, o);
        CanOnlyAllowed(setup, store, r, o');
        OneOutput(setup, index, r, o, o');
      }
    } else {
      var i, j := TwoAnswers(setup, index, r);
      var o := CommitsNamed(setup, store, r, i);
      var o' := CommitsNamed(setup, store, r, j);
      assert o != o';
    }
  }

  function AnotherPublish(id: string, bucket: string, vs: seq<Variant>): PublishRequest {
    PublishRequest(id, "fam_2", "cand_2", bucket, "{}", "[]", "deblob-canon-v1", vs, "op", "why", "1")
  }

  /** Two schemas published with one and the same observed variant make every document of that shape
      replay differently. */
  lemma TwoSchemasOneShape(setup: Setup, r: RawRecord, id: string, id': string)
    requires setup.capacity > 0 && !setup.cfg.settle.enabled && setup.cfg.fault != Some(AfterProduceBeforeCommit)
    requires r.payload.Some? && |r.payload.value| <= ProduceCap(setup.cfg)
    requires ParseBounded(r.payload.value, setup.limits).Success?
    requires CodecOk(setup.codec) && IsSchemaId(id) && IsSchemaId(id') && id != id'
    ensures var s := ShapeOf(ParseBounded(r.payload.value, setup.limits).value);
      var b := M.BucketOf(s, setup.codec); var v := Variant(b, setup.codec.base32(FingerprintOf(s)));
      var ops := [VR.PublishOp(VR.SomePublish(id, b, [v])), VR.PublishOp(AnotherPublish(id', b, [v]))];
      VR.LawfulRun(ops, setup.sig) && !Replayable(setup, VR.Run(ops, setup.sig), r)
  {
    hide *;
    var s := ShapeOf(ParseBounded(r.payload.value, setup.limits).value);
    var b, fp := M.BucketOf(s, setup.codec), setup.codec.base32(FingerprintOf(s));
    var v := Variant(b, fp);
    CodecWell(setup.codec, s);
    var first, second := VR.SomePublish(id, b, [v]), AnotherPublish(id', b, [v]);
    var ops := [VR.PublishOp(first), VR.PublishOp(second)];
    BothWellMade(id, id', v);
    TwoFiled(setup, id, id', v);
    var store := VR.Run(ops, setup.sig);
    VR.Reachable(ops, setup.sig);
    NotOneAnswer(setup, store.registry.index, r, id, id');
    ReplayDeterministic(setup, store, r);
  }

  lemma BothWellMade(id: string, id': string, v: Variant)
    requires IsSchemaId(id) && IsSchemaId(id') && IsBucketKey(v.bucket) && '=' !in v.fp
    ensures WellMade(VR.SomePublish(id, v.bucket, [v])) && WellMade(AnotherPublish(id', v.bucket, [v]))
  {
    hide IsSchemaId, IsBucketKey;
  }

  lemma CodecWell(codec: M.Codec, s: Shape)
    requires CodecOk(codec)
    ensures IsBucketKey(M.BucketOf(s, codec)) && '=' !in codec.base32(FingerprintOf(s))
  {
    hide Body, BucketKey, FingerprintOf, InIndex, IsHexDigits, IsSchemaId, Summarize;
    var m := Summarize(s);
    BucketKeyHasNoEquals(m.topLevelFields, m.depth, codec.keyHash(m.topKeysSorted));
    BodyOf(codec.base32(FingerprintOf(s)));
    IdHasNoEquals(SCHEMA_PREFIX + codec.base32(FingerprintOf(s)));
  }

  lemma TwoFiled(setup: Setup, id: string, id': string, v: Variant)
    requires id != id'
    requires var first, second := VR.SomePublish(id, v.bucket, [v]), AnotherPublish(id', v.bucket, [v]);
      WellMade(first) && WellMade(second)
    ensures var ops :=
      [VR.PublishOp(VR.SomePublish(id, v.bucket, [v])), VR.PublishOp(AnotherPublish(id', v.bucket, [v]))];
      VR.LawfulRun(ops, setup.sig)
      && Posting(v.bucket, VariantMember(v.fp, id)) in VR.Run(ops, setup.sig).registry.index
      && Posting(v.bucket, VariantMember(v.fp, id')) in VR.Run(ops, setup.sig).registry.index
  {
    hide Added, Publish, VariantMember, WellMade;
    var first, second := VR.SomePublish(id, v.bucket, [v]), AnotherPublish(id', v.bucket, [v]);
    var ops := [VR.PublishOp(first), VR.PublishOp(second)];
    assert ops[..0] == [] && ops[..1] == [VR.PublishOp(first)] && ops[..1][..0] == [] && ops[..2] == ops;
    var r1 := Publish(EMPTY_REGISTRY, first).0;
    assert VR.Run(ops[..0], setup.sig) == VR.EMPTY_STORE;
    assert VR.Run(ops[..1], setup.sig).registry == r1 && VR.Run(ops, setup.sig).registry == Publish(r1, second).0;
    BothGranted(id, id', v);
    M.PublishAdds(EMPTY_REGISTRY, first);
    M.PublishAdds(r1, second);
    M.IndexGrows(r1, second);
    VariantAdded(first, v);
    VariantAdded(second, v);
  }

  lemma VariantAdded(q: PublishRequest, v: Variant)
    requires v in q.variants
    ensures Posting(v.bucket, VariantMember(v.fp, q.schemaId)) in Added(q)
  {
    hide VariantMember, BucketMember;
  }

  lemma BothGranted(id: string, id': string, v: Variant)
    requires id != id'
    ensures var first, second := VR.SomePublish(id, v.bucket, [v]), AnotherPublish(id', v.bucket, [v]);
      Publish(EMPTY_REGISTRY, first).1.Published? && Publish(Publish(EMPTY_REGISTRY, first).0, second).1.Published?
  {
    hide Added, EncodeVariants, FamilyAfter, VersionFor;
  }
}
