/** Where a committed tag comes from: each Known tag goes back to classifications made before it. */
module Provenance {
  import opened Options
  import opened Members
  import opened Publication
  import opened Settle
  import opened Routing
  import opened Pipeline
  import D = Delivery
  import M = Matcher
  import VR = VaultRuns

  /** Event `time` gave `record` its classification, in the relay that was started at `start`. */
  datatype Asked = Asked(time: nat, start: nat, record: RawRecord, answer: M.Classification)

  /** When the relay that is running after these events was started. */
  function StartOf(events: seq<Pipeline.Event>): nat {
    if events == [] then 0
    else
      var n := |events| - 1;
      if events[n].RelayStep? && events[n].step.Restart? then |events| else StartOf(events[..n])
  }

  /** Event `i` classifies a record. */
  ghost predicate AsksAt(systems: seq<System>, events: seq<Pipeline.Event>, i: nat) {
    i < |events| && i + 1 < |systems| && events[i].Ask?
    && |systems[i].answers| < |systems[i].world.batch| && |systems[i].answers| < |systems[i + 1].answers|
  }

  ghost function AskedAt(systems: seq<System>, events: seq<Pipeline.Event>, i: nat): Asked
    requires AsksAt(systems, events, i)
  {
    var n := |systems[i].answers|;
    Asked(i, StartOf(events[..i]), systems[i].world.batch[n], systems[i + 1].answers[n])
  }

  /** The classifications among the first `n` events of a run. */
  ghost function History(systems: seq<System>, events: seq<Pipeline.Event>, n: nat): set<Asked> {
    set i | 0 <= i < n && AsksAt(systems, events, i) :: AskedAt(systems, events, i)
  }

  // ---- an unbroken stretch of equal answers ----

  predicate Within(x: Asked, start: nat, since: nat, now: nat, source: string) {
    x.start == start && since <= x.time < now && x.record.cursor.at.topic == source
  }

  /** Whatever was classified of the source in between was classified as `id`. */
  predicate Stretch(h: set<Asked>, start: nat, since: nat, now: nat, source: string, id: string) {
    forall x | x in h && Within(x, start, since, now, source) && x.answer != NOT_ASKED ::
      x.answer.schemaRef == M.Known(id)
  }

  function Agreeing(h: set<Asked>, start: nat, since: nat, now: nat, source: string, id: string): set<Asked> {
    set x | x in h && Within(x, start, since, now, source) && x.answer.schemaRef == M.Known(id)
  }

  /** The latest `n` classified records of the source or more, all in the relay started at `start`, were
      classified as `id`. */
  ghost predicate Backed(h: set<Asked>, start: nat, now: nat, source: string, id: string, n: nat) {
    exists since: nat :: Stretch(h, start, since, now, source, id) && |Agreeing(h, start, since, now, source, id)| >= n
  }

  lemma SubsetCount<T>(a: set<T>, b: set<T>)
    requires a <= b
    ensures |a| <= |b|
  {
    assert b == a + (b - a);
  }

  /** Time passes, and what joins the history says nothing about this source's stretch. */
  lemma BackedSame(h: set<Asked>, more: set<Asked>, start: nat, now: nat, later: nat, source: string, id: string,
                   n: nat)
    requires Backed(h, start, now, source, id, n) && h <= more && now <= later
    requires forall x | x in h && x.time >= now :: x.time >= later
    requires forall x | x in more - h :: x.time >= later || x.record.cursor.at.topic != source || x.answer == NOT_ASKED
    ensures Backed(more, start, later, source, id, n)
  {
    var since: nat :| Stretch(h, start, since, now, source, id) && |Agreeing(h, start, since, now, source, id)| >= n;
    SubsetCount(Agreeing(h, start, since, now, source, id), Agreeing(more, start, since, later, source, id));
  }

  /** One more record classified as `id`. */
  lemma BackedMore(h: set<Asked>, a: Asked, id: string, n: nat)
    requires Backed(h, a.start, a.time, a.record.cursor.at.topic, id, n) && a.answer.schemaRef == M.Known(id)
    requires forall x | x in h :: x.time < a.time
    ensures Backed(h + {a}, a.start, a.time + 1, a.record.cursor.at.topic, id, n + 1)
  {
    var source := a.record.cursor.at.topic;
    var since: nat :| Stretch(h, a.start, since, a.time, source, id)
      && |Agreeing(h, a.start, since, a.time, source, id)| >= n;
    var from := if since <= a.time then since else a.time;
    var before := Agreeing(h, a.start, since, a.time, source, id);
    assert a !in before && before + {a} <= Agreeing(h + {a}, a.start, from, a.time + 1, source, id);
    SubsetCount(before + {a}, Agreeing(h + {a}, a.start, from, a.time + 1, source, id));
    assert Stretch(h + {a}, a.start, from, a.time + 1, source, id);
  }

  /** The first one. */
  lemma BackedOnce(h: set<Asked>, a: Asked, id: string)
    requires a.answer.schemaRef == M.Known(id) && forall x | x in h :: x.time < a.time
    ensures Backed(h + {a}, a.start, a.time + 1, a.record.cursor.at.topic, id, 1)
  {
    var source := a.record.cursor.at.topic;
    SubsetCount({a}, Agreeing(h + {a}, a.start, a.time, a.time + 1, source, id));
    assert Stretch(h + {a}, a.start, a.time, a.time + 1, source, id);
  }

  // ---- what the counters rest on ----

  /** The counters of one source say no more than its latest classifications. */
  ghost predicate OneBacks(cfg: SettleCfg, h: set<Asked>, start: nat, now: nat, source: string, s: SourceSettle) {
    s.known.Some? ==>
      && s.consecutive >= 1 && (s.settled ==> s.consecutive as nat >= Threshold(cfg))
      && Backed(h, start, now, source, s.known.value, s.consecutive as nat)
  }

  ghost predicate Backs(cfg: SettleCfg, h: set<Asked>, start: nat, now: nat, m: Counters) {
    forall source | source in m :: Active(cfg, source) && OneBacks(cfg, h, start, now, source, m[source])
  }

  lemma OneSame(cfg: SettleCfg, h: set<Asked>, more: set<Asked>, start: nat, now: nat, later: nat, source: string,
                s: SourceSettle)
    requires OneBacks(cfg, h, start, now, source, s) && h <= more && now <= later
    requires forall x | x in h && x.time >= now :: x.time >= later
    requires forall x | x in more - h :: x.time >= later || x.record.cursor.at.topic != source || x.answer == NOT_ASKED
    ensures OneBacks(cfg, more, start, later, source, s)
  {
    hide Backed;
    if s.known.Some? {
      BackedSame(h, more, start, now, later, source, s.known.value, s.consecutive as nat);
    }
  }

  lemma BacksSame(cfg: SettleCfg, h: set<Asked>, more: set<Asked>, start: nat, now: nat, later: nat, m: Counters)
    requires Backs(cfg, h, start, now, m) && h <= more && now <= later
    requires forall x | x in h && x.time >= now :: x.time >= later
    requires forall x | x in more - h :: x.time >= later || x.answer == NOT_ASKED
    ensures Backs(cfg, more, start, later, m)
  {
    hide OneBacks, Active;
    forall source | source in m ensures OneBacks(cfg, more, start, later, source, m[source]) {
      OneSame(cfg, h, more, start, now, later, source, m[source]);
    }
  }

  function KnownId(c: M.Classification): Option<string> {
    match c.schemaRef case Known(id) => Some(id) case _ => None
  }

  /** One result fed back. */
  lemma AfterOneBacks(cfg: SettleCfg, h: set<Asked>, a: Asked, s: SourceSettle)
    requires cfg.sampleRate > 1 && InBounds(cfg, s) && OneBacks(cfg, h, a.start, a.time, a.record.cursor.at.topic, s)
    requires forall x | x in h :: x.time < a.time
    ensures OneBacks(cfg, h + {a}, a.start, a.time + 1, a.record.cursor.at.topic,
      AfterOne(cfg, s, KnownId(a.answer), s.settled))
  {
    hide Backed;
    if a.answer.schemaRef.Known? {
      var id := a.answer.schemaRef.id;
      BackedOnce(h, a, id);
      if s.known == Some(id) {
        BackedMore(h, a, id, s.consecutive as nat);
        Fewer(h + {a}, a.start, a.time + 1, a.record.cursor.at.topic, id, s.consecutive as nat + 1,
          s.consecutive as nat);
      }
    }
  }

  lemma Fewer(h: set<Asked>, start: nat, now: nat, source: string, id: string, n: nat, k: nat)
    requires Backed(h, start, now, source, id, n) && k <= n
    ensures Backed(h, start, now, source, id, k)
  {
    var since: nat :| Stretch(h, start, since, now, source, id) && |Agreeing(h, start, since, now, source, id)| >= n;
  }

  /** The decision changes nothing the counters rest on. */
  lemma BeforeBacks(cfg: SettleCfg, h: set<Asked>, start: nat, now: nat, m: Counters, source: string)
    requires AllInBounds(cfg, m) && Backs(cfg, h, start, now, m)
    ensures Backs(cfg, h, start, now, Before(cfg, m, source).0)
    ensures var d := Before(cfg, m, source).1;
      d.FastPath? ==> Active(cfg, source) && Backed(h, start, now, source, d.id, Threshold(cfg))
  {
    hide Backed;
    var (b, d) := Before(cfg, m, source);
    if d.FastPath? {
      Fewer(h, start, now, source, d.id, m[source].consecutive as nat, Threshold(cfg));
    }
  }

  lemma AfterBacks(cfg: SettleCfg, h: set<Asked>, a: Asked, m: Counters, drift: bool)
    requires AllInBounds(cfg, m) && Backs(cfg, h, a.start, a.time, m) && forall x | x in h :: x.time < a.time
    requires Active(cfg, a.record.cursor.at.topic) ==> drift == Of(m, a.record.cursor.at.topic).settled
    ensures Backs(cfg, h + {a}, a.start, a.time + 1, After(cfg, m, a.record.cursor.at.topic, KnownId(a.answer), drift))
  {
    hide AfterOne, OneBacks, KnownId;
    var topic := a.record.cursor.at.topic;
    forall source | source in m && source != topic
      ensures OneBacks(cfg, h + {a}, a.start, a.time + 1, source, m[source]) {
      OneSame(cfg, h, h + {a}, a.start, a.time, a.time + 1, source, m[source]);
    }
    if Active(cfg, topic) {
      Unseen(cfg, h, a.start, a.time, topic);
      AfterOneBacks(cfg, h, a, Of(m, topic));
    }
  }

  lemma Unseen(cfg: SettleCfg, h: set<Asked>, start: nat, now: nat, source: string)
    ensures InBounds(cfg, UNSEEN) && OneBacks(cfg, h, start, now, source, UNSEEN)
  {
  }

  // ---- one record ----

  /** The counters after one record. */
  lemma PlanCounters(cfg: RelayCfg, m: Counters, r: RawRecord, c: M.Classification)
    requires AllInBounds(cfg.settle, m) && Explained(c)
    ensures var t := r.cursor.at.topic; var (b, d) := Before(cfg.settle, m, t); var after := Plan(cfg, m, r, c).1;
      && (d.Classify? && Active(cfg.settle, t) ==> d.driftCheck == Of(b, t).settled)
      && if Asks(cfg, m, r) then after == After(cfg.settle, b, t, KnownId(c), d.driftCheck)
         else after == m || after == b
  {
    hide After, AllInBounds, Active, Of, Evidence, ClassifiedOutput;
  }

  lemma PlanBacks(cfg: RelayCfg, h: set<Asked>, a: Asked, m: Counters)
    requires AllInBounds(cfg.settle, m) && Explained(a.answer) && Backs(cfg.settle, h, a.start, a.time, m)
    requires forall x | x in h :: x.time < a.time
    requires !Asks(cfg, m, a.record) ==> a.answer == NOT_ASKED
    ensures Backs(cfg.settle, h + {a}, a.start, a.time + 1, Plan(cfg, m, a.record, a.answer).1)
  {
    hide Active, After, AllInBounds, Backs, Before, Explained, Of, Plan, ProduceCap;
    var topic := a.record.cursor.at.topic;
    PlanCounters(cfg, m, a.record, a.answer);
    BeforeBacks(cfg.settle, h, a.start, a.time, m, topic);
    var (b, d) := Before(cfg.settle, m, topic);
    if Asks(cfg, m, a.record) {
      AfterBacks(cfg.settle, h, a, b, d.driftCheck);
    } else {
      BacksSame(cfg.settle, h, h + {a}, a.start, a.time, a.time + 1, m);
      BacksSame(cfg.settle, h, h + {a}, a.start, a.time, a.time + 1, b);
    }
  }

  /** The record was classified as `id`, or it was not classified and the fast path of its listed source
      gave it what that source's latest `Threshold` classified records or more, in the same relay and
      before this one, were all classified as. */
  ghost predicate TagRests(cfg: SettleCfg, h: set<Asked>, a: Asked, id: string) {
    var topic := a.record.cursor.at.topic;
    a.answer.schemaRef == M.Known(id)
    || (a.answer == NOT_ASKED && Active(cfg, topic) && Backed(h, a.start, a.time, topic, id, Threshold(cfg)))
  }

  /** A Known tag rests on classifications made when, or before, its record's turn came. */
  ghost predicate TagBacked(cfg: SettleCfg, h: set<Asked>, log: Log, o: Output)
    requires o.Main?
  {
    o.tag.Known? ==>
      o.origin in log && exists a :: a in h && a.record == log[o.origin] && TagRests(cfg, h, a, o.tag.id)
  }

  ghost predicate TagsBacked(cfg: SettleCfg, h: set<Asked>, log: Log, mains: seq<Output>) {
    forall o | o in mains :: o.Main? && TagBacked(cfg, h, log, o)
  }

  /** What a record's plan tags it with. */
  lemma PlanTag(cfg: RelayCfg, h: set<Asked>, log: Log, a: Asked, m: Counters)
    requires AllInBounds(cfg.settle, m) && Explained(a.answer) && Backs(cfg.settle, h, a.start, a.time, m)
    requires !Asks(cfg, m, a.record) ==> a.answer == NOT_ASKED
    requires a in h && a.record.cursor in log && log[a.record.cursor] == a.record
    ensures TagsBacked(cfg.settle, h, log, Mains(Plan(cfg, m, a.record, a.answer).0))
  {
    hide Active, AllInBounds, Backed, Backs, Before, Explained, MainOf, Mains, Plan, ProduceCap, Threshold;
    OneMainOutput(cfg, m, a.record, a.answer);
    MainRouting(cfg, m, a.record, a.answer);
    BeforeBacks(cfg.settle, h, a.start, a.time, m, a.record.cursor.at.topic);
    var main := MainOf(cfg, m, a.record, a.answer);
    assert main.tag.Known? ==> TagRests(cfg.settle, h, a, main.tag.id);
  }

  lemma TagsConcat(cfg: SettleCfg, h: set<Asked>, log: Log, a: seq<Output>, b: seq<Output>)
    requires TagsBacked(cfg, h, log, Mains(a)) && TagsBacked(cfg, h, log, Mains(b))
    ensures TagsBacked(cfg, h, log, Mains(a + b))
  {
    hide TagBacked, Mains;
    MainsConcat(a, b);
  }

  lemma NoTags(cfg: SettleCfg, h: set<Asked>, log: Log)
    ensures TagsBacked(cfg, h, log, Mains([]))
  {
  }

  /** Later classifications leave what a tag rests on as it is. */
  lemma TagsGrow(cfg: SettleCfg, h: set<Asked>, more: set<Asked>, log: Log, log': Log, mains: seq<Output>)
    requires TagsBacked(cfg, h, log, mains) && h <= more && LogGrows(log, log')
    requires forall x, y | x in h && y in more - h :: x.time < y.time
    ensures TagsBacked(cfg, more, log', mains)
  {
    hide Backed, Active, Threshold;
    forall o | o in mains ensures o.Main? && TagBacked(cfg, more, log', o) {
      if o.tag.Known? {
        var a :| a in h && a.record == log[o.origin] && TagRests(cfg, h, a, o.tag.id);
        var topic := a.record.cursor.at.topic;
        if Backed(h, a.start, a.time, topic, o.tag.id, Threshold(cfg)) {
          BackedSame(h, more, a.start, a.time, a.time, topic, o.tag.id, Threshold(cfg));
        }
        assert TagRests(cfg, more, a, o.tag.id);
      }
    }
  }

  // ---- one batch ----

  /** Record `k` of the batch has its classification in the history, and the counters at its turn rest on
      what came before. */
  ghost predicate AnswerKept(cfg: RelayCfg, h: set<Asked>, start: nat, m: Counters, batch: seq<RawRecord>,
                             answers: seq<M.Classification>, k: nat)
    requires AllInBounds(cfg.settle, m) && AllExplained(answers) && k < |batch| && k < |answers|
  {
    exists a ::
      && a in h && a.start == start && a.record == batch[k] && a.answer == answers[k]
      && (!Asks(cfg, Mid(cfg, m, batch, answers, k), batch[k]) ==> answers[k] == NOT_ASKED)
      && Backs(cfg.settle, h, start, a.time, Mid(cfg, m, batch, answers, k))
  }

  ghost predicate AllKept(cfg: RelayCfg, h: set<Asked>, start: nat, m: Counters, batch: seq<RawRecord>,
                          answers: seq<M.Classification>)
    requires AllInBounds(cfg.settle, m) && AllExplained(answers) && |answers| <= |batch|
  {
    forall k | 0 <= k < |answers| :: AnswerKept(cfg, h, start, m, batch, answers, k)
  }

  lemma {:induction false} MidPrefix(cfg: RelayCfg, m: Counters, batch: seq<RawRecord>, answers: seq<M.Classification>,
                                     c: M.Classification, k: nat)
    requires AllInBounds(cfg.settle, m) && AllExplained(answers) && AllExplained(answers + [c])
    requires k <= |answers| <= |batch|
    ensures Mid(cfg, m, batch, answers + [c], k) == Mid(cfg, m, batch, answers, k)
    decreases k
  {
    hide AllInBounds, Plan, AllExplained;
    if k > 0 {
      MidPrefix(cfg, m, batch, answers, c, k - 1);
    }
  }

  lemma AnswerKeptGrows(cfg: RelayCfg, h: set<Asked>, more: set<Asked>, start: nat, m: Counters, batch: seq<RawRecord>,
                        answers: seq<M.Classification>, c: M.Classification, k: nat)
    requires AllInBounds(cfg.settle, m) && AllExplained(answers) && AllExplained(answers + [c])
    requires k < |answers| <= |batch|
    requires AnswerKept(cfg, h, start, m, batch, answers, k)
    requires h <= more && forall x, y | x in h && y in more - h :: x.time < y.time
    ensures AnswerKept(cfg, more, start, m, batch, answers + [c], k)
  {
    hide AllInBounds, AllExplained, Asks, Backs, Mid;
    MidPrefix(cfg, m, batch, answers, c, k);
    var mid := Mid(cfg, m, batch, answers, k);
    var a :| a in h && a.start == start && a.record == batch[k] && a.answer == answers[k]
             && (!Asks(cfg, mid, batch[k]) ==> answers[k] == NOT_ASKED) && Backs(cfg.settle, h, start, a.time, mid);
    BacksSame(cfg.settle, h, more, start, a.time, a.time, mid);
  }

  /** Tags of the answered records, from the `i`-th on. */
  lemma {:induction false} BatchTags(cfg: RelayCfg, h: set<Asked>, start: nat, log: Log, m: Counters,
                                     batch: seq<RawRecord>, answers: seq<M.Classification>, i: nat, open: seq<Output>,
                                     env: Env)
    requires AllInBounds(cfg.settle, m) && AllExplained(answers) && EnvExplained(env) && i <= |answers| <= |batch|
    requires AllKept(cfg, h, start, m, batch, answers) && forall k | 0 <= k < |answers| :: env.classify(k) == answers[k]
    requires forall r | r in batch :: r.cursor in log && log[r.cursor] == r
    requires TagsBacked(cfg.settle, h, log, Mains(open))
    ensures var (open', status, _) :=
        EnqueueFrom(cfg, Mid(cfg, m, batch, answers, i), batch[..|answers|], i, open, env);
      status.Produced? ==> TagsBacked(cfg.settle, h, log, Mains(open'))
    decreases |answers| - i
  {
    hide AllExplained, AllInBounds, AllKept, EnvExplained, Mains, Plan, SendAll, TagsBacked;
    var mid := Mid(cfg, m, batch, answers, i);
    if i < |answers| {
      OneExplained(env, i);
      var (outs, m') := Plan(cfg, mid, batch[i], env.classify(i));
      KeptTags(cfg, h, start, log, m, batch, answers, i);
      AllSent(cfg, outs, open, env.enqueueOk);
      TagsConcat(cfg.settle, h, log, open, outs);
      if SendAll(cfg, outs, open, env.enqueueOk).1.Produced? {
        BatchTags(cfg, h, start, log, m, batch, answers, i + 1, open + outs, env);
      }
    }
  }

  lemma KeptTags(cfg: RelayCfg, h: set<Asked>, start: nat, log: Log, m: Counters, batch: seq<RawRecord>,
                 answers: seq<M.Classification>, k: nat)
    requires AllInBounds(cfg.settle, m) && AllExplained(answers) && k < |answers| <= |batch|
    requires AllKept(cfg, h, start, m, batch, answers)
    requires forall r | r in batch :: r.cursor in log && log[r.cursor] == r
    ensures Explained(answers[k])
    ensures TagsBacked(cfg.settle, h, log, Mains(Plan(cfg, Mid(cfg, m, batch, answers, k), batch[k], answers[k]).0))
  {
    hide AllInBounds, Asks, Backs, Explained, Mains, Mid, Plan, TagsBacked;
    assert AnswerKept(cfg, h, start, m, batch, answers, k);
    var mid := Mid(cfg, m, batch, answers, k);
    var a :| a in h && a.start == start && a.record == batch[k] && a.answer == answers[k]
             && (!Asks(cfg, mid, batch[k]) ==> answers[k] == NOT_ASKED) && Backs(cfg.settle, h, start, a.time, mid);
    PlanTag(cfg, h, log, a, mid);
  }

  /** Processing takes the counters past the answered records, however it ends. */
  lemma {:induction false} EndsMid(cfg: RelayCfg, m: Counters, batch: seq<RawRecord>, answers: seq<M.Classification>,
                                   i: nat, open: seq<Output>, env: Env)
    requires AllInBounds(cfg.settle, m) && AllExplained(answers) && EnvExplained(env) && i < |answers| <= |batch|
    requires forall k | 0 <= k < |answers| :: env.classify(k) == answers[k]
    requires EnqueueFrom(cfg, Mid(cfg, m, batch, answers, i), batch[..|answers| - 1], i, open, env).1.Produced?
    ensures EnqueueFrom(cfg, Mid(cfg, m, batch, answers, i), batch[..|answers|], i, open, env).2
         == Mid(cfg, m, batch, answers, |answers|)
    decreases |answers| - i
  {
    hide AllExplained, AllInBounds, EnvExplained, Plan, SendAll;
    var n := |answers|;
    var mid := Mid(cfg, m, batch, answers, i);
    OneExplained(env, i);
    var (outs, m') := Plan(cfg, mid, batch[i], env.classify(i));
    var (open', status) := SendAll(cfg, outs, open, env.enqueueOk);
    assert m' == Mid(cfg, m, batch, answers, i + 1);
    if i < n - 1 {
      EndsMid(cfg, m, batch, answers, i + 1, open', env);
    }
  }

  /** Counters and tags after a batch was processed. */
  lemma ProcessKept(cfg: RelayCfg, h: set<Asked>, start: nat, w: D.World, answers: seq<M.Classification>, env: Env)
    requires AllInBounds(cfg.settle, w.counters) && AllExplained(answers) && EnvExplained(env) && D.RecordsOk(w)
    requires Answered(cfg, w, answers, env) && AllKept(cfg, h, start, w.counters, w.batch, answers)
    requires TagsBacked(cfg.settle, h, w.log, Mains(w.broker.committed))
    ensures var (b, m, _) := Process(cfg, w.broker, w.counters, w.batch, env);
      && m == Mid(cfg, w.counters, w.batch, answers, |answers|)
      && TagsBacked(cfg.settle, h, w.log, Mains(b.committed))
  {
    hide AllExplained, AllInBounds, AllKept, EnqueueFrom, EnvExplained, Mains, MaxOffsets, NextOffsets, TagsBacked;
    var n := |answers|;
    NoTags(cfg.settle, h, w.log);
    assert Mid(cfg, w.counters, w.batch, answers, 0) == w.counters;
    EndsMid(cfg, w.counters, w.batch, answers, 0, [], env);
    BatchTags(cfg, h, start, w.log, w.counters, w.batch, answers, 0, [], env);
    hide Mid;
    if n == |w.batch| {
      assert w.batch[..n] == w.batch;
    } else {
      FailsEarly(cfg, w.counters, w.batch, n, 0, [], env);
    }
    var (open, status, _) := EnqueueFrom(cfg, w.counters, w.batch, 0, [], env);
    if status.Produced? {
      TagsConcat(cfg.settle, h, w.log, w.broker.committed, open);
    }
  }

  // ---- the invariant ----

  /** While the relay is up, its counters at the next record's turn and the answers it holds rest on the history. */
  ghost predicate RelayKept(setup: Setup, h: set<Asked>, start: nat, now: nat, s: System) {
    && AllInBounds(setup.cfg.settle, s.world.counters) && AllExplained(s.answers) && |s.answers| <= |s.world.batch|
    && Backs(setup.cfg.settle, h, start, now, Mid(setup.cfg, s.world.counters, s.world.batch, s.answers, |s.answers|))
    && AllKept(setup.cfg, h, start, s.world.counters, s.world.batch, s.answers)
  }

  ghost predicate Traced(setup: Setup, h: set<Asked>, start: nat, now: nat, s: System) {
    && (forall x | x in h :: x.time < now)
    && (s.world.up ==> RelayKept(setup, h, start, now, s))
    && TagsBacked(setup.cfg.settle, h, s.world.log, Mains(s.world.broker.committed))
  }

  /** The classification an event adds, and when the relay running after it was started. */
  ghost predicate Records(h: set<Asked>, more: set<Asked>, start: nat, now: nat, s: System, e: Pipeline.Event,
                          t: System) {
    var n := |s.answers|;
    if e.Ask? then
      n < |s.world.batch| && n < |t.answers| && more == h + {Asked(now, start, s.world.batch[n], t.answers[n])}
    else more == h
  }

  function StartAfter(start: nat, now: nat, e: Pipeline.Event): nat {
    if e.RelayStep? && e.step.Restart? then now + 1 else start
  }

  lemma AskTraced(setup: Setup, h: set<Asked>, more: set<Asked>, start: nat, now: nat, s: System, reply: M.Reply,
                  t: System)
    requires Traced(setup, h, start, now, s) && StepTo(setup, s, Ask(reply), t) && Ready(setup, t)
    requires Records(h, more, start, now, s, Ask(reply), t)
    ensures Traced(setup, more, start, now + 1, t)
  {
    hide AllInBounds, AllExplained, AllKept, Asks, Backs, HonestAbout, M.Classify, Mains, Mid, RelayMoves, TagsBacked;
    var n := |s.answers|;
    var m, batch, c := s.world.counters, s.world.batch, Answer(setup, s, reply).1;
    assert t.answers == s.answers + [c] && t.world == s.world;
    var a := Asked(now, start, batch[n], c);
    AskKept(setup, h, a, s, c);
    SameLog(s.world.log);
    TagsGrow(setup.cfg.settle, h, more, s.world.log, s.world.log, Mains(s.world.broker.committed));
  }

  lemma SameLog(log: Log)
    ensures LogGrows(log, log)
  {
  }

  lemma AskKept(setup: Setup, h: set<Asked>, a: Asked, s: System, c: M.Classification)
    requires RelayKept(setup, h, a.start, a.time, s) && forall x | x in h :: x.time < a.time
    requires |s.answers| < |s.world.batch| && AllExplained(s.answers + [c])
    requires a.record == s.world.batch[|s.answers|] && a.answer == c
    requires !Asks(setup.cfg, Mid(setup.cfg, s.world.counters, s.world.batch, s.answers, |s.answers|), a.record) ==>
      c == NOT_ASKED
    ensures RelayKept(setup, h + {a}, a.start, a.time + 1, s.(answers := s.answers + [c]))
  {
    hide AllInBounds, AllExplained, AnswerKept, Asks, Backs, Explained, Plan;
    var cfg, m, batch, n := setup.cfg, s.world.counters, s.world.batch, |s.answers|;
    var answers := s.answers + [c];
    MidPrefix(cfg, m, batch, s.answers, c, n);
    LastExplained(s.answers, c);
    PlanBacks(cfg, h, a, Mid(cfg, m, batch, s.answers, n));
    assert Mid(cfg, m, batch, answers, n + 1) == Plan(cfg, Mid(cfg, m, batch, answers, n), batch[n], answers[n]).1;
    hide Mid;
    forall k | 0 <= k < n ensures AnswerKept(cfg, h + {a}, a.start, m, batch, answers, k) {
      AnswerKeptGrows(cfg, h, h + {a}, a.start, m, batch, s.answers, c, k);
    }
    BacksSame(cfg.settle, h, h + {a}, a.start, a.time, a.time, Mid(cfg, m, batch, answers, n));
    LastKept(cfg, h + {a}, a, m, batch, answers);
  }

  lemma LastExplained(answers: seq<M.Classification>, c: M.Classification)
    requires AllExplained(answers + [c])
    ensures Explained(c)
  {
    assert (answers + [c])[|answers|] == c;
  }

  lemma {:induction false} LastKept(cfg: RelayCfg, h: set<Asked>, a: Asked, m: Counters, batch: seq<RawRecord>,
                                    answers: seq<M.Classification>)
    requires AllInBounds(cfg.settle, m) && AllExplained(answers) && 0 < |answers| <= |batch|
    requires a in h && a.record == batch[|answers| - 1] && a.answer == answers[|answers| - 1]
    requires var mid := Mid(cfg, m, batch, answers, |answers| - 1);
      (!Asks(cfg, mid, a.record) ==> a.answer == NOT_ASKED) && Backs(cfg.settle, h, a.start, a.time, mid)
    ensures AnswerKept(cfg, h, a.start, m, batch, answers, |answers| - 1)
  {
    hide AllInBounds, AllExplained, Asks, Backs, Mid;
  }

  lemma VaultTraced(setup: Setup, h: set<Asked>, start: nat, now: nat, s: System, op: VR.Op, t: System)
    requires Traced(setup, h, start, now, s) && StepTo(setup, s, VaultStep(op), t)
    ensures Traced(setup, h, start, now + 1, t)
  {
    hide AllInBounds, AllExplained, AllKept, Backs, Mains, Mid, TagsBacked, VR.Apply, VR.Lawful;
    if s.world.up {
      var mid := Mid(setup.cfg, s.world.counters, s.world.batch, s.answers, |s.answers|);
      BacksSame(setup.cfg.settle, h, h, start, now, now + 1, mid);
    }
  }

  /** Nothing answered yet: only the counters count. */
  lemma FreshKept(setup: Setup, h: set<Asked>, start: nat, now: nat, s: System)
    requires AllInBounds(setup.cfg.settle, s.world.counters) && s.answers == []
    requires Backs(setup.cfg.settle, h, start, now, s.world.counters)
    ensures RelayKept(setup, h, start, now, s)
  {
    hide AllInBounds, Backs;
  }

  lemma CountersKept(setup: Setup, h: set<Asked>, start: nat, now: nat, s: System)
    requires RelayKept(setup, h, start, now, s) && s.answers == []
    ensures Backs(setup.cfg.settle, h, start, now, s.world.counters)
  {
    hide AllInBounds, Backs;
  }

  /** What a processed batch leaves of batch, answers, counters and outputs. */
  lemma FlushLeaves(setup: Setup, s: System, env: Env, t: System)
    requires StepTo(setup, s, RelayStep(D.Flush(env)), t)
    ensures AllInBounds(setup.cfg.settle, s.world.counters) && AllExplained(s.answers) && EnvExplained(env)
    ensures s.world.up && Answered(setup.cfg, s.world, s.answers, env)
    ensures var (b, m, _) := Process(setup.cfg, s.world.broker, s.world.counters, s.world.batch, env);
      && t.world.log == s.world.log && t.world.counters == m && t.world.broker.committed == b.committed
      && t.answers == []
  {
    hide AllExplained, AllInBounds, Answered, EnvExplained, Process, D.Cursors;
  }

  lemma FlushTraced(setup: Setup, h: set<Asked>, start: nat, now: nat, s: System, env: Env, t: System)
    requires Traced(setup, h, start, now, s) && StepTo(setup, s, RelayStep(D.Flush(env)), t)
    requires Ready(setup, t) && D.RecordsOk(s.world)
    ensures Traced(setup, h, start, now + 1, t)
  {
    hide AllExplained, AllInBounds, AllKept, Answered, Backs, D.RecordsOk, EnvExplained, Mains, Mid, Process, StepTo,
      TagsBacked;
    FlushLeaves(setup, s, env, t);
    ProcessKept(setup.cfg, h, start, s.world, s.answers, env);
    var mid := Mid(setup.cfg, s.world.counters, s.world.batch, s.answers, |s.answers|);
    BacksSame(setup.cfg.settle, h, h, start, now, now + 1, mid);
    FreshKept(setup, h, start, now + 1, t);
  }

  lemma NoCounters(cfg: SettleCfg, h: set<Asked>, start: nat, now: nat)
    ensures Backs(cfg, h, start, now, map[])
  {
  }

  /** What another event of relay or broker leaves of batch, answers and counters. */
  lemma OtherLeaves(setup: Setup, s: System, d: D.Event, t: System)
    requires StepTo(setup, s, RelayStep(d), t) && !d.Flush?
    ensures d.Arrive? ==> t.world.up == s.world.up && t.answers == s.answers && t.world.batch == s.world.batch
    ensures d.Receive? ==> s.world.up && s.answers == [] && t.answers == []
    ensures d.Crash? ==> !t.world.up
    ensures d.Restart? ==> t.answers == []
    ensures t.world.counters == if d.Restart? then map[] else s.world.counters
    ensures LogGrows(s.world.log, t.world.log) && t.world.broker.committed == s.world.broker.committed
  {
    OtherSame(setup.cfg, s.world, d);
    hide AllExplained, AllInBounds, Answered, Process, LogGrows, Classifies;
  }

  lemma OtherTraced(setup: Setup, h: set<Asked>, start: nat, now: nat, s: System, d: D.Event, t: System)
    requires Traced(setup, h, start, now, s) && StepTo(setup, s, RelayStep(d), t) && !d.Flush? && Ready(setup, t)
    ensures Traced(setup, h, StartAfter(start, now, RelayStep(d)), now + 1, t)
  {
    hide AllExplained, AllInBounds, AllKept, Backs, LogGrows, Mains, Mid, StepTo, TagsBacked;
    OtherLeaves(setup, s, d, t);
    TagsGrow(setup.cfg.settle, h, h, s.world.log, t.world.log, Mains(s.world.broker.committed));
    match d
    case Arrive(_) =>
      if s.world.up {
        BacksSame(setup.cfg.settle, h, h, start, now, now + 1,
                  Mid(setup.cfg, s.world.counters, s.world.batch, s.answers, |s.answers|));
      }
    case Receive(_) =>
      CountersKept(setup, h, start, now, s);
      BacksSame(setup.cfg.settle, h, h, start, now, now + 1, s.world.counters);
      FreshKept(setup, h, start, now + 1, t);
    case Crash(_) =>
    case Restart =>
      NoCounters(setup.cfg.settle, h, now + 1, now + 1);
      FreshKept(setup, h, now + 1, now + 1, t);
  }

  lemma NextTraced(setup: Setup, h: set<Asked>, more: set<Asked>, start: nat, now: nat, s: System, e: Pipeline.Event,
                   t: System)
    requires Traced(setup, h, start, now, s) && StepTo(setup, s, e, t) && Ready(setup, t) && D.RecordsOk(s.world)
    requires Records(h, more, start, now, s, e, t)
    ensures Traced(setup, more, StartAfter(start, now, e), now + 1, t)
  {
    hide AllExplained, AllInBounds, D.RecordsOk, Ready, StepTo, Traced;
    match e
    case Ask(reply) => AskTraced(setup, h, more, start, now, s, reply, t);
    case VaultStep(op) => VaultTraced(setup, h, start, now, s, op, t);
    case RelayStep(d) =>
      if d.Flush? {
        FlushTraced(setup, h, start, now, s, d.env, t);
      } else {
        OtherTraced(setup, h, start, now, s, d, t);
      }
  }

  // ---- runs ----

  lemma StartSnoc(events: seq<Pipeline.Event>, i: nat)
    requires i < |events|
    ensures StartOf(events[..i + 1]) == StartAfter(StartOf(events[..i]), i, events[i])
  {
    assert events[..i + 1][..i] == events[..i];
  }

  lemma HistorySnoc(setup: Setup, systems: seq<System>, events: seq<Pipeline.Event>, i: nat)
    requires i < |events| && |systems| == |events| + 1 && StepTo(setup, systems[i], events[i], systems[i + 1])
    ensures Records(History(systems, events, i), History(systems, events, i + 1), StartOf(events[..i]), i,
                    systems[i], events[i], systems[i + 1])
  {
    if events[i].Ask? {
      AskAdds(setup, systems[i], events[i].reply, systems[i + 1]);
    }
    hide StartOf, StepTo;
    if AsksAt(systems, events, i) {
      assert History(systems, events, i + 1) == History(systems, events, i) + {AskedAt(systems, events, i)};
    } else {
      assert History(systems, events, i + 1) == History(systems, events, i);
    }
  }

  lemma AskAdds(setup: Setup, s: System, reply: M.Reply, t: System)
    requires StepTo(setup, s, Ask(reply), t)
    ensures |s.answers| < |s.world.batch| && |t.answers| == |s.answers| + 1
  {
    hide Answer, HonestAbout, Ready, RelayMoves;
  }

  lemma StartTraced(setup: Setup, store: VR.Store)
    ensures Traced(setup, {}, 0, 0, System(D.START, [], [], store))
  {
  }

  lemma RunParts(setup: Setup, store: VR.Store, systems: seq<System>, events: seq<Pipeline.Event>, i: nat)
    requires IsRun(setup, store, systems, events) && VR.StoreInv(store, setup.sig) && i <= |events|
    ensures |systems| == |events| + 1 && D.RecordsOk(systems[i].world)
    ensures i < |events| ==>
      StepTo(setup, systems[i], events[i], systems[i + 1]) && Ready(setup, systems[i]) && Ready(setup, systems[i + 1])
  {
    hide AnswersOk, EverFiled, Ready, VR.StoreInv, D.RecordsOk, M.CacheInv, Owned, StepTo;
    RunInv(setup, store, systems, events, i);
    if i < |events| {
      StepReady(setup, systems[i], events[i], systems[i + 1]);
      HasCapacity(setup, systems[i]);
      RunInv(setup, store, systems, events, i + 1);
      InvReady(setup, systems[i + 1], EverFiled(systems[..i + 2]));
    }
  }

  lemma StepReady(setup: Setup, s: System, e: Pipeline.Event, t: System)
    requires StepTo(setup, s, e, t)
    ensures Ready(setup, s)
  {
    hide Ready, RelayMoves, Classifies, VR.Apply, VR.Lawful;
  }

  lemma HasCapacity(setup: Setup, s: System)
    requires Ready(setup, s)
    ensures setup.capacity > 0
  {
    hide AllInBounds, AllExplained;
  }

  lemma {:induction false} RunTraced(setup: Setup, store: VR.Store, systems: seq<System>, events: seq<Pipeline.Event>,
                                     i: nat)
    requires IsRun(setup, store, systems, events) && VR.StoreInv(store, setup.sig) && i <= |events|
    ensures |systems| == |events| + 1
    ensures Traced(setup, History(systems, events, i), StartOf(events[..i]), i, systems[i])
    decreases i
  {
    hide IsRun, StepTo, Traced, Records, Ready, VR.StoreInv, D.RecordsOk, AsksAt;
    RunParts(setup, store, systems, events, i);
    if i == 0 {
      StartTraced(setup, store);
      FirstSystem(setup, store, systems, events);
      assert History(systems, events, 0) == {};
    } else {
      RunTraced(setup, store, systems, events, i - 1);
      RunParts(setup, store, systems, events, i - 1);
      HistorySnoc(setup, systems, events, i - 1);
      StartSnoc(events, i - 1);
      NextTraced(setup, History(systems, events, i - 1), History(systems, events, i), StartOf(events[..i - 1]), i - 1,
                 systems[i - 1], events[i - 1], systems[i]);
    }
  }

  lemma FirstSystem(setup: Setup, store: VR.Store, systems: seq<System>, events: seq<Pipeline.Event>)
    requires IsRun(setup, store, systems, events)
    ensures |systems| == |events| + 1 && systems[0] == System(D.START, [], [], store)
  {
    hide StepTo;
  }

  // ---- what each classification rests on ----

  lemma StepGrowsLog(setup: Setup, s: System, e: Pipeline.Event, t: System)
    requires StepTo(setup, s, e, t)
    ensures LogGrows(s.world.log, t.world.log)
  {
    hide AllExplained, AllInBounds, Answered, Process, VR.Apply, VR.Lawful, HonestAbout, Answer, EnvExplained,
      D.Cursors;
    if e.RelayStep? && !e.step.Flush? {
      OtherSame(setup.cfg, s.world, e.step);
    }
  }

  lemma {:induction false} LogOnlyGrows(setup: Setup, store: VR.Store, systems: seq<System>,
                                        events: seq<Pipeline.Event>, i: nat)
    requires IsRun(setup, store, systems, events) && i <= |events|
    ensures LogGrows(systems[i].world.log, systems[|events|].world.log)
    decreases |events| - i
  {
    hide StepTo, D.START;
    if i < |events| {
      StepGrowsLog(setup, systems[i], events[i], systems[i + 1]);
      LogOnlyGrows(setup, store, systems, events, i + 1);
    }
  }

  /** The record was read from the log, and an answer that names a schema names one the record's own
      document had been filed under by then. */
  ghost predicate AskSound(setup: Setup, known: set<Posting>, log: Log, a: Asked) {
    && a.record.cursor in log && log[a.record.cursor] == a.record
    && (a.answer.schemaRef.Known? ==> FiledFor(setup, known, a.record, a.answer.schemaRef.id))
  }

  lemma StepSound(setup: Setup, s: System, known: set<Posting>, reply: M.Reply, t: System, log: Log)
    requires SystemInv(setup, s, known) && StepTo(setup, s, Ask(reply), t) && LogGrows(s.world.log, log)
    ensures |s.answers| < |s.world.batch| && |s.answers| < |t.answers|
    ensures var r := s.world.batch[|s.answers|];
      && r.cursor in log && log[r.cursor] == r
      && AnswerOk(setup, known, r, t.answers[|s.answers|])
  {
    hide AllExplained, AllInBounds, AnswerOk, AnswersOk, Classifies, M.CacheInv, Mains, Owned, RelayMoves, VR.StoreInv;
    AskAdds(setup, s, reply, t);
    AnswerBacked(setup, s, known, reply, t);
    var r := s.world.batch[|s.answers|];
    assert r in s.world.batch;
  }

  /** Every classification of a run is sound. */
  lemma ClassifiedSound(setup: Setup, store: VR.Store, systems: seq<System>, events: seq<Pipeline.Event>, a: Asked)
    requires IsRun(setup, store, systems, events) && VR.StoreInv(store, setup.sig)
    requires a in History(systems, events, |events|)
    ensures a.time < |events| && AskSound(setup, EverFiled(systems[..a.time + 1]), systems[|events|].world.log, a)
  {
    hide AnswerOk, EverFiled, FiledFor, IsRun, LogGrows, StartOf, StepTo, SystemInv, VR.StoreInv;
    var i :| 0 <= i < |events| && AsksAt(systems, events, i) && a == AskedAt(systems, events, i);
    FirstSystem(setup, store, systems, events);
    RunParts(setup, store, systems, events, i);
    RunInv(setup, store, systems, events, i);
    LogOnlyGrows(setup, store, systems, events, i);
    StepSound(setup, systems[i], EverFiled(systems[..i + 1]), events[i].reply, systems[i + 1],
      systems[|events|].world.log);
    KnownFiled(setup, EverFiled(systems[..i + 1]), a);
  }

  lemma KnownFiled(setup: Setup, known: set<Posting>, a: Asked)
    requires AnswerOk(setup, known, a.record, a.answer)
    ensures a.answer.schemaRef.Known? ==> FiledFor(setup, known, a.record, a.answer.schemaRef.id)
  {
    hide FiledFor;
  }

  lemma EverMonotone(systems: seq<System>, i: nat)
    requires i <= |systems|
    ensures EverFiled(systems[..i]) <= EverFiled(systems)
  {
    assert forall k | 0 <= k < i :: systems[..i][k] == systems[k];
  }

  /** A tag that rests on the history names what some classification answered. */
  lemma TagAnswered(cfg: SettleCfg, h: set<Asked>, a: Asked, id: string) returns (x: Asked)
    requires a in h && TagRests(cfg, h, a, id)
    ensures x in h && x.answer.schemaRef == M.Known(id)
  {
    hide Active;
    x := a;
    if a.answer.schemaRef != M.Known(id) {
      var topic := a.record.cursor.at.topic;
      var since: nat :| Stretch(h, a.start, since, a.time, topic, id)
        && |Agreeing(h, a.start, since, a.time, topic, id)| >= Threshold(cfg);
      assert Agreeing(h, a.start, since, a.time, topic, id) != {};
      x :| x in Agreeing(h, a.start, since, a.time, topic, id);
    }
  }

  lemma OneTag(setup: Setup, h: set<Asked>, start: nat, now: nat, s: System, o: Output)
    requires Traced(setup, h, start, now, s) && o in Mains(s.world.broker.committed)
    ensures o.Main? && TagBacked(setup.cfg.settle, h, s.world.log, o)
  {
    hide Mains, RelayKept, TagBacked;
  }

  /** Over every joint run of relay, matcher and vault, every committed Known tag goes back to the
      classification of its own record or, on the fast path of a listed source, to the unbroken
      `Threshold` classifications of that source before it by the same relay; and it names a published
      schema. */
  lemma CommittedTagsBacked(setup: Setup, store: VR.Store, systems: seq<System>, events: seq<Pipeline.Event>, o: Output)
    requires IsRun(setup, store, systems, events) && VR.StoreInv(store, setup.sig) && CodecOk(setup.codec)
    requires o in Mains(systems[|events|].world.broker.committed) && o.tag.Known?
    ensures var s := systems[|events|];
      && TagBacked(setup.cfg.settle, History(systems, events, |events|), s.world.log, o)
      && o.tag.id in s.store.registry.schemas && IsSchemaId(o.tag.id)
  {
    hide *;
    FirstSystem(setup, store, systems, events);
    var s, h := systems[|events|], History(systems, events, |events|);
    assert events[..|events|] == events && systems[..|events| + 1] == systems;
    RunTraced(setup, store, systems, events, |events|);
    OneTag(setup, h, StartOf(events), |events|, s, o);
    var a := TagsClassification(setup.cfg.settle, h, s.world.log, o);
    var x := TagAnswered(setup.cfg.settle, h, a, o.tag.id);
    ClassifiedSound(setup, store, systems, events, x);
    SoundFiled(setup, EverFiled(systems[..x.time + 1]), s.world.log, x, o.tag.id);
    EverMonotone(systems, x.time + 1);
    FiledForGrows(setup, EverFiled(systems[..x.time + 1]), EverFiled(systems), x.record, o.tag.id);
    RunInv(setup, store, systems, events, |events|);
    FiledForPublished(setup, s, EverFiled(systems), x.record, o.tag.id);
  }

  lemma TagsClassification(cfg: SettleCfg, h: set<Asked>, log: Log, o: Output) returns (a: Asked)
    requires o.Main? && o.tag.Known? && TagBacked(cfg, h, log, o)
    ensures a in h && TagRests(cfg, h, a, o.tag.id)
  {
    hide TagRests;
    a :| a in h && a.record == log[o.origin] && TagRests(cfg, h, a, o.tag.id);
  }

  lemma SoundFiled(setup: Setup, known: set<Posting>, log: Log, a: Asked, id: string)
    requires AskSound(setup, known, log, a) && a.answer.schemaRef == M.Known(id)
    ensures FiledFor(setup, known, a.record, id)
  {
    hide FiledFor;
  }

  /** No event of the run takes a posting from the index, as a rebuild may. */
  ghost predicate NothingLost(systems: seq<System>) {
    forall i | 0 < i < |systems| :: systems[i - 1].store.registry.index <= systems[i].store.registry.index
  }

  lemma {:induction false} EverIsNow(systems: seq<System>)
    requires systems != [] && NothingLost(systems)
    ensures EverFiled(systems) == systems[|systems| - 1].store.registry.index
    decreases |systems|
  {
    var n := |systems| - 1;
    assert systems == systems[..n] + [systems[n]];
    Pipeline.EverSnoc(systems[..n], systems[n]);
    if n > 0 {
      EverIsNow(systems[..n]);
    } else {
      assert systems[..n] == [];
    }
  }

  /** Then everything the classifications named, and with them the tags, is still filed. */
  lemma ClassifiedStillFiled(setup: Setup, store: VR.Store, systems: seq<System>, events: seq<Pipeline.Event>, a: Asked)
    requires IsRun(setup, store, systems, events) && VR.StoreInv(store, setup.sig) && NothingLost(systems)
    requires a in History(systems, events, |events|)
    ensures AskSound(setup, systems[|events|].store.registry.index, systems[|events|].world.log, a)
  {
    hide EverFiled, FiledFor, History, IsRun, NothingLost, VR.StoreInv;
    FirstSystem(setup, store, systems, events);
    ClassifiedSound(setup, store, systems, events, a);
    EverIsNow(systems);
    EverMonotone(systems, a.time + 1);
    if a.answer.schemaRef.Known? {
      FiledForGrows(setup, EverFiled(systems[..a.time + 1]), EverFiled(systems), a.record, a.answer.schemaRef.id);
    }
  }
}
