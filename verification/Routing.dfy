/** What the relay produces for one raw record, and what one batch does to the broker. */
module Routing {
  import opened Sequences
  import opened Options
  import opened Utf8
  import opened Headers
  import opened Settle
  import opened Matcher
  import Json

  datatype Partition = Partition(topic: string, number: nat)
  datatype Cursor = Cursor(at: Partition, offset: nat)

  datatype RawRecord = RawRecord(cursor: Cursor, key: Option<seq<byte>>, payload: Option<seq<byte>>,
    headers: seq<Header>)

  datatype Destination = ToTagged | ToQuarantine

  /** A produced record. `Main` is the one tagged or quarantined output of its origin. */
  datatype Output =
    | Main(dest: Destination, partition: nat, key: Option<seq<byte>>, value: Option<seq<byte>>,
           inbound: seq<Header>, tag: SchemaRef, origin: Cursor, reason: Option<Json.Reason>)
    | Discovery(candidate: CandidateId, payload: seq<byte>, source: string, cursor: Cursor)

  datatype FaultPoint = AfterDiscoveryProduce | AfterProduceBeforeCommit

  datatype RelayCfg = RelayCfg(
    maxBatchRecords: nat, maxBatchBytes: nat, maxMessageBytes: nat, fault: Option<FaultPoint>, settle: SettleCfg,
    discoverySize: (CandidateId, seq<byte>, Cursor) -> nat)

  const PRODUCE_MARGIN := 16 * 1024

  function ProduceCap(cfg: RelayCfg): nat {
    if cfg.maxMessageBytes < PRODUCE_MARGIN then 0 else cfg.maxMessageBytes - PRODUCE_MARGIN
  }

  /** A malformed answer says why. */
  predicate Explained(c: Classification) {
    c.schemaRef.Malformed? ==> c.quarantine.Some?
  }

  type Counters = map<string, SourceSettle>

  function MainOutput(r: RawRecord, dest: Destination, value: Option<seq<byte>>, tag: SchemaRef,
                      reason: Option<Json.Reason>): Output {
    Main(dest, r.cursor.at.number, r.key, value, StripReserved(r.headers), tag, r.cursor, reason)
  }

  /** The output of a classified record. */
  function ClassifiedOutput(r: RawRecord, c: Classification): Output
    requires Explained(c)
  {
    if c.schemaRef.Malformed? then MainOutput(r, ToQuarantine, r.payload, Malformed, c.quarantine)
    else MainOutput(r, ToTagged, r.payload, c.schemaRef, None)
  }

  /** The discovery evidence of a provisional record, if it fits. */
  function Evidence(cfg: RelayCfg, r: RawRecord, c: Classification): seq<Output> {
    if c.schemaRef.Provisional? && r.payload.Some?
       && cfg.discoverySize(c.schemaRef.candidate, r.payload.value, r.cursor) <= ProduceCap(cfg)
    then [Discovery(c.schemaRef.candidate, r.payload.value, r.cursor.at.topic, r.cursor)] else []
  }

  /** What one record calls for, in order, and the settle counters after it. `c` is what the matcher
      answers if it is asked. */
  function Plan(cfg: RelayCfg, m: Counters, r: RawRecord, c: Classification): (p: (seq<Output>, Counters))
    requires AllInBounds(cfg.settle, m) && Explained(c)
    ensures AllInBounds(cfg.settle, p.1) && p.0 != []
  {
    match r.payload
    case None => ([MainOutput(r, ToTagged, None, Tombstone, None)], m)
    case Some(payload) =>
      if |payload| > ProduceCap(cfg) then
        ([MainOutput(r, ToQuarantine, None, Malformed, Some(Json.SizeExceeded))], m)
      else
        var (b, d) := Before(cfg.settle, m, r.cursor.at.topic);
        match d
        case FastPath(id) => ([MainOutput(r, ToTagged, r.payload, Known(id), None)], b)
        case Classify(drift) =>
          var known := match c.schemaRef { case Known(id) => Some(id) case _ => None };
          (Evidence(cfg, r, c) + [ClassifiedOutput(r, c)],
           After(cfg.settle, b, r.cursor.at.topic, known, drift))
  }

  // ---- one batch ----

  /** How the matcher answers for each record, and which of the broker's calls succeed. */
  datatype Env = Env(
    classify: nat -> Classification, enqueueOk: nat -> bool, deliveryOk: nat -> bool, offsetsOk: bool)

  ghost predicate EnvExplained(env: Env) {
    forall i :: Explained(env.classify(i))
  }

  datatype Broker = Broker(committed: seq<Output>, offsets: map<Partition, nat>, open: Option<seq<Output>>)

  datatype Outcome = Committed | Aborted | FaultInjected

  datatype BodyStatus = Produced | Fault | EnqueueFailed

  /** Enqueues the outputs one after the other. */
  function SendAll(cfg: RelayCfg, outs: seq<Output>, open: seq<Output>, ok: nat -> bool): (seq<Output>, BodyStatus)
    decreases |outs|
  {
    if outs == [] then (open, Produced)
    else if !ok(|open|) then (open, EnqueueFailed)
    else if outs[0].Discovery? && cfg.fault == Some(AfterDiscoveryProduce) then (open + [outs[0]], Fault)
    else SendAll(cfg, outs[1..], open + [outs[0]], ok)
  }

  /** The records of the batch from `i` on, in order, until one fails. */
  ghost function EnqueueFrom(cfg: RelayCfg, m: Counters, batch: seq<RawRecord>, i: nat, open: seq<Output>, env: Env):
      (r: (seq<Output>, BodyStatus, Counters))
    requires AllInBounds(cfg.settle, m) && EnvExplained(env) && i <= |batch|
    ensures AllInBounds(cfg.settle, r.2)
    decreases |batch| - i
  {
    if i == |batch| then (open, Produced, m)
    else
      var (outs, m') := Plan(cfg, m, batch[i], env.classify(i));
      var (open', status) := SendAll(cfg, outs, open, env.enqueueOk);
      if status.Produced? then EnqueueFrom(cfg, m', batch, i + 1, open', env) else (open', status, m')
  }

  /** For each partition in the batch, its largest offset. */
  function MaxOffsets(batch: seq<RawRecord>): map<Partition, nat> {
    if batch == [] then map[]
    else
      var n := |batch| - 1;
      var max := MaxOffsets(batch[..n]);
      var c := batch[n].cursor;
      max[c.at := if c.at in max && max[c.at] > c.offset then max[c.at] else c.offset]
  }

  /** The offset after each partition's largest one. */
  function NextOffsets(max: map<Partition, nat>): map<Partition, nat> {
    map p | p in max :: max[p] + 1
  }

  /** The produced outputs and the offsets become visible together, or not at all. */
  ghost function Process(cfg: RelayCfg, b: Broker, m: Counters, batch: seq<RawRecord>,
                         env: Env): (r: (Broker, Counters, Outcome))
    requires AllInBounds(cfg.settle, m) && EnvExplained(env)
    ensures AllInBounds(cfg.settle, r.1)
  {
    var (open, status, m') := EnqueueFrom(cfg, m, batch, 0, [], env);
    match status
    case Fault => (b.(open := Some(open)), m', FaultInjected)
    case EnqueueFailed => (b.(open := None), m', Aborted)
    case Produced =>
      if exists k: nat :: k < |open| && !env.deliveryOk(k) then (b.(open := None), m', Aborted)
      else if cfg.fault == Some(AfterProduceBeforeCommit) then (b.(open := Some(open)), m', FaultInjected)
      else if !env.offsetsOk then (b.(open := None), m', Aborted)
      else (Broker(b.committed + open, b.offsets + NextOffsets(MaxOffsets(batch)), None), m', Committed)
  }

  // ---- what a record's outputs are ----

  function Mains(outs: seq<Output>): (r: seq<Output>)
    ensures forall o | o in r :: o.Main?
  {
    if outs == [] then []
    else Mains(outs[..|outs| - 1]) + if outs[|outs| - 1].Main? then [outs[|outs| - 1]] else []
  }

  /** The last thing a record calls for. */
  function MainOf(cfg: RelayCfg, m: Counters, r: RawRecord, c: Classification): Output
    requires AllInBounds(cfg.settle, m) && Explained(c)
  {
    var outs := Plan(cfg, m, r, c).0;
    outs[|outs| - 1]
  }

  /** Exactly one tagged or quarantined output per record, on the record's own partition, with its
      key, its origin and its headers without the reserved ones. */
  lemma OneMainOutput(cfg: RelayCfg, m: Counters, r: RawRecord, c: Classification)
    requires AllInBounds(cfg.settle, m) && Explained(c)
    ensures var main := MainOf(cfg, m, r, c);
      && Mains(Plan(cfg, m, r, c).0) == [main]
      && main.Main? && main.origin == r.cursor && main.partition == r.cursor.at.number && main.key == r.key
      && main.inbound == StripReserved(r.headers)
  {
    hide Before, After, AllInBounds, StripReserved, Mains;
    var outs := Plan(cfg, m, r, c).0;
    var n := |outs| - 1;
    if n == 0 {
      OnlyMain(outs[0]);
      assert outs == [outs[0]];
    } else {
      assert outs == [outs[0], outs[1]];
      MainAfterEvidence(outs[0], outs[1]);
    }
  }

  /** It fits with a margin of 16 KiB; nothing at all always fits. */
  predicate FitsIn(size: nat, max: nat) {
    size == 0 || size + 16 * 1024 <= max
  }

  /** Where that output goes and what it says: tombstones are tagged as such; what is too large is
      quarantined without its payload; anything else keeps its payload and carries the settled schema on
      the fast path and the classification otherwise, a malformed one to quarantine with its reason. */
  lemma MainRouting(cfg: RelayCfg, m: Counters, r: RawRecord, c: Classification)
    requires AllInBounds(cfg.settle, m) && Explained(c)
    ensures var main := MainOf(cfg, m, r, c);
      match r.payload
      case None => main.Main? && main.dest == ToTagged && main.tag == Tombstone && main.value.None? && main.reason.None?
      case Some(payload) =>
        main.Main? &&
        if !FitsIn(|payload|, cfg.maxMessageBytes) then
          main.dest == ToQuarantine && main.tag == Malformed && main.value.None?
            && main.reason == Some(Json.SizeExceeded)
        else
          && main.value == r.payload && (main.dest == ToQuarantine <==> main.tag == Malformed)
          && match Before(cfg.settle, m, r.cursor.at.topic).1
             case FastPath(id) => main.tag == Known(id) && main.reason.None?
             case Classify(_) =>
               main.tag == c.schemaRef && main.reason == if c.schemaRef.Malformed? then c.quarantine else None
  {
    hide Before, After, AllInBounds, StripReserved;
  }

  /** Besides it there is at most the discovery evidence, ahead of it: exactly when the record was
      classified as provisional and its evidence fits. */
  lemma EvidenceExactly(cfg: RelayCfg, m: Counters, r: RawRecord, c: Classification)
    requires AllInBounds(cfg.settle, m) && Explained(c)
    ensures var outs := Plan(cfg, m, r, c).0;
      if r.payload.Some? && FitsIn(|r.payload.value|, cfg.maxMessageBytes)
         && Before(cfg.settle, m, r.cursor.at.topic).1.Classify? && c.schemaRef.Provisional?
         && FitsIn(cfg.discoverySize(c.schemaRef.candidate, r.payload.value, r.cursor), cfg.maxMessageBytes)
      then outs == [Discovery(c.schemaRef.candidate, r.payload.value, r.cursor.at.topic, r.cursor),
        MainOf(cfg, m, r, c)]
      else outs == [MainOf(cfg, m, r, c)]
  {
    hide Before, After, AllInBounds, StripReserved;
  }

  /** The settle counters move exactly as one event of the record's topic moves them; a tombstone or a record
      that is too large is none. */
  lemma CountersFollow(cfg: RelayCfg, m: Counters, r: RawRecord, c: Classification)
    requires AllInBounds(cfg.settle, m) && Explained(c)
    ensures Plan(cfg, m, r, c).1
         == if r.payload.Some? && FitsIn(|r.payload.value|, cfg.maxMessageBytes) then
              var known := if c.schemaRef.Known? then Some(c.schemaRef.id) else None;
              Handle(cfg.settle, m, Event(r.cursor.at.topic, known)).0
            else m
  {
    hide Before, After, AllInBounds, StripReserved;
  }

  lemma OnlyMain(o: Output)
    requires o.Main?
    ensures Mains([o]) == [o]
  {
    assert [o][..0] == [];
  }

  lemma MainAfterEvidence(d: Output, o: Output)
    requires d.Discovery? && o.Main?
    ensures Mains([d, o]) == [o]
  {
    assert [d, o][..1] == [d] && [d][..0] == [];
    assert Mains([d]) == Mains([]) + [] == [];
  }

  /** With settling disabled the outputs depend on the record and its classification alone. */
  lemma StatelessPlan(cfg: RelayCfg, m: Counters, m': Counters, r: RawRecord, c: Classification)
    requires !cfg.settle.enabled && AllInBounds(cfg.settle, m) && AllInBounds(cfg.settle, m') && Explained(c)
    ensures Plan(cfg, m, r, c).0 == Plan(cfg, m', r, c).0 && Plan(cfg, m, r, c).1 == m
  {
  }

  // ---- offsets ----

  /** A partition's entry is the largest offset the batch holds of it. */
  lemma {:induction false} MaxIsLargest(batch: seq<RawRecord>, p: Partition)
    ensures p in MaxOffsets(batch) <==> exists i :: 0 <= i < |batch| && batch[i].cursor.at == p
    ensures p in MaxOffsets(batch) ==>
      && (forall i | 0 <= i < |batch| && batch[i].cursor.at == p :: batch[i].cursor.offset <= MaxOffsets(batch)[p])
      && (exists i :: 0 <= i < |batch| && batch[i].cursor == Cursor(p, MaxOffsets(batch)[p]))
    decreases |batch|
  {
    if batch != [] {
      var n := |batch| - 1;
      MaxIsLargest(batch[..n], p);
      assert forall i | 0 <= i < n :: batch[..n][i] == batch[i];
      if p == batch[n].cursor.at {
        if MaxOffsets(batch)[p] == batch[n].cursor.offset {
          assert batch[n].cursor == Cursor(p, MaxOffsets(batch)[p]);
        } else {
          var i :| 0 <= i < n && batch[..n][i].cursor == Cursor(p, MaxOffsets(batch[..n])[p]);
          assert batch[i].cursor == Cursor(p, MaxOffsets(batch)[p]);
        }
      } else if p in MaxOffsets(batch) {
        var i :| 0 <= i < n && batch[..n][i].cursor == Cursor(p, MaxOffsets(batch[..n])[p]);
        assert batch[i].cursor == Cursor(p, MaxOffsets(batch)[p]);
      }
    }
  }

  // ---- what a whole batch produces ----

  lemma MainsSnoc(a: seq<Output>, o: Output)
    ensures Mains(a + [o]) == Mains(a) + if o.Main? then [o] else []
  {
    assert (a + [o])[..|a|] == a;
  }

  lemma {:induction false} MainsConcat(a: seq<Output>, b: seq<Output>)
    ensures Mains(a + b) == Mains(a) + Mains(b)
    decreases |b|
  {
    if b == [] {
      assert a + b == a;
    } else {
      hide Mains;
      var n := |b| - 1;
      MainsConcat(a, b[..n]);
      MainsSnoc(b[..n], b[n]);
      MainsSnoc(a + b[..n], b[n]);
      Associate(Mains(a), Mains(b[..n]), if b[n].Main? then [b[n]] else []);
      Associate(a, b[..n], [b[n]]);
      LastApart(b);
    }
  }

  lemma {:induction false} AllSent(cfg: RelayCfg, outs: seq<Output>, open: seq<Output>, ok: nat -> bool)
    ensures SendAll(cfg, outs, open, ok).1.Produced? ==> SendAll(cfg, outs, open, ok).0 == open + outs
    decreases |outs|
  {
    if outs == [] {
      assert open + outs == open;
    } else {
      AllSent(cfg, outs[1..], open + [outs[0]], ok);
      assert open + [outs[0]] + outs[1..] == open + outs;
    }
  }

  /** The origins of the outputs are the records, one each, in order. */
  ghost predicate Covers(mains: seq<Output>, batch: seq<RawRecord>) {
    |mains| == |batch| && forall i | 0 <= i < |batch| :: mains[i].Main? && mains[i].origin == batch[i].cursor
  }

  lemma {:induction false} BatchCovered(cfg: RelayCfg, m: Counters, batch: seq<RawRecord>, i: nat, open: seq<Output>,
                                        env: Env)
    requires AllInBounds(cfg.settle, m) && EnvExplained(env) && i <= |batch| && Covers(Mains(open), batch[..i])
    ensures var (open', status, _) := EnqueueFrom(cfg, m, batch, i, open, env);
      status.Produced? ==> Covers(Mains(open'), batch)
    decreases |batch| - i
  {
    hide Plan, SendAll, Mains, AllInBounds;
    if i == |batch| {
      assert batch[..i] == batch;
    } else {
      var (outs, m') := Plan(cfg, m, batch[i], env.classify(i));
      OneMainOutput(cfg, m, batch[i], env.classify(i));
      AllSent(cfg, outs, open, env.enqueueOk);
      MainsConcat(open, outs);
      assert batch[..i + 1] == batch[..i] + [batch[i]];
      if SendAll(cfg, outs, open, env.enqueueOk).1.Produced? {
        BatchCovered(cfg, m', batch, i + 1, open + outs, env);
      }
    }
  }

  /** A committed batch adds exactly one main output per record, in order, and moves each touched
      partition to one past its largest offset; any other outcome leaves the visible state alone. */
  lemma AllOrNothing(cfg: RelayCfg, b: Broker, m: Counters, batch: seq<RawRecord>, env: Env)
    requires AllInBounds(cfg.settle, m) && EnvExplained(env)
    ensures var (b', _, outcome) := Process(cfg, b, m, batch, env);
      if outcome.Committed? then
        && b'.open.None? && |b.committed| <= |b'.committed| && b'.committed[..|b.committed|] == b.committed
        && Covers(Mains(b'.committed[|b.committed|..]), batch)
        && b'.offsets == b.offsets + NextOffsets(MaxOffsets(batch))
      else
        b'.committed == b.committed && b'.offsets == b.offsets && (outcome.Aborted? ==> b'.open.None?)
  {
    hide EnqueueFrom, NextOffsets, MaxOffsets, AllInBounds;
    assert batch[..0] == [];
    BatchCovered(cfg, m, batch, 0, [], env);
    var (b', _, outcome) := Process(cfg, b, m, batch, env);
    if outcome.Committed? {
      var open := EnqueueFrom(cfg, m, batch, 0, [], env).0;
      assert (b.committed + open)[|b.committed|..] == open && (b.committed + open)[..|b.committed|] == b.committed;
    }
  }

  // ---- exactly when a batch commits ----

  /** All that the records of the batch from `i` on call for, in order. */
  ghost function Wanted(cfg: RelayCfg, m: Counters, batch: seq<RawRecord>, i: nat, env: Env): seq<Output>
    requires AllInBounds(cfg.settle, m) && EnvExplained(env) && i <= |batch|
    decreases |batch| - i
  {
    if i == |batch| then []
    else
      var (outs, m') := Plan(cfg, m, batch[i], env.classify(i));
      outs + Wanted(cfg, m', batch, i + 1, env)
  }

  ghost predicate AllOk(from: nat, to: nat, ok: nat -> bool) {
    forall k | from <= k < to :: ok(k)
  }

  /** Of the outputs of a transaction from the `from`-th on: the fault point after some discovery evidence
      is reached. */
  ghost predicate Stops(cfg: RelayCfg, all: seq<Output>, from: nat, ok: nat -> bool) {
    cfg.fault == Some(AfterDiscoveryProduce)
    && exists j | from <= j < |all| :: all[j].Discovery? && AllOk(from, j + 1, ok)
  }

  lemma {:induction false} StopsPrefix(cfg: RelayCfg, a: seq<Output>, all: seq<Output>, from: nat, ok: nat -> bool)
    requires a <= all && from <= |a|
    ensures AllOk(from, |all|, ok) <==> AllOk(from, |a|, ok) && AllOk(|a|, |all|, ok)
    ensures Stops(cfg, all, from, ok) <==> Stops(cfg, a, from, ok) || (AllOk(from, |a|, ok) && Stops(cfg, all, |a|, ok))
  {
    if Stops(cfg, a, from, ok) {
      var j :| from <= j < |a| && a[j].Discovery? && AllOk(from, j + 1, ok);
      assert all[j] == a[j];
    }
    if AllOk(from, |a|, ok) && Stops(cfg, all, |a|, ok) {
      var j :| |a| <= j < |all| && all[j].Discovery? && AllOk(|a|, j + 1, ok);
      assert AllOk(from, j + 1, ok);
    }
    if Stops(cfg, all, from, ok) {
      var j :| from <= j < |all| && all[j].Discovery? && AllOk(from, j + 1, ok);
      if j < |a| {
        assert a[j] == all[j];
      } else {
        assert AllOk(|a|, j + 1, ok);
      }
    }
  }

  lemma {:induction false} SendsExactly(cfg: RelayCfg, outs: seq<Output>, open: seq<Output>, ok: nat -> bool)
    ensures SendAll(cfg, outs, open, ok).1.Fault? <==> Stops(cfg, open + outs, |open|, ok)
    ensures SendAll(cfg, outs, open, ok).1.Produced? <==>
      AllOk(|open|, |open + outs|, ok) && !Stops(cfg, open + outs, |open|, ok)
    decreases |outs|
  {
    if outs != [] {
      var sent := open + [outs[0]];
      SendsExactly(cfg, outs[1..], sent, ok);
      assert sent + outs[1..] == open + outs;
      StopsPrefix(cfg, sent, open + outs, |open|, ok);
      OneSent(cfg, open, outs[0], ok);
    }
  }

  lemma {:induction false} OneSent(cfg: RelayCfg, open: seq<Output>, o: Output, ok: nat -> bool)
    ensures AllOk(|open|, |open + [o]|, ok) <==> ok(|open|)
    ensures Stops(cfg, open + [o], |open|, ok) <==>
      cfg.fault == Some(AfterDiscoveryProduce) && o.Discovery? && ok(|open|)
  {
    assert (open + [o])[|open|] == o;
  }

  lemma {:induction false} EnqueuesExactly(cfg: RelayCfg, m: Counters, batch: seq<RawRecord>, i: nat, open: seq<Output>,
                                           env: Env)
    requires AllInBounds(cfg.settle, m) && EnvExplained(env) && i <= |batch|
    ensures var (open', status, _) := EnqueueFrom(cfg, m, batch, i, open, env);
      var all := open + Wanted(cfg, m, batch, i, env);
      && (status.Fault? <==> Stops(cfg, all, |open|, env.enqueueOk))
      && (status.Produced? <==> AllOk(|open|, |all|, env.enqueueOk) && !Stops(cfg, all, |open|, env.enqueueOk))
      && (status.Produced? ==> open' == all)
    decreases |batch| - i
  {
    hide Plan, SendAll, AllInBounds, AllOk, Stops, EnvExplained;
    if i < |batch| {
      ClassifyExplained(env, i);
      var (outs, m') := Plan(cfg, m, batch[i], env.classify(i));
      var rest := Wanted(cfg, m', batch, i + 1, env);
      SendsExactly(cfg, outs, open, env.enqueueOk);
      AllSent(cfg, outs, open, env.enqueueOk);
      Associate(open, outs, rest);
      StopsPrefix(cfg, open + outs, open + (outs + rest), |open|, env.enqueueOk);
      if SendAll(cfg, outs, open, env.enqueueOk).1.Produced? {
        EnqueuesExactly(cfg, m', batch, i + 1, open + outs, env);
      }
    } else {
      assert open + [] == open;
      NothingSent(cfg, open, env.enqueueOk);
    }
  }

  lemma ClassifyExplained(env: Env, i: nat)
    requires EnvExplained(env)
    ensures Explained(env.classify(i))
  {
  }

  lemma NothingSent(cfg: RelayCfg, open: seq<Output>, ok: nat -> bool)
    ensures AllOk(|open|, |open|, ok) && !Stops(cfg, open, |open|, ok)
  {
  }

  /** The outcome of a batch, on the broker's answers alone. It commits exactly when it reaches no fault
      point, the queue took every output, every delivery was acknowledged and the offsets were accepted,
      and then it commits all that its records called for; a fault point is reached past evidence the
      queue took, or past the last delivery; in all other cases it is aborted. */
  lemma {:induction false} OutcomeExactly(cfg: RelayCfg, b: Broker, m: Counters, batch: seq<RawRecord>, env: Env)
    requires AllInBounds(cfg.settle, m) && EnvExplained(env)
    ensures var (b', _, outcome) := Process(cfg, b, m, batch, env); var w := Wanted(cfg, m, batch, 0, env);
      && (outcome.FaultInjected? <==>
            || (&& cfg.fault == Some(AfterDiscoveryProduce)
                && exists j | 0 <= j < |w| :: w[j].Discovery? && forall k | 0 <= k <= j :: env.enqueueOk(k))
            || (&& cfg.fault == Some(AfterProduceBeforeCommit)
                && forall k | 0 <= k < |w| :: env.enqueueOk(k) && env.deliveryOk(k)))
      && (outcome.Committed? <==>
            && !outcome.FaultInjected? && env.offsetsOk
            && forall k | 0 <= k < |w| :: env.enqueueOk(k) && env.deliveryOk(k))
      && b'.committed == if outcome.Committed? then b.committed + w else b.committed
  {
    hide *;
    var w := Wanted(cfg, m, batch, 0, env);
    EnqueuesExactly(cfg, m, batch, 0, [], env);
    assert [] + w == w;
    StopsFromZero(cfg, w, env.enqueueOk);
    AllFromZero(w, env);
    ProcessCases(cfg, b, m, batch, env);
  }

  lemma ProcessCases(cfg: RelayCfg, b: Broker, m: Counters, batch: seq<RawRecord>, env: Env)
    requires AllInBounds(cfg.settle, m) && EnvExplained(env)
    ensures var (open, status, _) := EnqueueFrom(cfg, m, batch, 0, [], env);
      var (b', _, outcome) := Process(cfg, b, m, batch, env);
      && (outcome.FaultInjected? <==>
            || status.Fault?
            || (status.Produced? && cfg.fault == Some(AfterProduceBeforeCommit) && AllOk(0, |open|, env.deliveryOk)))
      && (outcome.Committed? <==>
            && status.Produced? && cfg.fault != Some(AfterProduceBeforeCommit) && env.offsetsOk
            && AllOk(0, |open|, env.deliveryOk))
      && b'.committed == if outcome.Committed? then b.committed + open else b.committed
  {
    hide EnqueueFrom, MaxOffsets, NextOffsets, AllInBounds, EnvExplained;
  }

  lemma AllFromZero(w: seq<Output>, env: Env)
    ensures AllOk(0, |w|, env.enqueueOk) && AllOk(0, |w|, env.deliveryOk) <==>
      forall k | 0 <= k < |w| :: env.enqueueOk(k) && env.deliveryOk(k)
  {
  }

  lemma StopsFromZero(cfg: RelayCfg, w: seq<Output>, ok: nat -> bool)
    ensures Stops(cfg, w, 0, ok) <==>
      && cfg.fault == Some(AfterDiscoveryProduce)
      && exists j | 0 <= j < |w| :: w[j].Discovery? && forall k | 0 <= k <= j :: ok(k)
    ensures Stops(cfg, w, 0, ok) ==> cfg.fault == Some(AfterDiscoveryProduce)
  {
  }
}
