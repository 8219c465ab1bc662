/** The relay loop's own code: filling a batch, and running it through one transaction. */
module Relay {
  import opened Options
  import opened Utf8
  import opened Settle
  import opened Routing
  import Matcher
  import Json

  /** The producer's side of the broker: what is committed, the group's offsets, the open transaction. */
  class Session {
    var committed: seq<Output>
    var offsets: map<Partition, nat>
    var open: Option<seq<Output>>

    function Contents(): Broker
      reads this
    {
      Broker(committed, offsets, open)
    }

    constructor ()
      ensures Contents() == Broker([], map[], None)
    {
      committed, offsets, open := [], map[], None;
    }

    method Begin()
      requires open.None?
      modifies `open
      ensures open == Some([])
    {
      open := Some([]);
    }

    /** `send_result`: joins the open transaction unless the local queue refuses it. */
    method Enqueue(o: Output, ok: bool)
      requires open.Some?
      modifies `open
      ensures open == if ok then Some(old(open.value) + [o]) else old(open)
    {
      if ok {
        open := Some(open.value + [o]);
      }
    }

    method Abort()
      modifies `open
      ensures open == None
    {
      open := None;
    }

    /** Offsets and outputs become visible in one step. */
    method Commit(next: map<Partition, nat>)
      requires open.Some?
      modifies this
      ensures Contents() == Broker(old(committed) + old(open.value), old(offsets) + next, None)
    {
      committed := committed + open.value;
      offsets := offsets + next;
      open := None;
    }
  }

  // ---- one record ----

  /** `run_transaction_body`: classifies, or not, and enqueues what the record calls for. */
  method RunTransactionBody(
      cfg: RelayCfg, session: Session, settle: SettleState, r: RawRecord, c: Matcher.Classification, ok: nat -> bool)
    returns (status: BodyStatus)
    requires session.open.Some? && settle.Valid() && settle.cfg == cfg.settle && Explained(c)
    modifies session`open, settle`perSource
    ensures settle.Valid() && session.open.Some?
    ensures settle.perSource == Plan(cfg, old(settle.perSource), r, c).1
    ensures (session.open.value, status)
      == SendAll(cfg, Plan(cfg, old(settle.perSource), r, c).0, old(session.open.value), ok)
  {
    hide Before, After, AllInBounds;
    ghost var outs := Plan(cfg, settle.perSource, r, c).0;
    if r.payload.None? {
      assert outs == [MainOutput(r, ToTagged, None, Matcher.Tombstone, None)];
      status := Produce(cfg, session, MainOutput(r, ToTagged, None, Matcher.Tombstone, None), ok);
      return;
    }
    var payload := r.payload.value;
    if |payload| > ProduceCap(cfg) {
      assert outs == [MainOutput(r, ToQuarantine, None, Matcher.Malformed, Some(Json.SizeExceeded))];
      status := Produce(cfg, session, MainOutput(r, ToQuarantine, None, Matcher.Malformed, Some(Json.SizeExceeded)),
        ok);
      return;
    }
    var decision := settle.NextDecision(r.cursor.at.topic);
    var drift: bool;
    match decision {
      case FastPath(id) =>
        assert outs == [MainOutput(r, ToTagged, r.payload, Matcher.Known(id), None)];
        status := Produce(cfg, session, MainOutput(r, ToTagged, r.payload, Matcher.Known(id), None), ok);
        return;
      case Classify(driftCheck) => drift := driftCheck;
    }
    var known := match c.schemaRef { case Known(id) => Some(id) case _ => None };
    settle.Feed(r.cursor.at.topic, known, drift);
    var main := if c.schemaRef.Malformed? then MainOutput(r, ToQuarantine, r.payload, Matcher.Malformed, c.quarantine)
                else MainOutput(r, ToTagged, r.payload, c.schemaRef, None);
    if c.schemaRef.Provisional? && cfg.discoverySize(c.schemaRef.candidate, payload, r.cursor) <= ProduceCap(cfg) {
      var evidence := Discovery(c.schemaRef.candidate, payload, r.cursor.at.topic, r.cursor);
      assert outs == [evidence, main] && outs[1..] == [main];
      var sent := |session.open.value|;
      session.Enqueue(evidence, ok(sent));
      if !ok(sent) {
        return EnqueueFailed;
      }
      if cfg.fault == Some(AfterDiscoveryProduce) {
        return Fault;
      }
    } else {
      assert outs == [main];
    }
    status := Produce(cfg, session, main, ok);
  }

  /** Enqueues a record's main output. */
  method Produce(cfg: RelayCfg, session: Session, o: Output, ok: nat -> bool) returns (status: BodyStatus)
    requires session.open.Some? && o.Main?
    modifies session`open
    ensures session.open.Some? && (session.open.value, status) == SendAll(cfg, [o], old(session.open.value), ok)
  {
    var sent := |session.open.value|;
    session.Enqueue(o, ok(sent));
    assert [o][1..] == [];
    status := if ok(sent) then Produced else EnqueueFailed;
  }

  // ---- one batch ----

  lemma MaxOffsetsSnoc(batch: seq<RawRecord>, i: nat)
    requires i < |batch|
    ensures var c := batch[i].cursor; var max := MaxOffsets(batch[..i]);
      MaxOffsets(batch[..i + 1]) == max[c.at := if c.at in max && max[c.at] > c.offset then max[c.at] else c.offset]
  {
    assert batch[..i + 1][..i] == batch[..i];
  }

  /** Awaits the deliveries one after the other; the first failure ends it. */
  method AwaitDeliveries(n: nat, env: Env) returns (ok: bool)
    ensures ok <==> forall k: nat | k < n :: env.deliveryOk(k)
  {
    for k := 0 to n
      invariant forall j: nat | j < k :: env.deliveryOk(j)
    {
      if !env.deliveryOk(k) {
        return false;
      }
    }
    return true;
  }

  /** `process_batch`: begin, enqueue everything, await every delivery, then offsets and commit, or abort. */
  method ProcessBatch(cfg: RelayCfg, session: Session, settle: SettleState, batch: seq<RawRecord>, env: Env)
      returns (outcome: Outcome)
    requires session.open.None? && settle.Valid() && settle.cfg == cfg.settle && EnvExplained(env)
    modifies session, settle`perSource
    ensures settle.Valid()
    ensures session.Contents() == Process(cfg, old(session.Contents()), old(settle.perSource), batch, env).0
    ensures settle.perSource == Process(cfg, old(session.Contents()), old(settle.perSource), batch, env).1
    ensures outcome == Process(cfg, old(session.Contents()), old(settle.perSource), batch, env).2
  {
    assert MaxOffsets(batch[..0]) == map[];
    hide Plan, SendAll, AllInBounds, MaxOffsets;
    session.Begin();
    var maxOffsets: map<Partition, nat> := map[];
    for i := 0 to |batch|
      invariant settle.Valid() && session.open.Some?
      invariant session.committed == old(session.committed) && session.offsets == old(session.offsets)
      invariant maxOffsets == MaxOffsets(batch[..i])
      invariant EnqueueFrom(cfg, settle.perSource, batch, i, session.open.value, env)
             == EnqueueFrom(cfg, old(settle.perSource), batch, 0, [], env)
    {
      var record := batch[i];
      var at, offset := record.cursor.at, record.cursor.offset;
      MaxOffsetsSnoc(batch, i);
      if at in maxOffsets {
        maxOffsets := maxOffsets[at := if maxOffsets[at] > offset then maxOffsets[at] else offset];
      } else {
        maxOffsets := maxOffsets[at := offset];
      }
      var status := RunTransactionBody(cfg, session, settle, record, env.classify(i), env.enqueueOk);
      match status {
        case Produced =>
        case Fault => return FaultInjected;
        case EnqueueFailed =>
          session.Abort();
          return Aborted;
      }
    }
    assert batch[..|batch|] == batch;
    hide EnqueueFrom;
    var delivered := AwaitDeliveries(|session.open.value|, env);
    if !delivered {
      session.Abort();
      return Aborted;
    }
    if cfg.fault == Some(AfterProduceBeforeCommit) {
      return FaultInjected;
    }
    if !env.offsetsOk {
      session.Abort();
      return Aborted;
    }
    session.Commit(map p | p in maxOffsets :: maxOffsets[p] + 1);
    return Committed;
  }

  // ---- filling a batch ----

  function AtLeastOne(n: nat): nat {
    if n == 0 then 1 else n
  }

  function RecordBytes(r: RawRecord): nat {
    (match r.payload case None => 0 case Some(p) => |p|) + (match r.key case None => 0 case Some(k) => |k|)
  }

  /** The lengths of all payloads and keys. */
  function TotalBytes(rs: seq<RawRecord>): nat {
    if rs == [] then 0
    else
      var n := |rs| - 1;
      TotalBytes(rs[..n])
      + (if rs[n].payload.Some? then |rs[n].payload.value| else 0) + (if rs[n].key.Some? then |rs[n].key.value| else 0)
  }

  /** The inner loop of `run`. The first `stop` of the arriving records come before the linger time runs
      out or shutdown is requested. The batch is the shortest prefix that fills it, or all there is:
      only its last record can take it past the byte bound. */
  method CollectBatch(cfg: RelayCfg, arriving: seq<RawRecord>, stop: nat) returns (batch: seq<RawRecord>)
    requires stop <= |arriving|
    ensures |batch| <= stop && batch == arriving[..|batch|]
    ensures |batch| <= 1 || |batch| <= cfg.maxBatchRecords
    ensures |batch| > 1 ==>
      TotalBytes(batch[..|batch| - 1]) < cfg.maxBatchBytes || TotalBytes(batch[..|batch| - 1]) == 0
    ensures |batch| == stop || |batch| == (if cfg.maxBatchRecords == 0 then 1 else cfg.maxBatchRecords)
      || (TotalBytes(batch) > 0 && TotalBytes(batch) >= cfg.maxBatchBytes)
  {
    hide TotalBytes, RecordBytes;
    batch := [];
    NoBytes();
    var batchBytes := 0;
    while |batch| < AtLeastOne(cfg.maxBatchRecords)
      invariant |batch| <= stop && batch == arriving[..|batch|] && |batch| <= AtLeastOne(cfg.maxBatchRecords)
      invariant batchBytes == TotalBytes(batch) < AtLeastOne(cfg.maxBatchBytes)
      invariant batch != [] ==> TotalBytes(batch[..|batch| - 1]) < AtLeastOne(cfg.maxBatchBytes)
      decreases AtLeastOne(cfg.maxBatchRecords) - |batch|
    {
      if |batch| == stop {
        break;
      }
      var record := arriving[|batch|];
      MoreBytes(batch, record);
      PrefixSnoc(arriving, |batch|);
      batch := batch + [record];
      batchBytes := batchBytes + RecordBytes(record);
      if batchBytes >= AtLeastOne(cfg.maxBatchBytes) {
        break;
      }
    }
  }

  lemma NoBytes()
    ensures TotalBytes([]) == 0
  {
  }

  lemma MoreBytes(batch: seq<RawRecord>, record: RawRecord)
    ensures (batch + [record])[..|batch|] == batch
    ensures TotalBytes(batch + [record]) == TotalBytes(batch) + RecordBytes(record)
  {
  }

  lemma PrefixSnoc(arriving: seq<RawRecord>, n: nat)
    requires n < |arriving|
    ensures arriving[..n] + [arriving[n]] == arriving[..n + 1]
  {
  }

  /** The matcher's malformed answers always say why. */
  lemma MatcherExplains(lru: seq<Matcher.Entry>, capacity: nat, codec: Matcher.Codec, source: string,
                        payload: seq<byte>, limits: Json.Limits, reply: Matcher.Reply)
    requires capacity > 0
    ensures Explained(Matcher.Classify(lru, capacity, codec, source, payload, limits, reply).1)
  {
  }
}
