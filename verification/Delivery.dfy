/** The relay and its broker over whole runs: batches, aborts, crashes and restarts. */
module Delivery {
  import opened Options
  import opened Settle
  import opened Routing
  import opened Ledger
  import Matcher

  /** `skipped` only keeps the books: the records of aborted batches that the loop has moved past. */
  datatype World = World(
    log: map<Cursor, RawRecord>, broker: Broker, up: bool, position: map<Partition, nat>,
    batch: seq<RawRecord>, counters: Counters, skipped: set<Cursor>)

  const START := World(map[], Broker([], map[], None), false, map[], [], map[], {})

  datatype Event =
    | Arrive(record: RawRecord)
    | Receive(cursor: Cursor)
    | Flush(env: Env)
    | Crash(open: Option<seq<Output>>)
    | Restart

  function Cursors(batch: seq<RawRecord>): (r: seq<Cursor>)
    ensures |r| == |batch| && forall i | 0 <= i < |batch| :: r[i] == batch[i].cursor
  {
    seq(|batch|, i requires 0 <= i < |batch| => batch[i].cursor)
  }

  /** Where the tagged and quarantined outputs came from, in order. */
  function Origins(outs: seq<Output>): (r: seq<Cursor>)
    ensures |r| == |Mains(outs)| && forall i | 0 <= i < |r| :: r[i] == Mains(outs)[i].origin
  {
    seq(|Mains(outs)|, i requires 0 <= i < |Mains(outs)| => Mains(outs)[i].origin)
  }

  function BooksOf(w: World): Books {
    Books(w.log.Keys, Origins(w.broker.committed), Cursors(w.batch), w.skipped, w.broker.offsets, w.position, w.up)
  }

  /** Raw records only ever join a partition at its end, and the consumer reads each partition in order. */
  ghost predicate Enabled(w: World, e: Event) {
    match e
    case Arrive(r) => AtEnd(BooksOf(w), r.cursor)
    case Receive(c) => w.up && NextUp(BooksOf(w), c)
    case Flush(env) => w.up && w.batch != [] && EnvExplained(env)
    case Crash(_) => w.up
    case Restart => !w.up
  }

  ghost function Next(cfg: RelayCfg, w: World, e: Event): World
    requires Enabled(w, e) && AllInBounds(cfg.settle, w.counters)
  {
    match e
    case Arrive(r) => w.(log := w.log[r.cursor := r])
    case Receive(c) => w.(batch := w.batch + [w.log[c]], position := w.position[c.at := c.offset + 1])
    case Flush(env) =>
      var (b, m, outcome) := Process(cfg, w.broker, w.counters, w.batch, env);
      match outcome {
        case Committed => w.(broker := b, counters := m, batch := [])
        // the loop goes on to the next batch, and the consumer is not taken back
        case Aborted =>
          w.(broker := b, counters := m, batch := [], skipped := w.skipped + set c | c in Cursors(w.batch))
        case FaultInjected => w.(broker := b, counters := m, batch := [], up := false)
      }
    case Crash(open) => w.(broker := w.broker.(open := open), batch := [], up := false)
    // the old transaction is fenced off, and reading starts at the committed offsets again
    case Restart =>
      w.(broker := w.broker.(open := None), up := true, position := w.broker.offsets, counters := map[],
         skipped := set c | c in w.skipped && c.offset < At(w.broker.offsets, c.at))
  }

  // ---- the invariant ----

  ghost predicate RecordsOk(w: World) {
    && (forall c | c in w.log :: w.log[c].cursor == c)
    && (forall r | r in w.batch :: r.cursor in w.log && w.log[r.cursor] == r)
  }

  ghost predicate Inv(cfg: RelayCfg, w: World) {
    && AllInBounds(cfg.settle, w.counters) && RecordsOk(w) && Balanced(BooksOf(w))
    && (w.up ==> w.broker.open.None?) && (!w.up ==> w.batch == [])
  }

  lemma InvStart(cfg: RelayCfg)
    ensures Inv(cfg, START)
  {
    assert Origins([]) == [] && Cursors([]) == [];
  }

  lemma OriginsConcat(a: seq<Output>, b: seq<Output>)
    ensures Origins(a + b) == Origins(a) + Origins(b)
  {
    MainsConcat(a, b);
  }

  lemma CursorsSnoc(batch: seq<RawRecord>, r: RawRecord)
    ensures Cursors(batch + [r]) == Cursors(batch) + [r.cursor]
  {
  }

  lemma NoCursors()
    ensures Cursors([]) == []
  {
  }

  lemma ArriveKeeps(cfg: RelayCfg, w: World, r: RawRecord)
    requires Inv(cfg, w) && Enabled(w, Arrive(r))
    ensures Inv(cfg, Next(cfg, w, Arrive(r)))
  {
    hide Origins, AllInBounds, Cursors, Balanced, Arrived;
    ArrivedBalanced(BooksOf(w), r.cursor);
    var t := Next(cfg, w, Arrive(r));
    assert t.log.Keys == w.log.Keys + {r.cursor};
    assert BooksOf(t) == Arrived(BooksOf(w), r.cursor) by { ArrivedIs(BooksOf(w), r.cursor); }
    assert r.cursor !in w.log by { NotThere(BooksOf(w), r.cursor); }
  }

  lemma ArrivedIs(k: Books, c: Cursor)
    ensures Arrived(k, c) == k.(log := k.log + {c})
  {
  }

  lemma NotThere(k: Books, c: Cursor)
    requires AtEnd(k, c)
    ensures c !in k.log
  {
  }

  lemma ReceiveKeeps(cfg: RelayCfg, w: World, c: Cursor)
    requires Inv(cfg, w) && Enabled(w, Receive(c))
    ensures Inv(cfg, Next(cfg, w, Receive(c)))
  {
    hide Origins, AllInBounds, Cursors, Balanced;
    ReceivedBalanced(BooksOf(w), c);
    CursorsSnoc(w.batch, w.log[c]);
    assert BooksOf(Next(cfg, w, Receive(c))) == Received(BooksOf(w), c);
  }

  lemma StopKeeps(cfg: RelayCfg, w: World, m: Counters, open: Option<seq<Output>>)
    requires Inv(cfg, w) && w.up && AllInBounds(cfg.settle, m)
    ensures Inv(cfg, w.(broker := w.broker.(open := open), counters := m, batch := [], up := false))
  {
    hide Origins, AllInBounds, Cursors, Balanced;
    StoppedBalanced(BooksOf(w));
    NoCursors();
    assert BooksOf(w.(broker := w.broker.(open := open), counters := m, batch := [], up := false))
      == Stopped(BooksOf(w));
  }

  lemma RestartKeeps(cfg: RelayCfg, w: World)
    requires Inv(cfg, w) && Enabled(w, Restart)
    ensures Inv(cfg, Next(cfg, w, Restart))
  {
    hide Origins, Cursors, Balanced;
    RestartedBalanced(BooksOf(w));
    assert BooksOf(Next(cfg, w, Restart)) == Restarted(BooksOf(w));
  }

  lemma AbortKeeps(cfg: RelayCfg, w: World, m: Counters)
    requires Inv(cfg, w) && w.up && AllInBounds(cfg.settle, m)
    ensures Inv(cfg, w.(counters := m, batch := [], skipped := w.skipped + set c | c in Cursors(w.batch)))
  {
    hide Origins, AllInBounds, Cursors, Balanced;
    MovedBalanced(BooksOf(w));
    NoCursors();
    assert BooksOf(w.(counters := m, batch := [], skipped := w.skipped + set c | c in Cursors(w.batch)))
      == Moved(BooksOf(w));
  }

  /** A commit moves each touched partition to one past its largest offset, so past everything in the batch. */
  lemma CommitAdvances(w: World, p: Partition)
    ensures AdvancedAt(BooksOf(w), w.broker.offsets + NextOffsets(MaxOffsets(w.batch)), p)
  {
    hide Origins, MaxOffsets;
    var b := Cursors(w.batch);
    var offsets := w.broker.offsets + NextOffsets(MaxOffsets(w.batch));
    MaxIsLargest(w.batch, p);
    forall c | c in b && c.at == p ensures p in MaxOffsets(w.batch) && c.offset < At(offsets, p) {
      var j :| 0 <= j < |b| && b[j] == c;
      assert w.batch[j].cursor == c;
    }
    if p in MaxOffsets(w.batch) {
      var i :| 0 <= i < |w.batch| && w.batch[i].cursor == Cursor(p, MaxOffsets(w.batch)[p]);
      assert b[i] in b;
    }
  }

  lemma CommitKeeps(cfg: RelayCfg, w: World, b: Broker, m: Counters)
    requires Inv(cfg, w) && w.up && AllInBounds(cfg.settle, m) && b.open.None?
    requires b.offsets == w.broker.offsets + NextOffsets(MaxOffsets(w.batch))
    requires Origins(b.committed) == Origins(w.broker.committed) + Cursors(w.batch)
    ensures Inv(cfg, w.(broker := b, counters := m, batch := []))
  {
    hide Origins, AllInBounds, MaxOffsets, NextOffsets, Balanced, Cursors, AdvancedAt;
    forall p ensures AdvancedAt(BooksOf(w), b.offsets, p) {
      CommitAdvances(w, p);
    }
    SettledBalanced(BooksOf(w), b.offsets);
    NoCursors();
    assert BooksOf(w.(broker := b, counters := m, batch := [])) == Settled(BooksOf(w), b.offsets);
  }

  lemma SameBroker(a: Broker, b: Broker)
    requires a.committed == b.committed && a.offsets == b.offsets
    ensures a.(open := b.open) == b
  {
  }

  lemma CoveredOrigins(outs: seq<Output>, batch: seq<RawRecord>)
    requires Covers(Mains(outs), batch)
    ensures Origins(outs) == Cursors(batch)
  {
  }

  lemma FlushKeeps(cfg: RelayCfg, w: World, env: Env)
    requires Inv(cfg, w) && Enabled(w, Flush(env))
    ensures Inv(cfg, Next(cfg, w, Flush(env)))
  {
    hide AllInBounds, Process, MaxOffsets, NextOffsets, Inv, Mains, Origins, Covers, Cursors;
    assert AllInBounds(cfg.settle, w.counters) by { InBoundsOf(cfg, w); }
    var (b, m, outcome) := Process(cfg, w.broker, w.counters, w.batch, env);
    AllOrNothing(cfg, w.broker, w.counters, w.batch, env);
    match outcome
    case Committed =>
      var new_ := b.committed[|w.broker.committed|..];
      assert b.committed == w.broker.committed + new_;
      OriginsConcat(w.broker.committed, new_);
      CoveredOrigins(new_, w.batch);
      CommitKeeps(cfg, w, b, m);
    case Aborted =>
      AbortKeeps(cfg, w, m);
      OpenNone(cfg, w);
      SameBroker(w.broker, b);
    case FaultInjected =>
      StopKeeps(cfg, w, m, b.open);
      SameBroker(w.broker, b);
  }

  lemma InBoundsOf(cfg: RelayCfg, w: World)
    requires Inv(cfg, w)
    ensures AllInBounds(cfg.settle, w.counters)
  {
  }

  lemma OpenNone(cfg: RelayCfg, w: World)
    requires Inv(cfg, w) && w.up
    ensures w.broker.(open := None) == w.broker
  {
  }

  lemma NextKeeps(cfg: RelayCfg, w: World, e: Event)
    requires Inv(cfg, w) && Enabled(w, e)
    ensures Inv(cfg, Next(cfg, w, e))
  {
    match e
    case Arrive(r) => ArriveKeeps(cfg, w, r);
    case Receive(c) => ReceiveKeeps(cfg, w, c);
    case Flush(env) => FlushKeeps(cfg, w, env);
    case Crash(open) => StopKeeps(cfg, w, w.counters, open);
    case Restart => RestartKeeps(cfg, w);
  }

  // ---- runs ----

  /** A run: a world after each event, from the empty start. */
  ghost predicate IsRun(cfg: RelayCfg, worlds: seq<World>, events: seq<Event>) {
    && |worlds| == |events| + 1 && worlds[0] == START
    && forall i | 0 <= i < |events| ::
         AllInBounds(cfg.settle, worlds[i].counters) && Enabled(worlds[i], events[i])
         && worlds[i + 1] == Next(cfg, worlds[i], events[i])
  }

  lemma {:induction false} RunKeeps(cfg: RelayCfg, worlds: seq<World>, events: seq<Event>, i: nat)
    requires IsRun(cfg, worlds, events) && i <= |events|
    ensures Inv(cfg, worlds[i])
    decreases i
  {
    hide Inv, Next, Enabled, AllInBounds;
    if i == 0 {
      InvStart(cfg);
    } else {
      RunKeeps(cfg, worlds, events, i - 1);
      NextKeeps(cfg, worlds[i - 1], events[i - 1]);
    }
  }

  /** Over every run, crashes, restarts and aborted batches included: no raw record has two committed
      tagged or quarantined outputs, those of one partition stand in the partition's order, and every
      one stems from a raw record below the committed offset. */
  lemma AtMostOnce(cfg: RelayCfg, worlds: seq<World>, events: seq<Event>)
    requires IsRun(cfg, worlds, events)
    ensures var w := worlds[|events|]; var d := Origins(w.broker.committed);
      && (forall i, j | 0 <= i < j < |d| :: d[i] != d[j])
      && (forall i, j | 0 <= i < j < |d| && d[i].at == d[j].at :: d[i].offset < d[j].offset)
      && (forall c | c in d :: c in w.log && c.offset < At(w.broker.offsets, c.at))
  {
    hide Origins, Cursors, Next, Enabled;
    RunKeeps(cfg, worlds, events, |events|);
    var w := worlds[|events|];
    forall c | c in Origins(w.broker.committed) ensures c in w.log && c.offset < At(w.broker.offsets, c.at) {
      assert CursorOk(BooksOf(w), c);
    }
  }

  /** Event `i` committed the output at position `j` as the `k`-th of its batch. */
  ghost predicate CommittedBy(cfg: RelayCfg, worlds: seq<World>, events: seq<Event>, j: nat, i: nat, k: nat)
    requires IsRun(cfg, worlds, events)
  {
    && i < |events| && events[i].Flush? && EnvExplained(events[i].env) && j == |worlds[i].broker.committed| + k
    && var w := Wanted(cfg, worlds[i].counters, worlds[i].batch, 0, events[i].env);
       && k < |w| && j < |worlds[|events|].broker.committed| && worlds[|events|].broker.committed[j] == w[k]
       && events[i].env.offsetsOk
       && (forall l | 0 <= l < |w| :: events[i].env.enqueueOk(l) && events[i].env.deliveryOk(l))
  }

  lemma {:induction false} CommitStep(cfg: RelayCfg, w: World, e: Event)
    requires Enabled(w, e) && AllInBounds(cfg.settle, w.counters)
    ensures var t := Next(cfg, w, e);
      if e.Flush? && Process(cfg, w.broker, w.counters, w.batch, e.env).2.Committed? then
        var out := Wanted(cfg, w.counters, w.batch, 0, e.env);
        && t.broker.committed == w.broker.committed + out && e.env.offsetsOk
        && forall l | 0 <= l < |out| :: e.env.enqueueOk(l) && e.env.deliveryOk(l)
      else t.broker.committed == w.broker.committed
  {
    hide AllInBounds, Process, EnvExplained, Wanted;
    if e.Flush? {
      OutcomeExactly(cfg, w.broker, w.counters, w.batch, e.env);
    }
  }

  lemma {:induction false} CommittedGrows(cfg: RelayCfg, worlds: seq<World>, events: seq<Event>, i: nat)
    requires IsRun(cfg, worlds, events) && i <= |events|
    ensures worlds[i].broker.committed <= worlds[|events|].broker.committed
    decreases |events| - i
  {
    hide Enabled, Next, AllInBounds, Wanted, Process;
    if i < |events| {
      CommitStep(cfg, worlds[i], events[i]);
      CommittedGrows(cfg, worlds, events, i + 1);
    }
  }

  /** Over every run, each committed output, discovery evidence included, was taken by the queue and
      acknowledged by the broker, and so was all else its batch called for. */
  lemma {:induction false} AllAcknowledged(cfg: RelayCfg, worlds: seq<World>, events: seq<Event>, j: nat, n: nat)
      returns (i: nat, k: nat)
    requires IsRun(cfg, worlds, events) && n <= |events| && j < |worlds[n].broker.committed|
    ensures CommittedBy(cfg, worlds, events, j, i, k)
    decreases n
  {
    hide Enabled, Next, AllInBounds, Wanted, Process, EnvExplained;
    if n > 0 {
      FlushIsExplained(worlds[n - 1], events[n - 1]);
      CommitStep(cfg, worlds[n - 1], events[n - 1]);
      if j < |worlds[n - 1].broker.committed| {
        i, k := AllAcknowledged(cfg, worlds, events, j, n - 1);
      } else {
        i, k := n - 1, j - |worlds[n - 1].broker.committed|;
        CommittedGrows(cfg, worlds, events, n);
      }
    }
  }

  lemma FlushIsExplained(w: World, e: Event)
    requires Enabled(w, e)
    ensures e.Flush? ==> EnvExplained(e.env)
  {
    hide EnvExplained;
  }

  /** Event `i` aborted a batch that held `c`, and no restart between it and event `n` found the
      committed offset at or below `c`, which would have read it again. */
  ghost predicate MovedPast(cfg: RelayCfg, worlds: seq<World>, events: seq<Event>, c: Cursor, i: nat, n: nat)
    requires IsRun(cfg, worlds, events) && n <= |events|
  {
    && i < n && events[i].Flush?
    && Process(cfg, worlds[i].broker, worlds[i].counters, worlds[i].batch, events[i].env).2.Aborted?
    && (exists r :: r in worlds[i].batch && r.cursor == c)
    && forall j | i < j < n && events[j].Restart? :: c.offset < At(worlds[j].broker.offsets, c.at)
  }

  lemma InBatch(batch: seq<RawRecord>, c: Cursor)
    ensures c in Cursors(batch) <==> exists r :: r in batch && r.cursor == c
  {
    if r :| r in batch && r.cursor == c {
      var i :| 0 <= i < |batch| && batch[i] == r;
      assert Cursors(batch)[i] == c;
    }
  }

  /** What one event does to the skipped records. */
  lemma SkippedStep(cfg: RelayCfg, w: World, e: Event, c: Cursor)
    requires Enabled(w, e) && AllInBounds(cfg.settle, w.counters)
    ensures c in Next(cfg, w, e).skipped <==>
      (&& e.Flush? && Process(cfg, w.broker, w.counters, w.batch, e.env).2.Aborted?
       && exists r :: r in w.batch && r.cursor == c)
      || (c in w.skipped && (e.Restart? ==> c.offset < At(w.broker.offsets, c.at)))
  {
    hide AllInBounds, Process, Cursors, At;
    InBatch(w.batch, c);
  }

  lemma {:induction false} SkippedByEvents(cfg: RelayCfg, worlds: seq<World>, events: seq<Event>, c: Cursor, n: nat)
    requires IsRun(cfg, worlds, events) && n <= |events|
    ensures c in worlds[n].skipped <==> exists i: nat :: MovedPast(cfg, worlds, events, c, i, n)
    decreases n
  {
    hide AllInBounds, Process, Enabled, At, Next;
    if n > 0 {
      SkippedByEvents(cfg, worlds, events, c, n - 1);
      SkippedStep(cfg, worlds[n - 1], events[n - 1], c);
      forall i: nat | MovedPast(cfg, worlds, events, c, i, n) ensures c in worlds[n].skipped {
        assert i < n - 1 ==> MovedPast(cfg, worlds, events, c, i, n - 1);
      }
      if c in worlds[n].skipped {
        if c in worlds[n - 1].skipped
          && (events[n - 1].Restart? ==> c.offset < At(worlds[n - 1].broker.offsets, c.at)) {
          var i: nat :| MovedPast(cfg, worlds, events, c, i, n - 1);
          assert MovedPast(cfg, worlds, events, c, i, n);
        } else {
          assert MovedPast(cfg, worlds, events, c, n - 1, n);
        }
      }
    }
  }

  /** Over every run, a raw record below the committed offset has its one output, unless some aborted
      batch held it and no later restart found the committed offset at or below it: exactly then it has none. */
  lemma DeliveredOrSkipped(cfg: RelayCfg, worlds: seq<World>, events: seq<Event>, c: Cursor)
    requires IsRun(cfg, worlds, events)
    requires var w := worlds[|events|]; c in w.log && c.offset < At(w.broker.offsets, c.at)
    ensures c !in Origins(worlds[|events|].broker.committed) <==>
      exists i: nat :: MovedPast(cfg, worlds, events, c, i, |events|)
  {
    hide Origins, Cursors, Next, Enabled, MovedPast;
    RunKeeps(cfg, worlds, events, |events|);
    assert CursorOk(BooksOf(worlds[|events|]), c);
    SkippedByEvents(cfg, worlds, events, c, |events|);
  }

  // ---- when every failed batch is followed by a restart ----

  /** A batch was aborted since the relay last started. */
  ghost predicate Tainted(cfg: RelayCfg, worlds: seq<World>, events: seq<Event>, i: nat)
    requires IsRun(cfg, worlds, events) && i <= |events|
  {
    i > 0
    && match events[i - 1]
       case Restart => false
       case Flush(env) => Tainted(cfg, worlds, events, i - 1)
                          || Process(cfg, worlds[i - 1].broker, worlds[i - 1].counters, worlds[i - 1].batch,
                            env).2.Aborted?
       case _ => Tainted(cfg, worlds, events, i - 1)
  }

  /** After an aborted batch no other is processed before a restart. */
  ghost predicate FailStop(cfg: RelayCfg, worlds: seq<World>, events: seq<Event>)
    requires IsRun(cfg, worlds, events)
  {
    forall i | 0 <= i < |events| && events[i].Flush? :: !Tainted(cfg, worlds, events, i)
  }

  /** Whatever is skipped will be read again after the restart that must come. */
  ghost predicate OnlyAhead(w: World, tainted: bool) {
    && (forall c | c in w.skipped :: At(w.broker.offsets, c.at) <= c.offset)
    && (!tainted ==> w.skipped == {})
  }

  lemma {:induction false} FailStopAhead(cfg: RelayCfg, worlds: seq<World>, events: seq<Event>, i: nat)
    requires IsRun(cfg, worlds, events) && FailStop(cfg, worlds, events) && i <= |events|
    ensures OnlyAhead(worlds[i], Tainted(cfg, worlds, events, i))
    decreases i
  {
    hide Inv, AllInBounds, Process, OnlyAhead, Origins, Cursors;
    if i == 0 {
      assert OnlyAhead(START, false) by { StartAhead(); }
    } else {
      FailStopAhead(cfg, worlds, events, i - 1);
      RunKeeps(cfg, worlds, events, i - 1);
      AheadStep(cfg, worlds[i - 1], events[i - 1], Tainted(cfg, worlds, events, i - 1));
    }
  }

  lemma StartAhead()
    ensures OnlyAhead(START, false)
  {
  }

  lemma AheadStep(cfg: RelayCfg, w: World, e: Event, tainted: bool)
    requires Inv(cfg, w) && Enabled(w, e) && OnlyAhead(w, tainted) && (e.Flush? ==> !tainted)
    ensures OnlyAhead(Next(cfg, w, e),
                      match e
                      case Restart => false
                      case Flush(env) => tainted || Process(cfg, w.broker, w.counters, w.batch, env).2.Aborted?
                      case _ => tainted)
  {
    hide AllInBounds, Process, Origins, Cursors, RecordsOk, Increasing;
    if e.Flush? {
      AllOrNothing(cfg, w.broker, w.counters, w.batch, e.env);
      forall c | c in Cursors(w.batch) ensures At(w.broker.offsets, c.at) <= c.offset {
        assert CursorOk(BooksOf(w), c);
      }
    }
  }

  lemma BelowCommitted(cfg: RelayCfg, w: World, c: Cursor)
    requires Inv(cfg, w) && c in w.log && c.offset < At(w.broker.offsets, c.at)
    ensures c in Origins(w.broker.committed) || c in w.skipped
  {
    hide Origins, Cursors, RecordsOk, AllInBounds;
    assert CursorOk(BooksOf(w), c);
  }

  /** When every aborted batch is followed by a restart before the next one, delivery is exactly once:
      each raw record below the committed offset has its one committed output. */
  lemma ExactlyOnce(cfg: RelayCfg, worlds: seq<World>, events: seq<Event>, c: Cursor)
    requires IsRun(cfg, worlds, events) && FailStop(cfg, worlds, events)
    requires c in worlds[|events|].log
    ensures var w := worlds[|events|];
      c.offset < At(w.broker.offsets, c.at) <==> c in Origins(w.broker.committed)
  {
    hide Origins, Next, Enabled, Inv, FailStop, AllInBounds, Tainted;
    FailStopAhead(cfg, worlds, events, |events|);
    AtMostOnce(cfg, worlds, events);
    if c.offset < At(worlds[|events|].broker.offsets, c.at) {
      RunKeeps(cfg, worlds, events, |events|);
      BelowCommitted(cfg, worlds[|events|], c);
    }
  }

  /** A commit sets every partition of the batch to one past the largest offset the batch holds of it,
      and no other partition. */
  lemma CommitOffsets(cfg: RelayCfg, w: World, env: Env, p: Partition)
    requires Inv(cfg, w) && Enabled(w, Flush(env))
    requires Process(cfg, w.broker, w.counters, w.batch, env).2.Committed?
    ensures var t := Next(cfg, w, Flush(env));
      if exists i :: 0 <= i < |w.batch| && w.batch[i].cursor.at == p then
        && (forall i | 0 <= i < |w.batch| && w.batch[i].cursor.at == p ::
          w.batch[i].cursor.offset < At(t.broker.offsets, p))
        && (exists i ::
          0 <= i < |w.batch| && w.batch[i].cursor.at == p && w.batch[i].cursor.offset + 1 == At(t.broker.offsets, p))
      else At(t.broker.offsets, p) == At(w.broker.offsets, p)
  {
    hide Process, AllInBounds, MaxOffsets, Mains, RecordsOk, Balanced;
    AllOrNothing(cfg, w.broker, w.counters, w.batch, env);
    MaxIsLargest(w.batch, p);
    if p in MaxOffsets(w.batch) {
      var i :| 0 <= i < |w.batch| && w.batch[i].cursor == Cursor(p, MaxOffsets(w.batch)[p]);
    }
  }

  // ---- without the restart ----

  function Tombstone(p: Partition, offset: nat): RawRecord {
    RawRecord(Cursor(p, offset), None, None, [])
  }

  /** Everything the broker is asked succeeds, except perhaps the deliveries. */
  function Calm(deliver: bool): Env {
    Env(_ => Matcher.Classification(Matcher.Unresolved, None, None, None, 0), _ => true, _ => deliver, true)
  }

  lemma CalmExplained(deliver: bool)
    ensures EnvExplained(Calm(deliver))
  {
  }

  lemma OneTombstone(cfg: RelayCfg, b: Broker, m: Counters, p: Partition, offset: nat, deliver: bool)
    requires AllInBounds(cfg.settle, m) && cfg.fault.None?
    ensures EnvExplained(Calm(deliver))
    ensures var (b', m', outcome) := Process(cfg, b, m, [Tombstone(p, offset)], Calm(deliver));
      && m' == m && b'.open.None?
      && (if deliver then
        outcome.Committed? && At(b'.offsets, p) == offset + 1
        && Origins(b'.committed) == Origins(b.committed) + [Cursor(p, offset)]
          else outcome.Aborted? && b'.offsets == b.offsets && b'.committed == b.committed)
  {
    hide AllInBounds, MaxOffsets, Mains, Origins;
    CalmExplained(deliver);
    var r := Tombstone(p, offset);
    var main := MainOutput(r, ToTagged, None, Matcher.Tombstone, None);
    var env := Calm(deliver);
    assert Plan(cfg, m, r, env.classify(0)) == ([main], m);
    assert [main][1..] == [] && [] + [main] == [main];
    assert SendAll(cfg, [main], [], env.enqueueOk) == SendAll(cfg, [], [main], env.enqueueOk) == ([main], Produced);
    assert EnqueueFrom(cfg, m, [r], 1, [main], env) == ([main], Produced, m);
    assert EnqueueFrom(cfg, m, [r], 0, [], env) == ([main], Produced, m);
    assert deliver ==> forall k: nat | k < 1 :: env.deliveryOk(k);
    assert !deliver ==> !env.deliveryOk(0);
    AllOrNothing(cfg, b, m, [r], env);
    var b' := Process(cfg, b, m, [r], env).0;
    if deliver {
      assert b'.committed == b.committed + [main];
      OriginsConcat(b.committed, [main]);
      OneOrigin(main);
      assert [r][0].cursor.at == p;
      MaxIsLargest([r], p);
    }
  }

  lemma OneOrigin(main: Output)
    requires main.Main?
    ensures Origins([main]) == [main.origin]
  {
    OnlyMain(main);
  }

  ghost predicate StepTo(cfg: RelayCfg, w: World, e: Event, t: World) {
    AllInBounds(cfg.settle, w.counters) && Enabled(w, e) && t == Next(cfg, w, e)
  }

  function TwoTombstones(p: Partition): map<Cursor, RawRecord> {
    map[Cursor(p, 0) := Tombstone(p, 0), Cursor(p, 1) := Tombstone(p, 1)]
  }

  /** Two records arrive and the relay starts. */
  lemma BothArrive(cfg: RelayCfg, p: Partition) returns (w1: World, w2: World, w3: World)
    ensures StepTo(cfg, START, Arrive(Tombstone(p, 0)), w1) && StepTo(cfg, w1, Arrive(Tombstone(p, 1)), w2)
    ensures StepTo(cfg, w2, Restart, w3)
    ensures w3 == World(TwoTombstones(p), Broker([], map[], None), true, map[], [], map[], {})
  {
    hide Origins, AllInBounds, Process;
    NothingInBounds(cfg);
    w1 := Next(cfg, START, Arrive(Tombstone(p, 0)));
    w2 := Next(cfg, w1, Arrive(Tombstone(p, 1)));
    w3 := Next(cfg, w2, Restart);
  }

  /** One record is read and its batch processed. */
  lemma OneBatch(cfg: RelayCfg, w: World, p: Partition, offset: nat, deliver: bool) returns (v: World, t: World)
    requires cfg.fault.None? && AllInBounds(cfg.settle, w.counters) && w.up && w.batch == []
    requires Enabled(w, Receive(Cursor(p, offset))) && w.log[Cursor(p, offset)] == Tombstone(p, offset)
    ensures StepTo(cfg, w, Receive(Cursor(p, offset)), v) && StepTo(cfg, v, Flush(Calm(deliver)), t)
    ensures t.log == w.log && t.up && t.batch == [] && t.counters == w.counters
    ensures t.position == w.position[p := offset + 1]
    ensures if deliver then
      At(t.broker.offsets, p) == offset + 1
      && Origins(t.broker.committed) == Origins(w.broker.committed) + [Cursor(p, offset)]
            else t.broker.offsets == w.broker.offsets && t.broker.committed == w.broker.committed
  {
    hide Origins, AllInBounds, Process;
    CalmExplained(deliver);
    v := Next(cfg, w, Receive(Cursor(p, offset)));
    assert v.batch == [Tombstone(p, offset)];
    OneTombstone(cfg, v.broker, v.counters, p, offset, deliver);
    t := Next(cfg, v, Flush(Calm(deliver)));
  }

  lemma Readable(w: World, p: Partition, offset: nat)
    requires w.up && w.log == TwoTombstones(p) && offset <= 1 && At(w.position, p) == offset
    ensures Cursor(p, 0) in w.log && Enabled(w, Receive(Cursor(p, offset)))
    ensures w.log[Cursor(p, offset)] == Tombstone(p, offset)
  {
    hide Origins, Cursors;
  }

  lemma SevenSteps(cfg: RelayCfg, worlds: seq<World>, events: seq<Event>)
    requires |worlds| == 8 && |events| == 7 && worlds[0] == START
    requires StepTo(cfg, worlds[0], events[0], worlds[1]) && StepTo(cfg, worlds[1], events[1], worlds[2])
             && StepTo(cfg, worlds[2], events[2], worlds[3]) && StepTo(cfg, worlds[3], events[3], worlds[4])
             && StepTo(cfg, worlds[4], events[4], worlds[5]) && StepTo(cfg, worlds[5], events[5], worlds[6])
             && StepTo(cfg, worlds[6], events[6], worlds[7])
    ensures IsRun(cfg, worlds, events)
  {
    hide AllInBounds, Enabled, Next, START;
    forall i | 0 <= i < |events| ensures StepTo(cfg, worlds[i], events[i], worlds[i + 1]) {
      assert i == 0 || i == 1 || i == 2 || i == 3 || i == 4 || i == 5 || i == 6;
    }
  }

  lemma PositionOf(positions: map<Partition, nat>, p: Partition, offset: nat)
    ensures At(map[], p) == 0 && At(positions[p := offset], p) == offset
  {
  }

  /** Otherwise a record can be lost for good: a batch is aborted, the loop goes on, and the commit of
      the next batch moves the partition's offset past it. */
  lemma AbortAndContinueLoses(cfg: RelayCfg, p: Partition) returns (worlds: seq<World>, events: seq<Event>)
    requires cfg.fault.None?
    ensures IsRun(cfg, worlds, events)
    ensures var w := worlds[|events|]; var lost := Cursor(p, 0);
      lost in w.log && lost.offset < At(w.broker.offsets, p) && lost !in Origins(w.broker.committed) && w.up
  {
    hide *;
    NothingInBounds(cfg);
    NoOrigins();
    var w1, w2, w3 := BothArrive(cfg, p);
    PositionOf(w3.position, p, 1);
    Readable(w3, p, 0);
    var w4, w5 := OneBatch(cfg, w3, p, 0, false);
    Readable(w5, p, 1);
    var w6, w7 := OneBatch(cfg, w5, p, 1, true);
    events := [Arrive(Tombstone(p, 0)), Arrive(Tombstone(p, 1)), Restart, Receive(Cursor(p, 0)), Flush(Calm(false)),
               Receive(Cursor(p, 1)), Flush(Calm(true))];
    worlds := [START, w1, w2, w3, w4, w5, w6, w7];
    SevenSteps(cfg, worlds, events);
    assert worlds[|events|] == w7;
  }

  lemma NothingInBounds(cfg: RelayCfg)
    ensures AllInBounds(cfg.settle, map[])
  {
  }

  lemma NoOrigins()
    ensures Origins([]) == []
  {
  }
}
