/** Settle-and-sample: when a source's records may be tagged without being classified. */
module Settle {
  import opened Options

  newtype u32 = x: int | 0 <= x < 0x1_0000_0000

  const U32_MAX: u32 := 0xFFFF_FFFF

  datatype SettleCfg = SettleCfg(enabled: bool, settleAfter: u32, sampleRate: u32, sources: seq<string>)

  datatype SourceSettle = SourceSettle(known: Option<string>, consecutive: u32, settled: bool, sinceSample: u32)

  const UNSEEN := SourceSettle(None, 0, false, 0)

  datatype Decision = FastPath(id: string) | Classify(driftCheck: bool)

  predicate Active(cfg: SettleCfg, source: string) {
    cfg.enabled && cfg.sampleRate > 1 && source in cfg.sources
  }

  // ---- one source ----

  /** The number of equal results in a row a source settles after. */
  function Threshold(cfg: SettleCfg): nat {
    if cfg.settleAfter < 2 then 2 else cfg.settleAfter as nat
  }

  /** What keeps both counters inside 32 bits. */
  predicate InBounds(cfg: SettleCfg, s: SourceSettle) {
    && (s.settled ==> s.known.Some? && s.sinceSample < cfg.sampleRate)
    && (!s.settled ==> s.sinceSample == 0 && (s.consecutive as nat) < Threshold(cfg))
  }

  function BeforeOne(cfg: SettleCfg, s: SourceSettle): (r: (SourceSettle, Decision))
    requires cfg.sampleRate > 1 && InBounds(cfg, s)
    ensures InBounds(cfg, r.0)
    ensures r.1.Classify? ==> r.1.driftCheck == r.0.settled
  {
    if s.settled then
      var since := s.sinceSample + 1;
      if since >= cfg.sampleRate then (s.(sinceSample := 0), Classify(true))
      else (s.(sinceSample := since), FastPath(s.known.value))
    else (s, Classify(false))
  }

  function SaturatingInc(x: u32): u32 {
    if x == U32_MAX then x else x + 1
  }

  function AfterOne(cfg: SettleCfg, s: SourceSettle, known: Option<string>, driftCheck: bool): (r: SourceSettle)
    requires cfg.sampleRate > 1 && InBounds(cfg, s) && driftCheck == s.settled
    ensures InBounds(cfg, r)
  {
    match known
    case Some(id) =>
      if s.known == known then
        if driftCheck then s.(consecutive := SaturatingInc(s.consecutive))
        else
          var n := s.consecutive + 1;
          s.(consecutive := n, settled := s.settled || n >= cfg.settleAfter)
      else SourceSettle(known, 1, false, 0)
    case None => SourceSettle(None, 0, false, 0)
  }

  // ---- the history behind a source's counters ----

  /** The results of the classified records, and how many records were fast-pathed since the last of them. */
  datatype History = History(classified: seq<Option<string>>, fast: nat)

  const NO_HISTORY := History([], 0)

  /** How many results at the end are one and the same known schema. */
  function Streak(c: seq<Option<string>>): nat {
    if c == [] || c[|c| - 1].None? then 0
    else
      var n := |c| - 1;
      if n > 0 && c[n - 1] == c[n] then 1 + Streak(c[..n]) else 1
  }

  lemma {:induction false} StreakEqual(c: seq<Option<string>>)
    ensures Streak(c) <= |c|
    ensures forall k | |c| - Streak(c) <= k < |c| :: c[k] == c[|c| - 1] && c[k].Some?
    ensures Streak(c) < |c| && c[|c| - 1].Some? ==> c[|c| - 1 - Streak(c)] != c[|c| - 1]
    decreases |c|
  {
    if c != [] && c[|c| - 1].Some? {
      var n := |c| - 1;
      if n > 0 && c[n - 1] == c[n] {
        StreakEqual(c[..n]);
        forall k | |c| - Streak(c) <= k < |c| ensures c[k] == c[n] && c[k].Some? {
          if k < n {
            assert c[k] == c[..n][k];
          }
        }
      }
    }
  }

  /** What the next record of an active source is due, by its history alone. */
  function Decide(cfg: SettleCfg, h: History): Decision {
    if Streak(h.classified) < Threshold(cfg) || h.classified == [] then Classify(false)
    else if h.fast + 1 >= cfg.sampleRate as nat then Classify(true)
    else match h.classified[|h.classified| - 1] case Some(id) => FastPath(id) case None => Classify(false)
  }

  function Record(cfg: SettleCfg, h: History, result: Option<string>): History {
    match Decide(cfg, h)
    case FastPath(_) => h.(fast := h.fast + 1)
    case Classify(_) => History(h.classified + [result], 0)
  }

  /** The counters hold exactly what the history says. */
  predicate Tracks(cfg: SettleCfg, s: SourceSettle, h: History) {
    var c := h.classified;
    && s.known == (if c == [] then None else c[|c| - 1])
    && s.consecutive as nat == (if Streak(c) < U32_MAX as nat then Streak(c) else U32_MAX as nat)
    && s.settled == (Streak(c) >= Threshold(cfg))
    && s.sinceSample as nat == h.fast
    && (if s.settled then h.fast < cfg.sampleRate as nat else h.fast == 0)
  }

  lemma TracksInBounds(cfg: SettleCfg, s: SourceSettle, h: History)
    requires Tracks(cfg, s, h)
    ensures InBounds(cfg, s)
  {
    StreakEqual(h.classified);
  }

  lemma StreakSnoc(c: seq<Option<string>>, r: Option<string>)
    ensures Streak(c + [r]) == if r.None? then 0 else if c != [] && c[|c| - 1] == r then 1 + Streak(c) else 1
  {
    assert (c + [r])[..|c|] == c;
  }

  /** One record of an active source: the decision is the one its history calls for, and the counters keep
      tracking it. */
  lemma StepTracks(cfg: SettleCfg, s: SourceSettle, h: History, result: Option<string>)
    requires cfg.sampleRate > 1 && Tracks(cfg, s, h)
    ensures InBounds(cfg, s)
    ensures var (b, d) := BeforeOne(cfg, s);
      && d == Decide(cfg, h)
      && Tracks(cfg, if d.Classify? then AfterOne(cfg, b, result, d.driftCheck) else b, Record(cfg, h, result))
  {
    TracksInBounds(cfg, s, h);
    StreakEqual(h.classified);
    hide Streak;
    StreakSnoc(h.classified, result);
  }

  // ---- all sources ----

  datatype Event = Event(source: string, result: Option<string>)

  function Of(m: map<string, SourceSettle>, source: string): SourceSettle {
    if source in m then m[source] else UNSEEN
  }

  predicate AllInBounds(cfg: SettleCfg, m: map<string, SourceSettle>) {
    forall source | source in m :: InBounds(cfg, m[source])
  }

  function Before(cfg: SettleCfg, m: map<string, SourceSettle>,
                  source: string): (r: (map<string, SourceSettle>, Decision))
    requires AllInBounds(cfg, m)
    ensures AllInBounds(cfg, r.0)
    ensures Active(cfg, source) && r.1.Classify? ==> r.1.driftCheck == Of(r.0, source).settled
  {
    if !Active(cfg, source) then (m, Classify(false))
    else
      var (s, d) := BeforeOne(cfg, Of(m, source));
      (m[source := s], d)
  }

  function After(cfg: SettleCfg, m: map<string, SourceSettle>, source: string, known: Option<string>, driftCheck: bool):
      (r: map<string, SourceSettle>)
    requires AllInBounds(cfg, m) && (Active(cfg, source) ==> driftCheck == Of(m, source).settled)
    ensures AllInBounds(cfg, r)
  {
    if !Active(cfg, source) then m else m[source := AfterOne(cfg, Of(m, source), known, driftCheck)]
  }

  /** One record: the decision, and, if it was classified, the result fed back. */
  function Handle(cfg: SettleCfg, m: map<string, SourceSettle>, e: Event): (r: (map<string, SourceSettle>, Decision))
    requires AllInBounds(cfg, m)
    ensures AllInBounds(cfg, r.0)
  {
    var (b, d) := Before(cfg, m, e.source);
    (if d.Classify? then After(cfg, b, e.source, e.result, d.driftCheck) else b, d)
  }

  function Drive(cfg: SettleCfg, events: seq<Event>): (m: map<string, SourceSettle>)
    ensures AllInBounds(cfg, m)
  {
    if events == [] then map[] else Handle(cfg, Drive(cfg, events[..|events| - 1]), events[|events| - 1]).0
  }

  /** The history of one source, from its own records alone. */
  function HistoryOf(cfg: SettleCfg, events: seq<Event>, source: string): History {
    if events == [] then NO_HISTORY
    else
      var n := |events| - 1;
      var h := HistoryOf(cfg, events[..n], source);
      if events[n].source == source then Record(cfg, h, events[n].result) else h
  }

  lemma {:induction false} DriveTracks(cfg: SettleCfg, events: seq<Event>, source: string)
    requires Active(cfg, source)
    ensures Tracks(cfg, Of(Drive(cfg, events), source), HistoryOf(cfg, events, source))
    decreases |events|
  {
    hide Tracks, BeforeOne, AfterOne, Record, InBounds;
    if events == [] {
      NothingTracks(cfg);
    } else {
      var n := |events| - 1;
      DriveTracks(cfg, events[..n], source);
      var m := Drive(cfg, events[..n]);
      if events[n].source == source {
        StepTracks(cfg, Of(m, source), HistoryOf(cfg, events[..n], source), events[n].result);
      }
    }
  }

  lemma NothingTracks(cfg: SettleCfg)
    ensures Tracks(cfg, UNSEEN, NO_HISTORY)
  {
  }

  /** After any records, the next decision for an active source is exactly what its own history calls
      for: fast path while its last `Threshold` results or more are one known schema and fewer than
      `sampleRate - 1` records went by since the last of them. Other sources play no part. */
  lemma DecidesByHistory(cfg: SettleCfg, events: seq<Event>, source: string)
    requires cfg.enabled && cfg.sampleRate > 1 && source in cfg.sources
    ensures Before(cfg, Drive(cfg, events), source).1 == Decide(cfg, HistoryOf(cfg, events, source))
  {
    hide Tracks, BeforeOne, Record, InBounds, Streak;
    DriveTracks(cfg, events, source);
    StepTracks(cfg, Of(Drive(cfg, events), source), HistoryOf(cfg, events, source), None);
  }

  /** A fast-pathed record carries the schema of the source's latest classification, which at least
      `Threshold` uninterrupted results agreed on, and fewer than `sampleRate` records in a row escape
      classification. */
  lemma FastPathBacked(cfg: SettleCfg, events: seq<Event>, source: string)
    requires cfg.enabled && cfg.sampleRate > 1 && source in cfg.sources
    requires Before(cfg, Drive(cfg, events), source).1.FastPath?
    ensures var h := HistoryOf(cfg, events, source); var c := h.classified;
      var id := Before(cfg, Drive(cfg, events), source).1.id;
      && |c| >= 2 && |c| >= cfg.settleAfter as nat
      && (forall k | |c| - 2 <= k < |c| || (0 <= k && |c| - cfg.settleAfter as nat <= k < |c|) :: c[k] == Some(id))
      && h.fast + 1 < cfg.sampleRate as nat
  {
    hide Before, Drive, HistoryOf;
    DecidesByHistory(cfg, events, source);
    StreakEqual(HistoryOf(cfg, events, source).classified);
  }

  /** A source is settled exactly while its latest `Threshold` results agree, so any differing result un-settles it. */
  lemma SettledExactly(cfg: SettleCfg, events: seq<Event>, source: string)
    requires cfg.enabled && cfg.sampleRate > 1 && source in cfg.sources
    ensures var c := HistoryOf(cfg, events, source).classified;
      var t := if cfg.settleAfter < 2 then 2 else cfg.settleAfter as nat;
      Of(Drive(cfg, events), source).settled <==>
        |c| >= t && c[|c| - 1].Some? && forall k | |c| - t <= k < |c| :: c[k] == c[|c| - 1]
  {
    hide Drive, HistoryOf;
    DriveTracks(cfg, events, source);
    var c := HistoryOf(cfg, events, source).classified;
    StreakEqual(c);
    hide Streak;
    if |c| >= Threshold(cfg) && c[|c| - 1].Some? && Streak(c) < Threshold(cfg) {
      assert c[|c| - 1 - Streak(c)] != c[|c| - 1];
    }
  }

  /** Only this source's records matter to it. */
  function Only(events: seq<Event>, source: string): seq<Event> {
    if events == [] then []
    else
      var n := |events| - 1;
      Only(events[..n], source) + if events[n].source == source then [events[n]] else []
  }

  lemma {:induction false} Independent(cfg: SettleCfg, events: seq<Event>, source: string)
    ensures HistoryOf(cfg, Only(events, source), source) == HistoryOf(cfg, events, source)
    decreases |events|
  {
    if events != [] {
      var n := |events| - 1;
      Independent(cfg, events[..n], source);
      var rest := Only(events[..n], source);
      if events[n].source == source {
        assert (rest + [events[n]])[..|rest|] == rest;
      } else {
        assert rest + [] == rest;
      }
    }
  }

  /** So are the source's counters and its next decision: sources never affect each other. */
  lemma SourcesIndependent(cfg: SettleCfg, events: seq<Event>, source: string)
    requires cfg.enabled && cfg.sampleRate > 1 && source in cfg.sources
    ensures Before(cfg, Drive(cfg, events), source).1 == Before(cfg, Drive(cfg, Only(events, source)), source).1
  {
    hide Before, Drive, Only, HistoryOf;
    Independent(cfg, events, source);
    DecidesByHistory(cfg, events, source);
    DecidesByHistory(cfg, Only(events, source), source);
  }

  /** A source that is not listed, or any while settling or sampling is off, is always classified and leaves
      no trace. */
  lemma NeverSettles(cfg: SettleCfg, m: map<string, SourceSettle>, e: Event)
    requires AllInBounds(cfg, m) && (!cfg.enabled || cfg.sampleRate <= 1 || e.source !in cfg.sources)
    ensures Handle(cfg, m, e) == (m, Classify(false))
  {
  }

  // ---- the relay's own state ----

  /** The counters of all sources, updated in place record by record. */
  class SettleState {
    const cfg: SettleCfg
    const allow: set<string>
    var perSource: map<string, SourceSettle>

    predicate Valid()
      reads this
    {
      allow == (set s | s in cfg.sources) && AllInBounds(cfg, perSource)
    }

    constructor (cfg: SettleCfg)
      ensures Valid() && this.cfg == cfg && perSource == map[]
    {
      this.cfg := cfg;
      this.allow := set s | s in cfg.sources;
      this.perSource := map[];
    }

    method NextDecision(source: string) returns (d: Decision)
      requires Valid()
      modifies `perSource
      ensures Valid() && (perSource, d) == Before(cfg, old(perSource), source)
    {
      if !(cfg.enabled && cfg.sampleRate > 1 && source in allow) {
        return Classify(false);
      }
      var s := if source in perSource then perSource[source] else UNSEEN;
      assert InBounds(cfg, s);
      if s.settled {
        s := s.(sinceSample := s.sinceSample + 1);
        if s.sinceSample >= cfg.sampleRate {
          s := s.(sinceSample := 0);
          d := Classify(true);
        } else {
          d := match s.known case Some(id) => FastPath(id) case None => Classify(false);
        }
      } else {
        d := Classify(false);
      }
      perSource := perSource[source := s];
    }

    /** `driftCheck` is the flag of the decision this result answers. */
    method Feed(source: string, known: Option<string>, driftCheck: bool)
      requires Valid() && (Active(cfg, source) ==> driftCheck == Of(perSource, source).settled)
      modifies `perSource
      ensures Valid() && perSource == After(cfg, old(perSource), source, known, driftCheck)
    {
      if !(cfg.enabled && cfg.sampleRate > 1 && source in allow) {
        return;
      }
      var s := if source in perSource then perSource[source] else UNSEEN;
      assert InBounds(cfg, s);
      match known {
        case Some(id) =>
          if s.known == Some(id) {
            if driftCheck {
              s := s.(consecutive := SaturatingInc(s.consecutive));
            } else {
              s := s.(consecutive := s.consecutive + 1);
              if s.consecutive >= cfg.settleAfter {
                s := s.(settled := true);
              }
            }
          } else {
            s := SourceSettle(Some(id), 1, false, 0);
          }
        case None =>
          s := SourceSettle(None, 0, false, 0);
      }
      perSource := perSource[source := s];
    }
  }
}
