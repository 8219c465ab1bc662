/** The cache keeps the most recently used answers: what it holds after any run, in which order, and
    what it has dropped. */
module Recency {
  import opened Fingerprint
  import opened Shapes
  import opened ParseSpec
  import opened Publication
  import opened StructuralIndex
  import opened Matcher


  /** The answers that named a schema, latest first. */
  function Uses(start: Registry, capacity: nat, codec: Codec, events: seq<Event>): seq<Entry>
    requires capacity > 0
  {
    if events == [] then []
    else
      var n := |events| - 1;
      Used(Run(start, capacity, codec, events[..n]), capacity, codec, events[n])
      + Uses(start, capacity, codec, events[..n])
  }

  function Used(w: World, capacity: nat, codec: Codec, e: Event): seq<Entry>
    requires capacity > 0
  {
    if !e.Message? then []
    else
      var r := Classify(w.lru, capacity, codec, e.source, e.payload, e.limits, e.reply).1;
      if r.schemaRef.Known? && r.rawFp.Some? then [Entry(r.rawFp.value, r.schemaRef.id)] else []
  }

  /** How many uses came after the latest of this fingerprint, if there is one. */
  function Since(uses: seq<Entry>, fp: Digest): (i: nat)
    ensures i <= |uses| && (i < |uses| ==> uses[i].fp == fp)
    ensures forall j | 0 <= j < i :: uses[j].fp != fp
  {
    if uses == [] || uses[0].fp == fp then 0 else 1 + Since(uses[1..], fp)
  }

  /** Each entry is the latest use of its fingerprint, and an earlier entry was used later. */
  ghost predicate InOrder(lru: seq<Entry>, uses: seq<Entry>) {
    && (forall i | 0 <= i < |lru| :: Since(uses, lru[i].fp) < |uses| && uses[Since(uses, lru[i].fp)] == lru[i])
    && (forall i, j | 0 <= i < j < |lru| :: Since(uses, lru[i].fp) < Since(uses, lru[j].fp))
  }

  predicate Absent(lru: seq<Entry>, fp: Digest) {
    forall i | 0 <= i < |lru| :: lru[i].fp != fp
  }

  /** A fingerprint no longer cached was used before all those that fill the cache. */
  ghost predicate Dropped(lru: seq<Entry>, capacity: nat, uses: seq<Entry>, fp: Digest) {
    Since(uses, fp) < |uses| && Absent(lru, fp) ==>
      |lru| == capacity && forall i | 0 <= i < |lru| :: Since(uses, lru[i].fp) < Since(uses, fp)
  }

  ghost predicate KeepsRecent(lru: seq<Entry>, capacity: nat, uses: seq<Entry>) {
    |lru| <= capacity && InOrder(lru, uses) && forall fp :: Dropped(lru, capacity, uses, fp)
  }

  lemma SinceCons(e: Entry, uses: seq<Entry>, fp: Digest)
    ensures Since([e] + uses, fp) == if e.fp == fp then 0 else 1 + Since(uses, fp)
  {
    assert ([e] + uses)[1..] == uses;
  }

  // ---- taking one entry out ----

  lemma {:induction false} WithoutAbsent(lru: seq<Entry>, fp: Digest)
    requires Absent(lru, fp)
    ensures Without(lru, fp) == lru
    decreases |lru|
  {
    if lru != [] {
      WithoutAbsent(lru[1..], fp);
      assert lru == [lru[0]] + lru[1..];
    }
  }

  lemma {:induction false} WithoutCons(x: Entry, rest: seq<Entry>, fp: Digest)
    ensures Without([x] + rest, fp) == (if x.fp == fp then [] else [x]) + Without(rest, fp)
  {
    assert ([x] + rest)[1..] == rest;
  }

  lemma Regroup(a: seq<Entry>, e: Entry, b: seq<Entry>)
    requires a != []
    ensures a + [e] + b == [a[0]] + (a[1..] + [e] + b) && a + b == [a[0]] + (a[1..] + b)
  {
  }

  lemma {:induction false} WithoutBetween(a: seq<Entry>, e: Entry, b: seq<Entry>)
    requires Absent(a, e.fp) && Absent(b, e.fp)
    ensures Without(a + [e] + b, e.fp) == a + b
    decreases |a|
  {
    hide Without;
    if a == [] {
      WithoutAbsent(b, e.fp);
      WithoutCons(e, b, e.fp);
      assert a + [e] + b == [e] + b && a + b == [] + b;
    } else {
      WithoutBetween(a[1..], e, b);
      WithoutCons(a[0], a[1..] + [e] + b, e.fp);
      Regroup(a, e, b);
    }
  }

  /** Of distinct entries exactly the one at `k` goes. */
  lemma {:induction false} WithoutOne(lru: seq<Entry>, k: nat)
    requires k < |lru| && Distinct(lru)
    ensures Without(lru, lru[k].fp) == lru[..k] + lru[k + 1..]
  {
    hide Without;
    var a, b := lru[..k], lru[k + 1..];
    assert lru == a + [lru[k]] + b;
    assert (forall i | 0 <= i < |a| :: a[i] == lru[i]) && (forall i | 0 <= i < |b| :: b[i] == lru[k + 1 + i]);
    WithoutBetween(a, lru[k], b);
  }

  // ---- one use ----

  ghost predicate Latest(e: Entry, uses: seq<Entry>) {
    Since(uses, e.fp) < |uses| && uses[Since(uses, e.fp)] == e
  }

  lemma {:induction false} StaysLatest(x: Entry, e: Entry, uses: seq<Entry>)
    requires if x.fp == e.fp then x == e else Latest(x, uses)
    ensures Latest(x, [e] + uses)
    ensures Since([e] + uses, x.fp) == if x.fp == e.fp then 0 else 1 + Since(uses, x.fp)
  {
    hide Since;
    SinceCons(e, uses, x.fp);
  }

  lemma {:induction false} FrontInOrder(front: seq<Entry>, e: Entry, uses: seq<Entry>)
    requires InOrder(front, uses) && Absent(front, e.fp)
    ensures InOrder([e] + front, [e] + uses)
  {
    hide Since, Latest;
    var lru, all := [e] + front, [e] + uses;
    forall i | 0 <= i < |lru|
      ensures Latest(lru[i], all) && Since(all, lru[i].fp) == if i == 0 then 0 else 1 + Since(uses, front[i - 1].fp)
    {
      AtFront(front, e, uses, i);
    }
    FromLatest(lru, all);
  }

  lemma {:induction false} AtFront(front: seq<Entry>, e: Entry, uses: seq<Entry>, i: nat)
    requires InOrder(front, uses) && Absent(front, e.fp) && i <= |front|
    ensures var x := ([e] + front)[i];
      Latest(x, [e] + uses) && Since([e] + uses, x.fp) == if i == 0 then 0 else 1 + Since(uses, front[i - 1].fp)
  {
    hide Since;
    StaysLatest(([e] + front)[i], e, uses);
  }

  lemma {:induction false} FromLatest(lru: seq<Entry>, uses: seq<Entry>)
    requires forall i | 0 <= i < |lru| :: Latest(lru[i], uses)
    requires forall i, j | 0 <= i < j < |lru| :: Since(uses, lru[i].fp) < Since(uses, lru[j].fp)
    ensures InOrder(lru, uses)
  {
    hide Since;
  }

  lemma {:induction false} FrontDropped(front: seq<Entry>, e: Entry, capacity: nat, uses: seq<Entry>, fp: Digest)
    requires Absent(front, e.fp)
    requires fp != e.fp && Since(uses, fp) < |uses| && Absent(front, fp) ==>
      |front| + 1 == capacity && forall i | 0 <= i < |front| :: Since(uses, front[i].fp) < Since(uses, fp)
    ensures Dropped([e] + front, capacity, [e] + uses, fp)
  {
    hide Since, CacheGet;
    var lru, all := [e] + front, [e] + uses;
    SinceCons(e, uses, fp);
    if Since(all, fp) < |all| && Absent(lru, fp) {
      assert lru[0].fp == e.fp && forall i | 0 <= i < |front| :: lru[i + 1] == front[i];
      forall i | 0 <= i < |lru| ensures Since(all, lru[i].fp) < Since(all, fp) {
        SinceCons(e, uses, lru[i].fp);
        if i > 0 {
          assert lru[i] == front[i - 1];
        }
      }
    }
  }

  lemma {:induction false} RecentDistinct(lru: seq<Entry>, uses: seq<Entry>)
    requires InOrder(lru, uses)
    ensures Distinct(lru)
  {
    hide Since;
  }

  /** Taking an entry out leaves the others in order and nothing else dropped. */
  lemma {:induction false} TakenOut(lru: seq<Entry>, k: nat, uses: seq<Entry>)
    requires k < |lru| && InOrder(lru, uses)
    ensures var front := lru[..k] + lru[k + 1..];
      InOrder(front, uses) && forall i | 0 <= i < |front| :: front[i].fp != lru[k].fp
  {
    hide Since;
    RecentDistinct(lru, uses);
    var front := lru[..k] + lru[k + 1..];
    forall i, j | 0 <= i < j < |front| ensures Since(uses, front[i].fp) < Since(uses, front[j].fp) {
      var x, y := if i < k then i else i + 1, if j < k then j else j + 1;
      assert front[i] == lru[x] && front[j] == lru[y];
      assert Since(uses, lru[x].fp) < Since(uses, lru[y].fp);
    }
  }

  lemma {:induction false} StillThere(lru: seq<Entry>, k: nat, fp: Digest)
    requires k < |lru| && lru[k].fp != fp && Absent(lru[..k] + lru[k + 1..], fp)
    ensures Absent(lru, fp)
  {
    hide CacheGet;
    var front := lru[..k] + lru[k + 1..];
    forall i | 0 <= i < |lru| ensures lru[i].fp != fp {
      if i != k {
        assert front[if i < k then i else i - 1] == lru[i];
      }
    }
  }

  lemma {:induction false} UseHit(lru: seq<Entry>, capacity: nat, uses: seq<Entry>, fp: Digest)
    requires KeepsRecent(lru, capacity, uses) && CacheGet(lru, fp).Some?
    ensures KeepsRecent(Touched(lru, fp), capacity, [Entry(fp, CacheGet(lru, fp).value)] + uses)
  {
    hide Since, Without, CacheGet, InOrder, Dropped, Distinct;
    RecentDistinct(lru, uses);
    var e := Entry(fp, CacheGet(lru, fp).value);
    var k :| 0 <= k < |lru| && lru[k] == e;
    WithoutOne(lru, k);
    var front := lru[..k] + lru[k + 1..];
    TakenOut(lru, k, uses);
    FrontInOrder(front, e, uses);
    forall x ensures Dropped([e] + front, capacity, [e] + uses, x) {
      assert Dropped(lru, capacity, uses, x);
      if x != fp && Since(uses, x) < |uses| && Absent(front, x) {
        StillThere(lru, k, x);
        DroppedMeans(lru, capacity, uses, x);
      }
      FrontDropped(front, e, capacity, uses, x);
    }
  }

  lemma {:induction false} DroppedMeans(lru: seq<Entry>, capacity: nat, uses: seq<Entry>, fp: Digest)
    requires Dropped(lru, capacity, uses, fp) && Since(uses, fp) < |uses| && Absent(lru, fp)
    ensures |lru| == capacity && forall x | x in lru :: Since(uses, x.fp) < Since(uses, fp)
  {
    hide Since, CacheGet;
  }

  /** What is pushed out was used before the rest. */
  lemma {:induction false} PushedOut(lru: seq<Entry>, capacity: nat, uses: seq<Entry>, fp: Digest)
    requires capacity > 0 && KeepsRecent(lru, capacity, uses) && Since(uses, fp) < |uses|
    requires var front := if |lru| < capacity then lru else lru[..capacity - 1]; Absent(front, fp)
    ensures var front := if |lru| < capacity then lru else lru[..capacity - 1];
      |front| + 1 == capacity && forall i | 0 <= i < |front| :: Since(uses, front[i].fp) < Since(uses, fp)
  {
    hide Since, CacheGet;
    var front := if |lru| < capacity then lru else lru[..capacity - 1];
    assert Dropped(lru, capacity, uses, fp);
    assert forall i | 0 <= i < |front| :: front[i] == lru[i];
    if !Absent(lru, fp) {
      var k :| 0 <= k < |lru| && lru[k].fp == fp;
      assert k >= |front|;
    }
  }

  lemma {:induction false} UseMiss(lru: seq<Entry>, capacity: nat, uses: seq<Entry>, e: Entry)
    requires capacity > 0 && KeepsRecent(lru, capacity, uses) && Absent(lru, e.fp)
    ensures KeepsRecent(CachePut(lru, capacity, e.fp, e.id), capacity, [e] + uses)
  {
    hide *;
    var front := if |lru| < capacity then lru else lru[..capacity - 1];
    PutIs(lru, capacity, e);
    PutInOrder(lru, capacity, uses, e);
    forall x ensures Dropped([e] + front, capacity, [e] + uses, x) {
      if x != e.fp && Since(uses, x) < |uses| && Absent(front, x) {
        PushedOut(lru, capacity, uses, x);
      }
      FrontDropped(front, e, capacity, uses, x);
    }
    Recent(CachePut(lru, capacity, e.fp, e.id), capacity, [e] + uses);
  }

  lemma {:induction false} PutIs(lru: seq<Entry>, capacity: nat, e: Entry)
    requires capacity > 0 && Absent(lru, e.fp)
    ensures CachePut(lru, capacity, e.fp, e.id) == [e] + if |lru| < capacity then lru else lru[..capacity - 1]
    ensures |CachePut(lru, capacity, e.fp, e.id)| <= capacity
  {
    hide Without, CacheGet;
    WithoutAbsent(lru, e.fp);
  }

  lemma {:induction false} PutInOrder(lru: seq<Entry>, capacity: nat, uses: seq<Entry>, e: Entry)
    requires capacity > 0 && KeepsRecent(lru, capacity, uses) && Absent(lru, e.fp)
    ensures var front := if |lru| < capacity then lru else lru[..capacity - 1];
      InOrder([e] + front, [e] + uses) && Absent(front, e.fp)
  {
    hide Since, CacheGet, Dropped;
    var front := if |lru| < capacity then lru else lru[..capacity - 1];
    assert forall i | 0 <= i < |front| :: front[i] == lru[i];
    FrontInOrder(front, e, uses);
  }

  lemma {:induction false} Recent(lru: seq<Entry>, capacity: nat, uses: seq<Entry>)
    requires |lru| <= capacity && InOrder(lru, uses) && forall fp :: Dropped(lru, capacity, uses, fp)
    ensures KeepsRecent(lru, capacity, uses)
  {
    hide InOrder, Dropped;
  }

  lemma {:induction false} NextRecent(w: World, capacity: nat, codec: Codec, e: Event, uses: seq<Entry>)
    requires capacity > 0 && KeepsRecent(w.lru, capacity, uses)
    ensures KeepsRecent(Next(w, capacity, codec, e).lru, capacity, Used(w, capacity, codec, e) + uses)
  {
    hide KeepsRecent, ParseBounded, ShapeOf, FingerprintOf, BucketOf, Summarize, Publish, Rebuild, Touched, CachePut,
      CacheGet;
    assert [] + uses == uses;
    if e.Message? && ParseBounded(e.payload, e.limits).Success? {
      var fp := FingerprintOf(ShapeOf(ParseBounded(e.payload, e.limits).value));
      if CacheGet(w.lru, fp).Some? {
        UseHit(w.lru, capacity, uses, fp);
      } else if e.reply.Found? && e.reply.id.Some? {
        UseMiss(w.lru, capacity, uses, Entry(fp, e.reply.id.value));
      }
    }
  }

  /** After any run the cache holds exactly the most recently used fingerprints, each with the schema its
      latest answer named, in the order of use; what else was ever used was used before all of these, and
      is missing only because they fill the capacity. */
  lemma {:induction false} CacheIsRecent(start: Registry, capacity: nat, codec: Codec, events: seq<Event>)
    requires capacity > 0
    ensures KeepsRecent(Run(start, capacity, codec, events).lru, capacity, Uses(start, capacity, codec, events))
    decreases |events|
  {
    hide KeepsRecent, Next, Used;
    if events == [] {
      NothingUsed(capacity);
    } else {
      var n := |events| - 1;
      CacheIsRecent(start, capacity, codec, events[..n]);
      NextRecent(Run(start, capacity, codec, events[..n]), capacity, codec, events[n],
        Uses(start, capacity, codec, events[..n]));
    }
  }

  lemma NothingUsed(capacity: nat)
    ensures KeepsRecent([], capacity, [])
  {
  }
}
