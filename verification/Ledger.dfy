/** The books of the relay: which raw records are delivered, waiting or skipped, cursor by cursor. */
module Ledger {
  import opened Routing

  /** A partition without an entry is read from its beginning. */
  function At(offsets: map<Partition, nat>, p: Partition): nat {
    if p in offsets then offsets[p] else 0
  }

  /** The raw log's cursors; those of the committed main outputs and of the batch being filled, in
      order; those of aborted batches the loop moved past; the committed offsets and, while the relay
      is up, its position in each partition. */
  datatype Books = Books(
    log: set<Cursor>, delivered: seq<Cursor>, waiting: seq<Cursor>, skipped: set<Cursor>,
    committed: map<Partition, nat>, position: map<Partition, nat>, up: bool)

  /** Strictly increasing within each partition, so no cursor occurs twice. */
  predicate Increasing(cs: seq<Cursor>) {
    forall i, j | 0 <= i < j < |cs| && cs[i].at == cs[j].at :: cs[i].offset < cs[j].offset
  }

  predicate PartitionOk(k: Books, p: Partition) {
    && (At(k.committed, p) > 0 ==> Cursor(p, At(k.committed, p) - 1) in k.log)
    && (k.up ==> At(k.committed, p) <= At(k.position, p))
    && (k.up && At(k.position, p) > 0 ==> Cursor(p, At(k.position, p) - 1) in k.log)
  }

  /** Each record below the committed offset is delivered or skipped, each one from there to the
      position is waiting or skipped, and never two of these. */
  predicate CursorOk(k: Books, c: Cursor) {
    && (c in k.delivered ==> c in k.log && c.offset < At(k.committed, c.at))
    && (c in k.waiting ==> c in k.log && k.up && At(k.committed, c.at) <= c.offset < At(k.position, c.at))
    && (c in k.skipped ==>
      c in k.log && c !in k.delivered && c !in k.waiting && (k.up ==> c.offset < At(k.position, c.at)))
    && (c in k.log && c.offset < At(k.committed, c.at) ==> c in k.delivered || c in k.skipped)
    && (k.up && c in k.log && At(k.committed, c.at) <= c.offset < At(k.position, c.at) ==>
      c in k.waiting || c in k.skipped)
  }

  ghost predicate Balanced(k: Books) {
    && (forall p :: PartitionOk(k, p))
    && (forall c :: CursorOk(k, c))
    && Increasing(k.delivered) && Increasing(k.waiting)
  }

  // ---- what each event does to the books ----

  function Arrived(k: Books, c: Cursor): Books {
    k.(log := k.log + {c})
  }

  function Received(k: Books, c: Cursor): Books {
    k.(waiting := k.waiting + [c], position := k.position[c.at := c.offset + 1])
  }

  function Stopped(k: Books): Books {
    k.(waiting := [], up := false)
  }

  function Restarted(k: Books): Books {
    k.(up := true, position := k.committed, skipped := set c | c in k.skipped && c.offset < At(k.committed, c.at))
  }

  function Moved(k: Books): Books {
    k.(waiting := [], skipped := k.skipped + set c | c in k.waiting)
  }

  function Settled(k: Books, offsets: map<Partition, nat>): Books {
    k.(delivered := k.delivered + k.waiting, waiting := [], committed := offsets)
  }

  /** The end of the partition's log. */
  predicate AtEnd(k: Books, c: Cursor) {
    forall d | d in k.log && d.at == c.at :: d.offset < c.offset
  }

  /** The next record of its partition for this consumer. */
  predicate NextUp(k: Books, c: Cursor) {
    && c in k.log && At(k.position, c.at) <= c.offset
    && forall d | d in k.log && d.at == c.at && At(k.position, c.at) <= d.offset :: c.offset <= d.offset
  }

  /** The offsets after a commit: past everything waiting in its partition, and no further than that. */
  ghost predicate Advanced(k: Books, offsets: map<Partition, nat>) {
    forall p :: AdvancedAt(k, offsets, p)
  }

  predicate AdvancedAt(k: Books, offsets: map<Partition, nat>, p: Partition) {
    && (forall c | c in k.waiting && c.at == p :: c.offset < At(offsets, p))
    && (At(offsets, p) == At(k.committed, p) || (At(offsets, p) > 0 && Cursor(p, At(offsets, p) - 1) in k.waiting))
  }

  lemma ArrivedBalanced(k: Books, c: Cursor)
    requires Balanced(k) && AtEnd(k, c)
    ensures Balanced(Arrived(k, c))
  {
    hide At, Increasing;
    var t := Arrived(k, c);
    assert PartitionOk(k, c.at) && CursorOk(k, c);
    forall p ensures PartitionOk(t, p) {
      assert PartitionOk(k, p);
    }
    forall x ensures CursorOk(t, x) {
      assert CursorOk(k, x);
    }
  }

  lemma ReceivedBalanced(k: Books, c: Cursor)
    requires Balanced(k) && k.up && NextUp(k, c)
    ensures Balanced(Received(k, c))
  {
    var t := Received(k, c);
    assert forall x :: x in t.waiting <==> x in k.waiting || x == c;
    forall p ensures PartitionOk(t, p) {
      assert PartitionOk(k, p);
    }
    forall x ensures CursorOk(t, x) {
      ReceivedCursor(k, c, x);
    }
    ReceivedIncreasing(k, c);
  }

  lemma ReceivedCursor(k: Books, c: Cursor, x: Cursor)
    requires Balanced(k) && k.up && NextUp(k, c)
    ensures CursorOk(Received(k, c), x)
  {
    hide Increasing;
    var t := Received(k, c);
    assert x in t.waiting <==> x in k.waiting || x == c;
    assert CursorOk(k, x) && CursorOk(k, c) && PartitionOk(k, c.at);
  }

  lemma ReceivedIncreasing(k: Books, c: Cursor)
    requires Balanced(k) && k.up && NextUp(k, c)
    ensures Increasing(k.waiting + [c])
  {
    hide PartitionOk, At;
    forall i | 0 <= i < |k.waiting| && k.waiting[i].at == c.at ensures k.waiting[i].offset < c.offset {
      assert CursorOk(k, k.waiting[i]);
    }
  }

  lemma StoppedBalanced(k: Books)
    requires Balanced(k)
    ensures Balanced(Stopped(k))
  {
    hide At;
    var t := Stopped(k);
    forall p ensures PartitionOk(t, p) {
      assert PartitionOk(k, p);
    }
    forall x ensures CursorOk(t, x) {
      assert CursorOk(k, x);
    }
  }

  lemma RestartedBalanced(k: Books)
    requires Balanced(k) && !k.up
    ensures Balanced(Restarted(k))
  {
    hide At, Increasing;
    var t := Restarted(k);
    forall p ensures PartitionOk(t, p) {
      assert PartitionOk(k, p);
    }
    forall x ensures CursorOk(t, x) {
      assert CursorOk(k, x);
    }
  }

  lemma MovedBalanced(k: Books)
    requires Balanced(k)
    ensures Balanced(Moved(k))
  {
    hide At;
    var t := Moved(k);
    forall p ensures PartitionOk(t, p) {
      assert PartitionOk(k, p);
    }
    forall x ensures CursorOk(t, x) {
      assert CursorOk(k, x);
    }
  }

  lemma SettledBalanced(k: Books, offsets: map<Partition, nat>)
    requires Balanced(k) && k.up && Advanced(k, offsets)
    ensures Balanced(Settled(k, offsets))
  {
    hide Increasing, At, PartitionOk, CursorOk, AdvancedAt;
    var t := Settled(k, offsets);
    forall p ensures PartitionOk(t, p) {
      SettledPartition(k, offsets, p);
    }
    forall x ensures CursorOk(t, x) {
      SettledCursor(k, offsets, x);
    }
    SettledIncreasing(k);
    assert Increasing([]) by { NoneIncreasing(); }
  }

  lemma NoneIncreasing()
    ensures Increasing([])
  {
  }

  lemma SettledPartition(k: Books, offsets: map<Partition, nat>, p: Partition)
    requires Balanced(k) && k.up && Advanced(k, offsets)
    ensures PartitionOk(Settled(k, offsets), p) && At(k.committed, p) <= At(offsets, p)
  {
    hide Increasing, At;
    assert PartitionOk(k, p) && AdvancedAt(k, offsets, p);
    if At(offsets, p) != At(k.committed, p) {
      assert CursorOk(k, Cursor(p, At(offsets, p) - 1));
    }
  }

  lemma SettledCursor(k: Books, offsets: map<Partition, nat>, x: Cursor)
    requires Balanced(k) && k.up && Advanced(k, offsets)
    ensures CursorOk(Settled(k, offsets), x)
  {
    SettledPartition(k, offsets, x.at);
    hide Increasing, At;
    assert PartitionOk(k, x.at) && AdvancedAt(k, offsets, x.at) && CursorOk(k, x);
    var t := Settled(k, offsets);
    assert x in t.delivered <==> x in k.delivered || x in k.waiting;
    assert At(t.committed, x.at) <= At(k.position, x.at);
  }

  lemma SettledIncreasing(k: Books)
    requires Balanced(k)
    ensures Increasing(k.delivered + k.waiting)
  {
    hide PartitionOk, At;
    var d, b := k.delivered, k.waiting;
    forall i, j | 0 <= i < |d| && 0 <= j < |b| && d[i].at == b[j].at ensures d[i].offset < b[j].offset {
      assert CursorOk(k, d[i]) && CursorOk(k, b[j]);
    }
    var all := d + b;
    forall i, j | 0 <= i < j < |all| && all[i].at == all[j].at ensures all[i].offset < all[j].offset {
      if i < |d| && |d| <= j {
        assert all[i] == d[i] && all[j] == b[j - |d|];
      }
    }
  }
}
