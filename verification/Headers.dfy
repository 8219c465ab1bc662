/** Header hygiene: which reserved headers a produced record can carry. */
module Headers {
  import opened Options
  import opened Members

  /** A Kafka header; its value is text here. */
  datatype Header = Header(key: string, value: Option<string>)

  const RESERVED_PREFIX := "deblob-"
  const SCHEMA_ID_HEADER := "deblob-schema-id"
  const ORIGIN_HEADER := "deblob-origin"
  const QUARANTINE_REASON_HEADER := "deblob-quarantine-reason"

  function LowerAscii(c: char): char {
    if 'A' <= c <= 'Z' then (c as int + 32) as char else c
  }

  function Lowered(s: string): (r: string)
    ensures |r| == |s| && forall i | 0 <= i < |s| :: r[i] == LowerAscii(s[i])
  {
    seq(|s|, i requires 0 <= i < |s| => LowerAscii(s[i]))
  }

  /** The key starts with the prefix, in any case. */
  predicate IsReserved(key: string) {
    RESERVED_PREFIX <= Lowered(key)
  }

  /** The other headers, in order. */
  function StripReserved(headers: seq<Header>): seq<Header> {
    if headers == [] then []
    else (if IsReserved(headers[0].key) then [] else [headers[0]]) + StripReserved(headers[1..])
  }

  /** The reserved headers, in order. */
  function ReservedOf(headers: seq<Header>): seq<Header> {
    if headers == [] then []
    else (if IsReserved(headers[0].key) then [headers[0]] else []) + ReservedOf(headers[1..])
  }

  /** `deblob-origin`: topic, partition and offset. */
  function OriginText(topic: string, partition: nat, offset: nat): string {
    topic + "/" + (Decimal(partition) + "/" + Decimal(offset))
  }

  /** `strip_reserved`, then `with_tag` and, for a quarantined record, `with_quarantine_reason`. */
  function OutHeaders(inbound: seq<Header>, tag: string, origin: string, reason: Option<string>): seq<Header> {
    StripReserved(inbound)
    + [Header(SCHEMA_ID_HEADER, Some(tag)), Header(ORIGIN_HEADER, Some(origin))]
    + match reason { case None => [] case Some(code) => [Header(QUARANTINE_REASON_HEADER, Some(code))] }
  }

  lemma ReservedStep(h: Header, rest: seq<Header>)
    ensures ReservedOf([h] + rest) == (if IsReserved(h.key) then [h] else []) + ReservedOf(rest)
  {
    hide IsReserved;
    assert ([h] + rest)[1..] == rest;
  }

  lemma {:induction false} ReservedConcat(a: seq<Header>, b: seq<Header>)
    ensures ReservedOf(a + b) == ReservedOf(a) + ReservedOf(b)
    decreases |a|
  {
    if a == [] {
      assert a + b == b;
    } else {
      hide IsReserved, ReservedOf;
      ReservedConcat(a[1..], b);
      ReservedStep(a[0], a[1..]);
      ReservedStep(a[0], a[1..] + b);
      assert a == [a[0]] + a[1..] && a + b == [a[0]] + (a[1..] + b);
    }
  }

  lemma {:induction false} StrippedClean(headers: seq<Header>)
    ensures ReservedOf(StripReserved(headers)) == []
    decreases |headers|
  {
    hide IsReserved;
    if headers != [] {
      StrippedClean(headers[1..]);
      ReservedConcat(if IsReserved(headers[0].key) then [] else [headers[0]], StripReserved(headers[1..]));
    }
  }

  lemma OwnReserved()
    ensures IsReserved(SCHEMA_ID_HEADER) && IsReserved(ORIGIN_HEADER) && IsReserved(QUARANTINE_REASON_HEADER)
  {
  }

  lemma {:induction false} AllReserved(headers: seq<Header>)
    requires forall h | h in headers :: IsReserved(h.key)
    ensures ReservedOf(headers) == headers
    decreases |headers|
  {
    hide IsReserved;
    if headers != [] {
      AllReserved(headers[1..]);
      assert headers == [headers[0]] + headers[1..];
    }
  }

  /** Whatever came in, in whatever case and however often, exactly one schema id and one origin go
      out, and a reason only where the relay put it. */
  lemma OneTagOut(inbound: seq<Header>, tag: string, origin: string, reason: Option<string>)
    ensures ReservedOf(OutHeaders(inbound, tag, origin, reason))
         == [Header(SCHEMA_ID_HEADER, Some(tag)), Header(ORIGIN_HEADER, Some(origin))]
            + match reason { case None => [] case Some(code) => [Header(QUARANTINE_REASON_HEADER, Some(code))] }
  {
    hide IsReserved, StripReserved, ReservedOf;
    var own := [Header(SCHEMA_ID_HEADER, Some(tag)), Header(ORIGIN_HEADER, Some(origin))];
    var more := match reason { case None => [] case Some(code) => [Header(QUARANTINE_REASON_HEADER, Some(code))] };
    OwnReserved();
    StrippedClean(inbound);
    AllReserved(own);
    AllReserved(more);
    ReservedConcat(StripReserved(inbound), own);
    ReservedConcat(StripReserved(inbound) + own, more);
  }

  /** The origin header names one raw record: topic names hold no slash. */
  lemma OriginInjective(t1: string, p1: nat, o1: nat, t2: string, p2: nat, o2: nat)
    requires '/' !in t1 && '/' !in t2 && OriginText(t1, p1, o1) == OriginText(t2, p2, o2)
    ensures t1 == t2 && p1 == p2 && o1 == o2
  {
    DecimalDigits(p1);
    DecimalDigits(p2);
    var x, y := Decimal(p1) + "/" + Decimal(o1), Decimal(p2) + "/" + Decimal(o2);
    CutAt('/', t1, x, t2, y);
    assert x == OriginText(t1, p1, o1)[|t1| + 1..] && y == OriginText(t2, p2, o2)[|t2| + 1..];
    CutAt('/', Decimal(p1), Decimal(o1), Decimal(p2), Decimal(o2));
    assert Decimal(o1) == x[|Decimal(p1)| + 1..] && Decimal(o2) == y[|Decimal(p2)| + 1..];
    DecimalInjective(p1, p2);
    DecimalInjective(o1, o2);
  }

  // ---- what goes out ----

  /** The first seven letters spell `deblob-`, each in either case. */
  predicate StartsReserved(key: string) {
    |key| >= 7 && forall j | 0 <= j < 7 :: key[j] == "deblob-"[j] || key[j] == "DEBLOB-"[j]
  }

  lemma ReservedLetters(key: string)
    ensures IsReserved(key) <==> StartsReserved(key)
  {
    if |key| >= 7 {
      var low := Lowered(key);
      assert IsReserved(key) <==> forall j | 0 <= j < 7 :: low[j] == "deblob-"[j];
      forall j | 0 <= j < 7 ensures low[j] == "deblob-"[j] <==> key[j] == "deblob-"[j] || key[j] == "DEBLOB-"[j] {
      }
    }
  }

  /** `at` lists the positions, from `i` on, of the headers that are kept. */
  ghost predicate Lists(headers: seq<Header>, i: nat, at: seq<nat>) {
    forall j: nat :: j in at <==> i <= j < |headers| && !StartsReserved(headers[j].key)
  }

  ghost predicate Increasing(at: seq<nat>) {
    forall j, k | 0 <= j < k < |at| :: at[j] < at[k]
  }

  /** `kept` are the headers at these positions. */
  ghost predicate Selects(headers: seq<Header>, at: seq<nat>, kept: seq<Header>) {
    |kept| == |at| && forall k | 0 <= k < |at| :: at[k] < |headers| && kept[k] == headers[at[k]]
  }

  lemma {:induction false} KeptInOrder(headers: seq<Header>, i: nat) returns (at: seq<nat>)
    requires i <= |headers|
    ensures Lists(headers, i, at) && Increasing(at) && Selects(headers, at, StripReserved(headers[i..]))
    decreases |headers| - i
  {
    hide *;
    at := [];
    if i < |headers| {
      at := KeptInOrder(headers, i + 1);
      StripStep(headers, i);
      if StartsReserved(headers[i].key) {
        SkipOne(headers, i, at);
        assert [] + StripReserved(headers[i + 1..]) == StripReserved(headers[i + 1..]);
      } else {
        ListOne(headers, i, at);
        SelectOne(headers, i, at, StripReserved(headers[i + 1..]));
        at := [i] + at;
      }
    } else {
      NothingLeft(headers, i);
    }
  }

  lemma SkipOne(headers: seq<Header>, i: nat, at: seq<nat>)
    requires i < |headers| && StartsReserved(headers[i].key) && Lists(headers, i + 1, at)
    ensures Lists(headers, i, at)
  {
    hide StartsReserved;
  }

  lemma ListOne(headers: seq<Header>, i: nat, at: seq<nat>)
    requires i < |headers| && !StartsReserved(headers[i].key) && Lists(headers, i + 1, at) && Increasing(at)
    ensures Lists(headers, i, [i] + at) && Increasing([i] + at)
  {
    hide StartsReserved;
    var all := [i] + at;
    forall j, k | 0 <= j < k < |all| ensures all[j] < all[k] {
      assert all[k] == at[k - 1] && at[k - 1] in at;
    }
  }

  lemma SelectOne(headers: seq<Header>, i: nat, at: seq<nat>, kept: seq<Header>)
    requires i < |headers| && Selects(headers, at, kept)
    ensures Selects(headers, [i] + at, [headers[i]] + kept)
  {
  }

  lemma StripStep(headers: seq<Header>, i: nat)
    requires i < |headers|
    ensures StripReserved(headers[i..])
      == (if StartsReserved(headers[i].key) then [] else [headers[i]]) + StripReserved(headers[i + 1..])
  {
    hide IsReserved, StartsReserved;
    ReservedLetters(headers[i].key);
    assert headers[i..][1..] == headers[i + 1..];
  }

  lemma NothingLeft(headers: seq<Header>, i: nat)
    requires i == |headers|
    ensures Lists(headers, i, []) && Increasing([]) && Selects(headers, [], StripReserved(headers[i..]))
  {
  }

  /** Exactly the headers whose keys do not start with `deblob-`, in any case, go on, in their order; after
      them the schema id, the origin and, for a quarantined record, the reason. */
  lemma HeadersOut(inbound: seq<Header>, tag: string, origin: string, reason: Option<string>) returns (at: seq<nat>)
    ensures forall i: nat :: i in at <==> i < |inbound| && !StartsReserved(inbound[i].key)
    ensures forall j, k | 0 <= j < k < |at| :: at[j] < at[k]
    ensures var out := OutHeaders(inbound, tag, origin, reason); var n := |at|;
      && |out| == n + (if reason.Some? then 3 else 2)
      && (forall k | 0 <= k < n :: at[k] < |inbound| && out[k] == inbound[at[k]])
      && out[n] == Header("deblob-schema-id", Some(tag))
      && out[n + 1] == Header("deblob-origin", Some(origin))
      && (reason.Some? ==> out[n + 2] == Header("deblob-quarantine-reason", reason))
  {
    hide IsReserved, StartsReserved, StripReserved;
    at := KeptInOrder(inbound, 0);
    assert inbound[0..] == inbound;
  }

  /** The origin header reads topic, partition, offset, the numbers in decimal. */
  lemma OriginReads(topic: string, partition: nat, offset: nat) returns (p: string, o: string)
    ensures OriginText(topic, partition, offset) == topic + "/" + p + "/" + o
    ensures p != "" && o != "" && forall c | c in p + o :: '0' <= c <= '9'
    ensures DigitsValue(p) == partition && DigitsValue(o) == offset
    ensures (partition > 0 ==> p[0] != '0') && (offset > 0 ==> o[0] != '0')
  {
    DecimalReads(partition);
    DecimalReads(offset);
    p, o := Decimal(partition), Decimal(offset);
    assert topic + "/" + (p + "/" + o) == topic + "/" + p + "/" + o;
  }
}
