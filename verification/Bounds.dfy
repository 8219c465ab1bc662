/** What every parsed document satisfies: the bounds, and sizes within the input's. */
module Bounds {
  import opened Utf8
  import opened Json
  import opened ParseSpec
  import opened Grammar
  import opened Recognition

  predicate KeyWithin(key: seq<byte>, lim: Limits) {
    ValidUtf8(key) && |key| <= lim.maxKeyLen
  }

  /** `n` keeps every bound of `lim` with at most `depth` nested containers. */
  predicate Within(n: Node, lim: Limits, depth: nat) {
    match n
    case String(s) => ValidUtf8(s) && |s| <= lim.maxStringLen
    case Array(items, truncated) =>
      && depth > 0
      && |items| <= lim.maxArrayInspect
      && (truncated ==> |items| == lim.maxArrayInspect)
      && forall item | item in items :: Within(item, lim, depth - 1)
    case Object(fields) =>
      && depth > 0
      && |fields| <= lim.maxFieldsPerObject
      && Distinct(fields)
      && forall f | f in fields :: KeyWithin(f.key, lim) && Within(f.value, lim, depth - 1)
    case _ => true
  }

  function NodeCount(n: Node): nat {
    match n
    case Array(items, _) => 1 + ItemCount(items)
    case Object(fields) => 1 + FieldCount(fields)
    case _ => 1
  }

  function ItemCount(items: seq<Node>): nat {
    if items == [] then 0 else NodeCount(items[0]) + ItemCount(items[1..])
  }

  function FieldCount(fields: seq<Field>): nat {
    if fields == [] then 0 else NodeCount(fields[0].value) + FieldCount(fields[1..])
  }

  /** Bytes of number text, decoded strings and decoded keys the document holds. */
  function TextSize(n: Node): nat {
    match n
    case Number(t) => |t|
    case String(s) => |s|
    case Array(items, _) => ItemText(items)
    case Object(fields) => FieldText(fields)
    case _ => 0
  }

  function ItemText(items: seq<Node>): nat {
    if items == [] then 0 else TextSize(items[0]) + ItemText(items[1..])
  }

  function FieldText(fields: seq<Field>): nat {
    if fields == [] then 0 else |fields[0].key| + TextSize(fields[0].value) + FieldText(fields[1..])
  }

  lemma {:induction false} DecodedShorter(ps: seq<Piece>)
    requires PiecesOk(ps)
    ensures |StringBytes(ps)| <= |StringText(ps)|
    decreases |ps|
  {
    if ps != [] {
      DecodedShorter(ps[1..]);
    }
  }

  lemma {:induction false} DenoteWithin(v: Value, d: nat, lim: Limits)
    requires ValueOk(v) && d <= lim.maxDepth && Fits(v, d, lim, true)
    ensures Within(Denote(v, lim), lim, lim.maxDepth - d)
    decreases v
  {
    hide ElementNodes, MemberFields, ElementsFit, MembersFit, ElementsOk, MembersOk, StringBytes, ValidUtf8, KeyWithin,
      Count;
    match v.core
    case Arr(es) =>
      ItemsWithin(es, d + 1, lim, lim.maxArrayInspect);
    case Obj(ms) =>
      FieldsWithin(ms, d + 1, lim);
    case _ =>
  }

  lemma {:induction false} ItemsWithin(es: Elements, d: nat, lim: Limits, k: nat)
    requires ElementsOk(es) && d <= lim.maxDepth && ElementsFit(es, d, lim, k)
    ensures forall item | item in ElementNodes(es, lim, k) :: Within(item, lim, lim.maxDepth - d)
    decreases es
  {
    if k > 0 {
      DenoteWithin(es.v, d, lim);
      if es.MoreElements? {
        ItemsWithin(es.rest, d, lim, k - 1);
      }
    }
  }

  lemma {:induction false} FieldsWithin(ms: Members, d: nat, lim: Limits)
    requires MembersOk(ms) && d <= lim.maxDepth && MembersFit(ms, d, lim, true)
    ensures forall f | f in MemberFields(ms, lim) :: KeyWithin(f.key, lim) && Within(f.value, lim, lim.maxDepth - d)
    decreases ms
  {
    hide Denote, Fits, Within, ValidUtf8, StringBytes, PiecesOk;
    DenoteWithin(ms.m.v, d, lim);
    if ms.MoreMembers? {
      FieldsWithin(ms.rest, d, lim);
    }
  }

  lemma {:induction false} DenoteSize(v: Value, lim: Limits)
    requires ValueOk(v)
    ensures NodeCount(Denote(v, lim)) <= |ValueText(v)|
    ensures TextSize(Denote(v, lim)) <= |ValueText(v)|
    decreases v
  {
    hide ElementNodes, MemberFields, ElementsText, MembersText, ItemCount, FieldCount, ItemText, FieldText, ElementsOk,
      MembersOk, StringText, StringBytes, ValidUtf8, Count;
    Nothing();
    match v.core
    case Num(n) => assert n.whole != [];
    case Str(ps) => DecodedShorter(ps);
    case Arr(es) => ItemsSize(es, lim, lim.maxArrayInspect);
    case Obj(ms) => FieldsSize(ms, lim);
    case _ =>
  }

  lemma ItemsHead(item: Node, rest: seq<Node>)
    ensures ItemCount([item] + rest) == NodeCount(item) + ItemCount(rest)
    ensures ItemText([item] + rest) == TextSize(item) + ItemText(rest)
  {
    assert ([item] + rest)[1..] == rest;
  }

  lemma FieldsHead(f: Field, rest: seq<Field>)
    ensures FieldCount([f] + rest) == NodeCount(f.value) + FieldCount(rest)
    ensures FieldText([f] + rest) == |f.key| + TextSize(f.value) + FieldText(rest)
  {
    assert ([f] + rest)[1..] == rest;
  }

  lemma Nothing()
    ensures ItemCount([]) == 0 && ItemText([]) == 0 && FieldCount([]) == 0 && FieldText([]) == 0
  {
  }

  lemma {:induction false} ItemsSize(es: Elements, lim: Limits, k: nat)
    requires ElementsOk(es)
    ensures ItemCount(ElementNodes(es, lim, k)) <= |ElementsText(es)|
    ensures ItemText(ElementNodes(es, lim, k)) <= |ElementsText(es)|
    decreases es
  {
    hide Denote, ValueText, ValueOk, NodeCount, TextSize, ItemCount, ItemText;
    Nothing();
    if k > 0 {
      DenoteSize(es.v, lim);
      ItemsHead(Denote(es.v, lim), if es.LastElement? then [] else ElementNodes(es.rest, lim, k - 1));
      if es.MoreElements? {
        ItemsSize(es.rest, lim, k - 1);
      }
    }
  }

  lemma {:induction false} FieldsSize(ms: Members, lim: Limits)
    requires MembersOk(ms)
    ensures FieldCount(MemberFields(ms, lim)) <= |MembersText(ms)|
    ensures FieldText(MemberFields(ms, lim)) <= |MembersText(ms)|
    decreases ms
  {
    hide ValueText, StringText, Denote, ValueOk, NodeCount, TextSize, FieldCount, FieldText, StringBytes, ValidUtf8;
    Nothing();
    DenoteSize(ms.m.v, lim);
    DecodedShorter(ms.m.key);
    FieldsHead(Field(StringBytes(ms.m.key), Denote(ms.m.v, lim)),
      if ms.LastMember? then [] else MemberFields(ms.rest, lim));
    if ms.MoreMembers? {
      FieldsSize(ms.rest, lim);
    }
  }

  /** The document the parser returns keeps every bound, and neither its nodes nor its text
      outnumber the bytes read. */
  lemma ParsedBounds(b: seq<byte>, lim: Limits)
    requires ParseBounded(b, lim).Success?
    ensures var n := ParseBounded(b, lim).value;
      Within(n, lim, lim.maxDepth) && NodeCount(n) <= |b| <= lim.maxBytes && TextSize(n) <= |b|
  {
    hide ParseValue, Fits, Denote, ValueText;
    var doc := ParsedAccepted(b, lim);
    DenoteWithin(doc.v, 0, lim);
    DenoteSize(doc.v, lim);
  }
}
