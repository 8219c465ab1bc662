/** What the parser answers to any JSON text, within the bounds or not: the document it denotes, or the
    bound that is first exceeded in the order of the text. */
module Verdicts {
  import opened Options
  import opened Utf8
  import opened Json
  import opened ParseSpec
  import opened Grammar
  import opened Completeness

  /** The first bound exceeded in `v`, which stands inside `d` containers. */
  function Verdict(v: Value, d: nat, lim: Limits, inspected: bool): Option<Reason>
    requires ValueOk(v)
  {
    match v.core
    case Str(ps) => if |StringBytes(ps)| > lim.maxStringLen then Some(SizeExceeded) else None
    case EmptyArr(_) => if d >= lim.maxDepth then Some(DepthExceeded) else None
    case EmptyObj(_) => if d >= lim.maxDepth then Some(DepthExceeded) else None
    case Arr(es) =>
      if d >= lim.maxDepth then Some(DepthExceeded)
      else ElementsVerdict(es, d + 1, lim, if inspected then lim.maxArrayInspect else 0)
    case Obj(ms) =>
      if d >= lim.maxDepth then Some(DepthExceeded) else MembersVerdict(ms, d + 1, lim, inspected, {}, 0)
    case _ => None
  }

  /** Only the first `k` elements are inspected. */
  function ElementsVerdict(es: Elements, d: nat, lim: Limits, k: nat): Option<Reason>
    requires ElementsOk(es)
  {
    var first := Verdict(es.v, d, lim, k > 0);
    if first.Some? || es.LastElement? then first
    else ElementsVerdict(es.rest, d, lim, if k > 0 then k - 1 else 0)
  }

  /** After `count` members with the given keys. */
  function MembersVerdict(ms: Members, d: nat, lim: Limits, inspected: bool, keys: set<seq<byte>>,
                          count: nat): Option<Reason>
    requires MembersOk(ms)
  {
    var key := StringBytes(ms.m.key);
    if |key| > lim.maxKeyLen then Some(KeyLengthExceeded)
    else if inspected && key in keys then Some(DuplicateKey)
    else
      var value := Verdict(ms.m.v, d, lim, inspected);
      if value.Some? then value
      else if inspected && count + 1 > lim.maxFieldsPerObject then Some(FieldCountExceeded)
      else if ms.LastMember? then None
      else MembersVerdict(ms.rest, d, lim, inspected, keys + {key}, count + 1)
  }

  /** What a walk answers: where it ends with a value, or the verdict. */
  function Judged<T>(verdict: Option<Reason>, value: T, end: nat): Parsed<T> {
    match verdict case None => Ok(value, end) case Some(reason) => Fail(reason)
  }

  // ---- what is too long or too deep ----

  lemma StringTooLong(b: seq<byte>, p: nat, v: Value, d: nat, lim: Limits)
    requires ValueOk(v) && TextAt(b, p, ValueText(v)) && v.core.Str?
    requires |StringBytes(v.core.pieces)| > lim.maxStringLen
    ensures ParseValue(b, p, d, lim) == Fail(SizeExceeded) && SkipValue(b, p, d, lim) == Fail(SizeExceeded)
  {
    hide ParseObject, SkipObject, ParseArray, SkipArray, ScanString, Quoted;
    ValueStart(b, p, v);
    assert Bare(v) == Quoted(v.core.pieces);
    QuotedAt(b, p + |v.ws|, v.core.pieces);
  }

  lemma BareOpens(v: Value)
    requires ValueOk(v) && Bare(v) != []
    ensures v.core.EmptyArr? || v.core.Arr? ==> Bare(v)[0] == LBRACKET
    ensures v.core.EmptyObj? || v.core.Obj? ==> Bare(v)[0] == LBRACE
  {
    hide ElementsText, MembersText;
  }

  lemma TooDeep(b: seq<byte>, p: nat, v: Value, d: nat, lim: Limits)
    requires ValueOk(v) && TextAt(b, p, ValueText(v)) && d >= lim.maxDepth
    requires v.core.EmptyArr? || v.core.EmptyObj? || v.core.Arr? || v.core.Obj?
    ensures ParseValue(b, p, d, lim) == Fail(DepthExceeded) && SkipValue(b, p, d, lim) == Fail(DepthExceeded)
  {
    hide ParseElements, ParseMembers, SkipElements, SkipMembers, ParseString, ParseNumber, SkipLiteral, SkipWs, TextAt,
      Bare;
    ValueStart(b, p, v);
    BareOpens(v);
  }

  lemma KeyTooLong(b: seq<byte>, p: nat, ms: Members, lim: Limits)
    requires MembersOk(ms) && TextAt(b, p, MembersText(ms))
    requires |StringBytes(ms.m.key)| > lim.maxKeyLen
    ensures p <= |b| && ParseMemberKey(b, p, lim) == Fail(KeyLengthExceeded)
  {
    hide *;
    MemberStart(b, p, ms);
    AfterBlankIs(ms);
    InText(b, p, MembersText(ms));
    var q := p + |ms.m.ws|;
    SplitAt(b, q, Quoted(ms.m.key), ms.m.colonWs + ([COLON] + AfterColon(ms)));
    QuotedAt(b, q, ms.m.key);
    LongKeyStep(b, p, lim, StringBytes(ms.m.key), q + |Quoted(ms.m.key)|);
  }

  lemma LongKeyStep(b: seq<byte>, p: nat, lim: Limits, k: seq<byte>, e: nat)
    requires p <= |b| && Peek(b, SkipWs(b, p), QUOTE) && ScanString(b, SkipWs(b, p) + 1, []) == Ok(k, e)
    requires |k| > lim.maxKeyLen
    ensures ParseMemberKey(b, p, lim) == Fail(KeyLengthExceeded)
  {
    hide ScanString, SkipWs;
  }

  // ---- the walks ----

  lemma VerdictIs(v: Value, d: nat, lim: Limits, inspected: bool)
    requires ValueOk(v)
    ensures v.core.Arr? ==> ElementsOk(v.core.elements)
    ensures v.core.Obj? ==> MembersOk(v.core.members)
    ensures d >= lim.maxDepth && (v.core.EmptyArr? || v.core.EmptyObj? || v.core.Arr? || v.core.Obj?) ==>
      Verdict(v, d, lim, inspected) == Some(DepthExceeded)
    ensures d < lim.maxDepth && v.core.Arr? ==>
      Verdict(v, d, lim, inspected)
        == ElementsVerdict(v.core.elements, d + 1, lim, if inspected then lim.maxArrayInspect else 0)
    ensures d < lim.maxDepth && v.core.Obj? ==>
      Verdict(v, d, lim, inspected) == MembersVerdict(v.core.members, d + 1, lim, inspected, {}, 0)
    ensures v.core.Str? ==>
      PiecesOk(v.core.pieces)
      && Verdict(v, d, lim, inspected) ==
        if |StringBytes(v.core.pieces)| > lim.maxStringLen then Some(SizeExceeded) else None
    ensures !v.core.Str? && !v.core.Arr? && !v.core.Obj? && d < lim.maxDepth ==> Verdict(v, d, lim, inspected).None?
    ensures !v.core.Str? && !v.core.Arr? && !v.core.Obj? && !v.core.EmptyArr? && !v.core.EmptyObj? ==>
      Verdict(v, d, lim, inspected).None?
  {
    hide ElementsVerdict, MembersVerdict, ElementsOk, MembersOk, StringBytes, NumberOk;
  }

  lemma {:induction false} SkipJudged(b: seq<byte>, p: nat, v: Value, d: nat, lim: Limits)
    requires ValueOk(v) && TextAt(b, p, ValueText(v)) && (v.core.Num? ==> NumberEnds(b, p + |ValueText(v)|))
    ensures SkipValue(b, p, d, lim) == Judged(Verdict(v, d, lim, false), (), p + |ValueText(v)|)
    decreases v
  {
    hide *;
    VerdictIs(v, d, lim, false);
    JudgedIs(Verdict(v, d, lim, false), (), p + |ValueText(v)|);
    if d >= lim.maxDepth && (v.core.EmptyArr? || v.core.EmptyObj? || v.core.Arr? || v.core.Obj?) {
      TooDeep(b, p, v, d, lim);
    } else if v.core.Arr? {
      ArrayAt(b, p, v, d, lim);
      SkipElementsJudged(b, p + |v.ws| + 1, v.core.elements, d + 1, lim);
    } else if v.core.Obj? {
      ObjectAt(b, p, v, d, lim);
      SkipMembersJudged(b, p + |v.ws| + 1, v.core.members, d + 1, lim, {}, 0);
    } else if v.core.Str? && |StringBytes(v.core.pieces)| > lim.maxStringLen {
      StringTooLong(b, p, v, d, lim);
    } else {
      ScalarAt(b, p, v, d, lim);
    }
  }

  lemma JudgedIs<T>(verdict: Option<Reason>, value: T, end: nat)
    ensures verdict.None? ==> Judged(verdict, value, end) == Ok(value, end)
    ensures verdict.Some? ==> Judged(verdict, value, end) == Fail(verdict.value)
  {
  }

  lemma {:induction false} SkipElementsJudged(b: seq<byte>, p: nat, es: Elements, d: nat, lim: Limits)
    requires ElementsOk(es) && TextAt(b, p, ElementsText(es))
    ensures SkipElements(b, p, d, lim) == Judged(ElementsVerdict(es, d, lim, 0), (), p + |ElementsText(es)|)
    decreases es
  {
    hide SkipValue, ValueText, ElementsText, Separator, TextAt, NumberEnds, ValueOk, Verdict;
    ElementsAtParts(b, p, es);
    SkipJudged(b, p, es.v, d, lim);
    if es.MoreElements? {
      SkipElementsJudged(b, p + |ValueText(es.v)| + |es.ws| + 1, es.rest, d, lim);
    }
  }

  /** One member of a skipped object. */
  lemma {:induction false} SkipMembersRound(b: seq<byte>, p: nat, d: nat, lim: Limits)
    requires p <= |b|
    ensures var all := SkipMembers(b, p, d, lim);
      match ParseMemberKey(b, p, lim)
      case Fail(reason) => all == Fail(reason)
      case Ok(_, q1) => match ExpectColon(b, q1)
        case Fail(reason) => all == Fail(reason)
        case Ok(_, q2) => match SkipValue(b, q2, d, lim)
          case Fail(reason) => all == Fail(reason)
          case Ok(_, q3) => match Separator(b, q3, RBRACE)
            case Fail(reason) => all == Fail(reason)
            case Ok(more, q4) => all == if more then SkipMembers(b, q4, d, lim) else Ok((), q4)
  {
    hide ParseMemberKey, ExpectColon, SkipValue, Separator;
  }

  lemma MembersVerdictIs(ms: Members, d: nat, lim: Limits, inspected: bool, keys: set<seq<byte>>, count: nat)
    requires MembersOk(ms)
    ensures PiecesOk(ms.m.key) && ValueOk(ms.m.v) && (ms.MoreMembers? ==> MembersOk(ms.rest))
    ensures var key := StringBytes(ms.m.key); var all := MembersVerdict(ms, d, lim, inspected, keys, count);
      if |key| > lim.maxKeyLen then all == Some(KeyLengthExceeded)
      else if inspected && key in keys then all == Some(DuplicateKey)
      else if Verdict(ms.m.v, d, lim, inspected).Some? then all == Verdict(ms.m.v, d, lim, inspected)
      else if inspected && count + 1 > lim.maxFieldsPerObject then all == Some(FieldCountExceeded)
      else if ms.LastMember? then all == None
      else all == MembersVerdict(ms.rest, d, lim, inspected, keys + {key}, count + 1)
  {
    hide Verdict, StringBytes, ValueOk;
  }

  lemma {:induction false} SkipMembersJudged(b: seq<byte>, p: nat, ms: Members, d: nat, lim: Limits,
                                             keys: set<seq<byte>>, count: nat)
    requires MembersOk(ms) && TextAt(b, p, MembersText(ms))
    ensures SkipMembers(b, p, d, lim)
         == Judged(MembersVerdict(ms, d, lim, false, keys, count), (), p + |MembersText(ms)|)
    decreases ms
  {
    hide *;
    InText(b, p, MembersText(ms));
    MembersVerdictIs(ms, d, lim, false, keys, count);
    JudgedIs(MembersVerdict(ms, d, lim, false, keys, count), (), p + |MembersText(ms)|);
    SkipMembersRound(b, p, d, lim);
    if |StringBytes(ms.m.key)| > lim.maxKeyLen {
      KeyTooLong(b, p, ms, lim);
    } else {
      KeyAt(b, p, ms, lim);
      var q := p + |ms.m.ws| + |Quoted(ms.m.key)|;
      ColonAt(b, q, ms);
      var q2 := q + |ms.m.colonWs| + 1;
      MemberEndAt(b, q2, ms);
      SkipJudged(b, q2, ms.m.v, d, lim);
      JudgedIs(Verdict(ms.m.v, d, lim, false), (), q2 + |ValueText(ms.m.v)|);
      if ms.MoreMembers? {
        var key := StringBytes(ms.m.key);
        SkipMembersJudged(b, q2 + |ValueText(ms.m.v)| + |ms.m.endWs| + 1, ms.rest, d, lim, keys + {key}, count + 1);
      }
    }
  }

  lemma ElementsVerdictIs(es: Elements, d: nat, lim: Limits, k: nat)
    requires ElementsOk(es)
    ensures ValueOk(es.v) && (es.MoreElements? ==> ElementsOk(es.rest))
    ensures var first := Verdict(es.v, d, lim, k > 0); var all := ElementsVerdict(es, d, lim, k);
      if first.Some? || es.LastElement? then all == first
      else all == ElementsVerdict(es.rest, d, lim, if k > 0 then k - 1 else 0)
  {
    hide Verdict, ValueOk;
  }

  lemma ElementNodesAre(es: Elements, lim: Limits, k: nat, items: seq<Node>)
    requires ElementsOk(es)
    ensures Count(es) == if es.LastElement? then 1 else 1 + Count(es.rest)
    ensures k == 0 ==>
      items + ElementNodes(es, lim, k) == items && (es.MoreElements? ==> items + ElementNodes(es.rest, lim, 0) == items)
    ensures k > 0 && es.LastElement? ==> items + [Denote(es.v, lim)] == items + ElementNodes(es, lim, k)
    ensures k > 0 && es.MoreElements? ==>
      items + [Denote(es.v, lim)] + ElementNodes(es.rest, lim, k - 1) == items + ElementNodes(es, lim, k)
  {
    hide ValueOk, Denote;
  }

  /** The parser's answer to the text of any value. */
  lemma {:induction false} ParseJudged(b: seq<byte>, p: nat, v: Value, d: nat, lim: Limits)
    requires ValueOk(v) && TextAt(b, p, ValueText(v)) && (v.core.Num? ==> NumberEnds(b, p + |ValueText(v)|))
    ensures ParseValue(b, p, d, lim) == Judged(Verdict(v, d, lim, true), Denote(v, lim), p + |ValueText(v)|)
    decreases v
  {
    hide *;
    VerdictIs(v, d, lim, true);
    JudgedIs(Verdict(v, d, lim, true), Denote(v, lim), p + |ValueText(v)|);
    if d >= lim.maxDepth && (v.core.EmptyArr? || v.core.EmptyObj? || v.core.Arr? || v.core.Obj?) {
      TooDeep(b, p, v, d, lim);
    } else if v.core.Arr? {
      ArrayAt(b, p, v, d, lim);
      DenoteArr(v, lim);
      ElementsJudged(b, p + |v.ws| + 1, v.core.elements, d + 1, lim, [], false);
    } else if v.core.Obj? {
      ObjectAt(b, p, v, d, lim);
      DenoteObj(v, lim);
      NoKeys();
      MembersJudged(b, p + |v.ws| + 1, v.core.members, d + 1, lim, []);
    } else if v.core.Str? && |StringBytes(v.core.pieces)| > lim.maxStringLen {
      StringTooLong(b, p, v, d, lim);
    } else {
      ScalarAt(b, p, v, d, lim);
    }
  }

  lemma NoKeys()
    ensures Keys([]) == {} && Distinct([])
  {
  }

  lemma KeysSnoc(fields: seq<Field>, f: Field)
    ensures Keys(fields + [f]) == Keys(fields) + {f.key}
  {
    assert f in fields + [f];
    assert forall g :: g in fields + [f] <==> g in fields || g == f;
  }

  lemma {:induction false} ElementsJudged(
    b: seq<byte>, p: nat, es: Elements, d: nat, lim: Limits, items: seq<Node>, truncated: bool)
    requires |items| <= lim.maxArrayInspect && ElementsOk(es) && TextAt(b, p, ElementsText(es))
    ensures var k := lim.maxArrayInspect - |items|;
      ParseElements(b, p, d, lim, items, truncated)
      == Judged(ElementsVerdict(es, d, lim, k), Array(items + ElementNodes(es, lim, k), truncated || Count(es) > k),
                p + |ElementsText(es)|)
    decreases es
  {
    hide *;
    var k := lim.maxArrayInspect - |items|;
    ElementsAtParts(b, p, es);
    InText(b, p, ElementsText(es));
    ElementsVerdictIs(es, d, lim, k);
    ElementNodesAre(es, lim, k, items);
    ElementsRound(b, p, d, lim, items, truncated);
    var item := Denote(es.v, lim);
    var q := p + |ValueText(es.v)|;
    JudgedIs(ElementsVerdict(es, d, lim, k), Array(items + ElementNodes(es, lim, k), truncated || Count(es) > k),
             p + |ElementsText(es)|);
    if k > 0 {
      ParseJudged(b, p, es.v, d, lim);
      JudgedIs(Verdict(es.v, d, lim, true), item, q);
      if es.MoreElements? {
        ElementsJudged(b, q + |es.ws| + 1, es.rest, d, lim, items + [item], truncated);
      }
    } else {
      SkipJudged(b, p, es.v, d, lim);
      JudgedIs(Verdict(es.v, d, lim, false), (), q);
      if es.MoreElements? {
        ElementsJudged(b, q + |es.ws| + 1, es.rest, d, lim, items, true);
      }
    }
  }

  lemma MemberFieldsAre(ms: Members, lim: Limits, fields: seq<Field>)
    requires MembersOk(ms)
    ensures PiecesOk(ms.m.key) && ValueOk(ms.m.v) && (ms.MoreMembers? ==> MembersOk(ms.rest))
    ensures var f := Field(StringBytes(ms.m.key), Denote(ms.m.v, lim));
      if ms.LastMember? then fields + MemberFields(ms, lim) == fields + [f]
      else fields + MemberFields(ms, lim) == fields + [f] + MemberFields(ms.rest, lim)
  {
    hide ValueOk, Denote, StringBytes, Blank, ValidUtf8;
  }

  lemma {:induction false} MembersJudged(b: seq<byte>, p: nat, ms: Members, d: nat, lim: Limits, fields: seq<Field>)
    requires MembersOk(ms) && TextAt(b, p, MembersText(ms))
    ensures ParseMembers(b, p, d, lim, fields)
         == Judged(MembersVerdict(ms, d, lim, true, Keys(fields), |fields|), Object(fields + MemberFields(ms, lim)),
                   p + |MembersText(ms)|)
    decreases ms
  {
    hide *;
    InText(b, p, MembersText(ms));
    var keys := Keys(fields);
    MembersVerdictIs(ms, d, lim, true, keys, |fields|);
    MemberFieldsAre(ms, lim, fields);
    JudgedIs(MembersVerdict(ms, d, lim, true, keys, |fields|), Object(fields + MemberFields(ms, lim)),
             p + |MembersText(ms)|);
    MembersRound(b, p, d, lim, fields);
    if |StringBytes(ms.m.key)| > lim.maxKeyLen {
      KeyTooLong(b, p, ms, lim);
    } else {
      KeyAt(b, p, ms, lim);
      var q := p + |ms.m.ws| + |Quoted(ms.m.key)|;
      ColonAt(b, q, ms);
      var q2 := q + |ms.m.colonWs| + 1;
      MemberEndAt(b, q2, ms);
      ParseJudged(b, q2, ms.m.v, d, lim);
      var f := Field(StringBytes(ms.m.key), Denote(ms.m.v, lim));
      JudgedIs(Verdict(ms.m.v, d, lim, true), f.value, q2 + |ValueText(ms.m.v)|);
      if ms.MoreMembers? {
        KeysSnoc(fields, f);
        MembersJudged(b, q2 + |ValueText(ms.m.v)| + |ms.m.endWs| + 1, ms.rest, d, lim, fields + [f]);
      }
    }
  }

  // ---- whole texts ----

  lemma DocumentParts(doc: Document)
    requires DocumentOk(doc)
    ensures TextAt(DocumentText(doc), 0, ValueText(doc.v)) && TextAt(DocumentText(doc), |ValueText(doc.v)|, doc.ws)
    ensures |DocumentText(doc)| == |ValueText(doc.v)| + |doc.ws|
  {
    hide ValueText;
    var b := DocumentText(doc);
    assert forall i | 0 <= i < |doc.ws| :: doc.ws[i] == b[|ValueText(doc.v)| + i];
  }

  lemma EndsNumber(b: seq<byte>, q: nat, ws: seq<byte>)
    requires TextAt(b, q, ws) && Blank(ws) && |b| == q + |ws|
    ensures NumberEnds(b, q) && SkipWs(b, q) == |b|
  {
    WsEnd(b, q, ws);
    if ws != [] {
      FirstAt(b, q, ws);
    }
  }

  /** Any JSON text at all, blanks after it included, is answered by its size, and then by its verdict. */
  lemma {:induction false} AnswersText(doc: Document, lim: Limits)
    requires DocumentOk(doc)
    ensures ParseBounded(DocumentText(doc), lim) ==
      if |DocumentText(doc)| > lim.maxBytes then Failure(SizeExceeded)
      else match Verdict(doc.v, 0, lim, true) case None => Success(Denote(doc.v, lim)) case Some(r) => Failure(r)
  {
    hide ValueText, ParseValue, Verdict, Denote, TextAt, NumberEnds, DocumentText;
    var b := DocumentText(doc);
    DocumentParts(doc);
    EndsNumber(b, |ValueText(doc.v)|, doc.ws);
    ParseJudged(b, 0, doc.v, 0, lim);
  }

  // ---- one verdict of none and the bounds ----

  lemma {:induction false} NoVerdictFits(v: Value, d: nat, lim: Limits, inspected: bool)
    requires ValueOk(v)
    ensures Verdict(v, d, lim, inspected).None? <==> Fits(v, d, lim, inspected)
    decreases v
  {
    hide StringBytes, Distinct, MemberFields;
    match v.core
    case Arr(es) =>
      ElementsNoVerdict(es, d + 1, lim, if inspected then lim.maxArrayInspect else 0);
    case Obj(ms) =>
      NoKeys();
      MembersNoVerdict(ms, d + 1, lim, inspected, []);
      assert [] + MemberFields(ms, lim) == MemberFields(ms, lim);
    case _ =>
  }

  lemma {:induction false} ElementsNoVerdict(es: Elements, d: nat, lim: Limits, k: nat)
    requires ElementsOk(es)
    ensures ElementsVerdict(es, d, lim, k).None? <==> ElementsFit(es, d, lim, k)
    decreases es
  {
    hide Verdict, Fits;
    NoVerdictFits(es.v, d, lim, k > 0);
    if es.MoreElements? {
      ElementsNoVerdict(es.rest, d, lim, if k > 0 then k - 1 else 0);
    }
  }

  lemma DistinctSplit(fields: seq<Field>, f: Field, rest: seq<Field>)
    ensures Distinct(fields + [f] + rest) ==> Distinct(fields + [f]) && f.key !in Keys(fields)
    ensures Distinct(fields) && f.key !in Keys(fields) ==> Distinct(fields + [f])
  {
    var all := fields + [f] + rest;
    assert all[|fields|] == f && forall i | 0 <= i < |fields| :: all[i] == fields[i];
    assert forall i | 0 <= i < |fields| + 1 :: all[i] == (fields + [f])[i];
  }

  lemma {:induction false} MembersNoVerdict(ms: Members, d: nat, lim: Limits, inspected: bool, fields: seq<Field>)
    requires MembersOk(ms) && (inspected ==> Distinct(fields))
    ensures MembersVerdict(ms, d, lim, inspected, Keys(fields), |fields|).None? <==>
      && MembersFit(ms, d, lim, inspected)
      && (inspected ==>
            && |fields + MemberFields(ms, lim)| <= lim.maxFieldsPerObject
            && Distinct(fields + MemberFields(ms, lim)))
    decreases ms
  {
    hide Verdict, Fits, StringBytes, Distinct, MemberFields, Keys;
    NoVerdictFits(ms.m.v, d, lim, inspected);
    MemberFieldsAre(ms, lim, fields);
    var f := Field(StringBytes(ms.m.key), Denote(ms.m.v, lim));
    var rest := if ms.LastMember? then [] else MemberFields(ms.rest, lim);
    DistinctSplit(fields, f, rest);
    assert fields + [f] + [] == fields + [f];
    KeysSnoc(fields, f);
    if ms.MoreMembers? && (inspected ==> f.key !in Keys(fields)) {
      MembersNoVerdict(ms.rest, d, lim, inspected, fields + [f]);
    }
  }
}
