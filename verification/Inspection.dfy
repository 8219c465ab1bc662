/** What the array inspection bound decides: an accepted input stays accepted under a lower bound, and
    under a higher one exactly when the objects that come to be inspected bear inspection. */
module Inspection {
  import opened Utf8
  import opened Json
  import opened ParseSpec
  import opened Walkers
  import opened Grammar
  import opened Completeness
  import opened Recognition

  function MemberKeys(ms: Members): (keys: seq<seq<byte>>)
    requires MembersOk(ms)
  {
    [StringBytes(ms.m.key)] + if ms.LastMember? then [] else MemberKeys(ms.rest)
  }

  /** What an inspected object is held to, and a skipped one is not. */
  predicate Orderly(ms: Members, lim: Limits)
    requires MembersOk(ms)
  {
    var keys := MemberKeys(ms);
    |keys| <= lim.maxFieldsPerObject && forall i, j | 0 <= i < j < |keys| :: keys[i] != keys[j]
  }

  // ---- which objects are inspected ----

  /** The objects met when the first `k` elements of every array are inspected. */
  function Inspected(v: Value, k: nat): (r: set<Members>)
    requires ValueOk(v)
    ensures forall ms | ms in r :: MembersOk(ms)
  {
    match v.core
    case Arr(es) => InspectedElements(es, k, k)
    case Obj(ms) => {ms} + InspectedMembers(ms, k)
    case _ => {}
  }

  function InspectedElements(es: Elements, k: nat, left: nat): (r: set<Members>)
    requires ElementsOk(es)
    ensures forall ms | ms in r :: MembersOk(ms)
  {
    if left == 0 then {}
    else Inspected(es.v, k) + if es.LastElement? then {} else InspectedElements(es.rest, k, left - 1)
  }

  function InspectedMembers(ms: Members, k: nat): (r: set<Members>)
    requires MembersOk(ms)
    ensures forall x | x in r :: MembersOk(x)
  {
    Inspected(ms.m.v, k) + if ms.LastMember? then {} else InspectedMembers(ms.rest, k)
  }

  ghost predicate AllOrderly(objects: set<Members>, lim: Limits) {
    forall ms | ms in objects :: MembersOk(ms) && Orderly(ms, lim)
  }

  lemma {:induction false} KeysOfFields(ms: Members, lim: Limits)
    requires MembersOk(ms)
    ensures var fs, keys := MemberFields(ms, lim), MemberKeys(ms);
      |fs| == |keys| && forall i | 0 <= i < |fs| :: fs[i].key == keys[i]
    decreases ms
  {
    hide Denote, StringBytes, ValueOk, StringOk;
    if ms.MoreMembers? {
      KeysOfFields(ms.rest, lim);
    }
  }

  lemma OrderlyFields(ms: Members, lim: Limits)
    requires MembersOk(ms)
    ensures Orderly(ms, lim) <==> |MemberFields(ms, lim)| <= lim.maxFieldsPerObject && Distinct(MemberFields(ms, lim))
  {
    hide MemberFields, MemberKeys, MembersOk;
    KeysOfFields(ms, lim);
  }

  /** A value fits when it fits unlooked at and every inspected object is orderly. */
  lemma {:induction false} FitsExactly(v: Value, d: nat, lim: Limits)
    requires ValueOk(v)
    ensures Fits(v, d, lim, true) <==> Fits(v, d, lim, false) && AllOrderly(Inspected(v, lim.maxArrayInspect), lim)
    decreases v
  {
    hide MemberFields, Orderly, Distinct, StringBytes;
    match v.core
    case Arr(es) => ElementsFitExactly(es, d + 1, lim, lim.maxArrayInspect);
    case Obj(ms) =>
      MembersFitExactly(ms, d + 1, lim);
      OrderlyFields(ms, lim);
    case _ =>
  }

  lemma {:induction false} ElementsFitExactly(es: Elements, d: nat, lim: Limits, left: nat)
    requires ElementsOk(es)
    ensures ElementsFit(es, d, lim, left)
       <==> ElementsFit(es, d, lim, 0) && AllOrderly(InspectedElements(es, lim.maxArrayInspect, left), lim)
    decreases es
  {
    hide Fits, Orderly, Inspected;
    if left > 0 {
      FitsExactly(es.v, d, lim);
      if es.MoreElements? {
        ElementsFitExactly(es.rest, d, lim, left - 1);
      }
    }
  }

  lemma {:induction false} MembersFitExactly(ms: Members, d: nat, lim: Limits)
    requires MembersOk(ms)
    ensures MembersFit(ms, d, lim, true)
       <==> MembersFit(ms, d, lim, false) && AllOrderly(InspectedMembers(ms, lim.maxArrayInspect), lim)
    decreases ms
  {
    hide Fits, Orderly, Inspected, StringBytes;
    FitsExactly(ms.m.v, d, lim);
    if ms.MoreMembers? {
      MembersFitExactly(ms.rest, d, lim);
    }
  }

  lemma {:induction false} InspectedGrows(v: Value, k: nat, k': nat)
    requires ValueOk(v) && k <= k'
    ensures Inspected(v, k) <= Inspected(v, k')
    decreases v
  {
    match v.core
    case Arr(es) => ElementsGrow(es, k, k', k, k');
    case Obj(ms) => MembersGrow(ms, k, k');
    case _ =>
  }

  lemma {:induction false} ElementsGrow(es: Elements, k: nat, k': nat, left: nat, left': nat)
    requires ElementsOk(es) && k <= k' && left <= left'
    ensures InspectedElements(es, k, left) <= InspectedElements(es, k', left')
    decreases es
  {
    if left > 0 {
      InspectedGrows(es.v, k, k');
      if es.MoreElements? {
        ElementsGrow(es.rest, k, k', left - 1, left' - 1);
      }
    }
  }

  lemma {:induction false} MembersGrow(ms: Members, k: nat, k': nat)
    requires MembersOk(ms) && k <= k'
    ensures InspectedMembers(ms, k) <= InspectedMembers(ms, k')
    decreases ms
  {
    InspectedGrows(ms.m.v, k, k');
    if ms.MoreMembers? {
      MembersGrow(ms.rest, k, k');
    }
  }

  // ---- raising the bound ----

  /** The objects that only the higher bound inspects. */
  function NewlyInspected(v: Value, k: nat, k': nat): set<Members>
    requires ValueOk(v)
  {
    Inspected(v, k') - Inspected(v, k)
  }

  /** A value that fits still fits under a higher bound exactly when the newly inspected objects are orderly. */
  lemma FitsRaised(v: Value, d: nat, lim: Limits, k: nat)
    requires ValueOk(v) && Fits(v, d, lim, true) && lim.maxArrayInspect <= k
    ensures Fits(v, d, lim.(maxArrayInspect := k), true) <==> AllOrderly(NewlyInspected(v, lim.maxArrayInspect, k), lim)
  {
    hide Fits, Inspected, MembersOk, ValueOk, MemberKeys;
    var lim' := lim.(maxArrayInspect := k);
    FitsExactly(v, d, lim);
    FitsExactly(v, d, lim');
    FitsSkipped(v, d, lim, k);
    InspectedGrows(v, lim.maxArrayInspect, k);
    forall ms | ms in Inspected(v, k) && MembersOk(ms) ensures Orderly(ms, lim) <==> Orderly(ms, lim') {
    }
  }

  lemma {:induction false} SkipIgnoresInspection(b: seq<byte>, p: nat, d: nat, lim: Limits, k: nat)
    requires p <= |b|
    ensures SkipValue(b, p, d, lim.(maxArrayInspect := k)) == SkipValue(b, p, d, lim)
    decreases |b| - p, 2
  {
    hide ParseString, ParseNumber, SkipLiteral, SkipMembers, SkipElements;
    var q := SkipWs(b, p);
    if q < |b| && d + 1 <= lim.maxDepth {
      var q' := SkipWs(b, q + 1);
      if b[q] == LBRACE && !Peek(b, q', RBRACE) {
        SkipMembersIgnore(b, q', d + 1, lim, k);
      } else if b[q] == LBRACKET && !Peek(b, q', RBRACKET) {
        SkipElementsIgnore(b, q', d + 1, lim, k);
      }
    }
    StringIgnores(b, q, lim, k);
  }

  lemma StringIgnores(b: seq<byte>, p: nat, lim: Limits, k: nat)
    ensures p < |b| ==> ParseString(b, p, lim.(maxArrayInspect := k)) == ParseString(b, p, lim)
    ensures p <= |b| ==> ParseMemberKey(b, p, lim.(maxArrayInspect := k)) == ParseMemberKey(b, p, lim)
  {
    hide ScanString;
  }

  lemma {:induction false} SkipMembersIgnore(b: seq<byte>, p: nat, d: nat, lim: Limits, k: nat)
    requires p <= |b|
    ensures SkipMembers(b, p, d, lim.(maxArrayInspect := k)) == SkipMembers(b, p, d, lim)
    decreases |b| - p, 0
  {
    hide SkipValue, ParseMemberKey, ExpectColon, Separator;
    StringIgnores(b, p, lim, k);
    var key := ParseMemberKey(b, p, lim);
    if key.Ok? {
      var c := ExpectColon(b, key.pos);
      if c.Ok? {
        SkipIgnoresInspection(b, c.pos, d, lim, k);
        var v := SkipValue(b, c.pos, d, lim);
        if v.Ok? {
          var s := Separator(b, v.pos, RBRACE);
          if s.Ok? && s.value {
            SkipMembersIgnore(b, s.pos, d, lim, k);
          }
        }
      }
    }
  }

  lemma {:induction false} SkipElementsIgnore(b: seq<byte>, p: nat, d: nat, lim: Limits, k: nat)
    requires p <= |b|
    ensures SkipElements(b, p, d, lim.(maxArrayInspect := k)) == SkipElements(b, p, d, lim)
    decreases |b| - p, 3
  {
    hide SkipValue, Separator;
    SkipIgnoresInspection(b, p, d, lim, k);
    var v := SkipValue(b, p, d, lim);
    if v.Ok? {
      var s := Separator(b, v.pos, RBRACKET);
      if s.Ok? && s.value {
        SkipElementsIgnore(b, s.pos, d, lim, k);
      }
    }
  }

  /** Whatever the new bound, only the checks of inspected objects can reject what was accepted. */
  lemma OnlyObjectChecks(b: seq<byte>, lim: Limits, k: nat)
    requires ParseBounded(b, lim).Success?
    ensures var r := ParseBounded(b, lim.(maxArrayInspect := k));
      r.Success? || r.reason == DuplicateKey || r.reason == FieldCountExceeded
  {
    hide ParseValue, SkipValue;
    SkipSimulatesParse(b, 0, 0, lim);
    SkipSimulatesParse(b, 0, 0, lim.(maxArrayInspect := k));
    SkipIgnoresInspection(b, 0, 0, lim, k);
  }

  // ---- all trees of one text agree ----

  /** What the first bytes tell about a value's kind. */
  lemma KindAt(b: seq<byte>, p: nat, v: Value)
    requires ValueOk(v) && TextAt(b, p, ValueText(v))
    ensures SkipWs(b, p) == p + |v.ws| < |b|
    ensures var q := p + |v.ws|; var r := SkipWs(b, q + 1);
      match v.core
      case Obj(_) => b[q] == LBRACE && Peek(b, r, QUOTE)
      case EmptyObj(_) => b[q] == LBRACE && Peek(b, r, RBRACE)
      case Arr(_) => b[q] == LBRACKET && !Peek(b, r, RBRACKET)
      case EmptyArr(_) => b[q] == LBRACKET && Peek(b, r, RBRACKET)
      case _ => b[q] != LBRACE && b[q] != LBRACKET
  {
    hide *;
    ValueStart(b, p, v);
    var q := p + |v.ws|;
    match v.core
    case Obj(ms) =>
      BareContainer(v);
      SplitAt(b, q, [LBRACE], MembersText(ms));
      MemberStart(b, q + 1, ms);
    case EmptyObj(ws) =>
      BareContainer(v);
      EmptyBare(v);
      SplitAt(b, q, [LBRACE], ws + ([RBRACE] + []));
      BlankClose(b, q + 1, ws, RBRACE);
    case Arr(es) =>
      BareContainer(v);
      ElementsStart(b, q, es);
      NotPeeked(b, SkipWs(b, q + 1), RBRACKET);
    case EmptyArr(ws) =>
      BareContainer(v);
      EmptyBare(v);
      SplitAt(b, q, [LBRACKET], ws + ([RBRACKET] + []));
      BlankClose(b, q + 1, ws, RBRACKET);
    case _ => BareScalar(v);
  }

  lemma NotPeeked(b: seq<byte>, p: nat, c: byte)
    requires p < |b| && b[p] != c
    ensures !Peek(b, p, c)
  {
  }

  lemma BareContainer(v: Value)
    requires ValueOk(v)
    ensures v.core.Obj? ==> MembersOk(v.core.members) && Bare(v) == [LBRACE] + MembersText(v.core.members)
    ensures v.core.Arr? ==> ElementsOk(v.core.elements) && Bare(v) == [LBRACKET] + ElementsText(v.core.elements)
    ensures v.core.EmptyObj? || v.core.EmptyArr? ==> Blank(v.core.ws)
  {
    hide MembersText, ElementsText, MembersOk, ElementsOk, Blank;
  }

  lemma BlankClose(b: seq<byte>, p: nat, ws: seq<byte>, close: byte)
    requires TextAt(b, p, ws + ([close] + [])) && Blank(ws) && (close == RBRACE || close == RBRACKET)
    ensures Peek(b, SkipWs(b, p), close)
  {
    hide TextAt, Blank, SkipWs;
    BlankThen(b, p, ws, close, []);
  }

  lemma BareScalar(v: Value)
    requires ValueOk(v) && Bare(v) != [] && !v.core.Obj? && !v.core.EmptyObj? && !v.core.Arr? && !v.core.EmptyArr?
    ensures Bare(v)[0] != LBRACE && Bare(v)[0] != LBRACKET
  {
    if v.core.Num? {
      assert Bare(v) == NumText(v.core.n);
      assert v.core.n.whole[0] == ZERO || IsDigit(v.core.n.whole[0]);
    }
  }

  /** `v` is spelled at `p`, and whatever follows it does not lengthen it. */
  ghost predicate SpelledAt(b: seq<byte>, p: nat, v: Value, d: nat, lim: Limits) {
    ValueOk(v) && TextAt(b, p, ValueText(v)) && Fits(v, d, lim, false)
      && (v.core.Num? ==> NumberEnds(b, p + |ValueText(v)|))
  }

  /** Two trees of one text inspect objects with the same keys, so if those of one bear inspection, so do
      those of the other. */
  lemma {:induction false} SameInspected(b: seq<byte>, p: nat, v: Value, w: Value, d: nat, lim: Limits, k: nat)
    requires SpelledAt(b, p, v, d, lim) && SpelledAt(b, p, w, d, lim) && AllOrderly(Inspected(v, k), lim)
    ensures AllOrderly(Inspected(w, k), lim)
    decreases v
  {
    hide *;
    SpelledIs(b, p, v, d, lim);
    SpelledIs(b, p, w, d, lim);
    KindAt(b, p, v);
    KindAt(b, p, w);
    BytesDiffer();
    SamePeek(b, SkipWs(b, SkipWs(b, p) + 1), QUOTE, RBRACE);
    InspectedIs(v, k);
    InspectedIs(w, k);
    Inside(v, d, lim, false);
    Inside(w, d, lim, false);
    if v.core.Arr? && w.core.Arr? {
      ArrayAt(b, p, v, d, lim);
      ArrayAt(b, p, w, d, lim);
      SameElements(b, p + |v.ws| + 1, v.core.elements, w.core.elements, d + 1, lim, k, k);
    } else if v.core.Obj? && w.core.Obj? {
      var ms, ns := v.core.members, w.core.members;
      ObjectAt(b, p, v, d, lim);
      ObjectAt(b, p, w, d, lim);
      OrderlySplit(ms, k, lim);
      SameMembers(b, p + |v.ws| + 1, ms, ns, d + 1, lim, k);
      OrderlySplit(ns, k, lim);
    } else {
      NoneOrderly(lim);
    }
  }

  lemma SpelledIs(b: seq<byte>, p: nat, v: Value, d: nat, lim: Limits)
    ensures SpelledAt(b, p, v, d, lim) <==>
      ValueOk(v) && TextAt(b, p, ValueText(v)) && Fits(v, d, lim, false)
        && (v.core.Num? ==> NumberEnds(b, p + |ValueText(v)|))
  {
    hide ValueOk, TextAt, ValueText, Fits, NumberEnds;
  }

  lemma BytesDiffer()
    ensures QUOTE != RBRACE && LBRACE != LBRACKET
  {
  }

  lemma NoneOrderly(lim: Limits)
    ensures AllOrderly({}, lim)
  {
  }

  lemma SamePeek(b: seq<byte>, p: nat, x: byte, y: byte)
    requires x != y
    ensures !(Peek(b, p, x) && Peek(b, p, y))
  {
  }

  lemma InspectedIs(v: Value, k: nat)
    requires ValueOk(v)
    ensures v.core.Arr? ==> ElementsOk(v.core.elements) && Inspected(v, k) == InspectedElements(v.core.elements, k, k)
    ensures v.core.Obj? ==>
      MembersOk(v.core.members) && Inspected(v, k) == {v.core.members} + InspectedMembers(v.core.members, k)
    ensures !v.core.Arr? && !v.core.Obj? ==> Inspected(v, k) == {}
  {
    hide InspectedElements, InspectedMembers, ElementsOk, MembersOk;
  }

  lemma OrderlySplit(ms: Members, k: nat, lim: Limits)
    requires MembersOk(ms)
    ensures AllOrderly({ms} + InspectedMembers(ms, k), lim) <==>
      Orderly(ms, lim) && AllOrderly(InspectedMembers(ms, k), lim)
  {
    hide Orderly, InspectedMembers, MembersOk;
  }

  lemma OrderlyUnion(x: set<Members>, y: set<Members>, lim: Limits)
    ensures AllOrderly(x + y, lim) <==> AllOrderly(x, lim) && AllOrderly(y, lim)
  {
    hide Orderly, MembersOk;
  }

  lemma {:induction false} SameElements(b: seq<byte>, p: nat, es: Elements, fs: Elements, d: nat, lim: Limits, k: nat,
                                        left: nat)
    requires ElementsOk(es) && TextAt(b, p, ElementsText(es)) && ElementsFit(es, d, lim, 0)
    requires ElementsOk(fs) && TextAt(b, p, ElementsText(fs)) && ElementsFit(fs, d, lim, 0)
    requires AllOrderly(InspectedElements(es, k, left), lim)
    ensures AllOrderly(InspectedElements(fs, k, left), lim)
    decreases es
  {
    hide *;
    ElementsHead(es, d, lim, k, left);
    ElementsHead(fs, d, lim, k, left);
    NoneOrderly(lim);
    if left > 0 {
      ElementsAtParts(b, p, es);
      ElementsAtParts(b, p, fs);
      SkipComplete(b, p, es.v, d, lim);
      SkipComplete(b, p, fs.v, d, lim);
      SpelledIs(b, p, es.v, d, lim);
      SpelledIs(b, p, fs.v, d, lim);
      var more := if es.LastElement? then {} else InspectedElements(es.rest, k, left - 1);
      var more' := if fs.LastElement? then {} else InspectedElements(fs.rest, k, left - 1);
      OrderlyUnion(Inspected(es.v, k), more, lim);
      SameInspected(b, p, es.v, fs.v, d, lim, k);
      if es.MoreElements? {
        SameElements(b, p + |ValueText(es.v)| + |es.ws| + 1, es.rest, fs.rest, d, lim, k, left - 1);
      }
      OrderlyUnion(Inspected(fs.v, k), more', lim);
    }
  }

  lemma ElementsHead(es: Elements, d: nat, lim: Limits, k: nat, left: nat)
    requires ElementsOk(es) && ElementsFit(es, d, lim, 0)
    ensures ValueOk(es.v) && Fits(es.v, d, lim, false)
    ensures es.MoreElements? ==> ElementsOk(es.rest) && ElementsFit(es.rest, d, lim, 0)
    ensures InspectedElements(es, k, left)
         == if left == 0 then {}
            else Inspected(es.v, k) + if es.LastElement? then {} else InspectedElements(es.rest, k, left - 1)
  {
    hide ValueOk, Fits, Inspected;
  }

  lemma {:induction false} SameMembers(b: seq<byte>, p: nat, ms: Members, ns: Members, d: nat, lim: Limits, k: nat)
    requires MembersOk(ms) && TextAt(b, p, MembersText(ms)) && MembersFit(ms, d, lim, false)
    requires MembersOk(ns) && TextAt(b, p, MembersText(ns)) && MembersFit(ns, d, lim, false)
    requires AllOrderly(InspectedMembers(ms, k), lim)
    ensures AllOrderly(InspectedMembers(ns, k), lim) && MemberKeys(ms) == MemberKeys(ns)
    ensures Orderly(ms, lim) <==> Orderly(ns, lim)
    decreases ms
  {
    hide *;
    MembersHead(ms, d, lim, k);
    MembersHead(ns, d, lim, k);
    KeyAt(b, p, ms, lim);
    KeyAt(b, p, ns, lim);
    var q := p + |ms.m.ws| + |Quoted(ms.m.key)|;
    ColonAt(b, q, ms);
    ColonAt(b, q, ns);
    var q2 := q + |ms.m.colonWs| + 1;
    MemberEndAt(b, q2, ms);
    MemberEndAt(b, q2, ns);
    SkipComplete(b, q2, ms.m.v, d, lim);
    SkipComplete(b, q2, ns.m.v, d, lim);
    SpelledIs(b, q2, ms.m.v, d, lim);
    SpelledIs(b, q2, ns.m.v, d, lim);
    NoneOrderly(lim);
    var more := if ms.LastMember? then {} else InspectedMembers(ms.rest, k);
    var more' := if ns.LastMember? then {} else InspectedMembers(ns.rest, k);
    OrderlyUnion(Inspected(ms.m.v, k), more, lim);
    SameInspected(b, q2, ms.m.v, ns.m.v, d, lim, k);
    if ms.MoreMembers? {
      SameMembers(b, q2 + |ValueText(ms.m.v)| + |ms.m.endWs| + 1, ms.rest, ns.rest, d, lim, k);
    }
    OrderlyUnion(Inspected(ns.m.v, k), more', lim);
    OrderlySame(ms, ns, lim);
  }

  lemma OrderlySame(ms: Members, ns: Members, lim: Limits)
    requires MembersOk(ms) && MembersOk(ns) && MemberKeys(ms) == MemberKeys(ns)
    ensures Orderly(ms, lim) <==> Orderly(ns, lim)
  {
    hide MembersOk, MemberKeys;
  }

  lemma MembersHead(ms: Members, d: nat, lim: Limits, k: nat)
    requires MembersOk(ms) && MembersFit(ms, d, lim, false)
    ensures PiecesOk(ms.m.key) && |StringBytes(ms.m.key)| <= lim.maxKeyLen
    ensures ValueOk(ms.m.v) && Fits(ms.m.v, d, lim, false)
    ensures ms.MoreMembers? ==> MembersOk(ms.rest) && MembersFit(ms.rest, d, lim, false)
    ensures InspectedMembers(ms, k) == Inspected(ms.m.v, k) +
      if ms.LastMember? then {} else InspectedMembers(ms.rest, k)
    ensures MemberKeys(ms) == [StringBytes(ms.m.key)] + if ms.LastMember? then [] else MemberKeys(ms.rest)
  {
    hide ValueOk, Fits, Inspected, StringBytes, PiecesOk, ValidUtf8;
  }

  // ---- the condition ----

  /** `doc` is a tree of the text `b`, within the bounds. */
  ghost predicate SpelledBy(b: seq<byte>, lim: Limits, doc: Document) {
    |b| <= lim.maxBytes && DocumentOk(doc) && DocumentText(doc) == b && Fits(doc.v, 0, lim, true)
  }

  lemma DocumentSpelled(b: seq<byte>, lim: Limits, doc: Document)
    requires SpelledBy(b, lim, doc)
    ensures SpelledAt(b, 0, doc.v, 0, lim)
  {
    hide *;
    DocumentParts(b, lim, doc);
    TextIs(b, DocumentText(doc));
    SplitAt(b, 0, ValueText(doc.v), doc.ws);
    FitsExactly(doc.v, 0, lim);
    BlankEnds(b, |ValueText(doc.v)|, doc.ws);
    SpelledIs(b, 0, doc.v, 0, lim);
  }

  lemma DocumentParts(b: seq<byte>, lim: Limits, doc: Document)
    requires SpelledBy(b, lim, doc)
    ensures |b| <= lim.maxBytes && DocumentOk(doc) && ValueOk(doc.v) && Blank(doc.ws) && Fits(doc.v, 0, lim, true)
    ensures DocumentText(doc) == b == ValueText(doc.v) + doc.ws
  {
    hide ValueOk, Blank, Fits, ValueText;
  }

  /** Blanks to the end of the input end a number. */
  lemma BlankEnds(b: seq<byte>, p: nat, ws: seq<byte>)
    requires TextAt(b, p, ws) && Blank(ws) && p + |ws| == |b|
    ensures NumberEnds(b, p)
  {
    if ws != [] {
      assert b[p] == ws[0];
    }
  }

  /** Raising the bound keeps an accepted input accepted exactly when every newly inspected object, in
      whichever tree spells the input, has distinct keys and at most `maxFieldsPerObject` fields; the old
      result is the new one, cut. If not, the input is rejected for one of these two reasons. */
  lemma RaiseInspection(b: seq<byte>, lim: Limits, k: nat, doc: Document)
    requires lim.maxArrayInspect <= k && SpelledBy(b, lim, doc)
    ensures ParseBounded(b, lim).Success?
    ensures var r := ParseBounded(b, lim.(maxArrayInspect := k));
      && (r.Success? <==> AllOrderly(NewlyInspected(doc.v, lim.maxArrayInspect, k), lim))
      && (r.Success? ==> ParseBounded(b, lim).value == Cut(r.value, lim.maxArrayInspect))
      && (r.Failure? ==> r.reason == DuplicateKey || r.reason == FieldCountExceeded)
  {
    hide *;
    DocumentParts(b, lim, doc);
    var lim' := lim.(maxArrayInspect := k);
    AcceptedParses(b, lim, doc);
    OnlyObjectChecks(b, lim, k);
    FitsRaised(doc.v, 0, lim, k);
    if ParseBounded(b, lim').Success? {
      assert lim'.(maxArrayInspect := lim.maxArrayInspect) == lim;
      LowerInspection(b, lim', lim.maxArrayInspect);
      var doc' := ParsedAccepted(b, lim');
      DocumentValue(doc');
      FitsCut(doc'.v, 0, lim', lim.maxArrayInspect);
      SpelledWhole(b, lim, doc');
      DocumentSpelled(b, lim, doc);
      DocumentSpelled(b, lim, doc');
      FitsExactly(doc'.v, 0, lim');
      OrderlyLimits(Inspected(doc'.v, k), lim, k);
      SameInspected(b, 0, doc'.v, doc.v, 0, lim, k);
      NewlyOrderly(doc.v, lim.maxArrayInspect, k, lim);
    }
    if AllOrderly(NewlyInspected(doc.v, lim.maxArrayInspect, k), lim) {
      AcceptedParses(b, lim', doc);
    }
  }

  lemma DocumentValue(doc: Document)
    requires DocumentOk(doc)
    ensures ValueOk(doc.v)
  {
    hide ValueOk, Blank;
  }

  lemma SpelledWhole(b: seq<byte>, lim: Limits, doc: Document)
    requires |b| <= lim.maxBytes && DocumentOk(doc) && DocumentText(doc) == b && Fits(doc.v, 0, lim, true)
    ensures SpelledBy(b, lim, doc)
  {
    hide DocumentOk, DocumentText, Fits;
  }

  lemma NewlyOrderly(v: Value, k: nat, k': nat, lim: Limits)
    requires ValueOk(v) && AllOrderly(Inspected(v, k'), lim)
    ensures AllOrderly(NewlyInspected(v, k, k'), lim)
  {
    hide Inspected, Orderly, MembersOk, ValueOk;
  }

  lemma OrderlyLimits(objects: set<Members>, lim: Limits, k: nat)
    ensures AllOrderly(objects, lim.(maxArrayInspect := k)) <==> AllOrderly(objects, lim)
  {
    hide MembersOk, MemberKeys;
  }

  // ---- acceptance does depend on the bound ----

  /** `[{"a":null,"a":null}]` */
  const TWICE_A: seq<byte> :=
    [LBRACKET, LBRACE, QUOTE, 0x61, QUOTE, COLON] + NULL_TEXT + [COMMA, QUOTE, 0x61, QUOTE, COLON] + NULL_TEXT
      + [RBRACE, RBRACKET]

  lemma TwiceAKeys(lim: Limits)
    requires lim.maxKeyLen >= 1
    ensures |TWICE_A| == 21
    ensures ParseMemberKey(TWICE_A, 2, lim) == Ok([0x61], 5) && ParseMemberKey(TWICE_A, 11, lim) == Ok([0x61], 14)
  {
    assert ValidUtf8([0x61]);
    assert ScanString(TWICE_A, 4, [0x61]) == Ok([0x61], 5) && ScanString(TWICE_A, 13, [0x61]) == Ok([0x61], 14);
    assert [] + [0x61] == [0x61];
    var b := TWICE_A;
    assert ScanString(b, 3, []) == ScanString(b, 4, [] + [b[3]])
      && ScanString(b, 12, []) == ScanString(b, 13, [] + [b[12]]);
    assert SkipWs(b, 2) == 2 && SkipWs(b, 11) == 11;
    hide ScanString;
  }

  /** The pieces of the text, where they stand. */
  lemma TwiceAParts(lim: Limits)
    ensures var b := TWICE_A;
      && |b| == 21 && ExpectColon(b, 5) == Ok((), 6) && ExpectColon(b, 14) == Ok((), 15)
      && ParseValue(b, 6, 2, lim) == Ok(Null, 10) && SkipValue(b, 6, 2, lim) == Ok((), 10)
      && SkipValue(b, 15, 2, lim) == Ok((), 19)
      && Separator(b, 10, RBRACE) == Ok(true, 11) && Separator(b, 19, RBRACE) == Ok(false, 20)
  {
    hide ParseString, ParseNumber, ParseObject, ParseArray, SkipObject, SkipArray;
    var b := TWICE_A;
    assert NULL_TEXT <= b[6..] && NULL_TEXT <= b[15..];
  }

  lemma TwiceASkipped(lim: Limits)
    requires lim.maxKeyLen >= 1
    ensures |TWICE_A| == 21 && SkipMembers(TWICE_A, 2, 2, lim) == Ok((), 20)
  {
    TwiceAKeys(lim);
    TwiceAParts(lim);
    hide TWICE_A, ParseMemberKey, SkipValue, Separator, ExpectColon;
    assert SkipMembers(TWICE_A, 11, 2, lim) == Ok((), 20);
  }

  lemma TwiceAParsed(lim: Limits)
    requires lim.maxKeyLen >= 1 && lim.maxFieldsPerObject >= 1
    ensures |TWICE_A| == 21 && ParseMembers(TWICE_A, 2, 2, lim, []) == Fail(DuplicateKey)
  {
    TwiceAKeys(lim);
    TwiceAParts(lim);
    hide TWICE_A, ParseMemberKey, ParseValue, Separator, ExpectColon;
    var one := [Field([0x61], Null)];
    assert [] + one == one && one[0] in one;
    assert ParseMembers(TWICE_A, 11, 2, lim, one) == Fail(DuplicateKey);
  }

  /** An array of one object that repeats a key is accepted while the array is not looked into, and
      rejected once it is. */
  lemma RaisingRejects(lim: Limits)
    requires lim.maxBytes >= |TWICE_A| && lim.maxDepth >= 2 && lim.maxKeyLen >= 1 && lim.maxFieldsPerObject >= 1
    ensures ParseBounded(TWICE_A, lim.(maxArrayInspect := 0)) == Success(Array([], true))
    ensures ParseBounded(TWICE_A, lim.(maxArrayInspect := 1)) == Failure(DuplicateKey)
  {
    hide ParseMembers, SkipMembers;
    var b, zero, one := TWICE_A, lim.(maxArrayInspect := 0), lim.(maxArrayInspect := 1);
    TwiceASkipped(zero);
    TwiceAParsed(one);
    assert SkipObject(b, 1, 1, zero) == Ok((), 20) && ParseObject(b, 1, 1, one) == Fail(DuplicateKey);
    assert Separator(b, 20, RBRACKET) == Ok(false, 21);
    assert ParseElements(b, 1, 1, zero, [], false) == Ok(Array([], true), 21);
    assert ParseElements(b, 1, 1, one, [], false) == Fail(DuplicateKey);
    hide ParseElements;
    assert ParseValue(b, 0, 0, zero) == ParseArray(b, 0, 0, zero) == Ok(Array([], true), 21);
    assert ParseValue(b, 0, 0, one) == ParseArray(b, 0, 0, one) == Fail(DuplicateKey);
  }
}
