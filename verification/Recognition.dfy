/** `parse_bounded` recognises exactly the JSON texts within its bounds, and what that entails. */
module Recognition {
  import opened Utf8
  import opened Json
  import opened ParseSpec
  import opened Grammar
  import opened Completeness
  import opened Soundness

  lemma TextIs(b: seq<byte>, t: seq<byte>)
    ensures TextAt(b, 0, t) && |t| == |b| <==> t == b
  {
    if TextAt(b, 0, t) && |t| == |b| {
      assert forall i | 0 <= i < |b| :: t[i] == b[i];
    }
  }

  lemma AcceptedParses(b: seq<byte>, lim: Limits, doc: Document)
    requires |b| <= lim.maxBytes && DocumentOk(doc) && DocumentText(doc) == b && Fits(doc.v, 0, lim, true)
    ensures ParseBounded(b, lim) == Success(Denote(doc.v, lim))
  {
    hide ParseValue, ValueText, Fits, Denote;
    TextIs(b, DocumentText(doc));
    SplitAt(b, 0, ValueText(doc.v), doc.ws);
    var q := |ValueText(doc.v)|;
    if doc.ws != [] {
      FirstAt(b, q, doc.ws);
    }
    ParseComplete(b, 0, doc.v, 0, lim);
    WsEnd(b, q, doc.ws);
  }

  lemma ParsedAccepted(b: seq<byte>, lim: Limits) returns (doc: Document)
    requires ParseBounded(b, lim).Success?
    ensures DocumentOk(doc) && DocumentText(doc) == b && Fits(doc.v, 0, lim, true)
    ensures ParseBounded(b, lim) == Success(Denote(doc.v, lim))
  {
    hide ParseValue, ValueText, Fits, Denote, TextAt;
    var v := ParseSound(b, 0, 0, lim);
    var q := |ValueText(v)|;
    WsSound(b, q);
    doc := Document(v, WsText(b, q));
    JoinAt(b, 0, ValueText(v), WsText(b, q));
    TextIs(b, DocumentText(doc));
  }

  /** The parser succeeds with `n` exactly when the bytes are a JSON text, within every bound,
      that denotes `n`. */
  lemma ParsesExactly(b: seq<byte>, lim: Limits, n: Node)
    ensures ParseBounded(b, lim) == Success(n) <==> Accepts(b, lim, n)
  {
    hide ParseValue, ValueText, Fits, Denote;
    if ParseBounded(b, lim) == Success(n) {
      var doc := ParsedAccepted(b, lim);
    }
    if Accepts(b, lim, n) {
      var doc :| DocumentOk(doc) && DocumentText(doc) == b && Fits(doc.v, 0, lim, true) && Denote(doc.v, lim) == n;
      AcceptedParses(b, lim, doc);
    }
  }

  // ---- lowering the inspection bound ----

  /** `n` with every array, at any depth, cut to its first `k` elements. */
  function Cut(n: Node, k: nat): Node {
    match n
    case Array(items, truncated) => Array(CutItems(items, k, k), truncated || |items| > k)
    case Object(fields) => Object(CutFields(fields, k))
    case _ => n
  }

  function CutItems(items: seq<Node>, k: nat, left: nat): seq<Node> {
    if items == [] || left == 0 then [] else [Cut(items[0], k)] + CutItems(items[1..], k, left - 1)
  }

  function CutFields(fields: seq<Field>, k: nat): (r: seq<Field>)
    ensures |r| == |fields|
    ensures forall i | 0 <= i < |fields| :: r[i].key == fields[i].key
  {
    if fields == [] then [] else [Field(fields[0].key, Cut(fields[0].value, k))] + CutFields(fields[1..], k)
  }

  lemma {:induction false} FitsSkipped(v: Value, d: nat, lim: Limits, k: nat)
    requires ValueOk(v) && (Fits(v, d, lim, true) || Fits(v, d, lim, false))
    ensures Fits(v, d, lim.(maxArrayInspect := k), false)
    decreases v
  {
    match v.core
    case Arr(es) => ElementsFitSkipped(es, d + 1, lim, lim.maxArrayInspect, k);
                    ElementsFitSkipped(es, d + 1, lim, 0, k);
    case Obj(ms) => MembersFitSkipped(ms, d + 1, lim, true, k);
                    MembersFitSkipped(ms, d + 1, lim, false, k);
    case _ =>
  }

  lemma {:induction false} ElementsFitSkipped(es: Elements, d: nat, lim: Limits, left: nat, k: nat)
    requires ElementsOk(es)
    ensures ElementsFit(es, d, lim, left) ==> ElementsFit(es, d, lim.(maxArrayInspect := k), 0)
    decreases es
  {
    if ElementsFit(es, d, lim, left) {
      FitsSkipped(es.v, d, lim, k);
      if es.MoreElements? {
        ElementsFitSkipped(es.rest, d, lim, if left > 0 then left - 1 else 0, k);
      }
    }
  }

  lemma {:induction false} MembersFitSkipped(ms: Members, d: nat, lim: Limits, inspected: bool, k: nat)
    requires MembersOk(ms)
    ensures MembersFit(ms, d, lim, inspected) ==> MembersFit(ms, d, lim.(maxArrayInspect := k), false)
    decreases ms
  {
    if MembersFit(ms, d, lim, inspected) {
      FitsSkipped(ms.m.v, d, lim, k);
      if ms.MoreMembers? {
        MembersFitSkipped(ms.rest, d, lim, inspected, k);
      }
    }
  }

  lemma {:induction false} FitsCut(v: Value, d: nat, lim: Limits, k: nat)
    requires ValueOk(v) && Fits(v, d, lim, true) && k <= lim.maxArrayInspect
    ensures Fits(v, d, lim.(maxArrayInspect := k), true)
    ensures Denote(v, lim.(maxArrayInspect := k)) == Cut(Denote(v, lim), k)
    decreases v
  {
    match v.core
    case Arr(es) => ElementsFitCut(es, d + 1, lim, lim.maxArrayInspect, k, k);
    case Obj(ms) =>
      MembersFitCut(ms, d + 1, lim, k);
    case _ =>
  }

  lemma {:induction false} ElementsFitCut(es: Elements, d: nat, lim: Limits, left: nat, k: nat, left': nat)
    requires ElementsOk(es) && ElementsFit(es, d, lim, left) && left' <= left && k <= lim.maxArrayInspect
    ensures ElementsFit(es, d, lim.(maxArrayInspect := k), left')
    ensures ElementNodes(es, lim.(maxArrayInspect := k), left') == CutItems(ElementNodes(es, lim, left), k, left')
    decreases es
  {
    if left' > 0 {
      FitsCut(es.v, d, lim, k);
      if es.MoreElements? {
        ElementsFitCut(es.rest, d, lim, left - 1, k, left' - 1);
        assert ElementNodes(es, lim, left)[1..] == ElementNodes(es.rest, lim, left - 1);
      } else {
        assert ElementNodes(es, lim, left)[1..] == [];
      }
    } else {
      ElementsFitSkipped(es, d, lim, left, k);
    }
  }

  lemma {:induction false} MembersFitCut(ms: Members, d: nat, lim: Limits, k: nat)
    requires MembersOk(ms) && MembersFit(ms, d, lim, true) && k <= lim.maxArrayInspect
    ensures MembersFit(ms, d, lim.(maxArrayInspect := k), true)
    ensures MemberFields(ms, lim.(maxArrayInspect := k)) == CutFields(MemberFields(ms, lim), k)
    decreases ms
  {
    FitsCut(ms.m.v, d, lim, k);
    if ms.MoreMembers? {
      MembersFitCut(ms.rest, d, lim, k);
      assert MemberFields(ms, lim)[1..] == MemberFields(ms.rest, lim);
    } else {
      assert MemberFields(ms, lim)[1..] == [];
    }
  }

  /** Inspecting fewer array elements never rejects an accepted document; it only cuts the arrays. */
  lemma LowerInspection(b: seq<byte>, lim: Limits, k: nat)
    requires k <= lim.maxArrayInspect && ParseBounded(b, lim).Success?
    ensures ParseBounded(b, lim.(maxArrayInspect := k)) == Success(Cut(ParseBounded(b, lim).value, k))
  {
    hide ParseValue, ValueText, Fits, Denote, Cut;
    var doc := ParsedAccepted(b, lim);
    FitsCut(doc.v, 0, lim, k);
    AcceptedParses(b, lim.(maxArrayInspect := k), doc);
  }
}
