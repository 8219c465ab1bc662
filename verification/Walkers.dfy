/** The inspecting walker and the skipping walker see the same text. */
module Walkers {
  import opened Utf8
  import opened Json
  import opened ParseSpec

  /** `parse` does what `skip` does, except that it may stop earlier at one of the two
      checks only inspected objects undergo. */
  predicate Simulates(parse: Parsed<Node>, skip: Parsed<()>) {
    if parse.Ok? then skip == Ok((), parse.pos)
    else skip == Fail(parse.reason) || parse.reason == DuplicateKey || parse.reason == FieldCountExceeded
  }

  lemma {:induction false} SkipSimulatesParse(b: seq<byte>, p: nat, d: nat, lim: Limits)
    requires p <= |b|
    ensures Simulates(ParseValue(b, p, d, lim), SkipValue(b, p, d, lim))
    decreases |b| - p, 2
  {
    var q := SkipWs(b, p);
    if q < |b| && d + 1 <= lim.maxDepth {
      if b[q] == LBRACE {
        var q' := SkipWs(b, q + 1);
        if !Peek(b, q', RBRACE) {
          MembersSimulate(b, q', d + 1, lim, []);
        }
      } else if b[q] == LBRACKET {
        var q' := SkipWs(b, q + 1);
        if !Peek(b, q', RBRACKET) {
          ElementsSimulate(b, q', d + 1, lim, [], false);
        }
      }
    }
  }

  lemma {:induction false} MembersSimulate(b: seq<byte>, p: nat, d: nat, lim: Limits, fields: seq<Field>)
    requires p <= |b|
    ensures Simulates(ParseMembers(b, p, d, lim, fields), SkipMembers(b, p, d, lim))
    decreases |b| - p, 0
  {
    var k := ParseMemberKey(b, p, lim);
    if k.Ok? {
      var c := ExpectColon(b, k.pos);
      if c.Ok? {
        SkipSimulatesParse(b, c.pos, d, lim);
        var v := ParseValue(b, c.pos, d, lim);
        if v.Ok? {
          var s := Separator(b, v.pos, RBRACE);
          if s.Ok? && s.value {
            MembersSimulate(b, s.pos, d, lim, fields + [Field(k.value, v.value)]);
          }
        }
      }
    }
  }

  lemma {:induction false} ElementsSimulate(b: seq<byte>, p: nat, d: nat, lim: Limits, items: seq<Node>,
                                            truncated: bool)
    requires p <= |b|
    ensures Simulates(ParseElements(b, p, d, lim, items, truncated), SkipElements(b, p, d, lim))
    decreases |b| - p, 3
  {
    SkipSimulatesParse(b, p, d, lim);
    var v := SkipValue(b, p, d, lim);
    if v.Ok? {
      var s := Separator(b, v.pos, RBRACKET);
      if s.Ok? && s.value {
        if |items| < lim.maxArrayInspect {
          var item := ParseValue(b, p, d, lim);
          if item.Ok? {
            ElementsSimulate(b, s.pos, d, lim, items + [item.value], truncated);
          }
        } else {
          ElementsSimulate(b, s.pos, d, lim, items, true);
        }
      }
    }
  }
}
