/** Mergeable statistics of what was observed at every position of many documents. */
module Profiles {
  import opened Options
  import opened Utf8
  import opened Identity
  import Json

  datatype TypeCounts = TypeCounts(nulls: nat, bools: nat, numbers: nat, strings: nat, arrays: nat, objects: nat)

  datatype NumericBuckets = NumericBuckets(zero: bool, small: bool, medium: bool, large: bool, negative: bool)

  /** What one position records of itself. */
  datatype Stats = Stats(
    present: nat, explicitNull: nat, types: TypeCounts,
    arrayEmptySeen: bool, arrayPartialSeen: bool,
    intOnly: bool, negZeroSeen: bool, buckets: NumericBuckets)

  datatype FieldNode = FieldNode(stats: Stats, children: map<seq<byte>, FieldNode>, arrayElem: Option<FieldNode>)

  datatype Profile = Profile(count: nat, root: FieldNode)

  /** What floating-point parsing says of a number's text; nothing here depends on it further. */
  datatype NumberRules = NumberRules(bucket: seq<byte> -> NumericBuckets, isZero: seq<byte> -> bool)

  const NO_TYPES := TypeCounts(0, 0, 0, 0, 0, 0)
  const NO_BUCKETS := NumericBuckets(false, false, false, false, false)
  const NO_STATS := Stats(0, 0, NO_TYPES, false, false, true, false, NO_BUCKETS)
  const IDENTITY_NODE := FieldNode(NO_STATS, map[], None)
  const IDENTITY := Profile(0, IDENTITY_NODE)

  /** No fractional or exponent part. */
  predicate IsIntText(text: seq<byte>) {
    Json.DOT !in text && Json.LOWER_E !in text && Json.UPPER_E !in text
  }

  predicate IsNegZero(text: seq<byte>, rules: NumberRules) {
    text != [] && text[0] == Json.MINUS && rules.isZero(text)
  }

  // ---- one observation ----

  function StatsOf(n: Json.Node, rules: NumberRules): Stats {
    var out := NO_STATS.(present := 1);
    match n
    case Null => out.(explicitNull := 1, types := NO_TYPES.(nulls := 1))
    case Bool(_) => out.(types := NO_TYPES.(bools := 1))
    case Number(text) =>
      out.(types := NO_TYPES.(numbers := 1), intOnly := IsIntText(text),
           negZeroSeen := IsNegZero(text, rules), buckets := rules.bucket(text))
    case String(_) => out.(types := NO_TYPES.(strings := 1))
    case Array(items, truncated) =>
      out.(types := NO_TYPES.(arrays := 1), arrayPartialSeen := truncated,
           arrayEmptySeen := !truncated && items == [])
    case Object(fields) => out.(types := NO_TYPES.(objects := 1))
  }

  function FromNode(n: Json.Node, rules: NumberRules): FieldNode {
    FieldNode(
      StatsOf(n, rules),
      if n.Object? then map k | k in Json.Keys(n.fields) :: FromNode(Lookup(n.fields, k), rules) else map[],
      if n.Array? then FromItems(n.items, rules) else None)
  }

  /** `merge_all` over the elements' nodes, folding from the left. */
  function FromItems(items: seq<Json.Node>, rules: NumberRules): Option<FieldNode> {
    if items == [] then None
    else
      var last := FromNode(items[|items| - 1], rules);
      match FromItems(items[..|items| - 1], rules)
      case None => Some(last)
      case Some(acc) => Some(Merge(acc, last))
  }

  /** `from_node`: the statistics and children of one observation, assigned field by field. */
  method Observe(n: Json.Node, rules: NumberRules) returns (out: FieldNode)
    ensures out == FromNode(n, rules)
    decreases n
  {
    hide IsIntText, IsNegZero;
    out := IDENTITY_NODE;
    out := out.(stats := out.stats.(present := 1));
    match n {
      case Null =>
        out := out.(stats := out.stats.(explicitNull := 1, types := out.stats.types.(nulls := 1)));
      case Bool(_) =>
        out := out.(stats := out.stats.(types := out.stats.types.(bools := 1)));
      case Number(text) =>
        out := out.(stats := out.stats.(types := out.stats.types.(numbers := 1), intOnly := IsIntText(text),
                                        negZeroSeen := IsNegZero(text, rules), buckets := rules.bucket(text)));
      case String(_) =>
        out := out.(stats := out.stats.(types := out.stats.types.(strings := 1)));
      case Array(items, truncated) =>
        out := out.(stats := out.stats.(types := out.stats.types.(arrays := 1)));
        if truncated {
          out := out.(stats := out.stats.(arrayPartialSeen := true));
        } else if items == [] {
          out := out.(stats := out.stats.(arrayEmptySeen := true));
        }
        var elem := ObserveItems(items, rules);
        out := out.(arrayElem := elem);
      case Object(fields) =>
        out := out.(stats := out.stats.(types := out.stats.types.(objects := 1)));
        var children := ObserveFields(fields, rules);
        out := out.(children := children);
    }
  }

  /** `merge_all` over the elements, one after the other. */
  method ObserveItems(items: seq<Json.Node>, rules: NumberRules) returns (acc: Option<FieldNode>)
    ensures acc == FromItems(items, rules)
    decreases items
  {
    hide Merge, FromNode;
    acc := None;
    for i := 0 to |items|
      invariant acc == FromItems(items[..i], rules)
    {
      var next := Observe(items[i], rules);
      assert items[..i + 1][..i] == items[..i];
      acc := match acc case None => Some(next) case Some(a) => Some(Merge(a, next));
    }
    assert items[..|items|] == items;
  }

  ghost function ChildrenOf(fields: seq<Json.Field>, rules: NumberRules): map<seq<byte>, FieldNode> {
    map k | k in Json.Keys(fields) :: FromNode(Lookup(fields, k), rules)
  }

  lemma ChildrenSnoc(fields: seq<Json.Field>, f: Json.Field, rules: NumberRules)
    ensures ChildrenOf(fields + [f], rules) == ChildrenOf(fields, rules)[f.key := FromNode(f.value, rules)]
  {
    hide FromNode;
    KeysGrow(fields, f);
    assert (fields + [f])[..|fields|] == fields;
  }

  /** Collecting into a map: of two fields with one key the later wins. */
  method ObserveFields(fields: seq<Json.Field>, rules: NumberRules) returns (children: map<seq<byte>, FieldNode>)
    ensures children == ChildrenOf(fields, rules)
    decreases fields
  {
    children := map[];
    hide FromNode;
    for i := 0 to |fields|
      invariant children == ChildrenOf(fields[..i], rules)
    {
      hide *;
      var child := Observe(fields[i].value, rules);
      ChildrenSnoc(fields[..i], fields[i], rules);
      assert fields[..i + 1] == fields[..i] + [fields[i]];
      children := children[fields[i].key := child];
    }
    assert fields[..|fields|] == fields;
  }

  function ProfileOf(n: Json.Node, rules: NumberRules): Profile {
    Profile(1, FromNode(n, rules))
  }

  // ---- merging ----

  function MergeTypes(a: TypeCounts, b: TypeCounts): TypeCounts {
    TypeCounts(a.nulls + b.nulls, a.bools + b.bools, a.numbers + b.numbers,
               a.strings + b.strings, a.arrays + b.arrays, a.objects + b.objects)
  }

  function MergeBuckets(a: NumericBuckets, b: NumericBuckets): NumericBuckets {
    NumericBuckets(a.zero || b.zero, a.small || b.small, a.medium || b.medium, a.large || b.large,
                   a.negative || b.negative)
  }

  function MergeStats(a: Stats, b: Stats): Stats {
    Stats(
      a.present + b.present, a.explicitNull + b.explicitNull, MergeTypes(a.types, b.types),
      a.arrayEmptySeen || b.arrayEmptySeen, a.arrayPartialSeen || b.arrayPartialSeen,
      a.intOnly && b.intOnly, a.negZeroSeen || b.negZeroSeen, MergeBuckets(a.buckets, b.buckets))
  }

  function Merge(a: FieldNode, b: FieldNode): FieldNode {
    FieldNode(
      MergeStats(a.stats, b.stats),
      map k | k in a.children.Keys + b.children.Keys ::
        if k !in a.children then b.children[k]
        else if k !in b.children then a.children[k]
        else Merge(a.children[k], b.children[k]),
      match (a.arrayElem, b.arrayElem)
      case (None, y) => y
      case (x, None) => x
      case (Some(x), Some(y)) => Some(Merge(x, y)))
  }

  /** `merge_array_elem`. */
  function MergeOptions(a: Option<FieldNode>, b: Option<FieldNode>): Option<FieldNode> {
    match (a, b)
    case (None, y) => y
    case (x, None) => x
    case (Some(x), Some(y)) => Some(Merge(x, y))
  }

  function MergeProfiles(a: Profile, b: Profile): Profile {
    Profile(a.count + b.count, Merge(a.root, b.root))
  }

  /** `merge_children`: the left map is copied and the right one folded into it, entry by entry. */
  method MergeChildren(a: map<seq<byte>, FieldNode>, b: map<seq<byte>, FieldNode>)
      returns (out: map<seq<byte>, FieldNode>)
    ensures out.Keys == a.Keys + b.Keys
    ensures forall k | k in out :: Some(out[k]) == MergeOptions(Get(a, k), Get(b, k))
  {
    out := a;
    var todo := b.Keys;
    while todo != {}
      invariant todo <= b.Keys
      invariant out.Keys == a.Keys + (b.Keys - todo)
      invariant forall k | k in out :: Some(out[k]) == MergeOptions(Get(a, k), if k in todo then None else Get(b, k))
      decreases todo
    {
      var k :| k in todo;
      todo := todo - {k};
      if k in out {
        out := out[k := Merge(out[k], b[k])];
      } else {
        out := out[k := b[k]];
      }
    }
  }

  function Get(m: map<seq<byte>, FieldNode>, k: seq<byte>): Option<FieldNode> {
    if k in m then Some(m[k]) else None
  }

  // ---- the monoid laws, for every profile ----

  /** The parts of a merge, each the merge of the parts. */
  lemma MergeParts(a: FieldNode, b: FieldNode)
    ensures Merge(a, b).stats == MergeStats(a.stats, b.stats)
    ensures Merge(a, b).arrayElem == MergeOptions(a.arrayElem, b.arrayElem)
    ensures forall k :: Get(Merge(a, b).children, k) == MergeOptions(Get(a.children, k), Get(b.children, k))
  {
  }

  lemma SameNode(f: FieldNode, g: FieldNode)
    requires f.stats == g.stats && f.arrayElem == g.arrayElem
    requires forall k :: Get(f.children, k) == Get(g.children, k)
    ensures f == g
  {
    assert forall k :: k in f.children <==> Get(f.children, k).Some?;
    assert forall k :: k in g.children <==> Get(g.children, k).Some?;
    assert forall k | k in f.children :: Get(f.children, k).value == f.children[k];
    assert f.children == g.children;
  }

  lemma {:induction false} MergeCommutes(a: FieldNode, b: FieldNode)
    ensures Merge(a, b) == Merge(b, a)
    decreases a, 0
  {
    hide Merge, MergeOptions;
    MergeParts(a, b);
    MergeParts(b, a);
    forall k
      ensures MergeOptions(Get(a.children, k), Get(b.children, k))
           == MergeOptions(Get(b.children, k), Get(a.children, k)) {
      OptionsCommute(a, Get(a.children, k), Get(b.children, k));
    }
    OptionsCommute(a, a.arrayElem, b.arrayElem);
    SameNode(Merge(a, b), Merge(b, a));
  }

  lemma {:induction false} OptionsCommute(parent: FieldNode, x: Option<FieldNode>, y: Option<FieldNode>)
    requires x.Some? ==> x.value < parent
    ensures MergeOptions(x, y) == MergeOptions(y, x)
    decreases parent, 0, 0
  {
    if x.Some? && y.Some? {
      MergeCommutes(x.value, y.value);
    }
  }

  lemma {:induction false} MergeAssociates(a: FieldNode, b: FieldNode, c: FieldNode)
    ensures Merge(Merge(a, b), c) == Merge(a, Merge(b, c))
    decreases a, 0
  {
    hide Merge, MergeOptions;
    MergeParts(a, b);
    MergeParts(b, c);
    MergeParts(Merge(a, b), c);
    MergeParts(a, Merge(b, c));
    forall k
      ensures MergeOptions(MergeOptions(Get(a.children, k), Get(b.children, k)), Get(c.children, k))
           == MergeOptions(Get(a.children, k), MergeOptions(Get(b.children, k), Get(c.children, k)))
    {
      OptionsAssociate(a, Get(a.children, k), Get(b.children, k), Get(c.children, k));
    }
    OptionsAssociate(a, a.arrayElem, b.arrayElem, c.arrayElem);
    SameNode(Merge(Merge(a, b), c), Merge(a, Merge(b, c)));
  }

  lemma {:induction false} OptionsAssociate(
    parent: FieldNode, x: Option<FieldNode>, y: Option<FieldNode>, z: Option<FieldNode>)
    requires x.Some? ==> x.value < parent
    ensures MergeOptions(MergeOptions(x, y), z) == MergeOptions(x, MergeOptions(y, z))
    decreases parent, 0, 0
  {
    hide Merge;
    if x.Some? && y.Some? && z.Some? {
      MergeAssociates(x.value, y.value, z.value);
    }
  }

  lemma MergeIdentity(a: FieldNode)
    ensures Merge(a, IDENTITY_NODE) == a && Merge(IDENTITY_NODE, a) == a
  {
    assert Merge(a, IDENTITY_NODE).children == a.children;
    assert Merge(IDENTITY_NODE, a).children == a.children;
  }

  /** Profiles are a commutative monoid. */
  lemma MonoidLaws(a: Profile, b: Profile, c: Profile)
    ensures MergeProfiles(MergeProfiles(a, b), c) == MergeProfiles(a, MergeProfiles(b, c))
    ensures MergeProfiles(a, b) == MergeProfiles(b, a)
    ensures MergeProfiles(a, IDENTITY) == a == MergeProfiles(IDENTITY, a)
  {
    hide Merge;
    MergeAssociates(a.root, b.root, c.root);
    MergeCommutes(a.root, b.root);
    MergeIdentity(a.root);
  }
}
