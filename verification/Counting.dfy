/** What a profile says of the documents behind it: at every path, exactly the observations made there. */
module Counting {
  import opened Options
  import opened Utf8
  import opened Identity
  import opened Profiles
  import Json

  datatype Step = Key(key: seq<byte>) | Elem

  /** What one may ask of one observation. */
  datatype Question =
    | Present | IsNull | IsBool | IsNumber | IsString | IsArray | IsObject
    | EmptyArray | CutArray | NotIntText | NegZero
    | InZero | InSmall | InMedium | InLarge | InNegative
    | Lacks(key: seq<byte>)

  predicate Answer(n: Json.Node, q: Question, rules: NumberRules) {
    match q
    case Present => true
    case IsNull => n.Null?
    case IsBool => n.Bool?
    case IsNumber => n.Number?
    case IsString => n.String?
    case IsArray => n.Array?
    case IsObject => n.Object?
    case EmptyArray => n.Array? && !n.truncated && n.items == []
    case CutArray => n.Array? && n.truncated
    case NotIntText => n.Number? && !IsIntText(n.text)
    case NegZero => n.Number? && IsNegZero(n.text, rules)
    case InZero => n.Number? && rules.bucket(n.text).zero
    case InSmall => n.Number? && rules.bucket(n.text).small
    case InMedium => n.Number? && rules.bucket(n.text).medium
    case InLarge => n.Number? && rules.bucket(n.text).large
    case InNegative => n.Number? && rules.bucket(n.text).negative
    case Lacks(k) => n.Object? && k !in Json.Keys(n.fields)
  }

  /** One observation's answer, as a count. */
  function Asked(n: Json.Node, q: Question, rules: NumberRules): nat {
    if Answer(n, q, rules) then 1 else 0
  }

  /** How many observations at path `p` inside `n` answer `q`. */
  function CountIn(n: Json.Node, p: seq<Step>, q: Question, rules: NumberRules): nat
    decreases n, 1
  {
    if p == [] then Asked(n, q, rules)
    else match p[0]
      case Key(k) =>
        if n.Object? && k in Json.Keys(n.fields) then CountIn(Lookup(n.fields, k), p[1..], q, rules) else 0
      case Elem =>
        if n.Array? then CountAll(n.items, p[1..], q, rules) else 0
  }

  function CountAll(docs: seq<Json.Node>, p: seq<Step>, q: Question, rules: NumberRules): nat
    decreases docs, 0
  {
    if docs == [] then 0
    else CountAll(docs[..|docs| - 1], p, q, rules) + CountIn(docs[|docs| - 1], p, q, rules)
  }

  /** The node at a path, if the profile has one. */
  function At(f: FieldNode, p: seq<Step>): Option<FieldNode>
    decreases |p|
  {
    if p == [] then Some(f)
    else match Child(f, p[0])
      case None => None
      case Some(c) => At(c, p[1..])
  }

  function Child(f: FieldNode, s: Step): Option<FieldNode> {
    match s
    case Key(k) => Get(f.children, k)
    case Elem => f.arrayElem
  }

  function AtOption(f: Option<FieldNode>, p: seq<Step>): Option<FieldNode> {
    if f.None? then None else At(f.value, p)
  }

  /** `s` says exactly what the counts `c` say. */
  predicate Records(s: Stats, c: Question -> nat) {
    && s.present == c(Present)
    && s.explicitNull == c(IsNull)
    && s.types == TypeCounts(c(IsNull), c(IsBool), c(IsNumber), c(IsString), c(IsArray), c(IsObject))
    && (s.arrayEmptySeen <==> c(EmptyArray) > 0)
    && (s.arrayPartialSeen <==> c(CutArray) > 0)
    && (s.intOnly <==> c(NotIntText) == 0)
    && (s.negZeroSeen <==> c(NegZero) > 0)
    && s.buckets == NumericBuckets(c(InZero) > 0, c(InSmall) > 0, c(InMedium) > 0, c(InLarge) > 0, c(InNegative) > 0)
  }

  /** `f` records exactly the observations at `p` in `docs`; no node, no observation. */
  ghost predicate Tells(f: Option<FieldNode>, docs: seq<Json.Node>, p: seq<Step>, rules: NumberRules) {
    match f
    case None => forall q :: CountAll(docs, p, q, rules) == 0
    case Some(g) =>
      CountAll(docs, p, Present, rules) > 0 && Records(g.stats, q => CountAll(docs, p, q, rules))
  }

  // ---- one document, and merging ----

  lemma {:induction false} CountConcat(a: seq<Json.Node>, b: seq<Json.Node>, p: seq<Step>, q: Question,
                                       rules: NumberRules)
    ensures CountAll(a + b, p, q, rules) == CountAll(a, p, q, rules) + CountAll(b, p, q, rules)
    decreases |b|
  {
    if b == [] {
      assert a + b == a;
    } else {
      var n := |b| - 1;
      CountConcat(a, b[..n], p, q, rules);
      assert (a + b)[..|a + b| - 1] == a + b[..n];
    }
  }

  lemma CountOne(n: Json.Node, p: seq<Step>, q: Question, rules: NumberRules)
    ensures CountAll([n], p, q, rules) == CountIn(n, p, q, rules)
  {
    assert [n][..0] == [];
  }

  /** The node of a merge at a path is the merge of the nodes there. */
  lemma {:induction false} AtMerge(f: FieldNode, g: FieldNode, p: seq<Step>)
    ensures At(Merge(f, g), p) == MergeOptions(At(f, p), At(g, p))
    decreases |p|
  {
    if p != [] {
      hide Merge;
      MergeParts(f, g);
      var x, y := Child(f, p[0]), Child(g, p[0]);
      assert Child(Merge(f, g), p[0]) == MergeOptions(x, y);
      if x.Some? && y.Some? {
        AtMerge(x.value, y.value, p[1..]);
      }
    }
  }

  /** Statistics of two lots of observations, merged, are those of both. */
  lemma RecordsSum(s: Stats, t: Stats, c: Question -> nat, e: Question -> nat, sum: Question -> nat)
    requires Records(s, c) && Records(t, e) && forall q :: sum(q) == c(q) + e(q)
    ensures Records(MergeStats(s, t), sum)
  {
  }

  lemma TellsMerge(f: Option<FieldNode>, g: Option<FieldNode>, a: seq<Json.Node>, b: seq<Json.Node>, p: seq<Step>,
                   rules: NumberRules)
    requires Tells(f, a, p, rules) && Tells(g, b, p, rules)
    ensures Tells(MergeOptions(f, g), a + b, p, rules)
  {
    forall q ensures CountAll(a + b, p, q, rules) == CountAll(a, p, q, rules) + CountAll(b, p, q, rules) {
      CountConcat(a, b, p, q, rules);
    }
    hide CountAll, Records, MergeStats;
    var c, e, sum := q => CountAll(a, p, q, rules), q => CountAll(b, p, q, rules), q => CountAll(a + b, p, q, rules);
    if f.Some? && g.Some? {
      MergeParts(f.value, g.value);
      RecordsSum(f.value.stats, g.value.stats, c, e, sum);
    } else if f.Some? {
      RecordsSame(f.value.stats, c, sum);
    } else if g.Some? {
      RecordsSame(g.value.stats, e, sum);
    }
  }

  lemma RecordsTypes(n: Json.Node, rules: NumberRules)
    ensures var s := StatsOf(n, rules);
      && s.present == Asked(n, Present, rules) && s.explicitNull == Asked(n, IsNull, rules)
      && s.types == TypeCounts(Asked(n, IsNull, rules), Asked(n, IsBool, rules), Asked(n, IsNumber, rules),
                               Asked(n, IsString, rules), Asked(n, IsArray, rules), Asked(n, IsObject, rules))
  {
    hide IsIntText, IsNegZero;
  }

  lemma RecordsFlags(n: Json.Node, rules: NumberRules)
    ensures var s := StatsOf(n, rules);
      && (s.arrayEmptySeen <==> Asked(n, EmptyArray, rules) > 0)
      && (s.arrayPartialSeen <==> Asked(n, CutArray, rules) > 0)
      && (s.intOnly <==> Asked(n, NotIntText, rules) == 0) && (s.negZeroSeen <==> Asked(n, NegZero, rules) > 0)
  {
    hide IsIntText, IsNegZero;
  }

  lemma RecordsBuckets(n: Json.Node, rules: NumberRules)
    ensures StatsOf(n, rules).buckets
         == NumericBuckets(Asked(n, InZero, rules) > 0, Asked(n, InSmall, rules) > 0, Asked(n, InMedium, rules) > 0,
                           Asked(n, InLarge, rules) > 0, Asked(n, InNegative, rules) > 0)
  {
    hide IsIntText, IsNegZero;
  }

  lemma RecordsHere(n: Json.Node, rules: NumberRules)
    ensures Records(StatsOf(n, rules), q => Asked(n, q, rules))
  {
    hide StatsOf, Asked;
    RecordsTypes(n, rules);
    RecordsFlags(n, rules);
    RecordsBuckets(n, rules);
  }

  lemma RecordsSame(s: Stats, c: Question -> nat, d: Question -> nat)
    requires Records(s, c) && forall q :: c(q) == d(q)
    ensures Records(s, d)
  {
  }

  lemma TellsHere(n: Json.Node, rules: NumberRules)
    ensures Tells(Some(FromNode(n, rules)), [n], [], rules)
  {
    forall q ensures CountAll([n], [], q, rules) == Asked(n, q, rules) {
      CountOne(n, [], q, rules);
    }
    hide CountAll, Asked, StatsOf, Records;
    RecordsHere(n, rules);
    RecordsSame(StatsOf(n, rules), q => Asked(n, q, rules), q => CountAll([n], [], q, rules));
  }

  /** A single document's profile tells of that document. */
  lemma {:induction false} FromNodeTells(n: Json.Node, p: seq<Step>, rules: NumberRules)
    ensures Tells(At(FromNode(n, rules), p), [n], p, rules)
    decreases n, 1
  {
    if p == [] {
      TellsHere(n, rules);
    } else {
      forall q ensures CountAll([n], p, q, rules) == CountIn(n, p, q, rules) {
        CountOne(n, p, q, rules);
      }
      match p[0]
      case Key(k) =>
        if n.Object? && k in Json.Keys(n.fields) {
          var c := Lookup(n.fields, k);
          FromNodeTells(c, p[1..], rules);
          forall q ensures CountAll([c], p[1..], q, rules) == CountAll([n], p, q, rules) {
            CountOne(c, p[1..], q, rules);
          }
          TellsSame(At(FromNode(n, rules), p), [c], p[1..], [n], p, rules);
        }
      case Elem =>
        if n.Array? {
          FromItemsTells(n.items, p[1..], rules);
          TellsSame(At(FromNode(n, rules), p), n.items, p[1..], [n], p, rules);
        }
    }
  }

  /** `Tells` depends only on the counts. */
  lemma TellsSame(f: Option<FieldNode>, a: seq<Json.Node>, p: seq<Step>, b: seq<Json.Node>, r: seq<Step>,
                  rules: NumberRules)
    requires Tells(f, a, p, rules)
    requires forall q :: CountAll(a, p, q, rules) == CountAll(b, r, q, rules)
    ensures Tells(f, b, r, rules)
  {
    hide CountAll;
  }

  lemma {:induction false} FromItemsTells(items: seq<Json.Node>, p: seq<Step>, rules: NumberRules)
    ensures Tells(AtOption(FromItems(items, rules), p), items, p, rules)
    decreases items, 0
  {
    if items != [] {
      var n := |items| - 1;
      FromItemsTells(items[..n], p, rules);
      FromNodeTells(items[n], p, rules);
      var f, g := FromItems(items[..n], rules), FromNode(items[n], rules);
      assert items == items[..n] + [items[n]];
      TellsMerge(AtOption(f, p), At(g, p), items[..n], [items[n]], p, rules);
      if f.Some? {
        AtMerge(f.value, g, p);
      }
    }
  }

  // ---- any documents, merged in any bracketing ----

  /** A bracketing of merges over single documents. */
  datatype Merging = Doc(doc: Json.Node) | Both(left: Merging, right: Merging)

  function Docs(m: Merging): (docs: seq<Json.Node>)
    ensures docs != []
  {
    match m case Doc(d) => [d] case Both(l, r) => Docs(l) + Docs(r)
  }

  function Observed(m: Merging, rules: NumberRules): Profile {
    match m case Doc(d) => ProfileOf(d, rules) case Both(l, r) => MergeProfiles(Observed(l, rules), Observed(r, rules))
  }

  /** At every path, a merged profile tells exactly what its documents show there. */
  lemma {:induction false} ProfileCounts(m: Merging, p: seq<Step>, rules: NumberRules)
    ensures Observed(m, rules).count == |Docs(m)|
    ensures Tells(At(Observed(m, rules).root, p), Docs(m), p, rules)
  {
    match m
    case Doc(d) => FromNodeTells(d, p, rules);
    case Both(l, r) =>
      ProfileCounts(l, p, rules);
      ProfileCounts(r, p, rules);
      var f, g := Observed(l, rules).root, Observed(r, rules).root;
      AtMerge(f, g, p);
      TellsMerge(At(f, p), At(g, p), Docs(l), Docs(r), p, rules);
  }

  // ---- order and bracketing do not matter ----

  lemma CountRemove(b: seq<Json.Node>, i: nat, p: seq<Step>, q: Question, rules: NumberRules)
    requires i < |b|
    ensures CountAll(b, p, q, rules) == CountAll(b[..i] + b[i + 1..], p, q, rules) + CountIn(b[i], p, q, rules)
  {
    hide CountAll, CountIn;
    assert b == b[..i] + [b[i]] + b[i + 1..];
    CountConcat(b[..i] + [b[i]], b[i + 1..], p, q, rules);
    CountConcat(b[..i], [b[i]], p, q, rules);
    CountConcat(b[..i], b[i + 1..], p, q, rules);
    CountOne(b[i], p, q, rules);
  }

  lemma MultisetCancel<T>(m: multiset<T>, n: multiset<T>, x: T)
    requires m + multiset{x} == n + multiset{x}
    ensures m == n
  {
    assert m == (m + multiset{x}) - multiset{x};
    assert n == (n + multiset{x}) - multiset{x};
  }

  lemma RemoveSame<T>(a: seq<T>, b: seq<T>) returns (i: nat)
    requires multiset(a) == multiset(b) && a != []
    ensures i < |b| && b[i] == a[|a| - 1]
    ensures multiset(a[..|a| - 1]) == multiset(b[..i] + b[i + 1..])
  {
    var n := |a| - 1;
    assert a == a[..n] + [a[n]];
    assert a[n] in multiset(b);
    i :| 0 <= i < |b| && b[i] == a[n];
    assert b == b[..i] + [b[i]] + b[i + 1..];
    MultisetCancel(multiset(a[..n]), multiset(b[..i] + b[i + 1..]), a[n]);
  }

  lemma {:induction false} CountPermuted(a: seq<Json.Node>, b: seq<Json.Node>, p: seq<Step>, q: Question,
                                         rules: NumberRules)
    requires multiset(a) == multiset(b)
    ensures CountAll(a, p, q, rules) == CountAll(b, p, q, rules)
    decreases |a|
  {
    hide CountIn;
    if a == [] {
      assert |b| == |multiset(b)| == 0;
    } else {
      var i := RemoveSame(a, b);
      CountPermuted(a[..|a| - 1], b[..i] + b[i + 1..], p, q, rules);
      CountRemove(b, i, p, q, rules);
    }
  }

  /** A profile is determined by what it records at each path. */
  lemma {:induction false} Extensional(f: FieldNode, g: FieldNode)
    requires forall p :: At(f, p).Some? == At(g, p).Some?
    requires forall p :: At(f, p).Some? ==> At(f, p).value.stats == At(g, p).value.stats
    ensures f == g
    decreases f
  {
    assert At(f, []) == Some(f) && At(g, []) == Some(g);
    forall s ensures Child(f, s) == Child(g, s) {
      assert At(f, [s]) == Child(f, s) by { At1(f, s); }
      assert At(g, [s]) == Child(g, s) by { At1(g, s); }
      if Child(f, s).Some? {
        var x, y := Child(f, s).value, Child(g, s).value;
        forall p ensures At(f, [s] + p) == At(x, p) && At(g, [s] + p) == At(y, p) {
          assert ([s] + p)[1..] == p;
        }
        assert x < f by { ChildSmaller(f, s); }
        Extensional(x, y);
      }
    }
    assert Child(f, Elem) == Child(g, Elem);
    forall k ensures Get(f.children, k) == Get(g.children, k) {
      assert Child(f, Key(k)) == Child(g, Key(k));
    }
    SameNode(f, g);
  }

  lemma At1(f: FieldNode, s: Step)
    ensures At(f, [s]) == Child(f, s)
  {
    assert [s][1..] == [];
  }

  lemma ChildSmaller(f: FieldNode, s: Step)
    requires Child(f, s).Some?
    ensures Child(f, s).value < f
  {
  }

  /** Equal counts are recorded equally. */
  lemma TellsAlike(f: Option<FieldNode>, a: seq<Json.Node>, g: Option<FieldNode>, b: seq<Json.Node>, p: seq<Step>,
                   rules: NumberRules)
    requires Tells(f, a, p, rules) && Tells(g, b, p, rules)
    requires forall q :: CountAll(a, p, q, rules) == CountAll(b, p, q, rules)
    ensures f.Some? == g.Some? && (f.Some? ==> f.value.stats == g.value.stats)
  {
    hide CountAll;
  }

  /** Two ways of merging the same documents, in any order and bracketing, give one profile. */
  lemma MergeOrderIrrelevant(m: Merging, m': Merging, rules: NumberRules)
    requires multiset(Docs(m)) == multiset(Docs(m'))
    ensures Observed(m, rules) == Observed(m', rules)
  {
    hide CountAll, At, Observed, Docs, Tells;
    var f, g := Observed(m, rules).root, Observed(m', rules).root;
    assert |Docs(m)| == |multiset(Docs(m))| == |multiset(Docs(m'))| == |Docs(m')|;
    ProfileCounts(m, [], rules);
    ProfileCounts(m', [], rules);
    forall p
      ensures At(f, p).Some? == At(g, p).Some?
      ensures At(f, p).Some? ==> At(f, p).value.stats == At(g, p).value.stats
    {
      ProfileCounts(m, p, rules);
      ProfileCounts(m', p, rules);
      forall q ensures CountAll(Docs(m), p, q, rules) == CountAll(Docs(m'), p, q, rules) {
        CountPermuted(Docs(m), Docs(m'), p, q, rules);
      }
      TellsAlike(At(f, p), Docs(m), At(g, p), Docs(m'), p, rules);
    }
    Extensional(f, g);
  }
}
