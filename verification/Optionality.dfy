/** When the generalized view calls a field optional, and how that changes with more evidence. */
module Optionality {
  import opened Options
  import opened Utf8
  import opened Identity
  import opened Profiles
  import opened Counting
  import opened Generalized
  import Json

  // ---- the last step of a path ----

  lemma {:induction false} AtSnoc(f: FieldNode, p: seq<Step>, s: Step)
    ensures At(f, p + [s]) == match At(f, p) case None => None case Some(g) => Child(g, s)
    decreases |p|
  {
    if p == [] {
      assert p + [s] == [s];
      At1(f, s);
    } else {
      assert (p + [s])[0] == p[0] && (p + [s])[1..] == p[1..] + [s];
      if Child(f, p[0]).Some? {
        AtSnoc(Child(f, p[0]).value, p[1..], s);
      }
    }
  }

  lemma {:induction false} FlagsSnoc(f: FieldNode, m: nat, p: seq<Step>, s: Step)
    requires At(f, p + [s]).Some?
    ensures At(f, p).Some?
    ensures var c := At(f, p + [s]).value;
      FlagsAt(f, m, p + [s]) == Flags(c.stats.present < Denominator(At(f, p).value, s), Support(c.stats.types))
    decreases |p|
  {
    AtSnoc(f, p, s);
    if p == [] {
      assert p + [s] == [s];
      assert [s][1..] == [];
    } else {
      assert (p + [s])[0] == p[0] && (p + [s])[1..] == p[1..] + [s];
      FlagsSnoc(Child(f, p[0]).value, Denominator(f, p[0]), p[1..], s);
    }
  }

  lemma {:induction false} FlagsPresent(f: FieldNode, m: nat, p: seq<Step>)
    ensures FlagsAt(f, m, p).Flags? <==> At(f, p).Some?
    ensures At(f, p).Some? ==> FlagsAt(f, m, p).support == Support(At(f, p).value.stats.types)
    decreases |p|
  {
    if p != [] && Child(f, p[0]).Some? {
      FlagsPresent(Child(f, p[0]).value, Denominator(f, p[0]), p[1..]);
    }
  }

  // ---- objects seen with and without a key ----

  lemma {:induction false} LacksIn(n: Json.Node, p: seq<Step>, k: seq<byte>, rules: NumberRules)
    ensures CountIn(n, p, IsObject, rules) == CountIn(n, p + [Key(k)], Present, rules) + CountIn(n, p, Lacks(k), rules)
    decreases n, 1
  {
    var r := p + [Key(k)];
    if p == [] {
      assert r == [Key(k)] && r[1..] == [];
    } else {
      assert r[0] == p[0] && r[1..] == p[1..] + [Key(k)];
      match p[0]
      case Key(j) =>
        if n.Object? && j in Json.Keys(n.fields) {
          LacksIn(Lookup(n.fields, j), p[1..], k, rules);
        }
      case Elem =>
        if n.Array? {
          LacksAll(n.items, p[1..], k, rules);
        }
    }
  }

  /** Every object observed at `p` either carried `k` or lacked it. */
  lemma {:induction false} LacksAll(docs: seq<Json.Node>, p: seq<Step>, k: seq<byte>, rules: NumberRules)
    ensures CountAll(docs, p, IsObject, rules)
      == CountAll(docs, p + [Key(k)], Present, rules) + CountAll(docs, p, Lacks(k), rules)
    decreases docs, 0
  {
    if docs != [] {
      LacksAll(docs[..|docs| - 1], p, k, rules);
      LacksIn(docs[|docs| - 1], p, k, rules);
    }
  }

  /** A field is optional exactly when some object observed at its parent lacked it. */
  lemma OptionalExactly(m: Merging, p: seq<Step>, k: seq<byte>, rules: NumberRules)
    requires var f := Observed(m, rules); At(f.root, p + [Key(k)]).Some?
    ensures var f := Observed(m, rules);
      FlagsAt(f.root, f.count, p + [Key(k)]).Flags?
      && (FlagsAt(f.root, f.count, p + [Key(k)]).optional <==> CountAll(Docs(m), p, Lacks(k), rules) > 0)
  {
    hide CountAll, At, FlagsAt, Observed, Docs;
    var f := Observed(m, rules);
    FlagsSnoc(f.root, f.count, p, Key(k));
    ProfileCounts(m, p, rules);
    ProfileCounts(m, p + [Key(k)], rules);
    LacksAll(Docs(m), p, k, rules);
  }

  lemma {:induction false} RootCount(docs: seq<Json.Node>, rules: NumberRules)
    ensures CountAll(docs, [], Present, rules) == |docs|
    decreases |docs|
  {
    if docs != [] {
      RootCount(docs[..|docs| - 1], rules);
    }
  }

  /** The root is never optional. */
  lemma RootRequired(m: Merging, rules: NumberRules)
    ensures var f := Observed(m, rules); FlagsAt(f.root, f.count, []).Flags? && !FlagsAt(f.root, f.count, []).optional
  {
    ProfileCounts(m, [], rules);
    RootCount(Docs(m), rules);
  }

  predicate Covers(a: TypeSupport, b: TypeSupport) {
    && (b.arrays ==> a.arrays) && (b.bools ==> a.bools) && (b.nulls ==> a.nulls)
    && (b.numbers ==> a.numbers) && (b.objects ==> a.objects) && (b.strings ==> a.strings)
  }

  /** More evidence removes no position and no type. */
  lemma MoreEvidenceKeeps(l: Merging, r: Merging, p: seq<Step>, rules: NumberRules)
    ensures var f, g := Observed(l, rules), Observed(Both(l, r), rules);
      FlagsAt(f.root, f.count, p).Flags? ==>
        FlagsAt(g.root, g.count, p).Flags?
          && Covers(FlagsAt(g.root, g.count, p).support, FlagsAt(f.root, f.count, p).support)
  {
    hide At, FlagsAt, Merge;
    var f, g, h := Observed(l, rules), Observed(Both(l, r), rules), Observed(r, rules);
    FlagsPresent(f.root, f.count, p);
    FlagsPresent(g.root, g.count, p);
    AtMerge(f.root, h.root, p);
    if At(f.root, p).Some? && At(h.root, p).Some? {
      MergeParts(At(f.root, p).value, At(h.root, p).value);
    }
  }

  /** More evidence never makes an optional object field required. */
  lemma OptionalStays(l: Merging, r: Merging, p: seq<Step>, k: seq<byte>, rules: NumberRules)
    requires var f := Observed(l, rules);
      FlagsAt(f.root, f.count, p + [Key(k)]).Flags? && FlagsAt(f.root, f.count, p + [Key(k)]).optional
    ensures var g := Observed(Both(l, r), rules);
      FlagsAt(g.root, g.count, p + [Key(k)]).Flags? && FlagsAt(g.root, g.count, p + [Key(k)]).optional
  {
    hide At, FlagsAt, Merge, CountAll;
    var f, g := Observed(l, rules), Observed(Both(l, r), rules);
    var path := p + [Key(k)];
    FlagsPresent(f.root, f.count, path);
    MoreEvidenceKeeps(l, r, path, rules);
    FlagsPresent(g.root, g.count, path);
    OptionalExactly(l, p, k, rules);
    OptionalExactly(Both(l, r), p, k, rules);
    CountConcat(Docs(l), Docs(r), p, Lacks(k), rules);
  }

  /** An array's elements are called optional exactly when fewer elements than arrays were seen. */
  lemma ElementOptionalExactly(m: Merging, p: seq<Step>, rules: NumberRules)
    requires var f := Observed(m, rules); At(f.root, p + [Elem]).Some?
    ensures var f := Observed(m, rules);
      FlagsAt(f.root, f.count, p + [Elem]).Flags?
      && (FlagsAt(f.root, f.count, p + [Elem]).optional
          <==> CountAll(Docs(m), p + [Elem], Present, rules) < CountAll(Docs(m), p, IsArray, rules))
  {
    hide CountAll, At, FlagsAt, Observed, Docs;
    var f := Observed(m, rules);
    FlagsSnoc(f.root, f.count, p, Elem);
    ProfileCounts(m, p, rules);
    ProfileCounts(m, p + [Elem], rules);
  }

  lemma ElemFlags(f: FieldNode, m: nat)
    requires f.arrayElem.Some?
    ensures FlagsAt(f, m, [Elem]).Flags?
    ensures FlagsAt(f, m, [Elem]).optional <==> f.arrayElem.value.stats.present < f.stats.types.arrays
  {
    assert [Elem][1..] == [];
  }

  lemma {:induction false} ArraysOfOnes(one: Json.Node, rules: NumberRules)
    requires one.Number?
    ensures var x := FromNode(one, rules);
      && x.stats.present == 1
      && FromItems([], rules) == None && FromItems([one], rules) == Some(x)
      && FromItems([one, one], rules) == Some(Merge(x, x))
  {
    hide Merge, FromNode;
    assert [one][..0] == [] && [one, one][..1] == [one];
    PresentOnce(one, rules);
  }

  lemma {:induction false} PresentOnce(one: Json.Node, rules: NumberRules)
    ensures FromNode(one, rules).stats.present == 1
  {
  }

  /** So for elements the flag is not monotone: `[1]` and `[]` make the elements optional, and
      a further `[1,1]` makes them required again. */
  lemma ElementFlagReturns(one: Json.Node, rules: NumberRules)
    requires one == Json.Number([0x31])
    ensures var l := Both(Doc(Json.Array([one], false)), Doc(Json.Array([], false)));
      var r := Doc(Json.Array([one, one], false));
      var f, g := Observed(l, rules), Observed(Both(l, r), rules);
      FlagsAt(f.root, f.count, [Elem]).Flags? && FlagsAt(f.root, f.count, [Elem]).optional
      && FlagsAt(g.root, g.count, [Elem]).Flags? && !FlagsAt(g.root, g.count, [Elem]).optional
  {
    hide Merge, FlagsAt, FromItems;
    ArraysOfOnes(one, rules);
    var x := FromNode(one, rules);
    var a := FromNode(Json.Array([one], false), rules);
    var b := FromNode(Json.Array([], false), rules);
    var c := FromNode(Json.Array([one, one], false), rules);
    Numbers(a, b);
    Numbers(Merge(a, b), c);
    Numbers(x, x);
    Numbers(x, Merge(x, x));
    ElemFlags(Merge(a, b), 2);
    ElemFlags(Merge(Merge(a, b), c), 3);
  }

  /** The numbers of a merge that the element flag compares. */
  lemma Numbers(f: FieldNode, g: FieldNode)
    ensures Merge(f, g).stats.types.arrays == f.stats.types.arrays + g.stats.types.arrays
    ensures Merge(f, g).stats.present == f.stats.present + g.stats.present
    ensures Merge(f, g).arrayElem == MergeOptions(f.arrayElem, g.arrayElem)
  {
  }

  // ---- merging a profile with itself ----

  lemma {:induction false} DoubledFlags(f: FieldNode, m: nat, p: seq<Step>)
    ensures FlagsAt(Merge(f, f), m + m, p) == FlagsAt(f, m, p)
    decreases |p|
  {
    hide Merge;
    MergeParts(f, f);
    if p != [] {
      assert Child(Merge(f, f), p[0]) == MergeOptions(Child(f, p[0]), Child(f, p[0]));
      if Child(f, p[0]).Some? {
        var c := Child(f, p[0]).value;
        assert Child(Merge(f, f), p[0]) == Some(Merge(c, c));
        DoubledFlags(c, Denominator(f, p[0]), p[1..]);
      }
    }
  }

  /** Merging a profile with itself leaves its generalized view unchanged. */
  lemma SelfMergeSameView(a: Profile)
    ensures ProfileView(MergeProfiles(a, a)) == ProfileView(a)
  {
    hide Merge, FlagsAt, ViewOf;
    var b := MergeProfiles(a, a);
    forall p ensures FlagsAt(b.root, b.count, p) == FlagsAt(a.root, a.count, p) {
      DoubledFlags(a.root, a.count, p);
    }
    ViewsAgree(b.root, b.count, a.root, a.count);
  }
}
