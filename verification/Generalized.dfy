/** The generalized view of a profile: which fields are optional and which types each was seen to hold. */
module Generalized {
  import opened Options
  import opened Utf8
  import opened KeyOrder
  import opened Profiles
  import opened Counting

  datatype TypeSupport = TypeSupport(arrays: bool, bools: bool, nulls: bool, numbers: bool, objects: bool,
    strings: bool)

  function Support(t: TypeCounts): TypeSupport {
    TypeSupport(t.arrays > 0, t.bools > 0, t.nulls > 0, t.numbers > 0, t.objects > 0, t.strings > 0)
  }

  /** What is written of one position: a field is optional when it was seen less often than `denom`. */
  datatype View = View(optional: bool, support: TypeSupport, children: seq<ViewField>, elem: Option<View>)
  datatype ViewField = ViewField(key: seq<byte>, view: View)

  // ---- keys in the order a `BTreeMap` lists them ----

  function InsertKey(k: seq<byte>, ks: seq<seq<byte>>): seq<seq<byte>> {
    if ks == [] then [k]
    else if KeyLess(k, ks[0]) then [k] + ks
    else [ks[0]] + InsertKey(k, ks[1..])
  }

  lemma {:induction false} InsertKeySorted(k: seq<byte>, ks: seq<seq<byte>>)
    requires SortedKeys(ks) && k !in ks
    ensures SortedKeys(InsertKey(k, ks))
    ensures forall x :: x in InsertKey(k, ks) <==> x == k || x in ks
    decreases |ks|
  {
    if ks != [] {
      CompareKeysFlip(k, ks[0]);
      assert ks == [ks[0]] + ks[1..];
      if KeyLess(k, ks[0]) {
        forall j | 0 <= j < |ks| ensures KeyLess(k, ks[j]) {
          if j > 0 { KeyLessTransitive(k, ks[0], ks[j]); }
        }
      } else {
        InsertKeySorted(k, ks[1..]);
        var r := InsertKey(k, ks[1..]);
        forall j | 0 <= j < |r| ensures KeyLess(ks[0], r[j]) {
          assert r[j] in r;
        }
      }
    }
  }

  /** The keys in increasing order. */
  ghost function Listing(ks: set<seq<byte>>): (r: seq<seq<byte>>)
    ensures SortedKeys(r) && forall k :: k in r <==> k in ks
  {
    if ks == {} then []
    else
      var k :| k in ks;
      InsertKeySorted(k, Listing(ks - {k}));
      InsertKey(k, Listing(ks - {k}))
  }

  lemma {:induction false} ListingUnique(xs: seq<seq<byte>>, ys: seq<seq<byte>>)
    requires SortedKeys(xs) && SortedKeys(ys) && forall k :: k in xs <==> k in ys
    ensures xs == ys
    decreases |xs|
  {
    assert xs != [] ==> xs[0] in xs;
    assert ys != [] ==> ys[0] in ys;
    if xs != [] {
      var i :| 0 <= i < |ys| && ys[i] == xs[0];
      var j :| 0 <= j < |xs| && xs[j] == ys[0];
      CompareKeysFlip(xs[0], ys[0]);
      CompareKeysFlip(xs[0], xs[0]);
      assert xs[0] == ys[0];
      forall k ensures k in xs[1..] <==> k in ys[1..] {
        assert k in xs <==> k == xs[0] || k in xs[1..];
        assert k in ys <==> k == ys[0] || k in ys[1..];
      }
      ListingUnique(xs[1..], ys[1..]);
    }
  }

  ghost function ViewOf(f: FieldNode, denom: nat): View
    decreases f
  {
    var ks := Listing(f.children.Keys);
    View(f.stats.present < denom, Support(f.stats.types),
         seq(|ks|, i requires 0 <= i < |ks| =>
           assert ks[i] in f.children; ViewField(ks[i], ViewOf(f.children[ks[i]], f.stats.types.objects))),
         match f.arrayElem case None => None case Some(e) => Some(ViewOf(e, f.stats.types.arrays)))
  }

  ghost function ProfileView(p: Profile): View {
    ViewOf(p.root, p.count)
  }

  // ---- optionality ----

  /** The number the presence of `f`'s child at step `s` is held against. */
  function Denominator(f: FieldNode, s: Step): nat {
    match s case Key(_) => f.stats.types.objects case Elem => f.stats.types.arrays
  }

  /** What the generalized view says at a path: nothing, or the optional flag and the types. */
  datatype Flags = Absent | Flags(optional: bool, support: TypeSupport)

  function FlagsAt(f: FieldNode, denom: nat, p: seq<Step>): Flags
    decreases |p|
  {
    if p == [] then Flags(f.stats.present < denom, Support(f.stats.types))
    else match Child(f, p[0])
      case None => Absent
      case Some(c) => FlagsAt(c, Denominator(f, p[0]), p[1..])
  }

  /** Every path below the two positions carries the same flags. */
  ghost predicate SameFlags(f: FieldNode, m: nat, g: FieldNode, n: nat) {
    forall p :: FlagsAt(f, m, p) == FlagsAt(g, n, p)
  }

  ghost predicate SameBelow(f: FieldNode, g: FieldNode, s: Step) {
    forall p :: BelowFlags(f, s, p) == BelowFlags(g, s, p)
  }

  /** Two positions have one view exactly when every path below them carries the same flags. */
  lemma {:induction false} ViewsAgree(f: FieldNode, m: nat, g: FieldNode, n: nat)
    ensures ViewOf(f, m) == ViewOf(g, n) <==> SameFlags(f, m, g, n)
    decreases f, 1
  {
    hide ViewOf, ChildView, SameBelow, SameFlags;
    forall s ensures ChildView(f, s) == ChildView(g, s) <==> SameBelow(f, g, s) {
      ChildrenAgree(f, g, s);
    }
    ByChildren(f, m, g, n);
    Paths(f, m, g, n);
  }

  lemma {:induction false} ChildrenAgree(f: FieldNode, g: FieldNode, s: Step)
    ensures ChildView(f, s) == ChildView(g, s) <==> SameBelow(f, g, s)
    decreases f, 0
  {
    hide ViewOf, FlagsAt;
    if Child(f, s).Some? && Child(g, s).Some? {
      var x, y := Child(f, s).value, Child(g, s).value;
      ChildSmaller(f, s);
      ViewsAgree(x, Denominator(f, s), y, Denominator(g, s));
      if SameBelow(f, g, s) {
        forall p ensures FlagsAt(x, Denominator(f, s), p) == FlagsAt(y, Denominator(g, s), p) {
          assert BelowFlags(f, s, p) == BelowFlags(g, s, p);
        }
      }
    } else {
      BelowHere(f, s);
      BelowHere(g, s);
    }
  }

  ghost function ChildView(f: FieldNode, s: Step): Option<View> {
    match Child(f, s) case None => None case Some(c) => Some(ViewOf(c, Denominator(f, s)))
  }

  function BelowFlags(f: FieldNode, s: Step, p: seq<Step>): Flags {
    match Child(f, s) case None => Absent case Some(c) => FlagsAt(c, Denominator(f, s), p)
  }

  lemma BelowHere(f: FieldNode, s: Step)
    ensures BelowFlags(f, s, []) == Absent <==> Child(f, s).None?
  {
  }

  lemma Below(f: FieldNode, m: nat, s: Step, p: seq<Step>)
    ensures FlagsAt(f, m, [s] + p) == BelowFlags(f, s, p)
  {
    assert ([s] + p)[1..] == p;
  }

  lemma Paths(f: FieldNode, m: nat, g: FieldNode, n: nat)
    ensures SameFlags(f, m, g, n) <==> FlagsAt(f, m, []) == FlagsAt(g, n, []) && forall s :: SameBelow(f, g, s)
  {
    hide FlagsAt, BelowFlags;
    if SameFlags(f, m, g, n) {
      forall s, p ensures BelowFlags(f, s, p) == BelowFlags(g, s, p) {
        Below(f, m, s, p);
        Below(g, n, s, p);
      }
    }
    if FlagsAt(f, m, []) == FlagsAt(g, n, []) && forall s :: SameBelow(f, g, s) {
      forall p ensures FlagsAt(f, m, p) == FlagsAt(g, n, p) {
        if p != [] {
          assert p == [p[0]] + p[1..];
          Below(f, m, p[0], p[1..]);
          Below(g, n, p[0], p[1..]);
          assert SameBelow(f, g, p[0]);
        }
      }
    }
  }

  /** A view is its own flags and the views of its children. */
  lemma ByChildren(f: FieldNode, m: nat, g: FieldNode, n: nat)
    ensures ViewOf(f, m) == ViewOf(g, n)
       <==> FlagsAt(f, m, []) == FlagsAt(g, n, []) && forall s :: ChildView(f, s) == ChildView(g, s)
  {
    var v, w := ViewOf(f, m), ViewOf(g, n);
    assert ChildView(f, Elem) == v.elem && ChildView(g, Elem) == w.elem;
    if v == w {
      forall s ensures ChildView(f, s) == ChildView(g, s) {
        if s.Key? {
          FindChild(f, m, s.key);
          FindChild(g, n, s.key);
        }
      }
    }
    if FlagsAt(f, m, []) == FlagsAt(g, n, []) && forall s :: ChildView(f, s) == ChildView(g, s) {
      forall k ensures k in f.children <==> k in g.children {
        assert ChildView(f, Key(k)) == ChildView(g, Key(k));
      }
      ListingUnique(Listing(f.children.Keys), Listing(g.children.Keys));
      var ks := Listing(f.children.Keys);
      forall i | 0 <= i < |ks| ensures v.children[i] == w.children[i] {
        assert ks[i] in f.children;
        assert ChildView(f, Key(ks[i])) == ChildView(g, Key(ks[i]));
      }
      assert v.children == w.children;
    }
  }

  /** The view of one key, looked up in the list of children. */
  lemma FindChild(f: FieldNode, m: nat, k: seq<byte>)
    ensures ChildView(f, Key(k)).Some? <==>
      exists i :: 0 <= i < |ViewOf(f, m).children| && ViewOf(f, m).children[i].key == k
    ensures forall i | 0 <= i < |ViewOf(f, m).children| && ViewOf(f, m).children[i].key == k ::
              ChildView(f, Key(k)) == Some(ViewOf(f, m).children[i].view)
  {
    var ks := Listing(f.children.Keys);
    if k in f.children {
      assert k in ks;
      var i :| 0 <= i < |ks| && ks[i] == k;
      assert ViewOf(f, m).children[i].key == k;
    }
    forall i | 0 <= i < |ks| ensures ks[i] in f.children {
      assert ks[i] in ks;
    }
  }
}
