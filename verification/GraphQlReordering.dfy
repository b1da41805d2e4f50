/** What the order of selections does to the two scores of src/graphql/gateway.ts: nothing to the
    complexity; the depth can only fall short of that of an order for which it is exact. */
module GraphQlReordering {
  import opened Numbers
  import opened Options
  import opened GraphQlScoring
  import opened GraphQlDepth

  /** The same selections in another order, at every nesting level. */
  ghost predicate Reordered(a: seq<Selection>, b: seq<Selection>)
    decreases a
  {
    if a == [] then b == []
    else exists k: nat :: k < |b| && Matches(a[|a| - 1], b[k]) && Reordered(a[..|a| - 1], Without(b, k))
  }

  ghost predicate Matches(s: Selection, t: Selection)
    decreases s
  {
    match s
    case Field(name, alias, children) =>
      t.Field? && t.name == name && t.alias == alias && Reordered(children, t.children)
    case Inline(inner) => t.Inline? && Reordered(inner, t.inner)
    case _ => s == t
  }

  function Without(s: seq<Selection>, k: nat): seq<Selection>
    requires k < |s|
  {
    s[..k] + s[k + 1..]
  }

  lemma {:induction false} OwnWithout(s: seq<Selection>, k: nat)
    requires k < |s|
    ensures Own(s) == Add(Own(Without(s, k)), OwnOne(s[k]))
  {
    hide OwnOne, Add;
    var n := |s| - 1;
    if k == n {
      assert Without(s, k) == s[..n];
    } else {
      OwnWithout(s[..n], k);
      assert Without(s, k)[..n - 1] == Without(s[..n], k) && Without(s, k)[n - 1] == s[n];
      assert s[..n][k] == s[k];
      AddLaws(Own(Without(s[..n], k)), OwnOne(s[k]), OwnOne(s[n]));
      AddLaws(Own(Without(s[..n], k)), OwnOne(s[n]), OwnOne(s[k]));
      AddLaws(OwnOne(s[n]), OwnOne(s[k]), NOTHING);
    }
  }

  lemma {:induction false} ReorderedOwn(a: seq<Selection>, b: seq<Selection>)
    requires Reordered(a, b)
    ensures Own(a) == Own(b)
    decreases a
  {
    hide OwnOne, Add, Matches;
    if a != [] {
      var k: nat :| k < |b| && Matches(a[|a| - 1], b[k]) && Reordered(a[..|a| - 1], Without(b, k));
      ReorderedOwn(a[..|a| - 1], Without(b, k));
      MatchesOwn(a[|a| - 1], b[k]);
      OwnWithout(b, k);
    }
  }

  lemma {:induction false} MatchesOwn(s: Selection, t: Selection)
    requires Matches(s, t)
    ensures OwnOne(s) == OwnOne(t)
    decreases s
  {
    hide Own, Add, Reordered;
    match s {
      case Field(_, _, children) => ReorderedOwn(children, t.children);
      case Inline(inner) => ReorderedOwn(inner, t.inner);
      case _ =>
    }
  }

  // ----- Documents -----

  ghost predicate ReorderedDefinition(a: Definition, b: Definition) {
    match a
    case Operation(selections) => b.Operation? && Reordered(selections, b.selections)
    case Fragment(name, body) => b.Fragment? && b.name == name && Reordered(body, b.body)
    case Other => b.Other?
  }

  ghost predicate ReorderedDocument(a: seq<Definition>, b: seq<Definition>) {
    |a| == |b| && forall i :: 0 <= i < |a| ==> ReorderedDefinition(a[i], b[i])
  }

  /** Fragments of the same names, with their selections in another order. */
  ghost predicate SameBodies(f: Fragments, g: Fragments) {
    f.Keys == g.Keys && forall n :: n in f ==> Reordered(f[n], g[n])
  }

  /** Fragments of the same names that hold the same fields and spreads. */
  ghost predicate SameOwn(f: Fragments, g: Fragments) {
    f.Keys == g.Keys && forall n :: n in f ==> Own(f[n]) == Own(g[n])
  }

  lemma {:induction false} ReorderedFragments(a: seq<Definition>, b: seq<Definition>)
    requires ReorderedDocument(a, b)
    ensures SameBodies(FragmentsOf(a), FragmentsOf(b))
  {
    hide Reordered;
    if a != [] {
      var n := |a| - 1;
      ReorderedFragments(a[..n], b[..n]);
      assert ReorderedDefinition(a[n], b[n]);
    }
  }

  lemma SameBodiesOwn(f: Fragments, g: Fragments)
    requires SameBodies(f, g)
    ensures SameOwn(f, g)
  {
    hide Reordered, Own;
    forall n | n in f ensures Own(f[n]) == Own(g[n]) {
      ReorderedOwn(f[n], g[n]);
    }
  }

  lemma SameReachable(f: Fragments, g: Fragments, a: seq<Selection>, b: seq<Selection>)
    requires SameOwn(f, g) && Own(a) == Own(b)
    ensures Reachable(f, a) == Reachable(g, b)
  {
    hide Own, SpreadChain;
    forall n | n in f ensures Reaches(f, a, n) <==> Reaches(g, b, n) {
      forall chain ensures SpreadChain(f, a, chain, n) <==> SpreadChain(g, b, chain, n) {
        SameChain(f, g, a, b, chain, n);
      }
    }
  }

  lemma SameChain(f: Fragments, g: Fragments, a: seq<Selection>, b: seq<Selection>, chain: seq<string>, n: string)
    requires SameOwn(f, g) && Own(a) == Own(b)
    ensures SpreadChain(f, a, chain, n) <==> SpreadChain(g, b, chain, n)
  {
    hide Own;
  }

  lemma {:induction false} SameSum(f: Fragments, g: Fragments, names: set<string>)
    requires SameOwn(f, g) && names <= f.Keys
    ensures SumOver(f, names) == SumOver(g, names)
    decreases names
  {
    hide Own, Add;
    if names != {} {
      var n :| n in names;
      SumOverRemove(f, names, n);
      SumOverRemove(g, names, n);
      SameSum(f, g, names - {n});
    }
  }

  lemma {:induction false} SameTotal(f: Fragments, g: Fragments, a: seq<Definition>, b: seq<Definition>)
    requires SameOwn(f, g) && ReorderedDocument(a, b)
    ensures DocumentTotal(f, a) == DocumentTotal(g, b)
  {
    hide Reordered, Own, Reaches, SumOver, Add;
    if a != [] {
      var n := |a| - 1;
      SameTotal(f, g, a[..n], b[..n]);
      assert ReorderedDefinition(a[n], b[n]);
      if a[n].Operation? {
        ReorderedOwn(a[n].selections, b[n].selections);
        SameReachable(f, g, a[n].selections, b[n].selections);
        SameSum(f, g, Reachable(f, a[n].selections));
      }
    }
  }

  /** The complexity does not depend on the order of selections, at any nesting, in operations or fragments. */
  lemma ComplexityIgnoresOrder(a: seq<Definition>, b: seq<Definition>)
    requires ReorderedDocument(a, b)
    ensures Complexity(a) == Complexity(b)
  {
    hide Score, DocumentTotal, FragmentsOf, ReorderedDocument, SameBodies, SameOwn;
    ReorderedFragments(a, b);
    SameBodiesOwn(FragmentsOf(a), FragmentsOf(b));
    SameTotal(FragmentsOf(a), FragmentsOf(b), a, b);
  }

  // ----- A reordering has the same expansion -----

  lemma {:induction false} PartnerAfter(a: seq<Selection>, b: seq<Selection>, s: Selection) returns (t: Selection)
    requires Reordered(a, b) && s in a
    ensures t in b && Matches(s, t)
    decreases |a|
  {
    hide Matches;
    var n := |a| - 1;
    var k: nat :| k < |b| && Matches(a[n], b[k]) && Reordered(a[..n], Without(b, k));
    if s in a[..n] {
      t := PartnerAfter(a[..n], Without(b, k), s);
    } else {
      t := b[k];
    }
  }

  lemma {:induction false} PartnerBefore(a: seq<Selection>, b: seq<Selection>, t: Selection) returns (s: Selection)
    requires Reordered(a, b) && t in b
    ensures s in a && Matches(s, t)
    decreases |a|
  {
    hide Matches;
    var n := |a| - 1;
    var k: nat :| k < |b| && Matches(a[n], b[k]) && Reordered(a[..n], Without(b, k));
    if t == b[k] {
      s := a[n];
    } else {
      s := PartnerBefore(a[..n], Without(b, k), t);
    }
  }

  /** Matching selections open matching selection sets. */
  lemma OpensMatching(f: Fragments, g: Fragments, s: Selection, t: Selection)
    requires SameBodies(f, g) && Matches(s, t)
    ensures forall x :: Opens(f, s, x) ==> exists y :: Opens(g, t, y) && Reordered(x, y)
    ensures forall y :: Opens(g, t, y) ==> exists x :: Opens(f, s, x) && Reordered(x, y)
  {
    hide Reordered;
    match s {
      case Leaf(_, _) =>
      case Field(_, _, children) => assert Opens(f, s, children) && Opens(g, t, t.children);
      case Inline(inner) => assert Opens(f, s, inner) && Opens(g, t, t.inner);
      case Spread(name) =>
        if name in f {
          assert Opens(f, s, f[name]) && Opens(g, t, g[name]);
        }
    }
  }

  lemma {:induction false} DepthAfter(f: Fragments, g: Fragments, a: seq<Selection>, b: seq<Selection>, d: nat)
    requires SameBodies(f, g) && Reordered(a, b) && HasDepth(f, a, d)
    ensures HasDepth(g, b, d)
    decreases d
  {
    hide Opens, Matches, Reordered, SameBodies;
    if d > 0 {
      var s, x :| s in a && Opens(f, s, x) && HasDepth(f, x, d - 1);
      var t := PartnerAfter(a, b, s);
      OpensMatching(f, g, s, t);
      var y :| Opens(g, t, y) && Reordered(x, y);
      DepthAfter(f, g, x, y, d - 1);
    }
  }

  lemma {:induction false} DepthBefore(f: Fragments, g: Fragments, a: seq<Selection>, b: seq<Selection>, d: nat)
    requires SameBodies(f, g) && Reordered(a, b) && HasDepth(g, b, d)
    ensures HasDepth(f, a, d)
    decreases d
  {
    hide Opens, Matches, Reordered, SameBodies;
    if d > 0 {
      var t, y :| t in b && Opens(g, t, y) && HasDepth(g, y, d - 1);
      var s := PartnerBefore(a, b, t);
      OpensMatching(f, g, s, t);
      var x :| Opens(f, s, x) && Reordered(x, y);
      DepthBefore(f, g, x, y, d - 1);
    }
  }

  /** Reordering selections, at any nesting, in operations or fragments, keeps the expansion's nesting depths. */
  lemma ExpansionIgnoresOrder(a: seq<Definition>, b: seq<Definition>, d: nat)
    requires ReorderedDocument(a, b)
    ensures DocumentHasDepth(a, d) <==> DocumentHasDepth(b, d)
  {
    hide Reordered, HasDepth, SameBodies;
    var f, g := FragmentsOf(a), FragmentsOf(b);
    ReorderedFragments(a, b);
    forall i | 0 <= i < |a| ensures OperationHasDepth(f, a[i], d) <==> OperationHasDepth(g, b[i], d) {
      assert ReorderedDefinition(a[i], b[i]);
      if OperationHasDepth(f, a[i], d) {
        DepthAfter(f, g, a[i].selections, b[i].selections, d);
      } else if OperationHasDepth(g, b[i], d) {
        DepthBefore(f, g, a[i].selections, b[i].selections, d);
      }
    }
  }

  // ----- What the order does to the computed depth -----

  /** No chain of the expanded document reaches beyond the computed depth. */
  ghost predicate DepthIsExact(document: seq<Definition>) {
    forall d: nat :: DocumentHasDepth(document, d) ==> d + 1 <= QueryDepth(document)
  }

  /** An order for which the depth is exact gives the greatest depth, and the orders that give as much are
      exactly the others for which it is exact. */
  lemma DepthUnderReordering(a: seq<Definition>, b: seq<Definition>)
    requires ReorderedDocument(a, b) && DepthIsExact(a)
    ensures QueryDepth(b) <= QueryDepth(a)
    ensures QueryDepth(b) == QueryDepth(a) <==> DepthIsExact(b)
  {
    hide DocumentHasDepth, ReorderedDocument;
    QueryDepthIsReached(a);
    QueryDepthIsReached(b);
    forall d: nat ensures DocumentHasDepth(a, d) <==> DocumentHasDepth(b, d) {
      ExpansionIgnoresOrder(a, b, d);
    }
  }

  lemma SharingIgnoresOrder(a: seq<Definition>, b: seq<Definition>)
    requires ReorderedDocument(a, b) && NoSharedFragment(a)
    ensures NoSharedFragment(b)
  {
    hide Reordered, Own, SpreadsOnce, SumOver, Add, SameBodies, Reaches;
    var f, g := FragmentsOf(a), FragmentsOf(b);
    ReorderedFragments(a, b);
    SameBodiesOwn(f, g);
    forall i | 0 <= i < |b| && b[i].Operation? ensures SpreadsOnce(g, OperationTotal(g, b[i].selections), {}) {
      assert ReorderedDefinition(a[i], b[i]);
      ReorderedOwn(a[i].selections, b[i].selections);
      SameReachable(f, g, a[i].selections, b[i].selections);
      SameSum(f, g, Reachable(f, a[i].selections));
      OnceAmongSameKeys(f, g, OperationTotal(f, a[i].selections));
    }
  }

  lemma OnceAmongSameKeys(f: Fragments, g: Fragments, met: Tally)
    requires f.Keys == g.Keys && SpreadsOnce(f, met, {})
    ensures SpreadsOnce(g, met, {})
  {
  }

  /** A document in which no operation spreads a fragment twice keeps its depth under every reordering. */
  lemma UnsharedDepthIgnoresOrder(a: seq<Definition>, b: seq<Definition>)
    requires ReorderedDocument(a, b) && NoSharedFragment(a)
    ensures QueryDepth(a) == QueryDepth(b)
  {
    hide NoSharedFragment, ReorderedDocument, QueryDepth;
    SharingIgnoresOrder(a, b);
    UnsharedDepthIsExact(a);
    UnsharedDepthIsExact(b);
    DepthUnderReordering(a, b);
  }

  // ----- An order for which it is not exact -----

  const BODY := [Field("a", None, [Leaf("b", None)])]
  const WRAPPED := Field("x", None, [Spread("F")])

  lemma DeepestOfOne(f: Fragments, s: Selection, visited: set<string>)
    requires visited <= f.Keys
    ensures Deepest(f, [s], visited) == DeepestIn(f, s, visited) && Walk(f, [s], visited).0 == WalkOne(f, s, visited).0
  {
    assert [s][..0] == [];
  }

  lemma DeepestOfTwo(f: Fragments, s: Selection, t: Selection, visited: set<string>)
    requires visited <= f.Keys
    ensures Deepest(f, [s, t], visited) == Max(DeepestIn(f, s, visited), DeepestIn(f, t, WalkOne(f, s, visited).0))
  {
    hide WalkOne, DeepestIn;
    assert [s, t][..1] == [s];
    DeepestOfOne(f, s, visited);
  }

  /** A fragment spread first near the top hides its deeper spread; swapping the two selections shows it. */
  lemma SharedFragmentHidesDepth()
    ensures var f: Fragments := map["F" := BODY];
      && Deepest(f, [Spread("F"), WRAPPED], {}) == 2
      && Deepest(f, [WRAPPED, Spread("F")], {}) == 3
      && HasDepth(f, [Spread("F"), WRAPPED], 3)
  {
    hide Deepest, Walk;
    var f: Fragments := map["F" := BODY];
    var spread, leaf := Spread("F"), Leaf("b", None);
    var seen := {"F"};
    DeepestOfOne(f, leaf, seen);
    DeepestOfOne(f, BODY[0], seen);
    assert DeepestIn(f, spread, {}) == 2 by {
      assert {} + seen == seen;
    }
    DeepestOfOne(f, spread, {});
    DeepestOfOne(f, spread, seen);
    DeepestOfTwo(f, spread, WRAPPED, {});
    DeepestOfTwo(f, WRAPPED, spread, {});
    assert "F" in WalkOne(f, spread, {}).0;
    assert WalkOne(f, spread, {}).0 == seen;
    NestedBy(f, BODY, BODY[0], [leaf], 1);
    NestedBy(f, [spread], spread, BODY, 2);
    NestedBy(f, [spread, WRAPPED], WRAPPED, [spread], 3);
  }
}
