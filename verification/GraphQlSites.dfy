/** When `computeQueryDepth` (src/graphql/gateway.ts) is exact although fragments are shared. A site is a
    selection set the traversal opened, with the depth at which it did; what can make the result fall short
    is a spread that was skipped because its fragment had been entered elsewhere. */
module GraphQlSites {
  import opened Numbers
  import opened Options
  import opened GraphQlScoring
  import opened GraphQlDepth

  datatype Site = Site(selections: seq<Selection>, depth: nat)

  /** The sites a traversal opens below a selection set at `depth`. */
  function Nested(fragments: Fragments, selections: seq<Selection>, visited: set<string>, depth: nat): set<Site>
    requires visited <= fragments.Keys
    decreases |fragments.Keys - visited|, selections
  {
    if selections == [] then {}
    else
      var n := |selections| - 1;
      var before := Walk(fragments, selections[..n], visited).0;
      FewerLeft(fragments.Keys, visited, before);
      Nested(fragments, selections[..n], visited, depth) + NestedOne(fragments, selections[n], before, depth)
  }

  function NestedOne(fragments: Fragments, s: Selection, visited: set<string>, depth: nat): set<Site>
    requires visited <= fragments.Keys
    decreases |fragments.Keys - visited|, s
  {
    match s
    case Leaf(_, _) => {}
    case Field(_, _, children) => {Site(children, depth + 1)} + Nested(fragments, children, visited, depth + 1)
    case Inline(inner) => {Site(inner, depth + 1)} + Nested(fragments, inner, visited, depth + 1)
    case Spread(name) =>
      if name in visited || name !in fragments then {}
      else
        NewVisit(fragments.Keys, visited, name);
        {Site(fragments[name], depth + 1)} + Nested(fragments, fragments[name], visited + {name}, depth + 1)
  }

  /** All sites of an operation, itself included. */
  function Sites(fragments: Fragments, selections: seq<Selection>): set<Site> { SitesFrom(fragments, selections, {}, 0) }

  // ----- What holds of the sites -----

  /** What a field or an inline fragment in a set at depth `x` opens is a site among `sites`. */
  ghost predicate Follows(sites: set<Site>, s: Selection, x: nat) {
    match s
    case Field(_, _, children) => Site(children, x + 1) in sites
    case Inline(inner) => Site(inner, x + 1) in sites
    case _ => true
  }

  /** What a selection opens. */
  lemma Opening(fragments: Fragments, t: Selection, visited: set<string>, depth: nat)
    requires visited <= fragments.Keys
    ensures t.Leaf? ==> NestedOne(fragments, t, visited, depth) == {}
    ensures t.Field? ==> NestedOne(fragments, t, visited, depth) == SitesFrom(fragments, t.children, visited, depth + 1)
    ensures t.Inline? ==> NestedOne(fragments, t, visited, depth) == SitesFrom(fragments, t.inner, visited, depth + 1)
    ensures t.Spread? && t.fragment in fragments && t.fragment !in visited ==>
      NestedOne(fragments, t, visited, depth)
      == SitesFrom(fragments, fragments[t.fragment], visited + {t.fragment}, depth + 1)
    ensures t.Spread? && (t.fragment !in fragments || t.fragment in visited) ==>
      NestedOne(fragments, t, visited, depth) == {}
  {
    hide Nested;
  }

  /** The site a traversal starts in and those it opens below. */
  function SitesFrom(fragments: Fragments, selections: seq<Selection>, visited: set<string>, depth: nat): set<Site>
    requires visited <= fragments.Keys
  {
    {Site(selections, depth)} + Nested(fragments, selections, visited, depth)
  }

  /** Every field and inline fragment at a site is followed. */
  lemma {:induction false} SiteFollowed(fragments: Fragments, selections: seq<Selection>, visited: set<string>, depth: nat,
                                        site: Site, s: Selection)
    requires visited <= fragments.Keys && s in site.selections
    requires site in SitesFrom(fragments, selections, visited, depth)
    ensures Follows(Nested(fragments, selections, visited, depth), s, site.depth)
    decreases |fragments.Keys - visited|, selections, 1
  {
    hide Follows, Nested;
    if site in Nested(fragments, selections, visited, depth) {
      NestedFollowed(fragments, selections, visited, depth, site, s);
    } else {
      OwnFollowed(fragments, selections, visited, depth, s);
    }
  }

  lemma {:induction false} OwnFollowed(fragments: Fragments, selections: seq<Selection>, visited: set<string>, depth: nat,
                                       s: Selection)
    requires visited <= fragments.Keys && s in selections
    ensures Follows(Nested(fragments, selections, visited, depth), s, depth)
    decreases |selections|
  {
    hide NestedOne, Walk;
    var n := |selections| - 1;
    var before := Walk(fragments, selections[..n], visited).0;
    if s in selections[..n] {
      OwnFollowed(fragments, selections[..n], visited, depth, s);
    } else {
      Opening(fragments, s, before, depth);
    }
  }

  lemma {:induction false} NestedFollowed(fragments: Fragments, selections: seq<Selection>, visited: set<string>, depth: nat,
                                          site: Site, s: Selection)
    requires visited <= fragments.Keys && site in Nested(fragments, selections, visited, depth) && s in site.selections
    ensures Follows(Nested(fragments, selections, visited, depth), s, site.depth)
    decreases |fragments.Keys - visited|, selections, 0
  {
    hide NestedOne, Walk;
    var n := |selections| - 1;
    var before := Walk(fragments, selections[..n], visited).0;
    FewerLeft(fragments.Keys, visited, before);
    if site in Nested(fragments, selections[..n], visited, depth) {
      NestedFollowed(fragments, selections[..n], visited, depth, site, s);
    } else {
      Opening(fragments, selections[n], before, depth);
      match selections[n] {
        case Leaf(_, _) => assert false;
        case Field(_, _, children) => SiteFollowed(fragments, children, before, depth + 1, site, s);
        case Inline(inner) => SiteFollowed(fragments, inner, before, depth + 1, site, s);
        case Spread(name) =>
          NewVisit(fragments.Keys, before, name);
          SiteFollowed(fragments, fragments[name], before + {name}, depth + 1, site, s);
      }
    }
  }

  /** Every site lies within the depth met, and chains below it are chains of the operation. */
  ghost predicate WithinDepth(fragments: Fragments, selections: seq<Selection>, depth: nat, deepest: nat, site: Site) {
    && depth <= site.depth <= depth + deepest
    && forall m: nat :: HasDepth(fragments, site.selections, m) ==> HasDepth(fragments, selections, site.depth - depth + m)
  }

  lemma {:induction false} SiteReachable(fragments: Fragments, selections: seq<Selection>, visited: set<string>, depth: nat,
                                         site: Site)
    requires visited <= fragments.Keys && site in Nested(fragments, selections, visited, depth)
    ensures WithinDepth(fragments, selections, depth, Deepest(fragments, selections, visited), site) && site.depth > depth
    decreases |fragments.Keys - visited|, selections, 0
  {
    hide NestedOne, WalkOne, Walk, HasDepth, DeepestIn, Deepest;
    var n := |selections| - 1;
    var before := Walk(fragments, selections[..n], visited).0;
    FewerLeft(fragments.Keys, visited, before);
    DeepestSplits(fragments, selections, visited);
    if site in Nested(fragments, selections[..n], visited, depth) {
      SiteReachable(fragments, selections[..n], visited, depth, site);
      forall m: nat | HasDepth(fragments, site.selections, m) ensures HasDepth(fragments, selections, site.depth - depth + m) {
        MoreSelections(fragments, selections[..n], selections, site.depth - depth + m);
      }
    } else {
      var inner := SiteReachableIn(fragments, selections[n], before, depth, site);
      forall m: nat | HasDepth(fragments, site.selections, m) ensures HasDepth(fragments, selections, site.depth - depth + m) {
        NestedBy(fragments, selections, selections[n], inner, site.depth - depth + m);
      }
    }
  }

  lemma {:induction false} SiteReachableIn(fragments: Fragments, t: Selection, visited: set<string>, depth: nat, site: Site)
    returns (inner: seq<Selection>)
    requires visited <= fragments.Keys && site in NestedOne(fragments, t, visited, depth)
    ensures Opens(fragments, t, inner) && depth < site.depth <= depth + DeepestIn(fragments, t, visited)
    ensures forall m: nat :: HasDepth(fragments, site.selections, m) ==> HasDepth(fragments, inner, site.depth - depth - 1 + m)
    decreases |fragments.Keys - visited|, t
  {
    hide Nested, NestedOne, Walk, HasDepth, Deepest;
    Opening(fragments, t, visited, depth);
    match t {
      case Leaf(_, _) => assert false;
      case Field(_, _, children) =>
        inner := children;
        if site != Site(inner, depth + 1) {
          SiteReachable(fragments, inner, visited, depth + 1, site);
        }
      case Inline(nested) =>
        inner := nested;
        if site != Site(inner, depth + 1) {
          SiteReachable(fragments, inner, visited, depth + 1, site);
        }
      case Spread(name) =>
        NewVisit(fragments.Keys, visited, name);
        inner := fragments[name];
        if site != Site(inner, depth + 1) {
          SiteReachable(fragments, inner, visited + {name}, depth + 1, site);
        }
    }
  }

  lemma SiteWithin(fragments: Fragments, selections: seq<Selection>, site: Site)
    requires site in Sites(fragments, selections)
    ensures WithinDepth(fragments, selections, 0, Deepest(fragments, selections, {}), site)
  {
    hide Nested, HasDepth, Deepest;
    if site != Site(selections, 0) {
      SiteReachable(fragments, selections, {}, 0, site);
    }
  }

  // ----- When the depth is exact -----

  /** A spread of a known fragment at a site, one level above which the fragment was not entered. */
  ghost predicate Skipped(fragments: Fragments, selections: seq<Selection>, site: Site, f: string) {
    && site in Sites(fragments, selections) && Spread(f) in site.selections
    && f in fragments && Site(fragments[f], site.depth + 1) !in Sites(fragments, selections)
  }

  ghost predicate Bounded(fragments: Fragments, selections: seq<Selection>, bound: nat) {
    forall n: nat :: HasDepth(fragments, selections, n) ==> n <= bound
  }

  /** Below a skipped spread nothing reaches deeper than `bound`. */
  ghost predicate HidesNothing(fragments: Fragments, selections: seq<Selection>, bound: nat) {
    forall site, f, n: nat :: Skipped(fragments, selections, site, f) && HasDepth(fragments, fragments[f], n) ==>
      site.depth + 1 + n <= bound
  }

  /** Every skipped spread is no deeper than where its fragment was entered. */
  ghost predicate EnteredDeepest(fragments: Fragments, selections: seq<Selection>) {
    forall site, f :: Skipped(fragments, selections, site, f) ==>
      exists e: nat :: e > site.depth && Site(fragments[f], e) in Sites(fragments, selections)
  }

  /** What a chain opens first is a site, or lies below a skipped spread. */
  lemma FirstStep(fragments: Fragments, selections: seq<Selection>, site: Site, h: nat) returns (inner: seq<Selection>, f: string)
    requires site in Sites(fragments, selections) && HasDepth(fragments, site.selections, h) && h > 0
    ensures HasDepth(fragments, inner, h - 1)
    ensures Site(inner, site.depth + 1) in Sites(fragments, selections)
            || (f in fragments && inner == fragments[f] && Skipped(fragments, selections, site, f))
  {
    hide Nested, HasDepth;
    NestedIn(fragments, site.selections, h);
    var s, nested :| s in site.selections && Opens(fragments, s, nested) && HasDepth(fragments, nested, h - 1);
    inner, f := nested, if s.Spread? then s.fragment else "";
    SiteFollowed(fragments, selections, {}, 0, site, s);
    assert Nested(fragments, selections, {}, 0) <= Sites(fragments, selections);
  }

  lemma {:induction false} SiteBounded(fragments: Fragments, selections: seq<Selection>, bound: nat, site: Site, h: nat)
    requires Deepest(fragments, selections, {}) <= bound && HidesNothing(fragments, selections, bound)
    requires site in Sites(fragments, selections) && HasDepth(fragments, site.selections, h)
    ensures site.depth + h <= bound
    decreases h
  {
    hide Sites, HasDepth, Deepest, Skipped;
    if h == 0 {
      SiteWithin(fragments, selections, site);
    } else {
      var inner, f := FirstStep(fragments, selections, site, h);
      if Site(inner, site.depth + 1) in Sites(fragments, selections) {
        SiteBounded(fragments, selections, bound, Site(inner, site.depth + 1), h - 1);
      }
    }
  }

  /** No chain of the expansion is longer than a bound on the depth met if and only if no skipped spread hides
      a longer one. */
  lemma ExactIff(fragments: Fragments, selections: seq<Selection>, bound: nat)
    requires Deepest(fragments, selections, {}) <= bound
    ensures Bounded(fragments, selections, bound) <==> HidesNothing(fragments, selections, bound)
  {
    hide HasDepth, Deepest, Nested;
    if HidesNothing(fragments, selections, bound) {
      forall n: nat | HasDepth(fragments, selections, n) ensures n <= bound {
        SiteBounded(fragments, selections, bound, Site(selections, 0), n);
      }
    }
    if Bounded(fragments, selections, bound) {
      forall site, f, n: nat | Skipped(fragments, selections, site, f) && HasDepth(fragments, fragments[f], n)
        ensures site.depth + 1 + n <= bound
      {
        assert Opens(fragments, Spread(f), fragments[f]);
        NestedBy(fragments, site.selections, Spread(f), fragments[f], n + 1);
        SiteWithin(fragments, selections, site);
      }
    }
  }

  lemma {:induction false} EnteredBounded(fragments: Fragments, selections: seq<Selection>, site: Site, h: nat)
    requires EnteredDeepest(fragments, selections)
    requires site in Sites(fragments, selections) && HasDepth(fragments, site.selections, h)
    ensures site.depth + h <= Deepest(fragments, selections, {})
    decreases h
  {
    hide Sites, HasDepth, Deepest, Skipped;
    if h == 0 {
      SiteWithin(fragments, selections, site);
    } else {
      var inner, f := FirstStep(fragments, selections, site, h);
      if Site(inner, site.depth + 1) in Sites(fragments, selections) {
        EnteredBounded(fragments, selections, Site(inner, site.depth + 1), h - 1);
      } else {
        var e: nat :| e > site.depth && Site(fragments[f], e) in Sites(fragments, selections);
        EnteredBounded(fragments, selections, Site(fragments[f], e), h - 1);
      }
    }
  }

  /** Sharing a fragment does no harm as long as each is entered at its deepest spread: the depth met is then
      exactly the nesting depth of the expansion. */
  lemma EnteredDeepestIsExact(fragments: Fragments, selections: seq<Selection>, n: nat)
    requires EnteredDeepest(fragments, selections) && HasDepth(fragments, selections, n)
    ensures n <= Deepest(fragments, selections, {})
    ensures HasDepth(fragments, selections, Deepest(fragments, selections, {}))
  {
    hide HasDepth, Deepest, Nested, EnteredDeepest;
    EnteredBounded(fragments, selections, Site(selections, 0), n);
    DepthIsReached(fragments, selections, {});
  }

  /** `depth` is beyond what the traversals meet, as the result of `ComputeQueryDepth` is. */
  ghost predicate Covers(document: seq<Definition>, depth: nat) {
    depth >= 1 && forall i :: 0 <= i < |document| && document[i].Operation? ==>
      Deepest(FragmentsOf(document), document[i].selections, {}) < depth
  }

  /** For documents: the result is at least the nesting depth of the expansion if and only if no skipped spread
      of an operation hides a chain that reaches beyond it. */
  lemma DocumentExactIff(document: seq<Definition>, depth: nat)
    requires Covers(document, depth)
    ensures (forall d: nat :: DocumentHasDepth(document, d) ==> d + 1 <= depth) <==>
            (forall i :: 0 <= i < |document| && document[i].Operation? ==>
               HidesNothing(FragmentsOf(document), document[i].selections, depth - 1))
  {
    hide HasDepth, Deepest, HidesNothing;
    var fragments := FragmentsOf(document);
    forall i | 0 <= i < |document| && document[i].Operation?
      ensures HidesNothing(fragments, document[i].selections, depth - 1)
              <==> Bounded(fragments, document[i].selections, depth - 1)
    {
      ExactIff(fragments, document[i].selections, depth - 1);
    }
    if forall d: nat :: DocumentHasDepth(document, d) ==> d + 1 <= depth {
      forall i | 0 <= i < |document| && document[i].Operation? ensures Bounded(fragments, document[i].selections, depth - 1) {
        forall n: nat | HasDepth(fragments, document[i].selections, n) ensures n <= depth - 1 {
          assert OperationHasDepth(fragments, document[i], n) && DocumentHasDepth(document, n);
        }
      }
    }
    if forall i :: 0 <= i < |document| && document[i].Operation? ==> Bounded(fragments, document[i].selections, depth - 1) {
      forall d: nat | DocumentHasDepth(document, d) ensures d + 1 <= depth {
        var i :| 0 <= i < |document| && OperationHasDepth(fragments, document[i], d);
        assert Bounded(fragments, document[i].selections, depth - 1);
      }
    }
  }
}
