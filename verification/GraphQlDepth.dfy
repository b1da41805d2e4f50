/** `computeQueryDepth` of src/graphql/gateway.ts. One traversal per operation enters each
    fragment once, at the first spread that reaches it, and keeps the largest depth met.
    The yardstick is the expanded document, in which every spread of a known fragment is
    followed: it may be infinitely deep, so it is described by the nesting chains in it. */
module GraphQlDepth {
  import opened GraphQlScoring
  import opened Numbers

  /** The selection set that selection `s` opens one level below itself, if it opens one. */
  ghost predicate Opens(fragments: Fragments, s: Selection, inner: seq<Selection>) {
    match s
    case Leaf(_, _) => false
    case Field(_, _, children) => inner == children
    case Spread(name) => name in fragments && inner == fragments[name]
    case Inline(nested) => inner == nested
  }

  /** The expansion of `selections` holds a chain of `d` nested selection sets. */
  ghost predicate HasDepth(fragments: Fragments, selections: seq<Selection>, d: nat)
    decreases d
  {
    d == 0 || exists s, inner :: s in selections && Opens(fragments, s, inner) && HasDepth(fragments, inner, d - 1)
  }

  /** The largest depth the traversal from `visited` meets, relative to the selection set it starts in. */
  function Deepest(fragments: Fragments, selections: seq<Selection>, visited: set<string>): nat
    requires visited <= fragments.Keys
    decreases |fragments.Keys - visited|, selections
  {
    if selections == [] then 0
    else
      var n := |selections| - 1;
      var before := Walk(fragments, selections[..n], visited).0;
      FewerLeft(fragments.Keys, visited, before);
      Max(Deepest(fragments, selections[..n], visited), DeepestIn(fragments, selections[n], before))
  }

  function DeepestIn(fragments: Fragments, s: Selection, visited: set<string>): nat
    requires visited <= fragments.Keys
    decreases |fragments.Keys - visited|, s
  {
    match s
    case Leaf(_, _) => 0
    case Field(_, _, children) => 1 + Deepest(fragments, children, visited)
    case Inline(inner) => 1 + Deepest(fragments, inner, visited)
    case Spread(name) =>
      if name in visited || name !in fragments then 0
      else
        NewVisit(fragments.Keys, visited, name);
        1 + Deepest(fragments, fragments[name], visited + {name})
  }

  // ----- The result never exceeds the expansion -----

  /** The depth met is the length of a chain of the expansion, cyclic or not. */
  lemma {:induction false} DepthIsReached(fragments: Fragments, selections: seq<Selection>, visited: set<string>)
    requires visited <= fragments.Keys
    ensures HasDepth(fragments, selections, Deepest(fragments, selections, visited))
    decreases |fragments.Keys - visited|, selections
  {
    hide *;
    if selections == [] {
      NothingDeep(fragments, visited);
    } else {
      var n := |selections| - 1;
      var before := Walk(fragments, selections[..n], visited).0;
      FewerLeft(fragments.Keys, visited, before);
      DeepestSplits(fragments, selections, visited);
      if Deepest(fragments, selections[..n], visited) == Deepest(fragments, selections, visited) {
        DepthIsReached(fragments, selections[..n], visited);
        MoreSelections(fragments, selections[..n], selections, Deepest(fragments, selections[..n], visited));
      } else {
        DepthInIsReached(fragments, selections[n], before);
        var inner :| Opens(fragments, selections[n], inner)
                     && HasDepth(fragments, inner, DeepestIn(fragments, selections[n], before) - 1);
        NestedBy(fragments, selections, selections[n], inner, Deepest(fragments, selections, visited));
      }
    }
  }

  lemma {:induction false} DepthInIsReached(fragments: Fragments, s: Selection, visited: set<string>)
    requires visited <= fragments.Keys && DeepestIn(fragments, s, visited) > 0
    ensures exists inner :: Opens(fragments, s, inner) && HasDepth(fragments, inner, DeepestIn(fragments, s, visited) - 1)
    decreases |fragments.Keys - visited|, s
  {
    hide HasDepth, Deepest;
    match s {
      case Field(_, _, children) =>
        DepthIsReached(fragments, children, visited);
        assert Opens(fragments, s, children);
      case Inline(inner) =>
        DepthIsReached(fragments, inner, visited);
        assert Opens(fragments, s, inner);
      case Spread(name) =>
        NewVisit(fragments.Keys, visited, name);
        DepthIsReached(fragments, fragments[name], visited + {name});
        assert Opens(fragments, s, fragments[name]);
    }
  }

  lemma NothingDeep(fragments: Fragments, visited: set<string>)
    requires visited <= fragments.Keys
    ensures HasDepth(fragments, [], Deepest(fragments, [], visited))
  {
  }

  lemma NestedIn(fragments: Fragments, selections: seq<Selection>, d: nat)
    requires HasDepth(fragments, selections, d) && d > 0
    ensures exists s, inner :: s in selections && Opens(fragments, s, inner) && HasDepth(fragments, inner, d - 1)
  {
  }

  lemma NestedBy(fragments: Fragments, selections: seq<Selection>, s: Selection, inner: seq<Selection>, d: nat)
    requires d > 0 && s in selections && Opens(fragments, s, inner) && HasDepth(fragments, inner, d - 1)
    ensures HasDepth(fragments, selections, d)
  {
  }

  lemma MoreSelections(fragments: Fragments, few: seq<Selection>, many: seq<Selection>, d: nat)
    requires HasDepth(fragments, few, d) && few <= many
    ensures HasDepth(fragments, many, d)
  {
    hide Opens;
    if d > 0 {
      var s, inner :| s in few && Opens(fragments, s, inner) && HasDepth(fragments, inner, d - 1);
      assert s in many;
    }
  }

  // ----- With no fragment spread twice, it is the depth of the expansion -----

  /** No known fragment is spread twice by what a traversal met, nor spread there if it was visited before. */
  ghost predicate SpreadsOnce(fragments: Fragments, met: Tally, visited: set<string>) {
    forall f :: f in fragments ==> met.spreads[f] + (if f in visited then 1 else 0) <= 1
  }

  /** A newly visited fragment was spread by something the traversal met. */
  lemma {:induction false} VisitedWasSpread(fragments: Fragments, selections: seq<Selection>, visited: set<string>, f: string)
    requires visited <= fragments.Keys && f in Walk(fragments, selections, visited).0 - visited
    ensures f in Walk(fragments, selections, visited).1.spreads
    decreases |fragments.Keys - visited|, selections
  {
    hide Entry;
    var n := |selections| - 1;
    var before := Walk(fragments, selections[..n], visited);
    FewerLeft(fragments.Keys, visited, before.0);
    if f in before.0 {
      VisitedWasSpread(fragments, selections[..n], visited, f);
    } else {
      VisitedInWasSpread(fragments, selections[n], before.0, f);
    }
  }

  lemma {:induction false} VisitedInWasSpread(fragments: Fragments, s: Selection, visited: set<string>, f: string)
    requires visited <= fragments.Keys && f in WalkOne(fragments, s, visited).0 - visited
    ensures f in WalkOne(fragments, s, visited).1.spreads
    decreases |fragments.Keys - visited|, s
  {
    hide Walk;
    match s {
      case Leaf(_, _) => assert false;
      case Field(_, _, children) => VisitedWasSpread(fragments, children, visited, f);
      case Inline(inner) => VisitedWasSpread(fragments, inner, visited, f);
      case Spread(name) =>
        NewVisit(fragments.Keys, visited, name);
        if f != name {
          VisitedWasSpread(fragments, fragments[name], visited + {name}, f);
        }
    }
  }

  lemma {:induction false} DepthIsComplete(fragments: Fragments, selections: seq<Selection>, visited: set<string>, d: nat)
    requires visited <= fragments.Keys && SpreadsOnce(fragments, Walk(fragments, selections, visited).1, visited)
    requires HasDepth(fragments, selections, d)
    ensures d <= Deepest(fragments, selections, visited)
    decreases |fragments.Keys - visited|, selections, 1
  {
    hide *;
    if d > 0 {
      NestedIn(fragments, selections, d);
      var s, inner :| s in selections && Opens(fragments, s, inner) && HasDepth(fragments, inner, d - 1);
      NestedIsComplete(fragments, selections, visited, d, s, inner);
    }
  }

  lemma {:induction false} NestedIsComplete(fragments: Fragments, selections: seq<Selection>, visited: set<string>, d: nat,
                                            s: Selection, inner: seq<Selection>)
    requires visited <= fragments.Keys && SpreadsOnce(fragments, Walk(fragments, selections, visited).1, visited)
    requires d > 0 && s in selections && Opens(fragments, s, inner) && HasDepth(fragments, inner, d - 1)
    ensures d <= Deepest(fragments, selections, visited)
    decreases |fragments.Keys - visited|, selections, 0
  {
    hide *;
    var n := |selections| - 1;
    var before := Walk(fragments, selections[..n], visited);
    FewerLeft(fragments.Keys, visited, before.0);
    SplitOnce(fragments, selections, visited);
    DeepestSplits(fragments, selections, visited);
    if s in selections[..n] {
      NestedBy(fragments, selections[..n], s, inner, d);
      DepthIsComplete(fragments, selections[..n], visited, d);
    } else {
      DepthInIsComplete(fragments, s, before.0, inner, d - 1);
    }
  }

  lemma DeepestSplits(fragments: Fragments, selections: seq<Selection>, visited: set<string>)
    requires visited <= fragments.Keys && selections != []
    ensures var n := |selections| - 1; var before := Walk(fragments, selections[..n], visited).0;
            && Deepest(fragments, selections[..n], visited) <= Deepest(fragments, selections, visited)
            && DeepestIn(fragments, selections[n], before) <= Deepest(fragments, selections, visited)
            && (Deepest(fragments, selections[..n], visited) == Deepest(fragments, selections, visited)
                || DeepestIn(fragments, selections[n], before) == Deepest(fragments, selections, visited) > 0)
  {
    hide Walk, DeepestIn;
  }

  lemma SplitOnce(fragments: Fragments, selections: seq<Selection>, visited: set<string>)
    requires visited <= fragments.Keys && selections != []
    requires SpreadsOnce(fragments, Walk(fragments, selections, visited).1, visited)
    ensures var n := |selections| - 1; var before := Walk(fragments, selections[..n], visited);
            && SpreadsOnce(fragments, before.1, visited)
            && SpreadsOnce(fragments, WalkOne(fragments, selections[n], before.0).1, before.0)
  {
    hide *;
    var n := |selections| - 1;
    var before := Walk(fragments, selections[..n], visited);
    WalkSplits(fragments, selections, visited);
    AllSpread(fragments, selections[..n], visited);
    OnceSplits(fragments, visited, before.0, before.1, WalkOne(fragments, selections[n], before.0).1);
  }

  lemma WalkSplits(fragments: Fragments, selections: seq<Selection>, visited: set<string>)
    requires visited <= fragments.Keys && selections != []
    ensures var n := |selections| - 1; var before := Walk(fragments, selections[..n], visited);
      Walk(fragments, selections, visited).1 == Add(before.1, WalkOne(fragments, selections[n], before.0).1)
  {
    hide *;
    WalkExtends(fragments, selections, |selections| - 1, visited);
    assert selections[..|selections| - 1 + 1] == selections;
  }

  lemma AllSpread(fragments: Fragments, selections: seq<Selection>, visited: set<string>)
    requires visited <= fragments.Keys
    ensures var r := Walk(fragments, selections, visited); forall f :: f in r.0 - visited ==> f in r.1.spreads
  {
    hide *;
    var r := Walk(fragments, selections, visited);
    forall f | f in r.0 - visited ensures f in r.1.spreads {
      VisitedWasSpread(fragments, selections, visited, f);
    }
  }

  lemma OnceSplits(fragments: Fragments, visited: set<string>, after: set<string>, first: Tally, second: Tally)
    requires SpreadsOnce(fragments, Add(first, second), visited)
    requires forall f :: f in after - visited ==> f in first.spreads
    ensures SpreadsOnce(fragments, first, visited) && SpreadsOnce(fragments, second, after)
  {
    forall f | f in fragments
      ensures first.spreads[f] + (if f in visited then 1 else 0) <= 1
      ensures second.spreads[f] + (if f in after then 1 else 0) <= 1
    {
      assert Add(first, second).spreads[f] == first.spreads[f] + second.spreads[f];
      assert f in after - visited ==> first.spreads[f] >= 1;
    }
  }

  lemma {:induction false} DepthInIsComplete(fragments: Fragments, s: Selection, visited: set<string>,
                                             inner: seq<Selection>, d: nat)
    requires visited <= fragments.Keys && SpreadsOnce(fragments, WalkOne(fragments, s, visited).1, visited)
    requires Opens(fragments, s, inner) && HasDepth(fragments, inner, d)
    ensures d + 1 <= DeepestIn(fragments, s, visited)
    decreases |fragments.Keys - visited|, s
  {
    hide HasDepth, Walk, Deepest;
    match s {
      case Field(_, _, children) => DepthIsComplete(fragments, children, visited, d);
      case Inline(nested) => DepthIsComplete(fragments, nested, visited, d);
      case Spread(name) =>
        assert Entry(s).spreads[name] == 1;
        NewVisit(fragments.Keys, visited, name);
        DepthIsComplete(fragments, fragments[name], visited + {name}, d);
    }
  }

  // ----- computeQueryDepth -----

  /** The maximum once a selection set at depth `c` has been traversed. */
  function Raised(max: nat, c: nat, fragments: Fragments, selections: seq<Selection>, visited: set<string>): nat
    requires visited <= fragments.Keys
  {
    Max(max, c + Deepest(fragments, selections, visited))
  }

  function RaisedIn(max: nat, c: nat, fragments: Fragments, s: Selection, visited: set<string>): nat
    requires visited <= fragments.Keys
  {
    Max(max, c + DeepestIn(fragments, s, visited))
  }

  lemma RaisedStart(max: nat, c: nat, fragments: Fragments, visited: set<string>)
    requires visited <= fragments.Keys
    ensures Walk(fragments, [], visited).0 == visited && Raised(max, c, fragments, [], visited) == Max(max, c)
  {
  }

  lemma RaisedStep(max: nat, c: nat, fragments: Fragments, selections: seq<Selection>, i: nat, visited: set<string>)
    requires visited <= fragments.Keys && i < |selections|
    ensures c <= Raised(max, c, fragments, selections[..i], visited)
    ensures Raised(max, c, fragments, selections[..i + 1], visited)
         == RaisedIn(Raised(max, c, fragments, selections[..i], visited), c, fragments, selections[i],
                     Walk(fragments, selections[..i], visited).0)
  {
    hide Deepest, DeepestIn, Walk;
    DeepestExtends(fragments, selections, i, visited);
  }

  /** A selection that opens `inner` raises the maximum as `inner` one level down does; the others leave it. */
  lemma RaisedInside(max: nat, c: nat, fragments: Fragments, s: Selection, visited: set<string>)
    requires visited <= fragments.Keys && c <= max
    ensures s.Leaf? ==> RaisedIn(max, c, fragments, s, visited) == max
    ensures s.Spread? && (s.fragment in visited || s.fragment !in fragments) ==> RaisedIn(max, c, fragments, s, visited) == max
    ensures s.Field? ==> RaisedIn(max, c, fragments, s, visited) == Raised(max, c + 1, fragments, s.children, visited)
    ensures s.Inline? ==> RaisedIn(max, c, fragments, s, visited) == Raised(max, c + 1, fragments, s.inner, visited)
    ensures s.Spread? && s.fragment !in visited && s.fragment in fragments ==>
      RaisedIn(max, c, fragments, s, visited) == Raised(max, c + 1, fragments, fragments[s.fragment], visited + {s.fragment})
  {
    hide Deepest;
  }

  lemma DeepestExtends(fragments: Fragments, selections: seq<Selection>, i: nat, visited: set<string>)
    requires visited <= fragments.Keys && i < |selections|
    ensures Deepest(fragments, selections[..i + 1], visited)
         == Max(Deepest(fragments, selections[..i], visited),
                DeepestIn(fragments, selections[i], Walk(fragments, selections[..i], visited).0))
  {
    hide Walk, DeepestIn;
    assert selections[..i + 1][..i] == selections[..i];
  }

  class DepthProbe {
    var maxDepth: nat
    var seenFragments: set<string>

    constructor ()
      ensures maxDepth == 0 && seenFragments == {}
    {
      maxDepth, seenFragments := 0, {};
    }

    method Visit(fragments: Fragments, selections: seq<Selection>, currentDepth: nat)
      requires seenFragments <= fragments.Keys
      modifies this
      ensures seenFragments == Walk(fragments, selections, old(seenFragments)).0
      ensures maxDepth == Raised(old(maxDepth), currentDepth, fragments, selections, old(seenFragments))
      decreases |fragments.Keys - seenFragments|, selections, 0
    {
      hide *;
      ghost var start, max := seenFragments, maxDepth;
      RaisedStart(max, currentDepth, fragments, start);
      assert selections[..0] == [];
      maxDepth := Max(maxDepth, currentDepth);
      for i := 0 to |selections|
        invariant seenFragments == Walk(fragments, selections[..i], start).0
        invariant maxDepth == Raised(max, currentDepth, fragments, selections[..i], start)
      {
        FewerLeft(fragments.Keys, start, seenFragments);
        WalkExtends(fragments, selections, i, start);
        RaisedStep(max, currentDepth, fragments, selections, i, start);
        VisitSelection(fragments, selections[i], currentDepth);
      }
      assert selections[..|selections|] == selections;
    }

    /** The body of the source's loop; nothing is opened when the selection adds no level. */
    method VisitSelection(fragments: Fragments, selection: Selection, currentDepth: nat)
      requires seenFragments <= fragments.Keys && currentDepth <= maxDepth
      modifies this
      ensures seenFragments == WalkOne(fragments, selection, old(seenFragments)).0
      ensures maxDepth == RaisedIn(old(maxDepth), currentDepth, fragments, selection, old(seenFragments))
      decreases |fragments.Keys - seenFragments|, selection
    {
      hide Walk, Deepest, DeepestIn, Add, Entry, Raised, RaisedIn;
      var nextDepth := currentDepth + 1;
      RaisedInside(maxDepth, currentDepth, fragments, selection, seenFragments);
      match selection {
        case Leaf(_, _) =>
        case Field(_, _, children) =>
          Visit(fragments, children, nextDepth);
        case Spread(name) =>
          if name !in seenFragments && name in fragments {
            NewVisit(fragments.Keys, seenFragments, name);
            seenFragments := seenFragments + {name};
            Visit(fragments, fragments[name], nextDepth);
          }
        case Inline(inner) =>
          Visit(fragments, inner, nextDepth);
      }
    }
  }

  /** Some operation of the document nests `d` levels deep once expanded. */
  ghost predicate DocumentHasDepth(document: seq<Definition>, d: nat) {
    exists i :: 0 <= i < |document| && OperationHasDepth(FragmentsOf(document), document[i], d)
  }

  ghost predicate OperationHasDepth(fragments: Fragments, definition: Definition, d: nat) {
    definition.Operation? && HasDepth(fragments, definition.selections, d)
  }

  /** No operation meets two spreads of one known fragment. */
  ghost predicate NoSharedFragment(document: seq<Definition>) {
    forall i :: 0 <= i < |document| && document[i].Operation?
      ==> SpreadsOnce(FragmentsOf(document), OperationTotal(FragmentsOf(document), document[i].selections), {})
  }

  /** The largest depth met among the operations of `document`. */
  function DeepestOperation(fragments: Fragments, document: seq<Definition>): nat {
    if document == [] then 0
    else
      var n := |document| - 1;
      Max(DeepestOperation(fragments, document[..n]),
          if document[n].Operation? then Deepest(fragments, document[n].selections, {}) else 0)
  }

  /** What `computeQueryDepth` returns. */
  function QueryDepth(document: seq<Definition>): nat {
    DeepestOperation(FragmentsOf(document), document) + 1
  }

  lemma {:induction false} DeepestOperationIsReached(fragments: Fragments, document: seq<Definition>)
    ensures forall i :: 0 <= i < |document| && document[i].Operation? ==>
      Deepest(fragments, document[i].selections, {}) <= DeepestOperation(fragments, document)
    ensures DeepestOperation(fragments, document) == 0
            || exists i :: 0 <= i < |document| && OperationHasDepth(fragments, document[i], DeepestOperation(fragments, document))
  {
    hide HasDepth, Deepest;
    if document != [] {
      var n := |document| - 1;
      DeepestOperationIsReached(fragments, document[..n]);
      forall i | 0 <= i < n ensures document[i] == document[..n][i] {}
      if document[n].Operation? {
        DepthIsReached(fragments, document[n].selections, {});
      }
    }
  }

  /** The computed depth is that of some chain of the expanded document. */
  lemma QueryDepthIsReached(document: seq<Definition>)
    ensures QueryDepth(document) == 1 || DocumentHasDepth(document, QueryDepth(document) - 1)
  {
    hide OperationHasDepth, DeepestOperation;
    DeepestOperationIsReached(FragmentsOf(document), document);
  }

  /** With no fragment spread twice by an operation, no chain of the expanded document is longer. */
  lemma UnsharedDepthIsExact(document: seq<Definition>)
    requires NoSharedFragment(document)
    ensures forall d: nat :: DocumentHasDepth(document, d) ==> d + 1 <= QueryDepth(document)
  {
    hide HasDepth, Deepest, OperationTotal, SpreadsOnce, DeepestOperation;
    var fragments := FragmentsOf(document);
    DeepestOperationIsReached(fragments, document);
    forall d: nat | DocumentHasDepth(document, d) ensures d + 1 <= QueryDepth(document) {
      var i :| 0 <= i < |document| && OperationHasDepth(fragments, document[i], d);
      OperationDepth(fragments, document[i].selections);
    }
  }

  method ComputeQueryDepth(document: seq<Definition>) returns (depth: nat)
    ensures depth == QueryDepth(document)
    ensures depth == 1 || (depth > 1 && DocumentHasDepth(document, depth - 1))
    ensures depth >= 1 && forall i :: 0 <= i < |document| && document[i].Operation? ==>
      Deepest(FragmentsOf(document), document[i].selections, {}) < depth
    ensures NoSharedFragment(document) ==> forall d: nat :: DocumentHasDepth(document, d) ==> d + 1 <= depth
  {
    hide DocumentHasDepth, Walk, Deepest, NoSharedFragment;
    var fragments := GetQueryFragments(document);
    var probe := new DepthProbe();
    for i := 0 to |document|
      invariant fresh(probe)
      invariant probe.maxDepth == DeepestOperation(fragments, document[..i])
    {
      assert document[..i + 1][..i] == document[..i];
      match document[i] {
        case Operation(selections) =>
          probe.seenFragments := {};
          probe.Visit(fragments, selections, 0);
        case _ =>
      }
    }
    assert document[..|document|] == document;
    DeepestOperationIsReached(fragments, document);
    QueryDepthIsReached(document);
    if NoSharedFragment(document) {
      UnsharedDepthIsExact(document);
    }
    return probe.maxDepth + 1;
  }

  lemma OperationDepth(fragments: Fragments, selections: seq<Selection>)
    requires SpreadsOnce(fragments, OperationTotal(fragments, selections), {})
    ensures forall d: nat :: HasDepth(fragments, selections, d) ==> d <= Deepest(fragments, selections, {})
  {
    hide HasDepth, Walk, Deepest, OperationTotal, SpreadsOnce;
    WalkOperation(fragments, selections);
    forall d: nat | HasDepth(fragments, selections, d) ensures d <= Deepest(fragments, selections, {}) {
      DepthIsComplete(fragments, selections, {}, d);
    }
  }
}
