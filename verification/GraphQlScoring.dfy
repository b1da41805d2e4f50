/** Query scoring of src/graphql/gateway.ts: `computeQueryComplexity` and
    `computeQueryDepth` walk the selections of each operation, entering a fragment at
    the first spread that reaches it. The fragment graph may be cyclic (GraphQL,
    October 2021, sections 2.7 and 2.8). */
module GraphQlScoring {
  import opened Numbers
  import opened Options

  const ALIAS_COMPLEXITY_COST := 2

  datatype Selection =
    | Leaf(name: string, alias: Option<string>)                              // a field without a selection set
    | Field(name: string, alias: Option<string>, children: seq<Selection>)
    | Spread(fragment: string)
    | Inline(inner: seq<Selection>)

  datatype Definition =
    | Operation(selections: seq<Selection>)
    | Fragment(name: string, body: seq<Selection>)
    | Other

  type Fragments = map<string, seq<Selection>>

  /** Fragment bodies by name; a later definition replaces an earlier one. */
  function FragmentsOf(document: seq<Definition>): Fragments {
    if document == [] then map[]
    else
      var rest := FragmentsOf(document[..|document| - 1]);
      match document[|document| - 1]
      case Fragment(name, body) => rest[name := body]
      case _ => rest
  }

  method GetQueryFragments(document: seq<Definition>) returns (fragments: Fragments)
    ensures fragments == FragmentsOf(document)
  {
    fragments := map[];
    for i := 0 to |document|
      invariant fragments == FragmentsOf(document[..i])
    {
      assert document[..i + 1][..i] == document[..i];
      match document[i] {
        case Fragment(name, body) => fragments := fragments[name := body];
        case _ =>
      }
    }
    assert document[..|document|] == document;
  }

  // ----- What a selection set contributes -----

  /** Fields, aliased uses of each field name, and fragment spreads. */
  datatype Tally = Tally(fields: nat, aliased: multiset<string>, spreads: multiset<string>)

  const NOTHING := Tally(0, multiset{}, multiset{})

  function Add(a: Tally, b: Tally): Tally { Tally(a.fields + b.fields, a.aliased + b.aliased, a.spreads + b.spreads) }

  /** The selection's own entry, without what is nested in it. */
  function Entry(s: Selection): Tally {
    match s
    case Leaf(name, alias) => Tally(1, if alias.Some? then multiset{name} else multiset{}, multiset{})
    case Field(name, alias, _) => Tally(1, if alias.Some? then multiset{name} else multiset{}, multiset{})
    case Spread(name) => Tally(0, multiset{}, multiset{name})
    case Inline(_) => NOTHING
  }

  /** What a selection set holds itself, at any nesting, fragments not entered. */
  function Own(selections: seq<Selection>): Tally {
    if selections == [] then NOTHING
    else
      var last := selections[|selections| - 1];
      Add(Own(selections[..|selections| - 1]), OwnOne(last))
  }

  function OwnOne(s: Selection): Tally {
    match s
    case Field(_, _, children) => Add(Entry(s), Own(children))
    case Inline(inner) => Own(inner)
    case _ => Entry(s)
  }

  // ----- The closed form -----

  /** A chain of spreads that starts in `selections` and leads to fragment `f`. */
  ghost predicate SpreadChain(fragments: Fragments, selections: seq<Selection>, chain: seq<string>, f: string) {
    && chain != [] && chain[|chain| - 1] == f
    && (forall i :: 0 <= i < |chain| ==> chain[i] in fragments)
    && chain[0] in Own(selections).spreads
    && (forall i :: 0 < i < |chain| ==> chain[i] in Own(fragments[chain[i - 1]]).spreads)
  }

  ghost predicate Reaches(fragments: Fragments, selections: seq<Selection>, f: string) {
    exists chain :: SpreadChain(fragments, selections, chain, f)
  }

  ghost function Reachable(fragments: Fragments, selections: seq<Selection>): set<string> {
    set f | f in fragments && Reaches(fragments, selections, f)
  }

  ghost function SumOver(fragments: Fragments, names: set<string>): Tally
    requires names <= fragments.Keys
  {
    if names == {} then NOTHING
    else
      var f :| f in names;
      Add(Own(fragments[f]), SumOver(fragments, names - {f}))
  }

  /** An operation's total: its own selections and each reachable fragment once. */
  ghost function OperationTotal(fragments: Fragments, selections: seq<Selection>): Tally {
    Add(Own(selections), SumOver(fragments, Reachable(fragments, selections)))
  }

  ghost function DocumentTotal(fragments: Fragments, document: seq<Definition>): Tally {
    if document == [] then NOTHING
    else
      var rest := DocumentTotal(fragments, document[..|document| - 1]);
      match document[|document| - 1]
      case Operation(selections) => Add(rest, OperationTotal(fragments, selections))
      case _ => rest
  }

  function Distinct(names: multiset<string>): set<string> { set n | n in names }

  /** One per field, and the alias cost for each aliased use of a name beyond its first. */
  ghost function Score(t: Tally): nat {
    DistinctAtMost(t.aliased);
    t.fields + ALIAS_COMPLEXITY_COST * (|t.aliased| - |Distinct(t.aliased)|)
  }

  ghost function Complexity(document: seq<Definition>): nat {
    Score(DocumentTotal(FragmentsOf(document), document))
  }

  lemma {:induction false} DistinctAtMost(names: multiset<string>)
    ensures |Distinct(names)| <= |names|
    decreases |names|
  {
    if names != multiset{} {
      var n :| n in names;
      var rest := names - multiset{n};
      DistinctAtMost(rest);
      DistinctInsert(rest, n);
      assert names == rest + multiset{n};
    } else {
      assert Distinct(names) == {};
    }
  }

  lemma DistinctInsert(names: multiset<string>, n: string)
    ensures Distinct(names + multiset{n}) == Distinct(names) + {n}
    ensures |Distinct(names + multiset{n})| == |Distinct(names)| + if n in names then 0 else 1
  {
    assert Distinct(names + multiset{n}) == Distinct(names) + {n};
    if n in names {
      assert Distinct(names) + {n} == Distinct(names);
    }
  }

  // ----- Sums over fragment sets -----

  lemma AddLaws(a: Tally, b: Tally, c: Tally)
    ensures Add(a, b) == Add(b, a) && Add(Add(a, b), c) == Add(a, Add(b, c)) && Add(a, NOTHING) == a
  {
  }

  lemma {:induction false} SumOverRemove(fragments: Fragments, names: set<string>, x: string)
    requires names <= fragments.Keys && x in names
    ensures SumOver(fragments, names) == Add(Own(fragments[x]), SumOver(fragments, names - {x}))
    decreases names
  {
    hide Own, Add;
    var f :| f in names && SumOver(fragments, names) == Add(Own(fragments[f]), SumOver(fragments, names - {f}));
    if f != x {
      SumOverRemove(fragments, names - {f}, x);
      SumOverRemove(fragments, names - {x}, f);
      assert names - {f} - {x} == names - {x} - {f};
      AddLaws(Own(fragments[f]), Own(fragments[x]), SumOver(fragments, names - {f} - {x}));
      AddLaws(Own(fragments[x]), Own(fragments[f]), SumOver(fragments, names - {f} - {x}));
    }
  }

  lemma {:induction false} SumOverUnion(fragments: Fragments, a: set<string>, b: set<string>)
    requires a <= fragments.Keys && b <= fragments.Keys && a !! b
    ensures SumOver(fragments, a + b) == Add(SumOver(fragments, a), SumOver(fragments, b))
    decreases a
  {
    hide Own, Add;
    if a == {} {
      assert a + b == b;
      AddLaws(SumOver(fragments, b), NOTHING, NOTHING);
    } else {
      var f :| f in a;
      SumOverRemove(fragments, a, f);
      SumOverRemove(fragments, a + b, f);
      assert a + b - {f} == (a - {f}) + b;
      SumOverUnion(fragments, a - {f}, b);
      AddLaws(Own(fragments[f]), SumOver(fragments, a - {f}), SumOver(fragments, b));
    }
  }

  // ----- The traversal -----

  /** Depth-first over a selection list: the fragments visited and the tally met. */
  function Walk(fragments: Fragments, selections: seq<Selection>, visited: set<string>): (r: (set<string>, Tally))
    requires visited <= fragments.Keys
    ensures visited <= r.0 <= fragments.Keys
    decreases |fragments.Keys - visited|, selections
  {
    if selections == [] then (visited, NOTHING)
    else
      var before := Walk(fragments, selections[..|selections| - 1], visited);
      FewerLeft(fragments.Keys, visited, before.0);
      var last := WalkOne(fragments, selections[|selections| - 1], before.0);
      (last.0, Add(before.1, last.1))
  }

  function WalkOne(fragments: Fragments, s: Selection, visited: set<string>): (r: (set<string>, Tally))
    requires visited <= fragments.Keys
    ensures visited <= r.0 <= fragments.Keys
    decreases |fragments.Keys - visited|, s
  {
    match s
    case Leaf(_, _) => (visited, Entry(s))
    case Field(_, _, children) =>
      var inside := Walk(fragments, children, visited);
      (inside.0, Add(Entry(s), inside.1))
    case Spread(name) =>
      if name in visited || name !in fragments then (visited, Entry(s))
      else
        NewVisit(fragments.Keys, visited, name);
        var inside := Walk(fragments, fragments[name], visited + {name});
        (inside.0, Add(Entry(s), inside.1))
    case Inline(inner) => Walk(fragments, inner, visited)
  }

  lemma FewerLeft(keys: set<string>, small: set<string>, large: set<string>)
    requires small <= large
    ensures |keys - large| <= |keys - small|
  {
    assert keys - large <= keys - small;
    SubsetSize(keys - large, keys - small);
  }

  lemma NewVisit(keys: set<string>, visited: set<string>, name: string)
    requires name in keys && name !in visited
    ensures |keys - (visited + {name})| < |keys - visited|
  {
    assert keys - visited == (keys - (visited + {name})) + {name};
  }

  /** What one traversal from `visited` to `after` met: the entries of its own selections and of the
      newly visited fragments, with every spread of those followed. */
  ghost predicate Covers(fragments: Fragments, own: Tally, visited: set<string>, after: set<string>, met: Tally) {
    && visited <= after <= fragments.Keys
    && met == Add(own, SumOver(fragments, after - visited))
    && (forall f :: f in own.spreads && f in fragments ==> f in after)
    && (forall g, f :: g in after - visited && f in Own(fragments[g]).spreads && f in fragments ==> f in after)
  }

  lemma {:induction false} WalkCovers(fragments: Fragments, selections: seq<Selection>, visited: set<string>)
    requires visited <= fragments.Keys
    ensures var r := Walk(fragments, selections, visited); Covers(fragments, Own(selections), visited, r.0, r.1)
    decreases |fragments.Keys - visited|, selections
  {
    hide Covers, SumOver, Add, OwnOne, WalkOne;
    if selections == [] {
      CoversNothing(fragments, visited);
    } else {
      var n := |selections| - 1;
      var before := Walk(fragments, selections[..n], visited);
      FewerLeft(fragments.Keys, visited, before.0);
      WalkCovers(fragments, selections[..n], visited);
      WalkOneCovers(fragments, selections[n], before.0);
      var last := WalkOne(fragments, selections[n], before.0);
      CoversThen(fragments, Own(selections[..n]), visited, before.0, before.1, OwnOne(selections[n]), last.0, last.1);
      assert Walk(fragments, selections, visited) == (last.0, Add(before.1, last.1));
    }
  }

  lemma CoversNothing(fragments: Fragments, visited: set<string>)
    requires visited <= fragments.Keys
    ensures Covers(fragments, NOTHING, visited, visited, NOTHING)
  {
    hide Own;
    CoversUnchanged(fragments, NOTHING, visited);
  }

  /** A traversal that enters no fragment meets exactly the entries given. */
  lemma CoversUnchanged(fragments: Fragments, own: Tally, visited: set<string>)
    requires visited <= fragments.Keys
    requires forall f :: f in own.spreads && f in fragments ==> f in visited
    ensures Covers(fragments, own, visited, visited, own)
  {
    hide Own;
    assert visited - visited == {};
    AddLaws(own, NOTHING, NOTHING);
  }

  lemma CoversEntry(fragments: Fragments, s: Selection, own: Tally, visited: set<string>, after: set<string>, met: Tally)
    requires s.Field? && Covers(fragments, own, visited, after, met)
    ensures Covers(fragments, Add(Entry(s), own), visited, after, Add(Entry(s), met))
  {
    hide Own, SumOver;
  }

  lemma CoversAlone(fragments: Fragments, s: Selection, visited: set<string>)
    requires visited <= fragments.Keys
    requires s.Leaf? || (s.Spread? && (s.fragment in visited || s.fragment !in fragments))
    ensures Covers(fragments, Entry(s), visited, visited, Entry(s))
  {
    hide Own;
    assert visited - visited == {};
  }

  lemma {:induction false} WalkOneCovers(fragments: Fragments, s: Selection, visited: set<string>)
    requires visited <= fragments.Keys
    ensures Covers(fragments, OwnOne(s), visited, WalkOne(fragments, s, visited).0, WalkOne(fragments, s, visited).1)
    decreases |fragments.Keys - visited|, s
  {
    hide Covers, SumOver, Add, Own, Walk, Entry;
    match s {
      case Leaf(_, _) =>
        CoversAlone(fragments, s, visited);
      case Field(_, _, children) =>
        WalkCovers(fragments, children, visited);
        var inside := Walk(fragments, children, visited);
        CoversEntry(fragments, s, Own(children), visited, inside.0, inside.1);
      case Spread(name) =>
        if name !in visited && name in fragments {
          NewVisit(fragments.Keys, visited, name);
          WalkCovers(fragments, fragments[name], visited + {name});
          var inside := Walk(fragments, fragments[name], visited + {name});
          EnterFragment(fragments, name, visited, inside.0, inside.1);
        } else {
          CoversAlone(fragments, s, visited);
        }
      case Inline(inner) =>
        WalkCovers(fragments, inner, visited);
    }
  }

  lemma CoversThen(fragments: Fragments, own: Tally, visited: set<string>, mid: set<string>, met: Tally,
                   own': Tally, after: set<string>, met': Tally)
    requires Covers(fragments, own, visited, mid, met) && Covers(fragments, own', mid, after, met')
    ensures Covers(fragments, Add(own, own'), visited, after, Add(met, met'))
  {
    hide Own, SumOver;
    assert after - visited == (mid - visited) + (after - mid);
    SumOverUnion(fragments, mid - visited, after - mid);
  }

  lemma EnterFragment(fragments: Fragments, name: string, visited: set<string>, after: set<string>, met: Tally)
    requires name in fragments && name !in visited
    requires Covers(fragments, Own(fragments[name]), visited + {name}, after, met)
    ensures Covers(fragments, Entry(Spread(name)), visited, after, Add(Entry(Spread(name)), met))
  {
    hide Own, SumOver;
    assert after - visited - {name} == after - (visited + {name});
    SumOverRemove(fragments, after - visited, name);
  }

  /** Every fragment the traversal newly visits is reached by a chain of spreads. */
  lemma {:induction false} WalkReaches(fragments: Fragments, selections: seq<Selection>, visited: set<string>, f: string)
    requires visited <= fragments.Keys && f in Walk(fragments, selections, visited).0 - visited
    ensures Reaches(fragments, selections, f)
    decreases |fragments.Keys - visited|, selections
  {
    hide Own, OwnOne, Reaches, Add;
    var n := |selections| - 1;
    var before := Walk(fragments, selections[..n], visited).0;
    FewerLeft(fragments.Keys, visited, before);
    OwnParts(selections);
    if f in before {
      WalkReaches(fragments, selections[..n], visited, f);
      ReachesMore(fragments, selections[..n], selections, f);
    } else {
      match selections[n] {
        case Leaf(_, _) => assert false;
        case Field(_, _, children) =>
          WalkReaches(fragments, children, before, f);
          ReachesMore(fragments, children, selections, f);
        case Inline(inner) =>
          WalkReaches(fragments, inner, before, f);
          ReachesMore(fragments, inner, selections, f);
        case Spread(name) =>
          NewVisit(fragments.Keys, before, name);
          if f != name {
            WalkReaches(fragments, fragments[name], before + {name}, f);
          }
          ReachesThrough(fragments, selections, name, f);
      }
    }
  }

  /** The spreads a selection hands on: its nested set's, or its own. */
  function SpreadsIn(s: Selection): multiset<string> {
    match s
    case Leaf(_, _) => multiset{}
    case Field(_, _, children) => Own(children).spreads
    case Spread(name) => multiset{name}
    case Inline(inner) => Own(inner).spreads
  }

  lemma OwnParts(selections: seq<Selection>)
    requires selections != []
    ensures Own(selections[..|selections| - 1]).spreads <= Own(selections).spreads
    ensures SpreadsIn(selections[|selections| - 1]) <= Own(selections).spreads
  {
  }

  lemma ReachesThrough(fragments: Fragments, selections: seq<Selection>, name: string, f: string)
    requires name in fragments && name in Own(selections).spreads
    requires f == name || Reaches(fragments, fragments[name], f)
    ensures Reaches(fragments, selections, f)
  {
    hide Own;
    if f == name {
      assert SpreadChain(fragments, selections, [name], name);
    } else {
      var chain :| SpreadChain(fragments, fragments[name], chain, f);
      assert SpreadChain(fragments, selections, [name] + chain, f);
    }
  }

  lemma ReachesMore(fragments: Fragments, few: seq<Selection>, many: seq<Selection>, f: string)
    requires Reaches(fragments, few, f) && Own(few).spreads <= Own(many).spreads
    ensures Reaches(fragments, many, f)
  {
    var chain :| SpreadChain(fragments, few, chain, f);
    assert SpreadChain(fragments, many, chain, f);
  }

  /** A set closed under the spreads of an operation and of its members contains every reached fragment. */
  lemma {:induction false} ClosedContains(fragments: Fragments, selections: seq<Selection>, closed: set<string>,
                                          chain: seq<string>, k: nat)
    requires Closed(fragments, selections, closed) && k < |chain|
    requires SpreadChain(fragments, selections, chain, chain[|chain| - 1])
    ensures chain[k] in closed
    decreases k
  {
    hide Own;
    if k > 0 {
      ClosedContains(fragments, selections, closed, chain, k - 1);
    }
  }

  /** From scratch, the traversal visits exactly the reachable fragments and meets the operation's total. */
  lemma WalkOperation(fragments: Fragments, selections: seq<Selection>)
    ensures Walk(fragments, selections, {}).0 == Reachable(fragments, selections)
    ensures Walk(fragments, selections, {}).1 == OperationTotal(fragments, selections)
  {
    hide Own, Walk, SumOver, Reaches, Covers, SpreadChain, Add;
    var r := Walk(fragments, selections, {});
    WalkCovers(fragments, selections, {});
    VisitedIsClosed(fragments, selections, r.0, r.1);
    forall f | f in r.0 ensures Reaches(fragments, selections, f) {
      WalkReaches(fragments, selections, {}, f);
    }
    forall f | Reaches(fragments, selections, f) ensures f in r.0 {
      VisitedContains(fragments, selections, r.0, f);
    }
    assert r.0 == Reachable(fragments, selections);
  }

  ghost predicate Closed(fragments: Fragments, selections: seq<Selection>, closed: set<string>) {
    && closed <= fragments.Keys
    && (forall f :: f in Own(selections).spreads && f in fragments ==> f in closed)
    && (forall g, f :: g in closed && f in Own(fragments[g]).spreads && f in fragments ==> f in closed)
  }

  lemma VisitedIsClosed(fragments: Fragments, selections: seq<Selection>, after: set<string>, met: Tally)
    requires Covers(fragments, Own(selections), {}, after, met)
    ensures Closed(fragments, selections, after) && met == Add(Own(selections), SumOver(fragments, after))
  {
    hide Own, SumOver;
    assert after - {} == after;
  }

  lemma VisitedContains(fragments: Fragments, selections: seq<Selection>, closed: set<string>, f: string)
    requires Closed(fragments, selections, closed) && Reaches(fragments, selections, f)
    ensures f in closed
  {
    hide Own;
    var chain :| SpreadChain(fragments, selections, chain, f);
    ClosedContains(fragments, selections, closed, chain, |chain| - 1);
  }

  // ----- computeQueryComplexity -----

  class ComplexityScorer {
    var complexity: nat
    var aliasedFieldUses: map<string, nat>
    var visitedFragments: set<string>
    ghost var met: Tally

    ghost predicate Valid()
      reads this
    {
      && complexity == Score(met)
      && Counts(aliasedFieldUses, met.aliased)
    }

    constructor ()
      ensures Valid() && met == NOTHING && visitedFragments == {}
    {
      complexity, aliasedFieldUses, visitedFragments, met := 0, map[], {}, NOTHING;
      new;
      assert Distinct(met.aliased) == {};
    }

    /** The callback of the source: one per field, and the surcharge from the second aliased use on. */
    method ChargeField(selection: Selection)
      requires Valid()
      modifies this
      ensures Valid() && met == Add(old(met), Entry(selection)) && visitedFragments == old(visitedFragments)
    {
      hide Score, Counts;
      met := Add(met, Entry(selection));
      if !selection.Leaf? && !selection.Field? {
        ScoreSame(old(met), met);
        return;
      }
      complexity := complexity + 1;
      if selection.alias.None? {
        ScoreSame(old(met), met);
        return;
      }
      var name := selection.name;
      ScoreAliased(old(met), name);
      CountsUse(aliasedFieldUses, old(met).aliased, name);
      var previousUses := Uses(aliasedFieldUses, name);
      aliasedFieldUses := aliasedFieldUses[name := previousUses + 1];
      if previousUses >= 1 {
        complexity := complexity + ALIAS_COMPLEXITY_COST;
      }
    }

    method VisitSelectionSet(fragments: Fragments, selections: seq<Selection>)
      requires Valid() && visitedFragments <= fragments.Keys
      modifies this
      ensures Valid()
      ensures visitedFragments == Walk(fragments, selections, old(visitedFragments)).0
      ensures met == Add(old(met), Walk(fragments, selections, old(visitedFragments)).1)
      decreases |fragments.Keys - visitedFragments|, selections, 0
    {
      hide WalkOne, Valid, Add;
      ghost var start := visitedFragments;
      AddLaws(met, NOTHING, NOTHING);
      for i := 0 to |selections|
        invariant Valid() && start <= visitedFragments
        invariant visitedFragments == Walk(fragments, selections[..i], start).0
        invariant met == Add(old(met), Walk(fragments, selections[..i], start).1)
      {
        FewerLeft(fragments.Keys, start, visitedFragments);
        WalkExtends(fragments, selections, i, start);
        AddLaws(old(met), Walk(fragments, selections[..i], start).1, WalkOne(fragments, selections[i], visitedFragments).1);
        VisitSelection(fragments, selections[i]);
      }
      assert selections[..|selections|] == selections;
    }

    /** The body of the source's loop. */
    method VisitSelection(fragments: Fragments, selection: Selection)
      requires Valid() && visitedFragments <= fragments.Keys
      modifies this
      ensures Valid()
      ensures visitedFragments == WalkOne(fragments, selection, old(visitedFragments)).0
      ensures met == Add(old(met), WalkOne(fragments, selection, old(visitedFragments)).1)
      decreases |fragments.Keys - visitedFragments|, selection
    {
      hide Walk, Score, Distinct, Add, Entry;
      match selection {
        case Leaf(_, _) =>
          ChargeField(selection);
        case Field(_, _, children) =>
          AddLaws(met, Entry(selection), Walk(fragments, children, visitedFragments).1);
          ChargeField(selection);
          VisitSelectionSet(fragments, children);
        case Spread(name) =>
          ChargeField(selection);
          if name !in visitedFragments && name in fragments {
            NewVisit(fragments.Keys, visitedFragments, name);
            visitedFragments := visitedFragments + {name};
            AddLaws(old(met), Entry(selection), Walk(fragments, fragments[name], visitedFragments).1);
            VisitSelectionSet(fragments, fragments[name]);
          }
        case Inline(inner) =>
          ChargeField(selection);
          AddEmpty(old(met), selection);
          VisitSelectionSet(fragments, inner);
      }
    }
  }

  lemma AddEmpty(a: Tally, s: Selection)
    requires s.Inline?
    ensures Add(a, Entry(s)) == a
  {
  }

  /** The map counts the occurrences of each name. */
  ghost predicate Counts(uses: map<string, nat>, names: multiset<string>) {
    forall n :: if n in uses then uses[n] == names[n] > 0 else n !in names
  }

  function Uses(uses: map<string, nat>, name: string): nat { if name in uses then uses[name] else 0 }

  lemma CountsUse(uses: map<string, nat>, names: multiset<string>, name: string)
    requires Counts(uses, names)
    ensures Uses(uses, name) >= 1 <==> name in names
    ensures Counts(uses[name := Uses(uses, name) + 1], names + multiset{name})
  {
  }

  lemma ScoreAliased(a: Tally, name: string)
    ensures Score(Add(a, Tally(1, multiset{name}, multiset{})))
         == Score(a) + 1 + if name in a.aliased then ALIAS_COMPLEXITY_COST else 0
  {
    DistinctAtMost(a.aliased);
    DistinctInsert(a.aliased, name);
  }

  lemma ScoreSame(a: Tally, b: Tally)
    requires b.aliased == a.aliased
    ensures Score(b) == Score(a) + (b.fields - a.fields)
  {
  }

  lemma WalkExtends(fragments: Fragments, selections: seq<Selection>, i: nat, visited: set<string>)
    requires visited <= fragments.Keys && i < |selections|
    ensures var before, last := Walk(fragments, selections[..i], visited), selections[i];
      Walk(fragments, selections[..i + 1], visited)
      == (WalkOne(fragments, last, before.0).0, Add(before.1, WalkOne(fragments, last, before.0).1))
  {
    assert selections[..i + 1][..i] == selections[..i];
  }

  method ComputeQueryComplexity(document: seq<Definition>) returns (complexity: nat)
    ensures complexity == Complexity(document)
  {
    hide Score, Walk, SumOver, OperationTotal;
    var fragments := GetQueryFragments(document);
    var scorer := new ComplexityScorer();
    for i := 0 to |document|
      invariant fresh(scorer) && scorer.Valid()
      invariant scorer.met == DocumentTotal(fragments, document[..i])
    {
      assert document[..i + 1][..i] == document[..i];
      match document[i] {
        case Operation(selections) =>
          scorer.visitedFragments := {};
          WalkOperation(fragments, selections);
          scorer.VisitSelectionSet(fragments, selections);
        case _ =>
      }
    }
    assert document[..|document|] == document;
    return scorer.complexity;
  }
}
