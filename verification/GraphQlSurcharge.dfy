/** The alias surcharge of src/graphql/gateway.ts against its comment. The code charges an aliased use of a
    field when an earlier aliased use of the field was met; the comment says when any earlier use was. */
module GraphQlSurcharge {
  import opened Numbers
  import opened Options
  import opened GraphQlScoring

  /** A field as the traversal meets it. */
  datatype Use = Use(name: string, aliased: bool)

  /** The fields a traversal from `visited` meets, in order. */
  function Trace(fragments: Fragments, selections: seq<Selection>, visited: set<string>): seq<Use>
    requires visited <= fragments.Keys
    decreases |fragments.Keys - visited|, selections
  {
    if selections == [] then []
    else
      var n := |selections| - 1;
      var before := Walk(fragments, selections[..n], visited).0;
      FewerLeft(fragments.Keys, visited, before);
      Trace(fragments, selections[..n], visited) + TraceOne(fragments, selections[n], before)
  }

  function TraceOne(fragments: Fragments, s: Selection, visited: set<string>): seq<Use>
    requires visited <= fragments.Keys
    decreases |fragments.Keys - visited|, s
  {
    match s
    case Leaf(name, alias) => [Use(name, alias.Some?)]
    case Field(name, alias, children) => [Use(name, alias.Some?)] + Trace(fragments, children, visited)
    case Inline(inner) => Trace(fragments, inner, visited)
    case Spread(name) =>
      if name in visited || name !in fragments then []
      else
        NewVisit(fragments.Keys, visited, name);
        Trace(fragments, fragments[name], visited + {name})
  }

  /** The fields met in a whole document. */
  function DocumentTrace(fragments: Fragments, document: seq<Definition>): seq<Use> {
    if document == [] then []
    else
      DocumentTrace(fragments, document[..|document| - 1])
      + match document[|document| - 1]
        case Operation(selections) => Trace(fragments, selections, {})
        case _ => []
  }

  predicate Met(trace: seq<Use>, name: string) { exists i :: 0 <= i < |trace| && trace[i].name == name }

  predicate MetAliased(trace: seq<Use>, name: string) {
    exists i :: 0 <= i < |trace| && trace[i].name == name && trace[i].aliased
  }

  /** What the code charges: the surcharge from the second aliased use of a name on. */
  function Coded(trace: seq<Use>): nat {
    if trace == [] then 0
    else
      var n := |trace| - 1;
      Coded(trace[..n]) + 1 + if trace[n].aliased && MetAliased(trace[..n], trace[n].name) then ALIAS_COMPLEXITY_COST else 0
  }

  /** What the comment says: the surcharge for each aliased use beyond the field's first occurrence. */
  function Documented(trace: seq<Use>): nat {
    if trace == [] then 0
    else
      var n := |trace| - 1;
      Documented(trace[..n]) + 1 + if trace[n].aliased && Met(trace[..n], trace[n].name) then ALIAS_COMPLEXITY_COST else 0
  }

  // ----- The code's rule is the complexity -----

  function Aliased(trace: seq<Use>): multiset<string> {
    if trace == [] then multiset{}
    else Aliased(trace[..|trace| - 1]) + if trace[|trace| - 1].aliased then multiset{trace[|trace| - 1].name} else multiset{}
  }

  lemma AliasedAppend(a: seq<Use>, u: Use)
    ensures Aliased(a + [u]) == Aliased(a) + if u.aliased then multiset{u.name} else multiset{}
  {
    var longer := a + [u];
    assert longer[..|longer| - 1] == a && longer[|longer| - 1] == u;
  }

  lemma {:induction false} AliasedJoin(a: seq<Use>, b: seq<Use>)
    ensures Aliased(a + b) == Aliased(a) + Aliased(b)
  {
    hide Aliased;
    if b == [] {
      assert a + b == a;
      NothingAliased();
    } else {
      var n := |b| - 1;
      AliasedJoin(a, b[..n]);
      AliasedAppend(a + b[..n], b[n]);
      AliasedAppend(b[..n], b[n]);
      assert b[..n] + [b[n]] == b;
      assert a + b[..n] + [b[n]] == a + b;
    }
  }

  lemma NothingAliased()
    ensures Aliased([]) == multiset{}
  {
  }

  lemma {:induction false} MetAliasedIff(trace: seq<Use>, name: string)
    ensures MetAliased(trace, name) <==> name in Aliased(trace)
  {
    if trace != [] {
      var n := |trace| - 1;
      MetAliasedIff(trace[..n], name);
      assert trace[n].aliased && trace[n].name == name ==> MetAliased(trace, name);
      if MetAliased(trace[..n], name) {
        var i :| 0 <= i < n && trace[..n][i].name == name && trace[..n][i].aliased;
        assert trace[i] == trace[..n][i];
      }
      if i :| 0 <= i < |trace| && trace[i].name == name && trace[i].aliased && i < n {
        assert trace[..n][i] == trace[i];
      }
    }
  }

  /** A tally and a trace of the same fields. */
  ghost predicate Tallies(t: Tally, trace: seq<Use>) { t.fields == |trace| && t.aliased == Aliased(trace) }

  lemma TalliesJoin(s: Tally, t: Tally, a: seq<Use>, b: seq<Use>)
    requires Tallies(s, a) && Tallies(t, b)
    ensures Tallies(Add(s, t), a + b)
  {
    AliasedJoin(a, b);
  }

  lemma TalliesNothing()
    ensures Tallies(NOTHING, [])
  {
  }

  lemma TalliesField(s: Selection)
    requires s.Leaf? || s.Field?
    ensures Tallies(Entry(s), [Use(s.name, s.alias.Some?)])
  {
    assert [Use(s.name, s.alias.Some?)][..0] == [];
  }

  lemma {:induction false} TraceTallies(fragments: Fragments, selections: seq<Selection>, visited: set<string>)
    requires visited <= fragments.Keys
    ensures Tallies(Walk(fragments, selections, visited).1, Trace(fragments, selections, visited))
    decreases |fragments.Keys - visited|, selections
  {
    hide Tallies, Add, WalkOne, TraceOne;
    if selections == [] {
      TalliesNothing();
    } else {
      var n := |selections| - 1;
      var before := Walk(fragments, selections[..n], visited);
      FewerLeft(fragments.Keys, visited, before.0);
      TraceTallies(fragments, selections[..n], visited);
      TraceOneTallies(fragments, selections[n], before.0);
      TalliesJoin(before.1, WalkOne(fragments, selections[n], before.0).1,
                  Trace(fragments, selections[..n], visited), TraceOne(fragments, selections[n], before.0));
    }
  }

  lemma {:induction false} TraceOneTallies(fragments: Fragments, s: Selection, visited: set<string>)
    requires visited <= fragments.Keys
    ensures Tallies(WalkOne(fragments, s, visited).1, TraceOne(fragments, s, visited))
    decreases |fragments.Keys - visited|, s
  {
    hide Walk, Trace, Add, Entry, Tallies;
    match s {
      case Leaf(_, _) => TalliesField(s);
      case Field(name, alias, children) =>
        TalliesField(s);
        TraceTallies(fragments, children, visited);
        TalliesJoin(Entry(s), Walk(fragments, children, visited).1,
                    [Use(name, alias.Some?)], Trace(fragments, children, visited));
      case Inline(inner) => TraceTallies(fragments, inner, visited);
      case Spread(name) =>
        SpreadTallies(s);
        if name !in visited && name in fragments {
          NewVisit(fragments.Keys, visited, name);
          var inside := Walk(fragments, fragments[name], visited + {name}).1;
          TraceTallies(fragments, fragments[name], visited + {name});
          TalliesJoin(Entry(s), inside, [], Trace(fragments, fragments[name], visited + {name}));
          assert [] + Trace(fragments, fragments[name], visited + {name}) == Trace(fragments, fragments[name], visited + {name});
        }
    }
  }

  lemma SpreadTallies(s: Selection)
    requires s.Spread?
    ensures Tallies(Entry(s), [])
  {
  }

  lemma {:induction false} DocumentTallies(fragments: Fragments, document: seq<Definition>)
    ensures Tallies(DocumentTotal(fragments, document), DocumentTrace(fragments, document))
  {
    hide Tallies, Walk, Trace, OperationTotal, Add;
    if document == [] {
      TalliesNothing();
    } else {
      var n := |document| - 1;
      DocumentTallies(fragments, document[..n]);
      match document[n] {
        case Operation(selections) =>
          WalkOperation(fragments, selections);
          TraceTallies(fragments, selections, {});
          TalliesJoin(DocumentTotal(fragments, document[..n]), OperationTotal(fragments, selections),
                      DocumentTrace(fragments, document[..n]), Trace(fragments, selections, {}));
        case _ =>
          assert DocumentTrace(fragments, document[..n]) + [] == DocumentTrace(fragments, document[..n]);
      }
    }
  }

  lemma {:induction false} CodedIsScore(trace: seq<Use>)
    ensures Score(Tally(|trace|, Aliased(trace), multiset{})) == Coded(trace)
  {
    hide Score, MetAliased;
    if trace == [] {
      NothingScores();
    } else {
      var n := |trace| - 1;
      CodedIsScore(trace[..n]);
      var before := Tally(n, Aliased(trace[..n]), multiset{});
      MetAliasedIff(trace[..n], trace[n].name);
      var after := Tally(n + 1, Aliased(trace), multiset{});
      if trace[n].aliased {
        ScoreAliased(before, trace[n].name);
        assert Add(before, Tally(1, multiset{trace[n].name}, multiset{})) == after;
      } else {
        ScoreSame(before, after);
      }
    }
  }

  lemma NothingScores()
    ensures Score(NOTHING) == 0
  {
    assert Distinct(multiset{}) == {};
  }

  /** The complexity is what the code's rule charges along the traversal. */
  lemma ComplexityIsCoded(document: seq<Definition>)
    ensures Complexity(document) == Coded(DocumentTrace(FragmentsOf(document), document))
  {
    hide Score, DocumentTotal, DocumentTrace, Coded, FragmentsOf;
    var fragments := FragmentsOf(document);
    DocumentTallies(fragments, document);
    CodedIsScore(DocumentTrace(fragments, document));
    var total := DocumentTotal(fragments, document);
    ScoreSame(total, total.(spreads := multiset{}));
  }

  // ----- The comment's rule -----

  /** Some field name is first met without an alias and met with one later. */
  ghost predicate PlainThenAliased(trace: seq<Use>) {
    exists i, j :: Pair(trace, i, j)
  }

  ghost predicate FirstPlain(trace: seq<Use>, i: int)
    requires 0 <= i < |trace|
  {
    !trace[i].aliased && !Met(trace[..i], trace[i].name)
  }

  lemma FirstOccurrence(trace: seq<Use>, name: string) returns (i: nat)
    requires Met(trace, name)
    ensures i < |trace| && trace[i].name == name && !Met(trace[..i], name)
  {
    i := 0;
    while trace[i].name != name
      invariant i < |trace| && !Met(trace[..i], name)
      decreases |trace| - i
    {
      assert trace[..i + 1] == trace[..i] + [trace[i]];
      assert !Met(trace[..i + 1], name) && trace[..|trace|] == trace;
      assert i + 1 != |trace|;
      i := i + 1;
    }
  }

  /** A first plain use at `i` that the aliased use at `j` follows. */
  ghost predicate Pair(trace: seq<Use>, i: int, j: int) {
    0 <= i < j < |trace| && FirstPlain(trace, i) && trace[j].aliased && trace[j].name == trace[i].name
  }

  lemma PairInFront(trace: seq<Use>, n: nat, i: int, j: int)
    requires n <= |trace| && i < n && j < n
    ensures Pair(trace[..n], i, j) <==> Pair(trace, i, j)
  {
    if 0 <= i {
      assert trace[..n][..i] == trace[..i];
    }
  }

  /** When the last use completes a pair, its name was met before; were it met aliased too, there would be an
      earlier pair. */
  lemma PairAtEnd(trace: seq<Use>, i: int)
    requires trace != [] && Pair(trace, i, |trace| - 1)
    ensures var n := |trace| - 1; var front, last := trace[..n], trace[n];
      last.aliased && Met(front, last.name) && (MetAliased(front, last.name) ==> PlainThenAliased(front))
  {
    var n := |trace| - 1;
    var front, name := trace[..n], trace[n].name;
    assert front[i].name == name;
    assert forall k :: 0 <= k < i ==> trace[..i][k] == trace[k] && trace[..i][k].name != name;
    assert forall k :: 0 <= k < i ==> trace[k].name != name;
    if MetAliased(front, name) {
      var k :| 0 <= k < n && front[k].name == name && front[k].aliased;
      assert trace[k] == front[k];
      assert Pair(trace, i, k);
      PairInFront(trace, n, i, k);
    }
  }

  /** What the last use adds to the disagreement. */
  lemma LastUse(trace: seq<Use>)
    requires trace != []
    ensures var n := |trace| - 1; var front, last := trace[..n], trace[n];
      PlainThenAliased(trace) <==>
        PlainThenAliased(front) || (last.aliased && Met(front, last.name) && !MetAliased(front, last.name))
  {
    hide FirstPlain, Met, MetAliased;
    var n := |trace| - 1;
    var front, last := trace[..n], trace[n];
    if last.aliased && Met(front, last.name) && !MetAliased(front, last.name) {
      PlainBefore(trace);
    }
    if PlainThenAliased(front) {
      var i, j :| Pair(front, i, j);
      PairInFront(trace, n, i, j);
    }
    if PlainThenAliased(trace) {
      var i, j :| Pair(trace, i, j);
      if j < n {
        PairInFront(trace, n, i, j);
      } else {
        PairAtEnd(trace, i);
      }
    }
  }

  lemma PlainBefore(trace: seq<Use>)
    requires trace != []
    requires var n := |trace| - 1; trace[n].aliased && Met(trace[..n], trace[n].name) && !MetAliased(trace[..n], trace[n].name)
    ensures PlainThenAliased(trace)
  {
    var n := |trace| - 1;
    var i := FirstOccurrence(trace[..n], trace[n].name);
    assert trace[..n][..i] == trace[..i] && trace[..n][i] == trace[i];
    assert Pair(trace, i, n);
  }

  /** The comment never promises less than the code charges, and they agree if and only if no field name is
      first met without an alias and met with one later. */
  lemma {:induction false} CommentAgreesIff(trace: seq<Use>)
    ensures Coded(trace) <= Documented(trace)
    ensures Coded(trace) == Documented(trace) <==> !PlainThenAliased(trace)
  {
    hide PlainThenAliased, Met, MetAliased;
    if trace == [] {
      NoUses();
    } else {
      var n := |trace| - 1;
      CommentAgreesIff(trace[..n]);
      LastUse(trace);
      MetEither(trace[..n], trace[n].name);
    }
  }

  lemma NoUses()
    ensures !PlainThenAliased([])
  {
  }

  lemma MetEither(trace: seq<Use>, name: string)
    ensures MetAliased(trace, name) ==> Met(trace, name)
  {
  }

  /** For documents: the score is at most what the comment says, and equals it exactly under that condition. */
  lemma DocumentAgreesIff(document: seq<Definition>)
    ensures var trace := DocumentTrace(FragmentsOf(document), document);
      Complexity(document) <= Documented(trace) && (Complexity(document) == Documented(trace) <==> !PlainThenAliased(trace))
  {
    hide Complexity, DocumentTrace, Documented, Coded, PlainThenAliased;
    ComplexityIsCoded(document);
    CommentAgreesIff(DocumentTrace(FragmentsOf(document), document));
  }

  lemma TraceOfLeaf(fragments: Fragments, s: Selection)
    requires s.Leaf?
    ensures Trace(fragments, [s], {}) == [Use(s.name, s.alias.Some?)]
  {
    assert [s][..0] == [];
    assert Trace(fragments, [s][..0], {}) == [];
  }

  lemma TraceOfLeaves(fragments: Fragments, s: Selection, t: Selection)
    requires s.Leaf? && t.Leaf?
    ensures Trace(fragments, [s, t], {}) == [Use(s.name, s.alias.Some?), Use(t.name, t.alias.Some?)]
  {
    hide Walk;
    assert [s, t][..1] == [s];
    TraceOfLeaf(fragments, s);
  }

  lemma PlainThenAliasedCharges(name: string)
    ensures var trace := [Use(name, false), Use(name, true)]; Coded(trace) == 2 && Documented(trace) == 4
  {
    var first, trace := [Use(name, false)], [Use(name, false), Use(name, true)];
    assert trace[..1] == first && first[..0] == [];
    assert Coded(first) == 1 && Documented(first) == 1;
    assert first[0].name == name;
    assert Met(first, name) && !MetAliased(first, name);
  }

  /** `{ a  x: a }` scores 2 where the comment says 4. */
  lemma PlainUseIsFree()
    ensures var document := [Operation([Leaf("a", None), Leaf("a", Some("x"))])];
      Complexity(document) == 2 && Documented(DocumentTrace(FragmentsOf(document), document)) == 4
  {
    hide Complexity, Trace, Coded, Documented;
    var document := [Operation([Leaf("a", None), Leaf("a", Some("x"))])];
    assert document[..0] == [];
    ComplexityIsCoded(document);
    TraceOfLeaves(FragmentsOf(document), Leaf("a", None), Leaf("a", Some("x")));
    assert DocumentTrace(FragmentsOf(document), document) == [Use("a", false), Use("a", true)];
    PlainThenAliasedCharges("a");
  }
}
