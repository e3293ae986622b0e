/** Capability definitions and the topological resolver. */
module ResolverModel {
  import opened Prelude
  import Digraph

  /** The part of a definition that admission reads. */
  datatype Definition = Definition(id: Id, dependencies: set<Id>)

  type Definitions = map<Id, Definition>

  function RelationOf(definitions: Definitions): Digraph.Relation {
    map id | id in definitions :: definitions[id].dependencies
  }

  /** Dependency-first construction order, or the first failure met in identifier order. */
  function Resolve(definitions: Definitions): Result<seq<Id>, Digraph.SearchFailure> {
    Digraph.Search(RelationOf(definitions))
  }

  function ValidateCandidate(definitions: Definitions, candidate: Definition): Result<seq<Id>, Digraph.SearchFailure> {
    Resolve(definitions[candidate.id := candidate])
  }

  predicate Resolves(definitions: Definitions) {
    Resolve(definitions).Ok?
  }

  ghost predicate DependencyClosed(definitions: Definitions) {
    forall id, d :: id in definitions && d in definitions[id].dependencies ==> d in definitions
  }

  /**
   Resolution succeeds exactly on dependency-closed acyclic definitions. The
   order then lists each id once with its dependencies earlier; otherwise the
   error names a real cycle or a real dangling dependency.
   */
  lemma ResolveIsExact(definitions: Definitions)
    ensures Resolve(definitions).Ok? <==> DependencyClosed(definitions) && Digraph.Acyclic(RelationOf(definitions))
    ensures match Resolve(definitions)
            case Ok(order) =>
              && Distinct(order) && Elements(order) == definitions.Keys
              && (forall i :: 0 <= i < |order| ==> definitions[order[i]].dependencies <= Elements(order[..i]))
            case Err(Cyclic(path)) => Digraph.IsCycle(RelationOf(definitions), path)
            case Err(Missing(id, d)) => id in definitions && d in definitions[id].dependencies && d !in definitions
  {
    hide Digraph.Search, Digraph.Acyclic, Digraph.IsCycle;
    var g := RelationOf(definitions);
    Digraph.SearchIsExact(g);
    ClosedRelation(definitions);
    if Resolve(definitions).Ok? {
      var order := Resolve(definitions).value;
      forall i | 0 <= i < |order|
        ensures order[i] in definitions && definitions[order[i]].dependencies <= Elements(order[..i])
      {
        assert order[i] in g && g[order[i]] <= Elements(order[..i]);
      }
    }
  }

  lemma ClosedRelation(definitions: Definitions)
    ensures Digraph.Closed(RelationOf(definitions)) <==> DependencyClosed(definitions)
  {
    var g := RelationOf(definitions);
    assert g.Keys == definitions.Keys;
    if Digraph.Closed(g) {
      forall id, d | id in definitions && d in definitions[id].dependencies ensures d in definitions {
        assert id in g && d in g[id];
        assert d in g.Keys;
      }
    }
    if DependencyClosed(definitions) {
      forall id, d | id in g && d in g[id] ensures d in g {
        assert d in definitions[id].dependencies;
      }
    }
  }

  /** The order in which capabilities are released: dependents before what they depend on. */
  function TeardownOrder(order: seq<Id>): (r: seq<Id>)
    ensures |r| == |order|
    ensures forall i :: 0 <= i < |r| ==> r[i] == order[|order| - 1 - i]
  {
    seq(|order|, i requires 0 <= i < |order| => order[|order| - 1 - i])
  }

  /** In teardown order no capability comes before a dependent of it. */
  lemma DependentsGoFirst(definitions: Definitions, order: seq<Id>, i: nat, j: nat)
    requires Resolve(definitions) == Ok(order) && i < |order| && j < |order|
    requires TeardownOrder(order)[i] in definitions
    requires TeardownOrder(order)[j] in definitions[TeardownOrder(order)[i]].dependencies
    ensures i < j
  {
    ResolveIsExact(definitions);
    var p, q := |order| - 1 - i, |order| - 1 - j;
    assert order[q] in Elements(order[..p]);
    var k :| 0 <= k < p && order[k] == order[q];
  }
}
