/** The resolver's depth-first traversal, with its state map, active path and order updated step by step. */
module Resolvers {
  import opened Prelude
  import opened ResolverModel
  import Digraph

  type States = map<Id, Digraph.Mark>

  /** Every active capability can be located on the active path. */
  ghost predicate ActiveOnPath(states: States, path: seq<Id>) {
    forall x :: x in states && states[x] == Digraph.Active ==> x in path
  }

  ghost predicate Reports(failure: Option<Digraph.SearchFailure>, states: States, order: seq<Id>,
                          spec: Result<Digraph.SearchState, Digraph.SearchFailure>)
  {
    spec == match failure {
              case Some(e) => Err(e)
              case None => Ok(Digraph.SearchState(states, order))
            }
  }

  lemma ReportsEither(failure: Option<Digraph.SearchFailure>, states: States, order: seq<Id>,
                      spec: Result<Digraph.SearchState, Digraph.SearchFailure>)
    ensures Reports(failure, states, order, spec) <==>
            spec == if failure.Some? then Err(failure.value) else Ok(Digraph.SearchState(states, order))
  {
  }

  lemma ActiveIsFound(states: States, path: seq<Id>, x: Id)
    requires ActiveOnPath(states, path) && x in states && states[x] == Digraph.Active
    ensures x in path && path[Digraph.FirstIndex(path, x)..] + [x] == Digraph.ClosedPath(path, x)
  {
  }

  lemma RelationAt(definitions: Definitions, id: Id)
    requires id in definitions
    ensures RelationOf(definitions).Keys == definitions.Keys
    ensures RelationOf(definitions)[id] == definitions[id].dependencies
  {
  }

  /** Visits one registered capability; a failure is reported, otherwise the active path is as before. */
  method Visit(definitions: Definitions, id: Id, states0: States, path0: seq<Id>, order0: seq<Id>)
    returns (failure: Option<Digraph.SearchFailure>, states: States, path: seq<Id>, order: seq<Id>)
    requires id in definitions && ActiveOnPath(states0, path0)
    ensures Reports(failure, states, order,
                    Digraph.Visit(RelationOf(definitions), [id], Digraph.SearchState(states0, order0), path0))
    ensures failure == None ==> path == path0 && ActiveOnPath(states, path0)
    ensures failure == None ==>
      Digraph.Unmarked(RelationOf(definitions), states) <= Digraph.Unmarked(RelationOf(definitions), states0)
    decreases Digraph.Unmarked(RelationOf(definitions), states0), 0
  {
    hide Digraph.Visit, Digraph.Unmarked, RelationOf;
    ghost var g := RelationOf(definitions);
    RelationAt(definitions, id);
    states, path, order, failure := states0, path0, order0, None;
    ghost var s0 := Digraph.SearchState(states0, order0);
    if id in states {
      Digraph.VisitMarked(g, [id], s0, path0);
      assert [id][1..] == [];
      Digraph.VisitNothing(g, s0, path0);
      if states[id] == Digraph.Active {
        ActiveIsFound(states, path, id);
        failure := Some(Digraph.Cyclic(path[Digraph.FirstIndex(path, id)..] + [id]));
      }
      return;
    }
    Digraph.VisitNode(g, id, s0, path0);
    Digraph.MarkingIsProgress(g, states0, id, Digraph.Active);
    failure, states, path, order :=
      VisitDependencies(definitions, id, states0[id := Digraph.Active], path0 + [id], order0);
    ReportsEither(failure, states, order,
                  Digraph.Visit(g, Ascending(g[id]), Digraph.SearchState(states0[id := Digraph.Active], order0),
                                path0 + [id]));
    if failure == None {
      path := path[..|path| - 1];
      Digraph.MarkingIsProgress(g, states, id, Digraph.Complete);
      states := states[id := Digraph.Complete];
      order := order + [id];
    }
  }

  /** The loop of a visit over the dependencies of `id`, which is last on the path. */
  method VisitDependencies(definitions: Definitions, id: Id, states0: States, path0: seq<Id>, order0: seq<Id>)
    returns (failure: Option<Digraph.SearchFailure>, states: States, path: seq<Id>, order: seq<Id>)
    requires id in definitions && path0 != [] && path0[|path0| - 1] == id && ActiveOnPath(states0, path0)
    ensures Reports(failure, states, order,
                    Digraph.Visit(RelationOf(definitions), Ascending(RelationOf(definitions)[id]),
                                  Digraph.SearchState(states0, order0), path0))
    ensures failure == None ==> path == path0 && ActiveOnPath(states, path0)
    ensures failure == None ==>
      Digraph.Unmarked(RelationOf(definitions), states) <= Digraph.Unmarked(RelationOf(definitions), states0)
    decreases Digraph.Unmarked(RelationOf(definitions), states0), 1
  {
    ghost var g := RelationOf(definitions);
    RelationAt(definitions, id);
    hide *;
    states, path, order, failure := states0, path0, order0, None;
    var dependencies := Ascending(definitions[id].dependencies);
    ghost var all := Digraph.Visit(g, dependencies, Digraph.SearchState(states, order), path);
    var k := 0;
    while k < |dependencies|
      invariant k <= |dependencies| && failure == None && path == path0 && ActiveOnPath(states, path)
      invariant Digraph.Unmarked(g, states) <= Digraph.Unmarked(g, states0)
      invariant all == Digraph.Visit(g, dependencies[k..], Digraph.SearchState(states, order), path)
    {
      var dependency := dependencies[k];
      ghost var rest := dependencies[k..];
      ghost var s := Digraph.SearchState(states, order);
      assert rest[1..] == dependencies[k + 1..];
      if dependency !in definitions {
        failure := Some(Digraph.Missing(id, dependency));
        Digraph.VisitUnknown(g, rest, s, path);
        ReportsEither(failure, states, order, all);
        return;
      }
      Digraph.VisitHead(g, rest, s, path);
      ghost var first := Digraph.Visit(g, [dependency], s, path);
      failure, states, path, order := Visit(definitions, dependency, states, path, order);
      ReportsEither(failure, states, order, first);
      if failure.Some? {
        ReportsEither(failure, states, order, all);
        return;
      }
      k := k + 1;
    }
    assert dependencies[k..] == [];
    Digraph.VisitNothing(g, Digraph.SearchState(states, order), path);
    ReportsEither(failure, states, order, all);
  }

  method ResolveAll(definitions: Definitions) returns (r: Result<seq<Id>, Digraph.SearchFailure>)
    ensures r == Resolve(definitions)
  {
    hide Digraph.Visit, Digraph.Unmarked;
    ghost var g := RelationOf(definitions);
    var states: States, path: seq<Id>, order: seq<Id>, failure := map[], [], [], None;
    var ids := Ascending(definitions.Keys);
    assert g.Keys == definitions.Keys;
    ghost var all := Digraph.Visit(g, ids, Digraph.Unvisited, []);
    var k := 0;
    while k < |ids|
      invariant k <= |ids| && path == [] && ActiveOnPath(states, path)
      invariant all == Digraph.Visit(g, ids[k..], Digraph.SearchState(states, order), path)
    {
      ghost var rest := ids[k..];
      assert ids[k] in ids && rest[1..] == ids[k + 1..];
      Digraph.VisitHead(g, rest, Digraph.SearchState(states, order), path);
      failure, states, path, order := Visit(definitions, ids[k], states, path, order);
      if failure.Some? {
        return Err(failure.value);
      }
      k := k + 1;
    }
    assert ids[k..] == [];
    Digraph.VisitNothing(g, Digraph.SearchState(states, order), path);
    r := Ok(order);
  }

  /** Validates one candidate against the definitions it would join. */
  method Validate(definitions: Definitions, candidate: Definition) returns (r: Result<seq<Id>, Digraph.SearchFailure>)
    ensures r == ValidateCandidate(definitions, candidate)
  {
    r := ResolveAll(definitions[candidate.id := candidate]);
  }
}
