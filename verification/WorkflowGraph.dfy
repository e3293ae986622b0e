/** The workflow graph object: its fields are updated in place, behind the value model. */
module WorkflowGraphs {
  import opened Prelude
  import Digraph
  import Model = WorkflowModel

  /** Every active task can be located on the search stack. */
  ghost predicate ActiveOnStack(marks: map<Id, Digraph.Mark>, stack: seq<Id>) {
    forall x :: x in marks && marks[x] == Digraph.Active ==> x in stack
  }

  /** What the imperative search reports, against the specified result. */
  ghost predicate Answers(path: Option<seq<Id>>, marks: map<Id, Digraph.Mark>, order: seq<Id>,
                          spec: Result<Digraph.SearchState, Digraph.SearchFailure>)
  {
    spec == match path {
              case Some(p) => Err(Digraph.Cyclic(p))
              case None => Ok(Digraph.SearchState(marks, order))
            }
  }

  lemma AnswersEither(path: Option<seq<Id>>, marks: map<Id, Digraph.Mark>, order: seq<Id>,
                      spec: Result<Digraph.SearchState, Digraph.SearchFailure>)
    ensures Answers(path, marks, order, spec) <==>
            spec == if path.Some? then Err(Digraph.Cyclic(path.value)) else Ok(Digraph.SearchState(marks, order))
  {
  }

  lemma ActiveIsFound(marks: map<Id, Digraph.Mark>, stack: seq<Id>, x: Id)
    requires ActiveOnStack(marks, stack) && x in marks && marks[x] == Digraph.Active
    ensures x in stack
    ensures stack[Digraph.FirstIndex(stack, x)..] + [x] == Digraph.ClosedPath(stack, x)
  {
  }

  /** Not complete, with every dependency complete. */
  ghost predicate IsReady(g: Model.Graph, id: Id) {
    id in g.topology.tasks && id !in g.completed && g.topology.DependenciesOf(id) <= g.completed
  }

  lemma AppendLarger(list: seq<Id>, ids: seq<Id>, k: nat)
    requires k < |ids| && Increasing(list) && Increasing(ids) && forall x :: x in list ==> x in ids[..k]
    ensures Increasing(list + [ids[k]])
  {
    forall i | 0 <= i < |list| ensures list[i] < ids[k] {
      assert list[i] in ids[..k];
    }
  }

  lemma ReadyIsModel(g: Model.Graph, ready: seq<Id>)
    requires Increasing(ready) && forall id :: id in ready <==> IsReady(g, id)
    ensures ready == Model.ReadyTasks(g)
  {
    IncreasingIsAscending(ready, set id | id in g.topology.tasks && IsReady(g, id));
    assert (set id | id in g.topology.tasks && IsReady(g, id)) ==
           (set id | id in g.topology.tasks && id !in g.completed && g.topology.DependenciesOf(id) <= g.completed);
  }

  class WorkflowGraph {
    var topology: Model.Topology
    var completed: set<Id>
    var completionLog: seq<Id>
    var revision: nat
    var mutationLog: seq<Model.MutationRecord>

    function State(): Model.Graph
      reads this
    {
      Model.Graph(topology, completed, completionLog, revision, mutationLog)
    }

    constructor ()
      ensures State() == Model.Empty
    {
      topology := Model.Topology(map[], map[]);
      completed, completionLog := {}, [];
      revision, mutationLog := 0, [];
    }

    constructor Clone(other: WorkflowGraph)
      ensures State() == other.State()
    {
      topology := other.topology;
      completed, completionLog := other.completed, other.completionLog;
      revision, mutationLog := other.revision, other.mutationLog;
    }

    /**
     Depth-first visit of an unmarked task. The order in which tasks finish is
     tracked only to relate the visit to the specified search.
     */
    static method Visit(t: Model.Topology, id: Id, marks0: map<Id, Digraph.Mark>, stack0: seq<Id>,
                        ghost order0: seq<Id>)
      returns (path: Option<seq<Id>>, marks: map<Id, Digraph.Mark>, stack: seq<Id>, ghost order: seq<Id>)
      requires t.WellFormed() && id in t.tasks && id !in marks0
      requires ActiveOnStack(marks0, stack0)
      ensures Answers(path, marks, order,
                      Digraph.Visit(t.Relation(), [id], Digraph.SearchState(marks0, order0), stack0))
      ensures path == None ==> stack == stack0 && ActiveOnStack(marks, stack0)
      ensures path == None ==> Digraph.Unmarked(t.Relation(), marks) <= Digraph.Unmarked(t.Relation(), marks0)
      decreases Digraph.Unmarked(t.Relation(), marks0), 0
    {
      hide Digraph.Visit, Digraph.Unmarked;
      ghost var g := t.Relation();
      Digraph.VisitNode(g, id, Digraph.SearchState(marks0, order0), stack0);
      Model.RelationIsClosed(t);
      Digraph.MarkingIsProgress(g, marks0, id, Digraph.Active);
      path, marks, stack, order :=
        VisitDependencies(t, id, marks0[id := Digraph.Active], stack0 + [id], order0);
      if path == None {
        stack := stack[..|stack| - 1];
        Digraph.MarkingIsProgress(g, marks, id, Digraph.Complete);
        marks := marks[id := Digraph.Complete];
        order := order + [id];
      }
    }

    /** The loop of a visit over the dependencies of `id`, in identifier order. */
    static method VisitDependencies(t: Model.Topology, id: Id, marks0: map<Id, Digraph.Mark>, stack0: seq<Id>,
                                    ghost order0: seq<Id>)
      returns (path: Option<seq<Id>>, marks: map<Id, Digraph.Mark>, stack: seq<Id>, ghost order: seq<Id>)
      requires t.WellFormed() && id in t.tasks
      requires ActiveOnStack(marks0, stack0)
      ensures Answers(path, marks, order,
                      Digraph.Visit(t.Relation(), Ascending(t.Relation()[id]), Digraph.SearchState(marks0, order0),
                                    stack0))
      ensures path == None ==> stack == stack0 && ActiveOnStack(marks, stack0)
      ensures path == None ==> Digraph.Unmarked(t.Relation(), marks) <= Digraph.Unmarked(t.Relation(), marks0)
      decreases Digraph.Unmarked(t.Relation(), marks0), 1
    {
      ghost var g := t.Relation();
      Model.RelationAt(t, id);
      var dependencies := Ascending(t.DependenciesOf(id));
      hide *;
      marks, stack, order, path := marks0, stack0, order0, None;
      ghost var all := Digraph.Visit(g, dependencies, Digraph.SearchState(marks, order), stack);
      var k := 0;
      while k < |dependencies|
        invariant k <= |dependencies| && path == None && stack == stack0 && ActiveOnStack(marks, stack)
        invariant Digraph.Unmarked(g, marks) <= Digraph.Unmarked(g, marks0)
        invariant all == Digraph.Visit(g, dependencies[k..], Digraph.SearchState(marks, order), stack)
      {
        var dependency := dependencies[k];
        ghost var rest := dependencies[k..];
        assert dependency in dependencies && rest[1..] == dependencies[k + 1..];
        if dependency !in marks {
          Digraph.VisitHead(g, rest, Digraph.SearchState(marks, order), stack);
          ghost var first := Digraph.Visit(g, [dependency], Digraph.SearchState(marks, order), stack);
          path, marks, stack, order := Visit(t, dependency, marks, stack, order);
          AnswersEither(path, marks, order, first);
          if path.Some? { return; }
        } else {
          Digraph.VisitMarked(g, rest, Digraph.SearchState(marks, order), stack);
          if marks[dependency] == Digraph.Active {
            ActiveIsFound(marks, stack, dependency);
            path := Some(stack[Digraph.FirstIndex(stack, dependency)..] + [dependency]);
            AnswersEither(path, marks, order, all);
            return;
          }
        }
        k := k + 1;
      }
      assert dependencies[k..] == [];
      Digraph.VisitNothing(g, Digraph.SearchState(marks, order), stack);
      AnswersEither(path, marks, order, all);
    }

    static method CyclePath(t: Model.Topology) returns (path: Option<seq<Id>>)
      requires t.WellFormed()
      ensures path == t.CyclePath()
    {
      hide Digraph.Visit, Digraph.Unmarked;
      var marks, stack: seq<Id> := map[], [];
      ghost var order := [];
      ghost var g := t.Relation();
      var ids := Ascending(t.tasks.Keys);
      assert g.Keys == t.tasks.Keys;
      ghost var all := Digraph.Visit(g, ids, Digraph.Unvisited, []);
      var k := 0;
      while k < |ids|
        invariant k <= |ids| && stack == []
        invariant ActiveOnStack(marks, [])
        invariant all == Digraph.Visit(g, ids[k..], Digraph.SearchState(marks, order), [])
      {
        var id := ids[k];
        ghost var rest := ids[k..];
        assert id in ids && rest[1..] == ids[k + 1..];
        if id !in marks {
          Digraph.VisitHead(g, rest, Digraph.SearchState(marks, order), []);
          path, marks, stack, order := Visit(t, id, marks, stack, order);
          if path.Some? { return; }
        } else {
          Digraph.VisitMarked(g, rest, Digraph.SearchState(marks, order), []);
        }
        k := k + 1;
      }
      assert ids[k..] == [];
      Digraph.VisitNothing(g, Digraph.SearchState(marks, order), []);
      path := None;
    }

    method Complete(id: Id) returns (r: Outcome<Model.WorkflowError>)
      modifies this
      ensures match Model.Complete(old(State()), id) {
                case Ok(g) => r == Done && State() == g
                case Err(e) => r == Failed(e) && State() == old(State())
              }
    {
      if id !in topology.tasks {
        return Failed(Model.UnknownTask(id));
      }
      if id in completed {
        return Failed(Model.TaskAlreadyCompleted(id));
      }
      var dependencies := Ascending(topology.DependenciesOf(id));
      for k := 0 to |dependencies|
        invariant State() == old(State())
        invariant forall i :: 0 <= i < k ==> dependencies[i] in completed
      {
        if dependencies[k] !in completed {
          ghost var unfinished := topology.DependenciesOf(id) - completed;
          assert forall x :: x in unfinished ==> x in dependencies;
          assert dependencies[k] in unfinished;
          AscendingIsSorted(topology.DependenciesOf(id));
          return Failed(Model.IncompletePrerequisite(id, dependencies[k]));
        }
      }
      assert forall x :: x in topology.DependenciesOf(id) ==> x in dependencies;
      completed := completed + {id};
      completionLog := completionLog + [id];
      r := Done;
    }

    /** The tasks that may be completed next, in identifier order. */
    method ReadyTasks() returns (ready: seq<Id>)
      ensures Increasing(ready) && forall id :: id in ready <==> IsReady(State(), id)
      ensures ready == Model.ReadyTasks(State())
    {
      var ids := Ascending(topology.tasks.Keys);
      AscendingIsSorted(topology.tasks.Keys);
      ready := [];
      for k := 0 to |ids|
        invariant Increasing(ready)
        invariant forall id :: id in ready <==> id in ids[..k] && IsReady(State(), id)
      {
        var id := ids[k];
        if id !in completed && topology.DependenciesOf(id) <= completed {
          AppendLarger(ready, ids, k);
          ready := ready + [id];
        }
        assert ids[..k + 1] == ids[..k] + [id];
      }
      assert ids[..|ids|] == ids;
      ReadyIsModel(State(), ready);
    }

    method ApplyMutation(m: Model.Mutation) returns (r: Outcome<Model.WorkflowError>)
      requires topology.WellFormed()
      modifies this
      ensures topology.WellFormed()
      ensures match Model.ApplyMutation(old(State()), m) {
                case Ok(g) => r == Done && State() == g
                case Err(e) => r == Failed(e) && State() == old(State())
              }
    {
      hide Digraph.Search;
      match m
      case AddTask(task) =>
        if task.id in topology.tasks {
          return Failed(Model.DuplicateTask(task.id));
        }
        topology := topology.(tasks := topology.tasks[task.id := task]);
        r := Done;
      case AddDependency(taskId, dependencyId) =>
        if taskId !in topology.tasks {
          return Failed(Model.UnknownTask(taskId));
        }
        if dependencyId !in topology.tasks {
          return Failed(Model.UnknownTask(dependencyId));
        }
        if taskId in completed {
          return Failed(Model.CompletedTaskMutation(taskId));
        }
        var before := topology.DependenciesOf(taskId);
        if dependencyId in before {
          return Failed(Model.DuplicateDependency(taskId, dependencyId));
        }
        topology := topology.(dependencies := topology.dependencies[taskId := before + {dependencyId}]);
        assert topology == Model.AddEdge(old(topology), taskId, dependencyId);
        var path := CyclePath(topology);
        if path.Some? {
          // Undo the insertion; an entry that becomes empty is removed.
          var rest := topology.dependencies[taskId] - {dependencyId};
          assert rest == before;
          topology := topology.(dependencies :=
            if rest == {} then topology.dependencies - {taskId} else topology.dependencies[taskId := rest]);
          assert topology.dependencies == old(topology).dependencies;
          return Failed(Model.CycleFound(path.value));
        }
        r := Done;
    }

    method ApplyBatch(expected: nat, batch: seq<Model.Mutation>)
      returns (r: Result<Model.MutationRecord, Model.WorkflowError>)
      requires topology.WellFormed()
      modifies this
      ensures topology.WellFormed()
      ensures match Model.ApplyBatch(old(State()), expected, batch) {
                case Ok(g) => State() == g && r == Ok(g.mutationLog[|g.mutationLog| - 1])
                case Err(e) => State() == old(State()) && r == Err(e)
              }
    {
      hide Digraph.Search;
      if expected != revision {
        return Err(Model.RevisionConflict(expected, revision));
      }
      if batch == [] {
        return Err(Model.EmptyMutationBatch);
      }
      if revision >= U64_MAX {
        return Err(Model.RevisionExhausted(revision));
      }
      var candidate := new WorkflowGraph.Clone(this);
      for k := 0 to |batch|
        invariant fresh(candidate) && State() == old(State()) && candidate.topology.WellFormed()
        invariant Fold(Model.ApplyMutation, State(), batch[..k]) == Ok(candidate.State())
      {
        FoldStep(Model.ApplyMutation, State(), batch, k);
        var step := candidate.ApplyMutation(batch[k]);
        if step.Failed? {
          return Err(step.error);
        }
      }
      assert batch[..|batch|] == batch;
      var path := CyclePath(candidate.topology);
      if path.Some? {
        return Err(Model.CycleFound(path.value));
      }
      var record := Model.MutationRecord(revision, revision + 1, batch);
      candidate.revision := revision + 1;
      candidate.mutationLog := candidate.mutationLog + [record];
      assert candidate.mutationLog == mutationLog + [record] by {
        FoldKeepsLog(State(), batch);
      }
      topology := candidate.topology;
      completed, completionLog := candidate.completed, candidate.completionLog;
      revision, mutationLog := candidate.revision, candidate.mutationLog;
      r := Ok(record);
    }

    static method Replay(records: seq<Model.MutationRecord>) returns (r: Result<WorkflowGraph, Model.WorkflowError>)
      ensures match Model.ReplayFrom(Model.Empty, records) {
                case Ok(g) => r.Ok? && fresh(r.value) && r.value.topology.WellFormed() && r.value.State() == g
                case Err(e) => r == Err(e)
              }
    {
      hide Model.ApplyBatch;
      var graph := new WorkflowGraph();
      for k := 0 to |records|
        invariant fresh(graph) && graph.topology.WellFormed()
        invariant Fold(Model.ReplayRecord, Model.Empty, records[..k]) == Ok(graph.State())
      {
        var record := records[k];
        FoldStep(Model.ReplayRecord, Model.Empty, records, k);
        if record.baseRevision != graph.revision {
          return Err(Model.RevisionConflict(record.baseRevision, graph.revision));
        }
        if graph.revision >= U64_MAX {
          return Err(Model.RevisionExhausted(graph.revision));
        }
        if record.resultingRevision != graph.revision + 1 {
          return Err(Model.ReplayRevisionMismatch(graph.revision + 1, record.resultingRevision));
        }
        var applied := graph.ApplyBatch(record.baseRevision, record.mutations);
        if applied.Err? {
          return Err(applied.error);
        }
      }
      assert records[..|records|] == records;
      r := Ok(graph);
    }

    static method ReplayWithFacts(records: seq<Model.MutationRecord>, completions: seq<Id>)
      returns (r: Result<WorkflowGraph, Model.WorkflowError>)
      ensures match Model.ReplayWithFacts(records, completions) {
                case Ok(g) => r.Ok? && fresh(r.value) && r.value.State() == g
                case Err(e) => r == Err(e)
              }
    {
      r := Replay(records);
      if r.Err? { return; }
      var graph := r.value;
      ghost var base := graph.State();
      for k := 0 to |completions|
        invariant fresh(graph)
        invariant Fold(Model.Complete, base, completions[..k]) == Ok(graph.State())
      {
        FoldStep(Model.Complete, base, completions, k);
        var step := graph.Complete(completions[k]);
        if step.Failed? {
          return Err(step.error);
        }
      }
      assert completions[..|completions|] == completions;
      r := Ok(graph);
    }
  }

  lemma {:induction false} FoldKeepsLog(g: Model.Graph, batch: seq<Model.Mutation>)
    requires Fold(Model.ApplyMutation, g, batch).Ok?
    ensures Fold(Model.ApplyMutation, g, batch).value.mutationLog == g.mutationLog
  {
    if batch != [] { FoldKeepsLog(g, batch[..|batch| - 1]); }
  }
}
