/**
 What a batch and a completion do, said in terms of the tasks and edges they
 name: which are accepted, what they leave, and what an accepted edge means for
 every later completion.
 */
module WorkflowBatches {
  import opened Prelude
  import opened WorkflowModel
  import Digraph

  /** The prerequisites a batch adds to a task. */
  function EdgesTo(batch: seq<Mutation>, id: Id): set<Id> {
    set m | m in batch && m.AddDependency? && m.taskId == id :: m.dependencyId
  }

  function AddedIds(batch: seq<Mutation>): set<Id> {
    set m | m in batch && m.AddTask? :: m.task.id
  }

  lemma BatchNext(batch: seq<Mutation>, m: Mutation)
    ensures AddedIds(batch + [m]) == AddedIds(batch) + if m.AddTask? then {m.task.id} else {}
    ensures forall id :: EdgesTo(batch + [m], id) ==
              EdgesTo(batch, id) + if m.AddDependency? && m.taskId == id then {m.dependencyId} else {}
  {
    var all := batch + [m];
    assert forall x :: x in all <==> x in batch || x == m;
    forall id
      ensures EdgesTo(all, id) ==
              EdgesTo(batch, id) + if m.AddDependency? && m.taskId == id then {m.dependencyId} else {}
    {
      forall d | d in EdgesTo(batch, id) ensures d in EdgesTo(all, id) {
        var x :| x in batch && x.AddDependency? && x.taskId == id && x.dependencyId == d;
        assert x in all;
      }
      if m.AddDependency? && m.taskId == id { assert m in all; }
    }
    forall a | a in AddedIds(batch) ensures a in AddedIds(all) {
      var x :| x in batch && x.AddTask? && x.task.id == a;
      assert x in all;
    }
    if m.AddTask? { assert m in all; }
  }

  /** The tasks are the old ones and exactly the added ones, the edges the old ones and exactly the added ones. */
  ghost predicate Holds(t: Topology, batch: seq<Mutation>, after: Topology) {
    && after.tasks.Keys == t.tasks.Keys + AddedIds(batch)
    && (forall id :: id in t.tasks ==> id in after.tasks && after.tasks[id] == t.tasks[id])
    && (forall m :: m in batch && m.AddTask? ==>
          m.task.id !in t.tasks && m.task.id in after.tasks && after.tasks[m.task.id] == m.task)
    && (forall id :: after.DependenciesOf(id) == t.DependenciesOf(id) + EdgesTo(batch, id))
  }

  lemma StructuralAdds(g: Graph, m: Mutation)
    requires Structural(g, m).Ok?
    ensures var c := Structural(g, m).value;
            c == g.(topology := c.topology) && Holds(g.topology, [m], c.topology)
  {
    BatchNext([], m);
    assert [] + [m] == [m];
    var c := Structural(g, m).value;
    forall id ensures c.topology.DependenciesOf(id) == g.topology.DependenciesOf(id) + EdgesTo([m], id) {
    }
  }

  lemma {:induction false} FoldHolds(g: Graph, batch: seq<Mutation>)
    requires Fold(Structural, g, batch).Ok?
    ensures var c := Fold(Structural, g, batch).value;
            c == g.(topology := c.topology) && Holds(g.topology, batch, c.topology)
  {
    if batch != [] {
      var front, m := batch[..|batch| - 1], batch[|batch| - 1];
      assert batch == front + [m];
      FoldHolds(g, front);
      var c := Fold(Structural, g, front).value;
      StructuralAdds(c, m);
      hide Structural;
      BatchNext(front, m);
      BatchNext([], m);
      assert [] + [m] == [m];
      HoldsTwice(g.topology, front, c.topology, m, Structural(c, m).value.topology);
    }
  }

  lemma HoldsTwice(t: Topology, front: seq<Mutation>, c: Topology, m: Mutation, after: Topology)
    requires Holds(t, front, c) && Holds(c, [m], after)
    ensures Holds(t, front + [m], after)
  {
    BatchNext(front, m);
    BatchNext([], m);
    assert [] + [m] == [m];
    forall x | x in front + [m] && x.AddTask?
      ensures x.task.id !in t.tasks && x.task.id in after.tasks && after.tasks[x.task.id] == x.task
    {
      assert x in front || x in [m];
    }
  }

  lemma {:induction false} AcceptedIsStructural(g: Graph, batch: seq<Mutation>)
    requires Fold(ApplyMutation, g, batch).Ok?
    ensures Fold(Structural, g, batch) == Fold(ApplyMutation, g, batch)
  {
    if batch != [] { AcceptedIsStructural(g, batch[..|batch| - 1]); }
  }

  /**
   An accepted batch leaves exactly the old tasks and edges and its own, touches
   no completion, and is logged as one revision.
   */
  lemma AcceptedBatchHolds(g: Graph, expected: nat, batch: seq<Mutation>)
    requires ApplyBatch(g, expected, batch).Ok?
    ensures var c := ApplyBatch(g, expected, batch).value;
            && Holds(g.topology, batch, c.topology)
            && c.completed == g.completed && c.completionLog == g.completionLog && c.revision == g.revision + 1
            && c.mutationLog == g.mutationLog + [MutationRecord(g.revision, g.revision + 1, batch)]
  {
    hide ApplyMutation, Structural, Topology.CyclePath, Holds;
    AcceptedIsStructural(g, batch);
    FoldHolds(g, batch);
  }

  // ---- Exactly which batches are accepted ----

  ghost predicate Known(t: Topology, batch: seq<Mutation>, id: Id) {
    id in t.tasks || id in AddedIds(batch)
  }

  /** The mutation fits behind those before it in the batch. */
  ghost predicate Fits(g: Graph, before: seq<Mutation>, m: Mutation) {
    match m
    case AddTask(task) => !Known(g.topology, before, task.id)
    case AddDependency(task, dependency) =>
      && Known(g.topology, before, task) && Known(g.topology, before, dependency) && task !in g.completed
      && dependency !in g.topology.DependenciesOf(task) && m !in before
  }

  ghost predicate AllFit(g: Graph, batch: seq<Mutation>) {
    forall i :: 0 <= i < |batch| ==> Fits(g, batch[..i], batch[i])
  }

  lemma AllFitNext(g: Graph, front: seq<Mutation>, m: Mutation)
    ensures AllFit(g, front + [m]) <==> AllFit(g, front) && Fits(g, front, m)
  {
    hide Fits;
    var all := front + [m];
    assert forall i :: 0 <= i < |front| ==> all[i] == front[i] && all[..i] == front[..i];
    assert all[|front|] == m && all[..|front|] == front;
  }

  lemma FitsIsStructural(g: Graph, before: seq<Mutation>, c: Graph, m: Mutation)
    requires c == g.(topology := c.topology) && Holds(g.topology, before, c.topology)
    ensures Structural(c, m).Ok? <==> Fits(g, before, m)
  {
    if m.AddDependency? {
      assert c.topology.DependenciesOf(m.taskId) == g.topology.DependenciesOf(m.taskId) + EdgesTo(before, m.taskId);
      assert m.dependencyId in EdgesTo(before, m.taskId) <==> m in before;
    }
  }

  lemma {:induction false} FoldIsExact(g: Graph, batch: seq<Mutation>)
    ensures Fold(Structural, g, batch).Ok? <==> AllFit(g, batch)
  {
    hide Structural, Fits, Holds;
    if batch != [] {
      var front, m := batch[..|batch| - 1], batch[|batch| - 1];
      assert batch == front + [m];
      FoldIsExact(g, front);
      AllFitNext(g, front, m);
      if AllFit(g, front) {
        FoldHolds(g, front);
        FitsIsStructural(g, front, Fold(Structural, g, front).value, m);
      }
    }
  }

  /** The old relation with the tasks and edges of the batch. */
  ghost function RelationAfter(t: Topology, batch: seq<Mutation>): Digraph.Relation {
    map id | id in t.tasks.Keys + AddedIds(batch) :: t.DependenciesOf(id) + EdgesTo(batch, id)
  }

  lemma RelationHolds(t: Topology, batch: seq<Mutation>, after: Topology)
    requires Holds(t, batch, after)
    ensures after.Relation() == RelationAfter(t, batch)
  {
  }

  /**
   A batch is accepted exactly when it is for the current revision, is not empty,
   leaves a revision to count to, each mutation fits behind the earlier ones, and
   all its edges together close no cycle.
   */
  lemma BatchIsExact(g: Graph, expected: nat, batch: seq<Mutation>)
    requires Valid(g)
    ensures ApplyBatch(g, expected, batch).Ok? <==>
              && expected == g.revision && batch != [] && g.revision < U64_MAX
              && AllFit(g, batch) && Digraph.Acyclic(RelationAfter(g.topology, batch))
  {
    hide ApplyMutation, Structural, Topology.CyclePath, Holds, AllFit, Digraph.Acyclic, LinearExtension;
    EdgeChecksDecideTheBatch(g, batch);
    FoldIsExact(g, batch);
    if AllFit(g, batch) {
      FoldHolds(g, batch);
      RelationHolds(g.topology, batch, Fold(Structural, g, batch).value.topology);
    }
    if Fold(ApplyMutation, g, batch).Ok? { RecheckNeverFires(g, batch); }
  }

  // ---- Refusals ----

  /** What a refusal names is so in the graph that refuses. */
  ghost predicate Truthful(g: Graph, m: Mutation, e: WorkflowError) {
    match e
    case DuplicateTask(id) => m.AddTask? && id == m.task.id && id in g.topology.tasks
    case UnknownTask(id) => m.AddDependency? && id in {m.taskId, m.dependencyId} && id !in g.topology.tasks
    case CompletedTaskMutation(id) => m.AddDependency? && id == m.taskId && id in g.completed
    case DuplicateDependency(task, dependency) =>
      m == AddDependency(task, dependency) && dependency in g.topology.DependenciesOf(task)
    case CycleFound(path) =>
      m.AddDependency? && Digraph.IsCycle(RelationAfter(g.topology, [m]), path)
    case _ => false
  }

  lemma RefusalIsTruthful(g: Graph, m: Mutation)
    requires g.topology.WellFormed() && ApplyMutation(g, m).Err?
    ensures Truthful(g, m, ApplyMutation(g, m).error)
  {
    hide Digraph.Search, Digraph.IsCycle, Digraph.Acyclic;
    if Structural(g, m).Ok? {
      StructuralGrows(g, m);
      StructuralAdds(g, m);
      CyclePathIsExact(Structural(g, m).value.topology);
      RelationHolds(g.topology, [m], Structural(g, m).value.topology);
    }
  }

  /** A refused batch names its revision, its emptiness, or the first mutation that is refused. */
  lemma RefusedBatchIsTruthful(g: Graph, expected: nat, batch: seq<Mutation>)
    requires Valid(g) && ApplyBatch(g, expected, batch).Err?
    ensures var e := ApplyBatch(g, expected, batch).error;
            if expected != g.revision then e == RevisionConflict(expected, g.revision)
            else if batch == [] then e == EmptyMutationBatch
            else if g.revision == U64_MAX then e == RevisionExhausted(U64_MAX)
            else exists i :: RefusedAt(g, batch, i, e)
  {
    hide ApplyMutation, Topology.CyclePath, LinearExtension, Digraph.Acyclic;
    if expected == g.revision && batch != [] && g.revision < U64_MAX {
      if Fold(ApplyMutation, g, batch).Ok? { RecheckNeverFires(g, batch); }
      var i := FirstRefusal(g, batch);
      assert RefusedAt(g, batch, i, ApplyBatch(g, expected, batch).error);
    }
  }

  /** The mutations before `i` are accepted and mutation `i` is refused for a reason that holds there. */
  ghost predicate RefusedAt(g: Graph, batch: seq<Mutation>, i: nat, e: WorkflowError) {
    && i < |batch| && Fold(ApplyMutation, g, batch[..i]).Ok?
    && Truthful(Fold(ApplyMutation, g, batch[..i]).value, batch[i], e)
  }

  lemma {:induction false} FirstRefusal(g: Graph, batch: seq<Mutation>) returns (i: nat)
    requires Sound(g.topology) && Fold(ApplyMutation, g, batch).Err?
    ensures RefusedAt(g, batch, i, Fold(ApplyMutation, g, batch).error)
  {
    hide ApplyMutation, Truthful, Topology.CyclePath, Digraph.Acyclic;
    var front, m := batch[..|batch| - 1], batch[|batch| - 1];
    if Fold(ApplyMutation, g, front).Ok? {
      i := |front|;
      EdgeChecksDecideTheBatch(g, front);
      RefusalIsTruthful(Fold(ApplyMutation, g, front).value, m);
    } else {
      i := FirstRefusal(g, front);
      assert front[..i] == batch[..i];
    }
  }

  // ---- Completions ----

  /** A node is completed exactly when it is known, not complete, and everything it needs is complete. */
  lemma CompletionIsExact(g: Graph, id: Id)
    ensures Complete(g, id).Ok? <==>
              id in g.topology.tasks && id !in g.completed && g.topology.DependenciesOf(id) <= g.completed
    ensures match Complete(g, id)
            case Ok(c) => c == g.(completed := g.completed + {id}, completionLog := g.completionLog + [id])
            case Err(UnknownTask(x)) => x == id && id !in g.topology.tasks
            case Err(TaskAlreadyCompleted(x)) => x == id && id in g.completed
            case Err(IncompletePrerequisite(x, d)) =>
              && x == id && d in g.topology.DependenciesOf(id) && d !in g.completed
              && forall y :: y in g.topology.DependenciesOf(id) && y !in g.completed ==> d <= y
            case _ => false
  {
    var needs := g.topology.DependenciesOf(id);
    var unfinished := needs - g.completed;
    assert forall y :: y in needs && y !in g.completed ==> y in unfinished;
    if unfinished == {} {
      forall y | y in needs ensures y in g.completed { assert y !in unfinished; }
    }
  }

  // ---- An accepted edge over whole runs ----

  lemma ExecuteKeepsEdges(g: Graph, c: Command, id: Id)
    requires Valid(g) && id in g.topology.tasks
    ensures id in Execute(g, c).topology.tasks
    ensures g.topology.DependenciesOf(id) <= Execute(g, c).topology.DependenciesOf(id)
  {
    hide Sound, LinearExtension, Fold;
    if c.Batch? && ApplyBatch(g, c.expected, c.mutations).Ok? { ApplyBatchKeepsValid(g, c.expected, c.mutations); }
  }

  lemma {:induction false} EdgeStays(commands: seq<Command>, later: seq<Command>, task: Id, dependency: Id)
    requires task in Run(commands).topology.tasks && dependency in Run(commands).topology.DependenciesOf(task)
    ensures task in Run(commands + later).topology.tasks
    ensures dependency in Run(commands + later).topology.DependenciesOf(task)
    decreases |later|
  {
    hide Execute;
    if later == [] {
      assert commands + later == commands;
    } else {
      var all, front := commands + later, commands + later[..|later| - 1];
      assert all[..|all| - 1] == front;
      EdgeStays(commands, later[..|later| - 1], task, dependency);
      RunIsValid(front);
      ExecuteKeepsEdges(Run(front), all[|all| - 1], task);
    }
  }

  /**
   Once a batch with an edge has been accepted, whatever runs before and after,
   no completion log has the task without the prerequisite somewhere before it.
   */
  lemma EdgeOrdersCompletions(commands: seq<Command>, expected: nat, batch: seq<Mutation>, later: seq<Command>,
                              task: Id, dependency: Id)
    requires ApplyBatch(Run(commands), expected, batch).Ok? && AddDependency(task, dependency) in batch
    ensures var log := Run(commands + [Batch(expected, batch)] + later).completionLog;
            forall i :: 0 <= i < |log| && log[i] == task ==> dependency in log[..i]
  {
    hide ApplyBatch, Holds;
    var now := commands + [Batch(expected, batch)];
    assert now[..|commands|] == commands;
    EdgeIsStored(Run(commands), expected, batch, task, dependency);
    EdgeStays(now, later, task, dependency);
    RunIsValid(now + later);
    var g := Run(now + later);
    forall i | 0 <= i < |g.completionLog| && g.completionLog[i] == task ensures dependency in g.completionLog[..i] {
      assert dependency in Elements(g.completionLog[..i]);
    }
  }

  lemma EdgeIsStored(g: Graph, expected: nat, batch: seq<Mutation>, task: Id, dependency: Id)
    requires ApplyBatch(g, expected, batch).Ok? && AddDependency(task, dependency) in batch
    ensures var c := ApplyBatch(g, expected, batch).value;
            task in c.topology.tasks && dependency in c.topology.DependenciesOf(task)
  {
    hide ApplyMutation, Topology.CyclePath;
    AcceptedBatchHolds(g, expected, batch);
    AcceptedIsStructural(g, batch);
    FoldIsExact(g, batch);
    var i :| 0 <= i < |batch| && batch[i] == AddDependency(task, dependency);
    assert Fits(g, batch[..i], batch[i]);
    assert AddedIds(batch[..i]) <= AddedIds(batch) by { AddedByPrefix(batch, i); }
  }

  lemma AddedByPrefix(batch: seq<Mutation>, i: nat)
    requires i <= |batch|
    ensures AddedIds(batch[..i]) <= AddedIds(batch)
  {
    forall a | a in AddedIds(batch[..i]) ensures a in AddedIds(batch) {
      var x :| x in batch[..i] && x.AddTask? && x.task.id == a;
      assert x in batch;
    }
  }

  // ---- Replayed logs ----

  /** A record is replayed exactly when it is for the current revision, counts one on, and its batch is accepted. */
  lemma RecordIsExact(g: Graph, r: MutationRecord)
    ensures ReplayRecord(g, r).Ok? <==>
              && r.baseRevision == g.revision && r.resultingRevision == g.revision + 1
              && ApplyBatch(g, g.revision, r.mutations).Ok?
    ensures ReplayRecord(g, r).Ok? ==> ReplayRecord(g, r) == ApplyBatch(g, g.revision, r.mutations)
  {
    hide Fold, Topology.CyclePath;
  }

  /** Whatever records and completions are replayed, the logs of the result are the ones that were replayed. */
  lemma {:induction false} ReplayReproducesLog(records: seq<MutationRecord>)
    requires ReplayFrom(Empty, records).Ok?
    ensures var g := ReplayFrom(Empty, records).value;
            && g.mutationLog == records && g.revision == |records| && g.completed == {} && g.completionLog == []
            && Valid(g)
  {
    hide ReplayRecord, ApplyBatch, ApplyMutation, Valid, Holds;
    if records == [] {
      EmptyIsValid();
    } else {
      var front, last := records[..|records| - 1], records[|records| - 1];
      ReplayReproducesLog(front);
      var g := ReplayFrom(Empty, front).value;
      RecordIsExact(g, last);
      AcceptedBatchHolds(g, g.revision, last.mutations);
      ApplyBatchKeepsValid(g, g.revision, last.mutations);
    }
  }

  lemma {:induction false} CompletionsReproduceLog(g: Graph, completions: seq<Id>)
    requires Valid(g) && Fold(Complete, g, completions).Ok?
    ensures var c := Fold(Complete, g, completions).value;
            && c == g.(completed := c.completed, completionLog := g.completionLog + completions) && Valid(c)
  {
    hide Valid, Complete;
    if completions == [] {
      assert g.completionLog + completions == g.completionLog;
    } else {
      var front, last := completions[..|completions| - 1], completions[|completions| - 1];
      CompletionsReproduceLog(g, front);
      var c := Fold(Complete, g, front).value;
      CompleteKeepsValid(c, last);
      CompletionIsExact(c, last);
      assert g.completionLog + completions == g.completionLog + front + [last];
    }
  }

  /** Together with the round trip of reachable graphs: replay is the inverse of logging, both ways. */
  lemma ReplayReproducesBothLogs(records: seq<MutationRecord>, completions: seq<Id>)
    requires ReplayWithFacts(records, completions).Ok?
    ensures var g := ReplayWithFacts(records, completions).value;
            && g.mutationLog == records && g.completionLog == completions && g.completed == Elements(completions)
            && g.revision == |records| && Valid(g)
  {
    hide ReplayRecord, Complete, Fold, Sound, LinearExtension;
    ReplayReproducesLog(records);
    CompletionsReproduceLog(ReplayFrom(Empty, records).value, completions);
    assert [] + completions == completions;
  }
}
