/**
 The versioned workflow graph as a value: topology, completion facts, and the
 two logs from which both are replayed.
 */
module WorkflowModel {
  import opened Prelude
  import Digraph

  datatype Task = Task(id: Id, description: string)

  /** Incoming dependencies are keyed by the task that waits for them. */
  datatype Topology = Topology(tasks: map<Id, Task>, dependencies: map<Id, set<Id>>) {

    function DependenciesOf(id: Id): set<Id> {
      if id in dependencies then dependencies[id] else {}
    }

    function Relation(): Digraph.Relation {
      map id | id in tasks :: DependenciesOf(id)
    }

    /** The closed path a depth-first search in identifier order meets first. */
    function CyclePath(): Option<seq<Id>> {
      match Digraph.Search(Relation())
      case Err(Cyclic(path)) => Some(path)
      case _ => None
    }

    ghost predicate WellFormed() {
      && (forall id :: id in tasks ==> tasks[id].id == id)
      && dependencies.Keys <= tasks.Keys
      && (forall id :: id in dependencies ==> dependencies[id] != {} && dependencies[id] <= tasks.Keys)
    }
  }

  datatype Mutation =
    | AddTask(task: Task)
    | AddDependency(taskId: Id, dependencyId: Id)

  datatype MutationRecord = MutationRecord(baseRevision: nat, resultingRevision: nat, mutations: seq<Mutation>)

  datatype WorkflowError =
    | UnknownTask(id: Id)
    | DuplicateTask(id: Id)
    | DuplicateDependency(task: Id, dependency: Id)
    | CycleFound(path: seq<Id>)
    | CompletedTaskMutation(id: Id)
    | TaskAlreadyCompleted(id: Id)
    | IncompletePrerequisite(task: Id, dependency: Id)
    | RevisionConflict(expected: nat, actual: nat)
    | EmptyMutationBatch
    | RevisionExhausted(current: nat)
    | ReplayRevisionMismatch(expected: nat, actual: nat)

  datatype Graph = Graph(
    topology: Topology,
    completed: set<Id>,
    completionLog: seq<Id>,
    revision: nat,
    mutationLog: seq<MutationRecord>)

  const Empty := Graph(Topology(map[], map[]), {}, [], 0, [])

  // ---- Operations ----

  function Complete(g: Graph, id: Id): Result<Graph, WorkflowError> {
    var unfinished := g.topology.DependenciesOf(id) - g.completed;
    if id !in g.topology.tasks then Err(UnknownTask(id))
    else if id in g.completed then Err(TaskAlreadyCompleted(id))
    else if unfinished != {} then Err(IncompletePrerequisite(id, Least(unfinished)))
    else Ok(g.(completed := g.completed + {id}, completionLog := g.completionLog + [id]))
  }

  function ReadyTasks(g: Graph): seq<Id> {
    Ascending(set id | id in g.topology.tasks && id !in g.completed && g.topology.DependenciesOf(id) <= g.completed)
  }

  function AddEdge(t: Topology, task: Id, dependency: Id): Topology {
    t.(dependencies := t.dependencies[task := t.DependenciesOf(task) + {dependency}])
  }

  function ApplyMutation(g: Graph, m: Mutation): Result<Graph, WorkflowError> {
    match m
    case AddTask(task) =>
      if task.id in g.topology.tasks then Err(DuplicateTask(task.id))
      else Ok(g.(topology := g.topology.(tasks := g.topology.tasks[task.id := task])))
    case AddDependency(task, dependency) =>
      if task !in g.topology.tasks then Err(UnknownTask(task))
      else if dependency !in g.topology.tasks then Err(UnknownTask(dependency))
      else if task in g.completed then Err(CompletedTaskMutation(task))
      else if dependency in g.topology.DependenciesOf(task) then Err(DuplicateDependency(task, dependency))
      else
        var extended := AddEdge(g.topology, task, dependency);
        match extended.CyclePath()
        case Some(path) => Err(CycleFound(path))
        case None => Ok(g.(topology := extended))
  }

  function ApplyBatch(g: Graph, expected: nat, batch: seq<Mutation>): Result<Graph, WorkflowError> {
    if expected != g.revision then Err(RevisionConflict(expected, g.revision))
    else if batch == [] then Err(EmptyMutationBatch)
    else if g.revision >= U64_MAX then Err(RevisionExhausted(g.revision))
    else match Fold(ApplyMutation, g, batch)
         case Err(e) => Err(e)
         case Ok(candidate) =>
           match candidate.topology.CyclePath()
           case Some(path) => Err(CycleFound(path))
           case None =>
             var record := MutationRecord(g.revision, g.revision + 1, batch);
             Ok(candidate.(revision := g.revision + 1, mutationLog := g.mutationLog + [record]))
  }

  function ReplayRecord(g: Graph, r: MutationRecord): Result<Graph, WorkflowError> {
    if r.baseRevision != g.revision then Err(RevisionConflict(r.baseRevision, g.revision))
    else if g.revision >= U64_MAX then Err(RevisionExhausted(g.revision))
    else if r.resultingRevision != g.revision + 1 then Err(ReplayRevisionMismatch(g.revision + 1, r.resultingRevision))
    else ApplyBatch(g, r.baseRevision, r.mutations)
  }

  function ReplayFrom(g: Graph, records: seq<MutationRecord>): Result<Graph, WorkflowError> {
    Fold(ReplayRecord, g, records)
  }

  function ReplayWithFacts(records: seq<MutationRecord>, completions: seq<Id>): Result<Graph, WorkflowError> {
    match ReplayFrom(Empty, records)
    case Err(e) => Err(e)
    case Ok(g) => Fold(Complete, g, completions)
  }

  // ---- Cycle detection ----

  /** The search reports a path exactly on cyclic topologies, and the path is a cycle. */
  lemma CyclePathIsExact(t: Topology)
    requires t.WellFormed()
    ensures t.CyclePath() == None <==> Digraph.Acyclic(t.Relation())
    ensures t.CyclePath().Some? ==> Digraph.IsCycle(t.Relation(), t.CyclePath().value)
  {
    Digraph.SearchIsExact(t.Relation());
    RelationIsClosed(t);
  }

  lemma RelationIsClosed(t: Topology)
    requires t.WellFormed()
    ensures Digraph.Closed(t.Relation())
  {
    forall id, d | id in t.Relation() && d in t.Relation()[id] ensures d in t.Relation() {
      assert d in t.dependencies[id];
    }
  }

  lemma RelationAt(t: Topology, id: Id)
    requires t.WellFormed() && id in t.tasks
    ensures t.Relation().Keys == t.tasks.Keys
    ensures t.Relation()[id] == t.DependenciesOf(id) <= t.tasks.Keys
  {
  }

  ghost predicate Sound(t: Topology) {
    t.WellFormed() && Digraph.Acyclic(t.Relation())
  }

  /** A batch with every check except the cycle check. */
  function Structural(g: Graph, m: Mutation): Result<Graph, WorkflowError> {
    match m
    case AddTask(_) => ApplyMutation(g, m)
    case AddDependency(task, dependency) =>
      if task !in g.topology.tasks then Err(UnknownTask(task))
      else if dependency !in g.topology.tasks then Err(UnknownTask(dependency))
      else if task in g.completed then Err(CompletedTaskMutation(task))
      else if dependency in g.topology.DependenciesOf(task) then Err(DuplicateDependency(task, dependency))
      else Ok(g.(topology := AddEdge(g.topology, task, dependency)))
  }

  lemma StructuralGrows(g: Graph, m: Mutation)
    requires g.topology.WellFormed() && Structural(g, m).Ok?
    ensures Structural(g, m).value.topology.WellFormed()
    ensures Digraph.Acyclic(Structural(g, m).value.topology.Relation()) ==> Digraph.Acyclic(g.topology.Relation())
    ensures m.AddTask? && Digraph.Acyclic(g.topology.Relation()) ==>
              Digraph.Acyclic(Structural(g, m).value.topology.Relation())
  {
    var before, after := g.topology, Structural(g, m).value.topology;
    if Digraph.Acyclic(after.Relation()) {
      Digraph.AcyclicIsAntitone(before.Relation(), after.Relation());
    }
    if m.AddTask? && Digraph.Acyclic(before.Relation()) {
      assert after.DependenciesOf(m.task.id) == {};
      Digraph.AcyclicIsAntitone(after.Relation(), before.Relation());
    }
  }

  /**
   The checks made edge by edge accept a structurally valid batch exactly when
   its final topology is acyclic; on the way they never accept a cycle.
   */
  lemma {:induction false} EdgeChecksDecideTheBatch(g: Graph, batch: seq<Mutation>)
    requires Sound(g.topology)
    ensures Fold(ApplyMutation, g, batch).Ok? <==>
            Fold(Structural, g, batch).Ok? && Digraph.Acyclic(Fold(Structural, g, batch).value.topology.Relation())
    ensures Fold(ApplyMutation, g, batch).Ok? ==> Fold(ApplyMutation, g, batch) == Fold(Structural, g, batch)
    ensures Fold(Structural, g, batch).Ok? ==> Fold(Structural, g, batch).value.topology.WellFormed()
  {
    hide Digraph.Search, Digraph.Acyclic, Digraph.IsCycle;
    if batch != [] {
      var front, m := batch[..|batch| - 1], batch[|batch| - 1];
      EdgeChecksDecideTheBatch(g, front);
      var raw := Fold(Structural, g, front);
      if raw.Ok? && Structural(raw.value, m).Ok? {
        StructuralGrows(raw.value, m);
        CyclePathIsExact(Structural(raw.value, m).value.topology);
      }
    }
  }

  /** After its mutations were accepted one by one, a batch never fails the whole-batch recheck. */
  lemma RecheckNeverFires(g: Graph, batch: seq<Mutation>)
    requires Sound(g.topology)
    requires Fold(ApplyMutation, g, batch).Ok?
    ensures Fold(ApplyMutation, g, batch).value.topology.CyclePath() == None
  {
    EdgeChecksDecideTheBatch(g, batch);
    CyclePathIsExact(Fold(ApplyMutation, g, batch).value.topology);
  }

  // ---- Reachable graphs ----

  datatype Command =
    | Batch(expected: nat, mutations: seq<Mutation>)
    | Completion(id: Id)

  /** Accepted commands take effect; rejected ones change nothing. */
  function Execute(g: Graph, c: Command): Graph {
    var r := match c
             case Batch(expected, mutations) => ApplyBatch(g, expected, mutations)
             case Completion(id) => Complete(g, id);
    if r.Ok? then r.value else g
  }

  function Run(commands: seq<Command>): Graph {
    if commands == [] then Empty
    else Execute(Run(commands[..|commands| - 1]), commands[|commands| - 1])
  }

  /** Completions are distinct tasks in an order that respects every dependency. */
  ghost predicate LinearExtension(t: Topology, log: seq<Id>) {
    && Distinct(log)
    && forall i :: 0 <= i < |log| ==> log[i] in t.tasks && t.DependenciesOf(log[i]) <= Elements(log[..i])
  }

  ghost predicate Valid(g: Graph) {
    && Sound(g.topology)
    && g.completed == Elements(g.completionLog)
    && LinearExtension(g.topology, g.completionLog)
    && g.revision <= U64_MAX
  }

  ghost predicate DependencyClosed(g: Graph) {
    forall id :: id in g.completed ==> id in g.topology.tasks && g.topology.DependenciesOf(id) <= g.completed
  }

  /** `t` extends `s` without touching the prerequisites of the `frozen` tasks. */
  ghost predicate Extends(s: Topology, t: Topology, frozen: set<Id>) {
    && (forall id :: id in s.tasks ==> id in t.tasks && t.tasks[id] == s.tasks[id])
    && (forall id :: id in s.tasks ==> s.DependenciesOf(id) <= t.DependenciesOf(id))
    && (forall id :: id in frozen ==> t.DependenciesOf(id) == s.DependenciesOf(id))
  }

  lemma {:induction false} BatchFreezesHistory(g: Graph, batch: seq<Mutation>)
    requires g.completed <= g.topology.tasks.Keys && g.topology.WellFormed()
    requires Fold(Structural, g, batch).Ok?
    ensures var c := Fold(Structural, g, batch).value;
            && c == g.(topology := c.topology)
            && c.topology.WellFormed()
            && Extends(g.topology, c.topology, g.completed)
  {
    if batch != [] {
      BatchFreezesHistory(g, batch[..|batch| - 1]);
      StructuralGrows(Fold(Structural, g, batch[..|batch| - 1]).value, batch[|batch| - 1]);
    }
  }

  lemma ApplyBatchKeepsValid(g: Graph, expected: nat, batch: seq<Mutation>)
    requires Valid(g) && ApplyBatch(g, expected, batch).Ok?
    ensures Valid(ApplyBatch(g, expected, batch).value)
    ensures var c := ApplyBatch(g, expected, batch).value;
            && c.completed == g.completed && c.completionLog == g.completionLog
            && Extends(g.topology, c.topology, g.completed)
  {
    var c := ApplyBatch(g, expected, batch).value;
    EdgeChecksDecideTheBatch(g, batch);
    BatchFreezesHistory(g, batch);
    forall i | 0 <= i < |g.completionLog|
      ensures g.completionLog[i] in c.topology.tasks
      ensures c.topology.DependenciesOf(g.completionLog[i]) <= Elements(g.completionLog[..i])
    {
      assert g.completionLog[i] in g.completed;
    }
  }

  lemma CompleteKeepsValid(g: Graph, id: Id)
    requires Valid(g) && Complete(g, id).Ok?
    ensures Valid(Complete(g, id).value)
  {
    var c := Complete(g, id).value;
    forall i | 0 <= i < |c.completionLog|
      ensures c.topology.DependenciesOf(c.completionLog[i]) <= Elements(c.completionLog[..i])
      ensures c.completionLog[i] in c.topology.tasks
    {
      if i < |g.completionLog| {
        assert c.completionLog[..i] == g.completionLog[..i];
      } else {
        assert c.completionLog[..i] == g.completionLog;
      }
    }
  }

  lemma ExecuteKeepsValid(g: Graph, c: Command)
    requires Valid(g)
    ensures Valid(Execute(g, c))
  {
    match c
    case Batch(expected, mutations) =>
      if ApplyBatch(g, expected, mutations).Ok? { ApplyBatchKeepsValid(g, expected, mutations); }
    case Completion(id) =>
      if Complete(g, id).Ok? { CompleteKeepsValid(g, id); }
  }

  lemma EmptyIsValid()
    ensures Valid(Empty)
  {
    assert Digraph.IsTopologicalOrder(Empty.topology.Relation(), []);
    Digraph.OrderedIsAcyclic(Empty.topology.Relation(), []);
  }

  lemma {:induction false} RunIsValid(commands: seq<Command>)
    ensures Valid(Run(commands))
  {
    if commands == [] {
      EmptyIsValid();
    } else {
      RunIsValid(commands[..|commands| - 1]);
      ExecuteKeepsValid(Run(commands[..|commands| - 1]), commands[|commands| - 1]);
    }
  }

  // ---- Replay ----

  function WithoutFacts(g: Graph): Graph {
    g.(completed := {}, completionLog := [])
  }

  /** A batch accepted beside completion facts is accepted without them, with the same topology. */
  lemma {:induction false} FoldIgnoresFacts(g: Graph, batch: seq<Mutation>)
    requires Fold(ApplyMutation, g, batch).Ok?
    ensures Fold(ApplyMutation, WithoutFacts(g), batch) == Ok(WithoutFacts(Fold(ApplyMutation, g, batch).value))
  {
    if batch != [] {
      FoldIgnoresFacts(g, batch[..|batch| - 1]);
    }
  }

  /** Completions replay on any topology whose order they respect. */
  lemma {:induction false} CompletionsReplay(g: Graph, log: seq<Id>)
    requires g.completed == {} && g.completionLog == []
    requires LinearExtension(g.topology, log)
    ensures Fold(Complete, g, log) == Ok(g.(completed := Elements(log), completionLog := log))
  {
    if log == [] {
      assert Elements(log) == {};
    } else {
      var front, id := log[..|log| - 1], log[|log| - 1];
      forall i | 0 <= i < |front| ensures g.topology.DependenciesOf(front[i]) <= Elements(front[..i]) {
        assert front[..i] == log[..i];
      }
      CompletionsReplay(g, front);
      ElementsNext(front, id);
      assert front + [id] == log;
      CompletionIsNext(g, front, id);
    }
  }

  /** One more completion, on a graph that has completed exactly `front`. */
  lemma CompletionIsNext(g: Graph, front: seq<Id>, id: Id)
    requires LinearExtension(g.topology, front + [id])
    ensures Complete(g.(completed := Elements(front), completionLog := front), id) ==
            Ok(g.(completed := Elements(front + [id]), completionLog := front + [id]))
  {
    var log := front + [id];
    ElementsNext(front, id);
    assert log[|front|] == id && log[..|front|] == front;
    forall k | 0 <= k < |front| ensures front[k] != id { assert log[k] != log[|front|]; }
  }

  lemma ElementsNext(front: seq<Id>, id: Id)
    ensures Elements(front + [id]) == Elements(front) + {id}
  {
  }

  lemma RecordReplays(g: Graph, expected: nat, batch: seq<Mutation>)
    requires ApplyBatch(g, expected, batch).Ok?
    ensures ReplayRecord(WithoutFacts(g), MutationRecord(g.revision, g.revision + 1, batch)) ==
            Ok(WithoutFacts(ApplyBatch(g, expected, batch).value))
  {
    hide Fold, ApplyMutation, Topology.CyclePath;
    FoldIgnoresFacts(g, batch);
  }

  lemma {:induction false} TopologyReplays(commands: seq<Command>)
    ensures ReplayFrom(Empty, Run(commands).mutationLog) == Ok(WithoutFacts(Run(commands)))
  {
    if commands != [] {
      var g, c := Run(commands[..|commands| - 1]), commands[|commands| - 1];
      TopologyReplays(commands[..|commands| - 1]);
      assert Run(commands) == Execute(g, c);
      if c.Batch? && ApplyBatch(g, c.expected, c.mutations).Ok? {
        RecordReplays(g, c.expected, c.mutations);
        FoldStep(ReplayRecord, Empty, Run(commands).mutationLog, |g.mutationLog|);
        assert Run(commands).mutationLog[..|g.mutationLog|] == g.mutationLog;
        assert Run(commands).mutationLog[..|g.mutationLog| + 1] == Run(commands).mutationLog;
      }
    }
  }

  /**
   Replaying the topology log and then the completion log rebuilds every
   reachable graph exactly, however the two kinds of command were interleaved.
   */
  lemma ReplayRoundTrip(commands: seq<Command>)
    ensures var g := Run(commands);
            ReplayWithFacts(g.mutationLog, g.completionLog) == Ok(g)
  {
    var g := Run(commands);
    TopologyReplays(commands);
    RunIsValid(commands);
    CompletionsReplay(WithoutFacts(g), g.completionLog);
  }

  // ---- Scheduling ----

  lemma CompletedIsDependencyClosed(g: Graph)
    requires Valid(g)
    ensures DependencyClosed(g)
  {
    forall id | id in g.completed
      ensures id in g.topology.tasks && g.topology.DependenciesOf(id) <= g.completed
    {
      var i :| 0 <= i < |g.completionLog| && g.completionLog[i] == id;
      assert forall d :: d in Elements(g.completionLog[..i]) ==> d in Elements(g.completionLog);
    }
  }

  /** Some task is ready whenever one is incomplete. */
  lemma SchedulerNeverStuck(g: Graph)
    requires Valid(g)
    ensures ReadyTasks(g) == [] <==> g.topology.tasks.Keys <= g.completed
  {
    hide Digraph.Search;
    Digraph.SearchIsExact(g.topology.Relation());
    RelationIsClosed(g.topology);
    var order := Digraph.Search(g.topology.Relation()).value;
    if !(g.topology.tasks.Keys <= g.completed) {
      var id :| id in g.topology.tasks.Keys && id !in g.completed;
      assert id in Elements(order);
      var i := FirstIncomplete(order, g.completed);
      forall d | d in g.topology.DependenciesOf(order[i]) ensures d in g.completed {
        assert d in Elements(order[..i]);
      }
      assert order[i] in ReadyTasks(g);
    }
  }

  lemma {:induction false} FirstIncomplete(order: seq<Id>, completed: set<Id>) returns (i: nat)
    requires !(Elements(order) <= completed)
    ensures i < |order| && order[i] !in completed && Elements(order[..i]) <= completed
  {
    assert order[..|order|] == order;
    i := 0;
    while i < |order| && order[i] in completed
      invariant i <= |order| && Elements(order[..i]) <= completed
    {
      i := i + 1;
    }
  }
}
