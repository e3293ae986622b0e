/** Exactly when a process starts or restarts, and what of the crashed one it has again. */
module Restarts {
  import opened Prelude
  import opened DurableModel
  import opened JournalModel
  import opened StoreProtocol
  import opened RuntimeModel
  import opened RuntimeSafety
  import opened RuntimeCalls
  import Workflow = WorkflowModel

  ghost predicate AllKnown(g: Workflow.Graph, configs: seq<(Id, TaskConfig)>) {
    forall i :: 0 <= i < |configs| ==> configs[i].0 in g.topology.tasks
  }

  /** The last configuration given for a task counts. */
  ghost predicate LastWins(configs: seq<(Id, TaskConfig)>, m: map<Id, TaskConfig>) {
    && (forall t :: t in m ==> exists i :: LastAt(configs, t, m[t], i))
    && (forall i :: 0 <= i < |configs| ==> configs[i].0 in m)
  }

  ghost predicate LastAt(configs: seq<(Id, TaskConfig)>, t: Id, config: TaskConfig, i: int) {
    0 <= i < |configs| && configs[i] == (t, config) && forall j :: i < j < |configs| ==> configs[j].0 != t
  }

  lemma {:induction false} ConfigureIsExact(g: Workflow.Graph, configs: seq<(Id, TaskConfig)>)
    ensures Configure(g, configs).Ok? <==> AllKnown(g, configs)
    ensures Configure(g, configs).Ok? ==> LastWins(configs, Configure(g, configs).value)
    ensures Configure(g, configs).Err? ==>
              Configure(g, configs).error.UnknownTask? && Configure(g, configs).error.task !in g.topology.tasks
  {
    if configs != [] {
      var front, last := configs[..|configs| - 1], configs[|configs| - 1];
      ConfigureIsExact(g, front);
      if Configure(g, configs).Ok? {
        var before, m := Configure(g, front).value, Configure(g, configs).value;
        assert LastAt(configs, last.0, last.1, |front|);
        forall t | t in m ensures exists i :: LastAt(configs, t, m[t], i) {
          if t != last.0 {
            var i :| LastAt(front, t, before[t], i);
            assert LastAt(configs, t, m[t], i);
          }
        }
      }
    }
  }

  lemma {:induction false} RestoringIsExact(admissions: seq<Admission>, reproduces: Reproduction)
    ensures RestoreAttempts(admissions, reproduces).Ok? <==>
              forall i :: 0 <= i < |admissions| ==> reproduces(admissions[i])
  {
    if admissions != [] { RestoringIsExact(admissions[..|admissions| - 1], reproduces); }
  }

  /** The process begins with no events and no held attempt, and numbers events from the first. */
  ghost predicate Begins(n: Runtime) {
    n.pending == None && n.events == [] && n.sequencer == Sequencer(1, false)
  }

  /** A run starts exactly when every configured task is known, over an empty record. */
  lemma StartIsExact(run: Id, workflow: Workflow.Graph, configs: seq<(Id, TaskConfig)>)
    ensures StartRun(run, workflow, configs).Ok? <==> AllKnown(workflow, configs)
    ensures StartRun(run, workflow, configs).Ok? ==>
              var n := StartRun(run, workflow, configs).value;
              && Begins(n) && n.run == run && n.workflow == workflow && LastWins(configs, n.configs)
              && n.runs == map[run := NewRun(run)] && n.journal == View(NewRun(run)) && n.revision == 0
              && n.attempts == [] && n.cancelled == {} && n.nextAttempt == 1
  {
    hide Configure, LastWins;
    ConfigureIsExact(workflow, configs);
  }

  /**
   A run is restored exactly when it is stored, every configured task is known, what
   every admission recorded can be reproduced, and a number is left. Everything the
   new process knows of the run is read from the store, in admission order.
   */
  lemma RestoreIsExact(run: Id, workflow: Workflow.Graph, configs: seq<(Id, TaskConfig)>, runs: Runs,
                       reproduces: Reproduction)
    requires run in runs ==> Lineage(runs[run])
    ensures RestoreRun(run, workflow, configs, runs, reproduces).Ok? <==>
              && run in runs && AllKnown(workflow, configs) && |runs[run].admissionHistory| < U64_MAX
              && forall i :: 0 <= i < |runs[run].admissionHistory| ==> reproduces(runs[run].admissionHistory[i])
    ensures RestoreRun(run, workflow, configs, runs, reproduces).Ok? ==>
              var n, s := RestoreRun(run, workflow, configs, runs, reproduces).value, runs[run];
              && Begins(n) && n.run == run && n.workflow == workflow && LastWins(configs, n.configs)
              && n.runs == runs && n.journal == View(s) && n.revision == s.revision
              && n.cancelled == s.cancellations.Keys && n.nextAttempt == |s.admissionHistory| + 1
              && |n.attempts| == |s.admissionHistory|
              && forall i :: 0 <= i < |n.attempts| ==> AdmissionOf(n.attempts[i]) == s.admissionHistory[i]
  {
    hide Configure, LastWins, FromDurableState, Lineage, RestoreAttempts;
    ConfigureIsExact(workflow, configs);
    if run in runs {
      var s := runs[run];
      RebuildIsView(s);
      RestoringIsExact(s.admissionHistory, reproduces);
      if RestoreAttempts(s.admissionHistory, reproduces).Ok? { RestoredAttempts(s.admissionHistory, reproduces); }
    }
  }

  /**
   A crash loses nothing but lifecycle events: restarted over the store of a process,
   with its workflow, the new process has the same journal, cancellations and next
   number, and every attempt of the old one, a held one included.
   */
  lemma RestartForgetsOnlyEvents(r: Runtime, configs: seq<(Id, TaskConfig)>, reproduces: Reproduction)
    requires Safe(r) && RestoreRun(r.run, r.workflow, configs, r.runs, reproduces).Ok?
    ensures var n := RestoreRun(r.run, r.workflow, configs, r.runs, reproduces).value;
            && Begins(n) && Safe(n) && n.run == r.run && n.workflow == r.workflow && n.runs == r.runs
            && n.journal == r.journal && n.cancelled == r.cancelled && n.nextAttempt == r.nextAttempt
            && (forall a :: a in r.attempts ==> a in n.attempts)
            && (r.pending.Some? ==> r.pending.value.attempt in n.attempts)
  {
    hide RestoreRun, Keyed, AtMostOnce, Owned, Linked, View, Agrees, Workflow.Valid;
    RestoreIsExact(r.run, r.workflow, configs, r.runs, reproduces);
    RestoreRunSafe(r.run, r.workflow, configs, r.runs, reproduces);
    var n := RestoreRun(r.run, r.workflow, configs, r.runs, reproduces).value;
    forall a | Admitted(Head(r), a) ensures a in n.attempts {
      assert AdmissionOf(a) in Head(r).admissionHistory;
      var i :| 0 <= i < |n.attempts| && Head(r).admissionHistory[i] == AdmissionOf(a);
      assert n.attempts[i] == a;
    }
    forall a | a in r.attempts ensures Admitted(Head(r), a) {
      var i :| 0 <= i < |r.attempts| && r.attempts[i] == a;
    }
  }
}
