/** The in-memory durable store: runs are replaced whole when a commit is accepted. */
module DurableStores {
  import opened Prelude
  import Model = DurableModel

  class InMemoryDurableStore {
    var runs: Model.Runs

    constructor ()
      ensures runs == map[]
    {
      runs := map[];
    }

    /** A detached copy, as a restarted process receives it. */
    constructor From(contents: Model.Runs)
      ensures runs == contents
    {
      runs := contents;
    }

    method CreateRun(run: Id) returns (r: Result<nat, Model.StoreError>)
      modifies this
      ensures runs == Model.Execute(old(runs), Model.CreateRun(run))
      ensures r == if run in old(runs) then Err(Model.RunAlreadyExists(run)) else Ok(0)
    {
      if run in runs {
        return Err(Model.RunAlreadyExists(run));
      }
      runs := runs[run := Model.NewRun(run)];
      r := Ok(0);
    }

    method LoadRun(run: Id) returns (r: Result<Model.RunState, Model.StoreError>)
      ensures r == if run in runs then Ok(runs[run]) else Err(Model.RunNotFound(run))
    {
      r := if run in runs then Ok(runs[run]) else Err(Model.RunNotFound(run));
    }

    method Commit(request: Model.CommitRequest) returns (r: Result<Model.CommitResult, Model.StoreError>)
      modifies this
      ensures match Model.Commit(old(runs), request) {
                case Ok(done) => runs == done.0 && r == Ok(done.1)
                case Err(e) => runs == old(runs) && r == Err(e)
              }
    {
      hide Model.ApplyMutation;
      if request.mutations == [] {
        return Err(Model.EmptyCommit);
      }
      if request.run !in runs {
        return Err(Model.RunNotFound(request.run));
      }
      var state := runs[request.run];
      if request.key in state.idempotency {
        if state.idempotency[request.key].mutations == request.mutations {
          assert runs[request.run := state] == runs;
          return Ok(Model.CommitResult(state.revision, true));
        }
        return Err(Model.IdempotencyConflict(request.key));
      }
      if request.expected != state.revision {
        return Err(Model.RevisionConflict(request.expected, state.revision));
      }
      if state.revision >= U64_MAX {
        return Err(Model.RevisionExhausted(state.revision));
      }
      var revision := state.revision + 1;
      var candidate := state;
      for k := 0 to |request.mutations|
        invariant runs == old(runs)
        invariant Fold(Model.ApplyMutation, state, request.mutations[..k]) == Ok(candidate)
      {
        FoldStep(Model.ApplyMutation, state, request.mutations, k);
        var step := Model.ApplyMutation(candidate, request.mutations[k]);
        if step.Err? {
          return Err(Model.InvariantViolation(step.error));
        }
        candidate := step.value;
      }
      assert request.mutations[..|request.mutations|] == request.mutations;
      candidate := candidate.(revision := revision);
      candidate :=
        candidate.(idempotency := candidate.idempotency[request.key := Model.Committed(request.mutations, revision)]);
      runs := runs[request.run := candidate];
      r := Ok(Model.CommitResult(revision, false));
    }
  }
}
