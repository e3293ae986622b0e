/** The effect stack of one fiber epoch. */
module Effects {
  import opened Prelude
  import opened EffectModel

  class EffectStack {
    var effects: seq<Effect>
    var closed: bool

    constructor ()
      ensures effects == [] && !closed
    {
      effects, closed := [], false;
    }

    /** Registers an effect unless disposal has begun. */
    method Push(e: Effect) returns (ok: bool)
      modifies this
      ensures ok == !old(closed) && closed == old(closed)
      ensures effects == if ok then old(effects) + [e] else old(effects)
    {
      ok := !closed;
      if ok { effects := effects + [e]; }
    }

    /** Closes the stack and disposes what it holds; a second call finds it empty. */
    method DisposeAll() returns (done: Cleanup)
      modifies this
      ensures closed && effects == [] && done == RunEffects(old(effects))
    {
      closed := true;
      var taken := effects;
      effects := [];
      done := PopAndDispose(taken);
    }
  }

  /** Pops effects one by one; the disposer of a nested scope disposes the whole of it. */
  method PopAndDispose(all: seq<Effect>) returns (done: Cleanup)
    ensures done == RunEffects(all)
    decreases all, 0
  {
    hide RunEffects, Dispose;
    var ran: seq<Id>, errors: seq<Id> := [], [];
    var n := |all|;
    assert all[..n] == all;
    ghost var whole := RunEffects(all);
    while n > 0
      invariant 0 <= n <= |all|
      invariant whole == After(Cleanup(ran, errors), RunEffects(all[..n]))
    {
      PopStep(all, n);
      var top := DisposeOne(all, n - 1);
      AfterAssociates(Cleanup(ran, errors), top, RunEffects(all[..n - 1]));
      ran, errors := ran + top.ran, errors + top.errors;
      n := n - 1;
    }
    assert all[..0] == [];
    PopNothing();
    done := Cleanup(ran, errors);
  }

  function After(first: Cleanup, second: Cleanup): Cleanup {
    Cleanup(first.ran + second.ran, first.errors + second.errors)
  }

  lemma AfterAssociates(a: Cleanup, b: Cleanup, c: Cleanup)
    ensures After(a, After(b, c)) == After(After(a, b), c)
  {
  }

  lemma PopStep(all: seq<Effect>, n: nat)
    requires 0 < n <= |all|
    ensures RunEffects(all[..n]) == After(Dispose(all[n - 1]), RunEffects(all[..n - 1]))
  {
    assert all[..n][..n - 1] == all[..n - 1];
  }

  lemma PopNothing()
    ensures RunEffects([]) == Cleanup([], [])
  {
  }

  method DisposeOne(all: seq<Effect>, k: nat) returns (done: Cleanup)
    requires k < |all|
    ensures done == Dispose(all[k])
    decreases all[k], 1
  {
    match all[k]
    case Disposer(name, fails) => done := Cleanup([name], if fails then [name] else []);
    case Nested(name, effects) =>
      var inner := PopAndDispose(effects);
      done := Cleanup(inner.ran, if inner.errors == [] then [] else [name]);
  }
}
