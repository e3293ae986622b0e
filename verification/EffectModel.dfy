/** Owned effects of a fiber: disposal in reverse registration order, through nested scopes and past failures. */
module EffectModel {
  import opened Prelude

  /** A disposer, or a child scope registered as an effect of its parent. */
  datatype Effect =
    | Disposer(name: Id, fails: bool)
    | Nested(name: Id, effects: seq<Effect>)

  /** What a disposal did: the disposers run, in order, and the names of the effects that failed. */
  datatype Cleanup = Cleanup(ran: seq<Id>, errors: seq<Id>)

  /** Pops and disposes the effects from the last to the first; a failure is recorded and the rest still run. */
  function RunEffects(effects: seq<Effect>): Cleanup {
    if effects == [] then Cleanup([], [])
    else
      var top := Dispose(effects[|effects| - 1]);
      var rest := RunEffects(effects[..|effects| - 1]);
      Cleanup(top.ran + rest.ran, top.errors + rest.errors)
  }

  /** A nested scope disposes its own effects and fails once if any of them failed. */
  function Dispose(e: Effect): Cleanup {
    match e
    case Disposer(name, fails) => Cleanup([name], if fails then [name] else [])
    case Nested(name, effects) =>
      var inner := RunEffects(effects);
      Cleanup(inner.ran, if inner.errors == [] then [] else [name])
  }

  /** The disposers below a list of effects, in registration order. */
  function Disposers(effects: seq<Effect>): seq<Effect> {
    if effects == [] then [] else DisposersOf(effects[0]) + Disposers(effects[1..])
  }

  function DisposersOf(e: Effect): seq<Effect> {
    if e.Disposer? then [e] else Disposers(e.effects)
  }

  function Names(disposers: seq<Effect>): (r: seq<Id>)
    ensures |r| == |disposers| && forall i :: 0 <= i < |r| ==> r[i] == disposers[i].name
  {
    seq(|disposers|, i requires 0 <= i < |disposers| => disposers[i].name)
  }

  function Reversed<T>(s: seq<T>): (r: seq<T>)
    ensures |r| == |s| && forall i :: 0 <= i < |s| ==> r[i] == s[|s| - 1 - i]
  {
    seq(|s|, i requires 0 <= i < |s| => s[|s| - 1 - i])
  }

  lemma ReversedConcat<T>(a: seq<T>, b: seq<T>)
    ensures Reversed(a + b) == Reversed(b) + Reversed(a)
  {
  }

  lemma NamesConcat(a: seq<Effect>, b: seq<Effect>)
    ensures Names(a + b) == Names(a) + Names(b)
  {
  }

  lemma {:induction false} DisposersLast(front: seq<Effect>, last: Effect)
    ensures Disposers(front + [last]) == Disposers(front) + DisposersOf(last)
    decreases |front|
  {
    if front == [] {
      assert [last][1..] == [];
      assert Disposers([last]) == DisposersOf(last) + Disposers([]);
    } else {
      assert (front + [last])[1..] == front[1..] + [last];
      DisposersLast(front[1..], last);
    }
  }

  /** Every disposer runs exactly once, in reverse registration order across all nesting, whatever fails. */
  lemma {:induction false} DisposalReversesRegistration(effects: seq<Effect>)
    ensures RunEffects(effects).ran == Reversed(Names(Disposers(effects)))
    ensures RunEffects(effects).errors == [] <==> forall d :: d in Disposers(effects) ==> d.Disposer? && !d.fails
    decreases effects, 0
  {
    if effects != [] {
      var front, last := effects[..|effects| - 1], effects[|effects| - 1];
      assert effects == front + [last];
      DisposersLast(front, last);
      DisposalReversesRegistration(front);
      OneDisposal(last);
      NamesConcat(Disposers(front), DisposersOf(last));
      ReversedConcat(Names(Disposers(front)), Names(DisposersOf(last)));
    }
  }

  lemma {:induction false} OneDisposal(e: Effect)
    ensures Dispose(e).ran == Reversed(Names(DisposersOf(e)))
    ensures Dispose(e).errors == [] <==> forall d :: d in DisposersOf(e) ==> d.Disposer? && !d.fails
    decreases e, 1
  {
    if e.Nested? { DisposalReversesRegistration(e.effects); } else { assert Reversed(Names([e])) == [e.name]; }
  }

  /** Some disposer below the effect fails. */
  predicate HasFailing(e: Effect) {
    exists d :: d in DisposersOf(e) && d.Disposer? && d.fails
  }

  /** The labels of the effects that fail, last registered first. */
  function FailedLabels(effects: seq<Effect>): seq<Id> {
    if effects == [] then []
    else FailedLabels(effects[1..]) + if HasFailing(effects[0]) then [effects[0].name] else []
  }

  lemma {:induction false} FailedLast(front: seq<Effect>, last: Effect)
    ensures FailedLabels(front + [last]) == (if HasFailing(last) then [last.name] else []) + FailedLabels(front)
    decreases |front|
  {
    hide HasFailing;
    if front == [] {
      assert front + [last] == [last] && [last][1..] == [];
      assert FailedLabels([]) == [];
    } else {
      assert (front + [last])[1..] == front[1..] + [last];
      FailedLast(front[1..], last);
    }
  }

  lemma {:induction false} DisposersOnly(effects: seq<Effect>)
    ensures forall d :: d in Disposers(effects) ==> d.Disposer?
    decreases effects
  {
    if effects != [] {
      if effects[0].Nested? { DisposersOnly(effects[0].effects); }
      DisposersOnly(effects[1..]);
    }
  }

  /** Each effect is reported once, exactly when a disposer below it failed, the last registered first. */
  lemma {:induction false} FailuresAreReported(effects: seq<Effect>)
    ensures RunEffects(effects).errors == FailedLabels(effects)
    decreases |effects|
  {
    hide Disposers;
    if effects != [] {
      var front, last := effects[..|effects| - 1], effects[|effects| - 1];
      assert effects == front + [last];
      FailuresAreReported(front);
      FailedLast(front, last);
      OneDisposal(last);
      if last.Nested? { DisposersOnly(last.effects); }
    }
  }
}
