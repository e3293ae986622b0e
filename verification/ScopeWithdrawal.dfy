/** Exactly when a withdrawal leaves every visible graph resolvable. */
module ScopeWithdrawal {
  import opened Prelude
  import opened ResolverModel
  import opened ScopeModel
  import opened ScopeInvariants
  import Digraph

  lemma RemoveLayered<V>(lower: map<Id, V>, upper: map<Id, V>, id: Id)
    ensures id !in lower ==> lower + (upper - {id}) == (lower + upper) - {id}
    ensures id in lower ==> lower + (upper - {id}) == (lower + upper)[id := lower[id]]
    ensures id !in upper ==> (lower - {id}) + upper == (lower + upper) - {id}
    ensures id in upper ==> (lower - {id}) + upper == lower + upper
  {
  }

  /** The tree a withdrawal leaves. */
  function Without(t: Tree, s: nat, id: Id): Tree
    requires s < |t.scopes|
  {
    t.(scopes := t.scopes[s := t.scopes[s].(entries := t.scopes[s].entries - {id})])
  }

  lemma WithoutFrame(t: Tree, s: nat, id: Id, x: nat)
    requires Tidy(t) && s < |t.scopes| && x < |t.scopes|
    ensures var u := Without(t, s, id);
            && |u.scopes| == |t.scopes| && u.scopes[x].open == t.scopes[x].open
            && u.scopes[x].parent == t.scopes[x].parent
            && LocalDefinitions(u, u.scopes[x].entries) ==
                 if x == s then LocalDefinitions(t, t.scopes[x].entries) - {id}
                 else LocalDefinitions(t, t.scopes[x].entries)
  {
  }

  lemma WithoutLayer(t: Tree, s: nat, id: Id, x: nat)
    requires Tidy(t) && s < |t.scopes| && x < |t.scopes| && t.scopes[x].open
    ensures var u := Without(t, s, id);
            && VisibleDefinitions(u, x) == Inherited(u, x) + LocalDefinitions(u, u.scopes[x].entries)
            && (t.scopes[x].parent.Some? ==> Inherited(u, x) == VisibleDefinitions(u, t.scopes[x].parent.value))
            && (t.scopes[x].parent.None? ==> Inherited(u, x) == map[])
  {
    hide LocalDefinitions, Upward, Housed, Pinned;
    WithoutFrame(t, s, id, x);
  }

  /** A withdrawal that exposes no outer definition removes the identifier wherever it was seen. */
  lemma {:induction false} VisibleAfterWithdrawal(t: Tree, s: nat, id: Id, x: nat)
    requires Tidy(t) && s < |t.scopes| && t.scopes[s].open && x < |t.scopes|
    requires id in t.scopes[s].entries && id !in Inherited(t, s)
    ensures VisibleDefinitions(Without(t, s, id), x) ==
              if Affects(t, s, x, id) then VisibleDefinitions(t, x) - {id} else VisibleDefinitions(t, x)
    decreases x
  {
    hide Without, LocalDefinitions, Inherited, Shaped;
    var u := Without(t, s, id);
    WithoutFrame(t, s, id, x);
    if t.scopes[x].open {
      VisibleLayer(t, x);
      WithoutLayer(t, s, id, x);
      var local := LocalDefinitions(t, t.scopes[x].entries);
      if t.scopes[x].parent.Some? {
        var p := t.scopes[x].parent.value;
        VisibleAfterWithdrawal(t, s, id, p);
        RemoveLayered(VisibleDefinitions(t, p), local, id);
        if x == s && Affects(t, s, p, id) { AffectedIsBelow(t, s, p, id); }
      } else {
        RemoveLayered(map[], local, id);
      }
    }
  }

  /** Some scope that sees the entry also sees a definition that needs it. */
  ghost predicate Strands(t: Tree, s: nat, id: Id) {
    exists x :: SeesDependent(t, s, id, x)
  }

  ghost predicate SeesDependent(t: Tree, s: nat, id: Id, x: nat) {
    && x < |t.scopes| && t.scopes[x].open && Affects(t, s, x, id)
    && exists y :: y in VisibleDefinitions(t, x) && y != id && id in VisibleDefinitions(t, x)[y].dependencies
  }

  lemma RemovalResolves(definitions: Definitions, id: Id)
    requires Resolves(definitions) && id in definitions
    ensures Resolves(definitions - {id}) <==>
      !(exists y :: y in definitions && y != id && id in definitions[y].dependencies)
  {
    hide Resolve, Digraph.Acyclic;
    ResolveIsExact(definitions);
    ResolveIsExact(definitions - {id});
    Digraph.AcyclicIsAntitone(RelationOf(definitions - {id}), RelationOf(definitions));
    var rest := definitions - {id};
    if y :| y in definitions && y != id && id in definitions[y].dependencies {
      assert y in rest && id in rest[y].dependencies && id !in rest;
    }
  }

  lemma SeenWhereAffected(t: Tree, s: nat, id: Id, x: nat)
    requires Tidy(t) && s < |t.scopes| && id in t.scopes[s].entries && x < |t.scopes| && t.scopes[x].open
    requires Affects(t, s, x, id)
    ensures id in VisibleDefinitions(t, x)
    decreases x
  {
    hide LocalDefinitions, Shaped, Inherited;
    VisibleLayer(t, x);
    if x != s {
      OpenAbove(t, t.scopes[x].parent.value, x) by {
        assert Below(t, t.scopes[x].parent.value, t.scopes[x].parent.value);
      }
      SeenWhereAffected(t, s, id, t.scopes[x].parent.value);
    }
  }

  /**
   A withdrawal that exposes no outer definition leaves every visible graph
   resolvable exactly when no scope that sees the entry sees a dependent of it.
   */
  lemma WithdrawalIsExact(t: Tree, s: nat, id: Id, generation: nat)
    requires Tidy(t) && AllResolve(t) && s < |t.scopes|
    requires Withdraw(t, s, id, generation).Ok? && id !in Inherited(t, s)
    ensures AllResolve(Withdraw(t, s, id, generation).value) <==> !Strands(t, s, id)
  {
    var u := Without(t, s, id);
    assert u == Withdraw(t, s, id, generation).value && t.scopes[s].open && id in t.scopes[s].entries;
    hide Resolves, Shaped, Upward, Affects, VisibleDefinitions, Inherited, Withdraw;
    forall x | 0 <= x < |t.scopes| && t.scopes[x].open
      ensures u.scopes[x].open
      ensures Resolves(VisibleDefinitions(u, x)) <==> !SeesDependent(t, s, id, x)
    {
      VisibleAfterWithdrawal(t, s, id, x);
      if Affects(t, s, x, id) {
        SeenWhereAffected(t, s, id, x);
        RemovalResolves(VisibleDefinitions(t, x), id);
      }
    }
    if Strands(t, s, id) {
      var x :| SeesDependent(t, s, id, x);
      assert !Resolves(VisibleDefinitions(u, x));
    } else {
      forall x | 0 <= x < |u.scopes| && u.scopes[x].open ensures Resolves(VisibleDefinitions(u, x)) {
        WithoutFrame(t, s, id, x);
      }
    }
  }

  // ---- Withdrawals that expose an outer definition ----

  /** Wherever the withdrawn entry was seen, the outer definition takes its place. */
  lemma {:induction false} VisibleAfterExposure(t: Tree, s: nat, id: Id, x: nat)
    requires Tidy(t) && s < |t.scopes| && t.scopes[s].open && x < |t.scopes|
    requires id in t.scopes[s].entries && id in Inherited(t, s)
    ensures VisibleDefinitions(Without(t, s, id), x) ==
              if Affects(t, s, x, id) && t.scopes[x].open then VisibleDefinitions(t, x)[id := Inherited(t, s)[id]]
              else VisibleDefinitions(t, x)
    decreases x
  {
    hide Without, LocalDefinitions, Inherited, Shaped;
    var u := Without(t, s, id);
    WithoutFrame(t, s, id, x);
    if t.scopes[x].open {
      VisibleLayer(t, x);
      WithoutLayer(t, s, id, x);
      var local := LocalDefinitions(t, t.scopes[x].entries);
      if t.scopes[x].parent.Some? {
        var p := t.scopes[x].parent.value;
        assert t.scopes[p].open;
        VisibleAfterExposure(t, s, id, p);
        UpdateLayered(VisibleDefinitions(t, p), local, id, Inherited(t, s)[id]);
        RemoveLayered(VisibleDefinitions(t, p), local, id);
        if x == s && Affects(t, s, p, id) { AffectedIsBelow(t, s, p, id); }
      } else if x == s {
        RemoveLayered(map[], local, id);
      }
    }
  }

  lemma {:induction false} AdmitsAll(t: Tree, s: nat, d: Definition, list: seq<nat>)
    requires forall x :: x in list && x < |t.scopes| && t.scopes[x].open && Affects(t, s, x, d.id) ==>
      Resolves(VisibleDefinitions(t, x)[d.id := d])
    ensures AdmitDescendants(t, s, d, list) == Done
  {
    hide Affects, VisibleDefinitions, Resolve;
    if list != [] {
      assert forall x :: x in list[1..] ==> x in list;
      assert list[0] in list;
      AdmitsAll(t, s, d, list[1..]);
    }
  }

  /** Everything a publication of the outer definition would check before it is exposed. */
  predicate Admissible(t: Tree, s: nat, d: Definition)
    requires s < |t.scopes|
  {
    ValidateCandidate(VisibleDefinitions(t, s), d).Ok? && AdmitDescendants(t, s, d, Descendants(t, s)) == Done
  }

  /** Every open scope that sees the entry would still resolve with `d` in its place. */
  ghost predicate Exposable(t: Tree, s: nat, d: Definition) {
    forall x :: 0 <= x < |t.scopes| && t.scopes[x].open && Affects(t, s, x, d.id) ==>
      Resolves(VisibleDefinitions(t, x)[d.id := d])
  }

  lemma ExposureAt(t: Tree, s: nat, id: Id, x: nat)
    requires Tidy(t) && s < |t.scopes| && t.scopes[s].open && x < |t.scopes|
    requires id in t.scopes[s].entries && id in Inherited(t, s)
    requires t.scopes[x].open ==> Resolves(VisibleDefinitions(t, x))
    ensures |Without(t, s, id).scopes| == |t.scopes| && Without(t, s, id).scopes[x].open == t.scopes[x].open
    ensures t.scopes[x].open ==>
              (Resolves(VisibleDefinitions(Without(t, s, id), x)) <==>
               (Affects(t, s, x, id) ==> Resolves(VisibleDefinitions(t, x)[id := Inherited(t, s)[id]])))
  {
    hide *;
    WithoutFrame(t, s, id, x);
    VisibleAfterExposure(t, s, id, x);
  }

  lemma ExposedResolves(t: Tree, s: nat, id: Id)
    requires Tidy(t) && AllResolve(t) && s < |t.scopes| && t.scopes[s].open
    requires id in t.scopes[s].entries && id in Inherited(t, s) && Inherited(t, s)[id].id == id
    ensures AllResolve(Without(t, s, id)) <==> Exposable(t, s, Inherited(t, s)[id])
  {
    hide Tidy, Affects, VisibleDefinitions, Inherited, Resolve, Without;
    ExposureAt(t, s, id, s);
    forall x | 0 <= x < |t.scopes|
      ensures Without(t, s, id).scopes[x].open == t.scopes[x].open
      ensures t.scopes[x].open ==>
                (Resolves(VisibleDefinitions(Without(t, s, id), x)) <==>
                 (Affects(t, s, x, id) ==> Resolves(VisibleDefinitions(t, x)[id := Inherited(t, s)[id]])))
    {
      ExposureAt(t, s, id, x);
    }
  }

  lemma AdmissibleIsExposable(t: Tree, s: nat, d: Definition)
    requires Tidy(t) && s < |t.scopes| && t.scopes[s].open
    ensures Admissible(t, s, d) <==> Exposable(t, s, d)
  {
    hide Tidy, Affects, VisibleDefinitions, AdmitDescendants, Descendants, Resolve;
    AffectsItself(t, s, d.id);
    if Exposable(t, s, d) { AdmitsAll(t, s, d, Descendants(t, s)); }
    if Admissible(t, s, d) {
      forall x | 0 <= x < |t.scopes| && t.scopes[x].open && Affects(t, s, x, d.id)
        ensures Resolves(VisibleDefinitions(t, x)[d.id := d])
      {
        if x != s {
          AffectedIsBelow(t, s, x, d.id);
          OpenIsLive(t, x);
          DescendantListed(t, s, x);
          AdmittedDescendant(t, s, d, Descendants(t, s), x);
        }
      }
    }
  }

  /**
   A withdrawal that exposes an outer definition leaves every visible graph
   resolvable exactly when that definition would be admitted here as a candidate.
   */
  lemma ExposureIsExact(t: Tree, s: nat, id: Id, generation: nat)
    requires Tidy(t) && AllResolve(t) && s < |t.scopes|
    requires Withdraw(t, s, id, generation).Ok? && id in Inherited(t, s)
    ensures AllResolve(Withdraw(t, s, id, generation).value) <==> Admissible(t, s, Inherited(t, s)[id])
  {
    hide Tidy, AllResolve, Admissible, Inherited, Exposable;
    assert Withdraw(t, s, id, generation).value == Without(t, s, id);
    InheritedIsNamed(t, s, id);
    ExposedResolves(t, s, id);
    AdmissibleIsExposable(t, s, Inherited(t, s)[id]);
  }

  lemma AffectsItself(t: Tree, s: nat, id: Id)
    ensures Affects(t, s, s, id)
  {
  }

  lemma OpenIsLive(t: Tree, x: nat)
    requires Tidy(t) && x < |t.scopes| && t.scopes[x].open
    ensures t.scopes[x].live
  {
  }

  lemma InheritedIsNamed(t: Tree, s: nat, id: Id)
    requires Tidy(t) && s < |t.scopes| && t.scopes[s].open && id in Inherited(t, s)
    ensures Inherited(t, s)[id].id == id
  {
    hide Upward, VisibleDefinitions;
    VisibleLayer(t, s);
    VisibleIsNamed(t, t.scopes[s].parent.value, id);
  }

  /** An inherited definition is named by the identifier it is found under. */
  lemma {:induction false} VisibleIsNamed(t: Tree, x: nat, id: Id)
    requires Tidy(t) && x < |t.scopes| && id in VisibleDefinitions(t, x)
    ensures VisibleDefinitions(t, x)[id].id == id
    decreases x
  {
    hide Upward, Pinned;
    VisibleLayer(t, x);
    if id !in t.scopes[x].entries { VisibleIsNamed(t, t.scopes[x].parent.value, id); }
  }
}
