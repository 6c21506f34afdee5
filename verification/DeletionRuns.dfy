/** Runs of instance deletion (pkg/controller/instance/deletion.go): dependents go before
    dependencies, the finalizer goes last, and obliging rounds come to an end. */
module DeletionRuns {

  import opened Collections
  import opened Digraph
  import opened ApplySet
  import opened InstanceInventory
  import InstanceCycle
  import ApplyOrders
  import opened DeletionWaves

  /** Between reconciles members may disappear or start to terminate. */
  ghost predicate Environment(s: State, s': State) {
    s' == s.(store := s'.store) && Shrinks(s.store, s'.store) && s'.store.requests == s.store.requests
  }

  ghost predicate Step(scope: Scope, parentNs: Ns, gate: bool, s: State, s': State) {
    || Environment(s, s')
    || (s.finalizer && exists outcome :: Reconciled(scope, parentNs, gate, s, s', outcome))
  }

  ghost predicate IsRun(scope: Scope, parentNs: Ns, gate: bool, states: seq<State>) {
    && states != [] && states[0].finalizer && states[0].store.requests == [] && states[0].released == []
    && forall i :: 0 <= i < |states| - 1 ==> StepAt(scope, parentNs, gate, states, i)
  }

  ghost predicate StepAt(scope: Scope, parentNs: Ns, gate: bool, states: seq<State>, i: nat)
    requires i < |states| - 1
  {
    Step(scope, parentNs, gate, states[i], states[i + 1])
  }

  lemma ShrinksTwice(a: Store, b: Store, c: Store)
    requires Shrinks(a, b) && Shrinks(b, c)
    ensures Shrinks(a, c)
  {
  }

  lemma {:induction false} RunShrinks(scope: Scope, parentNs: Ns, gate: bool, states: seq<State>, i: nat, k: nat)
    requires IsRun(scope, parentNs, gate, states) && i <= k < |states|
    ensures Shrinks(states[i].store, states[k].store)
    ensures states[k].contributions == states[i].contributions
  {
    if i < k {
      RunShrinks(scope, parentNs, gate, states, i, k - 1);
      assert StepAt(scope, parentNs, gate, states, k - 1);
      ShrinksTwice(states[i].store, states[k - 1].store, states[k].store);
    }
  }

  /* ---------- order ---------- */

  /** Once the deletion of u was asked for, u was not to be orphaned, and no member that is to be
      deleted and has a higher order is left. */
  ghost predicate Justified(scope: Scope, parentNs: Ns, gate: bool, start: Store, now: Store, r: Request) {
    r.DeleteRequest? ==>
      && r.uid in start.members && !(gate && start.members[r.uid].policy == Orphaned)
      && forall v :: ToDelete(now, scope, parentNs, gate, v) ==> WaveOf(now.members[v]) <= WaveOf(start.members[r.uid])
  }

  lemma StillJustified(scope: Scope, parentNs: Ns, gate: bool, start: Store, before: Store, now: Store, r: Request)
    requires Shrinks(before, now) && Justified(scope, parentNs, gate, start, before, r)
    ensures Justified(scope, parentNs, gate, start, now, r)
  {
    if r.DeleteRequest? {
      forall v | ToDelete(now, scope, parentNs, gate, v) ensures WaveOf(now.members[v]) <= WaveOf(start.members[r.uid]) {
        assert v in now.members;
        assert ToDelete(before, scope, parentNs, gate, v);
      }
    }
  }

  /** In every run, whatever was deleted: at that moment and ever after, no member to delete with a
      higher order exists. */
  lemma {:induction false} HighestGoesFirst(scope: Scope, parentNs: Ns, gate: bool, states: seq<State>, k: nat, i: nat)
    requires IsRun(scope, parentNs, gate, states) && k < |states| && i < |states[k].store.requests|
    ensures Justified(scope, parentNs, gate, states[0].store, states[k].store, states[k].store.requests[i])
  {
    if k > 0 {
      var s, s' := states[k - 1], states[k];
      assert StepAt(scope, parentNs, gate, states, k - 1);
      if i < |s.store.requests| {
        HighestGoesFirst(scope, parentNs, gate, states, k - 1, i);
        assert s'.store.requests[i] == s.store.requests[i];
        StillJustified(scope, parentNs, gate, states[0].store, s.store, s'.store, s.store.requests[i]);
      } else {
        RunShrinks(scope, parentNs, gate, states, 0, k - 1);
        NewlyJustified(scope, parentNs, gate, states[0].store, s.store, s'.store, i);
      }
    }
  }

  lemma NewlyJustified(scope: Scope, parentNs: Ns, gate: bool, start: Store, s: Store, s': Store, i: nat)
    requires Shrinks(start, s) && Shrinks(s, s') && Permitted(s, s', scope, parentNs, gate)
    requires |s.requests| <= i < |s'.requests|
    ensures Justified(scope, parentNs, gate, start, s', s'.requests[i])
  {
    var r := s'.requests[i];
    if r.DeleteRequest? {
      assert MayDelete(s, scope, parentNs, gate, r.uid);
      assert r.uid in s.members;
      StillJustified(scope, parentNs, gate, start, s, s', r);
    }
  }

  /** With the apply orders of the dependency graph: once a member of a node was deleted, no member to
      delete of any node that depends on it exists. */
  lemma DependentsGoFirst(scope: Scope, parentNs: Ns, gate: bool, states: seq<State>, k: nat, i: nat,
                          g: Graph, layers: seq<seq<Id>>, orders: map<Id, int>, dependent: Id, dependency: Id, v: Uid)
    requires IsRun(scope, parentNs, gate, states) && k < |states| && i < |states[k].store.requests|
    requires WellFormed(g) && IsLayering(g, layers) && Flatten(layers) == g.deps.Keys
    requires ApplyOrders.OrdersFrom(layers, orders) && Annotated(states[0].store, orders)
    requires Edge(g.deps, dependent, dependency)
    requires var r := states[k].store.requests[i];
             r.DeleteRequest? && r.uid in states[0].store.members && ProducedBy(states[0].store.members[r.uid], dependency)
    requires v in states[0].store.members && ProducedBy(states[0].store.members[v], dependent)
    ensures !ToDelete(states[k].store, scope, parentNs, gate, v)
  {
    HighestGoesFirst(scope, parentNs, gate, states, k, i);
    RunShrinks(scope, parentNs, gate, states, 0, k);
    ApplyOrders.EdgeLowers(g, layers, orders, dependent, dependency);
    ApplyOrders.OrdersFollowEdges(g, layers, orders);
    var u := states[k].store.requests[i].uid;
    assert WaveOf(states[0].store.members[u]) == orders[dependency];
    assert WaveOf(states[0].store.members[v]) == orders[dependent];
  }

  /** And members without a positive order go after all that have one. */
  lemma UnorderedGoLast(scope: Scope, parentNs: Ns, gate: bool, states: seq<State>, k: nat, i: nat, v: Uid)
    requires IsRun(scope, parentNs, gate, states) && k < |states| && i < |states[k].store.requests|
    requires var r := states[k].store.requests[i];
             r.DeleteRequest? && r.uid in states[0].store.members
             && (states[0].store.members[r.uid].order.None? || states[0].store.members[r.uid].order.value <= 0)
    requires v in states[k].store.members && states[k].store.members[v].order.Some? && states[k].store.members[v].order.value > 0
    ensures !ToDelete(states[k].store, scope, parentNs, gate, v)
  {
    HighestGoesFirst(scope, parentNs, gate, states, k, i);
  }

  /* ---------- the finalizer ---------- */

  /** In every run, the finalizer is gone only when nothing is left in scope and every contribution of
      kro's own was released; and no other contribution is ever released. */
  lemma {:induction false} FinalizerLast(scope: Scope, parentNs: Ns, gate: bool, states: seq<State>, k: nat)
    requires IsRun(scope, parentNs, gate, states) && k < |states|
    ensures forall c :: c in states[k].released ==> c in states[0].contributions && c.kroManaged
    ensures !states[k].finalizer ==>
              NothingLeft(states[k].store, scope, parentNs)
              && forall c :: c in states[0].contributions && c.kroManaged ==> c in states[k].released
  {
    if k > 0 {
      KroManagedMembers(states[0].contributions);
      FinalizerLast(scope, parentNs, gate, states, k - 1);
      RunShrinks(scope, parentNs, gate, states, 0, k - 1);
      assert StepAt(scope, parentNs, gate, states, k - 1);
      if !states[k - 1].finalizer {
        forall u ensures !Orphan(states[k].store, scope, parentNs, {}, u) {
          assert !Orphan(states[k - 1].store, scope, parentNs, {}, u);
        }
      }
    }
  }

  /** With the coverage that the reconcile cycles maintain, no living member is orphaned by it. */
  lemma NothingAliveAtTheEnd(scope: Scope, parentNs: Ns, gate: bool, states: seq<State>, k: nat, u: Uid)
    requires IsRun(scope, parentNs, gate, states) && k < |states| && !states[k].finalizer
    requires InstanceCycle.Covers(parentNs, InstanceCycle.State(scope, states[0].store))
    ensures !InstanceCycle.Alive(states[k].store, u)
  {
    FinalizerLast(scope, parentNs, gate, states, k);
    RunShrinks(scope, parentNs, gate, states, 0, k);
    assert InstanceCycle.Alive(states[k].store, u) ==> InstanceCycle.Alive(states[0].store, u);
    assert !Orphan(states[k].store, scope, parentNs, {}, u);
  }

  /* ---------- termination ---------- */

  /** One reconcile in which nothing fails or conflicts, after which what it left terminating goes.
      Once the finalizer is gone nothing is reconciled any more. */
  ghost predicate ObligedRound(scope: Scope, parentNs: Ns, gate: bool, s: State, s': State) {
    if s.finalizer then exists mid, outcome :: Served(scope, parentNs, gate, s, mid, s', outcome)
    else Environment(s, s')
  }

  ghost predicate Served(scope: Scope, parentNs: Ns, gate: bool, s: State, mid: State, s': State, outcome: Outcome) {
    Obliged(scope, parentNs, gate, s, mid, outcome) && Environment(mid, s')
    && forall u :: u in mid.store.terminating ==> u !in s'.store.members
  }

  ghost predicate RoundAt(scope: Scope, parentNs: Ns, gate: bool, states: seq<State>, i: nat)
    requires i < |states| - 1
  {
    ObligedRound(scope, parentNs, gate, states[i], states[i + 1])
  }

  /** A round is two steps of a run, so what holds over runs holds between rounds. */
  lemma RoundIsSteps(scope: Scope, parentNs: Ns, gate: bool, s: State, s': State)
    requires ObligedRound(scope, parentNs, gate, s, s')
    ensures exists mid :: Step(scope, parentNs, gate, s, mid) && Step(scope, parentNs, gate, mid, s')
  {
    if s.finalizer {
      var mid, outcome :| Served(scope, parentNs, gate, s, mid, s', outcome);
      assert Step(scope, parentNs, gate, s, mid) && Step(scope, parentNs, gate, mid, s');
    } else {
      assert Step(scope, parentNs, gate, s, s) && Step(scope, parentNs, gate, s, s');
    }
  }

  /** A round that does not remove the finalizer removes a member. */
  lemma RoundShrinks(scope: Scope, parentNs: Ns, gate: bool, s: State, s': State)
    requires ObligedRound(scope, parentNs, gate, s, s') && s'.finalizer
    ensures s.finalizer && |s'.store.members| < |s.store.members|
  {
    var mid, outcome :| Served(scope, parentNs, gate, s, mid, s', outcome);
    var u :| Highest(s.store, scope, parentNs, gate, u);
    assert u in s.store.members.Keys && u !in s'.store.members.Keys;
    assert s'.store.members.Keys <= s.store.members.Keys - {u};
    SubsetCardinality(s'.store.members.Keys, s.store.members.Keys - {u});
  }

  /** While the finalizer is there, each round has removed a member, ... */
  lemma {:induction false} RoundsEnd(scope: Scope, parentNs: Ns, gate: bool, states: seq<State>, k: nat)
    requires k < |states|
    requires forall i :: 0 <= i < |states| - 1 ==> RoundAt(scope, parentNs, gate, states, i)
    ensures states[k].finalizer ==> k + |states[k].store.members| <= |states[0].store.members|
  {
    if k > 0 {
      RoundsEnd(scope, parentNs, gate, states, k - 1);
      assert RoundAt(scope, parentNs, gate, states, k - 1);
      if states[k].finalizer {
        RoundShrinks(scope, parentNs, gate, states[k - 1], states[k]);
      }
    }
  }

  /** ... so one round more than there were members, and the finalizer is gone. */
  lemma FinalizerGoes(scope: Scope, parentNs: Ns, gate: bool, states: seq<State>, k: nat)
    requires k < |states| && |states[0].store.members| < k
    requires forall i :: 0 <= i < |states| - 1 ==> RoundAt(scope, parentNs, gate, states, i)
    ensures !states[k].finalizer
  {
    RoundsEnd(scope, parentNs, gate, states, k);
  }
}
