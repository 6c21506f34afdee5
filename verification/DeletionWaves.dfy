/** Deleting an instance's members wave by wave (pkg/controller/instance/deletion.go): the highest
    apply order goes first, and the finalizer only when nothing is left to delete. */
module DeletionWaves {

  import opened Collections
  import opened Digraph
  import opened ApplySet
  import opened InstanceInventory

  const FALLBACK_ORDER := 0

  /** Members without a valid positive order share wave 0. */
  function WaveOf(m: Member): int {
    if m.order.Some? && m.order.value > 0 then m.order.value else FALLBACK_ORDER
  }

  ghost predicate Known(members: map<Uid, Member>, candidates: seq<Uid>) {
    forall u :: u in candidates ==> u in members
  }

  /** wave holds exactly the candidates of the highest wave. */
  ghost predicate IsHighestWave(members: map<Uid, Member>, candidates: seq<Uid>, wave: seq<Uid>, highest: int)
    requires Known(members, candidates)
  {
    && (forall u :: u in wave <==> u in candidates && WaveOf(members[u]) == highest)
    && (forall u :: u in candidates ==> WaveOf(members[u]) <= highest)
    && (candidates != [] ==> wave != [])
  }

  method HighestDeletionWave(members: map<Uid, Member>, candidates: seq<Uid>) returns (wave: seq<Uid>, highest: int)
    requires Known(members, candidates)
    ensures IsHighestWave(members, candidates, wave, highest)
  {
    highest := FALLBACK_ORDER;
    wave := [];
    for i := 0 to |candidates|
      invariant highest >= FALLBACK_ORDER
      invariant forall u :: u in wave <==> u in candidates[..i] && WaveOf(members[u]) == highest
      invariant forall u :: u in candidates[..i] ==> WaveOf(members[u]) <= highest
      invariant if i == 0 then highest == FALLBACK_ORDER else wave != []
    {
      var c := candidates[i];
      assert candidates[..i + 1] == candidates[..i] + [c] && c in candidates;
      var order := WaveOf(members[c]);
      if order > highest {
        highest := order;
        wave := [];
      }
      if order == highest {
        wave := wave + [c];
      }
    }
    assert candidates[..|candidates|] == candidates;
    assert candidates != [] ==> candidates[0] in candidates;
  }

  datatype Contribution = Contribution(target: Id, kroManaged: bool)

  datatype Outcome = Blocked | Requeued | FinalizerRemoved

  /** release is None, or the number of contributions released when it fails. */
  datatype Faults = Faults(discover: bool, readContributions: bool, release: Option<nat>, patch: Write)

  const NO_FAULTS := Faults(false, false, None, Done)

  /** What reconcileDeletion changes. */
  datatype State = State(store: Store, finalizer: bool, contributions: seq<Contribution>, released: seq<Contribution>)

  /** The candidates that must be deleted: in scope, and not to be orphaned. */
  ghost predicate ToDelete(store: Store, scope: Scope, parentNs: Ns, gate: bool, u: Uid) {
    Orphan(store, scope, parentNs, {}, u) && !(gate && store.members[u].policy == Orphaned)
  }

  ghost predicate ToRelease(store: Store, scope: Scope, parentNs: Ns, gate: bool, u: Uid) {
    Orphan(store, scope, parentNs, {}, u) && gate && store.members[u].policy == Orphaned
  }

  /** A delete may be sent for u: it is not being deleted already, and no member to delete has a
      higher order. */
  ghost predicate MayDelete(store: Store, scope: Scope, parentNs: Ns, gate: bool, u: Uid) {
    && ToDelete(store, scope, parentNs, gate, u) && u !in store.terminating
    && forall v :: ToDelete(store, scope, parentNs, gate, v) ==> WaveOf(store.members[v]) <= WaveOf(store.members[u])
  }

  /** The members only shrink, unchanged, and no deletion is forgotten. */
  ghost predicate Shrinks(before: Store, after: Store) {
    && (forall u {:trigger u in after.members} :: u in after.members ==> u in before.members && after.members[u] == before.members[u])
    && (forall u {:trigger u in after.terminating} :: u in before.terminating ==> u in after.terminating)
  }

  /** Every request sent is a release of a member to release or a permitted delete. */
  ghost predicate Permitted(before: Store, after: Store, scope: Scope, parentNs: Ns, gate: bool) {
    && before.requests <= after.requests
    && forall i {:trigger after.requests[i]} :: |before.requests| <= i < |after.requests| ==>
         match after.requests[i]
         case ReleaseRequest(u) => ToRelease(before, scope, parentNs, gate, u)
         case DeleteRequest(u) => MayDelete(before, scope, parentNs, gate, u)
  }

  /* ---------- the steps ---------- */

  datatype Batch = Batch(store: Store, conflict: bool, failed: bool)

  function ReleaseOne(b: Batch, u: Uid, answer: Answer): Batch {
    Batch(ReleaseOrphan(b.store, u, answer), b.conflict || answer.Conflict?, answer.Failed?)
  }

  function DeleteOne(b: Batch, u: Uid, answer: Answer): Batch {
    Batch(DeleteOrphan(b.store, u, answer), b.conflict || answer.Conflict?, answer.Failed?)
  }

  /** What sending requests to the members of some set leaves behind: only they change, and without a
      failure or a conflict each of them is gone, or for a delete being deleted. */
  ghost predicate Sent(before: Store, b: Batch, done: set<Uid>, deletes: bool) {
    && Shrinks(before, b.store)
    && before.requests <= b.store.requests
    && (forall i {:trigger b.store.requests[i]} :: |before.requests| <= i < |b.store.requests| ==>
          b.store.requests[i].uid in done && b.store.requests[i].DeleteRequest? == deletes)
    && (forall u {:trigger u in b.store.members} :: u in before.members && u !in done ==> u in b.store.members)
    && (forall u {:trigger u in b.store.terminating} :: u in b.store.terminating && u !in before.terminating ==> u in done && deletes)
    && (!b.failed && !b.conflict ==> forall u {:trigger u in done} :: u in done ==>
          u !in b.store.members || (deletes && u in b.store.terminating))
  }

  lemma SentOne(before: Store, b: Batch, done: set<Uid>, deletes: bool, u: Uid, answer: Answer)
    requires Sent(before, b, done, deletes) && u in before.members && !b.failed
    ensures Sent(before, if deletes then DeleteOne(b, u, answer) else ReleaseOne(b, u, answer), done + {u}, deletes)
  {
  }

  /** releaseOrphanedResources: the members to delete, in the order they were listed. */
  method ReleaseOrphanedResources(store: Store, gate: bool, candidates: seq<Uid>, answers: Uid -> Answer)
    returns (b: Batch, remaining: seq<Uid>, ghost done: set<Uid>)
    requires Known(store.members, candidates)
    ensures Sent(store, b, done, false)
    ensures Obliging(answers) ==> !b.failed && !b.conflict
    ensures forall u :: u in done ==> u in candidates && gate && store.members[u].policy == Orphaned
    ensures !b.failed ==> forall u :: u in candidates && gate && store.members[u].policy == Orphaned ==> u in done
    ensures !b.failed ==> forall u :: u in remaining <==> u in candidates && !(gate && store.members[u].policy == Orphaned)
  {
    b, remaining, done := Batch(store, false, false), [], {};
    for i := 0 to |candidates|
      invariant !b.failed && Sent(store, b, done, false)
      invariant Obliging(answers) ==> !b.conflict
      invariant forall u :: u in done <==> u in candidates[..i] && gate && store.members[u].policy == Orphaned
      invariant forall u :: u in remaining <==> u in candidates[..i] && !(gate && store.members[u].policy == Orphaned)
    {
      var c := candidates[i];
      assert candidates[..i + 1] == candidates[..i] + [c] && c in candidates;
      if PolicyOf(gate, store.members[c]).Delete? {
        remaining := remaining + [c];
        continue;
      }
      SentOne(store, b, done, false, c, answers(c));
      b := ReleaseOne(b, c, answers(c));
      done := done + {c};
      if b.failed {
        return;
      }
    }
    assert candidates[..|candidates|] == candidates;
  }

  method DeleteWave(store: Store, wave: seq<Uid>, answers: Uid -> Answer) returns (b: Batch, ghost done: set<Uid>)
    requires Known(store.members, wave)
    ensures Sent(store, b, done, true)
    ensures Obliging(answers) ==> !b.failed && !b.conflict
    ensures forall u :: u in done ==> u in wave && u !in store.terminating
    ensures !b.failed ==> forall u :: u in wave && u !in store.terminating ==> u in done
  {
    b, done := Batch(store, false, false), {};
    for i := 0 to |wave|
      invariant !b.failed && Sent(store, b, done, true)
      invariant Obliging(answers) ==> !b.conflict
      invariant forall u :: u in done <==> u in wave[..i] && u !in store.terminating
    {
      assert wave[..i + 1] == wave[..i] + [wave[i]] && wave[i] in wave;
      if wave[i] in store.terminating {
        continue;
      }
      SentOne(store, b, done, true, wave[i], answers(wave[i]));
      b := DeleteOne(b, wave[i], answers(wave[i]));
      done := done + {wave[i]};
      if b.failed {
        return;
      }
    }
    assert wave[..|wave|] == wave;
  }

  ghost function KroManaged(cs: seq<Contribution>): seq<Contribution> {
    if cs == [] then []
    else KroManaged(cs[..|cs| - 1]) + if cs[|cs| - 1].kroManaged then [cs[|cs| - 1]] else []
  }

  lemma {:induction false} KroManagedMembers(cs: seq<Contribution>)
    ensures forall c :: c in KroManaged(cs) <==> c in cs && c.kroManaged
  {
    if cs != [] {
      KroManagedMembers(cs[..|cs| - 1]);
      assert cs == cs[..|cs| - 1] + [cs[|cs| - 1]];
    }
  }

  /** Only contributions recorded under one of kro's own field managers are ever released. */
  method Releasable(cs: seq<Contribution>) returns (r: seq<Contribution>)
    ensures r == KroManaged(cs)
  {
    r := [];
    for i := 0 to |cs|
      invariant r == KroManaged(cs[..i])
    {
      assert cs[..i + 1][..i] == cs[..i];
      if cs[i].kroManaged {
        r := r + [cs[i]];
      }
    }
    assert cs[..|cs|] == cs;
  }

  /* ---------- reconcileDeletion ---------- */

  /** A listing over the recorded scope finds nothing. */
  ghost predicate NothingLeft(store: Store, scope: Scope, parentNs: Ns) {
    forall u :: !Orphan(store, scope, parentNs, {}, u)
  }

  /** One reconcile of a deleted instance. */
  ghost predicate Reconciled(scope: Scope, parentNs: Ns, gate: bool, s: State, s': State, outcome: Outcome) {
    && Shrinks(s.store, s'.store)
    && Permitted(s.store, s'.store, scope, parentNs, gate)
    && s'.contributions == s.contributions
    && (s'.finalizer ==> s.finalizer)
    && Relinquished(s, s')
    && (s.finalizer && !s'.finalizer ==>
          s'.released == s.released + KroManaged(s.contributions) && NothingLeft(s'.store, scope, parentNs))
    && (outcome.FinalizerRemoved? ==> s.finalizer && !s'.finalizer)
    && (outcome.Requeued? ==> s'.finalizer == s.finalizer && s'.released == s.released)
  }

  /** Only contributions of kro's own have been released, in the order in which they are recorded. */
  ghost predicate Relinquished(s: State, s': State) {
    s.released <= s'.released && s'.released[|s.released|..] <= KroManaged(s.contributions)
  }

  class Context {
    const parentNs: Ns
    const scope: Scope
    const gate: bool
    var store: Store
    var finalizer: bool
    var contributions: seq<Contribution>
    var released: seq<Contribution>

    constructor (parentNs: Ns, scope: Scope, gate: bool, store: Store, contributions: seq<Contribution>)
      ensures this.parentNs == parentNs && this.scope == scope && this.gate == gate
      ensures Now() == State(store, true, contributions, [])
    {
      this.parentNs, this.scope, this.gate := parentNs, scope, gate;
      this.store, finalizer, this.contributions, released := store, true, contributions, [];
    }

    function Now(): State
      reads this
    {
      State(store, finalizer, contributions, released)
    }

    /** A failed patch may still have removed the finalizer. */
    method RemoveFinalizer(faults: Faults) returns (outcome: Outcome)
      modifies this`finalizer, this`released
      ensures outcome != Requeued && (outcome.FinalizerRemoved? ==> !finalizer) && (finalizer ==> old(finalizer))
      ensures Relinquished(old(Now()), Now())
      ensures old(finalizer) && !finalizer ==> released == old(released) + KroManaged(contributions)
      ensures outcome.FinalizerRemoved? <==> !faults.readContributions && faults.patch.Done?
                                             && (faults.release.None? || KroManaged(contributions) == [])
    {
      if faults.readContributions {
        return Blocked;
      }
      var releasable := Releasable(contributions);
      if |releasable| > 0 {
        if faults.release.Some? {
          var n := if faults.release.value < |releasable| then faults.release.value else |releasable|;
          released := released + releasable[..n];
          return Blocked;
        }
        released := released + releasable;
      }
      if !faults.patch.FailedLost? {
        finalizer := false;
      }
      return if faults.patch.Done? then FinalizerRemoved else Blocked;
    }

    method ReconcileDeletion(answers: Uid -> Answer, faults: Faults) returns (outcome: Outcome)
      requires finalizer
      modifies this
      ensures Reconciled(scope, parentNs, gate, old(Now()), Now(), outcome)
      ensures Obliging(answers) && faults == NO_FAULTS ==> Obliged(scope, parentNs, gate, old(Now()), Now(), outcome)
    {
      if faults.discover {
        return Blocked;
      }
      ghost var before := store;
      var candidates := ListOrphans(store, scope, parentNs, {});
      var b, remaining, done := ReleaseOrphanedResources(store, gate, candidates, answers);
      store := b.store;
      ReleasesPermitted(scope, parentNs, gate, before, b, done);
      if b.failed || b.conflict {
        return Blocked;
      }
      StillToDelete(scope, parentNs, gate, before, b, done, remaining);
      if |remaining| == 0 {
        outcome := RemoveFinalizer(faults);
        return;
      }
      var wave, highest := HighestDeletionWave(store.members, remaining);
      var d, deleted := DeleteWave(store, wave, answers);
      store := d.store;
      DeletesPermitted(scope, parentNs, gate, before, b, remaining, wave, highest, d, deleted);
      if d.failed {
        return Blocked;
      }
      return Requeued;
    }
  }

  /** u is a member to delete and none has a higher order. */
  ghost predicate Highest(store: Store, scope: Scope, parentNs: Ns, gate: bool, u: Uid) {
    ToDelete(store, scope, parentNs, gate, u)
    && forall v :: ToDelete(store, scope, parentNs, gate, v) ==> WaveOf(store.members[v]) <= WaveOf(store.members[u])
  }

  /** There was something to delete, the whole highest wave of it is gone or being deleted, and
      everything to release was released. */
  ghost predicate Progressed(scope: Scope, parentNs: Ns, gate: bool, before: Store, after: Store) {
    && (exists u :: Highest(before, scope, parentNs, gate, u))
    && (forall u :: Highest(before, scope, parentNs, gate, u) ==> u !in after.members || u in after.terminating)
    && (forall u :: ToRelease(before, scope, parentNs, gate, u) ==> u !in after.members)
  }

  /** One reconcile in which nothing fails and no request conflicts. */
  ghost predicate Obliged(scope: Scope, parentNs: Ns, gate: bool, s: State, s': State, outcome: Outcome) {
    && Reconciled(scope, parentNs, gate, s, s', outcome)
    && (outcome.FinalizerRemoved? || (outcome.Requeued? && Progressed(scope, parentNs, gate, s.store, s'.store)))
  }

  lemma ReleasesPermitted(scope: Scope, parentNs: Ns, gate: bool, before: Store, b: Batch, done: set<Uid>)
    requires Sent(before, b, done, false)
    requires forall u :: u in done ==> ToRelease(before, scope, parentNs, gate, u)
    ensures Permitted(before, b.store, scope, parentNs, gate)
    ensures b.store.terminating == before.terminating
  {
  }

  /** After a clean release exactly the members to delete are left in scope. */
  lemma StillToDelete(scope: Scope, parentNs: Ns, gate: bool, before: Store, b: Batch, done: set<Uid>, remaining: seq<Uid>)
    requires Sent(before, b, done, false) && !b.failed && !b.conflict
    requires forall u :: u in done <==> ToRelease(before, scope, parentNs, gate, u)
    requires forall u :: u in remaining <==> ToDelete(before, scope, parentNs, gate, u)
    ensures Known(b.store.members, remaining)
    ensures forall u :: u in remaining <==> ToDelete(b.store, scope, parentNs, gate, u)
    ensures forall u :: !ToRelease(b.store, scope, parentNs, gate, u)
    ensures forall u :: ToRelease(before, scope, parentNs, gate, u) ==> u !in b.store.members
  {
    forall u ensures !ToRelease(b.store, scope, parentNs, gate, u) {
      assert u in done <==> ToRelease(before, scope, parentNs, gate, u);
    }
    forall u ensures u in remaining <==> ToDelete(b.store, scope, parentNs, gate, u) {
      assert u in done <==> ToRelease(before, scope, parentNs, gate, u);
      assert u in remaining <==> ToDelete(before, scope, parentNs, gate, u);
      assert ToDelete(before, scope, parentNs, gate, u) ==> u in before.members && u !in done && u in b.store.members;
      assert u in b.store.members ==> u in before.members && b.store.members[u] == before.members[u];
    }
  }

  lemma DeletesPermitted(scope: Scope, parentNs: Ns, gate: bool, before: Store, b: Batch, remaining: seq<Uid>,
                         wave: seq<Uid>, highest: int, d: Batch, deleted: set<Uid>)
    requires Shrinks(before, b.store) && Permitted(before, b.store, scope, parentNs, gate) && b.store.terminating == before.terminating
    requires forall u :: ToRelease(before, scope, parentNs, gate, u) ==> u !in b.store.members
    requires Known(b.store.members, remaining) && remaining != []
    requires forall u :: u in remaining <==> ToDelete(b.store, scope, parentNs, gate, u)
    requires forall u :: u in remaining <==> ToDelete(before, scope, parentNs, gate, u)
    requires IsHighestWave(b.store.members, remaining, wave, highest)
    requires Sent(b.store, d, deleted, true)
    requires forall u :: u in deleted ==> u in wave && u !in b.store.terminating
    requires !d.failed ==> forall u :: u in wave && u !in b.store.terminating ==> u in deleted
    ensures Shrinks(before, d.store) && Permitted(before, d.store, scope, parentNs, gate)
    ensures !d.failed && !d.conflict ==> Progressed(scope, parentNs, gate, before, d.store)
  {
    forall i | |b.store.requests| <= i < |d.store.requests|
      ensures d.store.requests[i].DeleteRequest? && MayDelete(before, scope, parentNs, gate, d.store.requests[i].uid)
    {
      var u := d.store.requests[i].uid;
      assert u in wave;
      forall v | ToDelete(before, scope, parentNs, gate, v) ensures WaveOf(before.members[v]) <= WaveOf(before.members[u]) {
        assert v in remaining;
      }
    }
    var w := wave[0];
    assert w in wave && Highest(before, scope, parentNs, gate, w);
    forall u | Highest(before, scope, parentNs, gate, u) ensures u in wave {
      assert u in remaining && w in remaining;
    }
  }
}
