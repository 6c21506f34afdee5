/** One reconcile cycle of an instance's inventory, and runs of cycles: the recorded scope keeps
    every member discoverable (pkg/controller/instance/controller_graph_engine.go). */
module InstanceCycle {

  import opened Collections
  import opened Digraph
  import opened ApplySet
  import opened InstanceInventory
  import ApplyOrders

  datatype State = State(recorded: Scope, store: Store)

  /** Where a cycle stopped; Crashed is a crash after the apply and before the inventory step. */
  datatype Outcome = Clean | DuplicateIdentity | GrowFailed | PruneFailed | AlignFailed | ConflictRetry | Crashed

  /** How the writes of the recorded scope end, and whether the listing fails. */
  datatype Faults = Faults(preApply: Write, grow: Write, list: bool, align: Write)

  const NO_FAULTS := Faults(Done, Done, false, Done)

  ghost function OrphanSet(s: Store, scope: Scope, parentNs: Ns, keep: set<Uid>): set<Uid> {
    set u | u in s.members && Orphan(s, scope, parentNs, keep, u)
  }

  ghost function KeepUids(applied: seq<Applied>): set<Uid> {
    set r | r in applied && r.uid.Some? :: r.uid.value
  }

  method CollectKeepUids(applied: seq<Applied>) returns (keep: set<Uid>)
    ensures keep == KeepUids(applied)
  {
    keep := {};
    for i := 0 to |applied|
      invariant keep == KeepUids(applied[..i])
    {
      assert applied[..i + 1] == applied[..i] + [applied[i]];
      assert forall r :: r in applied[..i + 1] <==> r in applied[..i] || r == applied[i];
      if applied[i].uid.Some? {
        keep := keep + {applied[i].uid.value};
      }
    }
    assert applied[..|applied|] == applied;
  }

  /** What pruning these orphans may have done to the store. */
  ghost predicate Pruned(before: Store, orphans: set<Uid>, completed: Option<set<Id>>, policyGate: bool, after: Store, outcome: Outcome) {
    && OnlySelected(before, after, orphans, completed, policyGate)
    && AllFit(before, after, completed, policyGate)
    && SentDescending(before, after)
    && outcome in {Clean, PruneFailed, AlignFailed, ConflictRetry}
    && (outcome in {Clean, AlignFailed} ==> AllGone(before, after, orphans, completed, policyGate))
  }

  /** The scope that is searched for orphans: the pre-apply superset, or if that names no kind the
      batch and the parent's memory. */
  ghost function SearchScope(parentNs: Ns, start: Scope, superset: Scope, applied: seq<Applied>): Scope {
    if superset.gks == {} then Union(BatchScope(parentNs, applied), start) else superset
  }

  /** reconcileApplySetInventory, from the state after the apply. start is the scope that was recorded
      when the cycle began, superset the one written before the apply; wrote says whether a write of
      the recorded scope took effect, which the outcome does not tell when that write failed. */
  ghost predicate Reconciled(parentNs: Ns, policyGate: bool, start: Scope, superset: Scope, applied: seq<Applied>, g: Gate,
                             s: State, s': State, outcome: Outcome, wrote: bool)
  {
    var batch := BatchScope(parentNs, applied);
    var orphans := OrphanSet(s.store, SearchScope(parentNs, start, superset, applied), parentNs, KeepUids(applied));
    if !DistinctIdentities(applied) then outcome.DuplicateIdentity? && !wrote && s' == s
    else if g.fullyResolved then
      && Pruned(s.store, orphans, g.completed, policyGate, s'.store, outcome)
      && s'.recorded == (if wrote then batch else s.recorded)
      && (outcome.Clean? ==> wrote) && (wrote ==> outcome in {Clean, AlignFailed})
    else if outcome.GrowFailed? then s' == s.(recorded := if wrote then Union(batch, start) else s.recorded)
    else
      && s'.recorded == Union(batch, start)
      && wrote && !outcome.AlignFailed?
      && if g.completed.None? || g.completed.value == {} then outcome.Clean? && s'.store == s.store
         else Pruned(s.store, orphans, g.completed, policyGate, s'.store, outcome)
  }

  /** A prune fails exactly when the members cannot be listed or the request for a selected one
      fails, and else is to be retried exactly when one of those requests conflicts. */
  ghost function PruneVerdict(before: Store, orphans: set<Uid>, completed: Option<set<Id>>, answers: Uid -> Answer, faults: Faults): Outcome {
    if faults.list || Meets(before, orphans, completed, answers, Failure) then PruneFailed
    else if Meets(before, orphans, completed, answers, Clash) then ConflictRetry
    else Clean
  }

  /** The cycle prunes at all. */
  ghost predicate PruneRuns(applied: seq<Applied>, g: Gate, faults: Faults) {
    DistinctIdentities(applied) && (g.fullyResolved || (faults.grow.Done? && g.completed.Some? && g.completed.value != {}))
  }

  /** When each outcome occurs, and when the recorded scope is written. */
  ghost predicate Explained(parentNs: Ns, start: Scope, superset: Scope, applied: seq<Applied>, g: Gate, s: State,
                            answers: Uid -> Answer, faults: Faults, outcome: Outcome, wrote: bool)
  {
    var orphans := OrphanSet(s.store, SearchScope(parentNs, start, superset, applied), parentNs, KeepUids(applied));
    var prune := PruneVerdict(s.store, orphans, g.completed, answers, faults);
    && (outcome.DuplicateIdentity? <==> !DistinctIdentities(applied))
    && (outcome.GrowFailed? <==> DistinctIdentities(applied) && !g.fullyResolved && !faults.grow.Done?)
    && (outcome.PruneFailed? <==> PruneRuns(applied, g, faults) && prune.PruneFailed?)
    && (outcome.ConflictRetry? <==> PruneRuns(applied, g, faults) && prune.ConflictRetry?)
    && (outcome.AlignFailed? <==> DistinctIdentities(applied) && g.fullyResolved && prune.Clean? && !faults.align.Done?)
    && (wrote <==> DistinctIdentities(applied)
                   && if g.fullyResolved then prune.Clean? && !faults.align.FailedLost? else !faults.grow.FailedLost?)
    && !outcome.Crashed?
  }

  class Instance {
    const parentNs: Ns
    var recorded: Scope
    var store: Store

    constructor (parentNs: Ns)
      ensures this.parentNs == parentNs && Now() == State(Scope({}, {}), Store(map[], {}, []))
    {
      this.parentNs, recorded, store := parentNs, Scope({}, {}), Store(map[], {}, []);
    }

    function Now(): State
      reads this
    {
      State(recorded, store)
    }

    /** preApplyApplySetInventory: candidates is the projected scope; projectionOk says whether the
        stable identities passed validation. */
    method PreApply(candidates: Scope, projectionOk: bool, faults: Faults) returns (ok: bool, start: Scope, superset: Scope)
      modifies this
      ensures start == old(recorded) && superset == Union(candidates, start)
      ensures ok == (projectionOk && faults.preApply.Done?)
      ensures Now() == if projectionOk && !faults.preApply.FailedLost? then State(superset, old(store)) else old(Now())
    {
      start := recorded;
      superset := Union(candidates, start);
      if !projectionOk {
        return false, start, superset;
      }
      ok := Patch(superset, faults.preApply);
    }

    /** patchInstanceApplySetMetadata */
    method Patch(scope: Scope, w: Write) returns (ok: bool)
      modifies this`recorded
      ensures ok == w.Done? && recorded == if w.FailedLost? then old(recorded) else scope
    {
      if !w.FailedLost? {
        recorded := scope;
      }
      return w.Done?;
    }

    method Prune(applied: seq<Applied>, scope: Scope, completed: Option<set<Id>>, policyGate: bool, answers: Uid -> Answer,
                 faults: Faults) returns (outcome: Outcome)
      modifies this`store
      ensures Pruned(old(store), OrphanSet(old(store), scope, parentNs, KeepUids(applied)), completed, policyGate, store, outcome)
      ensures var orphans := OrphanSet(old(store), scope, parentNs, KeepUids(applied));
              outcome == PruneVerdict(old(store), orphans, completed, answers, faults)
      ensures !faults.list && Obliging(answers) ==> outcome.Clean?
    {
      ghost var before := store;
      var keep := CollectKeepUids(applied);
      var p, list := PruneOrphans(store, scope, parentNs, keep, completed, policyGate, answers, faults.list);
      store := p.store;
      if !faults.list {
        PruneFacts(before, list, |list|, completed, policyGate, answers);
        PruneOrder(before, list, |list|, completed, policyGate, answers);
        PruneRequests(before, list, |list|, completed, policyGate, answers);
        assert list[..|list|] == list;
        assert Elements(list) == OrphanSet(before, scope, parentNs, keep);
        AnswersDecide(before, list, |list|, completed, policyGate, answers);
        if Obliging(answers) {
          ObligingPrune(before, list, |list|, completed, policyGate, answers);
        }
      }
      if p.failed {
        return PruneFailed;
      }
      return if p.conflicts > 0 then ConflictRetry else Clean;
    }

    method ReconcileInventory(start: Scope, superset: Scope, applied: seq<Applied>, g: Gate, policyGate: bool,
                              answers: Uid -> Answer, faults: Faults) returns (outcome: Outcome, ghost wrote: bool)
      modifies this
      ensures Reconciled(parentNs, policyGate, start, superset, applied, g, old(Now()), Now(), outcome, wrote)
      ensures Explained(parentNs, start, superset, applied, g, old(Now()), answers, faults, outcome, wrote)
      ensures DistinctIdentities(applied) && faults == NO_FAULTS && Obliging(answers) ==> outcome.Clean?
    {
      wrote := false;
      var valid := ValidateAppliedIdentities(applied);
      if !valid {
        return DuplicateIdentity, wrote;
      }
      var batch := ScopeFromApplied(parentNs, applied);
      var scope := superset;
      if superset.gks == {} {
        scope := Union(batch, start);
      }
      if !g.fullyResolved {
        var grown := Patch(Union(batch, start), faults.grow);
        wrote := !faults.grow.FailedLost?;
        if !grown {
          return GrowFailed, wrote;
        }
        if g.completed.None? || g.completed.value == {} {
          return Clean, wrote;
        }
      }
      outcome := Prune(applied, scope, g.completed, policyGate, answers, faults);
      if outcome.Clean? && g.fullyResolved {
        var aligned := Patch(batch, faults.align);
        wrote := !faults.align.FailedLost?;
        if !aligned {
          outcome := AlignFailed;
        }
      }
    }
  }

  /* ---------- hypotheses about a cycle ---------- */

  /** The entry describes the object. */
  ghost predicate Records(r: Applied, u: Uid, m: Member) {
    r.uid == Some(u) && r.Gk() == Some(m.gk) && r.ns == m.ns
  }

  /** Apply lists everything it wrote, even on error; a UID names one object; nothing else changes. */
  ghost predicate ApplyContract(applied: seq<Applied>, landed: set<Uid>, before: Store, after: Store) {
    && after.terminating == before.terminating && after.requests == before.requests
    && (forall u {:trigger u in after.members} :: u in before.members ==> u in after.members)
    && (forall u {:trigger u in after.members} :: u in after.members && u !in landed ==>
          u in before.members && after.members[u] == before.members[u])
    && (forall u {:trigger u in landed} :: u in landed ==>
          u in after.members && exists r :: r in applied && Records(r, u, after.members[u]))
    && (forall r {:trigger r in applied} :: r in applied && r.uid.Some? && r.uid.value in after.members ==>
          Records(r, r.uid.value, after.members[r.uid.value]))
  }

  /** The gate comes from PruneGate: only a restricted cycle carries a set of completed nodes. */
  ghost predicate GateShape(g: Gate) {
    g.fullyResolved ==> g.completed.None?
  }

  /** A cycle from before its first write to its end; a failed pre-apply step ends it. */
  ghost predicate Cycle(parentNs: Ns, policyGate: bool, candidates: Scope, applied: seq<Applied>, landed: set<Uid>, g: Gate,
                        s: State, afterApply: State, s': State, outcome: Outcome, wrote: bool)
  {
    && GateShape(g)
    && afterApply.recorded == Union(candidates, s.recorded)
    && ApplyContract(applied, landed, s.store, afterApply.store)
    && if outcome.Crashed? then !wrote && s' == afterApply
       else Reconciled(parentNs, policyGate, s.recorded, afterApply.recorded, applied, g, afterApply, s', outcome, wrote)
  }

  /* ---------- coverage ---------- */

  predicate Alive(s: Store, u: Uid) {
    u in s.members && u !in s.terminating
  }

  /** Every member that is not already being deleted lies inside the recorded scope. */
  ghost predicate Covers(parentNs: Ns, s: State) {
    forall u {:trigger Alive(s.store, u)} :: Alive(s.store, u) ==> InScope(s.recorded, parentNs, s.store.members[u])
  }

  /** Deletion lists by the recorded scope alone; it misses no living member exactly when they are
      all covered. */
  lemma DiscoveryIffCovered(parentNs: Ns, s: State, candidates: seq<Uid>)
    requires Lists(s.store, s.recorded, parentNs, {}, candidates)
    ensures Covers(parentNs, s) <==> forall u :: Alive(s.store, u) ==> u in candidates
  {
    forall u | Alive(s.store, u)
      ensures u in candidates <==> InScope(s.recorded, parentNs, s.store.members[u])
    {
    }
  }

  /** What is alive at the end was alive after the apply, unchanged. */
  lemma SurvivorsUnchanged(parentNs: Ns, policyGate: bool, candidates: Scope, applied: seq<Applied>, landed: set<Uid>, g: Gate,
                           s: State, afterApply: State, s': State, outcome: Outcome, wrote: bool, u: Uid)
    requires Cycle(parentNs, policyGate, candidates, applied, landed, g, s, afterApply, s', outcome, wrote) && Alive(s'.store, u)
    ensures Alive(afterApply.store, u) && s'.store.members[u] == afterApply.store.members[u]
    ensures u !in landed ==> Alive(s.store, u) && s.store.members[u] == s'.store.members[u]
  {
  }

  lemma LandedCovered(parentNs: Ns, applied: seq<Applied>, landed: set<Uid>, before: Store, after: Store, u: Uid)
    requires ApplyContract(applied, landed, before, after) && u in after.members
    requires u in landed || u in KeepUids(applied)
    ensures InScope(BatchScope(parentNs, applied), parentNs, after.members[u])
    ensures u in KeepUids(applied)
  {
    if u in landed {
      var r :| r in applied && Records(r, u, after.members[u]);
      BatchCovers(parentNs, applied, r, after.members[u]);
    } else {
      var r :| r in applied && r.uid == Some(u);
      BatchCovers(parentNs, applied, r, after.members[u]);
    }
  }

  /** A cycle that wrote its inventory leaves every living member covered. */
  lemma WrittenCycleCovers(parentNs: Ns, policyGate: bool, candidates: Scope, applied: seq<Applied>, landed: set<Uid>, g: Gate,
                           s: State, afterApply: State, s': State, outcome: Outcome, wrote: bool)
    requires Cycle(parentNs, policyGate, candidates, applied, landed, g, s, afterApply, s', outcome, wrote)
    requires Covers(parentNs, s) && wrote
    ensures Covers(parentNs, s')
  {
    forall u | Alive(s'.store, u) ensures InScope(s'.recorded, parentNs, s'.store.members[u]) {
      SurvivorsUnchanged(parentNs, policyGate, candidates, applied, landed, g, s, afterApply, s', outcome, wrote, u);
      var m := s'.store.members[u];
      if u !in landed {
        assert InScope(s.recorded, parentNs, m);
        WiderScope(s.recorded, SearchScope(parentNs, s.recorded, afterApply.recorded, applied), parentNs, m);
      }
      if g.fullyResolved {
        CleanLeavesKept(parentNs, policyGate, candidates, applied, landed, g, s, afterApply, s', outcome, wrote, u);
      }
      if u in landed || u in KeepUids(applied) {
        LandedCovered(parentNs, applied, landed, s.store, afterApply.store, u);
        WiderScope(BatchScope(parentNs, applied), s'.recorded, parentNs, m);
      } else if !g.fullyResolved {
        WiderScope(s.recorded, s'.recorded, parentNs, m);
      }
    }
  }

  /** After an unrestricted clean prune only the applied UIDs are alive in the searched scope. */
  lemma CleanLeavesKept(parentNs: Ns, policyGate: bool, candidates: Scope, applied: seq<Applied>, landed: set<Uid>, g: Gate,
                        s: State, afterApply: State, s': State, outcome: Outcome, wrote: bool, u: Uid)
    requires Cycle(parentNs, policyGate, candidates, applied, landed, g, s, afterApply, s', outcome, wrote)
    requires g.fullyResolved && wrote && Alive(s'.store, u)
    ensures u in KeepUids(applied)
            || !InScope(SearchScope(parentNs, s.recorded, afterApply.recorded, applied), parentNs, s'.store.members[u])
  {
    var scope := SearchScope(parentNs, s.recorded, afterApply.recorded, applied);
    assert u !in OrphanSet(afterApply.store, scope, parentNs, KeepUids(applied));
  }

  /** So nothing that lives is left unapplied in the scope recorded before the apply or, when that names
      no kind, in what was applied and recorded earlier. */
  lemma NoOrphanLeft(parentNs: Ns, policyGate: bool, candidates: Scope, applied: seq<Applied>, landed: set<Uid>, g: Gate,
                     s: State, afterApply: State, s': State, outcome: Outcome, wrote: bool, u: Uid)
    requires Cycle(parentNs, policyGate, candidates, applied, landed, g, s, afterApply, s', outcome, wrote)
    requires g.fullyResolved && wrote && Alive(s'.store, u) && u !in KeepUids(applied)
    ensures !InScope(afterApply.recorded, parentNs, s'.store.members[u])
    ensures afterApply.recorded.gks == {} ==> !InScope(Union(BatchScope(parentNs, applied), s.recorded), parentNs, s'.store.members[u])
  {
    CleanLeavesKept(parentNs, policyGate, candidates, applied, landed, g, s, afterApply, s', outcome, wrote, u);
  }

  /** Everything the cycle wrote, and that still lives, was inside the scope recorded beforehand. */
  ghost predicate Foreseen(parentNs: Ns, landed: set<Uid>, superset: Scope, s': State) {
    forall u :: u in landed && Alive(s'.store, u) ==> InScope(superset, parentNs, s'.store.members[u])
  }

  /** Whether a cycle keeps every living member covered: exactly when it wrote its inventory, or all
      that it applied was already inside the pre-apply superset. A fully resolved cycle whose prune
      fails or meets a UID conflict, a duplicate identity and a crash all skip the write. */
  lemma CoverageIff(parentNs: Ns, policyGate: bool, candidates: Scope, applied: seq<Applied>, landed: set<Uid>, g: Gate,
                    s: State, afterApply: State, s': State, outcome: Outcome, wrote: bool)
    requires Cycle(parentNs, policyGate, candidates, applied, landed, g, s, afterApply, s', outcome, wrote) && Covers(parentNs, s)
    ensures Covers(parentNs, s') <==> wrote || Foreseen(parentNs, landed, afterApply.recorded, s')
  {
    if wrote {
      WrittenCycleCovers(parentNs, policyGate, candidates, applied, landed, g, s, afterApply, s', outcome, wrote);
    } else {
      assert s'.recorded == afterApply.recorded;
      forall u | Alive(s'.store, u) && u !in landed ensures InScope(s'.recorded, parentNs, s'.store.members[u]) {
        SurvivorsUnchanged(parentNs, policyGate, candidates, applied, landed, g, s, afterApply, s', outcome, wrote, u);
        WiderScope(s.recorded, afterApply.recorded, parentNs, s'.store.members[u]);
      }
    }
  }

  /** The recorded scope shrinks only at the end of a fully resolved, conflict-free cycle. */
  lemma ShrinksOnlyWhenClean(parentNs: Ns, policyGate: bool, candidates: Scope, applied: seq<Applied>, landed: set<Uid>, g: Gate,
                             s: State, afterApply: State, s': State, outcome: Outcome, wrote: bool)
    requires Cycle(parentNs, policyGate, candidates, applied, landed, g, s, afterApply, s', outcome, wrote)
    ensures Within(s.recorded, afterApply.recorded)
    ensures Within(s.recorded, s'.recorded) || (g.fullyResolved && wrote)
    ensures g.fullyResolved && wrote ==> s'.recorded == BatchScope(parentNs, applied)
  {
  }

  /** Within a partial cycle the post-apply write unions with the scope recorded when the cycle began,
      not with the one written before the apply: candidates that were projected but not applied are
      dropped again, and the write grows the pre-apply superset exactly when there are none. */
  lemma PartialWriteDropsCandidates(parentNs: Ns, policyGate: bool, candidates: Scope, applied: seq<Applied>, landed: set<Uid>, g: Gate,
                                    s: State, afterApply: State, s': State, outcome: Outcome, wrote: bool)
    requires Cycle(parentNs, policyGate, candidates, applied, landed, g, s, afterApply, s', outcome, wrote)
    requires !g.fullyResolved && wrote
    ensures Within(afterApply.recorded, s'.recorded) <==>
            Within(candidates, Union(BatchScope(parentNs, applied), s.recorded))
  {
    var grown := Union(BatchScope(parentNs, applied), s.recorded);
    assert s'.recorded == grown;
    if Within(candidates, grown) {
      assert afterApply.recorded.gks == candidates.gks + s.recorded.gks;
    }
  }

  /* ---------- prune gating ---------- */

  /** The prune touched this member: released it, found it gone, or asked for its deletion. */
  predicate Touched(s: Store, s': Store, u: Uid) {
    u in s.members && (u !in s'.members || (u in s'.terminating && u !in s.terminating))
  }

  /** End to end through PruneGate: a hard error never prunes, only full resolution prunes without
      restriction, a partial cycle touches only orphans of completed nodes, and nothing whose UID the
      cycle applied is ever touched. */
  lemma PruneGating(parentNs: Ns, policyGate: bool, candidates: Scope, applied: seq<Applied>, landed: set<Uid>, g: Gate,
                    s: State, afterApply: State, s': State, outcome: Outcome, wrote: bool,
                    nodes: seq<RuntimeNode>, hardErr: bool, unresolved: seq<Id>, u: Uid)
    requires Cycle(parentNs, policyGate, candidates, applied, landed, g, s, afterApply, s', outcome, wrote)
    requires g.fullyResolved <==> !hardErr && unresolved == []
    requires g.completed.None? <==> hardErr || unresolved == []
    requires g.completed.Some? ==> forall id :: id in g.completed.value <==> IsCompleted(nodes, unresolved, id)
    requires Touched(afterApply.store, s'.store, u)
    ensures !hardErr && u !in KeepUids(applied)
    ensures unresolved == []
            || exists id :: ProducedBy(s.store.members[u], id) && id !in unresolved
                            && exists n :: n in nodes && n.id == id && n.kind == Template && n.observed
    ensures forall i :: |afterApply.store.requests| <= i < |s'.store.requests| ==>
              var r := s'.store.requests[i];
              r.uid in afterApply.store.members
              && (r.ReleaseRequest? <==> policyGate && afterApply.store.members[r.uid].policy == Orphaned)
    ensures u !in s'.store.members || !(policyGate && afterApply.store.members[u].policy == Orphaned)
  {
    var scope := SearchScope(parentNs, s.recorded, afterApply.recorded, applied);
    assert u in OrphanSet(afterApply.store, scope, parentNs, KeepUids(applied));
    if u in landed {
      LandedCovered(parentNs, applied, landed, s.store, afterApply.store, u);
    }
  }

  /** With the apply orders of the dependency graph, the requests for members of a dependent node go
      out before those for members of what it depends on. */
  lemma PruneDependentsFirst(parentNs: Ns, policyGate: bool, candidates: Scope, applied: seq<Applied>, landed: set<Uid>, g: Gate,
                             s: State, afterApply: State, s': State, outcome: Outcome, wrote: bool,
                             graph: Graph, layers: seq<seq<Id>>, orders: map<Id, int>, dependent: Id, dependency: Id, i: nat, j: nat)
    requires Cycle(parentNs, policyGate, candidates, applied, landed, g, s, afterApply, s', outcome, wrote)
    requires WellFormed(graph) && IsLayering(graph, layers) && Flatten(layers) == graph.deps.Keys
    requires ApplyOrders.OrdersFrom(layers, orders) && Annotated(afterApply.store, orders) && Edge(graph.deps, dependent, dependency)
    requires |afterApply.store.requests| <= i < |s'.store.requests| && |afterApply.store.requests| <= j < |s'.store.requests|
    requires var r := s'.store.requests[i];
             r.uid in afterApply.store.members && ProducedBy(afterApply.store.members[r.uid], dependency)
    requires var r := s'.store.requests[j];
             r.uid in afterApply.store.members && ProducedBy(afterApply.store.members[r.uid], dependent)
    ensures j < i
  {
    ApplyOrders.EdgeLowers(graph, layers, orders, dependent, dependency);
    CycleSends(parentNs, policyGate, candidates, applied, landed, g, s, afterApply, s', outcome, wrote);
    HigherGoesFirst(afterApply.store, s'.store, i, j);
  }

  lemma CycleSends(parentNs: Ns, policyGate: bool, candidates: Scope, applied: seq<Applied>, landed: set<Uid>, g: Gate,
                   s: State, afterApply: State, s': State, outcome: Outcome, wrote: bool)
    requires Cycle(parentNs, policyGate, candidates, applied, landed, g, s, afterApply, s', outcome, wrote)
    ensures SentDescending(afterApply.store, s'.store)
  {
  }

  /* ---------- runs ---------- */

  datatype Step =
    | CycleStep(candidates: Scope, applied: seq<Applied>, landed: set<Uid>, gate: Gate, afterApply: State, outcome: Outcome, wrote: bool)
    | PreApplyFailed(candidates: Scope)
    | Environment

  /** Between cycles objects may disappear or start to terminate, never appear. */
  ghost predicate Next(parentNs: Ns, policyGate: bool, step: Step, s: State, s': State) {
    match step
    case CycleStep(candidates, applied, landed, gate, afterApply, outcome, wrote) =>
      Cycle(parentNs, policyGate, candidates, applied, landed, gate, s, afterApply, s', outcome, wrote)
    case PreApplyFailed(candidates) => s' == s || s' == s.(recorded := Union(candidates, s.recorded))
    case Environment =>
      && s'.recorded == s.recorded
      && forall u {:trigger Alive(s'.store, u)} :: Alive(s'.store, u) ==> Alive(s.store, u) && s'.store.members[u] == s.store.members[u]
  }

  /** The step is a cycle that writes its inventory or applies nothing unforeseen. */
  ghost predicate Careful(parentNs: Ns, step: Step, s': State) {
    step.CycleStep? ==> step.wrote || Foreseen(parentNs, step.landed, step.afterApply.recorded, s')
  }

  ghost predicate IsRun(parentNs: Ns, policyGate: bool, steps: seq<Step>, states: seq<State>) {
    && |states| == |steps| + 1
    && states[0].store.members == map[]
    && forall i {:trigger steps[i]} :: 0 <= i < |steps| ==> Next(parentNs, policyGate, steps[i], states[i], states[i + 1])
  }

  /** Over every run of careful cycles, from an instance without members, no living member ever
      escapes the recorded scope. */
  lemma {:induction false} RunCovers(parentNs: Ns, policyGate: bool, steps: seq<Step>, states: seq<State>, k: nat)
    requires IsRun(parentNs, policyGate, steps, states) && k <= |steps|
    requires forall i {:trigger steps[i]} :: 0 <= i < k ==> Careful(parentNs, steps[i], states[i + 1])
    ensures Covers(parentNs, states[k])
  {
    if k > 0 {
      RunCovers(parentNs, policyGate, steps, states, k - 1);
      var s, s' := states[k - 1], states[k];
      match steps[k - 1]
      case CycleStep(candidates, applied, landed, gate, afterApply, outcome, wrote) =>
        CoverageIff(parentNs, policyGate, candidates, applied, landed, gate, s, afterApply, s', outcome, wrote);
      case PreApplyFailed(candidates) =>
        forall u | Alive(s'.store, u) ensures InScope(s'.recorded, parentNs, s'.store.members[u]) {
          WiderScope(s.recorded, s'.recorded, parentNs, s.store.members[u]);
        }
      case Environment =>
    }
  }

  /** Then deletion, which lists by the recorded scope alone, finds every living member. */
  lemma DiscoveryFindsAll(parentNs: Ns, policyGate: bool, steps: seq<Step>, states: seq<State>, k: nat, candidates: seq<Uid>, u: Uid)
    requires IsRun(parentNs, policyGate, steps, states) && k <= |steps|
    requires forall i {:trigger steps[i]} :: 0 <= i < k ==> Careful(parentNs, steps[i], states[i + 1])
    requires Lists(states[k].store, states[k].recorded, parentNs, {}, candidates)
    ensures Alive(states[k].store, u) ==> u in candidates
  {
    RunCovers(parentNs, policyGate, steps, states, k);
    DiscoveryIffCovered(parentNs, states[k], candidates);
  }

  /** A cycle that ends fully resolved, conflict-free and with its write done. */
  predicate Shrinking(step: Step) {
    step.CycleStep? && step.gate.fullyResolved && step.wrote
  }

  /** Over every run the recorded scope never shrinks except at such cycles. */
  lemma {:induction false} ScopeOnlyGrows(parentNs: Ns, policyGate: bool, steps: seq<Step>, states: seq<State>, i: nat, k: nat)
    requires IsRun(parentNs, policyGate, steps, states) && i <= k <= |steps|
    requires forall j {:trigger steps[j]} :: i <= j < k ==> !Shrinking(steps[j])
    ensures Within(states[i].recorded, states[k].recorded)
  {
    if i < k {
      ScopeOnlyGrows(parentNs, policyGate, steps, states, i, k - 1);
      var s, s' := states[k - 1], states[k];
      match steps[k - 1]
      case CycleStep(candidates, applied, landed, gate, afterApply, outcome, wrote) =>
        ShrinksOnlyWhenClean(parentNs, policyGate, candidates, applied, landed, gate, s, afterApply, s', outcome, wrote);
      case PreApplyFailed(_) =>
      case Environment =>
    }
  }

  /** The cycle in which the stale member is applied, into an instance without members. */
  lemma FirstCycle(parentNs: Ns, policyGate: bool, gk: GroupKind, stale: Uid, m: Member, r: Applied) returns (step: Step, s: State, s': State)
    requires m.gk == gk && m.ns == Home(parentNs) && Records(r, stale, m)
    ensures s == State(Scope({}, {}), Store(map[], {}, []))
    ensures step.CycleStep? && Next(parentNs, policyGate, step, s, s') && step.outcome.Clean? && Covers(parentNs, s')
    ensures s' == State(BatchScope(parentNs, [r]), Store(map[stale := m], {}, []))
  {
    var store := Store(map[stale := m], {}, []);
    var candidates, batch, g := Scope({gk}, {}), BatchScope(parentNs, [r]), Gate(true, None);
    s := State(Scope({}, {}), Store(map[], {}, []));
    var afterApply := State(Union(candidates, s.recorded), store);
    s' := State(batch, store);
    assert r in [r];
    assert KeepUids([r]) == {stale};
    assert OrphanSet(store, SearchScope(parentNs, s.recorded, afterApply.recorded, [r]), parentNs, {stale}) == {};
    assert Reconciled(parentNs, policyGate, s.recorded, afterApply.recorded, [r], g, afterApply, s', Clean, true);
    step := CycleStep(candidates, [r], {stale}, g, afterApply, Clean, true);
    assert Cycle(parentNs, policyGate, candidates, [r], {stale}, g, s, afterApply, s', Clean, true);
    LandedCovered(parentNs, [r], {stale}, s.store, store, stale);
  }

  /** The next cycle applies into a namespace its projection did not foresee, and the delete of the
      member that it retires meets a conflict. */
  lemma ConflictCycle(parentNs: Ns, policyGate: bool, gk: GroupKind, s: State, stale: Uid, m: Member, recent: Uid, late: Member, r: Applied)
      returns (step: Step, s': State)
    requires gk in s.recorded.gks && s.store == Store(map[stale := m], {}, []) && InScope(s.recorded, parentNs, m)
    requires m.policy.Delete?
    requires recent != stale && late.gk == gk && Records(r, recent, late)
    requires late.ns.Ns? && late.ns != Home(parentNs) && late.ns !in s.recorded.namespaces
    ensures step.CycleStep? && Next(parentNs, policyGate, step, s, s') && step.outcome.ConflictRetry? && step.gate.fullyResolved
    ensures !Covers(parentNs, s')
  {
    var afterApply := State(s.recorded, Store(map[stale := m, recent := late], {}, []));
    var g := Gate(true, None);
    s' := afterApply.(store := DeleteOrphan(afterApply.store, stale, Conflict));
    assert Union(s.recorded, s.recorded) == s.recorded;
    assert r in [r];
    assert stale in OrphanSet(afterApply.store, s.recorded, parentNs, KeepUids([r])) by {
      assert KeepUids([r]) == {recent};
    }
    assert s'.store.requests[0..] == [DeleteRequest(stale)];
    assert Alive(s'.store, recent);
    step := CycleStep(s.recorded, [r], {recent}, g, afterApply, ConflictRetry, false);
    assert Cycle(parentNs, policyGate, s.recorded, [r], {recent}, g, s, afterApply, s', ConflictRetry, false);
  }

  /** The gap is real: a run of two fully resolved cycles, of which the first ends clean with everything
      covered, and the second applies into a namespace its projection did not foresee, meets a conflict
      on the member it retires, and ends with the applied object uncovered. */
  lemma ConflictLosesNamespace(parentNs: Ns, policyGate: bool, target: Ns, gk: GroupKind, recent: Uid, stale: Uid, node: Id)
      returns (steps: seq<Step>, states: seq<State>)
    requires target.Ns? && target != Home(parentNs) && recent != stale
    ensures IsRun(parentNs, policyGate, steps, states) && |steps| == 2
    ensures steps[0].CycleStep? && steps[0].outcome.Clean? && Covers(parentNs, states[1])
    ensures steps[1].CycleStep? && steps[1].outcome.ConflictRetry? && steps[1].gate.fullyResolved && !Covers(parentNs, states[2])
  {
    var retired := Member(gk, Home(parentNs), Some(node), None, Some(1), Delete);
    var late := Member(gk, target, Some(node), None, Some(1), Delete);
    var first := Applied(node, "v1", Some(gk.group), gk.kind, Home(parentNs), "retired", Some(stale));
    var second := Applied(node, "v1", Some(gk.group), gk.kind, target, "late", Some(recent));
    var step0, s0, s1 := FirstCycle(parentNs, policyGate, gk, stale, retired, first);
    assert first in [first];
    assert Alive(s1.store, stale);
    var step1, s2 := ConflictCycle(parentNs, policyGate, gk, s1, stale, retired, recent, late, second);
    steps, states := [step0, step1], [s0, s1, s2];
  }
}
