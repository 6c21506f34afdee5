/** How an entry leaves what the Graph controller has persisted: only a successful delete or
    release of the same cycle, or an intent that the cycle did not apply, takes it out. */
module GraphHistory {
  import opened Collections
  import opened Tracking
  import opened GraphController
  import opened GraphSafety

  /* ---------- what a cycle may take out ---------- */

  /** The cycle may drop identity k: its prune candidates name it, or it was intended for the
      first time and the apply did not report it. */
  ghost predicate Dispensable(c: Cycle, r: ApplyResult, k: ResourceKey) {
    k in Keys(Candidates(c, r)) || (k in Keys(c.intent) && k !in Keys(c.previous) && k !in Keys(r.applied))
  }

  ghost predicate Prunes(s: State, a: Action, k: ResourceKey) {
    s.phase.Retained? && a.Prune? && a.ok && !s.phase.r.outcome.HardError? && Dispensable(s.phase.c, s.phase.r, k)
  }

  /** What is dropped for any other reason than a delete was not written by the cycle, or is gone. */
  lemma DispensableIsGone(s: State, a: Action, k: ResourceKey)
    requires Inv(s) && Enabled(s, a) && Prunes(s, a, k)
    ensures Tracked(s.phase.c.previous, s.live, k) ==> k !in Step(s, a).live
    ensures k in s.phase.c.written ==> k !in Step(s, a).live
  {
    var c, r := s.phase.c, s.phase.r;
    DiffPartitions(c.previous, r.applied, r.unresolved);
    if Tracked(c.previous, s.live, k) && k in Keys(Candidates(c, r)) {
      var e :| e in Candidates(c, r) && KeyOf(e) == k;
      assert Hits(e, s.live) && k in Doomed(Candidates(c, r), s.live);
    }
  }

  /** Whatever the cycle saw or intended is in the new set, or dispensable. */
  lemma NewSetKeeps(c: Cycle, r: ApplyResult, k: ResourceKey)
    requires k in Keys(c.intent) && k !in Keys(NewSet(c.previous, r.applied, r.unresolved))
    ensures Dispensable(c, r, k)
  {
    var newSet := NewSet(c.previous, r.applied, r.unresolved);
    DiffPartitions(c.previous, r.applied, r.unresolved);
    assert forall e :: e in r.applied ==> e in newSet;
    if k in Keys(c.previous) {
      var e :| e in c.previous && KeyOf(e) == k;
      assert e !in newSet;
      assert e in Candidates(c, r);
    }
  }

  /* ---------- what a cycle has persisted ---------- */

  /** The persisted inventory and ledger hold nothing the cycle has not seen or intended. */
  ghost predicate Bounds(s: State) {
    match s.phase
    case ManagedAhead(c) => Keys(s.server.managed) <= Keys(c.intent) * Keys(s.m.managed)
    case Applying(c) => Keys(s.server.managed) <= Keys(c.intent) && Elements(s.server.contribs) <= Elements(c.intentC)
    case Applied(c, _) => Keys(s.server.managed) <= Keys(c.intent) && Elements(s.server.contribs) <= Elements(c.intentC)
    case Retained(c, r) =>
      Keys(s.server.managed) <= Keys(c.intent) && Elements(s.server.contribs) <= Elements(c.intentC) + Elements(r.contributions)
    case Pruned(c, r) => Elements(s.server.contribs) <= Elements(c.intentC) + Elements(r.contributions)
    case Released(c, r) => Elements(s.server.contribs) <= Elements(c.intentC) + Elements(r.contributions)
    case _ => true
  }

  lemma WriteManagedBounds(s: State, intended: seq<ManagedResource>, w: Write)
    requires Inv(s) && Enabled(s, WriteManaged(intended, w))
    ensures Bounds(StepWriteManaged(s, intended, w))
  {
    UnionCovers(s.m.managed, intended);
    UnionCovers(s.server.managed, Union(s.m.managed, intended));
  }

  lemma WriteContribsBounds(s: State, intendedC: seq<Contribution>, w: Write)
    requires Inv(s) && Bounds(s) && Enabled(s, WriteContribs(intendedC, w))
    ensures Bounds(StepWriteContribs(s, intendedC, w))
  {
    ElementsConcat(s.phase.c.prior, intendedC);
  }

  lemma RetainBounds(s: State, w: Write)
    requires Inv(s) && Bounds(s) && Enabled(s, Retain(w))
    ensures Bounds(StepRetain(s, w))
  {
    ElementsConcat(s.m.contribs, s.phase.r.contributions);
  }

  lemma EnvironmentBounds(s: State, a: Action)
    requires Bounds(s) && Enabled(s, a) && IsEnvironment(a)
    ensures Bounds(Step(s, a))
  {
  }

  /** The steps of a cycle between its writes. */
  predicate InCycle(a: Action) {
    a.Put? || a.Patch? || a.EndApply? || a.Prune? || a.Release?
  }

  lemma CycleBounds(s: State, a: Action)
    requires Bounds(s) && Enabled(s, a) && InCycle(a)
    ensures Bounds(Step(s, a))
  {
  }

  /** The other steps come before a cycle or end it. */
  lemma QuietBounds(s: State, a: Action)
    requires Enabled(s, a) && !IsEnvironment(a) && !InCycle(a)
    requires !a.WriteManaged? && !a.WriteContribs? && !a.Retain?
    ensures Bounds(Step(s, a))
  {
  }

  lemma StepKeepsBounds(s: State, a: Action)
    requires Inv(s) && Bounds(s) && Enabled(s, a)
    ensures Bounds(Step(s, a))
  {
    if a.WriteManaged? {
      WriteManagedBounds(s, a.intended, a.w);
    } else if a.WriteContribs? {
      WriteContribsBounds(s, a.intendedC, a.w);
    } else if a.Retain? {
      RetainBounds(s, a.w);
    } else if IsEnvironment(a) {
      EnvironmentBounds(s, a);
    } else if InCycle(a) {
      CycleBounds(s, a);
    } else {
      QuietBounds(s, a);
    }
  }

  /* ---------- what a cycle is about to take out ---------- */

  ghost predicate Publishing(s: State) {
    s.phase.Pruned? || s.phase.Released? || s.phase.Closing?
  }

  /** k is persisted, and a status write would take it out. */
  ghost predicate Leaving(s: State, k: ResourceKey) {
    Publishing(s) && k in Keys(s.server.managed) && k !in Keys(s.m.managed)
  }

  lemma SupersetDropsNothing(s: State, c: Cycle, r: ApplyResult)
    requires Keys(s.server.managed) <= Keys(c.intent)
    ensures Keys(s.server.managed) <= Keys(Superset(c, r))
  {
    UnionCovers(c.intent, r.applied);
  }

  lemma WriteManagedLeaves(s: State, intended: seq<ManagedResource>, w: Write, k: ResourceKey)
    requires Inv(s) && Enabled(s, WriteManaged(intended, w))
    ensures !Leaving(StepWriteManaged(s, intended, w), k)
  {
    UnionCovers(s.m.managed, intended);
  }

  lemma PruneLeaves(s: State, a: Action, k: ResourceKey)
    requires Bounds(s) && a.Prune? && Enabled(s, a) && Leaving(Step(s, a), k)
    ensures Prunes(s, a, k)
  {
    var c, r := s.phase.c, s.phase.r;
    SupersetDropsNothing(s, c, r);
    var newSet := NewSet(c.previous, r.applied, r.unresolved);
    UnionCovers(newSet, a.intendedNow);
    NewSetKeeps(c, r, k);
  }

  lemma QuietLeaves(s: State, a: Action, k: ResourceKey)
    requires PhaseInv(s) && Bounds(s) && Enabled(s, a) && Leaving(Step(s, a), k)
    requires !a.WriteManaged? && !a.Prune? && !a.Retain? && !a.WriteStatus?
    ensures Leaving(s, k)
  {
  }

  /** An entry starts leaving only at a successful prune that may drop it. */
  lemma StartsLeaving(s: State, a: Action, k: ResourceKey)
    requires Inv(s) && Bounds(s) && Enabled(s, a) && Leaving(Step(s, a), k)
    ensures Prunes(s, a, k) || Leaving(s, k)
  {
    if a.WriteManaged? {
      WriteManagedLeaves(s, a.intended, a.w, k);
    } else if a.Prune? {
      PruneLeaves(s, a, k);
    } else if a.Retain? {
      SupersetDropsNothing(s, s.phase.c, s.phase.r);
    } else if !a.WriteStatus? {
      QuietLeaves(s, a, k);
    }
  }

  /** Two steps write the inventory, ... */
  lemma ManagedStays(s: State, a: Action)
    requires Enabled(s, a) && !a.WriteManaged? && !a.WriteStatus?
    ensures Step(s, a).server.managed == s.server.managed
  {
  }

  lemma IntentDropsNothing(s: State, a: Action)
    requires Enabled(s, a) && a.WriteManaged?
    ensures Keys(s.server.managed) <= Keys(Step(s, a).server.managed)
  {
    UnionCovers(s.server.managed, Union(s.m.managed, a.intended));
  }

  lemma StatusLeaves(s: State, a: Action, k: ResourceKey)
    requires PhaseInv(s) && Enabled(s, a) && a.WriteStatus?
    requires k in Keys(s.server.managed) && k !in Keys(Step(s, a).server.managed)
    ensures Leaving(s, k)
  {
    UnionCovers(s.server.managed, s.m.managed);
  }

  /** ... and an entry leaves only at a status write that found it leaving. */
  lemma LeavesWhenLeaving(s: State, a: Action, k: ResourceKey)
    requires PhaseInv(s) && Enabled(s, a)
    requires k in Keys(s.server.managed) && k !in Keys(Step(s, a).server.managed)
    ensures a.WriteStatus? && Leaving(s, k)
  {
    if a.WriteManaged? {
      IntentDropsNothing(s, a);
    } else if a.WriteStatus? {
      StatusLeaves(s, a, k);
    } else {
      ManagedStays(s, a);
    }
  }

  /* ---------- over runs ---------- */

  lemma {:induction false} RunKeepsBounds(run: seq<State>, actions: seq<Action>, i: nat)
    requires IsRun(run, actions) && i < |run|
    ensures Inv(run[i]) && Bounds(run[i])
  {
    RunKeepsInv(run, actions, i);
    if i > 0 {
      RunKeepsBounds(run, actions, i - 1);
      assert StepAt(run, actions, i - 1);
      StepKeepsBounds(run[i - 1], actions[i - 1]);
    }
  }

  /** States j to i belong to one cycle: the reconciler does not return in between. */
  ghost predicate SameCycle(run: seq<State>, j: nat, i: nat)
    requires j <= i < |run|
  {
    forall l {:trigger run[l]} :: j <= l <= i ==> !run[l].phase.Idle?
  }

  lemma StartsLeavingAt(run: seq<State>, actions: seq<Action>, j: nat, k: ResourceKey)
    requires IsRun(run, actions) && j < |actions| && Leaving(run[j + 1], k)
    ensures Prunes(run[j], actions[j], k) || Leaving(run[j], k)
  {
    assert StepAt(run, actions, j);
    RunKeepsBounds(run, actions, j);
    StartsLeaving(run[j], actions[j], k);
  }

  lemma SameCycleSnoc(run: seq<State>, j: nat, i: nat)
    requires j <= i < |run| - 1 && SameCycle(run, j, i) && !run[i + 1].phase.Idle?
    ensures SameCycle(run, j, i + 1)
  {
    forall l {:trigger run[l]} | j <= l <= i + 1 ensures !run[l].phase.Idle? {}
  }

  lemma {:induction false} LeavingWasPruned(run: seq<State>, actions: seq<Action>, i: nat, k: ResourceKey) returns (j: nat)
    requires IsRun(run, actions) && i < |run| && Leaving(run[i], k)
    ensures j < i && SameCycle(run, j, i) && Prunes(run[j], actions[j], k)
  {
    assert i > 0;
    StartsLeavingAt(run, actions, i - 1, k);
    if Prunes(run[i - 1], actions[i - 1], k) {
      j := i - 1;
    } else {
      j := LeavingWasPruned(run, actions, i - 1, k);
    }
    SameCycleSnoc(run, j, i - 1);
  }

  /** An identity leaves the persisted inventory only when it is not live or is adrift, and only
      after a successful prune of the same cycle that had it among its candidates, or found it
      intended for the first time and not applied. What that prune saw tracked, and what its
      cycle had written, is gone. */
  lemma LeavesOnlyWhenGone(run: seq<State>, actions: seq<Action>, i: nat, k: ResourceKey) returns (j: nat)
    requires IsRun(run, actions) && i < |actions|
    requires k in Keys(run[i].server.managed) && k !in Keys(run[i + 1].server.managed)
    ensures k !in run[i + 1].live || k in run[i + 1].adrift
    ensures j < i && SameCycle(run, j, i) && Prunes(run[j], actions[j], k)
    ensures Tracked(run[j].phase.c.previous, run[j].live, k) || k in run[j].phase.c.written ==> k !in run[j + 1].live
  {
    assert StepAt(run, actions, i);
    RunKeepsInv(run, actions, i);
    RunKeepsInv(run, actions, i + 1);
    LeavesWhenLeaving(run[i], actions[i], k);
    j := LeavingWasPruned(run, actions, i, k);
    assert StepAt(run, actions, j);
    RunKeepsInv(run, actions, j);
    DispensableIsGone(run[j], actions[j], k);
  }

  /* ---------- contributions ---------- */

  ghost predicate Releases(s: State, a: Action, c: Cycle, r: ApplyResult) {
    s.phase == Phase.Pruned(c, r) && a.Release? && a.ok
  }

  /** Three steps write the ledger, ... */
  lemma ContribsStay(s: State, a: Action)
    requires Enabled(s, a) && !a.WriteContribs? && !a.Retain? && !a.Record?
    ensures Step(s, a).server.contribs == s.server.contribs
  {
  }

  /** ... and the first two take nothing out. */
  lemma ContribsGrow(s: State, a: Action)
    requires PhaseInv(s) && Enabled(s, a) && (a.WriteContribs? || a.Retain?)
    ensures Elements(s.server.contribs) <= Elements(Step(s, a).server.contribs)
  {
    if a.WriteContribs? {
      ElementsConcat(s.phase.c.prior, a.intendedC);
    } else {
      ElementsConcat(s.m.contribs, s.phase.r.contributions);
    }
  }

  /** A contribution is dropped from the ledger only when the last release relinquished it, or
      when it was intended for the first time and the apply did not report it. */
  lemma RecordDrops(s: State, a: Action, x: Contribution)
    requires PhaseInv(s) && Bounds(s) && Enabled(s, a)
    requires x in Elements(s.server.contribs) && x !in Elements(Step(s, a).server.contribs)
    ensures a.Record? && s.phase.Released?
    ensures x in ToRelease(s.phase.c, s.phase.r)
            || (x in s.phase.c.intentC && x !in s.phase.c.prior && x !in s.phase.r.contributions)
  {
    if a.WriteContribs? || a.Retain? {
      ContribsGrow(s, a);
    } else if !a.Record? {
      ContribsStay(s, a);
    }
  }

  lemma {:induction false} ReleasedWasReleased(run: seq<State>, actions: seq<Action>, i: nat) returns (j: nat)
    requires IsRun(run, actions) && i < |run| && run[i].phase.Released?
    ensures j < i && SameCycle(run, j, i) && Releases(run[j], actions[j], run[i].phase.c, run[i].phase.r)
  {
    j := i - 1;
    assert StepAt(run, actions, j);
    if !run[j].phase.Pruned? {
      assert run[j].phase == run[i].phase;
      j := ReleasedWasReleased(run, actions, j);
    }
  }

  /** A contribution leaves the persisted ledger only after a successful release of the same
      cycle: the release relinquished it, or the cycle intended it for the first time and its
      apply did not report it. What was relinquished, and what the cycle had patched, is no
      longer owned. */
  lemma ContributionLeavesOnlyWhenReleased(run: seq<State>, actions: seq<Action>, i: nat, x: Contribution) returns (j: nat)
    requires IsRun(run, actions) && i < |actions|
    requires x in run[i].server.contribs && x !in run[i + 1].server.contribs
    ensures x !in run[i + 1].patched || x in run[i + 1].adriftC
    ensures actions[i].Record? && run[i].phase.Released?
    ensures var c, r := run[i].phase.c, run[i].phase.r;
            j < i && SameCycle(run, j, i) && Releases(run[j], actions[j], c, r)
            && (x in ToRelease(c, r) || (x in c.intentC && x !in c.prior && x !in r.contributions))
            && (x in ToRelease(c, r) || x in c.contributed ==> x !in run[j + 1].patched)
  {
    assert StepAt(run, actions, i);
    RunKeepsBounds(run, actions, i);
    CrashSafety(run, actions, i + 1, Key("", "", "", ""), x);
    RecordDrops(run[i], actions[i], x);
    j := ReleasedWasReleased(run, actions, i);
    assert StepAt(run, actions, j);
    RunKeepsInv(run, actions, j);
    var c, r := run[j].phase.c, run[j].phase.r;
    assert x in c.contributed * run[j].patched ==> x in Elements(r.contributions);
  }

  /* ---------- what a cycle leaves persisted ---------- */

  /** In every state of the cycle that began by fetching this generation and inventory, the reconciler
      still has them. */
  ghost predicate RemembersFetch(s: State, generation: nat, managed: seq<ManagedResource>) {
    && s.m.generation == generation
    && match s.phase
       case Fetched => s.m.managed == managed
       case Finalized => s.m.managed == managed
       case ManagedAhead(c) => c.previous == managed
       case Applying(c) => c.previous == managed
       case Applied(c, _) => c.previous == managed
       case Retained(c, _) => c.previous == managed
       case Pruned(c, _) => c.previous == managed
       case Released(c, _) => c.previous == managed
       case _ => true
  }

  lemma StepKeepsFetched(s: State, a: Action, generation: nat, managed: seq<ManagedResource>)
    requires RemembersFetch(s, generation, managed) && Enabled(s, a) && !s.phase.Idle?
    ensures RemembersFetch(Step(s, a), generation, managed)
  {
    if IsWriting(a) {
      WritingKeepsFetched(s, a, generation, managed);
    } else {
      OthersKeepFetched(s, a, generation, managed);
    }
  }

  lemma WritingKeepsFetched(s: State, a: Action, generation: nat, managed: seq<ManagedResource>)
    requires RemembersFetch(s, generation, managed) && Enabled(s, a) && IsWriting(a)
    ensures RemembersFetch(Step(s, a), generation, managed)
  {
  }

  lemma OthersKeepFetched(s: State, a: Action, generation: nat, managed: seq<ManagedResource>)
    requires RemembersFetch(s, generation, managed) && Enabled(s, a) && !s.phase.Idle? && !IsWriting(a)
    ensures RemembersFetch(Step(s, a), generation, managed)
  {
  }

  lemma {:induction false} CycleKeepsFetched(run: seq<State>, actions: seq<Action>, f: nat, i: nat)
    requires IsRun(run, actions) && f < i < |run| && actions[f].Fetch? && SameCycle(run, f + 1, i)
    ensures RemembersFetch(run[i], run[f].server.generation, run[f].server.managed)
  {
    if i == f + 1 {
      assert StepAt(run, actions, f);
    } else {
      SameCyclePrefix(run, f + 1, i);
      CycleKeepsFetched(run, actions, f, i - 1);
      assert StepAt(run, actions, i - 1);
      StepKeepsFetched(run[i - 1], actions[i - 1], run[f].server.generation, run[f].server.managed);
    }
  }

  lemma SameCyclePrefix(run: seq<State>, j: nat, i: nat)
    requires j < i < |run| && SameCycle(run, j, i)
    ensures SameCycle(run, j, i - 1) && !run[i - 1].phase.Idle?
  {
    assert !run[i - 1].phase.Idle?;
  }

  /** After the prune the inventory to publish is settled. */
  ghost predicate Settled(s: State, ms: seq<ManagedResource>) {
    Publishing(s) && s.m.managed == ms
  }

  lemma StepKeepsSettled(s: State, a: Action, ms: seq<ManagedResource>)
    requires Settled(s, ms) && Enabled(s, a)
    ensures Step(s, a).phase.Idle? || Settled(Step(s, a), ms)
  {
  }

  lemma {:induction false} CycleKeepsSettled(run: seq<State>, actions: seq<Action>, j: nat, i: nat)
    requires IsRun(run, actions) && j < i < |run| && SameCycle(run, j, i) && Publishing(run[j + 1])
    ensures Settled(run[i], run[j + 1].m.managed)
  {
    if i > j + 1 {
      SameCyclePrefix(run, j, i);
      CycleKeepsSettled(run, actions, j, i - 1);
      assert StepAt(run, actions, i - 1);
      StepKeepsSettled(run[i - 1], actions[i - 1], run[j + 1].m.managed);
      assert !run[i].phase.Idle?;
    }
  }

  /** One cycle from its fetch at f over its prune at j to its status write at i, which takes effect,
      whether it reports so or not. */
  ghost predicate WritesBack(run: seq<State>, actions: seq<Action>, f: nat, j: nat, i: nat) {
    && IsRun(run, actions) && f < j < i < |actions| && SameCycle(run, f + 1, i)
    && actions[f].Fetch? && actions[j].Prune? && actions[i].WriteStatus? && !actions[i].w.FailedLost?
  }

  /** What the status write meets: the generation it fetched, and the inventory settled at the prune. */
  lemma AtStatusWrite(run: seq<State>, actions: seq<Action>, f: nat, j: nat, i: nat)
    requires WritesBack(run, actions, f, j, i)
    ensures run[j].phase.Retained? && run[j].phase.c.previous == run[f].server.managed
    ensures run[i].m.generation == run[f].server.generation && run[i].m.managed == run[j + 1].m.managed
    ensures run[j + 1].m.managed == Settles(run[j].phase.c, run[j].phase.r, actions[j].ok, actions[j].intendedNow)
    ensures run[i + 1].server.managed ==
              if run[i].server.generation == run[f].server.generation then run[j + 1].m.managed
              else Union(run[i].server.managed, run[j + 1].m.managed)
  {
    assert StepAt(run, actions, j) && StepAt(run, actions, i);
    SameCycleInner(run, f + 1, j, i);
    CycleKeepsFetched(run, actions, f, j);
    CycleKeepsFetched(run, actions, f, i);
    PrunePublishes(run[j], actions[j]);
    CycleKeepsSettled(run, actions, j, i);
    StatusWrites(run[i], actions[i]);
  }

  /** The inventory that a prune settles on. */
  ghost function Settles(c: Cycle, r: ApplyResult, ok: bool, intendedNow: seq<ManagedResource>): seq<ManagedResource> {
    if r.outcome.HardError? || !ok then Superset(c, r)
    else if r.outcome.Clean? then NewSet(c.previous, r.applied, r.unresolved)
    else Union(NewSet(c.previous, r.applied, r.unresolved), intendedNow)
  }

  lemma StatusWrites(s: State, a: Action)
    requires Enabled(s, a) && a.WriteStatus? && !a.w.FailedLost?
    ensures Step(s, a).server.managed ==
              if s.server.generation == s.m.generation then s.m.managed else Union(s.server.managed, s.m.managed)
  {
  }

  lemma SameCycleInner(run: seq<State>, f: nat, j: nat, i: nat)
    requires f <= j <= i < |run| && SameCycle(run, f, i)
    ensures SameCycle(run, f, j) && SameCycle(run, j, i)
  {
    forall l {:trigger run[l]} | f <= l <= j ensures !run[l].phase.Idle? {}
    forall l {:trigger run[l]} | j <= l <= i ensures !run[l].phase.Idle? {}
  }

  lemma PrunePublishes(s: State, a: Action)
    requires Enabled(s, a) && a.Prune?
    ensures Publishing(Step(s, a)) && s.phase.Retained?
    ensures Step(s, a).m.managed == Settles(s.phase.c, s.phase.r, a.ok, a.intendedNow)
  {
  }

  /** The entries of an earlier inventory that the cycle keeps because their node is unresolved. */
  ghost predicate KeptBack(before: seq<ManagedResource>, r: ApplyResult, e: ManagedResource) {
    e in before && e.nodeID in r.unresolved && KeyOf(e) !in Keys(r.applied)
  }

  lemma NewSetEntries(before: seq<ManagedResource>, r: ApplyResult, e: ManagedResource)
    ensures e in NewSet(before, r.applied, r.unresolved) <==> e in r.applied || KeptBack(before, r, e)
  {
  }

  /** A cycle whose apply and prune succeeded, and whose spec did not change meanwhile, leaves exactly
      what it applied, and of what it fetched the entries it did not apply and whose node is
      unresolved. So every other candidate has left. */
  lemma CleanCycleLeaves(run: seq<State>, actions: seq<Action>, f: nat, j: nat, i: nat, e: ManagedResource)
    requires WritesBack(run, actions, f, j, i) && actions[j].ok && run[j].phase.Retained? && run[j].phase.r.outcome.Clean?
    requires run[i].server.generation == run[f].server.generation
    ensures e in run[i + 1].server.managed <==>
              e in run[j].phase.r.applied || KeptBack(run[f].server.managed, run[j].phase.r, e)
  {
    AtStatusWrite(run, actions, f, j, i);
    NewSetEntries(run[f].server.managed, run[j].phase.r, e);
  }

  /** A cycle that is only not ready leaves, by identity, the same and what it still intends. */
  lemma NotReadyCycleLeaves(run: seq<State>, actions: seq<Action>, f: nat, j: nat, i: nat, k: ResourceKey)
    requires WritesBack(run, actions, f, j, i) && actions[j].ok && run[j].phase.Retained? && run[j].phase.r.outcome.NotReady?
    requires run[i].server.generation == run[f].server.generation
    ensures k in Keys(run[i + 1].server.managed) <==>
              k in Keys(run[j].phase.r.applied) || k in Keys(actions[j].intendedNow)
              || exists e :: KeyOf(e) == k && KeptBack(run[f].server.managed, run[j].phase.r, e)
  {
    AtStatusWrite(run, actions, f, j, i);
    var r, before := run[j].phase.r, run[f].server.managed;
    var newSet := NewSet(before, r.applied, r.unresolved);
    UnionCovers(newSet, actions[j].intendedNow);
    KeysOfNewSet(before, r, k);
  }

  lemma KeysOfNewSet(before: seq<ManagedResource>, r: ApplyResult, k: ResourceKey)
    ensures k in Keys(NewSet(before, r.applied, r.unresolved)) <==>
              k in Keys(r.applied) || exists e :: KeyOf(e) == k && KeptBack(before, r, e)
  {
    var newSet := NewSet(before, r.applied, r.unresolved);
    if e :| e in newSet && KeyOf(e) == k {
      NewSetEntries(before, r, e);
    }
    if e :| e in r.applied && KeyOf(e) == k {
      NewSetEntries(before, r, e);
    }
    if e :| KeyOf(e) == k && KeptBack(before, r, e) {
      NewSetEntries(before, r, e);
    }
  }

  /** In every state of a cycle that intended these identities, before it publishes, they are remembered. */
  ghost predicate RemembersIntent(s: State, intent: seq<ManagedResource>) {
    match s.phase
    case ManagedAhead(c) => c.intent == intent
    case Applying(c) => c.intent == intent
    case Applied(c, _) => c.intent == intent
    case Retained(c, _) => c.intent == intent
    case Pruned(_, _) => true
    case Released(_, _) => true
    case Closing(_) => true
    case _ => false
  }

  lemma StepKeepsIntent(s: State, a: Action, intent: seq<ManagedResource>)
    requires RemembersIntent(s, intent) && Enabled(s, a)
    ensures Step(s, a).phase.Idle? || RemembersIntent(Step(s, a), intent)
  {
  }

  lemma {:induction false} CycleKeepsIntent(run: seq<State>, actions: seq<Action>, p: nat, i: nat)
    requires IsRun(run, actions) && p < i < |run| && actions[p].WriteManaged? && SameCycle(run, p, i)
    ensures RemembersIntent(run[i], Union(run[p].m.managed, actions[p].intended))
  {
    var intent := Union(run[p].m.managed, actions[p].intended);
    if i == p + 1 {
      assert StepAt(run, actions, p);
    } else {
      SameCyclePrefix(run, p, i);
      CycleKeepsIntent(run, actions, p, i - 1);
      assert StepAt(run, actions, i - 1);
      StepKeepsIntent(run[i - 1], actions[i - 1], intent);
      assert !run[i].phase.Idle?;
    }
  }

  /** A cycle that failed hard, or whose prune failed, leaves every identity it fetched, intended or
      applied. */
  lemma FailedCycleKeeps(run: seq<State>, actions: seq<Action>, f: nat, p: nat, j: nat, i: nat)
    requires WritesBack(run, actions, f, j, i) && f < p < j && actions[p].WriteManaged?
    requires run[j].phase.Retained? && (!actions[j].ok || run[j].phase.r.outcome.HardError?)
    ensures Keys(run[f].server.managed) + Keys(actions[p].intended) + Keys(run[j].phase.r.applied) <= Keys(run[i + 1].server.managed)
  {
    AtStatusWrite(run, actions, f, j, i);
    SameCycleInner(run, f + 1, j, i);
    SameCycleInner(run, f + 1, p, j);
    CycleKeepsIntent(run, actions, p, j);
    FetchedAt(run, actions, f, p);
    UnionCovers(run[p].m.managed, actions[p].intended);
    UnionCovers(run[j].phase.c.intent, run[j].phase.r.applied);
    UnionCovers(run[i].server.managed, run[j + 1].m.managed);
  }

  lemma FetchedAt(run: seq<State>, actions: seq<Action>, f: nat, p: nat)
    requires IsRun(run, actions) && f < p < |actions| && actions[f].Fetch? && SameCycle(run, f + 1, p) && actions[p].WriteManaged?
    ensures run[p].m.managed == run[f].server.managed && run[p].m.generation == run[f].server.generation
  {
    CycleKeepsFetched(run, actions, f, p);
    assert StepAt(run, actions, p);
  }

  /** When the write-ahead itself fails, whether it took effect or not, the status write that follows
      still records what was intended. */
  lemma FailedIntentIsRecorded(run: seq<State>, actions: seq<Action>, f: nat, p: nat, i: nat)
    requires IsRun(run, actions) && f < p < i < |actions| && actions[f].Fetch? && SameCycle(run, f + 1, i)
    requires actions[p].WriteManaged? && !actions[p].w.Done? && run[p + 1].phase.Closing?
    requires actions[i].WriteStatus? && !actions[i].w.FailedLost?
    ensures Keys(run[f].server.managed) + Keys(actions[p].intended) <= Keys(run[i + 1].server.managed)
  {
    SameCycleInner(run, f + 1, p, i);
    FetchedAt(run, actions, f, p);
    CycleKeepsFetched(run, actions, f, i);
    assert StepAt(run, actions, p) && StepAt(run, actions, i);
    RunKeepsInv(run, actions, p);
    FailedIntent(run[p], actions[p]);
    CycleKeepsSettled(run, actions, p, i);
    StatusWrites(run[i], actions[i]);
    UnionCovers(run[i].server.managed, run[i].m.managed);
  }

  lemma FailedIntent(s: State, a: Action)
    requires PhaseInv(s) && Enabled(s, a) && a.WriteManaged? && !a.w.Done? && Step(s, a).phase.Closing?
    ensures Keys(s.m.managed) + Keys(a.intended) <= Keys(Step(s, a).m.managed)
  {
    UnionCovers(s.m.managed, a.intended);
    UnionCovers(s.server.managed, Union(s.m.managed, a.intended));
  }

  /** Only a clean apply is followed by a release or by the final ledger write. */
  lemma {:induction false} ReleasesOnlyAfterCleanApply(run: seq<State>, actions: seq<Action>, i: nat)
    requires IsRun(run, actions) && i < |run| && (run[i].phase.Pruned? || run[i].phase.Released?)
    ensures run[i].phase.r.outcome == Clean
  {
    assert StepAt(run, actions, i - 1);
    if run[i - 1].phase.Pruned? || run[i - 1].phase.Released? {
      ReleasesOnlyAfterCleanApply(run, actions, i - 1);
    }
  }

  /** After a hard error nothing is deleted, and a failed prune deletes nothing that is no candidate. */
  lemma PruneDeletes(s: State, a: Action, k: ResourceKey)
    requires Enabled(s, a) && a.Prune? && k in s.live && k !in Step(s, a).live
    ensures s.phase.Retained? && s.phase.r.outcome != HardError && k in Keys(Candidates(s.phase.c, s.phase.r))
  {
    var gone := Doomed(Candidates(s.phase.c, s.phase.r), s.live);
    assert k in gone;
  }

  /** The generation is the one fetched exactly when neither the spec changed nor a deletion was asked
      for meanwhile. */
  lemma {:induction false} GenerationTells(run: seq<State>, actions: seq<Action>, f: nat, i: nat)
    requires IsRun(run, actions) && f <= i < |run|
    ensures run[f].server.generation <= run[i].server.generation
    ensures run[f].server.generation == run[i].server.generation <==>
              forall l :: f <= l < i ==> !actions[l].SpecChange? && !actions[l].UserDelete?
  {
    if f < i {
      GenerationTells(run, actions, f, i - 1);
      assert StepAt(run, actions, i - 1);
      GenerationStep(run[i - 1], actions[i - 1]);
    }
  }

  lemma GenerationStep(s: State, a: Action)
    requires Enabled(s, a)
    ensures Step(s, a).server.generation == s.server.generation + if a.SpecChange? || a.UserDelete? then 1 else 0
  {
    if !IsEnvironment(a) {
      GenerationKept(s, a);
    }
  }

  lemma GenerationKept(s: State, a: Action)
    requires Enabled(s, a) && !IsEnvironment(a)
    ensures Step(s, a).server.generation == s.server.generation
  {
  }

  /** When the spec changed since the fetch, no persisted identity leaves at the status write, and all
      that the cycle would have published is there too. */
  lemma ChangedSpecDropsNothing(run: seq<State>, actions: seq<Action>, f: nat, i: nat)
    requires IsRun(run, actions) && f < i < |actions| && actions[f].Fetch? && SameCycle(run, f + 1, i)
    requires actions[i].WriteStatus? && !actions[i].w.FailedLost? && run[i].server.generation != run[f].server.generation
    ensures Keys(run[i + 1].server.managed) == Keys(run[i].server.managed) + Keys(run[i].m.managed)
  {
    CycleKeepsFetched(run, actions, f, i);
    assert StepAt(run, actions, i);
    StatusWrites(run[i], actions[i]);
    UnionCovers(run[i].server.managed, run[i].m.managed);
  }

  /** And then the published part of a clean cycle, though nothing leaves, is all recorded. */
  lemma ChangedSpecRecords(run: seq<State>, actions: seq<Action>, f: nat, j: nat, i: nat)
    requires WritesBack(run, actions, f, j, i) && run[i].server.generation != run[f].server.generation
    requires actions[j].ok && run[j].phase.Retained? && run[j].phase.r.outcome.Clean?
    ensures Keys(run[i].server.managed) + Keys(run[j].phase.r.applied) <= Keys(run[i + 1].server.managed)
  {
    AtStatusWrite(run, actions, f, j, i);
    ChangedSpecDropsNothing(run, actions, f, i);
    forall k | k in Keys(run[j].phase.r.applied) ensures k in Keys(run[j + 1].m.managed) {
      KeysOfNewSet(run[f].server.managed, run[j].phase.r, k);
    }
  }

  /** The final ledger write leaves exactly the contributions that the apply of the cycle reported. */
  lemma RecordLeaves(run: seq<State>, actions: seq<Action>, e: nat, i: nat)
    requires IsRun(run, actions) && e < i < |actions| && actions[e].EndApply? && SameCycle(run, e, i)
    requires actions[i].Record? && !actions[i].w.FailedLost?
    ensures run[i + 1].server.contribs == actions[e].r.contributions
  {
    assert StepAt(run, actions, i);
    CycleKeepsReport(run, actions, e, i);
  }

  ghost predicate Reports(s: State, r: ApplyResult) {
    match s.phase
    case Applied(_, r') => r' == r
    case Retained(_, r') => r' == r
    case Pruned(_, r') => r' == r
    case Released(_, r') => r' == r
    case Closing(_) => true
    case _ => false
  }

  lemma StepKeepsReport(s: State, a: Action, r: ApplyResult)
    requires Reports(s, r) && Enabled(s, a)
    ensures Step(s, a).phase.Idle? || Reports(Step(s, a), r)
  {
  }

  lemma {:induction false} CycleKeepsReport(run: seq<State>, actions: seq<Action>, e: nat, i: nat)
    requires IsRun(run, actions) && e < i < |run| && actions[e].EndApply? && SameCycle(run, e, i)
    ensures Reports(run[i], actions[e].r)
  {
    if i == e + 1 {
      assert StepAt(run, actions, e);
    } else {
      SameCyclePrefix(run, e, i);
      CycleKeepsReport(run, actions, e, i - 1);
      assert StepAt(run, actions, i - 1);
      StepKeepsReport(run[i - 1], actions[i - 1], actions[e].r);
      assert !run[i].phase.Idle?;
    }
  }
}
