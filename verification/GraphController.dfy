/** The Graph controller (pkg/controller/graph/controller.go) as a step machine: every API write
    is one step that may succeed, fail, or fail after taking effect, and the process may crash
    between any two steps. */
module GraphController {
  import opened Collections
  import opened Tracking

  /* ---------- state ---------- */

  /** The persisted Graph object. */
  datatype Server = Server(present: bool, finalizer: bool, deleting: bool, generation: nat,
                           managed: seq<ManagedResource>, contribs: seq<Contribution>)

  /** The in-memory Graph of one reconcile. */
  datatype Memory = Memory(generation: nat, managed: seq<ManagedResource>, contribs: seq<Contribution>)

  datatype Outcome = Clean | NotReady | HardError

  /** What Apply reports. */
  datatype ApplyResult = ApplyResult(applied: seq<ManagedResource>, unresolved: set<string>,
                                     contributions: seq<Contribution>, outcome: Outcome)

  /** What one cycle remembers from before its apply, and what its apply has written so far. */
  datatype Cycle = Cycle(previous: seq<ManagedResource>, prior: seq<Contribution>,
                         intent: seq<ManagedResource>, intentC: seq<Contribution>,
                         written: set<ResourceKey>, contributed: set<Contribution>)

  /** Where the reconciler stands between two API calls. */
  datatype Phase =
    | Idle
    | Fetched
    | Finalized
    | ManagedAhead(c: Cycle)
    | Applying(c: Cycle)
    | Applied(c: Cycle, r: ApplyResult)
    | Retained(c: Cycle, r: ApplyResult)
    | Pruned(c: Cycle, r: ApplyResult)
    | Released(c: Cycle, r: ApplyResult)
    | Closing(written: set<ResourceKey>)
    | Deleting(left: nat, failed: bool)
    | Releasing(next: nat)
    | Unmanaging
    | DeleteFailed

  /** live maps the identity of every object this Graph has applied and that still exists to its
      uid; patched holds the contributions whose fields are still owned. `adrift` and `adriftC`
      are history: what was written while the persisted inventory did not track it, and has not
      been recorded since by the cycle that wrote it. */
  datatype State = State(server: Server, live: map<ResourceKey, string>, patched: set<Contribution>,
                         m: Memory, phase: Phase, adrift: set<ResourceKey>, adriftC: set<Contribution>)

  /** How an API write ended. A failed write may still have reached the server. */
  datatype Write = Done | FailedCommitted | FailedLost

  datatype Attempt = Succeeded | Forbidden | Failed

  datatype Action =
    | Crash
    | EnvDelete(gone: set<ResourceKey>)
    | EnvRelease(dropped: set<Contribution>)
    | SpecChange
    | UserDelete
    | Fetch
    | AddFinalizer(w: Write)
    | GiveUp
    | WriteManaged(intended: seq<ManagedResource>, w: Write)
    | WriteContribs(intendedC: seq<Contribution>, w: Write)
    | Put(key: ResourceKey, uid: string)
    | Patch(contribution: Contribution)
    | EndApply(r: ApplyResult)
    | Retain(w: Write)
    | Prune(ok: bool, removed: set<ResourceKey>, intendedNow: seq<ManagedResource>)
    | Release(ok: bool, relinquished: set<Contribution>)
    | Record(w: Write)
    | WriteStatus(w: Write)
    | DeleteOne(first: Attempt, fallback: bool, second: Attempt, hit: bool)
    | EndDeletes
    | ReleaseOne(first: Attempt, fallback: bool, second: Attempt, hit: bool)
    | EndReleases
    | DropFinalizer(w: Write)

  /* ---------- tracking ---------- */

  /** A Delete of this entry removes the live object: it names no uid, or the right one. A
      recorded uid is sent as a precondition, and a mismatch is tolerated. */
  ghost predicate Hits(e: ManagedResource, live: map<ResourceKey, string>) {
    KeyOf(e) in live && (e.uid == "" || e.uid == live[KeyOf(e)])
  }

  /** The inventory names k, and no entry for k carries another object's uid. */
  ghost predicate Tracked(ms: seq<ManagedResource>, live: map<ResourceKey, string>, k: ResourceKey) {
    k in live && k in Keys(ms) && forall e {:trigger e in ms} :: e in ms && KeyOf(e) == k ==> Hits(e, live)
  }

  /** Every entry for k carries the live uid. */
  ghost predicate Fresh(ms: seq<ManagedResource>, live: map<ResourceKey, string>, k: ResourceKey) {
    k in live && k in Keys(ms) && forall e {:trigger e in ms} :: e in ms && KeyOf(e) == k ==> e.uid == live[k] != ""
  }

  ghost predicate UidFree(ms: seq<ManagedResource>) {
    forall e {:trigger e in ms} :: e in ms ==> e.uid == ""
  }

  /** The live objects a successful Delete of these entries removes. */
  ghost function Doomed(entries: seq<ManagedResource>, live: map<ResourceKey, string>): set<ResourceKey> {
    set e | e in entries && Hits(e, live) :: KeyOf(e)
  }

  /* ---------- the steps ---------- */

  /** cleanup: the recorded identity first; when it is forbidden and the current identity is
      another usable one, that one. */
  predicate CleanupOk(first: Attempt, fallback: bool, second: Attempt) {
    first.Succeeded? || (first.Forbidden? && fallback && second.Succeeded?)
  }

  /** A request that was sent took effect: one that succeeded did, and a failed one may have (hit). */
  predicate Landed(first: Attempt, fallback: bool, second: Attempt, hit: bool) {
    hit || first == Succeeded || (first == Forbidden && fallback && second == Succeeded)
  }

  /** The executor's promises about a finished apply: every write of the cycle is reported, even
      on error, and a reported entry carries the uid of the object it names. */
  ghost predicate ApplyContract(s: State, c: Cycle, r: ApplyResult) {
    (forall k {:trigger k in c.written} :: k in c.written && k in s.live ==> k in Keys(r.applied))
    && (forall e {:trigger e in r.applied} :: e in r.applied && KeyOf(e) in s.live ==> e.uid == s.live[KeyOf(e)] != "")
    && c.contributed * s.patched <= Elements(r.contributions)
  }

  ghost predicate Enabled(s: State, a: Action) {
    match a
    case Crash => true
    case EnvDelete(_) => true
    case EnvRelease(_) => true
    case SpecChange => true
    case UserDelete => true
    case Fetch => s.phase.Idle? && s.server.present
    case AddFinalizer(_) => s.phase.Fetched?
    case GiveUp => s.phase.Finalized?
    case WriteManaged(intended, _) => s.phase.Finalized? && UidFree(intended)
    case WriteContribs(_, _) => s.phase.ManagedAhead?
    case Put(_, uid) => s.phase.Applying? && uid != ""
    case Patch(_) => s.phase.Applying?
    case EndApply(r) => s.phase.Applying? && ApplyContract(s, s.phase.c, r)
    case Retain(_) => s.phase.Applied?
    case Prune(_, removed, intendedNow) =>
      s.phase.Retained? && UidFree(intendedNow) && removed <= Doomed(Candidates(s.phase.c, s.phase.r), s.live)
    case Release(_, relinquished) => s.phase.Pruned? && relinquished <= Elements(ToRelease(s.phase.c, s.phase.r))
    case Record(_) => s.phase.Released?
    case WriteStatus(_) => s.phase.Closing? || s.phase.DeleteFailed?
    case DeleteOne(_, _, _, _) => s.phase.Deleting? && 0 < s.phase.left <= |s.m.managed|
    case EndDeletes => s.phase.Deleting? && s.phase.left == 0
    case ReleaseOne(_, _, _, _) => s.phase.Releasing? && s.phase.next < |s.m.contribs|
    case EndReleases => s.phase.Releasing? && s.phase.next == |s.m.contribs|
    case DropFinalizer(_) => s.phase.Unmanaging?
  }

  ghost function Candidates(c: Cycle, r: ApplyResult): seq<ManagedResource> {
    ToPrune(c.previous, r.applied, r.unresolved)
  }

  ghost function ToRelease(c: Cycle, r: ApplyResult): seq<Contribution> {
    Select(c.prior, x => x !in r.contributions)
  }

  ghost function Superset(c: Cycle, r: ApplyResult): seq<ManagedResource> {
    Union(c.intent, r.applied)
  }

  ghost function Step(s: State, a: Action): State
    requires Enabled(s, a)
  {
    match a
    case Crash => s.(phase := Idle)
    case EnvDelete(gone) => s.(live := s.live - gone)
    case EnvRelease(dropped) => s.(patched := s.patched - dropped)
    case SpecChange => s.(server := s.server.(generation := s.server.generation + 1))
    case UserDelete =>
      // Without a finalizer the API server removes the object at once.
      s.(server := s.server.(deleting := true, generation := s.server.generation + 1,
                             present := s.server.present && s.server.finalizer))
    case Fetch =>
      var m := Memory(s.server.generation, s.server.managed, s.server.contribs);
      s.(m := m, phase := if s.server.deleting then Phase.Deleting(|m.managed|, false) else Fetched)
    case AddFinalizer(w) =>
      // A vanished object cannot be patched.
      var added := s.(server := s.server.(finalizer := true));
      if s.server.finalizer || (s.server.present && w.Done?) then added.(phase := Finalized)
      else if s.server.present && w.FailedCommitted? then added.(phase := Idle)
      else s.(phase := Idle)
    case GiveUp => s.(phase := Closing({}))
    case WriteManaged(intended, w) => StepWriteManaged(s, intended, w)
    case WriteContribs(intendedC, w) => StepWriteContribs(s, intendedC, w)
    case Put(k, uid) => StepPut(s, k, uid)
    case Patch(c) => StepPatch(s, c)
    case EndApply(r) => s.(phase := Phase.Applied(s.phase.c, r))
    case Retain(w) => StepRetain(s, w)
    case Prune(ok, removed, intendedNow) => StepPrune(s, ok, removed, intendedNow)
    case Release(ok, relinquished) =>
      if ok then s.(patched := s.patched - Elements(ToRelease(s.phase.c, s.phase.r)), phase := Phase.Released(s.phase.c, s.phase.r))
      else s.(patched := s.patched - relinquished, phase := Closing(s.phase.c.written))
    case Record(w) =>
      var recorded := if w.FailedLost? then s else s.(server := s.server.(contribs := s.phase.r.contributions));
      recorded.(phase := Closing(s.phase.c.written))
    case WriteStatus(w) => StepWriteStatus(s, w)
    case DeleteOne(first, fallback, second, hit) => StepDeleteOne(s, CleanupOk(first, fallback, second), Landed(first, fallback, second, hit))
    case EndDeletes => s.(phase := if s.phase.failed then DeleteFailed else Phase.Releasing(0))
    case ReleaseOne(first, fallback, second, hit) =>
      var ok := CleanupOk(first, fallback, second);
      var c := s.m.contribs[s.phase.next];
      s.(patched := if Landed(first, fallback, second, hit) then s.patched - {c} else s.patched,
         phase := if ok then Phase.Releasing(s.phase.next + 1) else DeleteFailed)
    case EndReleases => s.(phase := Unmanaging)
    case DropFinalizer(w) =>
      var dropped := if w.FailedLost? then s
                     else s.(server := s.server.(finalizer := false, present := s.server.present && !s.server.deleting));
      dropped.(phase := Idle)
  }

  /** writeAheadIntent, managed half: written only when the union is longer than what is recorded. */
  ghost function StepWriteManaged(s: State, intended: seq<ManagedResource>, w: Write): State
    requires s.phase.Finalized?
  {
    var intent := Union(s.m.managed, intended);
    var c := Cycle(s.m.managed, s.m.contribs, intent, s.m.contribs, {}, {});
    if |intent| <= |s.m.managed| then s.(phase := ManagedAhead(c))
    else
      var union := Union(s.server.managed, intent);
      match w
      case Done => s.(server := s.server.(managed := union), m := s.m.(managed := union), phase := ManagedAhead(c))
      case FailedCommitted => s.(server := s.server.(managed := union), m := s.m.(managed := union), phase := Closing({}))
      case FailedLost => s.(m := s.m.(managed := intent), phase := Closing({}))
  }

  /** writeAheadIntent, contribution half. */
  ghost function StepWriteContribs(s: State, intendedC: seq<Contribution>, w: Write): State
    requires s.phase.ManagedAhead?
  {
    var merged := Merge(s.phase.c.prior + intendedC);
    var c := s.phase.c.(intentC := merged);
    if |merged| <= |s.phase.c.prior| then s.(phase := Phase.Applying(c))
    else
      match w
      case Done => s.(server := s.server.(contribs := merged), m := s.m.(contribs := merged), phase := Phase.Applying(c))
      case FailedCommitted => s.(server := s.server.(contribs := merged), phase := Closing({}))
      case FailedLost => s.(phase := Closing({}))
  }

  /** Apply creates or updates one object. */
  ghost function StepPut(s: State, k: ResourceKey, uid: string): State
    requires s.phase.Applying?
  {
    var live := s.live[k := uid];
    s.(live := live,
       adrift := if Tracked(s.server.managed, live, k) then s.adrift else s.adrift + {k},
       phase := Phase.Applying(s.phase.c.(written := s.phase.c.written + {k})))
  }

  /** Apply contributes fields to one target. */
  ghost function StepPatch(s: State, c: Contribution): State
    requires s.phase.Applying?
  {
    s.(patched := s.patched + {c},
       adriftC := if c in s.server.contribs then s.adriftC else s.adriftC + {c},
       phase := Phase.Applying(s.phase.c.(contributed := s.phase.c.contributed + {c})))
  }

  /** The ledger is widened before anything is pruned. */
  ghost function StepRetain(s: State, w: Write): State
    requires s.phase.Applied?
  {
    var retained := Merge(s.m.contribs + s.phase.r.contributions);
    var stop := s.(m := s.m.(managed := Superset(s.phase.c, s.phase.r)), phase := Closing(s.phase.c.written));
    match w
    case Done => s.(server := s.server.(contribs := retained), m := s.m.(contribs := retained),
                    adriftC := s.adriftC - s.phase.c.contributed, phase := Phase.Retained(s.phase.c, s.phase.r))
    case FailedCommitted => stop.(server := s.server.(contribs := retained))
    case FailedLost => stop
  }

  /** Pruning, unless the apply failed hard, and the inventory the cycle will publish. */
  ghost function StepPrune(s: State, ok: bool, removed: set<ResourceKey>, intendedNow: seq<ManagedResource>): State
    requires s.phase.Retained?
  {
    var c, r := s.phase.c, s.phase.r;
    var newSet := NewSet(c.previous, r.applied, r.unresolved);
    if r.outcome.HardError? then s.(m := s.m.(managed := Superset(c, r)), phase := Closing(c.written))
    else if !ok then s.(live := s.live - removed, m := s.m.(managed := Superset(c, r)), phase := Closing(c.written))
    else
      var pruned := s.(live := s.live - Doomed(Candidates(c, r), s.live));
      if r.outcome.Clean? then pruned.(m := s.m.(managed := newSet), phase := Phase.Pruned(c, r))
      else pruned.(m := s.m.(managed := Union(newSet, intendedNow)), phase := Closing(c.written))
  }

  /** updateStatus: a changed spec turns the replacement into a union. */
  ghost function StepWriteStatus(s: State, w: Write): State
    requires s.phase.Closing? || s.phase.DeleteFailed?
  {
    var managed := if s.server.generation == s.m.generation then s.m.managed else Union(s.server.managed, s.m.managed);
    var written := if s.phase.Closing? then s.phase.written else {};
    match w
    case Done => s.(server := s.server.(managed := managed), adrift := s.adrift - written, phase := Idle)
    case FailedCommitted => s.(server := s.server.(managed := managed), phase := Idle)
    case FailedLost => s.(phase := Idle)
  }

  /** Teardown walks the inventory backwards and keeps going past failures. */
  ghost function StepDeleteOne(s: State, ok: bool, landed: bool): State
    requires s.phase.Deleting? && 0 < s.phase.left <= |s.m.managed|
  {
    var e := s.m.managed[s.phase.left - 1];
    s.(live := if landed then s.live - Doomed([e], s.live) else s.live,
       phase := Phase.Deleting(s.phase.left - 1, s.phase.failed || !ok))
  }

  /* ---------- runs ---------- */

  ghost predicate Init(s: State) {
    s.phase.Idle? && s.live == map[] && s.patched == {} && s.adrift == {} && s.adriftC == {}
    && s.server.present && !s.server.finalizer && !s.server.deleting && s.server.managed == [] && s.server.contribs == []
  }

  ghost predicate StepAt(run: seq<State>, actions: seq<Action>, i: nat)
    requires i < |actions| == |run| - 1
  {
    Enabled(run[i], actions[i]) && run[i + 1] == Step(run[i], actions[i])
  }

  /** States visited by a sequence of actions from the first state on. */
  ghost predicate IsPath(run: seq<State>, actions: seq<Action>) {
    |run| == |actions| + 1
    && forall i {:trigger StepAt(run, actions, i)} :: 0 <= i < |actions| ==> StepAt(run, actions, i)
  }

  ghost predicate IsRun(run: seq<State>, actions: seq<Action>) {
    IsPath(run, actions) && Init(run[0])
  }

  /* ---------- what every step keeps ---------- */

  /** Nothing live escapes the persisted inventory but what is adrift. */
  ghost predicate Covered(s: State) {
    (forall k {:trigger k in s.live} :: k in s.live && k !in s.adrift ==> Tracked(s.server.managed, s.live, k))
    && s.patched - s.adriftC <= Elements(s.server.contribs)
  }

  /** Publishing ms would lose nothing tracked, and would record everything in `written`. */
  ghost predicate Publishable(s: State, ms: seq<ManagedResource>, written: set<ResourceKey>) {
    forall k {:trigger k in s.live} :: k in s.live ==>
      (k in written ==> Fresh(ms, s.live, k))
      && (k !in s.adrift && k !in written ==> Tracked(ms, s.live, k))
  }

  /** What the cycle saw before its apply still tracks whatever it has not written itself. */
  ghost predicate Remembers(s: State, c: Cycle) {
    (forall k {:trigger k in s.live} :: k in s.live && k !in s.adrift && k !in c.written ==> Tracked(c.previous, s.live, k))
    && s.patched - s.adriftC - c.contributed <= Elements(c.prior)
    && (exists intended :: UidFree(intended) && c.intent == Union(c.previous, intended))
  }

  ghost predicate Reported(s: State, c: Cycle, r: ApplyResult) {
    Remembers(s, c) && ApplyContract(s, c, r)
  }

  /** An entry that a Delete of it would no longer remove anything with. */
  ghost predicate Spent(ms: seq<ManagedResource>, from: nat, live: map<ResourceKey, string>) {
    forall i {:trigger ms[i]} :: from <= i < |ms| ==> !Hits(ms[i], live)
  }

  ghost predicate PhaseInv(s: State) {
    match s.phase
    case Idle => true
    case Fetched => s.m.managed == s.server.managed && s.m.contribs == s.server.contribs
    case Finalized => s.server.finalizer && s.m.managed == s.server.managed && s.m.contribs == s.server.contribs
    case ManagedAhead(c) =>
      s.server.finalizer && Remembers(s, c) && c.written == {} && c.contributed == {}
      && Publishable(s, s.m.managed, {}) && s.m.contribs == s.server.contribs == c.prior
    case Applying(c) => s.server.finalizer && Remembers(s, c) && s.m.contribs == s.server.contribs
    case Applied(c, r) => s.server.finalizer && Reported(s, c, r) && s.m.contribs == s.server.contribs
    case Retained(c, r) => s.server.finalizer && Reported(s, c, r)
    case Pruned(c, r) => s.server.finalizer && Reported(s, c, r) && Publishable(s, s.m.managed, c.written)
    case Released(c, r) =>
      s.server.finalizer && Publishable(s, s.m.managed, c.written) && s.patched - s.adriftC <= Elements(r.contributions)
    case Closing(written) => s.server.finalizer && Publishable(s, s.m.managed, written)
    case Deleting(left, failed) =>
      left <= |s.m.managed| && s.m.managed == s.server.managed && s.m.contribs == s.server.contribs
      && (!failed ==> Spent(s.m.managed, left, s.live))
    case Releasing(next) =>
      next <= |s.m.contribs| && s.m.contribs == s.server.contribs && s.m.managed == s.server.managed
      && s.live.Keys <= s.adrift && s.patched !! Elements(s.m.contribs[..next])
    case Unmanaging => s.live.Keys <= s.adrift && s.patched <= s.adriftC
    case DeleteFailed => s.m.managed == s.server.managed
  }

  /** Without a finalizer nothing is left behind but what is adrift. */
  ghost predicate NoOrphan(s: State) {
    !s.server.finalizer ==> s.live.Keys <= s.adrift && s.patched <= s.adriftC
  }

  ghost predicate Inv(s: State) {
    Covered(s) && PhaseInv(s) && NoOrphan(s) && (s.server.finalizer ==> s.server.present)
  }
}
