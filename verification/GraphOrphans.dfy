/** What the Graph controller's teardown can leave behind: exactly the writes that the persisted
    inventory does not track when they are made, and that nothing records afterwards. */
module GraphOrphans {
  import opened Collections
  import opened Tracking
  import opened GraphController
  import opened GraphSafety

  /* ---------- continuations ---------- */

  ghost predicate Reachable(s: State) {
    exists run, actions :: IsRun(run, actions) && run[|run| - 1] == s
  }

  lemma PathSnoc(run: seq<State>, actions: seq<Action>, a: Action)
    requires IsPath(run, actions) && Enabled(run[|run| - 1], a)
    ensures IsPath(run + [Step(run[|run| - 1], a)], actions + [a])
  {
    var run1, actions1 := run + [Step(run[|run| - 1], a)], actions + [a];
    forall i | 0 <= i < |actions1| ensures StepAt(run1, actions1, i) {
      assert i < |actions| ==> StepAt(run, actions, i);
    }
  }

  lemma Extend(s: State, a: Action)
    requires Reachable(s) && Enabled(s, a)
    ensures Reachable(Step(s, a))
  {
    var run, actions :| IsRun(run, actions) && run[|run| - 1] == s;
    PathSnoc(run, actions, a);
    var run1, actions1 := run + [Step(s, a)], actions + [a];
    assert IsRun(run1, actions1);
  }

  /** Along the way nothing is recorded: the persisted inventory and ledger stay what they were. */
  ghost predicate Unrecorded(run: seq<State>) {
    forall i {:trigger run[i]} :: 0 <= i < |run| ==>
      run[i].server.managed == run[0].server.managed && run[i].server.contribs == run[0].server.contribs
  }

  /** s leads to t by steps that record nothing. */
  ghost predicate Leads(s: State, t: State) {
    exists run, actions :: LeadsBy(s, t, run, actions)
  }

  ghost predicate LeadsBy(s: State, t: State, run: seq<State>, actions: seq<Action>) {
    IsPath(run, actions) && Unrecorded(run) && run[0] == s && run[|run| - 1] == t
  }

  lemma LeadsNowhere(s: State)
    ensures Leads(s, s)
  {
    assert LeadsBy(s, s, [s], []);
  }

  lemma LeadsFurther(s: State, t: State, a: Action)
    requires Leads(s, t) && Enabled(t, a)
    requires Step(t, a).server.managed == t.server.managed && Step(t, a).server.contribs == t.server.contribs
    ensures Leads(s, Step(t, a))
  {
    var run, actions :| LeadsBy(s, t, run, actions);
    PathSnoc(run, actions, a);
    var run1, actions1 := run + [Step(t, a)], actions + [a];
    assert t == run[|run| - 1];
    assert LeadsBy(s, Step(t, a), run1, actions1);
  }

  /** A state that is reached, and also led to from s. */
  ghost predicate Onward(s: State, t: State) {
    Reachable(t) && Leads(s, t) && t.server.managed == s.server.managed && t.server.contribs == s.server.contribs
  }

  lemma OnwardStep(s: State, t: State, a: Action) returns (u: State)
    requires Onward(s, t) && Enabled(t, a)
    requires Step(t, a).server.managed == t.server.managed && Step(t, a).server.contribs == t.server.contribs
    ensures u == Step(t, a) && Onward(s, u)
  {
    u := Step(t, a);
    Extend(t, a);
    LeadsFurther(s, t, a);
  }

  lemma ReachableInv(s: State)
    requires Reachable(s)
    ensures Inv(s)
  {
    var run, actions :| IsRun(run, actions) && run[|run| - 1] == s;
    RunKeepsInv(run, actions, |run| - 1);
  }

  /* ---------- a teardown in which everything succeeds ---------- */

  /** No entry of the inventory would delete k as it is now. */
  ghost predicate Missed(ms: seq<ManagedResource>, live: map<ResourceKey, string>, k: ResourceKey) {
    forall e {:trigger e in ms} :: e in ms && KeyOf(e) == k ==> !Hits(e, live)
  }

  /** From a cycle's apply: crash, deletion of the Graph by the user, and the start of teardown. */
  lemma StartTeardown(s: State) returns (t: State)
    requires Reachable(s) && s.phase.Applying?
    ensures Onward(s, t)
    ensures t.phase == Phase.Deleting(|t.m.managed|, false) && t.m.managed == t.server.managed && t.m.contribs == t.server.contribs
    ensures t.live == s.live && t.patched == s.patched && t.server.deleting
  {
    ReachableInv(s);
    LeadsNowhere(s);
    t := OnwardStep(s, s, Crash);
    t := OnwardStep(s, t, UserDelete);
    t := OnwardStep(s, t, Fetch);
  }

  /** Deletes that all succeed leave every object that no entry hits. */
  lemma {:induction false} RunDeletes(s: State, t: State, k: ResourceKey) returns (u: State)
    requires Onward(s, t) && t.phase.Deleting? && !t.phase.failed && t.phase.left <= |t.m.managed| && t.server.deleting
    ensures Onward(s, u) && u.phase == Phase.Deleting(0, false) && u.server.deleting && u.m == t.m
    ensures u.patched == t.patched
    ensures k in t.live && Missed(t.m.managed, t.live, k) ==> k in u.live && u.live[k] == t.live[k]
    decreases if t.phase.Deleting? then t.phase.left else 0
  {
    if t.phase.left == 0 {
      u := t;
    } else {
      var d := DeleteOne(Succeeded, false, Succeeded, false);
      var e := t.m.managed[t.phase.left - 1];
      assert e in t.m.managed;
      u := OnwardStep(s, t, d);
      assert u.live == t.live - Doomed([e], t.live);
      if k in t.live && Missed(t.m.managed, t.live, k) {
        StillMissed(t.m.managed, t.live, u.live, k);
      }
      u := RunDeletes(s, u, k);
    }
  }

  lemma StillMissed(ms: seq<ManagedResource>, live: map<ResourceKey, string>, fewer: map<ResourceKey, string>, k: ResourceKey)
    requires Missed(ms, live, k) && k in fewer && k in live && fewer[k] == live[k]
    ensures Missed(ms, fewer, k)
  {
  }

  /** Releases that all succeed leave every contribution that the ledger does not name. */
  lemma {:induction false} RunReleases(s: State, t: State, c: Contribution) returns (u: State)
    requires Onward(s, t) && t.phase.Releasing? && t.phase.next <= |t.m.contribs| && t.server.deleting
    ensures Onward(s, u) && u.phase == Phase.Releasing(|u.m.contribs|) && u.server.deleting
    ensures u.live == t.live
    ensures c in t.patched && c !in t.m.contribs ==> c in u.patched
    decreases if t.phase.Releasing? then |t.m.contribs| - t.phase.next else 0
  {
    if t.phase.next == |t.m.contribs| {
      u := t;
    } else {
      assert t.m.contribs[t.phase.next] in t.m.contribs;
      u := OnwardStep(s, t, ReleaseOne(Succeeded, false, Succeeded, false));
      u := RunReleases(s, u, c);
    }
  }

  /** The whole teardown: what no entry hits, and what the ledger does not name, outlives it. */
  lemma Teardown(s: State, k: ResourceKey, c: Contribution) returns (u: State)
    requires Reachable(s) && s.phase.Applying?
    ensures Onward(s, u) && !u.server.finalizer && !u.server.present
    ensures k in s.live && Missed(s.server.managed, s.live, k) ==> k in u.live && u.live[k] == s.live[k]
    ensures c in s.patched && c !in s.server.contribs ==> c in u.patched
  {
    u := StartTeardown(s);
    u := RunDeletes(s, u, k);
    u := OnwardStep(s, u, EndDeletes);
    u := RunReleases(s, u, c);
    u := OnwardStep(s, u, EndReleases);
    u := OnwardStep(s, u, DropFinalizer(Done));
  }

  /* ---------- what a teardown does not miss ---------- */

  /** The object is gone once teardown has passed the deletes, and whenever the finalizer is. */
  ghost predicate GoneInTime(s: State, k: ResourceKey, uid: string) {
    s.phase.Releasing? || s.phase.Unmanaging? || !s.server.finalizer ==> !(k in s.live && s.live[k] == uid)
  }

  /** While the inventory stays ms, and ms hits k under this uid, teardown deletes it first. */
  ghost predicate Caught(s: State, ms: seq<ManagedResource>, k: ResourceKey, uid: string) {
    Inv(s) && s.server.managed == ms && GoneInTime(s, k, uid)
  }

  /** Passing the deletes without a failure means that every entry was deleted. */
  lemma EndDeletesGone(s: State, k: ResourceKey, uid: string, e: ManagedResource)
    requires PhaseInv(s) && GoneInTime(s, k, uid) && Enabled(s, EndDeletes)
    requires e in s.server.managed && KeyOf(e) == k && (e.uid == "" || e.uid == uid)
    ensures GoneInTime(Step(s, EndDeletes), k, uid)
  {
    if !s.phase.failed {
      var i :| 0 <= i < |s.m.managed| && s.m.managed[i] == e;
      assert !Hits(s.m.managed[i], s.live);
    }
  }

  lemma EnvironmentGone(s: State, a: Action, k: ResourceKey, uid: string)
    requires GoneInTime(s, k, uid) && Enabled(s, a) && IsEnvironment(a)
    ensures GoneInTime(Step(s, a), k, uid)
  {
  }

  /** Objects come only while the finalizer is there, ... */
  lemma WritingGone(s: State, a: Action, k: ResourceKey, uid: string)
    requires PhaseInv(s) && GoneInTime(s, k, uid) && Enabled(s, a) && IsWriting(a)
    ensures GoneInTime(Step(s, a), k, uid)
  {
  }

  /** ... and no other step passes the deletes. */
  lemma OthersGone(s: State, a: Action, k: ResourceKey, uid: string)
    requires PhaseInv(s) && GoneInTime(s, k, uid) && Enabled(s, a)
    requires !a.EndDeletes? && !IsEnvironment(a) && !IsWriting(a)
    ensures GoneInTime(Step(s, a), k, uid)
  {
  }

  lemma StepCaught(s: State, a: Action, ms: seq<ManagedResource>, k: ResourceKey, uid: string, e: ManagedResource)
    requires Caught(s, ms, k, uid) && Enabled(s, a) && Step(s, a).server.managed == ms
    requires e in ms && KeyOf(e) == k && (e.uid == "" || e.uid == uid)
    ensures Caught(Step(s, a), ms, k, uid)
  {
    StepKeepsInv(s, a);
    if a.EndDeletes? {
      EndDeletesGone(s, k, uid, e);
    } else if IsEnvironment(a) {
      EnvironmentGone(s, a, k, uid);
    } else if IsWriting(a) {
      WritingGone(s, a, k, uid);
    } else {
      OthersGone(s, a, k, uid);
    }
  }

  lemma {:induction false} PathCaught(run: seq<State>, actions: seq<Action>, i: nat, k: ResourceKey, uid: string, e: ManagedResource)
    requires IsPath(run, actions) && Unrecorded(run) && i < |run|
    requires Inv(run[0]) && run[0].phase.Applying?
    requires e in run[0].server.managed && KeyOf(e) == k && (e.uid == "" || e.uid == uid)
    ensures Caught(run[i], run[0].server.managed, k, uid)
  {
    if i > 0 {
      PathCaught(run, actions, i - 1, k, uid, e);
      assert StepAt(run, actions, i - 1);
      StepCaught(run[i - 1], actions[i - 1], run[0].server.managed, k, uid, e);
    }
  }

  ghost predicate ReleasedInTime(s: State, c: Contribution) {
    s.phase.Unmanaging? || !s.server.finalizer ==> c !in s.patched
  }

  ghost predicate CaughtC(s: State, cs: seq<Contribution>, c: Contribution) {
    Inv(s) && s.server.contribs == cs && ReleasedInTime(s, c)
  }

  lemma StepReleases(s: State, a: Action, c: Contribution)
    requires PhaseInv(s) && ReleasedInTime(s, c) && Enabled(s, a) && c in Elements(s.server.contribs)
    ensures ReleasedInTime(Step(s, a), c)
  {
    if a.EndReleases? {
      assert s.m.contribs[..s.phase.next] == s.m.contribs;
    }
  }

  lemma StepCaughtC(s: State, a: Action, cs: seq<Contribution>, c: Contribution)
    requires CaughtC(s, cs, c) && Enabled(s, a) && Step(s, a).server.contribs == cs && c in cs
    ensures CaughtC(Step(s, a), cs, c)
  {
    StepKeepsInv(s, a);
    StepReleases(s, a, c);
  }

  lemma {:induction false} PathCaughtC(run: seq<State>, actions: seq<Action>, i: nat, c: Contribution)
    requires IsPath(run, actions) && Unrecorded(run) && i < |run|
    requires Inv(run[0]) && run[0].phase.Applying? && c in run[0].server.contribs
    ensures CaughtC(run[i], run[0].server.contribs, c)
  {
    if i > 0 {
      PathCaughtC(run, actions, i - 1, c);
      assert StepAt(run, actions, i - 1);
      StepCaughtC(run[i - 1], actions[i - 1], run[0].server.contribs, c);
    }
  }

  /* ---------- the exact conditions ---------- */

  /** The finalizer can go while the object under this uid lives on, though nothing is recorded. */
  ghost predicate ObjectCanOutlive(s: State, k: ResourceKey, uid: string) {
    exists t :: Leads(s, t) && !t.server.finalizer && k in t.live && t.live[k] == uid
  }

  ghost predicate ContributionCanOutlive(s: State, c: Contribution) {
    exists t :: Leads(s, t) && !t.server.finalizer && c in t.patched
  }

  /** An object written while no entry of the inventory hits it is left behind by some run in which
      every later request succeeds. */
  lemma UntrackedWriteOrphans(s0: State, k: ResourceKey, uid: string) returns (s: State)
    requires Reachable(s0) && Enabled(s0, Put(k, uid)) && Missed(s0.server.managed, s0.live[k := uid], k)
    ensures Reachable(s) && Leads(Step(s0, Put(k, uid)), s)
    ensures !s.server.finalizer && !s.server.present && k in s.live && s.live[k] == uid
  {
    var s1 := Step(s0, Put(k, uid));
    Extend(s0, Put(k, uid));
    var c: Contribution := Contribution("", "", "", "", "", "");
    s := Teardown(s1, k, c);
  }

  lemma UntrackedPatchOrphans(s0: State, c: Contribution) returns (s: State)
    requires Reachable(s0) && Enabled(s0, Patch(c)) && c !in s0.server.contribs
    ensures Reachable(s) && Leads(Step(s0, Patch(c)), s)
    ensures !s.server.finalizer && !s.server.present && c in s.patched
  {
    var s1 := Step(s0, Patch(c));
    Extend(s0, Patch(c));
    s := Teardown(s1, Key("", "", "", ""), c);
  }

  /** A written object that nothing records afterwards can outlive the finalizer if and only if no
      entry of the inventory hits it at the moment of the write; for an inventory without repeated
      identities, if and only if it is not tracked at that moment. */
  lemma OutlivesIffUntracked(s0: State, k: ResourceKey, uid: string)
    requires Reachable(s0) && Enabled(s0, Put(k, uid))
    ensures ObjectCanOutlive(Step(s0, Put(k, uid)), k, uid) <==> Missed(s0.server.managed, s0.live[k := uid], k)
    ensures KeyUnique(s0.server.managed) ==>
              (Missed(s0.server.managed, s0.live[k := uid], k) <==> !Tracked(s0.server.managed, s0.live[k := uid], k))
  {
    var s1, live := Step(s0, Put(k, uid)), s0.live[k := uid];
    Extend(s0, Put(k, uid));
    ReachableInv(s1);
    if Missed(s0.server.managed, live, k) {
      var s := UntrackedWriteOrphans(s0, k, uid);
    } else {
      var e :| e in s0.server.managed && KeyOf(e) == k && Hits(e, live);
      forall t | Leads(s1, t) ensures t.server.finalizer || !(k in t.live && t.live[k] == uid) {
        var run, actions :| LeadsBy(s1, t, run, actions);
        PathCaught(run, actions, |run| - 1, k, uid, e);
      }
    }
    if KeyUnique(s0.server.managed) {
      UniqueTracked(s0.server.managed, live, k);
    }
  }

  lemma UniqueTracked(ms: seq<ManagedResource>, live: map<ResourceKey, string>, k: ResourceKey)
    requires KeyUnique(ms) && k in live
    ensures Missed(ms, live, k) <==> !Tracked(ms, live, k)
  {
    if e :| e in ms && KeyOf(e) == k {
      forall x | x in ms && KeyOf(x) == k ensures x == e {
        var i :| 0 <= i < |ms| && ms[i] == x;
        var j :| 0 <= j < |ms| && ms[j] == e;
      }
    }
  }

  /** The same for a contribution: exactly when the ledger does not name it at that moment. */
  lemma ContributionOutlivesIffUnrecorded(s0: State, c: Contribution)
    requires Reachable(s0) && Enabled(s0, Patch(c))
    ensures ContributionCanOutlive(Step(s0, Patch(c)), c) <==> c !in s0.server.contribs
  {
    var s1 := Step(s0, Patch(c));
    Extend(s0, Patch(c));
    ReachableInv(s1);
    if c !in s0.server.contribs {
      var s := UntrackedPatchOrphans(s0, c);
    } else {
      forall t | Leads(s1, t) ensures t.server.finalizer || c !in t.patched {
        var run, actions :| LeadsBy(s1, t, run, actions);
        PathCaughtC(run, actions, |run| - 1, c);
      }
    }
  }

  /* ---------- an instance ---------- */

  /** A resource, its write-ahead entry, and the merges that meet it. */
  lemma EntryFacts(e: ManagedResource, ahead: ManagedResource)
    requires ahead == e.(uid := "")
    ensures KeyOf(ahead) == KeyOf(e) && Keys([e]) == {KeyOf(e)} && Keys([]) == {}
    ensures Union([], [e]) == [e] && Union([e], [ahead]) == [e]
  {
    var none: seq<ManagedResource> := [];
    assert none + [e] == [e] && [e][..0] == none;
    assert AddAll(none, [e]) == [e];
    assert ([e] + [ahead])[..1] == [e];
  }

  lemma EmptyMerge()
    ensures Merge([] + []) == []
  {
    var none: seq<Contribution> := [];
    assert none + none == none;
  }

  /** A state of a healthy run. */
  ghost function At(managed: seq<ManagedResource>, live: map<ResourceKey, string>, m: seq<ManagedResource>, phase: Phase): State {
    State(Server(true, true, false, 0, managed, []), live, {}, Memory(0, m, []), phase, {}, {})
  }

  lemma Began() returns (s: State)
    ensures Reachable(s) && s == At([], map[], [], Finalized)
  {
    s := State(Server(true, false, false, 0, [], []), map[], {}, Memory(0, [], []), Idle, {}, {});
    assert Reachable(s) by {
      var run := [s];
      assert IsRun(run, []) && run[|run| - 1] == s;
    }
    Extend(s, Fetch);
    s := Step(s, Fetch);
    Extend(s, AddFinalizer(Done));
    s := Step(s, AddFinalizer(Done));
  }

  lemma AheadOne(s0: State, ahead: ManagedResource) returns (s: State)
    requires ahead.uid == "" && Reachable(s0) && s0 == At([], map[], [], Finalized)
    ensures Reachable(s)
    ensures s == At([ahead], map[], [ahead], ManagedAhead(Cycle([], [], [ahead], [], {}, {})))
  {
    EntryFacts(ahead, ahead);
    Extend(s0, WriteManaged([ahead], Done));
    s := Step(s0, WriteManaged([ahead], Done));
  }

  lemma PutOne(s0: State, e: ManagedResource, ahead: ManagedResource) returns (s: State)
    requires ahead == e.(uid := "") && e.uid != "" && Reachable(s0) && s0 == At([], map[], [], Finalized)
    ensures Reachable(s)
    ensures s == At([ahead], map[KeyOf(e) := e.uid], [ahead], Phase.Applying(Cycle([], [], [ahead], [], {KeyOf(e)}, {})))
  {
    EmptyMerge();
    EntryFacts(ahead, ahead);
    s := AheadOne(s0, ahead);
    Extend(s, WriteContribs([], Done));
    s := Step(s, WriteContribs([], Done));
    assert Tracked([ahead], map[KeyOf(e) := e.uid], KeyOf(e));
    assert {} + {KeyOf(e)} == {KeyOf(e)};
    Extend(s, Put(KeyOf(e), e.uid));
    s := Step(s, Put(KeyOf(e), e.uid));
  }

  lemma ReportOne(s0: State, e: ManagedResource, ahead: ManagedResource, r: ApplyResult) returns (s: State)
    requires ahead == e.(uid := "") && e.uid != "" && r == ApplyResult([e], {}, [], Clean) && Reachable(s0)
    requires s0 == At([ahead], map[KeyOf(e) := e.uid], [ahead], Phase.Applying(Cycle([], [], [ahead], [], {KeyOf(e)}, {})))
    ensures Reachable(s)
    ensures s == At([ahead], map[KeyOf(e) := e.uid], [ahead], Phase.Retained(Cycle([], [], [ahead], [], {KeyOf(e)}, {}), r))
  {
    EntryFacts(e, ahead);
    EmptyMerge();
    Extend(s0, EndApply(r));
    s := Step(s0, EndApply(r));
    Extend(s, Retain(Done));
    s := Step(s, Retain(Done));
  }

  lemma Converge(s0: State, e: ManagedResource, ahead: ManagedResource, r: ApplyResult) returns (s: State)
    requires ahead == e.(uid := "") && e.uid != "" && r == ApplyResult([e], {}, [], Clean) && Reachable(s0)
    requires s0 == At([ahead], map[KeyOf(e) := e.uid], [ahead], Phase.Retained(Cycle([], [], [ahead], [], {KeyOf(e)}, {}), r))
    ensures Reachable(s)
    ensures s == At([ahead], map[KeyOf(e) := e.uid], [e], Phase.Pruned(Cycle([], [], [ahead], [], {KeyOf(e)}, {}), r))
  {
    assert NewSet([], [e], {}) == [e];
    assert Doomed([], s0.live) == {};
    assert s0.live - {} == s0.live;
    Extend(s0, Prune(true, {}, []));
    s := Step(s0, Prune(true, {}, []));
  }

  /** A first cycle that converges: one object, recorded with its uid. */
  lemma FirstCycle(e: ManagedResource, ahead: ManagedResource) returns (s: State)
    requires ahead == e.(uid := "") && e.uid != ""
    ensures Reachable(s) && s.phase.Idle? && s.server == Server(true, true, false, 0, [e], [])
    ensures s.live == map[KeyOf(e) := e.uid]
  {
    s := Began();
    s := PutOne(s, e, ahead);
    s := ReportOne(s, e, ahead, ApplyResult([e], {}, [], Clean));
    s := Converge(s, e, ahead, ApplyResult([e], {}, [], Clean));
    Extend(s, Release(true, {}));
    s := Step(s, Release(true, {}));
    Extend(s, Record(Done));
    s := Step(s, Record(Done));
    Extend(s, WriteStatus(Done));
    s := Step(s, WriteStatus(Done));
  }

  /** The next cycle, up to its apply, after the object was deleted behind the controller's back. */
  lemma DeletedBehind(s0: State, e: ManagedResource, ahead: ManagedResource) returns (s: State)
    requires Reachable(s0) && s0.phase.Idle? && s0.server == Server(true, true, false, 0, [e], [])
    requires s0.live == map[KeyOf(e) := e.uid] && ahead == e.(uid := "")
    ensures Reachable(s) && s.phase.ManagedAhead? && s.phase.c.prior == [] && s.server == s0.server && s.live == map[]
  {
    EntryFacts(e, ahead);
    s := s0;
    Extend(s, EnvDelete({KeyOf(e)}));
    s := Step(s, EnvDelete({KeyOf(e)}));
    Extend(s, Fetch);
    s := Step(s, Fetch);
    Extend(s, AddFinalizer(Done));
    s := Step(s, AddFinalizer(Done));
    Extend(s, WriteManaged([ahead], Done));
    s := Step(s, WriteManaged([ahead], Done));
  }

  /** For example any recorded object, deleted behind the controller's back and recreated by the next
      apply under a new uid, with a crash before that uid is recorded: the recorded entry carries the
      old uid and hits nothing. */
  lemma RecreateThenCrashOrphans(e: ManagedResource, uid: string) returns (s: State)
    requires e.uid != "" && uid != "" && uid != e.uid
    ensures Reachable(s) && !s.server.finalizer && !s.server.present
    ensures KeyOf(e) in s.live
  {
    var ahead := e.(uid := "");
    s := FirstCycle(e, ahead);
    s := DeletedBehind(s, e, ahead);
    EmptyMerge();
    Extend(s, WriteContribs([], Done));
    s := Step(s, WriteContribs([], Done));
    s := UntrackedWriteOrphans(s, KeyOf(e), uid);
  }
}
