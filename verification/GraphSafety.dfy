/** Crash safety of the Graph controller: over every run, with a crash possible between any two
    API calls, the persisted inventory covers everything live, and the finalizer goes only when
    nothing is left. */
module GraphSafety {
  import opened Collections
  import opened Tracking
  import opened GraphController

  /* ---------- how the merges treat uids ---------- */

  lemma {:induction false} LastUidRecorded(s: seq<ManagedResource>, k: ResourceKey) returns (e: ManagedResource)
    ensures LastUid(s, k) != "" ==> e in s && KeyOf(e) == k && e.uid == LastUid(s, k)
  {
    e := MR("", "", "", "", "", "", "");
    if s != [] {
      var r := s[|s| - 1];
      if KeyOf(r) == k && r.uid != "" {
        e := r;
      } else {
        e := LastUidRecorded(s[..|s| - 1], k);
      }
    }
  }

  lemma {:induction false} LastUidConcat(a: seq<ManagedResource>, b: seq<ManagedResource>, k: ResourceKey)
    ensures LastUid(a + b, k) == if LastUid(b, k) != "" then LastUid(b, k) else LastUid(a, k)
  {
    if b == [] {
      assert a + b == a;
    } else {
      var n := |b| - 1;
      assert (a + b)[..|a + b| - 1] == a + b[..n];
      LastUidConcat(a, b[..n], k);
    }
  }

  lemma {:induction false} LastUidSet(s: seq<ManagedResource>, k: ResourceKey, e: ManagedResource)
    requires e in s && KeyOf(e) == k && e.uid != ""
    ensures LastUid(s, k) != ""
  {
    var n := |s| - 1;
    if e != s[n] {
      assert s == s[..n] + [s[n]];
      LastUidSet(s[..n], k, e);
    }
  }

  /** Every surviving entry carries the last uid recorded for it. */
  lemma UnionUid(a: seq<ManagedResource>, b: seq<ManagedResource>, e: ManagedResource)
    requires e in Union(a, b)
    ensures e.uid == if LastUid(b, KeyOf(e)) != "" then LastUid(b, KeyOf(e)) else LastUid(a, KeyOf(e))
  {
    var i :| 0 <= i < |Union(a, b)| && Union(a, b)[i] == e;
    UnionEntry(a + b, i);
    LastUidConcat(a, b, KeyOf(e));
  }

  lemma UnionTracked(a: seq<ManagedResource>, b: seq<ManagedResource>, live: map<ResourceKey, string>, k: ResourceKey)
    requires Tracked(a, live, k) || (k !in Keys(a) && Tracked(b, live, k))
    requires Tracked(b, live, k) || k !in Keys(b)
    ensures Tracked(Union(a, b), live, k)
  {
    UnionCovers(a, b);
    forall e | e in Union(a, b) && KeyOf(e) == k ensures Hits(e, live) {
      UnionUid(a, b, e);
      var ea := LastUidRecorded(a, k);
      var eb := LastUidRecorded(b, k);
    }
  }

  lemma UnionFresh(a: seq<ManagedResource>, b: seq<ManagedResource>, live: map<ResourceKey, string>, k: ResourceKey)
    requires Fresh(b, live, k) || (Fresh(a, live, k) && UidFree(b))
    ensures Fresh(Union(a, b), live, k)
  {
    UnionCovers(a, b);
    forall e | e in Union(a, b) && KeyOf(e) == k ensures e.uid == live[k] {
      UnionUid(a, b, e);
      var ea := LastUidRecorded(a, k);
      var eb := LastUidRecorded(b, k);
      if Fresh(b, live, k) {
        var x :| x in b && KeyOf(x) == k;
        LastUidSet(b, k, x);
      } else {
        var x :| x in a && KeyOf(x) == k;
        LastUidSet(a, k, x);
      }
    }
  }

  lemma FreshTracked(ms: seq<ManagedResource>, live: map<ResourceKey, string>, k: ResourceKey)
    requires Fresh(ms, live, k)
    ensures Tracked(ms, live, k)
  {
  }

  lemma UidFreeTracks(ms: seq<ManagedResource>, live: map<ResourceKey, string>, k: ResourceKey)
    requires UidFree(ms) && k in live
    ensures Tracked(ms, live, k) || k !in Keys(ms)
  {
  }

  /** Merging uid-free intent into an inventory loses nothing it tracks. */
  lemma IntentTracked(previous: seq<ManagedResource>, intended: seq<ManagedResource>, live: map<ResourceKey, string>, k: ResourceKey)
    requires Tracked(previous, live, k) && UidFree(intended)
    ensures Tracked(Union(previous, intended), live, k)
  {
    UidFreeTracks(intended, live, k);
    UnionTracked(previous, intended, live, k);
  }

  /* ---------- the world shrinking ---------- */

  /** Objects that vanish, by whatever cause, break nothing. */
  lemma ShrinkKeepsTracked(ms: seq<ManagedResource>, live: map<ResourceKey, string>, gone: set<ResourceKey>, k: ResourceKey)
    requires k in live - gone
    ensures Tracked(ms, live, k) ==> Tracked(ms, live - gone, k)
    ensures Fresh(ms, live, k) ==> Fresh(ms, live - gone, k)
  {
  }

  lemma ShrinkPublishable(s: State, t: State, ms: seq<ManagedResource>, written: set<ResourceKey>, gone: set<ResourceKey>)
    requires t.live == s.live - gone && t.adrift == s.adrift && Publishable(s, ms, written)
    ensures Publishable(t, ms, written)
  {
    forall k | k in t.live
      ensures (k in written ==> Fresh(ms, t.live, k)) && (k !in t.adrift && k !in written ==> Tracked(ms, t.live, k))
    {
      ShrinkKeepsTracked(ms, s.live, gone, k);
    }
  }

  lemma ShrinkRemembers(s: State, t: State, c: Cycle, gone: set<ResourceKey>)
    requires t.live == s.live - gone && t.adrift == s.adrift && t.patched <= s.patched && t.adriftC == s.adriftC
    requires Remembers(s, c)
    ensures Remembers(t, c)
  {
    forall k | k in t.live && k !in t.adrift && k !in c.written ensures Tracked(c.previous, t.live, k) {
      ShrinkKeepsTracked(c.previous, s.live, gone, k);
    }
  }

  lemma ShrinkCovered(s: State, t: State, gone: set<ResourceKey>)
    requires Covered(s) && t.server.managed == s.server.managed && t.server.contribs == s.server.contribs
    requires t.live == s.live - gone && t.adrift == s.adrift && t.patched <= s.patched && t.adriftC == s.adriftC
    ensures Covered(t)
  {
    forall k | k in t.live && k !in t.adrift ensures Tracked(t.server.managed, t.live, k) {
      ShrinkKeepsTracked(s.server.managed, s.live, gone, k);
    }
  }

  lemma ShrinkPhase(s: State, t: State, gone: set<ResourceKey>)
    requires PhaseInv(s) && t.phase == s.phase && t.m == s.m
    requires t.server.managed == s.server.managed && t.server.contribs == s.server.contribs && t.server.finalizer == s.server.finalizer
    requires t.live == s.live - gone && t.adrift == s.adrift && t.patched <= s.patched && t.adriftC == s.adriftC
    ensures PhaseInv(t)
  {
    match s.phase
    case ManagedAhead(c) =>
      ShrinkRemembers(s, t, c, gone);
      ShrinkPublishable(s, t, s.m.managed, {}, gone);
    case Applying(c) => ShrinkRemembers(s, t, c, gone);
    case Applied(c, r) => ShrinkRemembers(s, t, c, gone);
    case Retained(c, r) => ShrinkRemembers(s, t, c, gone);
    case Pruned(c, r) =>
      ShrinkRemembers(s, t, c, gone);
      ShrinkPublishable(s, t, s.m.managed, c.written, gone);
    case Released(c, r) => ShrinkPublishable(s, t, s.m.managed, c.written, gone);
    case Closing(written) => ShrinkPublishable(s, t, s.m.managed, written, gone);
    case _ =>
  }

  /* ---------- one lemma per step that needs an argument ---------- */

  /** A cycle that changes nothing publishes what it read. */
  lemma UnchangedPublishable(s: State)
    requires Covered(s) && s.m.managed == s.server.managed
    ensures Publishable(s, s.m.managed, {})
  {
  }

  lemma WriteManagedKeeps(s: State, intended: seq<ManagedResource>, w: Write)
    requires Inv(s) && Enabled(s, WriteManaged(intended, w))
    ensures Inv(Step(s, WriteManaged(intended, w)))
  {
    var t := StepWriteManaged(s, intended, w);
    var intent := Union(s.m.managed, intended);
    var union := Union(s.server.managed, intent);
    UnchangedPublishable(s);
    forall k | k in s.live && k !in s.adrift
      ensures Tracked(intent, s.live, k) && Tracked(union, s.live, k)
    {
      IntentTracked(s.m.managed, intended, s.live, k);
      UnionTracked(s.server.managed, intent, s.live, k);
    }
  }

  lemma WriteContribsKeeps(s: State, intendedC: seq<Contribution>, w: Write)
    requires Inv(s) && Enabled(s, WriteContribs(intendedC, w))
    ensures Inv(Step(s, WriteContribs(intendedC, w)))
  {
    var c := s.phase.c;
    var t := StepWriteContribs(s, intendedC, w);
    assert Elements(c.prior) <= Elements(Merge(c.prior + intendedC)) by {
      assert Elements(c.prior + intendedC) == Elements(c.prior) + Elements(intendedC);
    }
    assert Remembers(t, c.(intentC := Merge(c.prior + intendedC)));
  }

  lemma PutKeeps(s: State, k: ResourceKey, uid: string)
    requires Inv(s) && Enabled(s, Put(k, uid))
    ensures Inv(Step(s, Put(k, uid)))
  {
    var t := StepPut(s, k, uid);
    forall j | j in t.live && j !in t.adrift ensures Tracked(t.server.managed, t.live, j) {
      if j != k { assert Tracked(s.server.managed, s.live, j); }
    }
    var c := t.phase.c;
    forall j | j in t.live && j !in t.adrift && j !in c.written ensures Tracked(c.previous, t.live, j) {
      assert Tracked(s.phase.c.previous, s.live, j);
    }
    assert Remembers(t, c);
  }

  /** Everything tracked before, and everything written, is in the union of intent and applied. */
  lemma SupersetPublishable(s: State, c: Cycle, r: ApplyResult)
    requires Reported(s, c, r)
    ensures Publishable(s, Superset(c, r), c.written)
  {
    var intended :| UidFree(intended) && c.intent == Union(c.previous, intended);
    forall k | k in s.live
      ensures (k in c.written ==> Fresh(Superset(c, r), s.live, k))
              && (k !in s.adrift && k !in c.written ==> Tracked(Superset(c, r), s.live, k))
    {
      if k in Keys(r.applied) {
        UnionFresh(c.intent, r.applied, s.live, k);
        FreshTracked(Superset(c, r), s.live, k);
      } else if k !in s.adrift && k !in c.written {
        IntentTracked(c.previous, intended, s.live, k);
        UnionTracked(c.intent, r.applied, s.live, k);
      }
    }
  }

  lemma RetainKeeps(s: State, w: Write)
    requires Inv(s) && Enabled(s, Retain(w))
    ensures Inv(Step(s, Retain(w)))
  {
    var c, r := s.phase.c, s.phase.r;
    var t := StepRetain(s, w);
    SupersetPublishable(s, c, r);
    var retained := Merge(s.m.contribs + r.contributions);
    assert Elements(retained) == Elements(s.m.contribs) + Elements(r.contributions) by {
      assert Elements(s.m.contribs + r.contributions) == Elements(s.m.contribs) + Elements(r.contributions);
    }
    assert c.contributed * s.patched <= Elements(r.contributions);
    if w.Done? {
      assert t.patched - t.adriftC <= Elements(retained);
      assert Remembers(t, c);
    }
  }

  /** What survives a successful prune and was not written this cycle is in the new set. */
  lemma NewSetPublishable(s: State, c: Cycle, r: ApplyResult, live: map<ResourceKey, string>)
    requires Reported(s, c, r) && live == s.live - Doomed(Candidates(c, r), s.live)
    ensures Publishable(s.(live := live), NewSet(c.previous, r.applied, r.unresolved), c.written)
  {
    var newSet := NewSet(c.previous, r.applied, r.unresolved);
    DiffPartitions(c.previous, r.applied, r.unresolved);
    forall k | k in live
      ensures (k in c.written ==> Fresh(newSet, live, k))
              && (k !in s.adrift && k !in c.written ==> Tracked(newSet, live, k))
    {
      var kept := Select(c.previous, x => Kept(Keys(r.applied), r.unresolved, x));
      assert newSet == r.applied + kept;
      if k in Keys(r.applied) {
        InLeft(r.applied, kept, k);
        forall e | e in newSet && KeyOf(e) == k ensures e.uid == live[k] != "" {
          assert e in r.applied || e in kept;
        }
      } else if k !in s.adrift && k !in c.written {
        assert Tracked(c.previous, s.live, k);
        var e :| e in c.previous && KeyOf(e) == k;
        assert Hits(e, s.live);
        assert e in Candidates(c, r) ==> KeyOf(e) in Doomed(Candidates(c, r), s.live);
        assert e in newSet;
        forall x | x in newSet && KeyOf(x) == k ensures Hits(x, live) {
          assert x in r.applied ==> k in Keys(r.applied);
          assert x in c.previous;
        }
      }
    }
  }

  lemma InLeft(a: seq<ManagedResource>, b: seq<ManagedResource>, k: ResourceKey)
    requires k in Keys(a)
    ensures k in Keys(a + b)
  {
    var e :| e in a && KeyOf(e) == k;
    assert e in a + b;
  }

  lemma IntentPublishable(s: State, ms: seq<ManagedResource>, intended: seq<ManagedResource>, written: set<ResourceKey>)
    requires Publishable(s, ms, written) && UidFree(intended)
    ensures Publishable(s, Union(ms, intended), written)
  {
    forall k | k in s.live
      ensures (k in written ==> Fresh(Union(ms, intended), s.live, k))
              && (k !in s.adrift && k !in written ==> Tracked(Union(ms, intended), s.live, k))
    {
      if k in written {
        UnionFresh(ms, intended, s.live, k);
      } else if k !in s.adrift {
        IntentTracked(ms, intended, s.live, k);
      }
    }
  }

  lemma PruneKeeps(s: State, ok: bool, removed: set<ResourceKey>, intendedNow: seq<ManagedResource>)
    requires Inv(s) && Enabled(s, Prune(ok, removed, intendedNow))
    ensures Inv(Step(s, Prune(ok, removed, intendedNow)))
  {
    var c, r := s.phase.c, s.phase.r;
    var t := StepPrune(s, ok, removed, intendedNow);
    SupersetPublishable(s, c, r);
    if r.outcome.HardError? {
      assert Publishable(t, t.m.managed, c.written);
    } else if !ok {
      ShrinkCovered(s, t, removed);
      ShrinkPublishable(s, t, t.m.managed, c.written, removed);
    } else {
      var gone := Doomed(Candidates(c, r), s.live);
      ShrinkCovered(s, t, gone);
      ShrinkRemembers(s, t, c, gone);
      NewSetPublishable(s, c, r, t.live);
      var newSet := NewSet(c.previous, r.applied, r.unresolved);
      assert Publishable(t, newSet, c.written);
      if !r.outcome.Clean? {
        IntentPublishable(t, newSet, intendedNow, c.written);
      }
    }
  }

  lemma ReleaseKeeps(s: State, ok: bool, relinquished: set<Contribution>)
    requires Inv(s) && Enabled(s, Release(ok, relinquished))
    ensures Inv(Step(s, Release(ok, relinquished)))
  {
    var c, r := s.phase.c, s.phase.r;
    var t := Step(s, Release(ok, relinquished));
    ShrinkCovered(s, t, {});
    if ok {
      forall x | x in t.patched - t.adriftC ensures x in Elements(r.contributions) {
        if x !in c.contributed {
          assert x in Elements(c.prior);
          assert x !in Elements(ToRelease(c, r));
        } else {
          assert x in c.contributed * s.patched;
        }
      }
    }
  }

  lemma WriteStatusKeeps(s: State, w: Write)
    requires Inv(s) && Enabled(s, WriteStatus(w))
    ensures Inv(Step(s, WriteStatus(w)))
  {
    var t := StepWriteStatus(s, w);
    var written := if s.phase.Closing? then s.phase.written else {};
    var union := Union(s.server.managed, s.m.managed);
    if s.phase.DeleteFailed? { UnchangedPublishable(s); }
    forall k | k in s.live && (k in written || k !in s.adrift)
      ensures Tracked(s.m.managed, s.live, k) && Tracked(union, s.live, k)
    {
      if k in written {
        UnionFresh(s.server.managed, s.m.managed, s.live, k);
        FreshTracked(union, s.live, k);
        FreshTracked(s.m.managed, s.live, k);
      } else {
        UnionTracked(s.server.managed, s.m.managed, s.live, k);
      }
    }
  }

  lemma DeleteOneKeeps(s: State, a: Action)
    requires Inv(s) && a.DeleteOne? && Enabled(s, a)
    ensures Inv(Step(s, a))
  {
    var t := Step(s, a);
    var e := s.m.managed[s.phase.left - 1];
    var gone := if Landed(a.first, a.fallback, a.second, a.hit) then Doomed([e], s.live) else {};
    assert t.live == s.live - gone;
    ShrinkCovered(s, t, gone);
    if !t.phase.failed {
      assert e in [e];
      forall i | t.phase.left <= i < |t.m.managed| ensures !Hits(t.m.managed[i], t.live) {
        if i == s.phase.left - 1 {
          assert Hits(e, s.live) ==> KeyOf(e) in Doomed([e], s.live);
        } else {
          assert !Hits(s.m.managed[i], s.live);
        }
      }
    }
  }

  /** A delete counts as failed, and keeps the finalizer, exactly when neither the recorded identity
      nor, after a refusal, another usable one succeeds. */
  lemma DeleteVerdict(s: State, first: Attempt, fallback: bool, second: Attempt, hit: bool)
    requires Enabled(s, DeleteOne(first, fallback, second, hit))
    ensures var t := Step(s, DeleteOne(first, fallback, second, hit));
            t.phase.Deleting? && t.phase.left == s.phase.left - 1
            && (t.phase.failed <==> s.phase.failed || first == Failed || (first == Forbidden && !(fallback && second == Succeeded)))
  {
  }

  /** The same for a release, which stops at the first failure. */
  lemma ReleaseVerdict(s: State, first: Attempt, fallback: bool, second: Attempt, hit: bool)
    requires Enabled(s, ReleaseOne(first, fallback, second, hit))
    ensures var t := Step(s, ReleaseOne(first, fallback, second, hit));
            if first == Failed || (first == Forbidden && !(fallback && second == Succeeded)) then t.phase.DeleteFailed?
            else t.phase == Phase.Releasing(s.phase.next + 1)
  {
  }

  lemma SpentTracksNothing(ms: seq<ManagedResource>, live: map<ResourceKey, string>, k: ResourceKey)
    requires Spent(ms, 0, live)
    ensures !Tracked(ms, live, k)
  {
    if k in Keys(ms) {
      var e :| e in ms && KeyOf(e) == k;
      var i :| 0 <= i < |ms| && ms[i] == e;
      assert !Hits(ms[i], live);
    }
  }

  /** When every recorded entry has been deleted, nothing tracked is live. */
  lemma EndDeletesKeeps(s: State)
    requires Inv(s) && Enabled(s, EndDeletes)
    ensures Inv(Step(s, EndDeletes))
  {
    if !s.phase.failed {
      forall k | k in s.live ensures k in s.adrift {
        SpentTracksNothing(s.server.managed, s.live, k);
      }
    }
  }

  lemma ReleaseOneKeeps(s: State, a: Action)
    requires Inv(s) && a.ReleaseOne? && Enabled(s, a)
    ensures Inv(Step(s, a))
  {
    var t := Step(s, a);
    var n := s.phase.next;
    var c := s.m.contribs[n];
    ShrinkCovered(s, t, {});
    if CleanupOk(a.first, a.fallback, a.second) {
      assert Elements(s.m.contribs[..n + 1]) == Elements(s.m.contribs[..n]) + {c} by {
        assert s.m.contribs[..n + 1] == s.m.contribs[..n] + [c];
      }
    }
  }

  lemma EndReleasesKeeps(s: State)
    requires Inv(s) && Enabled(s, EndReleases)
    ensures Inv(Step(s, EndReleases))
  {
    assert s.m.contribs[..s.phase.next] == s.m.contribs;
  }

  predicate IsEnvironment(a: Action) {
    a.EnvDelete? || a.EnvRelease? || a.SpecChange? || a.UserDelete?
  }

  lemma EnvironmentKeeps(s: State, a: Action)
    requires Inv(s) && Enabled(s, a) && IsEnvironment(a)
    ensures Inv(Step(s, a))
  {
    var gone := if a.EnvDelete? then a.gone else {};
    var t := Step(s, a);
    assert t.live == s.live - gone;
    ShrinkCovered(s, t, gone);
    ShrinkPhase(s, t, gone);
  }

  lemma SimpleStepKeeps(s: State, a: Action)
    requires Inv(s) && Enabled(s, a)
    requires a.Crash? || a.Fetch? || a.AddFinalizer? || a.GiveUp? || a.Patch? || a.EndApply? || a.Record? || a.DropFinalizer?
    ensures Inv(Step(s, a))
  {
    if a.GiveUp? {
      UnchangedPublishable(s);
    }
  }

  predicate IsWriting(a: Action) {
    a.WriteManaged? || a.WriteContribs? || a.Put? || a.Retain?
  }

  predicate IsClosing(a: Action) {
    a.Prune? || a.Release? || a.WriteStatus?
  }

  predicate IsTeardown(a: Action) {
    a.DeleteOne? || a.EndDeletes? || a.ReleaseOne? || a.EndReleases?
  }

  lemma WritingKeeps(s: State, a: Action)
    requires Inv(s) && Enabled(s, a) && IsWriting(a)
    ensures Inv(Step(s, a))
  {
    if a.WriteManaged? {
      WriteManagedKeeps(s, a.intended, a.w);
    } else if a.WriteContribs? {
      WriteContribsKeeps(s, a.intendedC, a.w);
    } else if a.Put? {
      PutKeeps(s, a.key, a.uid);
    } else {
      RetainKeeps(s, a.w);
    }
  }

  lemma ClosingKeeps(s: State, a: Action)
    requires Inv(s) && Enabled(s, a) && IsClosing(a)
    ensures Inv(Step(s, a))
  {
    if a.Prune? {
      PruneKeeps(s, a.ok, a.removed, a.intendedNow);
    } else if a.Release? {
      ReleaseKeeps(s, a.ok, a.relinquished);
    } else {
      WriteStatusKeeps(s, a.w);
    }
  }

  lemma TeardownKeeps(s: State, a: Action)
    requires Inv(s) && Enabled(s, a) && IsTeardown(a)
    ensures Inv(Step(s, a))
  {
    if a.DeleteOne? {
      DeleteOneKeeps(s, a);
    } else if a.EndDeletes? {
      EndDeletesKeeps(s);
    } else if a.ReleaseOne? {
      ReleaseOneKeeps(s, a);
    } else {
      EndReleasesKeeps(s);
    }
  }

  /** Every step keeps the inventory invariant. */
  lemma StepKeepsInv(s: State, a: Action)
    requires Inv(s) && Enabled(s, a)
    ensures Inv(Step(s, a))
  {
    if IsEnvironment(a) {
      EnvironmentKeeps(s, a);
    } else if IsWriting(a) {
      WritingKeeps(s, a);
    } else if IsClosing(a) {
      ClosingKeeps(s, a);
    } else if IsTeardown(a) {
      TeardownKeeps(s, a);
    } else {
      SimpleStepKeeps(s, a);
    }
  }

  lemma {:induction false} RunKeepsInv(run: seq<State>, actions: seq<Action>, i: nat)
    requires IsRun(run, actions) && i < |run|
    ensures Inv(run[i])
  {
    if i > 0 {
      RunKeepsInv(run, actions, i - 1);
      assert StepAt(run, actions, i - 1);
      StepKeepsInv(run[i - 1], actions[i - 1]);
    }
  }

  /* ---------- the results ---------- */

  /** Crash safety: in every state of every run, each live object is named by the persisted
      inventory under its own uid or none, and each live contribution is in the persisted ledger,
      unless it is adrift. */
  lemma CrashSafety(run: seq<State>, actions: seq<Action>, i: nat, k: ResourceKey, c: Contribution)
    requires IsRun(run, actions) && i < |run|
    ensures k in run[i].live && k !in run[i].adrift ==> Tracked(run[i].server.managed, run[i].live, k)
    ensures c in run[i].patched && c !in run[i].adriftC ==> c in run[i].server.contribs
  {
    RunKeepsInv(run, actions, i);
    assert c in run[i].patched - run[i].adriftC ==> c in Elements(run[i].server.contribs);
  }

  /** The finalizer is absent only in states where nothing is left but what is adrift, on every
      error, retry and fallback-identity path. */
  lemma FinalizerGoesLast(run: seq<State>, actions: seq<Action>, i: nat)
    requires IsRun(run, actions) && i < |run|
    ensures !run[i].server.finalizer ==> run[i].live.Keys <= run[i].adrift && run[i].patched <= run[i].adriftC
  {
    RunKeepsInv(run, actions, i);
  }

  /** A cycle that reaches a successful status write has recorded all it wrote, tracked ahead or not. */
  lemma PublishedCycleIsTracked(run: seq<State>, actions: seq<Action>, i: nat, k: ResourceKey)
    requires IsRun(run, actions) && i < |actions| && actions[i] == WriteStatus(Done)
    requires run[i].phase.Closing? && k in run[i].phase.written && k in run[i].live
    ensures k !in run[i + 1].adrift && Tracked(run[i + 1].server.managed, run[i + 1].live, k)
  {
    assert StepAt(run, actions, i);
    assert run[i + 1] == StepWriteStatus(run[i], Done);
    RunKeepsInv(run, actions, i + 1);
  }

  /* ---------- when nothing is ever adrift ---------- */

  /** The write stays inside what was written ahead: an identity previously recorded or intended,
      under the recorded uid if there is one. Reports name each identity once. */
  ghost predicate WritesAhead(s: State, a: Action) {
    (a.Put? && s.phase.Applying? ==>
       a.key in Keys(s.phase.c.intent)
       && forall e :: e in s.phase.c.previous && KeyOf(e) == a.key ==> e.uid == "" || e.uid == a.uid)
    && (a.Patch? && s.phase.Applying? ==> a.contribution in s.phase.c.intentC)
    && (a.EndApply? ==> KeyUnique(a.r.applied) && NoDup(a.r.contributions))
  }

  /** Every set uid of ms is one that `from` records for the same identity. */
  ghost predicate UidsFrom(ms: seq<ManagedResource>, from: seq<ManagedResource>) {
    forall e {:trigger e in ms} :: e in ms && e.uid != "" ==> exists p :: p in from && KeyOf(p) == KeyOf(e) && p.uid == e.uid
  }

  /** The write-ahead has covered the intent. */
  ghost predicate Ahead(s: State, c: Cycle) {
    Keys(c.intent) <= Keys(s.server.managed) && UidsFrom(s.server.managed, c.previous)
    && KeyUnique(c.previous) && NoDup(c.prior)
  }

  ghost predicate SteadyPhase(s: State) {
    match s.phase
    case ManagedAhead(c) => Ahead(s, c) && KeyUnique(s.m.managed) && c.intentC == c.prior
    case Applying(c) => Ahead(s, c) && Elements(c.intentC) <= Elements(s.server.contribs)
    case Applied(c, r) => KeyUnique(c.previous) && KeyUnique(r.applied) && NoDup(r.contributions)
    case Retained(c, r) => KeyUnique(c.previous) && KeyUnique(r.applied) && NoDup(r.contributions)
    case Pruned(_, r) => KeyUnique(s.m.managed) && NoDup(r.contributions)
    case Released(_, r) => KeyUnique(s.m.managed) && NoDup(r.contributions)
    case Closing(_) => KeyUnique(s.m.managed)
    case _ => true
  }

  ghost predicate Steady(s: State) {
    Inv(s) && s.adrift == {} && s.adriftC == {}
    && KeyUnique(s.server.managed) && NoDup(s.server.contribs) && SteadyPhase(s)
  }

  lemma UnionUidsFrom(previous: seq<ManagedResource>, intended: seq<ManagedResource>)
    requires UidFree(intended)
    ensures UidsFrom(Union(previous, Union(previous, intended)), previous)
  {
    var intent := Union(previous, intended);
    forall e | e in Union(previous, intent) && e.uid != ""
      ensures exists p :: p in previous && KeyOf(p) == KeyOf(e) && p.uid == e.uid
    {
      var k := KeyOf(e);
      UnionUid(previous, intent, e);
      var p := LastUidRecorded(previous, k);
      var q := LastUidRecorded(intent, k);
      if LastUid(intent, k) != "" {
        UnionUid(previous, intended, q);
        var x := LastUidRecorded(intended, k);
      }
    }
  }

  lemma WriteManagedSteady(s: State, intended: seq<ManagedResource>, w: Write)
    requires Steady(s) && Enabled(s, WriteManaged(intended, w))
    ensures Steady(Step(s, WriteManaged(intended, w)))
  {
    WriteManagedKeeps(s, intended, w);
    var intent := Union(s.m.managed, intended);
    UnionCovers(s.m.managed, intended);
    UnionCovers(s.server.managed, intent);
    SkipIffTracked(s.m.managed, intended);
    UnionUidsFrom(s.m.managed, intended);
  }

  lemma WriteContribsSteady(s: State, intendedC: seq<Contribution>, w: Write)
    requires Steady(s) && Enabled(s, WriteContribs(intendedC, w))
    ensures Steady(Step(s, WriteContribs(intendedC, w)))
  {
    WriteContribsKeeps(s, intendedC, w);
    var c := s.phase.c;
    ContributionSkipIffTracked(c.prior, intendedC);
    assert Elements(c.prior + intendedC) == Elements(c.prior) + Elements(intendedC);
  }

  lemma PutSteady(s: State, k: ResourceKey, uid: string)
    requires Steady(s) && Enabled(s, Put(k, uid)) && WritesAhead(s, Put(k, uid))
    ensures Steady(Step(s, Put(k, uid)))
  {
    PutKeeps(s, k, uid);
    var live := s.live[k := uid];
    forall e | e in s.server.managed && KeyOf(e) == k ensures Hits(e, live) {
      if e.uid != "" {
        var p :| p in s.phase.c.previous && KeyOf(p) == KeyOf(e) && p.uid == e.uid;
      }
    }
    assert Tracked(s.server.managed, live, k);
  }

  lemma PruneSteady(s: State, ok: bool, removed: set<ResourceKey>, intendedNow: seq<ManagedResource>)
    requires Steady(s) && Enabled(s, Prune(ok, removed, intendedNow))
    ensures Steady(Step(s, Prune(ok, removed, intendedNow)))
  {
    PruneKeeps(s, ok, removed, intendedNow);
    PrunedUnique(s.phase.c, s.phase.r, intendedNow);
  }

  lemma PrunedUnique(c: Cycle, r: ApplyResult, intendedNow: seq<ManagedResource>)
    requires KeyUnique(c.previous) && KeyUnique(r.applied)
    ensures KeyUnique(Superset(c, r))
    ensures KeyUnique(NewSet(c.previous, r.applied, r.unresolved))
    ensures KeyUnique(Union(NewSet(c.previous, r.applied, r.unresolved), intendedNow))
  {
    UnionCovers(c.intent, r.applied);
    DiffPartitions(c.previous, r.applied, r.unresolved);
    UnionCovers(NewSet(c.previous, r.applied, r.unresolved), intendedNow);
  }

  lemma PatchSteady(s: State, c: Contribution)
    requires Steady(s) && Enabled(s, Patch(c)) && WritesAhead(s, Patch(c))
    ensures Steady(Step(s, Patch(c)))
  {
    SimpleStepKeeps(s, Patch(c));
    assert c in Elements(s.phase.c.intentC);
  }

  lemma RetainSteady(s: State, w: Write)
    requires Steady(s) && Enabled(s, Retain(w))
    ensures Steady(Step(s, Retain(w)))
  {
    RetainKeeps(s, w);
    UnionCovers(s.phase.c.intent, s.phase.r.applied);
  }

  lemma WriteStatusSteady(s: State, w: Write)
    requires Steady(s) && Enabled(s, WriteStatus(w))
    ensures Steady(Step(s, WriteStatus(w)))
  {
    WriteStatusKeeps(s, w);
    UnionCovers(s.server.managed, s.m.managed);
  }

  lemma SimpleStepSteady(s: State, a: Action)
    requires Steady(s) && Enabled(s, a) && WritesAhead(s, a)
    requires a.Crash? || a.Fetch? || a.AddFinalizer? || a.GiveUp? || a.EndApply? || a.Record? || a.DropFinalizer?
    ensures Steady(Step(s, a))
  {
    SimpleStepKeeps(s, a);
  }

  lemma EnvironmentSteady(s: State, a: Action)
    requires Steady(s) && Enabled(s, a) && IsEnvironment(a)
    ensures Steady(Step(s, a))
  {
    EnvironmentKeeps(s, a);
  }

  lemma WritingSteady(s: State, a: Action)
    requires Steady(s) && Enabled(s, a) && WritesAhead(s, a) && IsWriting(a)
    ensures Steady(Step(s, a))
  {
    if a.WriteManaged? {
      WriteManagedSteady(s, a.intended, a.w);
    } else if a.WriteContribs? {
      WriteContribsSteady(s, a.intendedC, a.w);
    } else if a.Put? {
      PutSteady(s, a.key, a.uid);
    } else {
      RetainSteady(s, a.w);
    }
  }

  lemma ReleaseSteady(s: State, ok: bool, relinquished: set<Contribution>)
    requires Steady(s) && Enabled(s, Release(ok, relinquished))
    ensures Steady(Step(s, Release(ok, relinquished)))
  {
    ReleaseKeeps(s, ok, relinquished);
  }

  lemma ClosingSteady(s: State, a: Action)
    requires Steady(s) && Enabled(s, a) && IsClosing(a)
    ensures Steady(Step(s, a))
  {
    if a.Prune? {
      PruneSteady(s, a.ok, a.removed, a.intendedNow);
    } else if a.Release? {
      ReleaseSteady(s, a.ok, a.relinquished);
    } else {
      WriteStatusSteady(s, a.w);
    }
  }

  lemma TeardownSteady(s: State, a: Action)
    requires Steady(s) && Enabled(s, a) && IsTeardown(a)
    ensures Steady(Step(s, a))
  {
    TeardownKeeps(s, a);
  }

  lemma StepKeepsSteady(s: State, a: Action)
    requires Steady(s) && Enabled(s, a) && WritesAhead(s, a)
    ensures Steady(Step(s, a))
  {
    if IsEnvironment(a) {
      EnvironmentSteady(s, a);
    } else if IsWriting(a) {
      WritingSteady(s, a);
    } else if IsClosing(a) {
      ClosingSteady(s, a);
    } else if IsTeardown(a) {
      TeardownSteady(s, a);
    } else if a.Patch? {
      PatchSteady(s, a.contribution);
    } else {
      SimpleStepSteady(s, a);
    }
  }

  lemma {:induction false} RunKeepsSteady(run: seq<State>, actions: seq<Action>, i: nat)
    requires IsRun(run, actions) && i < |run|
    requires forall j {:trigger actions[j]} :: 0 <= j < |actions| ==> WritesAhead(run[j], actions[j])
    ensures Steady(run[i])
  {
    if i > 0 {
      RunKeepsSteady(run, actions, i - 1);
      assert StepAt(run, actions, i - 1) && WritesAhead(run[i - 1], actions[i - 1]);
      StepKeepsSteady(run[i - 1], actions[i - 1]);
    }
  }

  /** When every apply stays inside what was written ahead, nothing is ever adrift: each live
      object and contribution is in the persisted inventory at every moment, and the finalizer
      goes only when none is left. */
  lemma WrittenAheadRunsAreSafe(run: seq<State>, actions: seq<Action>, i: nat)
    requires IsRun(run, actions) && i < |run|
    requires forall j {:trigger actions[j]} :: 0 <= j < |actions| ==> WritesAhead(run[j], actions[j])
    ensures forall k :: k in run[i].live ==> Tracked(run[i].server.managed, run[i].live, k)
    ensures run[i].patched <= Elements(run[i].server.contribs)
    ensures !run[i].server.finalizer ==> run[i].live == map[] && run[i].patched == {}
  {
    RunKeepsSteady(run, actions, i);
  }
}
