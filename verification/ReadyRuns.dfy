/** Runs over one object's conditions (pkg/apis): what a ready root says about the dependents. */
module ReadyRuns {

  import opened Collections
  import opened Conditions

  datatype Obj = Obj(conditions: seq<Condition>, generation: int, deleting: bool, created: int)

  datatype Action =
    | Initialise
    | SetCondition(condition: Condition)
    | ClearCondition(ctype: CType)
    | BumpGeneration
    | MarkDeleting

  function EnvAt(o: Obj, now: int): Env {
    Env(o.generation, o.deleting, o.created, now)
  }

  ghost predicate SetStep(types: Types, c: Condition, o: Obj, now: int, later: int, modified: bool,
                          choice: Option<Condition>, s': seq<Condition>)
  {
    SetRel(types, EnvAt(o, now), later, o.conditions, c, modified, choice, s')
  }

  /** Callers set every condition but the root; clocks, generations and clears are arbitrary. */
  ghost predicate Step(types: Types, a: Action, o: Obj, o': Obj) {
    match a
    case Initialise => o' == o.(conditions := o'.conditions) && ForRel(types, EnvAt(o, 0), o.conditions, o'.conditions)
    case SetCondition(c) =>
      && c.ctype != types.root && o' == o.(conditions := o'.conditions)
      && exists now, later, modified, choice :: SetStep(types, c, o, now, later, modified, choice, o'.conditions)
    case ClearCondition(t) =>
      && o' == o.(conditions := o'.conditions)
      && (ClearRel(types, o.conditions, t, true, o'.conditions) || ClearRel(types, o.conditions, t, false, o'.conditions))
    case BumpGeneration => o'.generation > o.generation && o' == o.(generation := o'.generation)
    case MarkDeleting => o' == o.(deleting := true)
  }

  ghost predicate StepAt(types: Types, actions: seq<Action>, states: seq<Obj>, i: nat)
    requires i < |actions| == |states| - 1
  {
    Step(types, actions[i], states[i], states[i + 1])
  }

  ghost predicate IsRun(types: Types, actions: seq<Action>, states: seq<Obj>) {
    && |states| == |actions| + 1
    && forall i {:trigger StepAt(types, actions, states, i)} :: 0 <= i < |actions| ==> StepAt(types, actions, states, i)
  }

  /** The status of a dependent is one of the three that have a meaning. */
  ghost predicate Meaningful(types: Types, c: Condition) {
    c.ctype in types.dependents ==> !c.status.StatusOther?
  }

  ghost predicate MeaningfulRun(types: Types, actions: seq<Action>) {
    forall i :: 0 <= i < |actions| && actions[i].SetCondition? ==> Meaningful(types, actions[i].condition)
  }

  /** IsRootReady */
  predicate IsRootReady(types: Types, o: Obj) {
    var root := Get(o.conditions, types.root);
    root.Some? && root.value.status.StatusTrue? && root.value.observed == o.generation
  }

  ghost predicate Healthy(o: Obj, t: CType) {
    var c := Get(o.conditions, t);
    c.Some? && c.value.status.StatusTrue? && c.value.observed == o.generation
  }

  ghost predicate AllHealthy(types: Types, o: Obj) {
    forall t :: t in types.dependents ==> Healthy(o, t)
  }

  /** What the root can see of health: neither False nor Unknown, and current. */
  ghost predicate Passing(o: Obj, t: CType) {
    var c := Get(o.conditions, t);
    c.Some? && !c.value.status.StatusFalse? && !c.value.status.StatusUnknown? && c.value.observed == o.generation
  }

  ghost predicate AllPassing(types: Types, o: Obj) {
    forall t :: t in types.dependents ==> Passing(o, t)
  }

  /** No dependent has a status outside the three. */
  ghost predicate NoneOdd(types: Types, s: seq<Condition>) {
    forall t :: t in types.dependents && Get(s, t).Some? ==> !Get(s, t).value.status.StatusOther?
  }

  /** So what passes is healthy exactly when no status is odd. */
  lemma PassingIsHealthy(types: Types, o: Obj)
    requires AllPassing(types, o)
    ensures AllHealthy(types, o) <==> NoneOdd(types, o.conditions)
  {
    forall t | t in types.dependents ensures Healthy(o, t) <==> !Get(o.conditions, t).value.status.StatusOther? {
      assert Passing(o, t);
    }
  }

  /* ---------- the invariant ---------- */

  /** A True root was written when this dependent was neither False nor Unknown, and the dependent has
      not gone staler than the root. */
  ghost predicate Backed(types: Types, s: seq<Condition>, t: CType) {
    Has(s, types.root, StatusTrue) && Get(s, t).Some? ==>
      && !Get(s, t).value.status.StatusFalse? && !Get(s, t).value.status.StatusUnknown?
      && Get(s, types.root).value.observed <= Get(s, t).value.observed
  }

  ghost predicate Plausible(generation: int, s: seq<Condition>) {
    forall c :: c in s ==> c.observed <= generation
  }

  ghost predicate Sound(types: Types, generation: int, s: seq<Condition>) {
    && Keyed(s)
    && Plausible(generation, s)
    && forall t :: t in types.dependents ==> Backed(types, s, t)
  }

  ghost predicate Present(types: Types, s: seq<Condition>) {
    forall t :: t in types.dependents ==> Get(s, t).Some?
  }

  lemma KeptPlausible(env: Env, s: seq<Condition>, s': seq<Condition>, except: set<CType>)
    requires Plausible(env.generation, s) && Keyed(s') && KeptBut(env, s, s', except)
    ensures forall c :: c in s' && c.ctype !in except ==> c.observed <= env.generation
  {
    forall c | c in s' && c.ctype !in except ensures c.observed <= env.generation {
      GetUnique(s', c);
      assert Kept(env, Get(s, c.ctype), Get(s', c.ctype));
    }
  }

  lemma OneOf(s: seq<Condition>, t: CType)
    requires Keyed(s)
    ensures forall c :: c in s && c.ctype == t ==> Get(s, t) == Some(c)
  {
  }

  lemma ChoiceKinds(types: Types, generation: int, s: seq<Condition>, choice: Option<Condition>)
    requires RootChoice(types, generation, s, choice)
    ensures choice.Some? && choice.value.status.StatusTrue? ==> choice == Some(RootTrue(types))
    ensures choice.Some? && choice.value.ctype in types.dependents ==> !choice.value.status.StatusOther?
  {
  }

  /** Setting any condition but the root, to any status. */
  lemma SetKeepsSound(types: Types, env: Env, later: int, s: seq<Condition>, c: Condition,
                      modified: bool, choice: Option<Condition>, s': seq<Condition>)
    requires ValidTypes(types) && c.ctype != types.root
    requires Sound(types, env.generation, s) && SetRel(types, env, later, s, c, modified, choice, s')
    ensures Sound(types, env.generation, s')
    ensures forall t :: Get(s, t).Some? ==> Get(s', t).Some?
    ensures Get(s', c.ctype).Some?
  {
    SetGet(types, env, later, s, c, modified, choice, s');
    if modified {
      KeptPresent(types, env, s, s', c.ctype);
      SetRoot(types, env, later, s, c, choice, s');
      SetPlausible(types, env, s, c, choice, s');
      forall t | t in types.dependents ensures Backed(types, s', t) {
        DependentBacked(types, env, s, c, choice, s', t);
      }
    }
  }

  lemma KeptPresent(types: Types, env: Env, s: seq<Condition>, s': seq<Condition>, t: CType)
    requires KeptBut(env, s, s', {t, types.root})
    requires Get(s', t).Some? && (Get(s, types.root).Some? ==> Get(s', types.root).Some?)
    ensures forall u :: Get(s, u).Some? ==> Get(s', u).Some?
  {
    forall u | Get(s, u).Some? ensures Get(s', u).Some? {
      assert u !in {t, types.root} ==> Kept(env, Get(s, u), Get(s', u));
    }
  }

  lemma SetRoot(types: Types, env: Env, later: int, s: seq<Condition>, c: Condition,
                choice: Option<Condition>, s': seq<Condition>)
    requires ValidTypes(types) && Keyed(s) && c.ctype != types.root
    requires SetRel(types, env, later, s, c, true, choice, s')
    ensures choice.Some? && choice.value.status.StatusTrue? ==> AllCurrent(types, env.generation, s')
    ensures Has(s', types.root, StatusTrue) ==>
              !AnyDependent(types, s', StatusFalse) && !AnyDependent(types, s', StatusUnknown)
  {
    ChoiceKinds(types, env.generation, Install(types, env, s, c).value, choice);
    RootFollowsDependents(types, env, later, s, c, choice, s');
  }

  lemma SetPlausible(types: Types, env: Env, s: seq<Condition>, c: Condition, choice: Option<Condition>, s': seq<Condition>)
    requires Plausible(env.generation, s) && Keyed(s')
    requires KeptBut(env, s, s', {c.ctype, types.root})
    requires Get(s', c.ctype) == Some(Stamped(types, env, s, c))
    requires choice.None? ==> Kept(env, Get(s, types.root), Get(s', types.root))
    requires choice.Some? ==> Get(s', types.root).Some? && Get(s', types.root).value.observed == env.generation
    ensures Plausible(env.generation, s')
  {
    KeptPlausible(env, s, s', {c.ctype, types.root});
    OneOf(s', c.ctype);
    OneOf(s', types.root);
    assert Get(s, types.root).Some? ==> Get(s, types.root).value in s;
  }

  lemma DependentBacked(types: Types, env: Env, s: seq<Condition>, c: Condition, choice: Option<Condition>,
                        s': seq<Condition>, t: CType)
    requires t in types.dependents && t != types.root
    requires Sound(types, env.generation, s) && Plausible(env.generation, s')
    requires KeptBut(env, s, s', {c.ctype, types.root})
    requires Get(s', c.ctype).Some? && Get(s', c.ctype).value.observed == env.generation
    requires choice.None? ==> Kept(env, Get(s, types.root), Get(s', types.root))
    requires choice.Some? && choice.value.status.StatusTrue? ==> AllCurrent(types, env.generation, s')
    requires choice.Some? ==> Has(s', types.root, choice.value.status)
    requires Has(s', types.root, StatusTrue) ==>
               !AnyDependent(types, s', StatusFalse) && !AnyDependent(types, s', StatusUnknown)
    ensures Backed(types, s', t)
  {
    if Has(s', types.root, StatusTrue) && Get(s', t).Some? {
      var d, root := Get(s', t).value, Get(s', types.root).value;
      assert d in s' && root in s';
      assert Has(s', t, d.status);
      if choice.None? && t != c.ctype {
        assert Kept(env, Get(s, t), Get(s', t));
        assert Backed(types, s, t);
      }
    }
  }

  lemma RootUnknownKeepsSound(types: Types, env: Env, s: seq<Condition>, s': seq<Condition>, c: Condition)
    requires ValidTypes(types) && c.ctype == types.root && c.status.StatusUnknown?
    requires Sound(types, env.generation, s) && Install(types, env, s, c) == Some(s')
    ensures Sound(types, env.generation, s')
    ensures forall t :: Get(s, t).Some? ==> Get(s', t).Some?
    ensures Get(s', types.root).Some?
  {
    InstallKeyed(types, env, s, c);
    InstallGet(types, env, s, c);
    KeptPlausible(env, s, s', {c.ctype});
    OneOf(s', types.root);
  }

  lemma InitialisedKeepsSound(types: Types, env: Env, t: CType, s: seq<Condition>, s': seq<Condition>)
    requires ValidTypes(types) && Sound(types, env.generation, s) && InitialisedOne(types, env, t, s, s')
    ensures Sound(types, env.generation, s')
    ensures forall u :: Get(s, u).Some? ==> Get(s', u).Some?
    ensures Get(s', t).Some?
  {
    if Get(s, t).None? {
      var now, later, choice :| UnknownSet(types, env, now, later, t, choice, s, s');
      if t == types.root {
        RootUnknownKeepsSound(types, env.(now := now), s, s', AwaitingReconciliation(t));
      } else {
        SetKeepsSound(types, env.(now := now), later, s, AwaitingReconciliation(t), true, choice, s');
      }
    }
  }

  lemma SubsetSound(types: Types, generation: int, s: seq<Condition>, s': seq<Condition>)
    requires Sound(types, generation, s) && forall c :: c in s' ==> c in s
    ensures Sound(types, generation, s')
  {
    forall t | t in types.dependents ensures Backed(types, s', t) {
      if Get(s', types.root).Some? && Get(s', t).Some? {
        GetUnique(s, Get(s', types.root).value);
        GetUnique(s, Get(s', t).value);
        assert Backed(types, s, t);
      }
    }
  }

  lemma {:induction false} InitialisedViaSound(types: Types, env: Env, k: nat, states: seq<seq<Condition>>,
                                               s: seq<Condition>, s': seq<Condition>)
    requires k <= |Known(types)| && ValidTypes(types)
    requires InitialisedVia(types, env, k, states, s, s') && Sound(types, env.generation, s)
    ensures Sound(types, env.generation, s') && PresentTo(types, k, s')
  {
    if k > 0 {
      var mid := states[k - 1];
      InitialisedPrefix(types, env, k, states, s, s');
      InitialisedViaSound(types, env, k - 1, states[..k], s, mid);
      InitialisedKeepsSound(types, env, Known(types)[k - 1], mid, s');
      PresentNext(types, k - 1, mid, s');
    }
  }

  /** The first k known types have a condition. */
  ghost predicate PresentTo(types: Types, k: nat, s: seq<Condition>)
    requires k <= |Known(types)|
  {
    forall i :: 0 <= i < k ==> Get(s, Known(types)[i]).Some?
  }

  lemma PresentNext(types: Types, k: nat, mid: seq<Condition>, s': seq<Condition>)
    requires k < |Known(types)| && PresentTo(types, k, mid)
    requires (forall t :: Get(mid, t).Some? ==> Get(s', t).Some?) && Get(s', Known(types)[k]).Some?
    ensures PresentTo(types, k + 1, s')
  {
  }

  lemma InitialisedPrefix(types: Types, env: Env, k: nat, states: seq<seq<Condition>>, s: seq<Condition>, s': seq<Condition>)
    requires 0 < k <= |Known(types)| && InitialisedVia(types, env, k, states, s, s')
    ensures InitialisedVia(types, env, k - 1, states[..k], s, states[k - 1])
    ensures InitialisedOne(types, env, Known(types)[k - 1], states[k - 1], s')
  {
    forall i | 0 <= i < k - 1 ensures InitialisedAt(types, env, states[..k], i) {
      assert InitialisedAt(types, env, states, i);
      SameStep(types, env, states, states[..k], i);
    }
    assert InitialisedAt(types, env, states, k - 1);
  }

  /** For leaves every dependent present, whatever it pruned. */
  lemma ForSound(types: Types, env: Env, s: seq<Condition>, s': seq<Condition>)
    requires ValidTypes(types) && Sound(types, env.generation, s) && ForRel(types, env, s, s')
    ensures Sound(types, env.generation, s') && Present(types, s')
  {
    var states :| InitialisedVia(types, env, |Known(types)|, states, Pruned(types, s), s');
    SubsetSound(types, env.generation, s, Pruned(types, s));
    InitialisedViaSound(types, env, |Known(types)|, states, Pruned(types, s), s');
    forall t | t in types.dependents ensures Get(s', t).Some? {
      assert t in Known(types);
    }
  }

  lemma ClearSound(types: Types, generation: int, s: seq<Condition>, t: CType, refused: bool, s': seq<Condition>)
    requires Sound(types, generation, s) && ClearRel(types, s, t, refused, s')
    ensures Sound(types, generation, s')
    ensures Present(types, s) ==> Present(types, s')
  {
    SubsetSound(types, generation, s, s');
    if Present(types, s) {
      forall u | u in types.dependents ensures Get(s', u).Some? {
        assert Get(s, u).value in s';
      }
    }
  }

  lemma StepSound(types: Types, a: Action, o: Obj, o': Obj)
    requires ValidTypes(types) && Sound(types, o.generation, o.conditions) && Step(types, a, o, o')
    ensures Sound(types, o'.generation, o'.conditions)
    ensures Present(types, o.conditions) || a.Initialise? ==> Present(types, o'.conditions)
  {
    match a
    case Initialise => ForSound(types, EnvAt(o, 0), o.conditions, o'.conditions);
    case SetCondition(c) =>
      var now, later, modified, choice :| SetStep(types, c, o, now, later, modified, choice, o'.conditions);
      SetKeepsSound(types, EnvAt(o, now), later, o.conditions, c, modified, choice, o'.conditions);
    case ClearCondition(t) =>
      if ClearRel(types, o.conditions, t, true, o'.conditions) {
        ClearSound(types, o.generation, o.conditions, t, true, o'.conditions);
      } else {
        ClearSound(types, o.generation, o.conditions, t, false, o'.conditions);
      }
    case BumpGeneration =>
    case MarkDeleting =>
  }

  ghost predicate SoundAt(types: Types, states: seq<Obj>, i: nat)
    requires i < |states|
  {
    Sound(types, states[i].generation, states[i].conditions)
  }

  ghost predicate PresentAt(types: Types, states: seq<Obj>, i: nat)
    requires i < |states|
  {
    Present(types, states[i].conditions)
  }

  lemma StepSoundAt(types: Types, actions: seq<Action>, states: seq<Obj>, i: nat)
    requires ValidTypes(types) && IsRun(types, actions, states) && i < |actions| && SoundAt(types, states, i)
    ensures SoundAt(types, states, i + 1)
    ensures PresentAt(types, states, i) || actions[i].Initialise? ==> PresentAt(types, states, i + 1)
  {
    assert StepAt(types, actions, states, i);
    StepSound(types, actions[i], states[i], states[i + 1]);
  }

  lemma {:induction false} RunSound(types: Types, actions: seq<Action>, states: seq<Obj>, k: nat)
    requires ValidTypes(types) && IsRun(types, actions, states) && k <= |actions| && SoundAt(types, states, 0)
    ensures SoundAt(types, states, k)
  {
    if k > 0 {
      RunSound(types, actions, states, k - 1);
      StepSoundAt(types, actions, states, k - 1);
    }
  }

  lemma {:induction false} RunPresent(types: Types, actions: seq<Action>, states: seq<Obj>, f: nat, k: nat)
    requires ValidTypes(types) && IsRun(types, actions, states) && SoundAt(types, states, 0)
    requires f < k <= |actions| && actions[f].Initialise?
    ensures PresentAt(types, states, k)
  {
    if f < k - 1 {
      RunPresent(types, actions, states, f, k - 1);
    }
    RunSound(types, actions, states, k - 1);
    StepSoundAt(types, actions, states, k - 1);
  }

  lemma ReadyPasses(types: Types, o: Obj)
    requires Sound(types, o.generation, o.conditions) && Present(types, o.conditions) && IsRootReady(types, o)
    ensures AllPassing(types, o)
  {
    forall t | t in types.dependents ensures Passing(o, t) {
      assert Get(o.conditions, t).value in o.conditions;
      assert Backed(types, o.conditions, t);
    }
  }

  /** In every run from a sound object, once For has initialised it, a root that reports ready means
      that every dependent is present, current and neither False nor Unknown; so all are healthy if
      and only if none has a status outside the three. */
  lemma ReadyIffNoneOdd(types: Types, actions: seq<Action>, states: seq<Obj>, f: nat, k: nat)
    requires ValidTypes(types) && IsRun(types, actions, states) && f < k <= |actions| && actions[f].Initialise?
    requires Sound(types, states[0].generation, states[0].conditions)
    requires IsRootReady(types, states[k])
    ensures AllPassing(types, states[k])
    ensures AllHealthy(types, states[k]) <==> NoneOdd(types, states[k].conditions)
  {
    RunSound(types, actions, states, k);
    RunPresent(types, actions, states, f, k);
    ReadyPasses(types, states[k]);
    PassingIsHealthy(types, states[k]);
  }

  /** And right after any modifying Set the root is ready exactly when all dependents pass; exactly
      when they are healthy, if none has a status outside the three. */
  lemma ReadyIffPassing(types: Types, o: Obj, c: Condition, now: int, later: int, choice: Option<Condition>, o': Obj)
    requires ValidTypes(types) && c.ctype != types.root
    requires Sound(types, o.generation, o.conditions) && Present(types, o.conditions)
    requires SetStep(types, c, o, now, later, true, choice, o'.conditions) && o' == o.(conditions := o'.conditions)
    ensures IsRootReady(types, o') <==> AllPassing(types, o')
    ensures NoneOdd(types, o'.conditions) ==> (IsRootReady(types, o') <==> AllHealthy(types, o'))
  {
    var env, s' := EnvAt(o, now), o'.conditions;
    SetKeepsSound(types, env, later, o.conditions, c, true, choice, s');
    RootFollowsDependents(types, env, later, o.conditions, c, choice, s');
    if AllPassing(types, o') {
      forall t | t in types.dependents ensures !Has(s', t, StatusFalse) && !Has(s', t, StatusUnknown) {
        assert Passing(o', t);
      }
      assert AllCurrent(types, env.generation, s') by {
        forall t | t in types.dependents ensures Get(s', t).value.observed == env.generation {
          assert Passing(o', t);
        }
      }
      PassingIsHealthy(types, o');
    }
    if IsRootReady(types, o') {
      ReadyPasses(types, o');
    }
    if AllHealthy(types, o') {
      HealthyPasses(types, o');
    }
  }

  lemma HealthyPasses(types: Types, o: Obj)
    requires AllHealthy(types, o)
    ensures AllPassing(types, o)
  {
    forall t | t in types.dependents ensures Passing(o, t) {
      assert Healthy(o, t);
    }
  }

  /* ---------- runs in which every status is meaningful ---------- */

  lemma {:induction false} InitialisedViaNoneOdd(types: Types, env: Env, k: nat, states: seq<seq<Condition>>,
                                                 s: seq<Condition>, s': seq<Condition>)
    requires k <= |Known(types)| && ValidTypes(types) && Keyed(s) && NoneOdd(types, s)
    requires InitialisedVia(types, env, k, states, s, s')
    ensures Keyed(s') && NoneOdd(types, s')
  {
    if k > 0 {
      var mid, t := states[k - 1], Known(types)[k - 1];
      InitialisedPrefix(types, env, k, states, s, s');
      InitialisedViaNoneOdd(types, env, k - 1, states[..k], s, mid);
      if Get(mid, t).None? {
        var now, later, choice :| UnknownSet(types, env, now, later, t, choice, mid, s');
        if t == types.root {
          InstallKeyed(types, env.(now := now), mid, AwaitingReconciliation(t));
          InstallGet(types, env.(now := now), mid, AwaitingReconciliation(t));
          KeptNoneOdd(types, env.(now := now), mid, s', {t});
        } else {
          SetNoneOdd(types, env.(now := now), later, mid, AwaitingReconciliation(t), true, choice, s');
        }
      }
    }
  }

  lemma KeptNoneOdd(types: Types, env: Env, s: seq<Condition>, s': seq<Condition>, except: set<CType>)
    requires NoneOdd(types, s) && KeptBut(env, s, s', except)
    requires forall t :: t in types.dependents && t in except && Get(s', t).Some? ==> !Get(s', t).value.status.StatusOther?
    ensures NoneOdd(types, s')
  {
    forall t | t in types.dependents && Get(s', t).Some? ensures !Get(s', t).value.status.StatusOther? {
      assert t !in except ==> Kept(env, Get(s, t), Get(s', t));
    }
  }

  lemma SetNoneOdd(types: Types, env: Env, later: int, s: seq<Condition>, c: Condition,
                   modified: bool, choice: Option<Condition>, s': seq<Condition>)
    requires ValidTypes(types) && c.ctype != types.root && Meaningful(types, c)
    requires Keyed(s) && NoneOdd(types, s) && SetRel(types, env, later, s, c, modified, choice, s')
    ensures Keyed(s') && NoneOdd(types, s')
  {
    SetGet(types, env, later, s, c, modified, choice, s');
    if modified {
      KeptNoneOdd(types, env, s, s', {c.ctype, types.root});
    }
  }

  lemma SubsetNoneOdd(types: Types, s: seq<Condition>, s': seq<Condition>)
    requires Keyed(s) && NoneOdd(types, s) && forall c :: c in s' ==> c in s
    ensures Keyed(s') && NoneOdd(types, s')
  {
    forall t | t in types.dependents && Get(s', t).Some? ensures !Get(s', t).value.status.StatusOther? {
      GetUnique(s, Get(s', t).value);
    }
  }

  lemma StepNoneOdd(types: Types, a: Action, o: Obj, o': Obj)
    requires ValidTypes(types) && Keyed(o.conditions) && NoneOdd(types, o.conditions) && Step(types, a, o, o')
    requires a.SetCondition? ==> Meaningful(types, a.condition)
    ensures Keyed(o'.conditions) && NoneOdd(types, o'.conditions)
  {
    var s, s' := o.conditions, o'.conditions;
    match a
    case Initialise =>
      var states :| InitialisedVia(types, EnvAt(o, 0), |Known(types)|, states, Pruned(types, s), s');
      SubsetNoneOdd(types, s, Pruned(types, s));
      InitialisedViaNoneOdd(types, EnvAt(o, 0), |Known(types)|, states, Pruned(types, s), s');
    case SetCondition(c) =>
      var now, later, modified, choice :| SetStep(types, c, o, now, later, modified, choice, s');
      SetNoneOdd(types, EnvAt(o, now), later, s, c, modified, choice, s');
    case ClearCondition(_) => SubsetNoneOdd(types, s, s');
    case BumpGeneration =>
    case MarkDeleting =>
  }

  lemma {:induction false} RunNoneOdd(types: Types, actions: seq<Action>, states: seq<Obj>, k: nat)
    requires ValidTypes(types) && IsRun(types, actions, states) && MeaningfulRun(types, actions) && k <= |actions|
    requires Keyed(states[0].conditions) && NoneOdd(types, states[0].conditions)
    ensures Keyed(states[k].conditions) && NoneOdd(types, states[k].conditions)
  {
    if k > 0 {
      RunNoneOdd(types, actions, states, k - 1);
      assert StepAt(types, actions, states, k - 1);
      StepNoneOdd(types, actions[k - 1], states[k - 1], states[k]);
    }
  }

  /** So in runs that set only meaningful statuses, a ready root means that all dependents are present,
      True and observed at the current generation. */
  lemma ReadyIsSound(types: Types, actions: seq<Action>, states: seq<Obj>, f: nat, k: nat)
    requires ValidTypes(types) && IsRun(types, actions, states) && MeaningfulRun(types, actions)
    requires Sound(types, states[0].generation, states[0].conditions) && NoneOdd(types, states[0].conditions)
    requires f < k <= |actions| && actions[f].Initialise?
    requires IsRootReady(types, states[k])
    ensures AllHealthy(types, states[k])
  {
    RunNoneOdd(types, actions, states, k);
    ReadyIffNoneOdd(types, actions, states, f, k);
  }

  /** And right after such a Set the root is ready exactly when all dependents are healthy. */
  lemma ReadyIffHealthy(types: Types, o: Obj, c: Condition, now: int, later: int, choice: Option<Condition>, o': Obj)
    requires ValidTypes(types) && c.ctype != types.root && Meaningful(types, c) && NoneOdd(types, o.conditions)
    requires Sound(types, o.generation, o.conditions) && Present(types, o.conditions)
    requires SetStep(types, c, o, now, later, true, choice, o'.conditions) && o' == o.(conditions := o'.conditions)
    ensures IsRootReady(types, o') <==> AllHealthy(types, o')
  {
    SetNoneOdd(types, EnvAt(o, now), later, o.conditions, c, true, choice, o'.conditions);
    ReadyIffPassing(types, o, c, now, later, choice, o');
  }

  /* ---------- where a current condition comes from ---------- */

  /** A step of an object that is not being deleted changes a dependent only by setting it, by creating
      it as Unknown, both at the object's generation. */
  lemma ChangedOnlyWhenSet(types: Types, a: Action, o: Obj, o': Obj, t: CType)
    requires ValidTypes(types) && t in types.dependents && Keyed(o.conditions) && !o.deleting && Step(types, a, o, o')
    ensures Keyed(o'.conditions)
    ensures Get(o'.conditions, t) == Get(o.conditions, t) || SetAt(a, o, o', t) || CreatedAt(a, o, o', t)
  {
    var s, s' := o.conditions, o'.conditions;
    match a
    case Initialise => InitialiseChanges(types, o, o', t);
    case SetCondition(c) =>
      var now, later, modified, choice :| SetStep(types, c, o, now, later, modified, choice, s');
      SetGet(types, EnvAt(o, now), later, s, c, modified, choice, s');
      if c.ctype == t {
        SetStores(types, EnvAt(o, now), later, s, c, modified, choice, s');
      } else {
        SetLeavesOthers(types, EnvAt(o, now), later, s, c, modified, choice, s', t);
      }
    case ClearCondition(u) =>
      SubsetKeyed(s, s');
      if Get(s, t).Some? && s' != s {
        assert u != t && Get(s, t).value in s';
        GetUnique(s', Get(s, t).value);
      } else if Get(s', t).Some? {
        assert Get(s', t).value in s;
      }
    case BumpGeneration =>
    case MarkDeleting =>
  }

  /** The action set t, to the status it now has, observed at the object's generation. */
  ghost predicate SetAt(a: Action, o: Obj, o': Obj, t: CType) {
    && a.SetCondition? && a.condition.ctype == t && Get(o'.conditions, t).Some?
    && Get(o'.conditions, t).value.status == a.condition.status && Get(o'.conditions, t).value.observed == o.generation
  }

  ghost predicate CreatedAt(a: Action, o: Obj, o': Obj, t: CType) {
    && a.Initialise? && Get(o'.conditions, t).Some?
    && Get(o'.conditions, t).value.status == StatusUnknown && Get(o'.conditions, t).value.observed == o.generation
  }

  lemma InitialiseChanges(types: Types, o: Obj, o': Obj, t: CType)
    requires ValidTypes(types) && t in types.dependents && Keyed(o.conditions) && !o.deleting && Step(types, Initialise, o, o')
    ensures Keyed(o'.conditions)
    ensures Get(o'.conditions, t) == Get(o.conditions, t) || CreatedAt(Initialise, o, o', t)
  {
    var s, mid, s' := o.conditions, Pruned(types, o.conditions), o'.conditions;
    var states :| InitialisedVia(types, EnvAt(o, 0), |Known(types)|, states, mid, s');
    SubsetKeyed(s, mid);
    InitialisedViaChanges(types, EnvAt(o, 0), |Known(types)|, states, mid, s', t);
    if Get(mid, t).Some? {
      GetUnique(s, Get(mid, t).value);
    }
    assert Known(types)[..|Known(types)|] == Known(types) && t in Known(types);
  }

  /** Initialising keeps t if it is there, and can only create it as Unknown at this generation. */
  lemma {:induction false} InitialisedViaChanges(types: Types, env: Env, k: nat, states: seq<seq<Condition>>,
                                                 s: seq<Condition>, s': seq<Condition>, t: CType)
    requires k <= |Known(types)| && ValidTypes(types) && t != types.root && Keyed(s) && !env.deleting
    requires InitialisedVia(types, env, k, states, s, s')
    ensures Keyed(s')
    ensures Get(s', t) == Get(s, t)
            || (Get(s', t).Some? && Get(s', t).value.status == StatusUnknown && Get(s', t).value.observed == env.generation)
    ensures t in Known(types)[..k] ==> Get(s', t).Some?
    ensures Get(s, t).Some? || t !in Known(types)[..k] ==> Get(s', t) == Get(s, t)
  {
    if k > 0 {
      var mid, u := states[k - 1], Known(types)[k - 1];
      InitialisedPrefix(types, env, k, states, s, s');
      InitialisedViaChanges(types, env, k - 1, states[..k], s, mid, t);
      if Get(mid, u).None? {
        UnknownSetChanges(types, env, u, mid, s', t);
      }
    }
  }

  lemma UnknownSetChanges(types: Types, env: Env, u: CType, s: seq<Condition>, s': seq<Condition>, t: CType)
    requires ValidTypes(types) && t != types.root && Keyed(s) && !env.deleting
    requires Get(s, u).None? && InitialisedOne(types, env, u, s, s')
    ensures Keyed(s')
    ensures if u == t then Get(s', t).Some? && Get(s', t).value.status == StatusUnknown && Get(s', t).value.observed == env.generation
            else Get(s', t) == Get(s, t)
  {
    var now, later, choice :| UnknownSet(types, env, now, later, u, choice, s, s');
    var env1, c := env.(now := now), AwaitingReconciliation(u);
    if u == types.root {
      InstallKeyed(types, env1, s, c);
      InstallGet(types, env1, s, c);
      assert Kept(env1, Get(s, t), Get(s', t));
    } else {
      SetGet(types, env1, later, s, c, true, choice, s');
      if u == t {
        SetStores(types, env1, later, s, c, true, choice, s');
      } else {
        SetLeavesOthers(types, env1, later, s, c, true, choice, s', t);
      }
    }
  }

  /** What For does to each condition but the root, on an object that is not being deleted: one that is
      to be pruned is dropped, a dependent that is then missing is created as Unknown, and everything
      else stays as it was. */
  lemma ForLeaves(types: Types, o: Obj, o': Obj, t: CType)
    requires ValidTypes(types) && t != types.root && Keyed(o.conditions) && !o.deleting && Step(types, Initialise, o, o')
    ensures t !in types.prunes && Get(o.conditions, t).Some? ==> Get(o'.conditions, t) == Get(o.conditions, t)
    ensures t in types.prunes || Get(o.conditions, t).None? ==>
              if t in types.dependents then CreatedAt(Initialise, o, o', t) else Get(o'.conditions, t).None?
  {
    var s, mid, s' := o.conditions, Pruned(types, o.conditions), o'.conditions;
    var states :| InitialisedVia(types, EnvAt(o, 0), |Known(types)|, states, mid, s');
    SubsetKeyed(s, mid);
    if Get(s, t).Some? && t !in types.prunes {
      GetUnique(mid, Get(s, t).value);
    } else {
      assert Get(mid, t).None?;
    }
    InitialisedViaChanges(types, EnvAt(o, 0), |Known(types)|, states, mid, s', t);
    assert Known(types)[..|Known(types)|] == Known(types) && (t in Known(types) <==> t in types.dependents);
  }

  /** t stands as it did at the start, or as the last Set of it left it, or as For created it. */
  ghost predicate Traced(types: Types, actions: seq<Action>, states: seq<Obj>, k: nat, t: CType)
    requires k < |states| == |actions| + 1
  {
    var d := Get(states[k].conditions, t);
    || d == Get(states[0].conditions, t)
    || (d.Some? && d.value.status == StatusUnknown)
    || exists i :: 0 <= i < k && SetEarlier(actions, states, i, k, t)
  }

  ghost predicate SetEarlier(actions: seq<Action>, states: seq<Obj>, i: nat, k: nat, t: CType)
    requires i < k < |states| == |actions| + 1
  {
    var d := Get(states[k].conditions, t);
    && actions[i].SetCondition? && actions[i].condition.ctype == t && d.Some?
    && d.value.status == actions[i].condition.status && d.value.observed == states[i].generation
  }

  ghost predicate Living(states: seq<Obj>, k: nat)
    requires k < |states|
  {
    Keyed(states[k].conditions) && !states[k].deleting
  }

  lemma StepChanges(types: Types, actions: seq<Action>, states: seq<Obj>, n: nat, t: CType)
    requires ValidTypes(types) && IsRun(types, actions, states) && n < |actions| && t in types.dependents
    requires Living(states, n) && !actions[n].MarkDeleting?
    ensures Living(states, n + 1)
    ensures Get(states[n + 1].conditions, t) == Get(states[n].conditions, t)
            || SetEarlier(actions, states, n, n + 1, t)
            || CreatedAt(actions[n], states[n], states[n + 1], t)
  {
    assert StepAt(types, actions, states, n);
    ChangedOnlyWhenSet(types, actions[n], states[n], states[n + 1], t);
  }

  lemma TracedNext(types: Types, actions: seq<Action>, states: seq<Obj>, n: nat, t: CType)
    requires n < |actions| == |states| - 1 && Traced(types, actions, states, n, t)
    requires Get(states[n + 1].conditions, t) == Get(states[n].conditions, t)
             || SetEarlier(actions, states, n, n + 1, t)
             || CreatedAt(actions[n], states[n], states[n + 1], t)
    ensures Traced(types, actions, states, n + 1, t)
  {
    var k := n + 1;
    if Get(states[k].conditions, t) == Get(states[n].conditions, t) {
      if i :| 0 <= i < n && SetEarlier(actions, states, i, n, t) {
        assert SetEarlier(actions, states, i, k, t);
      }
    } else if SetEarlier(actions, states, n, k, t) {
      assert exists i :: 0 <= i < k && SetEarlier(actions, states, i, k, t);
    }
  }

  lemma {:induction false} RunTraced(types: Types, actions: seq<Action>, states: seq<Obj>, k: nat, t: CType)
    requires ValidTypes(types) && IsRun(types, actions, states) && k <= |actions| && t in types.dependents
    requires Living(states, 0) && NotDeleted(actions, states)
    ensures Living(states, k) && Traced(types, actions, states, k, t)
  {
    if k > 0 {
      RunTraced(types, actions, states, k - 1, t);
      StepChanges(types, actions, states, k - 1, t);
      TracedNext(types, actions, states, k - 1, t);
    }
  }

  /** The object is not being deleted when the run starts, and no action marks it. */
  ghost predicate NotDeleted(actions: seq<Action>, states: seq<Obj>)
    requires states != []
  {
    !states[0].deleting && forall i :: 0 <= i < |actions| ==> !actions[i].MarkDeleting?
  }

  /** So in such runs a ready root means that every dependent was set, to the status it has, when the
      object already had its present generation, or has stood like that since the start. */
  lemma ReadyWasSetNow(types: Types, actions: seq<Action>, states: seq<Obj>, f: nat, k: nat, t: CType)
    requires ValidTypes(types) && IsRun(types, actions, states) && f < k <= |actions| && actions[f].Initialise?
    requires Sound(types, states[0].generation, states[0].conditions) && NotDeleted(actions, states)
    requires IsRootReady(types, states[k]) && t in types.dependents
    ensures Get(states[k].conditions, t).Some?
    ensures Get(states[k].conditions, t) == Get(states[0].conditions, t)
            || exists i :: 0 <= i < k && actions[i].SetCondition? && actions[i].condition.ctype == t
                           && actions[i].condition.status == Get(states[k].conditions, t).value.status
                           && states[i].generation == states[k].generation
  {
    ReadyIffNoneOdd(types, actions, states, f, k);
    RunTraced(types, actions, states, k, t);
    assert Passing(states[k], t);
    if i :| 0 <= i < k && SetEarlier(actions, states, i, k, t) {
      assert states[i].generation == states[k].generation;
    }
  }

  /* ---------- every action has an outcome ---------- */

  /** Some unhealthy dependent with this status has the latest time. */
  lemma {:induction false} LatestExists(types: Types, generation: int, s: seq<Condition>, status: Status)
    requires Ailing(types, generation, s, status)
    ensures exists c :: c in s && Unhealthy(types, generation, c) && c.status == status && NoneLater(types, generation, s, c)
  {
    var n := |s| - 1;
    var t, x := s[..n], s[n];
    assert s == t + [x];
    if Unhealthy(types, generation, x) && x.status == status {
      if Ailing(types, generation, t, status) {
        LatestExists(types, generation, t, status);
        var c :| c in t && Unhealthy(types, generation, c) && c.status == status && NoneLater(types, generation, t, c);
        if NotLater(x.time, c.time) {
          assert NoneLater(types, generation, s, c);
        } else {
          LaterStill(types, generation, t, c, x);
          assert NoneLater(types, generation, s, x);
        }
      } else {
        assert NoneLater(types, generation, s, x);
      }
    } else {
      var d :| d in s && Unhealthy(types, generation, d) && d.status == status;
      assert d in t;
      LatestExists(types, generation, t, status);
      var c :| c in t && Unhealthy(types, generation, c) && c.status == status && NoneLater(types, generation, t, c);
      assert NoneLater(types, generation, s, c);
    }
  }

  lemma LaterStill(types: Types, generation: int, t: seq<Condition>, c: Condition, x: Condition)
    requires NoneLater(types, generation, t, c) && !NotLater(x.time, c.time) && x.status == c.status
    ensures NoneLater(types, generation, t, x)
  {
  }

  lemma ChoiceExists(types: Types, generation: int, s: seq<Condition>) returns (choice: Option<Condition>)
    ensures RootChoice(types, generation, s, choice)
  {
    if Ailing(types, generation, s, StatusFalse) {
      choice := LatestChoice(types, generation, s, StatusFalse);
    } else if Ailing(types, generation, s, StatusUnknown) {
      choice := LatestChoice(types, generation, s, StatusUnknown);
    } else if exists d :: d in s && Unhealthy(types, generation, d) {
      choice := None;
    } else {
      choice := Some(RootTrue(types));
    }
  }

  lemma LatestChoice(types: Types, generation: int, s: seq<Condition>, status: Status) returns (choice: Option<Condition>)
    requires Ailing(types, generation, s, status)
    ensures CopiesLatest(types, generation, s, status, choice)
  {
    LatestExists(types, generation, s, status);
    var c :| c in s && Unhealthy(types, generation, c) && c.status == status && NoneLater(types, generation, s, c);
    choice := Some(RootFrom(types, c));
  }

  /** Whatever is set, there is an outcome. */
  lemma SetPossible(types: Types, o: Obj, c: Condition, now: int, later: int) returns (o': Obj)
    requires c.ctype != types.root
    ensures o' == o.(conditions := o'.conditions)
    ensures exists modified, choice :: SetStep(types, c, o, now, later, modified, choice, o'.conditions)
    ensures Step(types, SetCondition(c), o, o')
  {
    var env := EnvAt(o, now);
    var r := Install(types, env, o.conditions, c);
    var modified, choice: Option<Condition> := false, None;
    o' := o;
    if r.Some? {
      modified := true;
      choice := ChoiceExists(types, env.generation, r.value);
      o' := o.(conditions := WithRoot(types, env.(now := later), r.value, choice));
    }
    assert SetStep(types, c, o, now, later, modified, choice, o'.conditions);
  }

  lemma InitialiseOnePossible(types: Types, env: Env, t: CType, s: seq<Condition>) returns (s': seq<Condition>)
    ensures InitialisedOne(types, env, t, s, s')
  {
    s' := s;
    if Get(s, t).None? {
      var r := Install(types, env, s, AwaitingReconciliation(t));
      var choice := None;
      s' := r.value;
      if t != types.root {
        choice := ChoiceExists(types, env.generation, r.value);
        s' := WithRoot(types, env, r.value, choice);
      }
      assert env.(now := env.now) == env;
      assert UnknownSet(types, env, env.now, env.now, t, choice, s, s');
    }
  }

  lemma {:induction false} InitialiseViaPossible(types: Types, env: Env, k: nat, s: seq<Condition>)
      returns (states: seq<seq<Condition>>, s': seq<Condition>)
    requires k <= |Known(types)|
    ensures InitialisedVia(types, env, k, states, s, s')
  {
    if k == 0 {
      states, s' := [s], s;
    } else {
      var before, mid := InitialiseViaPossible(types, env, k - 1, s);
      s' := InitialiseOnePossible(types, env, Known(types)[k - 1], mid);
      LastStep(types, env, before, s', k - 1);
      InitialisedSnoc(types, env, k - 1, before, s, mid, s');
      states := before + [s'];
    }
  }

  lemma InitialisePossible(types: Types, o: Obj) returns (o': Obj)
    ensures Step(types, Initialise, o, o') && o' == o.(conditions := o'.conditions)
  {
    var states, s' := InitialiseViaPossible(types, EnvAt(o, 0), |Known(types)|, Pruned(types, o.conditions));
    o' := o.(conditions := s');
  }

  lemma RunSnoc(types: Types, actions: seq<Action>, states: seq<Obj>, a: Action, o': Obj)
    requires IsRun(types, actions, states) && Step(types, a, states[|states| - 1], o')
    ensures IsRun(types, actions + [a], states + [o'])
  {
    var actions1, states1 := actions + [a], states + [o'];
    forall i | 0 <= i < |actions1| ensures StepAt(types, actions1, states1, i) {
      assert i < |actions| ==> StepAt(types, actions, states, i);
    }
  }

  /* ---------- a status outside the three fools the root ---------- */

  /** From any sound object whose dependents are all healthy, setting a dependent to a status outside
      the three modifies the object and leaves the root ready over a dependent that is not True. */
  lemma OddSetFoolsRoot(types: Types, c: Condition, o: Obj, now: int, later: int, modified: bool,
                        choice: Option<Condition>, o': Obj)
    requires ValidTypes(types) && c.ctype in types.dependents && c.status.StatusOther?
    requires Sound(types, o.generation, o.conditions) && AllHealthy(types, o)
    requires SetStep(types, c, o, now, later, modified, choice, o'.conditions) && o' == o.(conditions := o'.conditions)
    ensures modified && IsRootReady(types, o') && !Healthy(o', c.ctype)
  {
    assert Healthy(o, c.ctype);
    SetGet(types, EnvAt(o, now), later, o.conditions, c, modified, choice, o'.conditions);
    OddSetPasses(types, c, o, now, o');
    ReadyIffPassing(types, o, c, now, later, choice, o');
  }

  lemma OddSetPasses(types: Types, c: Condition, o: Obj, now: int, o': Obj)
    requires ValidTypes(types) && c.status.StatusOther? && AllHealthy(types, o) && o'.generation == o.generation
    requires Get(o'.conditions, c.ctype) == Some(Stamped(types, EnvAt(o, now), o.conditions, c))
    requires KeptBut(EnvAt(o, now), o.conditions, o'.conditions, {c.ctype, types.root})
    ensures Present(types, o.conditions) && AllPassing(types, o')
  {
    forall t | t in types.dependents ensures Get(o.conditions, t).Some? && Passing(o', t) {
      assert Healthy(o, t);
      if t != c.ctype {
        KeptHealthy(types, EnvAt(o, now), c.ctype, o, o', t);
      }
    }
  }

  /** A new object has no conditions, so runs from it are among those above. */
  lemma NewObject(types: Types, o: Obj)
    requires o.conditions == []
    ensures Sound(types, o.generation, o.conditions) && NoneOdd(types, o.conditions)
  {
  }

  function SetTrue(t: CType): Action {
    SetCondition(Condition(t, StatusTrue, None, None, None, 0))
  }

  /** For, and then the first k dependents set True. */
  function TrueActions(types: Types, k: nat): seq<Action>
    requires k <= |types.dependents|
  {
    if k == 0 then [Initialise] else TrueActions(types, k - 1) + [SetTrue(types.dependents[k - 1])]
  }

  lemma KeptHealthy(types: Types, env: Env, t: CType, o: Obj, o': Obj, u: CType)
    requires KeptBut(env, o.conditions, o'.conditions, {t, types.root}) && u != t && u != types.root
    requires Healthy(o, u) && o.generation == o'.generation == env.generation
    ensures Healthy(o', u)
  {
    assert Kept(env, Get(o.conditions, u), Get(o'.conditions, u));
  }

  lemma HealthyAfterTrueSet(types: Types, t: CType, o: Obj, now: int, later: int, modified: bool,
                            choice: Option<Condition>, o': Obj)
    requires ValidTypes(types) && t in types.dependents && Keyed(o.conditions) && o'.generation == o.generation
    requires SetStep(types, SetTrue(t).condition, o, now, later, modified, choice, o'.conditions)
    ensures Healthy(o', t)
    ensures modified ==> KeptBut(EnvAt(o, now), o.conditions, o'.conditions, {t, types.root})
    ensures !modified ==> o'.conditions == o.conditions
  {
    SetGet(types, EnvAt(o, now), later, o.conditions, SetTrue(t).condition, modified, choice, o'.conditions);
  }

  lemma HealthyAfterTrue(types: Types, t: CType, o: Obj, o': Obj)
    requires ValidTypes(types) && t in types.dependents && Keyed(o.conditions) && Step(types, SetTrue(t), o, o')
    ensures Healthy(o', t)
    ensures forall u :: u in types.dependents && Healthy(o, u) ==> Healthy(o', u)
  {
    var now, later, modified, choice :| SetStep(types, SetTrue(t).condition, o, now, later, modified, choice, o'.conditions);
    HealthyAfterTrueSet(types, t, o, now, later, modified, choice, o');
    forall u | u in types.dependents && Healthy(o, u) ensures Healthy(o', u) {
      if modified && u != t {
        KeptHealthy(types, EnvAt(o, now), t, o, o', u);
      }
    }
  }

  lemma {:induction false} TrueRun(types: Types, start: Obj, k: nat) returns (states: seq<Obj>)
    requires ValidTypes(types) && k <= |types.dependents| && Sound(types, start.generation, start.conditions)
    ensures IsRun(types, TrueActions(types, k), states) && states[0] == start
    ensures Sound(types, states[|states| - 1].generation, states[|states| - 1].conditions)
    ensures forall i :: 0 <= i < k ==> Healthy(states[|states| - 1], types.dependents[i])
  {
    if k == 0 {
      var o := InitialisePossible(types, start);
      states := [start];
      RunSnoc(types, [], states, Initialise, o);
      assert [] + [Initialise] == TrueActions(types, 0);
      states := states + [o];
      StepSound(types, Initialise, start, o);
    } else {
      states := TrueRun(types, start, k - 1);
      var o, t := states[|states| - 1], types.dependents[k - 1];
      var o' := SetPossible(types, o, SetTrue(t).condition, 0, 0);
      RunSnoc(types, TrueActions(types, k - 1), states, SetTrue(t), o');
      states := states + [o'];
      StepSound(types, SetTrue(t), o, o');
      HealthyAfterTrue(types, t, o, o');
    }
  }

  /** It happens in a run from every sound object, a new one among them: For, every dependent set True,
      and one Set of a dependent to a status outside the three. */
  lemma OddStatusFoolsRoot(types: Types, c: Condition, start: Obj) returns (states: seq<Obj>)
    requires ValidTypes(types) && c.ctype in types.dependents && c.status.StatusOther?
    requires Sound(types, start.generation, start.conditions)
    ensures IsRun(types, TrueActions(types, |types.dependents|) + [SetCondition(c)], states) && states[0] == start
    ensures AllHealthy(types, states[|states| - 2])
    ensures IsRootReady(types, states[|states| - 1]) && !Healthy(states[|states| - 1], c.ctype)
  {
    states := TrueRun(types, start, |types.dependents|);
    var o := states[|states| - 1];
    assert AllHealthy(types, o);
    var o' := SetPossible(types, o, c, 0, 0);
    RunSnoc(types, TrueActions(types, |types.dependents|), states, SetCondition(c), o');
    states := states + [o'];
    var modified, choice :| SetStep(types, c, o, 0, 0, modified, choice, o'.conditions);
    OddSetFoolsRoot(types, c, o, 0, 0, modified, choice, o');
  }

  /* ---------- objects that other types have left behind ---------- */

  /** Every known type has a condition. */
  ghost predicate Complete(types: Types, s: seq<Condition>) {
    forall t :: t in Known(types) ==> Get(s, t).Some?
  }

  predicate RootNotTrue(types: Types, s: seq<Condition>) {
    Get(s, types.root).Some? && !Get(s, types.root).value.status.StatusTrue?
  }

  /** Initialising a missing condition leaves a root that is not True. */
  lemma UnknownSetsRoot(types: Types, env: Env, t: CType, s: seq<Condition>, s': seq<Condition>)
    requires ValidTypes(types) && Keyed(s) && t in Known(types)
    requires Get(s, t).None? && InitialisedOne(types, env, t, s, s')
    ensures Keyed(s') && RootNotTrue(types, s')
  {
    var now, later, choice :| UnknownSet(types, env, now, later, t, choice, s, s');
    var env1, c := env.(now := now), AwaitingReconciliation(t);
    if t == types.root {
      InstallKeyed(types, env1, s, c);
      InstallGet(types, env1, s, c);
    } else {
      SetGet(types, env1, later, s, c, true, choice, s');
      RootFollowsDependents(types, env1, later, s, c, choice, s');
      assert Has(s', t, StatusUnknown);
    }
  }

  /** The first k initialisations change nothing when nothing is missing, and else leave a root that
      is not True. */
  lemma {:induction false} InitialisedViaRoot(types: Types, env: Env, k: nat, states: seq<seq<Condition>>,
                                              s: seq<Condition>, s': seq<Condition>)
    requires k <= |Known(types)| && ValidTypes(types) && Keyed(s) && InitialisedVia(types, env, k, states, s, s')
    ensures Keyed(s')
    ensures if PresentTo(types, k, s) then s' == s else RootNotTrue(types, s')
  {
    if k > 0 {
      var mid := states[k - 1];
      InitialisedPrefix(types, env, k, states, s, s');
      InitialisedViaRoot(types, env, k - 1, states[..k], s, mid);
      if Get(mid, Known(types)[k - 1]).None? {
        UnknownSetsRoot(types, env, Known(types)[k - 1], mid, s');
      }
    }
  }

  /** Whatever types an object was left by, For leaves its root ready exactly when nothing was missing
      after pruning and the root was ready already, and then changes nothing more. */
  lemma ForReadyIff(types: Types, o: Obj, o': Obj)
    requires ValidTypes(types) && Keyed(o.conditions) && Step(types, Initialise, o, o')
    ensures var kept := o.(conditions := Pruned(types, o.conditions));
            if Complete(types, kept.conditions) then o' == kept else !IsRootReady(types, o')
  {
    var s, s' := Pruned(types, o.conditions), o'.conditions;
    var states :| InitialisedVia(types, EnvAt(o, 0), |Known(types)|, states, s, s');
    SubsetKeyed(o.conditions, s);
    InitialisedViaRoot(types, EnvAt(o, 0), |Known(types)|, states, s, s');
    assert PresentTo(types, |Known(types)|, s) <==> Complete(types, s) by {
      if PresentTo(types, |Known(types)|, s) {
        forall t | t in Known(types) ensures Get(s, t).Some? {
          var i :| 0 <= i < |Known(types)| && Known(types)[i] == t;
        }
      }
    }
  }

  lemma SubsetKeyed(s: seq<Condition>, s': seq<Condition>)
    requires Keyed(s) && forall c :: c in s' ==> c in s
    ensures Keyed(s')
  {
  }

  /** So after For a ready root can be trusted if and only if the pruned object lacked a condition, or
      had no ready root, or only dependents that pass. */
  lemma ForTrustedIff(types: Types, o: Obj, o': Obj)
    requires ValidTypes(types) && Keyed(o.conditions) && Step(types, Initialise, o, o')
    ensures var kept := o.(conditions := Pruned(types, o.conditions));
            (IsRootReady(types, o') ==> AllPassing(types, o')) <==>
            (Complete(types, kept.conditions) && IsRootReady(types, kept) ==> AllPassing(types, kept))
  {
    ForReadyIff(types, o, o');
  }

  /** A ready root, and dependents that other types did not count. */
  function LeftBehind(types: Types, generation: int): seq<Condition> {
    seq(|Known(types)|, i requires 0 <= i < |Known(types)| =>
      Condition(Known(types)[i], if i == 0 then StatusTrue else StatusFalse, None, None, None, generation))
  }

  lemma LeftBehindKeyed(types: Types, generation: int)
    requires ValidTypes(types)
    ensures Keyed(LeftBehind(types, generation)) && Complete(types, LeftBehind(types, generation))
    ensures Has(LeftBehind(types, generation), types.root, StatusTrue)
    ensures forall t :: t in types.dependents ==> Has(LeftBehind(types, generation), t, StatusFalse)
  {
    var s := LeftBehind(types, generation);
    forall t | t in Known(types)
      ensures Get(s, t) == Some(Condition(t, if t == types.root then StatusTrue else StatusFalse, None, None, None, generation))
    {
      var i :| 0 <= i < |Known(types)| && Known(types)[i] == t;
      assert s[i].ctype == t;
      assert s[i] in s;
    }
    assert Known(types)[0] == types.root;
    forall t | t in types.dependents ensures t in Known(types) {}
  }

  /** And it does fail: For keeps a ready root that other types left over dependents that are False. */
  lemma OtherTypesFoolRoot(types: Types, t: CType, o: Obj, o': Obj)
    requires ValidTypes(types) && types.prunes == [] && t in types.dependents
    requires o.conditions == LeftBehind(types, o.generation) && Step(types, Initialise, o, o')
    ensures IsRootReady(types, o') && !Passing(o', t)
  {
    LeftBehindKeyed(types, o.generation);
    NothingPruned(types, o.conditions);
    ForReadyIff(types, o, o');
    assert Has(o.conditions, t, StatusFalse);
  }
}
