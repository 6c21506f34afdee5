/** The shared informer manager (pkg/watch/manager.go): one informer per resource kind, kept by a set
    of owners under one lock, with EnsureWatch waiting for the first sync outside the lock. */
module WatchManager {

  datatype Gvr = Gvr(name: string)

  datatype Owner = Owner(id: string)

  /** Informer i watches created[i]; runs and cancels count what was done to each. */
  datatype State = State(watches: map<Gvr, nat>, owners: map<Gvr, set<Owner>>,
                         created: seq<Gvr>, runs: multiset<nat>, cancels: multiset<nat>)

  const EMPTY := State(map[], map[], [], multiset{}, multiset{})

  function OwnersOf(s: State, gvr: Gvr): set<Owner> {
    if gvr in s.owners then s.owners[gvr] else {}
  }

  /** The locked part of EnsureWatch. */
  function Attached(s: State, gvr: Gvr, owner: Owner): State {
    var owned := s.(owners := s.owners[gvr := OwnersOf(s, gvr) + {owner}]);
    if gvr in s.watches then owned
    else owned.(watches := s.watches[gvr := |s.created|], created := s.created + [gvr],
                runs := s.runs + multiset{|s.created|})
  }

  /** stopWatchLocked */
  function Stopped(s: State, gvr: Gvr, force: bool): State {
    if gvr !in s.watches || (!force && OwnersOf(s, gvr) != {}) then s
    else s.(watches := s.watches - {gvr}, cancels := s.cancels + multiset{s.watches[gvr]})
  }

  /** ReleaseWatch */
  function Dropped(s: State, gvr: Gvr, owner: Owner): State {
    var left := OwnersOf(s, gvr) - {owner};
    var owned := if gvr !in s.owners then s
                 else if left == {} then s.(owners := s.owners - {gvr})
                 else s.(owners := s.owners[gvr := left]);
    Stopped(owned, gvr, false)
  }

  ghost predicate Running(s: State, informer: nat) {
    exists g :: g in s.watches && s.watches[g] == informer
  }

  ghost predicate IsShutdown(s: State, s': State) {
    && s'.watches == map[] && s'.owners == map[] && s'.created == s.created && s'.runs == s.runs
    && forall i: nat :: s'.cancels[i] == s.cancels[i] + if Running(s, i) then 1 else 0
  }

  /** Exactly the owned kinds have an informer; an informer was started once, and cancelled once
      unless it is the running informer of its kind. */
  ghost predicate Valid(s: State) {
    && s.owners.Keys == s.watches.Keys
    && (forall g {:trigger s.owners[g]} :: g in s.owners ==> s.owners[g] != {})
    && (forall g {:trigger s.watches[g]} :: g in s.watches ==> s.watches[g] < |s.created| && s.created[s.watches[g]] == g)
    && (forall i: nat {:trigger s.runs[i]} :: s.runs[i] == if i < |s.created| then 1 else 0)
    && (forall i: nat {:trigger s.cancels[i]} ::
          s.cancels[i] == if i < |s.created| && !Current(s, i) then 1 else 0)
  }

  predicate Current(s: State, i: nat)
    requires i < |s.created|
  {
    s.created[i] in s.watches && s.watches[s.created[i]] == i
  }

  /* ---------- the manager ---------- */

  class Manager {
    var watches: map<Gvr, nat>
    var owners: map<Gvr, set<Owner>>
    var created: seq<Gvr>
    var runs: multiset<nat>
    var cancels: multiset<nat>

    constructor ()
      ensures Now() == EMPTY
    {
      watches, owners, created, runs, cancels := map[], map[], [], multiset{}, multiset{};
    }

    function Now(): State
      reads this
    {
      State(watches, owners, created, runs, cancels)
    }

    /** EnsureWatch up to the point where it releases the lock; informer is the one it then waits for. */
    method Attach(gvr: Gvr, owner: Owner) returns (informer: nat)
      modifies this
      ensures Now() == Attached(old(Now()), gvr, owner)
      ensures gvr in watches && informer == watches[gvr]
    {
      if gvr !in owners {
        owners := owners[gvr := {}];
      }
      owners := owners[gvr := owners[gvr] + {owner}];
      if gvr !in watches {
        informer := NewWatch(gvr);
        watches := watches[gvr := informer];
        runs := runs + multiset{informer};
      } else {
        informer := watches[gvr];
      }
    }

    /** Creates an informer; it is not running yet. */
    method NewWatch(gvr: Gvr) returns (informer: nat)
      modifies this`created
      ensures informer == |old(created)| && created == old(created) + [gvr]
    {
      informer := |created|;
      created := created + [gvr];
    }

    method StopWatchLocked(gvr: Gvr, force: bool)
      modifies this`watches, this`cancels
      ensures Now() == Stopped(old(Now()), gvr, force)
    {
      if gvr !in watches {
        return;
      }
      if !force {
        if gvr in owners && |owners[gvr]| > 0 {
          return;
        }
      }
      cancels := cancels + multiset{watches[gvr]};
      watches := watches - {gvr};
    }

    method ReleaseWatch(gvr: Gvr, owner: Owner)
      modifies this
      ensures Now() == Dropped(old(Now()), gvr, owner)
    {
      if gvr in owners {
        owners := owners[gvr := owners[gvr] - {owner}];
        if |owners[gvr]| == 0 {
          owners := owners - {gvr};
        }
      }
      assert owners == (if gvr !in old(owners) then old(owners)
                        else if old(owners)[gvr] - {owner} == {} then old(owners) - {gvr}
                        else old(owners)[gvr := old(owners)[gvr] - {owner}]);
      StopWatchLocked(gvr, false);
    }

    method Shutdown()
      requires Valid(Now())
      modifies this
      ensures IsShutdown(old(Now()), Now())
    {
      ghost var s := Now();
      var rest := watches.Keys;
      while rest != {}
        invariant rest <= s.watches.Keys
        invariant watches.Keys == rest && forall g {:trigger watches[g]} :: g in rest ==> watches[g] == s.watches[g]
        invariant owners == s.owners && created == s.created && runs == s.runs
        invariant forall i: nat {:trigger cancels[i]} :: cancels[i] == s.cancels[i] + if StoppedAmong(s, rest, i) then 1 else 0
        decreases rest
      {
        var gvr :| gvr in rest;
        ghost var before, was := cancels, rest;
        StopWatchLocked(gvr, true);
        rest := rest - {gvr};
        forall i: nat ensures cancels[i] == s.cancels[i] + if StoppedAmong(s, rest, i) then 1 else 0 {
          assert cancels[i] == before[i] + if i == s.watches[gvr] then 1 else 0;
          OneMoreStopped(s, was, gvr, i);
        }
      }
      watches := map[];
      owners := map[];
    }
  }

  /** i is the informer of a kind that is not left to stop. */
  ghost predicate StoppedAmong(s: State, rest: set<Gvr>, i: nat) {
    exists g :: g in s.watches && g !in rest && s.watches[g] == i
  }

  lemma OneMoreStopped(s: State, rest: set<Gvr>, gvr: Gvr, i: nat)
    requires Valid(s) && gvr in rest && gvr in s.watches
    ensures StoppedAmong(s, rest - {gvr}, i) <==> StoppedAmong(s, rest, i) || i == s.watches[gvr]
    ensures i == s.watches[gvr] ==> !StoppedAmong(s, rest, i)
  {
  }

  /* ---------- every section keeps the invariant ---------- */

  lemma AttachedValid(s: State, gvr: Gvr, owner: Owner)
    requires Valid(s)
    ensures Valid(Attached(s, gvr, owner))
  {
    var owned := s.(owners := s.owners[gvr := OwnersOf(s, gvr) + {owner}]);
    if gvr in s.watches {
      assert forall i: nat | i < |s.created| :: Current(owned, i) == Current(s, i);
    } else {
      NewInformerValid(s, gvr, OwnersOf(s, gvr) + {owner});
    }
  }

  lemma NewInformerValid(s: State, gvr: Gvr, owners: set<Owner>)
    requires Valid(s) && gvr !in s.watches && owners != {}
    ensures Valid(s.(owners := s.owners[gvr := owners], watches := s.watches[gvr := |s.created|],
                     created := s.created + [gvr], runs := s.runs + multiset{|s.created|}))
  {
    var s' := s.(owners := s.owners[gvr := owners], watches := s.watches[gvr := |s.created|],
                 created := s.created + [gvr], runs := s.runs + multiset{|s.created|});
    forall i: nat | i < |s'.created| ensures Current(s', i) <==> (if i < |s.created| then Current(s, i) else true) {
    }
  }

  lemma DroppedValid(s: State, gvr: Gvr, owner: Owner)
    requires Valid(s)
    ensures Valid(Dropped(s, gvr, owner))
  {
    if gvr in s.owners {
      var left := s.owners[gvr] - {owner};
      if left == {} {
        var s' := s.(owners := s.owners - {gvr}, watches := s.watches - {gvr}, cancels := s.cancels + multiset{s.watches[gvr]});
        CancelledValid(s, gvr, s');
        assert Dropped(s, gvr, owner) == s';
      } else {
        assert Dropped(s, gvr, owner) == s.(owners := s.owners[gvr := left]);
      }
    }
  }

  lemma CancelledValid(s: State, gvr: Gvr, s': State)
    requires Valid(s) && gvr in s.watches
    requires s' == s.(owners := s.owners - {gvr}, watches := s.watches - {gvr}, cancels := s.cancels + multiset{s.watches[gvr]})
    ensures Valid(s')
  {
    forall i: nat ensures s'.cancels[i] == if i < |s'.created| && !Current(s', i) then 1 else 0 {
      assert s.cancels[i] == if i < |s.created| && !Current(s, i) then 1 else 0;
    }
  }

  lemma ShutdownValid(s: State, s': State)
    requires Valid(s) && IsShutdown(s, s')
    ensures Valid(s')
  {
    forall i: nat ensures s'.cancels[i] == if i < |s'.created| && !Current(s', i) then 1 else 0 {
      assert Running(s, i) <==> i < |s.created| && Current(s, i);
    }
  }

  /* ---------- interleavings ---------- */

  datatype Call = Call(number: nat)

  /** A call of EnsureWatch that waits for the informer to sync. */
  datatype Wait = Wait(gvr: Gvr, owner: Owner, informer: nat)

  datatype System = System(manager: State, waiting: map<Call, Wait>)

  datatype Event =
    | Attach(call: Call, gvr: Gvr, owner: Owner)
    | Synced(call: Call)
    | TimedOut(call: Call)
    | Release(gvr: Gvr, owner: Owner)
    | ShutDown

  ghost predicate Next(s: System, e: Event, s': System) {
    match e
    case Attach(call, gvr, owner) =>
      && call !in s.waiting
      && s'.manager == Attached(s.manager, gvr, owner)
      && gvr in s'.manager.watches
      && s'.waiting == s.waiting[call := Wait(gvr, owner, s'.manager.watches[gvr])]
    case Synced(call) =>
      call in s.waiting && s'.manager == s.manager && s'.waiting == s.waiting - {call}
    case TimedOut(call) =>
      && call in s.waiting && s'.waiting == s.waiting - {call}
      && s'.manager == Dropped(s.manager, s.waiting[call].gvr, s.waiting[call].owner)
    case Release(gvr, owner) => s'.manager == Dropped(s.manager, gvr, owner) && s'.waiting == s.waiting
    case ShutDown => IsShutdown(s.manager, s'.manager) && s'.waiting == s.waiting
  }

  ghost predicate IsRun(events: seq<Event>, states: seq<System>) {
    && |states| == |events| + 1
    && states[0] == System(EMPTY, map[])
    && forall i {:trigger events[i]} :: 0 <= i < |events| ==> Next(states[i], events[i], states[i + 1])
  }

  /** The event ends this owner's retention of the kind. */
  predicate Drops(s: System, e: Event, gvr: Gvr, owner: Owner) {
    match e
    case Attach(_, _, _) => false
    case Synced(_) => false
    case TimedOut(call) => call in s.waiting && s.waiting[call].gvr == gvr && s.waiting[call].owner == owner
    case Release(g, o) => g == gvr && o == owner
    case ShutDown => true
  }

  lemma {:induction false} RunValid(events: seq<Event>, states: seq<System>, k: nat)
    requires IsRun(events, states) && k < |states|
    ensures Valid(states[k].manager)
  {
    if k > 0 {
      RunValid(events, states, k - 1);
      var s, s' := states[k - 1].manager, states[k].manager;
      match events[k - 1]
      case Attach(_, gvr, owner) => AttachedValid(s, gvr, owner);
      case Synced(_) =>
      case TimedOut(call) => DroppedValid(s, states[k - 1].waiting[call].gvr, states[k - 1].waiting[call].owner);
      case Release(gvr, owner) => DroppedValid(s, gvr, owner);
      case ShutDown => ShutdownValid(s, s');
    }
  }

  /** Under every interleaving: a kind has a running informer exactly when it has an owner; every
      informer was started once and cancelled at most once, and of all those ever created for the
      kind exactly the running one is not cancelled. */
  lemma RunningIffOwned(events: seq<Event>, states: seq<System>, k: nat, gvr: Gvr, i: nat)
    requires IsRun(events, states) && k < |states|
    ensures var s := states[k].manager;
            && (gvr in s.watches <==> OwnersOf(s, gvr) != {})
            && (gvr in s.watches ==> s.watches[gvr] < |s.created| && s.created[s.watches[gvr]] == gvr)
            && (i < |s.created| ==> s.runs[i] == 1 && s.cancels[i] <= 1)
            && (i < |s.created| && s.created[i] == gvr ==> (s.cancels[i] == 0 <==> gvr in s.watches && s.watches[gvr] == i))
  {
    RunValid(events, states, k);
  }

  /** The owner holds the kind, through this informer. */
  predicate Holds(s: State, gvr: Gvr, owner: Owner, informer: nat) {
    owner in OwnersOf(s, gvr) && gvr in s.watches && s.watches[gvr] == informer
  }

  lemma AttachedHolds(s: State, g: Gvr, o: Owner, gvr: Gvr, owner: Owner, informer: nat)
    ensures Holds(s, gvr, owner, informer) ==> Holds(Attached(s, g, o), gvr, owner, informer)
    ensures Holds(Attached(s, gvr, owner), gvr, owner, Attached(s, gvr, owner).watches[gvr])
  {
  }

  lemma DroppedHolds(s: State, g: Gvr, o: Owner, gvr: Gvr, owner: Owner, informer: nat)
    requires Holds(s, gvr, owner, informer)
    ensures if g == gvr && o == owner then owner !in OwnersOf(Dropped(s, g, o), gvr)
            else Holds(Dropped(s, g, o), gvr, owner, informer)
  {
    if g == gvr && o != owner {
      assert owner in OwnersOf(s, gvr) - {o};
    }
  }

  lemma HeldNotCancelled(s: State, gvr: Gvr, owner: Owner, informer: nat)
    requires Valid(s) && Holds(s, gvr, owner, informer)
    ensures s.cancels[informer] == 0
  {
  }

  lemma StepHolds(s: System, e: Event, s': System, gvr: Gvr, owner: Owner, informer: nat)
    requires Next(s, e, s') && Holds(s.manager, gvr, owner, informer)
    ensures Drops(s, e, gvr, owner) ==> owner !in OwnersOf(s'.manager, gvr)
    ensures !Drops(s, e, gvr, owner) ==> Holds(s'.manager, gvr, owner, informer)
  {
    match e
    case Attach(_, g, o) => AttachedHolds(s.manager, g, o, gvr, owner, informer);
    case Synced(_) =>
    case TimedOut(call) => DroppedHolds(s.manager, s.waiting[call].gvr, s.waiting[call].owner, gvr, owner, informer);
    case Release(g, o) => DroppedHolds(s.manager, g, o, gvr, owner, informer);
    case ShutDown =>
  }

  /** Under every interleaving: from its EnsureWatch on, an owner keeps the very informer it waited
      for, never cancelled, until it releases, one of its own calls times out, or Shutdown runs. */
  lemma {:induction false} OwnerKeepsInformer(events: seq<Event>, states: seq<System>, i: nat, k: nat, informer: nat)
    requires IsRun(events, states) && i < k < |states| && events[i].Attach?
    requires states[i + 1].waiting == states[i].waiting[events[i].call := Wait(events[i].gvr, events[i].owner, informer)]
    requires forall j {:trigger events[j]} :: i < j < k ==> !Drops(states[j], events[j], events[i].gvr, events[i].owner)
    ensures Holds(states[k].manager, events[i].gvr, events[i].owner, informer)
    ensures states[k].manager.cancels[informer] == 0
  {
    RunValid(events, states, k);
    if k > i + 1 {
      OwnerKeepsInformer(events, states, i, k - 1, informer);
      StepHolds(states[k - 1], events[k - 1], states[k], events[i].gvr, events[i].owner, informer);
    } else {
      AttachedHolds(states[i].manager, events[i].gvr, events[i].owner, events[i].gvr, events[i].owner, informer);
      assert Next(states[i], events[i], states[i + 1]);
      assert states[i + 1].waiting[events[i].call].informer == informer;
    }
    HeldNotCancelled(states[k].manager, events[i].gvr, events[i].owner, informer);
  }

  /** Two calls under one id do not protect each other: a late timeout of the first drops what the
      second, which synced, retains. */
  lemma OverlappingCallsLoseWatch(gvr: Gvr, owner: Owner)
    ensures exists events: seq<Event>, states: seq<System> ::
              IsRun(events, states) && |events| == 4
              && events[1] == Attach(Call(2), gvr, owner) && events[2] == Synced(Call(2))
              && events[3] == TimedOut(Call(1))
              && Holds(states[3].manager, gvr, owner, 0) && gvr !in states[4].manager.watches
  {
    var one := Attached(EMPTY, gvr, owner);
    var w := Wait(gvr, owner, 0);
    var events := [Attach(Call(1), gvr, owner), Attach(Call(2), gvr, owner), Synced(Call(2)), TimedOut(Call(1))];
    var states := [System(EMPTY, map[]), System(one, map[Call(1) := w]), System(one, map[Call(1) := w, Call(2) := w]),
                   System(one, map[Call(1) := w]), System(Dropped(one, gvr, owner), map[])];
    assert Attached(one, gvr, owner) == one by {
      assert OwnersOf(one, gvr) + {owner} == OwnersOf(one, gvr);
    }
    assert OwnersOf(one, gvr) - {owner} == {};
    assert map[Call(1) := w, Call(2) := w] - {Call(2)} == map[Call(1) := w];
    assert map[Call(1) := w] - {Call(1)} == map[];
    assert Next(states[0], events[0], states[1]);
    assert Next(states[1], events[1], states[2]);
    assert Next(states[2], events[2], states[3]);
    assert Next(states[3], events[3], states[4]);
    assert IsRun(events, states);
  }
}
