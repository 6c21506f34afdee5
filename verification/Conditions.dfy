/** Condition aggregation (pkg/apis): a mutable list of conditions whose root is derived from the
    conditions it depends on, with generations that go stale. */
module Conditions {

  import opened Collections
  import Digraph

  datatype CType = CType(name: string)

  /** metav1.ConditionStatus is an open string type; three of its values have a meaning. */
  datatype Status = StatusTrue | StatusFalse | StatusUnknown | StatusOther(text: string)

  datatype Text = Text(text: string)

  datatype Condition = Condition(ctype: CType, status: Status, time: Option<int>, reason: Option<Text>,
                                 message: Option<Text>, observed: int)

  datatype Types = Types(root: CType, dependents: seq<CType>, prunes: seq<CType>)

  /** What a Set reads besides the list: the object's generation, whether it is being deleted,
      its creation time, and the clock. */
  datatype Env = Env(generation: int, deleting: bool, created: int, now: int)

  /* ---------- order of the stored list ---------- */

  /** compareConditionTime(a, b, false) <= 0: nil is earliest. */
  predicate NotLater(a: Option<int>, b: Option<int>) {
    a.None? || (b.Some? && a.value <= b.value)
  }

  /** The comparison Set sorts by: the root last, the rest by transition time. */
  predicate InOrder(root: CType, a: Condition, b: Condition) {
    if a.ctype == root then b.ctype == root
    else b.ctype == root || NotLater(a.time, b.time)
  }

  /** A stable sort, as slices.SortStableFunc performs it. */
  function Insert(root: CType, s: seq<Condition>, c: Condition): seq<Condition> {
    if s == [] then [c]
    else if InOrder(root, s[|s| - 1], c) then s + [c]
    else Insert(root, s[..|s| - 1], c) + [s[|s| - 1]]
  }

  function SortStable(root: CType, s: seq<Condition>): seq<Condition> {
    if s == [] then [] else Insert(root, SortStable(root, s[..|s| - 1]), s[|s| - 1])
  }

  ghost predicate Arranged(root: CType, s: seq<Condition>) {
    forall i, j :: 0 <= i < j < |s| ==> InOrder(root, s[i], s[j])
  }

  lemma {:induction false} InsertFacts(root: CType, s: seq<Condition>, c: Condition)
    requires Arranged(root, s)
    ensures Arranged(root, Insert(root, s, c))
    ensures forall d :: d in Insert(root, s, c) <==> d in s || d == c
  {
    if s != [] {
      var n := |s| - 1;
      assert s == s[..n] + [s[n]];
      if !InOrder(root, s[n], c) {
        InsertFacts(root, s[..n], c);
        var r := Insert(root, s[..n], c);
        forall i | 0 <= i < |r| ensures InOrder(root, r[i], s[n]) {
          assert r[i] == c || r[i] in s[..n];
        }
      }
    }
  }

  lemma {:induction false} SortFacts(root: CType, s: seq<Condition>)
    ensures Arranged(root, SortStable(root, s))
    ensures forall c :: c in SortStable(root, s) <==> c in s
  {
    if s != [] {
      var n := |s| - 1;
      assert s == s[..n] + [s[n]];
      SortFacts(root, s[..n]);
      InsertFacts(root, SortStable(root, s[..n]), s[n]);
    }
  }

  /* ---------- lookup ---------- */

  /** Conditions are a list keyed by type. */
  ghost predicate Keyed(s: seq<Condition>) {
    forall c, d {:trigger c in s, d in s} :: c in s && d in s && c.ctype == d.ctype ==> c == d
  }

  function Get(s: seq<Condition>, t: CType): (r: Option<Condition>)
    ensures r.Some? ==> r.value in s && r.value.ctype == t
    ensures r.None? ==> forall c :: c in s ==> c.ctype != t
  {
    if s == [] then None
    else if s[0].ctype == t then Some(s[0])
    else Get(s[1..], t)
  }

  lemma GetUnique(s: seq<Condition>, c: Condition)
    requires Keyed(s) && c in s
    ensures Get(s, c.ctype) == Some(c)
  {
  }

  /* ---------- Set ---------- */

  predicate IsDependent(types: Types, t: CType) {
    t in types.dependents || t == types.root
  }

  /** While the object is being deleted, a Set moves every other condition to its generation. */
  function Bumped(env: Env, c: Condition): Condition {
    if env.deleting then c.(observed := env.generation) else c
  }

  function Others(env: Env, s: seq<Condition>, t: CType): seq<Condition> {
    if s == [] then []
    else
      var rest := Others(env, s[..|s| - 1], t);
      if s[|s| - 1].ctype == t then rest else rest + [Bumped(env, s[|s| - 1])]
  }

  lemma {:induction false} OthersMembers(env: Env, s: seq<Condition>, t: CType)
    ensures forall c :: c in s && c.ctype != t ==> Bumped(env, c) in Others(env, s, t)
    ensures forall c :: c in Others(env, s, t) ==> exists d :: d in s && d.ctype != t && c == Bumped(env, d)
  {
    if s != [] {
      var n := |s| - 1;
      OthersMembers(env, s[..n], t);
      assert s == s[..n] + [s[n]];
    }
  }

  /** The condition that Set stores. */
  function Stamped(types: Types, env: Env, s: seq<Condition>, c: Condition): Condition {
    var prior := Get(s, c.ctype);
    c.(observed := env.generation,
       time := if prior.Some? then (if prior.value.status == c.status then prior.value.time else Some(env.now))
               else if IsDependent(types, c.ctype) then Some(env.created)
               else Some(env.now))
  }

  /** The list after storing c, or None when that changes nothing. */
  function Install(types: Types, env: Env, s: seq<Condition>, c: Condition): Option<seq<Condition>> {
    var stored := Stamped(types, env, s, c);
    if Get(s, c.ctype) == Some(stored) then None
    else Some(SortStable(types.root, Others(env, s, c.ctype) + [stored]))
  }

  predicate Unhealthy(types: Types, generation: int, c: Condition) {
    c.ctype in types.dependents && (c.status.StatusFalse? || c.status.StatusUnknown? || c.observed != generation)
  }

  function RootFrom(types: Types, c: Condition): Condition {
    Condition(types.root, c.status, None, c.reason, c.message, 0)
  }

  function RootTrue(types: Types): Condition {
    Condition(types.root, StatusTrue, None, Some(Text(types.root.name)), Some(Text("")), 0)
  }

  /** Some dependent in s is unhealthy and has this status. */
  ghost predicate Ailing(types: Types, generation: int, s: seq<Condition>, status: Status) {
    exists d :: d in s && Unhealthy(types, generation, d) && d.status == status
  }

  /** choice copies an unhealthy dependent with this status, and no other such has a later time. */
  ghost predicate CopiesLatest(types: Types, generation: int, s: seq<Condition>, status: Status, choice: Option<Condition>) {
    exists c :: c in s && Unhealthy(types, generation, c) && c.status == status && choice == Some(RootFrom(types, c))
                && NoneLater(types, generation, s, c)
  }

  ghost predicate NoneLater(types: Types, generation: int, s: seq<Condition>, c: Condition) {
    forall d :: d in s && Unhealthy(types, generation, d) && d.status == c.status ==> NotLater(d.time, c.time)
  }

  /** What the root is set to, given the list s: some False dependent with the latest transition
      time, else some Unknown one, else True when all are healthy, else it is left alone. */
  ghost predicate RootChoice(types: Types, generation: int, s: seq<Condition>, choice: Option<Condition>) {
    if Ailing(types, generation, s, StatusFalse) then CopiesLatest(types, generation, s, StatusFalse, choice)
    else if Ailing(types, generation, s, StatusUnknown) then CopiesLatest(types, generation, s, StatusUnknown, choice)
    else if exists d :: d in s && Unhealthy(types, generation, d) then choice == None
    else choice == Some(RootTrue(types))
  }

  ghost function WithRoot(types: Types, env: Env, mid: seq<Condition>, choice: Option<Condition>): seq<Condition> {
    if choice.None? || Install(types, env, mid, choice.value).None? then mid
    else Install(types, env, mid, choice.value).value
  }

  /** The whole of Set, root included: later is the clock when the root is written. */
  ghost predicate SetRel(types: Types, env: Env, later: int, s: seq<Condition>, c: Condition,
                         modified: bool, choice: Option<Condition>, s': seq<Condition>)
  {
    match Install(types, env, s, c)
    case None => !modified && s' == s
    case Some(mid) =>
      modified && if c.ctype == types.root then s' == mid
                  else RootChoice(types, env.generation, mid, choice)
                       && s' == WithRoot(types, env.(now := later), mid, choice)
  }

  /* ---------- the methods ---------- */

  class Object {
    var conditions: seq<Condition>
    var generation: int
    var deleting: bool
    const created: int

    constructor (created: int, generation: int)
      ensures conditions == [] && this.generation == generation && !deleting && this.created == created
    {
      this.conditions, this.generation, this.deleting, this.created := [], generation, false, created;
    }

    function At(now: int): Env
      reads this
    {
      Env(generation, deleting, created, now)
    }
  }

  /** The loop of Set: the other conditions, and the stamped one unless it is stored already. */
  method Replace(types: Types, env: Env, s: seq<Condition>, condition0: Condition)
    returns (r: Option<(seq<Condition>, Condition)>)
    requires Keyed(s)
    ensures r.None? <==> Get(s, condition0.ctype) == Some(Stamped(types, env, s, condition0))
    ensures r.Some? ==> r.value == (Others(env, s, condition0.ctype), Stamped(types, env, s, condition0))
  {
    var condition := condition0.(observed := env.generation);
    var conditions: seq<Condition> := [];
    var found := false;
    ghost var prior, stored := Get(s, condition0.ctype), Stamped(types, env, s, condition0);
    for i := 0 to |s|
      invariant conditions == Others(env, s[..i], condition0.ctype)
      invariant condition.ctype == condition0.ctype
      invariant found ==> condition == stored && prior.Some? && prior.value != stored
      invariant !found ==> condition == condition0.(observed := env.generation)
                           && forall j :: 0 <= j < i ==> s[j].ctype != condition0.ctype
    {
      var cond := s[i];
      assert s[..i + 1][..i] == s[..i] && cond in s;
      if cond.ctype != condition.ctype {
        if env.deleting {
          cond := cond.(observed := env.generation);
        }
        conditions := conditions + [cond];
      } else {
        GetUnique(s, cond);
        found := true;
        condition := condition.(time := if condition.status == cond.status then cond.time else Some(env.now));
        if condition == cond {
          return None;
        }
      }
    }
    assert s[..|s|] == s;
    if !found {
      condition := condition.(time := if IsDependent(types, condition.ctype) then Some(env.created) else Some(env.now));
    }
    return Some((conditions, condition));
  }

  method Set(types: Types, o: Object, condition: Condition, now: int, later: int)
    returns (modified: bool, ghost choice: Option<Condition>)
    requires Keyed(o.conditions)
    modifies o`conditions
    ensures SetRel(types, o.At(now), later, old(o.conditions), condition, modified, choice, o.conditions)
    ensures Keyed(o.conditions)
    decreases if condition.ctype == types.root then 1 else 3
  {
    InstallKeyed(types, o.At(now), o.conditions, condition);
    var r := Replace(types, o.At(now), o.conditions, condition);
    if r.None? {
      return false, None;
    }
    o.conditions := SortStable(types.root, r.value.0 + [r.value.1]);
    choice := RecomputeRoot(types, o, condition.ctype, later);
    return true, choice;
  }

  method RecomputeRoot(types: Types, o: Object, t: CType, now: int) returns (ghost choice: Option<Condition>)
    requires Keyed(o.conditions)
    modifies o`conditions
    ensures Keyed(o.conditions)
    ensures t == types.root ==> o.conditions == old(o.conditions)
    ensures t != types.root ==>
              RootChoice(types, o.generation, old(o.conditions), choice)
              && o.conditions == WithRoot(types, o.At(now), old(o.conditions), choice)
    decreases if t == types.root then 0 else 2
  {
    choice := None;
    if t == types.root {
      return;
    }
    ghost var mid := o.conditions;
    var deps := FindUnhealthyDependents(types, o);
    if deps == [] {
      ChooseTrue(types, o.generation, mid);
      choice := Some(RootTrue(types));
      var _, _ := Set(types, o, RootTrue(types), now, now);
    } else {
      var unhealthy := FindMostUnhealthy(deps);
      ChooseFrom(types, o.generation, mid, deps, unhealthy);
      if unhealthy.Some? {
        choice := Some(RootFrom(types, unhealthy.value));
        var _, _ := Set(types, o, RootFrom(types, unhealthy.value), now, now);
      }
    }
  }

  ghost predicate UnhealthyIn(types: Types, generation: int, s: seq<Condition>, deps: seq<Condition>) {
    forall c :: c in deps <==> c in s && Unhealthy(types, generation, c)
  }

  lemma ChooseTrue(types: Types, generation: int, s: seq<Condition>)
    requires UnhealthyIn(types, generation, s, [])
    ensures RootChoice(types, generation, s, Some(RootTrue(types)))
  {
    assert forall c :: c in s ==> !Unhealthy(types, generation, c) by {
      forall c | c in s ensures !Unhealthy(types, generation, c) {
        assert c !in [];
      }
    }
  }

  lemma ChooseFrom(types: Types, generation: int, s: seq<Condition>, deps: seq<Condition>, worst: Option<Condition>)
    requires UnhealthyIn(types, generation, s, deps) && deps != []
    requires MostUnhealthy(deps, worst)
    ensures RootChoice(types, generation, s, if worst.Some? then Some(RootFrom(types, worst.value)) else None)
  {
    assert deps[0] in deps;
    if worst.Some? {
      assert NoneLater(types, generation, s, worst.value);
      assert CopiesLatest(types, generation, s, worst.value.status, Some(RootFrom(types, worst.value)));
    }
  }

  method FindUnhealthyDependents(types: Types, o: Object) returns (deps: seq<Condition>)
    ensures UnhealthyIn(types, o.generation, o.conditions, deps) && LatestFirst(deps)
  {
    deps := [];
    if |types.dependents| == 0 {
      return;
    }
    for i := 0 to |o.conditions|
      invariant UnhealthyIn(types, o.generation, o.conditions[..i], deps)
    {
      var dep := o.conditions[i];
      assert o.conditions[..i + 1] == o.conditions[..i] + [dep];
      if dep.ctype in types.dependents {
        if dep.status.StatusFalse? || dep.status.StatusUnknown? || dep.observed != o.generation {
          deps := deps + [dep];
        }
      }
    }
    assert o.conditions[..|o.conditions|] == o.conditions;
    deps := SortByTimeDescending(deps);
  }

  ghost predicate LatestFirst(s: seq<Condition>) {
    forall i, j :: 0 <= i < j < |s| ==> NotLater(s[j].time, s[i].time)
  }

  /** slices.SortFunc by descending time: some arrangement of the same conditions. */
  method SortByTimeDescending(deps: seq<Condition>) returns (r: seq<Condition>)
    ensures multiset(r) == multiset(deps)
    ensures forall c :: c in r <==> c in deps
    ensures LatestFirst(r)
  {
    r := [];
    for n := 0 to |deps|
      invariant multiset(r) == multiset(deps[..n]) && LatestFirst(r)
    {
      PrefixSnoc(deps, n);
      r := InsertByTime(r, deps[n]);
    }
    assert deps[..|deps|] == deps;
    assert forall c :: c in r <==> c in multiset(r);
  }

  method InsertByTime(list: seq<Condition>, c: Condition) returns (r: seq<Condition>)
    requires LatestFirst(list)
    ensures multiset(r) == multiset(list) + multiset{c} && LatestFirst(r)
  {
    var k := 0;
    while k < |list| && NotLater(c.time, list[k].time)
      invariant 0 <= k <= |list|
      invariant forall i :: 0 <= i < k ==> NotLater(c.time, list[i].time)
    {
      k := k + 1;
    }
    r := list[..k] + [c] + list[k..];
    InsertedPermutes(list, k, c);
    InsertedLatestFirst(list, k, c);
  }

  lemma InsertedPermutes<T>(list: seq<T>, k: nat, c: T)
    requires k <= |list|
    ensures multiset(list[..k] + [c] + list[k..]) == multiset(list) + multiset{c}
  {
    assert list == list[..k] + list[k..];
  }

  lemma InsertedLatestFirst(list: seq<Condition>, k: nat, c: Condition)
    requires k <= |list| && LatestFirst(list)
    requires forall i :: 0 <= i < k ==> NotLater(c.time, list[i].time)
    requires k < |list| ==> !NotLater(c.time, list[k].time)
    ensures LatestFirst(list[..k] + [c] + list[k..])
  {
    var r := list[..k] + [c] + list[k..];
    forall i, j | 0 <= i < j < |r| ensures NotLater(r[j].time, r[i].time) {
      assert r[i] == (if i < k then list[i] else if i == k then c else list[i - 1]);
      assert r[j] == (if j < k then list[j] else if j == k then c else list[j - 1]);
    }
  }

  /** False before Unknown, and among those the latest transition; none when neither occurs. */
  ghost predicate MostUnhealthy(deps: seq<Condition>, r: Option<Condition>) {
    if r.None? then forall d :: d in deps ==> !d.status.StatusFalse? && !d.status.StatusUnknown?
    else
      && r.value in deps
      && (r.value.status.StatusFalse? || r.value.status.StatusUnknown?)
      && (forall d :: d in deps && d.status.StatusFalse? ==> r.value.status.StatusFalse?)
      && forall d :: d in deps && d.status == r.value.status ==> NotLater(d.time, r.value.time)
  }

  method FindMostUnhealthy(deps0: seq<Condition>) returns (r: Option<Condition>)
    ensures MostUnhealthy(deps0, r)
  {
    var deps := SortByTimeDescending(deps0);
    assert forall d :: d in deps0 ==> d in deps;
    for i := 0 to |deps|
      invariant forall j :: 0 <= j < i ==> !deps[j].status.StatusFalse?
    {
      if deps[i].status.StatusFalse? {
        assert deps[i] in deps;
        return Some(deps[i]);
      }
    }
    for i := 0 to |deps|
      invariant forall j :: 0 <= j < i ==> !deps[j].status.StatusUnknown?
    {
      if deps[i].status.StatusUnknown? {
        assert deps[i] in deps;
        return Some(deps[i]);
      }
    }
    return None;
  }

  /* ---------- what a Set does to each condition ---------- */

  ghost predicate Kept(env: Env, a: Option<Condition>, b: Option<Condition>) {
    if a.None? then b.None? else b == Some(Bumped(env, a.value))
  }

  ghost predicate SameOrKept(env: Env, a: Option<Condition>, b: Option<Condition>) {
    a == b || Kept(env, a, b)
  }

  lemma InstallKeyed(types: Types, env: Env, s: seq<Condition>, c: Condition)
    requires Keyed(s)
    ensures Keyed(SortStable(types.root, Others(env, s, c.ctype) + [Stamped(types, env, s, c)]))
    ensures Install(types, env, s, c).Some? ==> Keyed(Install(types, env, s, c).value)
  {
    OthersMembers(env, s, c.ctype);
    SortFacts(types.root, Others(env, s, c.ctype) + [Stamped(types, env, s, c)]);
  }

  /** Install stores exactly one condition and keeps the others. */
  lemma InstallGet(types: Types, env: Env, s: seq<Condition>, c: Condition)
    requires Keyed(s) && Install(types, env, s, c).Some?
    ensures Get(Install(types, env, s, c).value, c.ctype) == Some(Stamped(types, env, s, c))
    ensures forall t :: t != c.ctype ==> Kept(env, Get(s, t), Get(Install(types, env, s, c).value, t))
    ensures Arranged(types.root, Install(types, env, s, c).value)
  {
    var stored := Stamped(types, env, s, c);
    var mid := Install(types, env, s, c).value;
    OthersMembers(env, s, c.ctype);
    SortFacts(types.root, Others(env, s, c.ctype) + [stored]);
    InstallKeyed(types, env, s, c);
    GetUnique(mid, stored);
    forall t | t != c.ctype ensures Kept(env, Get(s, t), Get(mid, t)) {
      if Get(s, t).Some? {
        GetUnique(mid, Bumped(env, Get(s, t).value));
      }
    }
  }

  /** Every condition outside `except` is kept. */
  ghost predicate KeptBut(env: Env, s: seq<Condition>, s': seq<Condition>, except: set<CType>) {
    forall t {:trigger Get(s', t)} :: t !in except ==> Kept(env, Get(s, t), Get(s', t))
  }

  ghost predicate SameBut(env: Env, s: seq<Condition>, s': seq<Condition>, except: CType) {
    forall t {:trigger Get(s', t)} :: t != except ==> SameOrKept(env, Get(s, t), Get(s', t))
  }

  /** What writing the root does. */
  lemma RootWritten(types: Types, env: Env, mid: seq<Condition>, choice: Option<Condition>)
    requires Keyed(mid) && (choice.Some? ==> choice.value.ctype == types.root)
    ensures Keyed(WithRoot(types, env, mid, choice))
    ensures SameBut(env, mid, WithRoot(types, env, mid, choice), types.root)
    ensures Arranged(types.root, mid) ==> Arranged(types.root, WithRoot(types, env, mid, choice))
    ensures var r := Get(WithRoot(types, env, mid, choice), types.root);
            if choice.None? then r == Get(mid, types.root)
            else r.Some? && r.value == choice.value.(observed := env.generation, time := r.value.time)
  {
    if choice.Some? {
      InstallKeyed(types, env, mid, choice.value);
      if Install(types, env, mid, choice.value).Some? {
        InstallGet(types, env, mid, choice.value);
      }
    }
  }

  lemma KeptOnce(env: Env, env': Env, a: Option<Condition>, b: Option<Condition>, c: Option<Condition>)
    requires env.generation == env'.generation && env.deleting == env'.deleting
    ensures Kept(env, a, b) && SameOrKept(env', b, c) ==> Kept(env, a, c)
  {
  }

  lemma KeptAt(env: Env, env': Env, s: seq<Condition>, mid: seq<Condition>, s': seq<Condition>, a: CType, b: CType, t: CType)
    requires env.generation == env'.generation && env.deleting == env'.deleting && t != a && t != b
    requires KeptBut(env, s, mid, {a}) && SameBut(env', mid, s', b)
    ensures Kept(env, Get(s, t), Get(s', t))
  {
    KeptOnce(env, env', Get(s, t), Get(mid, t), Get(s', t));
  }

  lemma KeptTwice(env: Env, env': Env, s: seq<Condition>, mid: seq<Condition>, s': seq<Condition>, a: CType, b: CType)
    requires env.generation == env'.generation && env.deleting == env'.deleting && a != b
    requires KeptBut(env, s, mid, {a}) && SameBut(env', mid, s', b)
    ensures KeptBut(env, s, s', {a, b})
  {
    forall t | t !in {a, b} ensures Kept(env, Get(s, t), Get(s', t)) {
      KeptAt(env, env', s, mid, s', a, b, t);
    }
  }

  lemma KeptEnds(env: Env, env': Env, s: seq<Condition>, mid: seq<Condition>, s': seq<Condition>, a: CType, b: CType)
    requires env.generation == env'.generation && env.deleting == env'.deleting && a != b
    requires KeptBut(env, s, mid, {a}) && SameBut(env', mid, s', b)
    ensures Get(mid, a).Some? && Get(mid, a).value.observed == env.generation ==> Get(s', a) == Get(mid, a)
    ensures Get(s', b) == Get(mid, b) ==> Kept(env, Get(s, b), Get(s', b))
  {
    assert SameOrKept(env', Get(mid, a), Get(s', a));
    assert Kept(env, Get(s, b), Get(mid, b));
  }

  /** A Set of a condition other than the root: that condition is stored at the current generation,
      the root becomes the choice, and every other condition is kept. */
  lemma SetGet(types: Types, env: Env, later: int, s: seq<Condition>, c: Condition,
               modified: bool, choice: Option<Condition>, s': seq<Condition>)
    requires Keyed(s) && c.ctype != types.root
    requires SetRel(types, env, later, s, c, modified, choice, s')
    ensures Keyed(s')
    ensures Get(s', c.ctype) == Some(Stamped(types, env, s, c))
    ensures if modified then KeptBut(env, s, s', {c.ctype, types.root}) else s' == s
    ensures modified && choice.Some? ==>
              var r := Get(s', types.root);
              r.Some? && r.value == choice.value.(observed := env.generation, time := r.value.time)
    ensures modified && choice.None? ==> Kept(env, Get(s, types.root), Get(s', types.root))
    ensures modified ==> Arranged(types.root, s')
  {
    if modified {
      var mid := Install(types, env, s, c).value;
      InstallKeyed(types, env, s, c);
      InstallGet(types, env, s, c);
      ChoiceIsRoot(types, env.generation, mid, choice);
      RootWritten(types, env.(now := later), mid, choice);
      KeptTwice(env, env.(now := later), s, mid, s', c.ctype, types.root);
      KeptEnds(env, env.(now := later), s, mid, s', c.ctype, types.root);
    }
  }

  /** The stored order: the root last, the others by the time of their last transition, those without
      a time first. */
  lemma ArrangedMeans(root: CType, s: seq<Condition>, i: nat, j: nat)
    requires Arranged(root, s) && i < j < |s|
    ensures s[i].ctype == root ==> s[j].ctype == root
    ensures s[j].ctype != root && s[i].time.Some? ==> s[j].time.Some? && s[i].time.value <= s[j].time.value
  {
    assert InOrder(root, s[i], s[j]);
  }

  /** What a Set leaves alone: every condition but the one set and the root stays as it was, stale or
      not; only while the object is being deleted are they all moved to its generation. */
  lemma SetLeavesOthers(types: Types, env: Env, later: int, s: seq<Condition>, c: Condition,
                        modified: bool, choice: Option<Condition>, s': seq<Condition>, t: CType)
    requires Keyed(s) && c.ctype != types.root && t != c.ctype && t != types.root
    requires SetRel(types, env, later, s, c, modified, choice, s')
    ensures Get(s', t).Some? <==> Get(s, t).Some?
    ensures !env.deleting ==> Get(s', t) == Get(s, t)
    ensures env.deleting && Get(s, t).Some? ==>
              Get(s', t).value.(observed := 0) == Get(s, t).value.(observed := 0)
              && Get(s', t).value.observed == if modified then env.generation else Get(s, t).value.observed
  {
    SetGet(types, env, later, s, c, modified, choice, s');
    if modified {
      assert Kept(env, Get(s, t), Get(s', t));
    }
  }

  /** What a Set stores: the given status, reason and message, observed at the object's generation. The
      time stays when the status does; a change is stamped with the clock, and the first time of a
      condition that the root depends on with the object's creation. */
  lemma SetStores(types: Types, env: Env, later: int, s: seq<Condition>, c: Condition,
                  modified: bool, choice: Option<Condition>, s': seq<Condition>)
    requires Keyed(s) && c.ctype != types.root
    requires SetRel(types, env, later, s, c, modified, choice, s')
    ensures Get(s', c.ctype).Some?
    ensures var d, prior := Get(s', c.ctype).value, Get(s, c.ctype);
            && d.status == c.status && d.reason == c.reason && d.message == c.message && d.observed == env.generation
            && (prior.Some? && prior.value.status == c.status ==> d.time == prior.value.time)
            && (prior.Some? && prior.value.status != c.status ==> d.time == Some(env.now))
            && (prior.None? ==> d.time == Some(if c.ctype in types.dependents then env.created else env.now))
    ensures !modified <==> Get(s, c.ctype) == Get(s', c.ctype)
  {
    SetGet(types, env, later, s, c, modified, choice, s');
  }

  lemma ChoiceIsRoot(types: Types, generation: int, s: seq<Condition>, choice: Option<Condition>)
    requires RootChoice(types, generation, s, choice)
    ensures choice.Some? ==> choice.value.ctype == types.root
  {
  }

  /* ---------- the root as a function of its dependents ---------- */

  /** newConditionTypes never lets the root depend on itself. */
  ghost predicate ValidTypes(types: Types) {
    types.root !in types.dependents
  }

  ghost predicate Has(s: seq<Condition>, t: CType, status: Status) {
    Get(s, t).Some? && Get(s, t).value.status == status
  }

  ghost predicate AnyDependent(types: Types, s: seq<Condition>, status: Status) {
    exists t :: t in types.dependents && Has(s, t, status)
  }

  ghost predicate AllCurrent(types: Types, generation: int, s: seq<Condition>) {
    forall t :: t in types.dependents && Get(s, t).Some? ==> Get(s, t).value.observed == generation
  }

  /** The root repeats the reason and message of a dependent with this status and the latest
      transition time. */
  ghost predicate Echoes(types: Types, s: seq<Condition>, status: Status) {
    exists t :: t in types.dependents && Has(s, t, status) && EchoesOne(types, s, status, t)
  }

  ghost predicate EchoesOne(types: Types, s: seq<Condition>, status: Status, t: CType)
    requires Has(s, t, status)
  {
    && Has(s, types.root, status)
    && Get(s, types.root).value.reason == Get(s, t).value.reason
    && Get(s, types.root).value.message == Get(s, t).value.message
    && forall u :: u in types.dependents && Has(s, u, status) ==> NotLater(Get(s, u).value.time, Get(s, t).value.time)
  }

  ghost function RootStatus(types: Types, s: seq<Condition>): Option<Status> {
    if Get(s, types.root).Some? then Some(Get(s, types.root).value.status) else None
  }

  lemma AilingIff(types: Types, generation: int, s: seq<Condition>, status: Status)
    requires Keyed(s) && (status.StatusFalse? || status.StatusUnknown?)
    ensures Ailing(types, generation, s, status) <==> AnyDependent(types, s, status)
  {
    if AnyDependent(types, s, status) {
      var t :| t in types.dependents && Has(s, t, status);
      assert Get(s, t).value in s;
    }
    if Ailing(types, generation, s, status) {
      var d :| d in s && Unhealthy(types, generation, d) && d.status == status;
      GetUnique(s, d);
      assert Has(s, d.ctype, status);
    }
  }

  lemma UnhealthyIff(types: Types, generation: int, s: seq<Condition>)
    requires Keyed(s)
    ensures (exists d :: d in s && Unhealthy(types, generation, d)) <==>
            AnyDependent(types, s, StatusFalse) || AnyDependent(types, s, StatusUnknown) || !AllCurrent(types, generation, s)
  {
    AilingIff(types, generation, s, StatusFalse);
    AilingIff(types, generation, s, StatusUnknown);
    if !AllCurrent(types, generation, s) {
      var t :| t in types.dependents && Get(s, t).Some? && Get(s, t).value.observed != generation;
      assert Unhealthy(types, generation, Get(s, t).value);
    }
    if d :| d in s && Unhealthy(types, generation, d) {
      GetUnique(s, d);
    }
  }

  /** Dependents look the same before and after the root is written. */
  lemma SettledSame(types: Types, env: Env, mid: seq<Condition>, s': seq<Condition>, status: Status)
    requires ValidTypes(types) && SameBut(env, mid, s', types.root)
    ensures AnyDependent(types, mid, status) <==> AnyDependent(types, s', status)
    ensures AllCurrent(types, env.generation, mid) ==> AllCurrent(types, env.generation, s')
  {
    forall t | t in types.dependents
      ensures Has(mid, t, status) <==> Has(s', t, status)
      ensures SameOrKept(env, Get(mid, t), Get(s', t))
    {
    }
  }

  lemma CopiedIsEchoed(types: Types, env: Env, mid: seq<Condition>, status: Status, choice: Option<Condition>)
    requires ValidTypes(types) && Keyed(mid)
    requires CopiesLatest(types, env.generation, mid, status, choice)
    requires status.StatusFalse? || status.StatusUnknown?
    ensures Echoes(types, WithRoot(types, env, mid, choice), status)
  {
    var s' := WithRoot(types, env, mid, choice);
    var c :| c in mid && Unhealthy(types, env.generation, c) && c.status == status && choice == Some(RootFrom(types, c))
             && NoneLater(types, env.generation, mid, c);
    GetUnique(mid, c);
    RootWritten(types, env, mid, choice);
    assert Has(s', c.ctype, status);
    forall u | u in types.dependents && Has(s', u, status)
      ensures NotLater(Get(s', u).value.time, Get(s', c.ctype).value.time)
    {
      assert Get(mid, u).value in mid;
    }
    assert EchoesOne(types, s', status, c.ctype);
  }

  lemma RootFollowsChoice(types: Types, env: Env, mid: seq<Condition>, choice: Option<Condition>)
    requires ValidTypes(types) && Keyed(mid) && RootChoice(types, env.generation, mid, choice)
    ensures RootFollows(types, env.generation, RootStatus(types, mid), WithRoot(types, env, mid, choice))
    ensures choice == Some(RootTrue(types)) ==> AllCurrent(types, env.generation, WithRoot(types, env, mid, choice))
  {
    var s' := WithRoot(types, env, mid, choice);
    ChoiceIsRoot(types, env.generation, mid, choice);
    RootWritten(types, env, mid, choice);
    SettledSame(types, env, mid, s', StatusFalse);
    SettledSame(types, env, mid, s', StatusUnknown);
    AilingIff(types, env.generation, mid, StatusFalse);
    AilingIff(types, env.generation, mid, StatusUnknown);
    UnhealthyIff(types, env.generation, mid);
    if AnyDependent(types, mid, StatusFalse) {
      CopiedIsEchoed(types, env, mid, StatusFalse, choice);
    } else if AnyDependent(types, mid, StatusUnknown) {
      CopiedIsEchoed(types, env, mid, StatusUnknown, choice);
    }
  }

  /** False if some dependent is False, else Unknown if some dependent is Unknown, else True if all
      are current, else what it was. */
  ghost predicate RootFollows(types: Types, generation: int, before: Option<Status>, s: seq<Condition>) {
    if AnyDependent(types, s, StatusFalse) then Echoes(types, s, StatusFalse)
    else if AnyDependent(types, s, StatusUnknown) then Echoes(types, s, StatusUnknown)
    else if AllCurrent(types, generation, s) then Has(s, types.root, StatusTrue) && Get(s, types.root).value.observed == generation
    else RootStatus(types, s) == before
  }

  /** A root that a Set finds or makes True says so in its own name: its type as the reason, and no message. */
  lemma TrueRootSays(types: Types, env: Env, later: int, s: seq<Condition>, c: Condition,
                     choice: Option<Condition>, s': seq<Condition>)
    requires ValidTypes(types) && Keyed(s) && c.ctype != types.root
    requires SetRel(types, env, later, s, c, true, choice, s')
    requires forall t :: t in types.dependents && Get(s', t).Some? ==>
               !Get(s', t).value.status.StatusFalse? && !Get(s', t).value.status.StatusUnknown? && Get(s', t).value.observed == env.generation
    ensures Get(s', types.root).Some?
    ensures var root := Get(s', types.root).value;
            root.status == StatusTrue && root.reason == Some(Text(types.root.name)) && root.message == Some(Text(""))
            && root.observed == env.generation
  {
    var mid := Install(types, env, s, c).value;
    InstallKeyed(types, env, s, c);
    ChoiceIsRoot(types, env.generation, mid, choice);
    RootWritten(types, env.(now := later), mid, choice);
    forall d | d in mid && d.ctype in types.dependents ensures !Unhealthy(types, env.generation, d) {
      GetUnique(mid, d);
      assert Get(mid, d.ctype) == Some(d);
      DependentAsSet(types, env, later, s, c, choice, s', d.ctype);
    }
    assert !exists d :: d in mid && Unhealthy(types, env.generation, d);
    assert choice == Some(RootTrue(types));
  }

  /** The root write leaves a dependent's status and observed generation as the Set left them. */
  lemma DependentAsSet(types: Types, env: Env, later: int, s: seq<Condition>, c: Condition,
                       choice: Option<Condition>, s': seq<Condition>, t: CType)
    requires ValidTypes(types) && Keyed(s) && c.ctype != types.root && t in types.dependents
    requires SetRel(types, env, later, s, c, true, choice, s')
    ensures var mid := Install(types, env, s, c).value;
            && (Get(mid, t).Some? <==> Get(s', t).Some?)
            && (Get(mid, t).Some? ==> Get(mid, t).value.status == Get(s', t).value.status
                                      && (Get(s', t).value.observed == env.generation ==>
                                            Get(mid, t).value.observed == env.generation))
  {
    var mid := Install(types, env, s, c).value;
    InstallKeyed(types, env, s, c);
    InstallGet(types, env, s, c);
    ChoiceIsRoot(types, env.generation, mid, choice);
    RootWritten(types, env.(now := later), mid, choice);
    assert SameOrKept(env.(now := later), Get(mid, t), Get(s', t));
    assert t != c.ctype ==> Kept(env, Get(s, t), Get(mid, t));
  }

  /** The offender that a False or Unknown root repeats: no other dependent with this status changed at
      a later time, and one that has no time at all is repeated only if none has. */
  lemma EchoIsLatest(types: Types, s: seq<Condition>, status: Status)
    requires Echoes(types, s, status)
    ensures exists t :: t in types.dependents && Get(s, t).Some? && Get(s, t).value.status == status
              && Get(s, types.root).Some? && Get(s, types.root).value.status == status
              && Get(s, types.root).value.reason == Get(s, t).value.reason
              && Get(s, types.root).value.message == Get(s, t).value.message
              && forall u :: u in types.dependents && Get(s, u).Some? && Get(s, u).value.status == status && Get(s, u).value.time.Some? ==>
                   Get(s, t).value.time.Some? && Get(s, u).value.time.value <= Get(s, t).value.time.value
  {
    var t :| t in types.dependents && Has(s, t, status) && EchoesOne(types, s, status, t);
    forall u | u in types.dependents && Get(s, u).Some? && Get(s, u).value.status == status && Get(s, u).value.time.Some?
      ensures Get(s, t).value.time.Some? && Get(s, u).value.time.value <= Get(s, t).value.time.value
    {
      assert Has(s, u, status);
    }
  }

  /** After a modifying Set of any condition but the root, the root is a function of its dependents,
      and the list is arranged with the root last and the rest by transition time. */
  lemma RootFollowsDependents(types: Types, env: Env, later: int, s: seq<Condition>, c: Condition,
                              choice: Option<Condition>, s': seq<Condition>)
    requires ValidTypes(types) && Keyed(s) && c.ctype != types.root
    requires SetRel(types, env, later, s, c, true, choice, s')
    ensures RootFollows(types, env.generation, RootStatus(types, s), s')
    ensures choice == Some(RootTrue(types)) ==> AllCurrent(types, env.generation, s')
    ensures Arranged(types.root, s')
  {
    var mid := Install(types, env, s, c).value;
    SetGet(types, env, later, s, c, true, choice, s');
    InstallKeyed(types, env, s, c);
    InstallGet(types, env, s, c);
    assert Kept(env, Get(s, types.root), Get(mid, types.root));
    RootFollowsChoice(types, env.(now := later), mid, choice);
  }

  /* ---------- NewConditionTypes, For, Clear ---------- */

  /** The first occurrence of each type but the root, in order. */
  function FirstOccurrences(root: CType, ds: seq<CType>): seq<CType> {
    if ds == [] then []
    else
      var before, d := FirstOccurrences(root, ds[..|ds| - 1]), ds[|ds| - 1];
      if d == root || d in before then before else before + [d]
  }

  method NewConditionTypes(root: CType, dependents: seq<CType>) returns (types: Types)
    ensures types == Types(root, FirstOccurrences(root, dependents), [])
  {
    var deps: seq<CType> := [];
    for i := 0 to |dependents|
      invariant deps == FirstOccurrences(root, dependents[..i])
    {
      var d := dependents[i];
      assert dependents[..i + 1][..i] == dependents[..i];
      if d == root || d in deps {
        continue;
      }
      deps := deps + [d];
    }
    assert dependents[..|dependents|] == dependents;
    return Types(root, deps, []);
  }

  /** So no list of types makes the root its own dependent or repeats a dependent, and every other
      type that was asked for is there. */
  lemma {:induction false} NewTypesAreValid(root: CType, ds: seq<CType>)
    ensures ValidTypes(Types(root, FirstOccurrences(root, ds), []))
    ensures forall t :: t in FirstOccurrences(root, ds) <==> t in ds && t != root
    ensures forall i, j :: 0 <= i < j < |FirstOccurrences(root, ds)| ==>
              FirstOccurrences(root, ds)[i] != FirstOccurrences(root, ds)[j]
  {
    if ds != [] {
      NewTypesAreValid(root, ds[..|ds| - 1]);
      assert ds == ds[..|ds| - 1] + [ds[|ds| - 1]];
    }
  }

  function Pruned(types: Types, s: seq<Condition>): (r: seq<Condition>)
    ensures forall c :: c in r <==> c in s && c.ctype !in types.prunes
    ensures |r| <= |s| && (|r| == |s| ==> r == s)
  {
    if s == [] then []
    else
      var rest, c := Pruned(types, s[..|s| - 1]), s[|s| - 1];
      assert s == s[..|s| - 1] + [c];
      if c.ctype in types.prunes then rest else rest + [c]
  }

  method PruneConditions(types: Types, o: Object)
    modifies o`conditions
    ensures o.conditions == Pruned(types, old(o.conditions))
  {
    assert types.prunes == [] ==> |Pruned(types, o.conditions)| == |o.conditions| by {
      if types.prunes == [] {
        NothingPruned(types, o.conditions);
      }
    }
    if |types.prunes| == 0 {
      return;
    }
    var filtered: seq<Condition> := [];
    for i := 0 to |o.conditions|
      invariant o.conditions == old(o.conditions)
      invariant filtered == Pruned(types, o.conditions[..i])
    {
      assert o.conditions[..i + 1][..i] == o.conditions[..i];
      if o.conditions[i].ctype in types.prunes {
        continue;
      }
      filtered := filtered + [o.conditions[i]];
    }
    assert o.conditions[..|o.conditions|] == o.conditions;
    if |filtered| != |o.conditions| {
      o.conditions := filtered;
    }
  }

  lemma {:induction false} NothingPruned(types: Types, s: seq<Condition>)
    requires types.prunes == []
    ensures Pruned(types, s) == s
  {
    if s != [] {
      NothingPruned(types, s[..|s| - 1]);
      assert s == s[..|s| - 1] + [s[|s| - 1]];
    }
  }

  function AwaitingReconciliation(t: CType): Condition {
    Condition(t, StatusUnknown, None, Some(Text("AwaitingReconciliation")),
              Some(Text("condition \"" + t.name + "\" is awaiting reconciliation")), 0)
  }

  /** SetUnknown for a condition that is missing. */
  ghost predicate InitialisedOne(types: Types, env: Env, t: CType, s: seq<Condition>, s': seq<Condition>) {
    if Get(s, t).Some? then s' == s
    else exists now, later, choice :: UnknownSet(types, env, now, later, t, choice, s, s')
  }

  ghost predicate UnknownSet(types: Types, env: Env, now: int, later: int, t: CType, choice: Option<Condition>,
                             s: seq<Condition>, s': seq<Condition>)
  {
    SetRel(types, env.(now := now), later, s, AwaitingReconciliation(t), true, choice, s')
  }

  /** states lists the conditions before, between and after initialising the first k of the types. */
  ghost predicate InitialisedVia(types: Types, env: Env, k: nat, states: seq<seq<Condition>>,
                                 s: seq<Condition>, s': seq<Condition>)
    requires k <= |Known(types)|
  {
    && |states| == k + 1 && states[0] == s && states[k] == s'
    && forall i {:trigger InitialisedAt(types, env, states, i)} :: 0 <= i < k ==> InitialisedAt(types, env, states, i)
  }

  ghost predicate InitialisedAt(types: Types, env: Env, states: seq<seq<Condition>>, i: nat)
    requires i < |Known(types)| && i < |states| - 1
  {
    InitialisedOne(types, env, Known(types)[i], states[i], states[i + 1])
  }

  lemma InitialisedSnoc(types: Types, env: Env, k: nat, states: seq<seq<Condition>>, s: seq<Condition>, mid: seq<Condition>, s': seq<Condition>)
    requires k < |Known(types)| && InitialisedVia(types, env, k, states, s, mid)
    requires InitialisedAt(types, env, states + [s'], k)
    ensures InitialisedVia(types, env, k + 1, states + [s'], s, s')
  {
    var more := states + [s'];
    forall i | 0 <= i < k ensures InitialisedAt(types, env, more, i) {
      assert InitialisedAt(types, env, states, i);
      SameStep(types, env, states, more, i);
    }
  }

  lemma SameStep(types: Types, env: Env, states: seq<seq<Condition>>, more: seq<seq<Condition>>, i: nat)
    requires i < |Known(types)| && i < |states| - 1 && i < |more| - 1
    requires InitialisedAt(types, env, states, i) && more[i] == states[i] && more[i + 1] == states[i + 1]
    ensures InitialisedAt(types, env, more, i)
  {
  }

  lemma LastStep(types: Types, env: Env, states: seq<seq<Condition>>, s': seq<Condition>, k: nat)
    requires k < |Known(types)| && |states| == k + 1 && InitialisedOne(types, env, Known(types)[k], states[k], s')
    ensures InitialisedAt(types, env, states + [s'], k)
  {
  }

  function Known(types: Types): seq<CType> {
    [types.root] + types.dependents
  }

  ghost predicate ForRel(types: Types, env: Env, s: seq<Condition>, s': seq<Condition>) {
    exists states :: InitialisedVia(types, env, |Known(types)|, states, Pruned(types, s), s')
  }

  method InitialiseOne(types: Types, o: Object, t: CType, now: int, later: int)
    requires Keyed(o.conditions)
    modifies o`conditions
    ensures Keyed(o.conditions) && InitialisedOne(types, o.At(0), t, old(o.conditions), o.conditions)
  {
    if Get(o.conditions, t).None? {
      var modified, choice := Set(types, o, AwaitingReconciliation(t), now, later);
      assert o.At(now) == o.At(0).(now := now);
      assert UnknownSet(types, o.At(0), now, later, t, choice, old(o.conditions), o.conditions);
    }
  }

  method For(types: Types, o: Object, clock: nat -> int)
    requires Keyed(o.conditions)
    modifies o`conditions
    ensures Keyed(o.conditions)
    ensures ForRel(types, o.At(0), old(o.conditions), o.conditions)
  {
    PruneConditions(types, o);
    ghost var start, env := o.conditions, o.At(0);
    ghost var states := [start];
    var ts := Known(types);
    for i := 0 to |ts|
      invariant Keyed(o.conditions)
      invariant o.At(0) == env && InitialisedVia(types, env, i, states, start, o.conditions)
    {
      ghost var mid := o.conditions;
      InitialiseOne(types, o, ts[i], clock(2 * i), clock(2 * i + 1));
      LastStep(types, env, states, o.conditions, i);
      InitialisedSnoc(types, env, i, states, start, mid, o.conditions);
      states := states + [o.conditions];
    }
  }

  ghost predicate ByType(s: seq<Condition>) {
    forall i, j :: 0 <= i < j < |s| ==> !Digraph.StringLess(s[j].ctype.name, s[i].ctype.name)
  }

  /** Clear refuses the root and its dependents; any other condition is dropped, and the list is
      then sorted by type. */
  ghost predicate ClearRel(types: Types, s: seq<Condition>, t: CType, refused: bool, s': seq<Condition>) {
    && (refused <==> t == types.root || t in types.dependents)
    && if refused || Get(s, t).None? then s' == s
       else ByType(s') && forall c :: c in s' <==> c in s && c.ctype != t
  }

  method Clear(types: Types, o: Object, t: CType) returns (refused: bool)
    modifies o`conditions
    ensures ClearRel(types, old(o.conditions), t, refused, o.conditions)
  {
    if IsDependent(types, t) {
      return true;
    }
    if Get(o.conditions, t).None? {
      return false;
    }
    var conditions: seq<Condition> := [];
    for i := 0 to |o.conditions|
      invariant o.conditions == old(o.conditions)
      invariant ByType(conditions)
      invariant forall c :: c in conditions <==> c in o.conditions[..i] && c.ctype != t
    {
      assert o.conditions[..i + 1] == o.conditions[..i] + [o.conditions[i]];
      if o.conditions[i].ctype != t {
        conditions := InsertByType(conditions, o.conditions[i]);
      }
    }
    assert o.conditions[..|o.conditions|] == o.conditions;
    o.conditions := conditions;
    return false;
  }

  method InsertByType(s: seq<Condition>, c: Condition) returns (r: seq<Condition>)
    requires ByType(s)
    ensures ByType(r) && forall d :: d in r <==> d in s || d == c
  {
    var k := 0;
    while k < |s| && !Digraph.StringLess(c.ctype.name, s[k].ctype.name)
      invariant 0 <= k <= |s|
      invariant forall i :: 0 <= i < k ==> !Digraph.StringLess(c.ctype.name, s[i].ctype.name)
    {
      k := k + 1;
    }
    r := s[..k] + [c] + s[k..];
    assert s == s[..k] + s[k..];
    forall i | k <= i < |s| ensures !Digraph.StringLess(s[i].ctype.name, c.ctype.name) {
      Digraph.StringLessTrichotomy(s[i].ctype.name, c.ctype.name);
      Digraph.StringLessTrichotomy(s[k].ctype.name, s[i].ctype.name);
      if Digraph.StringLess(s[i].ctype.name, c.ctype.name) {
        Digraph.StringLessTransitive(s[i].ctype.name, c.ctype.name, s[k].ctype.name);
      }
    }
  }
}
