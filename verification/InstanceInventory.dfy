/** Instance inventory (pkg/controller/instance/controller_graph_engine.go): the grow-only scope
    recorded before and after an apply, and the gated prune of members that left the desired set. */
module InstanceInventory {

  import opened Collections
  import opened Digraph
  import opened ApplySet

  /* ---------- which nodes allow pruning ---------- */

  datatype NodeKind = Template | Graph | Patch | Ref | Def

  datatype RuntimeNode = RuntimeNode(id: Id, kind: NodeKind, observed: bool)

  /** Runtime.Node(id) */
  function Find(nodes: seq<RuntimeNode>, id: Id): (r: Option<RuntimeNode>)
    ensures r.Some? ==> r.value in nodes && r.value.id == id
    ensures r.None? <==> forall n :: n in nodes ==> n.id != id
  {
    if nodes == [] then None
    else if nodes[0].id == id then Some(nodes[0])
    else Find(nodes[1..], id)
  }

  /** Template and subgraph nodes own resources; so does, to be safe, a name that is not a node. */
  predicate Owning(nodes: seq<RuntimeNode>, id: Id) {
    match Find(nodes, id)
    case None => true
    case Some(n) => n.kind.Template? || n.kind.Graph?
  }

  /** With distinct node names: a name is owning unless it is that of a patch, ref or def node. */
  lemma OwningIff(nodes: seq<RuntimeNode>, id: Id)
    requires forall m, n :: m in nodes && n in nodes && m.id == n.id ==> m == n
    ensures Owning(nodes, id) <==> !exists n :: n in nodes && n.id == id && (n.kind == Patch || n.kind == Ref || n.kind == Def)
  {
    if Find(nodes, id).Some? {
      assert Find(nodes, id).value in nodes;
    }
  }

  method OwnedUnresolved(nodes: seq<RuntimeNode>, unresolved: seq<Id>) returns (owning: seq<Id>)
    ensures forall id :: id in owning <==> id in unresolved && Owning(nodes, id)
  {
    if |unresolved| == 0 {
      return unresolved;
    }
    owning := [];
    for i := 0 to |unresolved|
      invariant forall id :: id in owning <==> id in unresolved[..i] && Owning(nodes, id)
    {
      var id := unresolved[i];
      assert unresolved[..i + 1] == unresolved[..i] + [id];
      var n := Find(nodes, id);
      if n.None? {
        owning := owning + [id];
        continue;
      }
      match n.value.kind
      case Template => owning := owning + [id];
      case Graph => owning := owning + [id];
      case Patch =>
      case Ref =>
      case Def =>
    }
    assert unresolved[..|unresolved|] == unresolved;
  }

  /** None is Go's nil set: unrestricted if the cycle is fully resolved, and nothing at all if a hard
      error vetoed pruning. Some(s) restricts pruning to the nodes of s. */
  datatype Gate = Gate(fullyResolved: bool, completed: Option<set<Id>>)

  ghost predicate IsCompleted(nodes: seq<RuntimeNode>, unresolved: seq<Id>, id: Id) {
    (exists n :: n in nodes && n.id == id && n.kind.Template? && n.observed) && id !in unresolved
  }

  method PruneGate(nodes: seq<RuntimeNode>, hardErr: bool, unresolved: seq<Id>) returns (gate: Gate)
    ensures gate.fullyResolved <==> !hardErr && unresolved == []
    ensures gate.completed.None? <==> hardErr || unresolved == []
    ensures gate.completed.Some? ==> forall id :: id in gate.completed.value <==> IsCompleted(nodes, unresolved, id)
  {
    if hardErr {
      return Gate(false, None);
    }
    if |unresolved| == 0 {
      return Gate(true, None);
    }
    var completed: set<Id> := {};
    for i := 0 to |nodes|
      invariant forall id :: id in completed <==> exists n :: n in nodes[..i] && n.id == id && n.kind.Template? && n.observed
    {
      assert nodes[..i + 1] == nodes[..i] + [nodes[i]];
      if nodes[i].kind.Template? && nodes[i].observed {
        completed := completed + {nodes[i].id};
      }
    }
    assert nodes[..|nodes|] == nodes;
    return Gate(false, Some(completed - set id | id in unresolved));
  }

  /* ---------- the scope of a batch ---------- */

  /** ManagedResource: group is that of its apiVersion, None when that does not parse. */
  datatype Applied = Applied(nodeID: Id, apiVersion: string, group: Option<string>, kind: string, ns: Ns, name: string, uid: Option<Uid>) {
    function Gk(): Option<GroupKind> {
      if group.Some? then Some(GroupKind(group.value, kind)) else None
    }
  }

  /** applySetMetadataFromApplied: the parent's own namespace is never additional. */
  ghost function BatchScope(parentNs: Ns, applied: seq<Applied>): Scope {
    Scope(set r | r in applied && r.Gk().Some? :: r.Gk().value,
          set r | r in applied && r.Gk().Some? && r.ns.Ns? && r.ns != parentNs :: r.ns)
  }

  method ScopeFromApplied(parentNs: Ns, applied: seq<Applied>) returns (s: Scope)
    ensures s == BatchScope(parentNs, applied)
  {
    s := Scope({}, {});
    for i := 0 to |applied|
      invariant s == BatchScope(parentNs, applied[..i])
    {
      var r := applied[i];
      BatchSnoc(parentNs, applied, i);
      if r.Gk().None? {
        continue;
      }
      s := s.(gks := s.gks + {r.Gk().value});
      if r.ns.Ns? && r.ns != parentNs {
        s := s.(namespaces := s.namespaces + {r.ns});
      }
    }
    assert applied[..|applied|] == applied;
  }

  /** The scope of a batch in terms of its entries; those whose apiVersion does not parse add nothing. */
  lemma ScopeMeans(parentNs: Ns, applied: seq<Applied>, gk: GroupKind, ns: string)
    ensures gk in BatchScope(parentNs, applied).gks <==>
              exists r :: r in applied && r.group == Some(gk.group) && r.kind == gk.kind
    ensures Ns(ns) in BatchScope(parentNs, applied).namespaces <==>
              Ns(ns) != parentNs && exists r :: r in applied && r.group.Some? && r.ns == Ns(ns)
    ensures NoNs !in BatchScope(parentNs, applied).namespaces
  {
    if r :| r in applied && r.group == Some(gk.group) && r.kind == gk.kind {
      assert r.Gk() == Some(gk);
    }
    if r :| r in applied && r.group.Some? && r.ns == Ns(ns) {
      assert r.Gk().Some?;
    }
  }

  lemma BatchSnoc(parentNs: Ns, applied: seq<Applied>, i: nat)
    requires i < |applied|
    ensures var r, before := applied[i], BatchScope(parentNs, applied[..i]);
            BatchScope(parentNs, applied[..i + 1]) ==
            if r.Gk().None? then before
            else Scope(before.gks + {r.Gk().value},
                       before.namespaces + if r.ns.Ns? && r.ns != parentNs then {r.ns} else {})
  {
    assert applied[..i + 1] == applied[..i] + [applied[i]];
    assert forall r :: r in applied[..i + 1] <==> r in applied[..i] || r == applied[i];
  }

  /** A recorded member is inside the scope of its own batch. */
  lemma BatchCovers(parentNs: Ns, applied: seq<Applied>, r: Applied, m: Member)
    requires r in applied && r.Gk() == Some(m.gk) && r.ns == m.ns
    ensures InScope(BatchScope(parentNs, applied), parentNs, m)
  {
  }

  datatype Key = Key(apiVersion: string, kind: string, ns: Ns, name: string)

  function KeyOf(r: Applied): Key {
    Key(r.apiVersion, r.kind, r.ns, r.name)
  }

  /** No two nodes wrote the same object. */
  ghost predicate DistinctIdentities(applied: seq<Applied>) {
    forall i, j :: 0 <= i < j < |applied| && KeyOf(applied[i]) == KeyOf(applied[j]) ==> applied[i].nodeID == applied[j].nodeID
  }

  method ValidateAppliedIdentities(applied: seq<Applied>) returns (ok: bool)
    ensures ok <==> DistinctIdentities(applied)
  {
    var seen: map<Key, Id> := map[];
    ghost var last: map<Key, nat> := map[];
    ok := true;
    for i := 0 to |applied|
      invariant last.Keys == seen.Keys
      invariant forall k {:trigger last[k]} :: k in last ==>
                  last[k] < i && KeyOf(applied[last[k]]) == k && applied[last[k]].nodeID == seen[k]
      invariant forall j {:trigger applied[j]} :: 0 <= j < i ==>
                  KeyOf(applied[j]) in seen && (ok ==> seen[KeyOf(applied[j])] == applied[j].nodeID)
      invariant !ok ==> !DistinctIdentities(applied)
    {
      var r := applied[i];
      var key := KeyOf(r);
      if key in seen && seen[key] != r.nodeID {
        assert KeyOf(applied[last[key]]) == KeyOf(applied[i]) && applied[last[key]].nodeID != applied[i].nodeID;
        ok := false;
      }
      seen := seen[key := r.nodeID];
      last := last[key := i];
    }
  }

  /* ---------- prune ---------- */

  const MAX_INT := 0x7FFF_FFFF_FFFF_FFFF

  /** orphanApplyOrder: members without a valid order are deleted first. */
  function OrderOf(m: Member): int {
    if m.order.Some? then m.order.value else MAX_INT
  }

  /** The node path, or for older objects the node label. */
  function NodeOf(m: Member): Option<Id> {
    if m.nodePath.Some? then m.nodePath else m.nodeLabel
  }

  /** The member names the node that produced it by its node path or, if it is older than those, by
      its node label. */
  ghost predicate ProducedBy(m: Member, id: Id) {
    m.nodePath == Some(id) || (m.nodePath == None && m.nodeLabel == Some(id))
  }

  /** Every member carries the apply order of its node. */
  ghost predicate Annotated(store: Store, orders: map<Id, int>) {
    forall u, id :: u in store.members && ProducedBy(store.members[u], id) && id in orders ==> store.members[u].order == Some(orders[id])
  }

  predicate Selected(m: Member, completed: Option<set<Id>>) {
    completed.None? || (NodeOf(m).Some? && NodeOf(m).value in completed.value)
  }

  /** deletionPolicyOf: while the feature gate is off every policy reads as Delete. */
  function PolicyOf(gate: bool, m: Member): Policy {
    if gate then m.policy else Delete
  }

  /** The user asked to keep this member, and the feature gate lets kro honour it. */
  ghost predicate ToKeep(gate: bool, m: Member) {
    gate && m.policy == Orphaned
  }

  datatype Pruning = Pruning(store: Store, pruned: bool, conflicts: nat, failed: bool)

  function PruneOne(p: Pruning, uid: Uid, m: Member, completed: Option<set<Id>>, gate: bool, answer: Answer): Pruning {
    if !Selected(m, completed) then p
    else
      var store := if PolicyOf(gate, m).Orphaned? then ReleaseOrphan(p.store, uid, answer) else DeleteOrphan(p.store, uid, answer);
      match answer
      case Accepted => p.(store := store, pruned := true)
      case NotFound => p.(store := store)
      case Conflict => p.(store := store, conflicts := p.conflicts + 1)
      case Failed(_) => p.(store := store, failed := true)
  }

  /** The first k candidates, stopping at a failure. */
  ghost function PruneTo(store: Store, list: seq<Uid>, k: nat, completed: Option<set<Id>>, gate: bool, answers: Uid -> Answer): Pruning
    requires k <= |list| && forall u :: u in list ==> u in store.members
  {
    if k == 0 then Pruning(store, false, 0, false)
    else
      var p := PruneTo(store, list, k - 1, completed, gate, answers);
      if p.failed then p else PruneOne(p, list[k - 1], store.members[list[k - 1]], completed, gate, answers(list[k - 1]))
  }

  ghost predicate Descending(members: map<Uid, Member>, list: seq<Uid>)
    requires forall u :: u in list ==> u in members
  {
    forall i, j :: 0 <= i < j < |list| ==> OrderOf(members[list[i]]) >= OrderOf(members[list[j]])
  }

  ghost predicate Arrangement(list: seq<Uid>, candidates: seq<Uid>) {
    NoDup(list) && forall u :: u in list <==> u in candidates
  }

  /** The entries of one apply order, as they stand in the list. */
  ghost function OfOrder(members: map<Uid, Member>, list: seq<Uid>, order: int): seq<Uid>
    requires forall u :: u in list ==> u in members
  {
    if list == [] then []
    else
      var n := |list| - 1;
      OfOrder(members, list[..n], order) + if OrderOf(members[list[n]]) == order then [list[n]] else []
  }

  lemma {:induction false} OfOrderConcat(members: map<Uid, Member>, a: seq<Uid>, b: seq<Uid>, order: int)
    requires (forall u :: u in a ==> u in members) && (forall u :: u in b ==> u in members)
    ensures OfOrder(members, a + b, order) == OfOrder(members, a, order) + OfOrder(members, b, order)
  {
    if b == [] {
      assert a + b == a;
    } else {
      var n := |b| - 1;
      assert (a + b)[..|a + b| - 1] == a + b[..n];
      OfOrderConcat(members, a, b[..n], order);
    }
  }

  lemma {:induction false} NoneOfOrder(members: map<Uid, Member>, list: seq<Uid>, order: int)
    requires forall u :: u in list ==> u in members && OrderOf(members[u]) != order
    ensures OfOrder(members, list, order) == []
  {
    if list != [] {
      assert list[|list| - 1] in list;
      NoneOfOrder(members, list[..|list| - 1], order);
    }
  }

  /** Inserting behind everything of the same or a higher order leaves each order's entries as they
      stood, with the new one last. */
  lemma InsertedLast(members: map<Uid, Member>, list: seq<Uid>, k: nat, c: Uid, order: int)
    requires k <= |list| && c in members && forall u :: u in list ==> u in members
    requires forall u :: u in list[k..] ==> OrderOf(members[u]) < OrderOf(members[c])
    ensures forall u :: u in list[..k] + [c] + list[k..] ==> u in members
    ensures OfOrder(members, list[..k] + [c] + list[k..], order) == OfOrder(members, list + [c], order)
  {
    assert list == list[..k] + list[k..];
    OfOrderConcat(members, list[..k] + [c], list[k..], order);
    OfOrderConcat(members, list[..k], [c], order);
    OfOrderConcat(members, list, [c], order);
    OfOrderConcat(members, list[..k], list[k..], order);
    if order == OrderOf(members[c]) {
      NoneOfOrder(members, list[k..], order);
    } else {
      NoneOfOrder(members, [c], order);
    }
  }

  /** Members of one order keep the order in which they were listed. */
  ghost predicate SameWithinOrders(members: map<Uid, Member>, list: seq<Uid>, candidates: seq<Uid>)
    requires (forall u :: u in list ==> u in members) && (forall u :: u in candidates ==> u in members)
  {
    forall order :: OfOrder(members, list, order) == OfOrder(members, candidates, order)
  }

  /** sort.SliceStable by descending order. */
  method SortByOrder(members: map<Uid, Member>, candidates: seq<Uid>) returns (list: seq<Uid>)
    requires NoDup(candidates) && forall u :: u in candidates ==> u in members
    ensures Arrangement(list, candidates)
    ensures Descending(members, list)
    ensures SameWithinOrders(members, list, candidates)
  {
    list := [];
    for i := 0 to |candidates|
      invariant Arrangement(list, candidates[..i])
      invariant forall u :: u in list ==> u in members
      invariant Descending(members, list)
      invariant SameWithinOrders(members, list, candidates[..i])
    {
      var c := candidates[i];
      assert c in candidates && c !in candidates[..i];
      PrefixSnoc(candidates, i);
      var next := InsertByOrder(members, list, c);
      SameNext(members, list, candidates[..i], c, next);
      list := next;
    }
    assert candidates[..|candidates|] == candidates;
  }

  lemma SameNext(members: map<Uid, Member>, list: seq<Uid>, candidates: seq<Uid>, c: Uid, next: seq<Uid>)
    requires c in members && (forall u :: u in list ==> u in members) && (forall u :: u in candidates ==> u in members)
    requires (forall u :: u in next ==> u in members) && SameWithinOrders(members, list, candidates)
    requires SameWithinOrders(members, next, list + [c])
    ensures SameWithinOrders(members, next, candidates + [c])
  {
    forall order ensures OfOrder(members, next, order) == OfOrder(members, candidates + [c], order) {
      OfOrderConcat(members, list, [c], order);
      OfOrderConcat(members, candidates, [c], order);
    }
  }

  method InsertByOrder(members: map<Uid, Member>, list: seq<Uid>, c: Uid) returns (r: seq<Uid>)
    requires c in members && c !in list && NoDup(list) && forall u :: u in list ==> u in members
    requires Descending(members, list)
    ensures NoDup(r) && forall u :: u in r <==> u in list || u == c
    ensures Descending(members, r)
    ensures SameWithinOrders(members, r, list + [c])
  {
    var k := 0;
    while k < |list| && OrderOf(members[list[k]]) >= OrderOf(members[c])
      invariant 0 <= k <= |list|
      invariant forall i :: 0 <= i < k ==> OrderOf(members[list[i]]) >= OrderOf(members[c])
    {
      k := k + 1;
    }
    r := list[..k] + [c] + list[k..];
    InsertedAt(list, k, c, r);
    InsertedDescending(members, list, k, c, r);
    forall order ensures OfOrder(members, r, order) == OfOrder(members, list + [c], order) {
      InsertedLast(members, list, k, c, order);
    }
  }

  lemma InsertedDescending(members: map<Uid, Member>, list: seq<Uid>, k: nat, c: Uid, r: seq<Uid>)
    requires k <= |list| && c in members && (forall u :: u in list ==> u in members) && Descending(members, list)
    requires r == list[..k] + [c] + list[k..] && forall u :: u in r ==> u in members
    requires forall i :: 0 <= i < k ==> OrderOf(members[list[i]]) >= OrderOf(members[c])
    requires k < |list| ==> OrderOf(members[list[k]]) < OrderOf(members[c])
    ensures Descending(members, r)
    ensures forall u :: u in list[k..] ==> OrderOf(members[u]) < OrderOf(members[c])
  {
    forall i, j | 0 <= i < j < |r| ensures OrderOf(members[r[i]]) >= OrderOf(members[r[j]]) {
      assert r[i] == (if i < k then list[i] else if i == k then c else list[i - 1]);
      assert r[j] == (if j < k then list[j] else if j == k then c else list[j - 1]);
    }
  }

  lemma InsertedAt(list: seq<Uid>, k: nat, c: Uid, r: seq<Uid>)
    requires k <= |list| && c !in list && NoDup(list) && r == list[..k] + [c] + list[k..]
    ensures NoDup(r) && forall u :: u in r <==> u in list || u == c
  {
    assert list == list[..k] + list[k..];
    forall i, j | 0 <= i < j < |r| ensures r[i] != r[j] {
      assert r[i] == (if i < k then list[i] else if i == k then c else list[i - 1]);
      assert r[j] == (if j < k then list[j] else if j == k then c else list[j - 1]);
    }
  }

  method PruneOrphans(store: Store, scope: Scope, parentNs: Ns, keep: set<Uid>, completed: Option<set<Id>>,
                      gate: bool, answers: Uid -> Answer, listFails: bool)
    returns (p: Pruning, ghost list: seq<Uid>)
    ensures listFails ==> p == Pruning(store, false, 0, true)
    ensures !listFails ==> (forall u :: u in list <==> Orphan(store, scope, parentNs, keep, u)) && NoDup(list)
                           && Descending(store.members, list)
                           && p == PruneTo(store, list, |list|, completed, gate, answers)
  {
    if listFails {
      return Pruning(store, false, 0, true), [];
    }
    var candidates := ListOrphans(store, scope, parentNs, keep);
    var sorted := SortByOrder(store.members, candidates);
    list := sorted;
    p := Pruning(store, false, 0, false);
    for i := 0 to |sorted|
      invariant !p.failed
      invariant p == PruneTo(store, sorted, i, completed, gate, answers)
    {
      p := PruneOne(p, sorted[i], store.members[sorted[i]], completed, gate, answers(sorted[i]));
      if p.failed {
        StopsHere(store, sorted, i + 1, |sorted|, completed, gate, answers);
        return;
      }
    }
  }

  lemma {:induction false} StopsHere(store: Store, list: seq<Uid>, k: nat, n: nat, completed: Option<set<Id>>, gate: bool,
                                     answers: Uid -> Answer)
    requires k <= n <= |list| && forall u :: u in list ==> u in store.members
    requires PruneTo(store, list, k, completed, gate, answers).failed
    ensures PruneTo(store, list, n, completed, gate, answers) == PruneTo(store, list, k, completed, gate, answers)
  {
    if k < n {
      StopsHere(store, list, k, n - 1, completed, gate, answers);
    }
  }

  /* ---------- what a prune does ---------- */

  /** Every change is to a candidate of the set, and a selected one; what is to be kept is never
      deleted. */
  ghost predicate OnlySelected(before: Store, after: Store, done: set<Uid>, completed: Option<set<Id>>, gate: bool) {
    && (forall u {:trigger u in after.members} :: u in after.members ==> u in before.members && after.members[u] == before.members[u])
    && (forall u {:trigger u in after.members} :: u in before.members && u !in after.members ==>
          u in done && Selected(before.members[u], completed))
    && (forall u {:trigger u in after.terminating} :: u in before.terminating ==> u in after.terminating)
    && (forall u {:trigger u in after.terminating} :: u in after.terminating && u !in before.terminating ==>
          u in done && u in before.members && Selected(before.members[u], completed) && !ToKeep(gate, before.members[u]))
  }

  /** Every selected candidate of the set that is to be kept has been released, and every other one is
      gone or being deleted. */
  ghost predicate AllGone(before: Store, after: Store, done: set<Uid>, completed: Option<set<Id>>, gate: bool) {
    forall u {:trigger u in done} :: u in done && u in before.members && Selected(before.members[u], completed) ==>
      u !in after.members || (u in after.terminating && !ToKeep(gate, before.members[u]))
  }

  lemma PruneOneFacts(before: Store, p: Pruning, uid: Uid, done: set<Uid>, completed: Option<set<Id>>, gate: bool, answer: Answer)
    requires uid in before.members && OnlySelected(before, p.store, done, completed, gate)
    ensures var q := PruneOne(p, uid, before.members[uid], completed, gate, answer);
            OnlySelected(before, q.store, done + {uid}, completed, gate)
            && q.conflicts >= p.conflicts
            && (AllGone(before, p.store, done, completed, gate) && !q.failed && q.conflicts == p.conflicts ==>
                  AllGone(before, q.store, done + {uid}, completed, gate))
  {
  }

  lemma {:induction false} PruneFacts(store: Store, list: seq<Uid>, k: nat, completed: Option<set<Id>>, gate: bool,
                                      answers: Uid -> Answer)
    requires k <= |list| && forall u :: u in list ==> u in store.members
    ensures var p := PruneTo(store, list, k, completed, gate, answers);
            OnlySelected(store, p.store, Elements(list[..k]), completed, gate)
            && (!p.failed && p.conflicts == 0 ==> AllGone(store, p.store, Elements(list[..k]), completed, gate))
  {
    if k > 0 {
      PruneFacts(store, list, k - 1, completed, gate, answers);
      var p, done := PruneTo(store, list, k - 1, completed, gate, answers), Elements(list[..k - 1]);
      assert list[..k] == list[..k - 1] + [list[k - 1]];
      assert Elements(list[..k]) == done + {list[k - 1]};
      PruneOneFacts(store, p, list[k - 1], done, completed, gate, answers(list[k - 1]));
    }
  }

  lemma {:induction false} ObligingPrune(store: Store, list: seq<Uid>, k: nat, completed: Option<set<Id>>, gate: bool,
                                         answers: Uid -> Answer)
    requires k <= |list| && (forall u :: u in list ==> u in store.members) && Obliging(answers)
    ensures var p := PruneTo(store, list, k, completed, gate, answers); !p.failed && p.conflicts == 0
  {
    if k > 0 {
      ObligingPrune(store, list, k - 1, completed, gate, answers);
      assert answers(list[k - 1]).Accepted? || answers(list[k - 1]).NotFound?;
    }
  }

  datatype Trouble = Failure | Clash

  predicate Troubled(answer: Answer, trouble: Trouble) {
    if trouble.Failure? then answer.Failed? else answer.Conflict?
  }

  /** The request for some selected member of the set meets this trouble. */
  ghost predicate Meets(store: Store, orphans: set<Uid>, completed: Option<set<Id>>, answers: Uid -> Answer, trouble: Trouble) {
    exists u :: u in orphans && u in store.members && Selected(store.members[u], completed) && Troubled(answers(u), trouble)
  }

  /** The answers decide how a prune ends, in whatever order the members were taken. */
  lemma {:induction false} AnswersDecide(store: Store, list: seq<Uid>, k: nat, completed: Option<set<Id>>, gate: bool,
                                         answers: Uid -> Answer)
    requires k <= |list| && forall u :: u in list ==> u in store.members
    ensures var p, done := PruneTo(store, list, k, completed, gate, answers), Elements(list[..k]);
            (p.failed <==> Meets(store, done, completed, answers, Failure))
            && (!p.failed ==> (p.conflicts > 0 <==> Meets(store, done, completed, answers, Clash)))
  {
    if k > 0 {
      AnswersDecide(store, list, k - 1, completed, gate, answers);
      PrefixSnoc(list, k - 1);
      var p, done := PruneTo(store, list, k - 1, completed, gate, answers), Elements(list[..k - 1]);
      MeetsNext(store, done, list[k - 1], completed, answers, Failure);
      MeetsNext(store, done, list[k - 1], completed, answers, Clash);
      OneAnswer(p, list[k - 1], store.members[list[k - 1]], completed, gate, answers(list[k - 1]));
    }
  }

  lemma OneAnswer(p: Pruning, u: Uid, m: Member, completed: Option<set<Id>>, gate: bool, answer: Answer)
    ensures var q := PruneOne(p, u, m, completed, gate, answer);
            (q.failed <==> p.failed || (Selected(m, completed) && answer.Failed?))
            && (q.conflicts > 0 <==> p.conflicts > 0 || (Selected(m, completed) && answer.Conflict?))
  {
  }

  lemma MeetsNext(store: Store, done: set<Uid>, u: Uid, completed: Option<set<Id>>, answers: Uid -> Answer, trouble: Trouble)
    requires u in store.members
    ensures Meets(store, done + {u}, completed, answers, trouble) <==>
              Meets(store, done, completed, answers, trouble) || (Selected(store.members[u], completed) && Troubled(answers(u), trouble))
  {
    if Meets(store, done, completed, answers, trouble) {
      var v :| v in done && v in store.members && Selected(store.members[v], completed) && Troubled(answers(v), trouble);
      assert v in done + {u};
    }
    if Selected(store.members[u], completed) && Troubled(answers(u), trouble) {
      assert u in done + {u};
    }
  }

  /** Whatever was sent went to members in descending apply order. */
  ghost predicate SentDescending(before: Store, after: Store) {
    && before.requests <= after.requests
    && var sent := after.requests[|before.requests|..];
       && (forall i :: 0 <= i < |sent| ==> sent[i].uid in before.members)
       && forall i, j :: 0 <= i < j < |sent| ==> OrderOf(before.members[sent[i].uid]) >= OrderOf(before.members[sent[j].uid])
  }

  lemma HigherGoesFirst(before: Store, after: Store, i: nat, j: nat)
    requires SentDescending(before, after)
    requires |before.requests| <= i < |after.requests| && |before.requests| <= j < |after.requests|
    requires after.requests[i].uid in before.members && after.requests[j].uid in before.members
    requires OrderOf(before.members[after.requests[i].uid]) < OrderOf(before.members[after.requests[j].uid])
    ensures j < i
  {
    var n, sent := |before.requests|, after.requests[|before.requests|..];
    assert sent[i - n] == after.requests[i] && sent[j - n] == after.requests[j];
  }

  /** Members without a valid order come before all that have one. */
  lemma UnorderedFirst(before: Store, after: Store, i: nat, j: nat)
    requires SentDescending(before, after)
    requires |before.requests| <= i < |after.requests| && |before.requests| <= j < |after.requests|
    requires after.requests[i].uid in before.members && after.requests[j].uid in before.members
    requires before.members[after.requests[j].uid].order == None
    requires var o := before.members[after.requests[i].uid].order; o.Some? && o.value < 0x7FFF_FFFF_FFFF_FFFF
    ensures j < i
  {
    HigherGoesFirst(before, after, i, j);
  }

  /** And so far only to the first k candidates. */
  ghost predicate SentInOrder(before: Store, after: Store, list: seq<Uid>, k: nat)
    requires k <= |list|
  {
    && SentDescending(before, after)
    && forall i :: |before.requests| <= i < |after.requests| ==> after.requests[i].uid in list[..k]
  }

  /** Members are deleted or released in descending apply order, dependents before dependencies. */
  lemma {:induction false} PruneOrder(store: Store, list: seq<Uid>, k: nat, completed: Option<set<Id>>, gate: bool,
                                      answers: Uid -> Answer)
    requires k <= |list| && (forall u :: u in list ==> u in store.members) && Descending(store.members, list)
    ensures SentInOrder(store, PruneTo(store, list, k, completed, gate, answers).store, list, k)
  {
    if k > 0 {
      PruneOrder(store, list, k - 1, completed, gate, answers);
      var p, q := PruneTo(store, list, k - 1, completed, gate, answers), PruneTo(store, list, k, completed, gate, answers);
      PrefixSnoc(list, k - 1);
      if !p.failed {
        OneRequest(p, list[k - 1], store.members[list[k - 1]], completed, gate, answers(list[k - 1]));
      }
      if q.store.requests != p.store.requests {
        SentNext(store, p.store.requests, q.store.requests, list, k);
      }
    }
  }

  /** A partial cycle may touch only the members of completed nodes. */
  ghost predicate Attributed(m: Member, completed: Option<set<Id>>) {
    completed.None? || exists id :: id in completed.value && ProducedBy(m, id)
  }

  /** The request that this member calls for: to be released if the user asked to keep it, else deleted. */
  ghost predicate Fits(before: Store, r: Request, completed: Option<set<Id>>, gate: bool) {
    && r.uid in before.members && Attributed(before.members[r.uid], completed)
    && (r.ReleaseRequest? <==> gate && before.members[r.uid].policy == Orphaned)
  }

  ghost predicate AllFit(before: Store, after: Store, completed: Option<set<Id>>, gate: bool) {
    && before.requests <= after.requests
    && forall i {:trigger after.requests[i]} :: |before.requests| <= i < |after.requests| ==> Fits(before, after.requests[i], completed, gate)
  }

  /** Each request of a prune is the one that its member calls for, and without a failure each selected
      candidate gets one. */
  lemma {:induction false} PruneRequests(store: Store, list: seq<Uid>, k: nat, completed: Option<set<Id>>, gate: bool,
                                         answers: Uid -> Answer)
    requires k <= |list| && forall u :: u in list ==> u in store.members
    ensures var p := PruneTo(store, list, k, completed, gate, answers);
            AllFit(store, p.store, completed, gate)
            && (!p.failed ==> forall u :: u in list[..k] && Attributed(store.members[u], completed) ==> Asked(store, p.store, u))
  {
    if k > 0 {
      PruneRequests(store, list, k - 1, completed, gate, answers);
      var p, q := PruneTo(store, list, k - 1, completed, gate, answers), PruneTo(store, list, k, completed, gate, answers);
      var u := list[k - 1];
      PrefixSnoc(list, k - 1);
      if !p.failed {
        RequestFits(store, p, u, completed, gate, answers(u));
        forall v | v in list[..k] && Attributed(store.members[v], completed) ensures Asked(store, q.store, v) {
          if v != u { StillAsked(store, p.store, q.store, v); }
        }
      }
    }
  }

  ghost predicate Asked(before: Store, after: Store, u: Uid) {
    exists i :: |before.requests| <= i < |after.requests| && after.requests[i].uid == u
  }

  lemma StillAsked(before: Store, mid: Store, after: Store, u: Uid)
    requires Asked(before, mid, u) && mid.requests <= after.requests
    ensures Asked(before, after, u)
  {
    var i :| |before.requests| <= i < |mid.requests| && mid.requests[i].uid == u;
    assert after.requests[i] == mid.requests[i];
  }

  lemma RequestFits(before: Store, p: Pruning, u: Uid, completed: Option<set<Id>>, gate: bool, answer: Answer)
    requires u in before.members && AllFit(before, p.store, completed, gate)
    ensures var q := PruneOne(p, u, before.members[u], completed, gate, answer);
            AllFit(before, q.store, completed, gate) && p.store.requests <= q.store.requests
            && (Attributed(before.members[u], completed) ==> Asked(before, q.store, u))
  {
    var m, q := before.members[u], PruneOne(p, u, before.members[u], completed, gate, answer);
    var n := |p.store.requests|;
    if Selected(m, completed) {
      assert q.store.requests == p.store.requests + [if gate && m.policy == Orphaned then ReleaseRequest(u) else DeleteRequest(u)];
      assert q.store.requests[n].uid == u;
      forall i | |before.requests| <= i < |q.store.requests| ensures Fits(before, q.store.requests[i], completed, gate) {
        if i < n { assert Fits(before, p.store.requests[i], completed, gate); }
      }
    }
  }

  lemma OneRequest(p: Pruning, u: Uid, m: Member, completed: Option<set<Id>>, gate: bool, answer: Answer)
    ensures var sent, next := p.store.requests, PruneOne(p, u, m, completed, gate, answer).store.requests;
            next == sent || (|next| == |sent| + 1 && next[..|sent|] == sent && next[|sent|].uid == u)
  {
  }

  lemma SentNext(before: Store, sent: seq<Request>, next: seq<Request>, list: seq<Uid>, k: nat)
    requires 0 < k <= |list| && (forall u :: u in list ==> u in before.members) && Descending(before.members, list)
    requires SentInOrder(before, before.(requests := sent), list, k - 1)
    requires |next| == |sent| + 1 && next[..|sent|] == sent && next[|sent|].uid == list[k - 1]
    ensures SentInOrder(before, before.(requests := next), list, k)
  {
    var n := |before.requests|;
    assert next[..n] == sent[..n];
    assert next[n..] == sent[n..] + [next[|sent|]];
    forall i | 0 <= i < |sent[n..]|
      ensures sent[n..][i].uid in list[..k - 1]
      ensures OrderOf(before.members[sent[n..][i].uid]) >= OrderOf(before.members[list[k - 1]])
    {
      var j :| 0 <= j < k - 1 && list[j] == sent[n..][i].uid;
    }
  }
}
