/** The inventory algebra of the Graph controller (pkg/controller/graph/tracking.go): managed
    resources merged by identity, and patch contributions merged by value. */
module Tracking {

  import opened Collections

  /** An inventory entry, with its apiVersion held as the parsed group and version.
      An empty uid marks an entry written ahead of its apply. */
  datatype ManagedResource = MR(nodeID: string, group: string, version: string, kind: string, ns: string, name: string, uid: string)

  datatype ResourceKey = Key(group: string, kind: string, ns: string, name: string)

  function KeyOf(r: ManagedResource): ResourceKey {
    Key(r.group, r.kind, r.ns, r.name)
  }

  ghost function Keys(s: seq<ManagedResource>): set<ResourceKey> {
    set r | r in s :: KeyOf(r)
  }

  ghost predicate KeyUnique(s: seq<ManagedResource>) {
    forall i, j :: 0 <= i < j < |s| ==> KeyOf(s[i]) != KeyOf(s[j])
  }

  /* ---------- union ---------- */

  /** Overwrites the uid of the entry with key k. */
  function WithUid(s: seq<ManagedResource>, k: ResourceKey, uid: string): (r: seq<ManagedResource>)
    ensures |r| == |s|
    ensures forall j :: 0 <= j < |s| ==> r[j] == (if KeyOf(s[j]) == k then s[j].(uid := uid) else s[j])
    ensures forall j :: 0 <= j < |s| ==> KeyOf(r[j]) == KeyOf(s[j])
  {
    seq(|s|, j requires 0 <= j < |s| => if KeyOf(s[j]) == k then s[j].(uid := uid) else s[j])
  }

  /** One step of the merge: a new identity is appended, a known one only adopts a set uid. */
  ghost function Add(out: seq<ManagedResource>, r: ManagedResource): seq<ManagedResource> {
    if KeyOf(r) !in Keys(out) then out + [r]
    else if r.uid != "" then WithUid(out, KeyOf(r), r.uid)
    else out
  }

  ghost function AddAll(out: seq<ManagedResource>, rs: seq<ManagedResource>): seq<ManagedResource> {
    if rs == [] then out else Add(AddAll(out, rs[..|rs| - 1]), rs[|rs| - 1])
  }

  ghost function Union(previous: seq<ManagedResource>, applied: seq<ManagedResource>): seq<ManagedResource> {
    AddAll([], previous + applied)
  }

  lemma KeysOf(s: seq<ManagedResource>, k: ResourceKey)
    ensures k in Keys(s) <==> exists j :: 0 <= j < |s| && KeyOf(s[j]) == k
  {
    if j :| 0 <= j < |s| && KeyOf(s[j]) == k {
      assert s[j] in s;
    }
  }

  lemma KeysSnoc(s: seq<ManagedResource>, r: ManagedResource)
    ensures Keys(s + [r]) == Keys(s) + {KeyOf(r)}
  {
    forall k ensures k in Keys(s + [r]) <==> k in Keys(s) + {KeyOf(r)} {
      assert forall x :: x in s + [r] <==> x in s || x == r;
    }
  }

  lemma AddFacts(out: seq<ManagedResource>, r: ManagedResource)
    ensures Keys(Add(out, r)) == Keys(out) + {KeyOf(r)}
    ensures KeyUnique(out) ==> KeyUnique(Add(out, r))
  {
    forall k ensures k in Keys(Add(out, r)) <==> k in Keys(out) + {KeyOf(r)} {
      KeysOf(out, k);
      KeysOf(Add(out, r), k);
      if j :| 0 <= j < |out| && KeyOf(out[j]) == k {
        assert KeyOf(Add(out, r)[j]) == k;
      }
      if KeyOf(r) !in Keys(out) {
        assert Add(out, r)[|out|] == r;
      }
    }
    if KeyUnique(out) && KeyOf(r) !in Keys(out) {
      forall j | 0 <= j < |out| ensures KeyOf(out[j]) != KeyOf(r) { KeysOf(out, KeyOf(out[j])); }
    }
  }

  lemma {:induction false} AddAllFacts(out: seq<ManagedResource>, rs: seq<ManagedResource>)
    ensures Keys(AddAll(out, rs)) == Keys(out) + Keys(rs)
    ensures KeyUnique(out) ==> KeyUnique(AddAll(out, rs))
  {
    if rs != [] {
      var n := |rs| - 1;
      AddAllFacts(out, rs[..n]);
      AddFacts(AddAll(out, rs[..n]), rs[n]);
      assert rs == rs[..n] + [rs[n]];
      KeysSnoc(rs[..n], rs[n]);
    }
  }

  /** The merge holds each identity once, and exactly those of the two inputs. */
  lemma UnionCovers(a: seq<ManagedResource>, b: seq<ManagedResource>)
    ensures KeyUnique(Union(a, b)) && Keys(Union(a, b)) == Keys(a) + Keys(b)
  {
    AddAllFacts([], a + b);
    forall k ensures k in Keys(a + b) <==> k in Keys(a) + Keys(b) {
      assert forall r :: r in a + b <==> r in a || r in b;
    }
  }

  /** The last uid recorded for k in s, "" when none is. */
  ghost function LastUid(s: seq<ManagedResource>, k: ResourceKey): string {
    if s == [] then ""
    else
      var r := s[|s| - 1];
      if KeyOf(r) == k && r.uid != "" then r.uid else LastUid(s[..|s| - 1], k)
  }

  /** The first entry with key k. */
  ghost function First(s: seq<ManagedResource>, k: ResourceKey): ManagedResource
    requires k in Keys(s)
  {
    if KeyOf(s[0]) == k then s[0]
    else
      assert s == [s[0]] + s[1..];
      assert exists r :: r in s[1..] && KeyOf(r) == k;
      First(s[1..], k)
  }

  lemma {:induction false} FirstSnoc(s: seq<ManagedResource>, r: ManagedResource, k: ResourceKey)
    requires k in Keys(s + [r])
    ensures First(s + [r], k) == if k in Keys(s) then First(s, k) else r
  {
    if s == [] {
      assert s + [r] == [r];
    } else {
      assert (s + [r])[1..] == s[1..] + [r];
      if KeyOf(s[0]) != k {
        KeysOf(s + [r], k);
        KeysOf(s[1..] + [r], k);
        var j :| 0 <= j < |s + [r]| && KeyOf((s + [r])[j]) == k;
        assert (s[1..] + [r])[j - 1] == (s + [r])[j];
        FirstSnoc(s[1..], r, k);
        assert forall x :: x in s <==> x == s[0] || x in s[1..];
      } else {
        assert s[0] in s;
      }
    }
  }

  /** Each surviving entry is the first one of its identity with the last uid recorded for it. */
  lemma {:induction false} UnionEntry(s: seq<ManagedResource>, i: nat)
    requires i < |AddAll([], s)|
    ensures var e := AddAll([], s)[i]; KeyOf(e) in Keys(s) && e == First(s, KeyOf(e)).(uid := LastUid(s, KeyOf(e)))
  {
    var n := |s| - 1;
    var out, r := AddAll([], s[..n]), s[n];
    assert s == s[..n] + [r];
    AddAllFacts([], s[..n]);
    AddAllFacts([], s);
    var e := AddAll([], s)[i];
    assert e in AddAll([], s);
    assert KeyOf(e) in Keys(s);
    FirstSnoc(s[..n], r, KeyOf(e));
    if i < |out| {
      UnionEntry(s[..n], i);
      assert KeyOf(out[i]) == KeyOf(e);
    } else {
      NoUid(s[..n], KeyOf(r));
    }
  }

  lemma {:induction false} NoUid(s: seq<ManagedResource>, k: ResourceKey)
    ensures k !in Keys(s) ==> LastUid(s, k) == ""
  {
    if s != [] {
      var n := |s| - 1;
      assert s[n] in s;
      NoUid(s[..n], k);
      assert forall r :: r in s[..n] ==> r in s;
    }
  }

  /** Two entries name one object: the version is no part of that. */
  ghost predicate SameObject(r: ManagedResource, q: ManagedResource) {
    r.group == q.group && r.kind == q.kind && r.ns == q.ns && r.name == q.name
  }

  lemma KeyOfIff(r: ManagedResource, q: ManagedResource)
    ensures KeyOf(r) == KeyOf(q) <==> SameObject(r, q)
  {
  }

  /** So the merge hides no object behind another: it names each object of the inputs, once, and no
      others. */
  lemma UnionByObject(a: seq<ManagedResource>, b: seq<ManagedResource>, r: ManagedResource)
    ensures (exists e :: e in Union(a, b) && SameObject(e, r)) <==> (exists q :: (q in a || q in b) && SameObject(q, r))
    ensures forall i, j :: 0 <= i < j < |Union(a, b)| ==> !SameObject(Union(a, b)[i], Union(a, b)[j])
  {
    var u := Union(a, b);
    UnionCovers(a, b);
    KeyByObject(u, r);
    KeyByObject(a, r);
    KeyByObject(b, r);
    forall i, j | 0 <= i < j < |u| ensures !SameObject(u[i], u[j]) {
      KeyOfIff(u[i], u[j]);
    }
  }

  lemma KeyByObject(s: seq<ManagedResource>, r: ManagedResource)
    ensures KeyOf(r) in Keys(s) <==> exists e :: e in s && SameObject(e, r)
  {
    if e :| e in s && SameObject(e, r) {
      KeyOfIff(e, r);
    }
    if e :| e in s && KeyOf(e) == KeyOf(r) {
      KeyOfIff(e, r);
    }
  }

  lemma {:induction false} AddAllConcat(out: seq<ManagedResource>, a: seq<ManagedResource>, b: seq<ManagedResource>)
    ensures AddAll(out, a + b) == AddAll(AddAll(out, a), b)
  {
    if b == [] {
      assert a + b == a;
    } else {
      var n := |b| - 1;
      assert (a + b)[..|a + b| - 1] == a + b[..n];
      AddAllConcat(out, a, b[..n]);
    }
  }

  lemma {:induction false} AddAllUnique(s: seq<ManagedResource>)
    requires KeyUnique(s)
    ensures AddAll([], s) == s
  {
    if s != [] {
      var n := |s| - 1;
      var s0, r := s[..n], s[n];
      AddAllUnique(s0);
      assert KeyOf(r) !in Keys(s0) by { KeysOf(s0, KeyOf(r)); }
      AddAllSnoc([], s0, r);
      assert s == s0 + [r];
    }
  }

  lemma WithUidKeys(s: seq<ManagedResource>, k: ResourceKey, u: string)
    ensures Keys(WithUid(s, k, u)) == Keys(s)
  {
    forall c ensures c in Keys(WithUid(s, k, u)) <==> c in Keys(s) {
      KeysOf(s, c);
      KeysOf(WithUid(s, k, u), c);
      if j :| 0 <= j < |s| && KeyOf(s[j]) == c {
        assert KeyOf(WithUid(s, k, u)[j]) == c;
      }
    }
  }

  lemma WithUidAbsent(s: seq<ManagedResource>, k: ResourceKey, u: string)
    requires k !in Keys(s)
    ensures WithUid(s, k, u) == s
  {
    forall j | 0 <= j < |s| ensures KeyOf(s[j]) != k { KeysOf(s, KeyOf(s[j])); }
  }

  /** Setting the uid of the entry being added, before or after adding it. */
  lemma UidOfAdded(b: seq<ManagedResource>, r: ManagedResource, u: string)
    requires u != ""
    ensures Add(b, r.(uid := u)) == WithUid(Add(b, r), KeyOf(r), u)
  {
    var k := KeyOf(r);
    assert KeyOf(r.(uid := u)) == k;
    if k !in Keys(b) {
      WithUidAbsent(b, k, u);
      assert WithUid(b + [r], k, u) == WithUid(b, k, u) + [r.(uid := u)];
    } else {
      assert WithUid(WithUid(b, k, r.uid), k, u) == WithUid(b, k, u);
    }
  }

  /** Setting a uid and adding an entry of another identity commute. */
  lemma UidOfOther(b: seq<ManagedResource>, r: ManagedResource, k: ResourceKey, u: string)
    requires KeyOf(r) != k
    ensures Add(WithUid(b, k, u), r) == WithUid(Add(b, r), k, u)
  {
    WithUidKeys(b, k, u);
    assert WithUid(b + [r], k, u) == WithUid(b, k, u) + [r];
    assert WithUid(WithUid(b, KeyOf(r), r.uid), k, u) == WithUid(WithUid(b, k, u), KeyOf(r), r.uid);
  }

  lemma AddAllSnoc(out: seq<ManagedResource>, y: seq<ManagedResource>, r: ManagedResource)
    ensures AddAll(out, y + [r]) == Add(AddAll(out, y), r)
  {
    assert (y + [r])[..|y|] == y;
  }

  lemma WithUidSnoc(y: seq<ManagedResource>, r: ManagedResource, k: ResourceKey, u: string)
    ensures WithUid(y + [r], k, u) == WithUid(y, k, u) + [if KeyOf(r) == k then r.(uid := u) else r]
  {
  }

  /** Setting a uid before or after merging comes to the same. */
  lemma {:induction false} UidThenMerge(out: seq<ManagedResource>, y: seq<ManagedResource>, k: ResourceKey, u: string)
    requires KeyUnique(y) && k in Keys(y) && u != ""
    ensures AddAll(out, WithUid(y, k, u)) == WithUid(AddAll(out, y), k, u)
  {
    var n := |y| - 1;
    var y0, r := y[..n], y[n];
    assert y == y0 + [r];
    KeysSnoc(y0, r);
    if KeyOf(r) == k {
      KeysOf(y0, k);
    } else {
      UidThenMerge(out, y0, k, u);
    }
    UidThenSnoc(out, y0, r, k, u);
  }

  lemma UidThenSnoc(out: seq<ManagedResource>, y: seq<ManagedResource>, r: ManagedResource, k: ResourceKey, u: string)
    requires u != ""
    requires if KeyOf(r) == k then k !in Keys(y) else AddAll(out, WithUid(y, k, u)) == WithUid(AddAll(out, y), k, u)
    ensures AddAll(out, WithUid(y + [r], k, u)) == WithUid(AddAll(out, y + [r]), k, u)
  {
    WithUidSnoc(y, r, k, u);
    AddAllSnoc(out, y, r);
    if KeyOf(r) == k {
      WithUidAbsent(y, k, u);
      AddAllSnoc(out, y, r.(uid := u));
      UidOfAdded(AddAll(out, y), r, u);
    } else {
      AddAllSnoc(out, WithUid(y, k, u), r);
      UidOfOther(AddAll(out, y), r, k, u);
    }
  }

  lemma {:induction false} MergeNormalized(out: seq<ManagedResource>, y: seq<ManagedResource>)
    ensures AddAll(out, AddAll([], y)) == AddAll(out, y)
  {
    if y != [] {
      var n := |y| - 1;
      var y0, r := AddAll([], y[..n]), y[n];
      MergeNormalized(out, y[..n]);
      AddAllFacts([], y[..n]);
      AddAllFacts(out, y[..n]);
      if KeyOf(r) !in Keys(y0) {
        assert (y0 + [r])[..|y0|] == y0;
      } else if r.uid != "" {
        UidThenMerge(out, y0, KeyOf(r), r.uid);
      }
    }
  }

  lemma MergeLeft(a: seq<ManagedResource>, c: seq<ManagedResource>)
    ensures AddAll([], AddAll([], a) + c) == AddAll([], a + c)
  {
    AddAllFacts([], a);
    AddAllUnique(AddAll([], a));
    AddAllConcat([], AddAll([], a), c);
    AddAllConcat([], a, c);
  }

  lemma MergeRight(a: seq<ManagedResource>, c: seq<ManagedResource>)
    ensures AddAll([], a + AddAll([], c)) == AddAll([], a + c)
  {
    AddAllConcat([], a, AddAll([], c));
    MergeNormalized(AddAll([], a), c);
    AddAllConcat([], a, c);
  }

  lemma UnionAssociative(a: seq<ManagedResource>, b: seq<ManagedResource>, c: seq<ManagedResource>)
    ensures Union(Union(a, b), c) == Union(a, Union(b, c))
  {
    MergeLeft(a + b, c);
    MergeRight(a, b + c);
    ConcatAssociative(a, b, c);
  }

  lemma {:induction false} UniqueLength(s: seq<ManagedResource>)
    requires KeyUnique(s)
    ensures |Keys(s)| == |s|
  {
    if s == [] {
      assert Keys(s) == {};
    } else {
      var n := |s| - 1;
      UniqueLength(s[..n]);
      assert s == s[..n] + [s[n]];
      KeysSnoc(s[..n], s[n]);
      KeysOf(s[..n], KeyOf(s[n]));
    }
  }

  /** The length comparison that decides whether to write ahead. It compares the number of
      distinct identities with the number of recorded entries, ... */
  lemma UnionLength(previous: seq<ManagedResource>, intended: seq<ManagedResource>)
    ensures |Union(previous, intended)| == |Keys(previous) + Keys(intended)|
  {
    UnionCovers(previous, intended);
    UniqueLength(Union(previous, intended));
  }

  /** ... so on an inventory without repeated identities the write-ahead is skipped exactly when
      every intended identity is already tracked. */
  lemma SkipIffTracked(previous: seq<ManagedResource>, intended: seq<ManagedResource>)
    requires KeyUnique(previous)
    ensures |Union(previous, intended)| > |previous| <==> !(Keys(intended) <= Keys(previous))
  {
    UnionLength(previous, intended);
    UniqueLength(previous);
    var both := Keys(previous) + Keys(intended);
    assert both == Keys(previous) + (both - Keys(previous));
    if Keys(intended) <= Keys(previous) {
      assert both == Keys(previous);
    } else {
      var k :| k in Keys(intended) && k !in Keys(previous);
      assert k in both - Keys(previous);
    }
  }

  /** The identities in order. */
  function KeyList(s: seq<ManagedResource>): seq<ResourceKey> {
    seq(|s|, i requires 0 <= i < |s| => KeyOf(s[i]))
  }

  lemma KeyListFacts(s: seq<ManagedResource>)
    ensures Elements(KeyList(s)) == Keys(s)
    ensures NoDup(KeyList(s)) <==> KeyUnique(s)
  {
    forall k ensures k in KeyList(s) <==> k in Keys(s) {
      KeysOf(s, k);
      if j :| 0 <= j < |s| && KeyOf(s[j]) == k {
        assert KeyList(s)[j] == k;
      }
    }
    if KeyUnique(s) {
      forall i, j | 0 <= i < j < |s| ensures KeyList(s)[i] != KeyList(s)[j] {
        assert KeyOf(s[i]) != KeyOf(s[j]);
      }
    }
    if NoDup(KeyList(s)) {
      forall i, j | 0 <= i < j < |s| ensures KeyOf(s[i]) != KeyOf(s[j]) {
        assert KeyList(s)[i] != KeyList(s)[j];
      }
    }
  }

  /** A name longer than every recorded one. */
  function LongName(s: seq<ManagedResource>): (name: string)
    ensures forall r :: r in s ==> |r.name| < |name|
  {
    if s == [] then "x"
    else
      assert forall r :: r in s <==> r == s[0] || r in s[1..];
      LongName(s[1..]) + s[0].name + "x"
  }

  /** An identity that the inventory does not hold. */
  function Untracked(s: seq<ManagedResource>): (r: ManagedResource)
    ensures KeyOf(r) !in Keys(s)
  {
    MR("", "", "", "", "", LongName(s), "")
  }

  /** The length comparison writes ahead exactly when some intended identity is not tracked. */
  ghost predicate LengthTestExact(previous: seq<ManagedResource>) {
    forall intended :: |Union(previous, intended)| > |previous| <==> !(Keys(intended) <= Keys(previous))
  }

  /** A repeated identity hides a new one from the length comparison. */
  lemma RepeatedIdentityHidesIntent(previous: seq<ManagedResource>, b: ManagedResource)
    requires !KeyUnique(previous) && KeyOf(b) !in Keys(previous)
    ensures |Union(previous, [b])| <= |previous|
  {
    UnionLength(previous, [b]);
    KeyListFacts(previous);
    LengthIffNoDup(KeyList(previous));
    assert Keys([b]) == {KeyOf(b)};
    InsertCardinality(Keys(previous), KeyOf(b));
  }

  /** So the comparison is exact if and only if the previous inventory repeats no identity. */
  lemma LengthTestExactIffUnique(previous: seq<ManagedResource>)
    ensures LengthTestExact(previous) <==> KeyUnique(previous)
  {
    if KeyUnique(previous) {
      forall intended ensures |Union(previous, intended)| > |previous| <==> !(Keys(intended) <= Keys(previous)) {
        SkipIffTracked(previous, intended);
      }
    } else {
      var b := Untracked(previous);
      RepeatedIdentityHidesIntent(previous, b);
      assert KeyOf(b) in Keys([b]);
      assert !(|Union(previous, [b])| > |previous| <==> !(Keys([b]) <= Keys(previous)));
    }
  }

  lemma WithUidAt(out: seq<ManagedResource>, i: nat, u: string)
    requires KeyUnique(out) && i < |out|
    ensures out[i := out[i].(uid := u)] == WithUid(out, KeyOf(out[i]), u)
  {
  }

  ghost predicate Indexed(idx: map<ResourceKey, nat>, out: seq<ManagedResource>) {
    forall k {:trigger idx[k]} :: k in idx ==> idx[k] < |out| && KeyOf(out[idx[k]]) == k
  }

  lemma IndexSnoc(idx: map<ResourceKey, nat>, out: seq<ManagedResource>, r: ManagedResource)
    requires Indexed(idx, out)
    ensures Indexed(idx[KeyOf(r) := |out|], out + [r])
  {
  }

  /** out merges the first n entries, and idx finds each of them. */
  ghost predicate MergedTo(all: seq<ManagedResource>, n: nat, out: seq<ManagedResource>, idx: map<ResourceKey, nat>)
    requires n <= |all|
  {
    out == AddAll([], all[..n]) && KeyUnique(out) && idx.Keys == Keys(out) && Indexed(idx, out)
  }

  lemma MergedNext(all: seq<ManagedResource>, n: nat, out: seq<ManagedResource>, out': seq<ManagedResource>, idx': map<ResourceKey, nat>)
    requires n < |all| && out == AddAll([], all[..n]) && out' == Add(out, all[n])
    requires KeyUnique(out') && idx'.Keys == Keys(out') && Indexed(idx', out')
    ensures MergedTo(all, n + 1, out', idx')
  {
    AddAllSnoc([], all[..n], all[n]);
    assert all[..n + 1] == all[..n] + [all[n]];
  }

  /** The merge, with its index from identity to position. */
  method UnionManagedResources(previous: seq<ManagedResource>, applied: seq<ManagedResource>) returns (out: seq<ManagedResource>)
    ensures out == Union(previous, applied)
  {
    out := [];
    var idx: map<ResourceKey, nat> := map[];
    var all := previous + applied;
    for n := 0 to |all|
      invariant MergedTo(all, n, out, idx)
    {
      ghost var before := out;
      out, idx := AddOne(out, idx, all[n]);
      MergedNext(all, n, before, out, idx);
    }
    assert all[..|all|] == all;
  }

  /** The closure `add` of the merge. */
  method AddOne(out0: seq<ManagedResource>, idx0: map<ResourceKey, nat>, r: ManagedResource)
    returns (out: seq<ManagedResource>, idx: map<ResourceKey, nat>)
    requires KeyUnique(out0) && idx0.Keys == Keys(out0) && Indexed(idx0, out0)
    ensures out == Add(out0, r) && KeyUnique(out) && idx.Keys == Keys(out) && Indexed(idx, out)
  {
    out, idx := out0, idx0;
    AddFacts(out, r);
    var k := KeyOf(r);
    if k in idx {
      if r.uid != "" {
        WithUidAt(out, idx[k], r.uid);
        out := out[idx[k] := out[idx[k]].(uid := r.uid)];
      }
    } else {
      IndexSnoc(idx, out, r);
      idx := idx[k := |out|];
      out := out + [r];
    }
  }

  /* ---------- diff ---------- */

  ghost predicate Kept(applied: set<ResourceKey>, unresolved: set<string>, r: ManagedResource) {
    KeyOf(r) !in applied && r.nodeID in unresolved
  }

  ghost predicate Prunable(applied: set<ResourceKey>, unresolved: set<string>, r: ManagedResource) {
    KeyOf(r) !in applied && r.nodeID !in unresolved
  }

  ghost function Select<T(!new)>(s: seq<T>, p: T -> bool): (r: seq<T>)
    ensures forall x :: x in r <==> x in s && p(x)
  {
    if s == [] then []
    else Select(s[..|s| - 1], p) + if p(s[|s| - 1]) then [s[|s| - 1]] else []
  }

  /** Splits the previous inventory: what was applied again is replaced by its applied entry,
      what belongs to an unresolved node is kept, the rest may be pruned. */
  method DiffManagedResources(previous: seq<ManagedResource>, applied: seq<ManagedResource>, unresolvedIDs: seq<string>)
    returns (newSet: seq<ManagedResource>, pruneCandidates: seq<ManagedResource>)
    ensures var unresolved := set id | id in unresolvedIDs;
            newSet == NewSet(previous, applied, unresolved) && pruneCandidates == ToPrune(previous, applied, unresolved)
  {
    var unresolved := set id | id in unresolvedIDs;
    var appliedKeys := set r | r in applied :: KeyOf(r);
    newSet := applied;
    pruneCandidates := [];
    var i := 0;
    while i < |previous|
      invariant 0 <= i <= |previous|
      invariant newSet == NewSet(previous[..i], applied, unresolved)
      invariant pruneCandidates == ToPrune(previous[..i], applied, unresolved)
    {
      var prev := previous[i];
      assert previous[..i + 1][..i] == previous[..i];
      if KeyOf(prev) in appliedKeys {
      } else if prev.nodeID in unresolved {
        newSet := newSet + [prev];
      } else {
        pruneCandidates := pruneCandidates + [prev];
      }
      i := i + 1;
    }
    assert previous[..i] == previous;
  }

  ghost function NewSet(previous: seq<ManagedResource>, applied: seq<ManagedResource>, unresolved: set<string>): seq<ManagedResource> {
    applied + Select(previous, r => Kept(Keys(applied), unresolved, r))
  }

  ghost function ToPrune(previous: seq<ManagedResource>, applied: seq<ManagedResource>, unresolved: set<string>): seq<ManagedResource> {
    Select(previous, r => Prunable(Keys(applied), unresolved, r))
  }

  /** Every previous entry is applied again, kept or prunable, and nothing prunable shares an
      identity with anything applied. */
  lemma DiffPartitions(previous: seq<ManagedResource>, applied: seq<ManagedResource>, unresolved: set<string>)
    ensures Keys(NewSet(previous, applied, unresolved)) !! Keys(ToPrune(previous, applied, unresolved)) || !KeyUnique(previous)
    ensures Keys(applied) !! Keys(ToPrune(previous, applied, unresolved))
    ensures forall r :: r in previous ==>
              KeyOf(r) in Keys(applied)
              || (r in NewSet(previous, applied, unresolved) && r.nodeID in unresolved)
              || (r in ToPrune(previous, applied, unresolved) && r.nodeID !in unresolved)
    ensures KeyUnique(previous) && KeyUnique(applied) ==> KeyUnique(NewSet(previous, applied, unresolved))
  {
    var keep := r => Kept(Keys(applied), unresolved, r);
    var kept := Select(previous, keep);
    var pruned := ToPrune(previous, applied, unresolved);
    if KeyUnique(previous) {
      SelectUnique(previous, keep);
      forall r, q | r in kept && q in pruned ensures KeyOf(r) != KeyOf(q) {
        var i :| 0 <= i < |previous| && previous[i] == r;
        var j :| 0 <= j < |previous| && previous[j] == q;
      }
      if KeyUnique(applied) {
        forall i, j | 0 <= i < |applied| && 0 <= j < |kept| ensures KeyOf(applied[i]) != KeyOf(kept[j]) {
          assert applied[i] in applied && kept[j] in kept;
        }
      }
    }
  }

  lemma {:induction false} SelectUnique(s: seq<ManagedResource>, p: ManagedResource -> bool)
    requires KeyUnique(s)
    ensures KeyUnique(Select(s, p))
  {
    if s != [] {
      var n := |s| - 1;
      SelectUnique(s[..n], p);
      var kept := Select(s[..n], p);
      forall j | 0 <= j < |kept| ensures KeyOf(kept[j]) != KeyOf(s[n]) {
        assert kept[j] in kept;
        var i :| 0 <= i < |s[..n]| && s[..n][i] == kept[j];
      }
    }
  }

  /* ---------- patch contributions ---------- */

  /** One field manager's contribution to a target; identity is the whole value. */
  datatype Contribution = Contribution(apiVersion: string, kind: string, ns: string, name: string,
                                       subresource: string, fieldManager: string)

  method UnionContributions(prior: seq<Contribution>, current: seq<Contribution>) returns (out: seq<Contribution>)
    ensures out == Merge(prior + current)
  {
    out := [];
    var seen: set<Contribution> := {};
    var all := prior + current;
    var n := 0;
    while n < |all|
      invariant 0 <= n <= |all|
      invariant out == Merge(all[..n]) && seen == Elements(out)
    {
      assert all[..n + 1][..n] == all[..n];
      if all[n] !in seen {
        seen := seen + {all[n]};
        out := out + [all[n]];
      }
      n := n + 1;
    }
    assert all[..n] == all;
  }

  ghost function Merge(s: seq<Contribution>): (r: seq<Contribution>)
    ensures Elements(r) == Elements(s) && NoDup(r)
  {
    if s == [] then []
    else
      assert s == s[..|s| - 1] + [s[|s| - 1]];
      var r := Merge(s[..|s| - 1]);
      assert Elements(s) == Elements(s[..|s| - 1]) + {s[|s| - 1]};
      if s[|s| - 1] in r then r
      else
        assert Elements(r + [s[|s| - 1]]) == Elements(r) + {s[|s| - 1]};
        assert s[|s| - 1] !in Elements(r);
        r + [s[|s| - 1]]
  }

  method DiffContributions(prior: seq<Contribution>, current: seq<Contribution>) returns (released: seq<Contribution>)
    ensures released == Select(prior, c => c !in current)
  {
    released := [];
    var cur := set c | c in current;
    var i := 0;
    while i < |prior|
      invariant 0 <= i <= |prior|
      invariant released == Select(prior[..i], c => c !in current)
    {
      assert prior[..i + 1][..i] == prior[..i];
      if prior[i] !in cur {
        released := released + [prior[i]];
      }
      i := i + 1;
    }
    assert prior[..i] == prior;
  }

  /** The same length comparison for contributions. */
  lemma ContributionSkipIffTracked(prior: seq<Contribution>, intended: seq<Contribution>)
    requires NoDup(prior)
    ensures |Merge(prior + intended)| > |prior| <==> !(Elements(intended) <= Elements(prior))
  {
    NoDupCardinality(prior);
    NoDupCardinality(Merge(prior + intended));
    var both := Elements(prior) + Elements(intended);
    assert Elements(prior + intended) == both;
    assert both == Elements(prior) + (both - Elements(prior));
    if Elements(intended) <= Elements(prior) {
      assert both == Elements(prior);
    } else {
      var c :| c in Elements(intended) && c !in Elements(prior);
      assert c in both - Elements(prior);
    }
  }

  /** A manager name longer than every recorded one. */
  function LongManager(s: seq<Contribution>): (name: string)
    ensures forall c :: c in s ==> |c.fieldManager| < |name|
  {
    if s == [] then "x"
    else
      assert forall c :: c in s <==> c == s[0] || c in s[1..];
      LongManager(s[1..]) + s[0].fieldManager + "x"
  }

  ghost predicate ContributionTestExact(prior: seq<Contribution>) {
    forall intended :: |Merge(prior + intended)| > |prior| <==> !(Elements(intended) <= Elements(prior))
  }

  lemma RepeatedContributionHidesIntent(prior: seq<Contribution>, c: Contribution)
    requires !NoDup(prior) && c !in prior
    ensures |Merge(prior + [c])| <= |prior|
  {
    LengthIffNoDup(prior);
    NoDupCardinality(Merge(prior + [c]));
    assert Elements(prior + [c]) == Elements(prior) + {c};
    InsertCardinality(Elements(prior), c);
  }

  /** The comparison of contributions is exact if and only if the ledger repeats none. */
  lemma ContributionTestExactIffDistinct(prior: seq<Contribution>)
    ensures ContributionTestExact(prior) <==> NoDup(prior)
  {
    if NoDup(prior) {
      forall intended ensures |Merge(prior + intended)| > |prior| <==> !(Elements(intended) <= Elements(prior)) {
        ContributionSkipIffTracked(prior, intended);
      }
    } else {
      var c := Contribution("", "", "", "", "", LongManager(prior));
      assert c !in prior;
      RepeatedContributionHidesIntent(prior, c);
      assert c in Elements([c]);
      assert !(|Merge(prior + [c])| > |prior| <==> !(Elements([c]) <= Elements(prior)));
    }
  }

  /* ---------- parsing an apiVersion ---------- */

  /** Position of the first '/' in s, or its length. */
  function Slash(s: string): (i: nat)
    ensures i <= |s| && '/' !in s[..i] && (i < |s| ==> s[i] == '/')
  {
    if s == [] || s[0] == '/' then 0 else 1 + Slash(s[1..])
  }

  /** The group of "group/version". A bare version and a malformed value (two or more slashes)
      both fall back to the empty group. */
  function GroupOf(apiVersion: string): string {
    var i := Slash(apiVersion);
    if i < |apiVersion| && '/' !in apiVersion[i + 1..] then apiVersion[..i] else ""
  }

  lemma {:induction false} SlashAt(s: string, n: nat)
    requires n < |s| && s[n] == '/' && '/' !in s[..n]
    ensures Slash(s) == n
  {
    if n > 0 {
      assert s[..n][0] == s[0];
      assert s[1..][..n - 1] == s[..n][1..];
      SlashAt(s[1..], n - 1);
    }
  }

  lemma GroupOfVersioned(group: string, version: string)
    requires '/' !in group && '/' !in version
    ensures GroupOf(group + "/" + version) == group
  {
    var s := group + "/" + version;
    assert s[..|group|] == group && s[|group| + 1..] == version;
    SlashAt(s, |group|);
  }

  /** A bare version, and a text with two slashes, have no group. */
  lemma GroupOfOthers(s: string, i: nat, j: nat)
    ensures '/' !in s ==> GroupOf(s) == ""
    ensures i < j < |s| && s[i] == '/' && s[j] == '/' ==> GroupOf(s) == ""
  {
    var n := Slash(s);
    if i < j < |s| && s[i] == '/' && s[j] == '/' {
      assert forall m :: 0 <= m < n ==> s[..n][m] == s[m];
      assert s[n + 1..][j - n - 1] == '/';
    }
  }

  /** Two served versions of one kind address one stored object: they share their identity. */
  lemma VersionsShareKey(r: ManagedResource, q: ManagedResource, group: string, v1: string, v2: string)
    requires '/' !in group && '/' !in v1 && '/' !in v2
    requires r.group == GroupOf(group + "/" + v1) && q.group == GroupOf(group + "/" + v2)
    requires r.kind == q.kind && r.ns == q.ns && r.name == q.name
    ensures KeyOf(r) == KeyOf(q)
  {
    GroupOfVersioned(group, v1);
    GroupOfVersioned(group, v2);
  }
}
