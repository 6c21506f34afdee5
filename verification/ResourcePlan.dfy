/** The dependency graph that a list of declared nodes asks for, on plain values: identifiers,
    positions, what each node needs, and whether its expressions are acceptable. */
module ResourcePlan {

  import opened Collections
  import opened Digraph
  import opened Dag

  datatype Plan = Plan(ids: seq<Id>, positions: seq<int>, needs: seq<set<Id>>, oks: seq<bool>) {
    ghost predicate Proper() {
      |ids| == |positions| == |needs| == |oks|
    }
  }

  /** Vertices for the first k ids, with their positions and no edges. */
  ghost function Vertices(ids: seq<Id>, positions: seq<int>, k: nat): Graph
    requires k <= |ids| == |positions|
  {
    if k == 0 then Graph(map[], map[])
    else
      var g := Vertices(ids, positions, k - 1);
      Graph(g.deps[ids[k - 1] := {}], g.order[ids[k - 1] := positions[k - 1]])
  }

  /** The edges of the first k ids, over these vertices. */
  ghost function Edges(start: map<Id, set<Id>>, ids: seq<Id>, needs: seq<set<Id>>, k: nat): map<Id, set<Id>>
    requires k <= |ids| == |needs|
  {
    if k == 0 then start else Edges(start, ids, needs, k - 1)[ids[k - 1] := needs[k - 1]]
  }

  /** All vertices, and the edges of the first k nodes. */
  ghost function GraphTo(p: Plan, k: nat): Graph
    requires p.Proper() && k <= |p.ids|
  {
    var g := Vertices(p.ids, p.positions, |p.ids|);
    Graph(Edges(g.deps, p.ids, p.needs, k), g.order)
  }

  /** Everything a node refers to is declared, and is not the node itself. */
  ghost predicate Declared(ids: seq<Id>, id: Id, deps: set<Id>) {
    forall d :: d in deps ==> d in ids && d != id
  }

  /** The first k nodes are acceptable, their references declared, and their edges acyclic. */
  ghost predicate Progress(p: Plan, k: nat)
    requires p.Proper() && k <= |p.ids|
  {
    && (forall j :: 0 <= j < k ==> p.oks[j])
    && (forall j :: 0 <= j < k ==> Declared(p.ids, p.ids[j], p.needs[j]))
    && !Cyclic(GraphTo(p, k).deps)
  }

  /** The plans that have a dependency graph. */
  ghost predicate Acceptance(p: Plan)
    requires p.Proper()
  {
    NoDup(p.ids) && Progress(p, |p.ids|)
  }

  lemma {:induction false} VerticesFacts(ids: seq<Id>, positions: seq<int>, k: nat)
    requires k <= |ids| == |positions|
    ensures Vertices(ids, positions, k).deps.Keys == Vertices(ids, positions, k).order.Keys == Elements(ids[..k])
    ensures forall v :: v in Vertices(ids, positions, k).deps ==> Vertices(ids, positions, k).deps[v] == {}
  {
    if k > 0 {
      VerticesFacts(ids, positions, k - 1);
      assert ids[..k] == ids[..k - 1] + [ids[k - 1]];
    }
  }

  lemma {:induction false} EdgesKeys(start: map<Id, set<Id>>, ids: seq<Id>, needs: seq<set<Id>>, k: nat)
    requires k <= |ids| == |needs| && start.Keys == Elements(ids)
    ensures Edges(start, ids, needs, k).Keys == Elements(ids)
  {
    if k > 0 {
      EdgesKeys(start, ids, needs, k - 1);
      assert ids[k - 1] in Elements(ids);
    }
  }

  lemma {:induction false} EdgesAt(start: map<Id, set<Id>>, ids: seq<Id>, needs: seq<set<Id>>, k: nat, j: nat)
    requires k <= |ids| == |needs| && start.Keys == Elements(ids) && j < |ids| && NoDup(ids)
    ensures ids[j] in Edges(start, ids, needs, k)
    ensures Edges(start, ids, needs, k)[ids[j]] == if j < k then needs[j] else start[ids[j]]
  {
    EdgesKeys(start, ids, needs, k);
    assert ids[j] in Elements(ids);
    if k > 0 {
      EdgesAt(start, ids, needs, k - 1, j);
    }
  }

  lemma PartialEdges(start: map<Id, set<Id>>, ids: seq<Id>, needs: seq<set<Id>>, k: nat)
    requires k <= |ids| == |needs| && start.Keys == Elements(ids) && NoDup(ids)
    requires forall v :: v in start ==> start[v] == {}
    ensures Cyclic(Edges(start, ids, needs, k)) ==> Cyclic(Edges(start, ids, needs, |ids|))
  {
    EdgesKeys(start, ids, needs, k);
    EdgesKeys(start, ids, needs, |ids|);
    var small, big := Edges(start, ids, needs, k), Edges(start, ids, needs, |ids|);
    forall v | v in small ensures v in big && small[v] <= big[v] {
      var j :| 0 <= j < |ids| && ids[j] == v;
      EdgesAt(start, ids, needs, k, j);
      EdgesAt(start, ids, needs, |ids|, j);
    }
    SubgraphCyclic(small, big);
  }

  lemma {:induction false} FirstBadNone(known: set<Id>, from: Id, deps: seq<Id>)
    ensures FirstBad(known, from, deps).None? <==> forall d :: d in deps ==> d in known && d != from
    ensures FirstBad(known, from, deps).Some? ==> !FirstBad(known, from, deps).value.Added?
  {
    if deps != [] {
      FirstBadNone(known, from, deps[1..]);
      assert forall d :: d in deps <==> d == deps[0] || d in deps[1..];
    }
  }

  lemma NoEdgesNoPath(deps: map<Id, set<Id>>, p: seq<Id>)
    requires forall v :: v in deps ==> deps[v] == {}
    ensures !(IsPath(deps, p) && |p| >= 2)
  {
    if |p| >= 2 {
      var a, b := p[0], p[1];
      assert !Edge(deps, a, b);
      assert p[1 - 1] == a;
    }
  }

  lemma NoEdgesNoCycle(deps: map<Id, set<Id>>)
    requires forall v :: v in deps ==> deps[v] == {}
    ensures !Cyclic(deps)
  {
    forall p ensures !(IsPath(deps, p) && |p| >= 2) {
      NoEdgesNoPath(deps, p);
    }
  }

  lemma NextVertex(ids: seq<Id>, i: nat)
    requires i < |ids| && NoDup(ids[..i])
    ensures ids[i] in Elements(ids[..i]) ==> !NoDup(ids)
    ensures ids[i] !in Elements(ids[..i]) ==> NoDup(ids[..i + 1])
  {
    if ids[i] in ids[..i] {
      var j :| 0 <= j < i && ids[..i][j] == ids[i];
      assert ids[j] == ids[i];
    }
  }

  lemma DeclaredIff(ids: seq<Id>, keys: set<Id>, id: Id, deps: seq<Id>)
    requires keys == Elements(ids)
    ensures FirstBad(keys, id, deps).None? <==> Declared(ids, id, Elements(deps))
  {
    FirstBadNone(keys, id, deps);
    assert forall d :: d in deps <==> d in Elements(deps);
  }

  lemma GraphKeys(p: Plan, k: nat)
    requires p.Proper() && k <= |p.ids| && NoDup(p.ids)
    ensures GraphTo(p, k).deps.Keys == Elements(p.ids)
    ensures Cyclic(GraphTo(p, k).deps) ==> Cyclic(GraphTo(p, |p.ids|).deps)
  {
    var start := Vertices(p.ids, p.positions, |p.ids|).deps;
    VerticesFacts(p.ids, p.positions, |p.ids|);
    assert p.ids[..|p.ids|] == p.ids;
    EdgesKeys(start, p.ids, p.needs, k);
    PartialEdges(start, p.ids, p.needs, k);
  }

  lemma GraphAt(p: Plan, k: nat, j: nat)
    requires p.Proper() && k <= |p.ids| && j < |p.ids| && NoDup(p.ids)
    ensures p.ids[j] in GraphTo(p, k).deps
    ensures GraphTo(p, k).deps[p.ids[j]] == if j < k then p.needs[j] else {}
  {
    var start := Vertices(p.ids, p.positions, |p.ids|).deps;
    VerticesFacts(p.ids, p.positions, |p.ids|);
    assert p.ids[..|p.ids|] == p.ids;
    EdgesAt(start, p.ids, p.needs, k, j);
    assert p.ids[j] in Elements(p.ids);
  }

  lemma NothingYet(p: Plan)
    requires p.Proper() && NoDup(p.ids)
    ensures Progress(p, 0) && GraphTo(p, 0) == Vertices(p.ids, p.positions, |p.ids|)
  {
    VerticesFacts(p.ids, p.positions, |p.ids|);
    NoEdgesNoCycle(GraphTo(p, 0).deps);
  }

  lemma GrownGraph(p: Plan, k: nat)
    requires p.Proper() && k < |p.ids| && NoDup(p.ids)
    ensures p.ids[k] in GraphTo(p, k).deps
    ensures WithDeps(GraphTo(p, k).deps, p.ids[k], p.needs[k]) == GraphTo(p, k + 1).deps
  {
    GraphAt(p, k, k);
    assert {} + p.needs[k] == p.needs[k];
  }

  lemma Rejected(p: Plan, k: nat)
    requires p.Proper() && k < |p.ids|
    requires !p.oks[k] || !Declared(p.ids, p.ids[k], p.needs[k]) || Cyclic(GraphTo(p, |p.ids|).deps)
    ensures !Acceptance(p)
  {
  }

  /** The outcome of adding node k's edges, in terms of the whole plan. */
  lemma NextEdges(p: Plan, k: nat, deps: seq<Id>, added: bool)
    requires p.Proper() && k < |p.ids| && NoDup(p.ids) && Progress(p, k) && p.oks[k]
    requires Elements(deps) == p.needs[k]
    requires added == (FirstBad(GraphTo(p, k).deps.Keys, p.ids[k], deps).None? && !Cyclic(GraphTo(p, k + 1).deps))
    ensures if added then Progress(p, k + 1) else !Acceptance(p)
  {
    GraphKeys(p, k);
    GraphKeys(p, k + 1);
    DeclaredIff(p.ids, GraphTo(p, k).deps.Keys, p.ids[k], deps);
    if !added {
      Rejected(p, k);
    }
  }
}
