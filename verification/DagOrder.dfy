/** The orders kro derives from the graph: the creation order and the deletion waves. */
module DagOrder {
  import opened Collections
  import opened Digraph
  import opened Dag
  import opened CycleSearch
  import opened DagSort

  lemma OnHeapIsReady(t: TopologicalTraversal, done: set<Id>, popped: set<Id>)
    requires t.State(done, popped)
    ensures forall v :: v in Ready(t.need, done) && v !in popped ==> Item(v, t.order[v]) in t.ready
    ensures forall it :: it in t.ready ==> EntryOf(t.order, it) && it.id in Ready(t.need, done) && it.id !in popped
  {
    var waiting :| WaitsOutside(t.need, waiting, done) && CountsOf(waiting, t.remaining);
    forall v | v in Ready(t.need, done) && v !in popped ensures Item(v, t.order[v]) in t.ready {
      assert waiting[v] == {} by { assert forall x :: x !in waiting[v]; }
      assert t.remaining[v] == 0;
      assert t.ready[Item(v, t.order[v])] == 1;
    }
    forall it | it in t.ready ensures EntryOf(t.order, it) && it.id in Ready(t.need, done) && it.id !in popped {
      assert t.ready[it] > 0;
      assert waiting[it.id] == {};
      forall x | x in t.need[it.id] ensures x in done {
        assert x !in waiting[it.id];
      }
    }
  }

  lemma EmptyHeap(t: TopologicalTraversal, done: set<Id>)
    requires t.State(done, done) && t.ready == multiset{}
    ensures Ready(t.need, done) == {}
  {
    OnHeapIsReady(t, done, done);
  }

  /** Two finite sets of which one is a subset and the sizes agree are equal. */
  lemma AllScheduled(need: map<Id, set<Id>>, order: seq<Id>)
    requires Finishing(need, order)
    ensures Elements(order) <= need.Keys && (|order| == |need.Keys| <==> Elements(order) == need.Keys)
  {
    forall v | v in Elements(order) ensures v in need {
      var i :| 0 <= i < |order| && order[i] == v;
      assert order[i] in Ready(need, Elements(order[..i]));
    }
    FinishingNoDup(need, order);
    NoDupCardinality(order);
    SubsetCardinality(Elements(order), need.Keys);
  }

  lemma FinishingNoDup(need: map<Id, set<Id>>, order: seq<Id>)
    requires Finishing(need, order)
    ensures NoDup(order)
  {
    forall i | 0 <= i < |order| ensures order[i] in Ready(need, Elements(order[..i])) {
      assert order[..i] == order[..i];
    }
    TopologicalNoDup(need, order);
  }

  /** When nothing more is ready, either everything is scheduled or there is a cycle. */
  lemma Outcome(need: map<Id, set<Id>>, order: seq<Id>)
    requires Closed(need) && Finishing(need, order) && Ready(need, Elements(order)) == {}
    ensures |order| == |need.Keys| <==> !Cyclic(need)
    ensures !Cyclic(need) ==> IsTopological(need, order)
  {
    AllScheduled(need, order);
    if Elements(order) == need.Keys {
      TopologicalFromFinishing(need, order);
    } else {
      StuckImpliesCyclic(need, Elements(order));
    }
  }

  /** One round of Kahn's algorithm: takes the least ready vertex and releases its waiters. */
  method Take(t: TopologicalTraversal, ghost done: set<Id>) returns (current: Item)
    requires t.State(done, done) && t.ready != multiset{}
    modifies t`remaining, t`ready
    ensures t.State(done + {current.id}, done + {current.id})
    ensures IsLeastReady(t.need, t.order, done, current.id)
  {
    OnHeapIsReady(t, done, done);
    current := t.PopReady(done, done);
    assert IsLeastReady(t.need, t.order, done, current.id);
    t.Advance(current.id, done, done + {current.id});
  }

  /** Drains the heap. */
  method Drain(t: TopologicalTraversal) returns (order: seq<Id>)
    requires t.State({}, {})
    modifies t`remaining, t`ready
    ensures Finishing(t.need, order) && t.order.Keys == t.need.Keys && IsGreedy(t.need, t.order, order)
    ensures Ready(t.need, Elements(order)) == {}
  {
    order := [];
    assert Elements(order) == {};
    while t.ready != multiset{}
      invariant t.State(Elements(order), Elements(order))
      invariant Finishing(t.need, order) && IsGreedy(t.need, t.order, order)
      decreases t.need.Keys - Elements(order)
    {
      ghost var done := Elements(order);
      var current := Take(t, done);
      GreedySnoc(t.need, t.order, order, current.id);
      ElementsSnoc(order, current.id);
      order := order + [current.id];
    }
    EmptyHeap(t, Elements(order));
  }

  /** Kahn's algorithm: succeeds exactly on acyclic graphs, with the lexicographically least
      dependency-respecting order by (Order, ID); otherwise it reports a real cycle. */
  method TopologicalSort(d: DirectedAcyclicGraph) returns (r: SortResult<seq<Id>>)
    requires d.Valid()
    ensures r.Sorted? == !Cyclic(d.g.deps)
    ensures r.Sorted? ==> IsTopological(d.g.deps, r.value) && IsGreedy(d.g.deps, d.g.order, r.value)
    ensures r.CycleError? ==> IsCycle(d.g.deps, r.cycle) && r.cycle == ReportedCycle(d.g.deps)
  {
    var order := ReadyOrder(d);
    Outcome(d.g.deps, order);
    if |order| == |d.vertices| {
      return Sorted(order);
    }
    var found, cycle := HasCycle(d);
    return CycleError(cycle);
  }

  /** The vertices that the traversal makes ready, in order. */
  method ReadyOrder(d: DirectedAcyclicGraph) returns (order: seq<Id>)
    requires d.Valid()
    ensures d.g.order.Keys == d.g.deps.Keys && |d.g.deps.Keys| == |d.vertices| && Closed(d.g.deps)
    ensures Finishing(d.g.deps, order) && IsGreedy(d.g.deps, d.g.order, order)
    ensures Ready(d.g.deps, Elements(order)) == {}
  {
    var t := new TopologicalTraversal(d, DependenciesFirst);
    order := Drain(t);
    assert |d.g.deps.Keys| == |d.vertices|;
  }

  lemma GreedySnoc(need: map<Id, set<Id>>, order: map<Id, int>, s: seq<Id>, v: Id)
    requires order.Keys == need.Keys && Finishing(need, s) && IsGreedy(need, order, s)
    requires IsLeastReady(need, order, Elements(s), v)
    ensures Finishing(need, s + [v]) && IsGreedy(need, order, s + [v])
  {
    FinishingSnoc(need, s, v);
    var t := s + [v];
    forall i | 0 <= i < |t| ensures IsLeastReady(need, order, Elements(t[..i]), t[i]) {
      assert t[..i] == s[..i];
      if i == |s| { assert s[..i] == s; }
    }
  }

  lemma TopologicalFromFinishing(need: map<Id, set<Id>>, s: seq<Id>)
    requires Closed(need) && Finishing(need, s) && Elements(s) == need.Keys
    ensures IsTopological(need, s) && !Cyclic(need)
  {
    forall i | 0 <= i < |s| ensures s[i] in Ready(need, Elements(s[..i])) {
      assert s[..i] == s[..i];
    }
    TopologicalImpliesAcyclic(need, s);
  }

  ghost predicate AllBelow(s: seq<Item>, ready: multiset<Item>) {
    (forall i, j :: 0 <= i < j < |s| ==> Less(s[i], s[j]))
    && forall i, it :: 0 <= i < |s| && it in ready ==> Less(s[i], it)
  }

  ghost function Ids(items: seq<Item>): (ids: seq<Id>)
    ensures |ids| == |items| && forall i :: 0 <= i < |items| ==> ids[i] == items[i].id
  {
    seq(|items|, i requires 0 <= i < |items| => items[i].id)
  }

  lemma IdsSnoc(items: seq<Item>, it: Item)
    ensures Ids(items + [it]) == Ids(items) + [it.id]
  {
  }

  /** The items popped so far, of one layer, are below all that is left on the heap. */
  ghost predicate Collected(t: TopologicalTraversal, done: set<Id>, popped: set<Id>, items: seq<Item>)
    reads t`ready
  {
    AllBelow(items, t.ready) && popped == done + Elements(Ids(items)) && Elements(Ids(items)) <= Ready(t.need, done)
    && forall i :: 0 <= i < |items| ==> EntryOf(t.order, items[i])
  }

  /** One pop while a layer is being collected. */
  method PopOne(t: TopologicalTraversal, ghost done: set<Id>, ghost popped: set<Id>, ghost items: seq<Item>) returns (item: Item)
    requires t.State(done, popped) && t.ready != multiset{}
    requires Collected(t, done, popped, items)
    modifies t`ready
    ensures |t.ready| == |old(t.ready)| - 1
    ensures t.State(done, popped + {item.id})
    ensures Collected(t, done, popped + {item.id}, items + [item])
  {
    OnHeapIsReady(t, done, popped);
    ghost var ready0 := t.ready;
    item := t.PopReady(done, popped);
    BelowSnoc(t, items, ready0, item, done, popped);
    IdsSnoc(items, item);
    ElementsSnoc(Ids(items), item.id);
  }

  /** Pops everything that is ready now, least first. */
  method PopLayer(t: TopologicalTraversal, ghost done: set<Id>) returns (items: seq<Item>)
    requires t.State(done, done)
    modifies t`ready
    ensures t.State(done, done + Elements(Ids(items))) && t.ready == multiset{}
    ensures Elements(Ids(items)) == Ready(t.need, done)
    ensures forall i :: 0 <= i < |items| ==> EntryOf(t.order, items[i])
    ensures forall i, j :: 0 <= i < j < |items| ==> Less(items[i], items[j])
    ensures old(t.ready) != multiset{} ==> items != []
  {
    var layerSize := |t.ready|;
    items := [];
    ghost var popped := done;
    while |items| < layerSize
      invariant |items| + |t.ready| == layerSize
      invariant t.State(done, popped)
      invariant Collected(t, done, popped, items)
    {
      var item := PopOne(t, done, popped, items);
      items := items + [item];
      popped := popped + {item.id};
    }
    OnHeapIsReady(t, done, popped);
    assert forall v :: v in Ready(t.need, done) ==> v !in done;
  }

  lemma BelowSnoc(t: TopologicalTraversal, items: seq<Item>, ready0: multiset<Item>, item: Item, done: set<Id>, popped: set<Id>)
    requires AllBelow(items, ready0) && item in ready0 && ready0 == t.ready + multiset{item}
    requires t.State(done, popped + {item.id})
    requires forall it :: it in ready0 ==> it == item || Less(item, it)
    ensures AllBelow(items + [item], t.ready)
  {
    forall it | it in t.ready ensures it in ready0 && Less(item, it) {
      assert t.ready[it] > 0;
      assert it.id !in popped + {item.id};
    }
  }

  /** One layer: everything that is ready now, popped before any of it is released. */
  method PeelOne(t: TopologicalTraversal, ghost g: Graph, ghost layers: seq<seq<Id>>, ghost flat: seq<Id>) returns (layer: seq<Id>)
    requires WellFormed(g) && t.need == Dependents(g.deps) && t.order == g.order
    requires t.State(Elements(flat), Elements(flat)) && t.ready != multiset{}
    requires IsLayering(g, layers) && Finishing(t.need, flat) && Flatten(layers) == Elements(flat)
    modifies t`remaining, t`ready
    ensures t.State(Elements(flat + layer), Elements(flat + layer))
    ensures IsLayering(g, layers + [layer]) && Finishing(t.need, flat + layer)
    ensures Flatten(layers + [layer]) == Elements(flat + layer)
    ensures g.deps.Keys - Elements(flat + layer) < g.deps.Keys - Elements(flat)
  {
    ghost var done := Elements(flat);
    var items := PopLayer(t, done);
    layer := ReleaseLayer(t, items, done);
    LayerAdds(g, t.need, layers, flat, layer, items);
  }

  lemma LayerAdds(g: Graph, need: map<Id, set<Id>>, layers: seq<seq<Id>>, flat: seq<Id>, layer: seq<Id>, items: seq<Item>)
    requires WellFormed(g) && need == Dependents(g.deps) && items != [] && layer == Ids(items) && NoDup(layer)
    requires IsLayering(g, layers) && Finishing(need, flat) && Flatten(layers) == Elements(flat)
    requires Elements(layer) == Ready(need, Elements(flat))
    requires forall i :: 0 <= i < |items| ==> EntryOf(g.order, items[i])
    requires forall i, j :: 0 <= i < j < |items| ==> Less(items[i], items[j])
    ensures IsLayering(g, layers + [layer]) && Finishing(need, flat + layer)
    ensures Elements(flat + layer) == Elements(flat) + Elements(layer)
    ensures Flatten(layers + [layer]) == Elements(flat + layer)
    ensures g.deps.Keys - Elements(flat + layer) < g.deps.Keys - Elements(flat)
  {
    LayerSnoc(g, layers, layer, items);
    LayerDecreases(need, flat, layer);
    LayerFinishes(need, flat, Elements(flat), layer);
  }

  /** Peels layer after layer until the heap is empty. */
  method Peel(t: TopologicalTraversal, ghost g: Graph) returns (layers: seq<seq<Id>>, processed: nat, ghost flat: seq<Id>)
    requires WellFormed(g) && t.need == Dependents(g.deps) && t.order == g.order && t.State({}, {})
    modifies t`remaining, t`ready
    ensures IsLayering(g, layers) && Finishing(t.need, flat)
    ensures processed == |flat| && Flatten(layers) == Elements(flat)
    ensures Ready(t.need, Elements(flat)) == {}
  {
    layers, processed, flat := [], 0, [];
    assert Elements(flat) == {};
    while t.ready != multiset{}
      invariant t.State(Elements(flat), Elements(flat))
      invariant Finishing(t.need, flat) && Flatten(layers) == Elements(flat)
      invariant IsLayering(g, layers) && processed == |flat|
      decreases g.deps.Keys - Elements(flat)
    {
      var layer := PeelOne(t, g, layers, flat);
      layers, processed, flat := layers + [layer], processed + |layer|, flat + layer;
    }
    EmptyHeap(t, Elements(flat));
  }

  lemma LayerDecreases(need: map<Id, set<Id>>, flat: seq<Id>, layer: seq<Id>)
    requires layer != [] && Elements(layer) == Ready(need, Elements(flat))
    ensures Elements(flat + layer) == Elements(flat) + Elements(layer)
    ensures forall v :: v in layer ==> v in need && v !in Elements(flat) && need[v] <= Elements(flat)
    ensures need.Keys - Elements(flat + layer) < need.Keys - Elements(flat)
  {
    assert layer[0] in Elements(layer);
    assert forall v :: v in layer ==> v in Elements(layer);
  }

  lemma LayersOutcome(deps: map<Id, set<Id>>, layers: seq<seq<Id>>, flat: seq<Id>)
    requires Closed(deps) && Finishing(Dependents(deps), flat) && Flatten(layers) == Elements(flat)
    requires Ready(Dependents(deps), Elements(flat)) == {}
    ensures |flat| == |deps.Keys| <==> !Cyclic(deps)
    ensures !Cyclic(deps) ==> Flatten(layers) == deps.Keys
  {
    Outcome(Dependents(deps), flat);
    DependentsCyclic(deps);
  }

  /** Peels off dependents before their dependencies. Layer i holds the vertices with a longest
      chain of exactly i dependents above them, listed by (Order, ID). */
  method ReverseTopologicalLayers(d: DirectedAcyclicGraph) returns (r: SortResult<seq<seq<Id>>>)
    requires d.Valid()
    ensures r.Sorted? == !Cyclic(d.g.deps)
    ensures r.Sorted? ==> IsLayering(d.g, r.value) && Flatten(r.value) == d.g.deps.Keys
    ensures r.CycleError? ==> IsCycle(d.g.deps, r.cycle) && r.cycle == ReportedCycle(d.g.deps)
  {
    var layers, processed;
    ghost var flat;
    layers, processed, flat := ReadyLayers(d);
    LayersOutcome(d.g.deps, layers, flat);
    if processed == |d.vertices| {
      return Sorted(layers);
    }
    var found, cycle := HasCycle(d);
    return CycleError(cycle);
  }

  /** The layers that the traversal makes ready, from the dependents down. */
  method ReadyLayers(d: DirectedAcyclicGraph) returns (layers: seq<seq<Id>>, processed: nat, ghost flat: seq<Id>)
    requires d.Valid()
    ensures WellFormed(d.g) && |d.g.deps.Keys| == |d.vertices|
    ensures IsLayering(d.g, layers) && Finishing(Dependents(d.g.deps), flat)
    ensures processed == |flat| && Flatten(layers) == Elements(flat)
    ensures Ready(Dependents(d.g.deps), Elements(flat)) == {}
  {
    var t := new TopologicalTraversal(d, DependentsFirst);
    layers, processed, flat := Peel(t, d.g);
    assert |d.g.deps.Keys| == |d.vertices|;
  }

  lemma DistinctIds(order: map<Id, int>, items: seq<Item>)
    requires forall i, j :: 0 <= i < j < |items| ==> Less(items[i], items[j])
    requires forall i :: 0 <= i < |items| ==> EntryOf(order, items[i])
    ensures NoDup(Ids(items))
  {
    forall i, j | 0 <= i < j < |items| ensures Ids(items)[i] != Ids(items)[j] {
      LessIsStrictTotalOrder(items[i], items[j], items[j]);
      assert EntryOf(order, items[i]) && EntryOf(order, items[j]);
    }
  }

  lemma NextOfLayer(ids: seq<Id>, k: nat, done: set<Id>, popped: set<Id>)
    requires k < |ids| && NoDup(ids) && popped == done + Elements(ids) && done !! Elements(ids)
    ensures ids[k] in popped && ids[k] !in done + Elements(ids[..k])
    ensures ids[..k] + [ids[k]] == ids[..k + 1]
    ensures done + Elements(ids[..k]) + {ids[k]} == done + Elements(ids[..k + 1])
  {
    assert ids[k] in Elements(ids);
    ElementsSnoc(ids[..k], ids[k]);
    assert ids[..k] + [ids[k]] == ids[..k + 1];
  }

  /** Advances past a whole layer, after all of it has been popped. */
  method ReleaseLayer(t: TopologicalTraversal, items: seq<Item>, ghost done: set<Id>) returns (layer: seq<Id>)
    requires t.State(done, done + Elements(Ids(items))) && Elements(Ids(items)) == Ready(t.need, done)
    requires forall i, j :: 0 <= i < j < |items| ==> Less(items[i], items[j])
    requires forall i :: 0 <= i < |items| ==> EntryOf(t.order, items[i])
    modifies t`remaining, t`ready
    ensures layer == Ids(items) && NoDup(layer)
    ensures t.State(done + Elements(layer), done + Elements(layer))
  {
    layer := [];
    ghost var ids := Ids(items);
    ghost var popped := done + Elements(ids);
    var k := 0;
    assert done + Elements(layer) == done;
    DistinctIds(t.order, items);
    while k < |items|
      invariant 0 <= k <= |items| && layer == ids[..k]
      invariant t.State(done + Elements(layer), popped)
    {
      NextOfLayer(ids, k, done, popped);
      t.Advance(items[k].id, done + Elements(layer), popped);
      layer := layer + [items[k].id];
      k := k + 1;
    }
    assert ids[..k] == ids;
  }

  lemma LayerSnoc(g: Graph, layers: seq<seq<Id>>, layer: seq<Id>, items: seq<Item>)
    requires WellFormed(g) && IsLayering(g, layers) && items != []
    requires layer == Ids(items) && Elements(layer) == Ready(Dependents(g.deps), Flatten(layers))
    requires forall i :: 0 <= i < |items| ==> EntryOf(g.order, items[i])
    requires forall i, j :: 0 <= i < j < |items| ==> Less(items[i], items[j])
    ensures IsLayering(g, layers + [layer]) && Flatten(layers + [layer]) == Flatten(layers) + Elements(layer)
  {
    var all := layers + [layer];
    assert forall x :: x in layer ==> x in Elements(layer);
    assert SortedBy(g.order, layer);
    forall i | 0 <= i < |all|
      ensures all[i] != [] && Elements(all[i]) == Ready(Dependents(g.deps), Flatten(all[..i])) && SortedBy(g.order, all[i])
    {
      assert all[..i] == layers[..i];
      if i == |layers| { assert layers[..i] == layers; }
    }
    FlattenSnoc(layers, layer);
  }

  /** Appending a whole layer keeps the listing respectful of needs. */
  lemma {:induction false} LayerFinishes(need: map<Id, set<Id>>, flat: seq<Id>, done: set<Id>, layer: seq<Id>)
    requires Finishing(need, flat) && done <= Elements(flat) && NoDup(layer)
    requires forall v :: v in layer ==> v in need && v !in Elements(flat) && need[v] <= done
    ensures Finishing(need, flat + layer)
    decreases |layer|
  {
    if layer == [] {
      assert flat + layer == flat;
    } else {
      assert layer[0] in layer;
      FinishingSnoc(need, flat, layer[0]);
      LayerFinishes(need, flat + [layer[0]], done, layer[1..]);
      assert flat + [layer[0]] + layer[1..] == flat + layer;
    }
  }
}
