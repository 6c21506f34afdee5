/** The shared traversal of pkg/dag: Kahn's algorithm over a heap, in either direction. */
module DagSort {
  import opened Digraph
  import opened Dag

  datatype SortResult<+T> = Sorted(value: T) | CycleError(cycle: seq<Id>)

  /* ---------- the shared traversal ---------- */

  datatype Direction = DependenciesFirst | DependentsFirst

  /** What a vertex waits for: its dependencies, or its dependents. */
  ghost function Need(direction: Direction, deps: map<Id, set<Id>>): (need: map<Id, set<Id>>)
    ensures need.Keys == deps.Keys
  {
    if direction.DependenciesFirst? then deps else Dependents(deps)
  }

  /** A Go list read in arbitrary order is a bag; a missing key reads as the empty list. */
  function Listed(unlocks: map<Id, multiset<Id>>, u: Id): multiset<Id> {
    if u in unlocks then unlocks[u] else multiset{}
  }

  ghost predicate Waits(need: map<Id, set<Id>>, v: Id, u: Id) {
    v in need && u in need[v]
  }

  /** unlocks[u] lists, once each, the vertices that wait for u. */
  ghost predicate UnlocksOf(need: map<Id, set<Id>>, unlocks: map<Id, multiset<Id>>) {
    forall u {:trigger Listed(unlocks, u)} :: ListsWaiters(need, Listed(unlocks, u), u)
  }

  ghost predicate ListsWaiters(need: map<Id, set<Id>>, list: multiset<Id>, u: Id) {
    forall v {:trigger list[v]} :: list[v] == if Waits(need, v, u) then 1 else 0
  }

  /** remaining[v] is the number of vertices v still waits for. */
  ghost predicate CountsOf(waiting: map<Id, set<Id>>, remaining: map<Id, int>) {
    remaining.Keys == waiting.Keys && forall v {:trigger remaining[v]} :: v in waiting ==> remaining[v] == |waiting[v]|
  }

  lemma CountEdge(need: map<Id, set<Id>>, remaining: map<Id, int>, unlocks: map<Id, multiset<Id>>, waiter: Id, on: Id)
    requires CountsOf(need, remaining) && UnlocksOf(need, unlocks)
    requires waiter in need && on !in need[waiter]
    ensures CountsOf(need[waiter := need[waiter] + {on}], remaining[waiter := remaining[waiter] + 1])
    ensures UnlocksOf(need[waiter := need[waiter] + {on}], unlocks[on := Listed(unlocks, on) + multiset{waiter}])
  {
    var need1, unlocks1 := need[waiter := need[waiter] + {on}], unlocks[on := Listed(unlocks, on) + multiset{waiter}];
    forall u ensures ListsWaiters(need1, Listed(unlocks1, u), u) {
      assert ListsWaiters(need, Listed(unlocks, u), u);
    }
  }

  /** The edge a -> b has been counted: a's edges are no longer to do, or a is the current
      vertex and b is not among the edges it still has to count. */
  ghost predicate Counted(deps: map<Id, set<Id>>, todo: set<Id>, id: Id, edges: set<Id>, a: Id, b: Id) {
    a in deps && b in deps[a] && a !in todo && (a != id || b !in edges)
  }

  /** need is what each vertex waits for as far as edges have been counted. */
  ghost predicate NeedOf(direction: Direction, deps: map<Id, set<Id>>, todo: set<Id>, id: Id, edges: set<Id>, need: map<Id, set<Id>>) {
    need.Keys == deps.Keys
    && forall v, w {:trigger w in need[v]} :: v in need ==>
         (w in need[v] <==> if direction.DependenciesFirst? then Counted(deps, todo, id, edges, v, w)
                            else Counted(deps, todo, id, edges, w, v))
  }

  lemma NeedComplete(direction: Direction, deps: map<Id, set<Id>>, id: Id, need: map<Id, set<Id>>)
    requires NeedOf(direction, deps, {}, id, {}, need)
    ensures need == Need(direction, deps)
  {
    forall v | v in need ensures need[v] == Need(direction, deps)[v] {
    }
  }

  lemma CountStep(direction: Direction, deps: map<Id, set<Id>>, todo: set<Id>, id: Id, edges: set<Id>, need: map<Id, set<Id>>,
                  remaining: map<Id, int>, unlocks: map<Id, multiset<Id>>, dependency: Id, waiter: Id, on: Id)
    requires NeedOf(direction, deps, todo, id, edges, need) && CountsOf(need, remaining) && UnlocksOf(need, unlocks)
    requires id in deps && id !in todo && dependency in edges && dependency in deps[id] && dependency in deps
    requires if direction.DependenciesFirst? then waiter == id && on == dependency else waiter == dependency && on == id
    ensures waiter in need && waiter in remaining
    ensures NeedOf(direction, deps, todo, id, edges - {dependency}, need[waiter := need[waiter] + {on}])
    ensures CountsOf(need[waiter := need[waiter] + {on}], remaining[waiter := remaining[waiter] + 1])
    ensures UnlocksOf(need[waiter := need[waiter] + {on}], unlocks[on := Listed(unlocks, on) + multiset{waiter}])
  {
    assert on !in need[waiter];
    CountEdge(need, remaining, unlocks, waiter, on);
  }

  /** Counts and lists every edge once, in whatever order the maps are walked. */
  method CountEdges(graph: DirectedAcyclicGraph, direction: Direction)
    returns (remaining: map<Id, int>, unlocks: map<Id, multiset<Id>>, ghost need: map<Id, set<Id>>)
    requires graph.Valid()
    ensures need == Need(direction, graph.g.deps) && CountsOf(need, remaining) && UnlocksOf(need, unlocks)
  {
    ghost var deps, last := graph.g.deps, Id("");
    remaining := map id | id in graph.vertices :: 0;
    unlocks := map[];
    need := map id | id in graph.vertices :: {};
    var todo := graph.vertices.Keys;
    while todo != {}
      invariant todo <= deps.Keys
      invariant NeedOf(direction, deps, todo, last, {}, need) && CountsOf(need, remaining) && UnlocksOf(need, unlocks)
    {
      var id :| id in todo;
      remaining, unlocks, need :=
        CountVertex(graph.vertices[id].dependsOn, id, direction, remaining, unlocks, need, deps, todo, last);
      todo := todo - {id};
      last := id;
    }
    NeedComplete(direction, deps, last, need);
  }

  /** The edges of one vertex. */
  method CountVertex(dependsOn: set<Id>, id: Id, direction: Direction, remaining0: map<Id, int>,
                     unlocks0: map<Id, multiset<Id>>, ghost need0: map<Id, set<Id>>,
                     ghost deps: map<Id, set<Id>>, ghost todo: set<Id>, ghost last: Id)
    returns (remaining: map<Id, int>, unlocks: map<Id, multiset<Id>>, ghost need: map<Id, set<Id>>)
    requires id in todo && id in deps && deps[id] == dependsOn && dependsOn <= deps.Keys
    requires NeedOf(direction, deps, todo, last, {}, need0) && CountsOf(need0, remaining0) && UnlocksOf(need0, unlocks0)
    ensures NeedOf(direction, deps, todo - {id}, id, {}, need) && CountsOf(need, remaining) && UnlocksOf(need, unlocks)
  {
    remaining, unlocks, need := remaining0, unlocks0, need0;
    var edges := dependsOn;
    while edges != {}
      invariant edges <= dependsOn
      invariant NeedOf(direction, deps, todo - {id}, id, edges, need)
      invariant CountsOf(need, remaining) && UnlocksOf(need, unlocks)
    {
      var dependency :| dependency in edges;
      var waiter, on := id, dependency;
      if direction.DependentsFirst? {
        waiter, on := dependency, id;
      }
      CountStep(direction, deps, todo - {id}, id, edges, need, remaining, unlocks, dependency, waiter, on);
      remaining := remaining[waiter := remaining[waiter] + 1];
      unlocks := unlocks[on := Listed(unlocks, on) + multiset{waiter}];
      edges := edges - {dependency};
      need := need[waiter := need[waiter] + {on}];
    }
  }

  ghost predicate OrdersOf(vertices: map<Id, Vertex>, order: map<Id, int>) {
    vertices.Keys == order.Keys && forall k {:trigger vertices[k]} :: k in vertices ==> vertices[k].order == order[k]
  }

  /** it is the heap entry of a vertex. */
  ghost predicate EntryOf(order: map<Id, int>, it: Item) {
    it.id in order && it.order == order[it.id]
  }

  /** The heap holds, once each, the entries of the unpopped vertices that wait for nothing. */
  ghost predicate ReadyItems(remaining: map<Id, int>, order: map<Id, int>, ready: multiset<Item>, popped: set<Id>) {
    forall it {:trigger ready[it]} :: ready[it] == if OnHeap(remaining, order, popped, it) then 1 else 0
  }

  ghost predicate OnHeap(remaining: map<Id, int>, order: map<Id, int>, popped: set<Id>, it: Item) {
    EntryOf(order, it) && it.id !in popped && it.id in remaining && remaining[it.id] == 0
  }

  /** The vertices that wait for nothing go on the heap. */
  method CollectReady(graph: DirectedAcyclicGraph, remaining: map<Id, int>, ghost need: map<Id, set<Id>>)
    returns (ready: multiset<Item>)
    requires graph.Valid() && need.Keys == graph.g.order.Keys && CountsOf(need, remaining)
    ensures ReadyItems(remaining, graph.g.order, ready, {})
  {
    ready := multiset{};
    var todo := remaining.Keys;
    while todo != {}
      invariant todo <= need.Keys
      invariant ReadyItems(remaining, graph.g.order, ready, todo)
    {
      var id :| id in todo;
      todo := todo - {id};
      if remaining[id] == 0 {
        ready := ready + multiset{Item(id, graph.vertices[id].order)};
      }
    }
  }

  /** container/heap's contract: the least item. */
  method LeastItem(ready: multiset<Item>) returns (item: Item)
    requires ready != multiset{}
    ensures item in ready && forall it :: it in ready ==> it == item || Less(item, it)
  {
    item :| item in ready;
    var todo := ready - multiset{item};
    while todo != multiset{}
      invariant item in ready && todo <= ready
      invariant forall it :: it in ready ==> it in todo || it == item || Less(item, it)
      decreases |todo|
    {
      var x :| x in todo;
      LessIsStrictTotalOrder(x, item, item);
      if Less(x, item) {
        forall it | it in ready ensures it in todo || it == x || Less(x, it) {
          LessIsStrictTotalOrder(x, item, it);
        }
        item := x;
      }
      todo := todo - multiset{x};
    }
  }

  /** What each vertex still waits for: its needs outside `done`, except that those no longer
      pending have been released by `id` too. */
  ghost predicate WaitingIs(need: map<Id, set<Id>>, waiting: map<Id, set<Id>>, done: set<Id>, id: Id, pending: multiset<Id>) {
    waiting.Keys == need.Keys
    && forall v, x {:trigger x in waiting[v]} :: v in need ==>
         (x in waiting[v] <==> x in need[v] && x !in done && (x != id || v in pending))
  }

  ghost predicate SomeWaiters(need: map<Id, set<Id>>, list: multiset<Id>, u: Id) {
    forall v {:trigger list[v]} :: list[v] == 0 || (list[v] == 1 && Waits(need, v, u))
  }

  /** What each vertex still waits for once `done` have released what waited for them. */
  ghost predicate WaitsOutside(need: map<Id, set<Id>>, waiting: map<Id, set<Id>>, done: set<Id>) {
    waiting.Keys == need.Keys
    && forall v, x {:trigger x in waiting[v]} :: v in need ==> (x in waiting[v] <==> x in need[v] && x !in done)
  }

  /** remaining counts what each vertex still waits for. */
  ghost predicate CountsOutside(need: map<Id, set<Id>>, done: set<Id>, remaining: map<Id, int>) {
    exists waiting {:trigger WaitsOutside(need, waiting, done)} :: WaitsOutside(need, waiting, done) && CountsOf(waiting, remaining)
  }

  /** What has been popped waits for nothing. */
  ghost predicate Idle(remaining: map<Id, int>, popped: set<Id>) {
    forall v {:trigger remaining[v]} :: v in popped && v in remaining ==> remaining[v] == 0
  }

  /** The heap after `popped` have left it and `done` have released what waited for them. */
  ghost predicate HeapIs(need: map<Id, set<Id>>, order: map<Id, int>, remaining: map<Id, int>, ready: multiset<Item>,
                         done: set<Id>, popped: set<Id>) {
    CountsOutside(need, done, remaining)
    && Idle(remaining, popped) && ReadyItems(remaining, order, ready, popped)
  }

  lemma ReleaseWaiting(need: map<Id, set<Id>>, waiting: map<Id, set<Id>>, done: set<Id>, id: Id, pending: multiset<Id>, v: Id)
    requires WaitingIs(need, waiting, done, id, pending) && SomeWaiters(need, pending, id) && v in pending && id !in done
    ensures v in waiting && id in waiting[v]
    ensures WaitingIs(need, waiting[v := waiting[v] - {id}], done, id, pending - multiset{v})
    ensures SomeWaiters(need, pending - multiset{v}, id)
  {
    assert pending[v] == 1 && Waits(need, v, id);
  }

  lemma ReleaseCounts(waiting: map<Id, set<Id>>, remaining: map<Id, int>, id: Id, v: Id)
    requires CountsOf(waiting, remaining) && v in waiting && id in waiting[v]
    ensures remaining[v] > 0 && CountsOf(waiting[v := waiting[v] - {id}], remaining[v := remaining[v] - 1])
  {
    assert waiting[v] == waiting[v] - {id} + {id};
  }

  lemma ReleaseReady(order: map<Id, int>, remaining: map<Id, int>, ready: multiset<Item>, popped: set<Id>, v: Id)
    requires ReadyItems(remaining, order, ready, popped) && Idle(remaining, popped)
    requires v in remaining && remaining[v] > 0 && remaining.Keys == order.Keys
    ensures var remaining1 := remaining[v := remaining[v] - 1];
            Idle(remaining1, popped)
            && ReadyItems(remaining1, order, if remaining1[v] == 0 then ready + multiset{Item(v, order[v])} else ready, popped)
  {
    assert ready[Item(v, order[v])] == 0;
  }

  lemma ReleaseOne(need: map<Id, set<Id>>, order: map<Id, int>, waiting: map<Id, set<Id>>, remaining: map<Id, int>,
                   ready: multiset<Item>, done: set<Id>, id: Id, pending: multiset<Id>, popped: set<Id>, v: Id)
    requires WaitingIs(need, waiting, done, id, pending) && CountsOf(waiting, remaining) && ReadyItems(remaining, order, ready, popped)
    requires SomeWaiters(need, pending, id) && v in pending
    requires need.Keys == order.Keys && id !in done && Idle(remaining, popped)
    ensures v in remaining && v in order && v in waiting
    ensures var waiting1, remaining1 := waiting[v := waiting[v] - {id}], remaining[v := remaining[v] - 1];
            var ready1 := if remaining1[v] == 0 then ready + multiset{Item(v, order[v])} else ready;
            WaitingIs(need, waiting1, done, id, pending - multiset{v}) && SomeWaiters(need, pending - multiset{v}, id)
            && CountsOf(waiting1, remaining1) && Idle(remaining1, popped) && ReadyItems(remaining1, order, ready1, popped)
  {
    ReleaseWaiting(need, waiting, done, id, pending, v);
    ReleaseCounts(waiting, remaining, id, v);
    ReleaseReady(order, remaining, ready, popped, v);
  }

  class TopologicalTraversal {
    const vertices: map<Id, Vertex>  // the graph's vertices, which a traversal does not change
    ghost const order: map<Id, int>
    ghost const need: map<Id, set<Id>>
    var remaining: map<Id, int>
    const unlocks: map<Id, multiset<Id>>
    var ready: multiset<Item>

    /** The state after the vertices `popped` have left the heap and those of `done` have
        released the ones that waited for them. */
    ghost predicate State(done: set<Id>, popped: set<Id>)
      reads this
    {
      Prepared() && done <= popped <= need.Keys && Heap(done, popped)
    }

    ghost predicate Prepared() {
      OrdersOf(vertices, order) && need.Keys == order.Keys && UnlocksOf(need, unlocks)
    }

    ghost predicate Heap(done: set<Id>, popped: set<Id>)
      reads this`remaining, this`ready
    {
      HeapIs(need, order, remaining, ready, done, popped)
    }

    constructor (graph: DirectedAcyclicGraph, direction: Direction)
      requires graph.Valid()
      ensures order == graph.g.order && need == Need(direction, graph.g.deps)
      ensures State({}, {})
    {
      var remaining, unlocks;
      ghost var need;
      remaining, unlocks, need := CountEdges(graph, direction);
      var ready := CollectReady(graph, remaining, need);
      this.vertices, this.order, this.need := graph.vertices, graph.g.order, need;
      this.remaining, this.unlocks, this.ready := remaining, unlocks, ready;
      assert WaitsOutside(need, need, {});
    }

    /** heap.Pop: removes the least item. */
    method PopReady(ghost done: set<Id>, ghost popped: set<Id>) returns (item: Item)
      requires State(done, popped) && ready != multiset{}
      modifies this`ready
      ensures State(done, popped + {item.id})
      ensures OnHeap(remaining, order, popped, item)
      ensures forall it :: it in old(ready) ==> it == item || Less(item, it)
      ensures old(ready) == ready + multiset{item} && |old(ready)| == |ready| + 1
    {
      item := LeastItem(ready);
      ready := ready - multiset{item};
    }

    /** Releases what waited for `id`, pushing the vertices that wait for nothing more. */
    method Advance(id: Id, ghost done: set<Id>, ghost popped: set<Id>)
      requires State(done, popped) && id in popped && id !in done
      modifies this`remaining, this`ready
      ensures State(done + {id}, popped)
    {
      assert ListsWaiters(need, Listed(unlocks, id), id);
      ready, remaining := Release(vertices, order, need, Listed(unlocks, id), id, done, popped, remaining, ready);
    }
  }

  /** The loop of `advance`, on the traversal's maps. */
  method Release(vertices: map<Id, Vertex>, ghost order: map<Id, int>, ghost need: map<Id, set<Id>>, list0: multiset<Id>, ghost id: Id, ghost done: set<Id>,
                 ghost popped: set<Id>, remaining0: map<Id, int>, ready0: multiset<Item>)
    returns (ready: multiset<Item>, remaining: map<Id, int>)
    requires OrdersOf(vertices, order) && need.Keys == order.Keys && id !in done
    requires ListsWaiters(need, list0, id)
    requires HeapIs(need, order, remaining0, ready0, done, popped)
    ensures HeapIs(need, order, remaining, ready, done + {id}, popped)
  {
    remaining, ready := remaining0, ready0;
    ghost var waiting :| WaitsOutside(need, waiting, done) && CountsOf(waiting, remaining);
    var list := list0;
    while list != multiset{}
      invariant WaitingIs(need, waiting, done, id, list) && CountsOf(waiting, remaining)
      invariant ReadyItems(remaining, order, ready, popped) && Idle(remaining, popped)
      invariant SomeWaiters(need, list, id)
      decreases |list|
    {
      var unlocked :| unlocked in list;
      ReleaseOne(need, order, waiting, remaining, ready, done, id, list, popped, unlocked);
      waiting := waiting[unlocked := waiting[unlocked] - {id}];
      remaining := remaining[unlocked := remaining[unlocked] - 1];
      if remaining[unlocked] == 0 {
        ready := ready + multiset{Item(unlocked, vertices[unlocked].order)};
      }
      list := list - multiset{unlocked};
    }
    assert WaitsOutside(need, waiting, done + {id});
  }
}
