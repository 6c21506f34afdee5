/** The recursive search of pkg/dag for one cycle. */
module CycleSearch {
  import opened Collections
  import opened Digraph
  import opened Dag

  /* ---------- the search on values ---------- */

  /** What the search has seen, what is on its stack, the path it follows, and whether that path
      has run into itself. */
  datatype Walk = Walk(visited: set<Id>, recStack: set<Id>, path: seq<Id>, found: bool)

  ghost function Visit(deps: map<Id, set<Id>>, w: Walk, node: Id): (r: Walk)
    requires Closed(deps) && node in deps && node !in w.visited
    ensures w.visited + {node} <= r.visited && (!r.found ==> r.path == w.path)
    decreases deps.Keys - w.visited, 0
  {
    assert forall v :: v in deps[node] ==> v in deps;
    var r := VisitAll(deps, Walk(w.visited + {node}, w.recStack + {node}, w.path + [node], false), Listing(deps[node]));
    if r.found then r else r.(recStack := r.recStack - {node}, path := r.path[..|r.path| - 1])
  }

  /** The dependencies of the vertex on top of the path, in order. */
  ghost function VisitAll(deps: map<Id, set<Id>>, w: Walk, list: seq<Id>): (r: Walk)
    requires Closed(deps) && Elements(list) <= deps.Keys && !w.found
    ensures w.visited <= r.visited && (!r.found ==> r.path == w.path)
    decreases deps.Keys - w.visited, 1 + |list|
  {
    if list == [] then w
    else
      var d := list[0];
      assert d in Elements(list);
      assert forall v :: v in list[1..] ==> v in Elements(list);
      if d !in w.visited then
        var r := Visit(deps, w, d);
        if r.found then r else VisitAll(deps, r, list[1..])
      else if d in w.recStack then w.(path := w.path + [d], found := true)
      else VisitAll(deps, w, list[1..])
  }

  /** One search from each vertex that no earlier one has seen. */
  ghost function SearchFrom(deps: map<Id, set<Id>>, w: Walk, nodes: seq<Id>): (r: Walk)
    requires Closed(deps) && Elements(nodes) <= deps.Keys && !w.found
    decreases |nodes|
  {
    if nodes == [] then w
    else
      assert nodes[0] in Elements(nodes);
      assert forall v :: v in nodes[1..] ==> v in Elements(nodes);
      if nodes[0] in w.visited then SearchFrom(deps, w, nodes[1..])
      else
        var r := Visit(deps, w.(path := []), nodes[0]);
        if r.found then r else SearchFrom(deps, r, nodes[1..])
  }

  ghost function FullSearch(deps: map<Id, set<Id>>): Walk
    requires Closed(deps)
  {
    SearchFrom(deps, Walk({}, {}, [], false), Listing(deps.Keys))
  }

  /** The path from the first occurrence of its last vertex on. */
  ghost function Trimmed(path: seq<Id>): seq<Id> {
    var n := |path| - 1;
    if path != [] && path[n] in path[..n] then path[Index(path[..n], path[n])..] else path
  }

  /** The cycle that is reported: it depends on the graph alone. */
  ghost function ReportedCycle(deps: map<Id, set<Id>>): seq<Id>
    requires Closed(deps)
  {
    if FullSearch(deps).found then Trimmed(FullSearch(deps).path) else []
  }

  /* ---------- what the search finds ---------- */

  /** A listing in which every vertex comes after all it needs. */
  ghost predicate Finishing(deps: map<Id, set<Id>>, finished: seq<Id>) {
    forall i {:trigger finished[..i]} :: 0 <= i < |finished| ==> finished[i] in Ready(deps, Elements(finished[..i]))
  }

  lemma FinishingSnoc(deps: map<Id, set<Id>>, finished: seq<Id>, v: Id)
    requires Finishing(deps, finished) && v in Ready(deps, Elements(finished))
    ensures Finishing(deps, finished + [v]) && Elements(finished + [v]) == Elements(finished) + {v}
  {
    var f := finished + [v];
    forall i | 0 <= i < |f| ensures f[i] in Ready(deps, Elements(f[..i])) {
      assert f[..i] == finished[..i];
      assert i < |finished| ==> finished[i] in Ready(deps, Elements(finished[..i]));
      assert finished[..|finished|] == finished;
    }
  }

  /** What holds between visits: the path is on the stack, everything else seen is finished. */
  ghost predicate Searching(deps: map<Id, set<Id>>, w: Walk, finished: seq<Id>) {
    w.visited <= deps.Keys && w.recStack == Elements(w.path) && w.recStack !! Elements(finished)
    && w.visited == Elements(finished) + w.recStack
    && NoDup(w.path) && (w.path == [] || IsPath(deps, w.path)) && Finishing(deps, finished)
  }

  /** A path whose last vertex already occurs on it. */
  ghost predicate Closed1(deps: map<Id, set<Id>>, path: seq<Id>) {
    IsPath(deps, path) && |path| >= 2 && NoDup(path[..|path| - 1]) && path[|path| - 1] in path[..|path| - 1]
  }

  lemma Descend(deps: map<Id, set<Id>>, w: Walk, finished: seq<Id>, v: Id)
    requires Searching(deps, w, finished) && v in deps && v !in w.visited
    requires w.path == [] || Edge(deps, w.path[|w.path| - 1], v)
    ensures Searching(deps, Walk(w.visited + {v}, w.recStack + {v}, w.path + [v], false), finished)
  {
    ElementsSnoc(w.path, v);
    if w.path != [] { PathSnoc(deps, w.path, v); }
  }

  lemma Finish(deps: map<Id, set<Id>>, w: Walk, finished: seq<Id>, v: Id)
    requires w.path != [] && v == w.path[|w.path| - 1] && v in deps && deps[v] <= Elements(finished)
    requires Searching(deps, w, finished)
    ensures Searching(deps, w.(recStack := w.recStack - {v}, path := w.path[..|w.path| - 1]), finished + [v])
  {
    var rest := w.path[..|w.path| - 1];
    assert w.path == rest + [v];
    ElementsSnoc(rest, v);
    if rest != [] { PathPrefix(deps, w.path, |rest|); }
    FinishingSnoc(deps, finished, v);
  }

  lemma Close(deps: map<Id, set<Id>>, w: Walk, finished: seq<Id>, d: Id)
    requires w.path != [] && Searching(deps, w, finished)
    requires Edge(deps, w.path[|w.path| - 1], d) && d in w.recStack
    ensures Closed1(deps, w.path + [d])
  {
    PathSnoc(deps, w.path, d);
    assert (w.path + [d])[..|w.path|] == w.path;
    assert d in Elements(w.path);
  }

  /** A visit either closes the path on itself or finishes the vertex. */
  lemma {:induction false} VisitSound(deps: map<Id, set<Id>>, w: Walk, node: Id, finished: seq<Id>) returns (finished1: seq<Id>)
    requires Closed(deps) && node in deps && node !in w.visited && Searching(deps, w, finished)
    requires w.path == [] || Edge(deps, w.path[|w.path| - 1], node)
    ensures var r := Visit(deps, w, node);
            if r.found then Closed1(deps, r.path)
            else Searching(deps, r, finished1) && Elements(finished) + {node} <= Elements(finished1)
    decreases deps.Keys - w.visited, 0
  {
    var w1 := Walk(w.visited + {node}, w.recStack + {node}, w.path + [node], false);
    Descend(deps, w, finished, node);
    var r := VisitAll(deps, w1, Listing(deps[node]));
    finished1 := AllSound(deps, w1, Listing(deps[node]), finished);
    if !r.found {
      Finish(deps, r, finished1, node);
      ElementsSnoc(finished1, node);
      finished1 := finished1 + [node];
    }
  }

  lemma {:induction false} AllSound(deps: map<Id, set<Id>>, w: Walk, list: seq<Id>, finished: seq<Id>) returns (finished1: seq<Id>)
    requires Closed(deps) && !w.found && Searching(deps, w, finished)
    requires w.path != [] && w.path[|w.path| - 1] in deps && Elements(list) <= deps[w.path[|w.path| - 1]] <= deps.Keys
    ensures var r := VisitAll(deps, w, list);
            if r.found then Closed1(deps, r.path)
            else Searching(deps, r, finished1) && Elements(finished) + Elements(list) <= Elements(finished1)
    decreases deps.Keys - w.visited, 1 + |list|
  {
    finished1 := finished;
    if list != [] {
      var d := list[0];
      HeadTail(list);
      assert Edge(deps, w.path[|w.path| - 1], d);
      if d !in w.visited {
        finished1 := VisitSound(deps, w, d, finished);
        var r := Visit(deps, w, d);
        if !r.found {
          finished1 := AllSound(deps, r, list[1..], finished1);
        }
      } else if d in w.recStack {
        Close(deps, w, finished, d);
      } else {
        finished1 := AllSound(deps, w, list[1..], finished);
      }
    }
  }

  lemma HeadTail(list: seq<Id>)
    requires list != []
    ensures Elements(list) == {list[0]} + Elements(list[1..])
  {
    assert list == [list[0]] + list[1..];
  }

  lemma {:induction false} SearchSound(deps: map<Id, set<Id>>, w: Walk, nodes: seq<Id>, finished: seq<Id>) returns (finished1: seq<Id>)
    requires Closed(deps) && Elements(nodes) <= deps.Keys && !w.found && w.path == [] && Searching(deps, w, finished)
    ensures var r := SearchFrom(deps, w, nodes);
            if r.found then Closed1(deps, r.path)
            else Finishing(deps, finished1) && Elements(finished) + Elements(nodes) <= Elements(finished1) <= deps.Keys
    decreases |nodes|
  {
    finished1 := finished;
    if nodes != [] {
      HeadTail(nodes);
      if nodes[0] in w.visited {
        finished1 := SearchSound(deps, w, nodes[1..], finished);
      } else {
        finished1 := VisitSound(deps, w, nodes[0], finished);
        var r := Visit(deps, w, nodes[0]);
        if !r.found {
          finished1 := SearchSound(deps, r, nodes[1..], finished1);
        }
      }
    }
  }

  lemma TrimmedIsCycle(deps: map<Id, set<Id>>, path: seq<Id>)
    requires Closed1(deps, path)
    ensures IsCycle(deps, Trimmed(path)) && Cyclic(deps)
  {
    var n := |path| - 1;
    var start := Index(path[..n], path[n]);
    PathSuffix(deps, path, start);
    var c := path[start..];
    forall i, j | 0 <= i < j < |c[1..]| ensures c[1..][i] != c[1..][j] {
      assert c[1..][i] == path[..n][start + 1 + i];
      if j == |c[1..]| - 1 {
        assert c[1..][j] == path[..n][start];
      } else {
        assert c[1..][j] == path[..n][start + 1 + j];
      }
    }
    assert Reaches(deps, path[n], path[n]);
  }

  /** The search finds a cycle exactly when there is one, and reports a real one. */
  lemma ReportedCycleReal(deps: map<Id, set<Id>>)
    requires Closed(deps)
    ensures FullSearch(deps).found <==> Cyclic(deps)
    ensures if Cyclic(deps) then IsCycle(deps, ReportedCycle(deps)) else ReportedCycle(deps) == []
  {
    var finished := SearchSound(deps, Walk({}, {}, [], false), Listing(deps.Keys), []);
    if FullSearch(deps).found {
      TrimmedIsCycle(deps, FullSearch(deps).path);
    } else {
      FinishedIsAcyclic(deps, finished);
    }
  }

  lemma FinishedIsAcyclic(deps: map<Id, set<Id>>, finished: seq<Id>)
    requires Closed(deps) && Finishing(deps, finished) && Elements(finished) == deps.Keys
    ensures !Cyclic(deps)
  {
    forall i | 0 <= i < |finished| ensures finished[i] in Ready(deps, Elements(finished[..i])) {
      assert finished[..i] == finished[..i];
    }
    TopologicalImpliesAcyclic(deps, finished);
  }

  /* ---------- the search as it runs ---------- */

  ghost predicate EdgesOf(vertices: map<Id, Vertex>, deps: map<Id, set<Id>>)
    reads vertices.Values
  {
    Closed(deps) && deps.Keys == vertices.Keys
    && forall k {:trigger vertices[k]} :: k in vertices ==> vertices[k].dependsOn == deps[k]
  }

  class CycleFinder {
    const vertices: map<Id, Vertex>  // the graph's vertices, which a search does not change
    var visited: set<Id>
    var recStack: set<Id>
    var cyclePath: seq<Id>

    constructor (vertices: map<Id, Vertex>)
      ensures this.vertices == vertices && Now(false) == Walk({}, {}, [], false)
    {
      this.vertices := vertices;
      visited, recStack, cyclePath := {}, {}, [];
    }

    ghost function Now(found: bool): Walk
      reads this
    {
      Walk(visited, recStack, cyclePath, found)
    }

    method Dfs(node: Id, ghost deps: map<Id, set<Id>>) returns (found: bool)
      requires EdgesOf(vertices, deps) && node in deps && node !in visited
      modifies this
      ensures Now(found) == Visit(deps, old(Now(false)), node)
      decreases deps.Keys - visited, 0
    {
      visited := visited + {node};
      recStack := recStack + {node};
      cyclePath := cyclePath + [node];
      assert forall v :: v in deps[node] ==> v in deps;
      var dependencies := SortedKeys(vertices[node].dependsOn);
      found := Follow(dependencies, deps);
      if !found {
        recStack := recStack - {node};
        cyclePath := cyclePath[..|cyclePath| - 1];
      }
    }

    /** The loop of the visit, over the sorted dependencies. */
    method Follow(dependencies: seq<Id>, ghost deps: map<Id, set<Id>>) returns (found: bool)
      requires EdgesOf(vertices, deps) && Elements(dependencies) <= deps.Keys
      modifies this
      ensures Now(found) == VisitAll(deps, old(Now(false)), dependencies)
      decreases deps.Keys - visited, 1
    {
      ghost var w := Now(false);
      var j := 0;
      while j < |dependencies|
        invariant 0 <= j <= |dependencies| && Elements(dependencies[j..]) <= deps.Keys
        invariant w.visited <= visited
        invariant VisitAll(deps, w, dependencies) == VisitAll(deps, Now(false), dependencies[j..])
      {
        var dependency := dependencies[j];
        HeadTail(dependencies[j..]);
        if dependency !in visited {
          found := Dfs(dependency, deps);
          if found {
            return true;
          }
        } else if dependency in recStack {
          cyclePath := cyclePath + [dependency];
          return true;
        }
        j := j + 1;
      }
      return false;
    }

    /** The outer walk, from every vertex in order. */
    method SearchAll(nodes: seq<Id>, ghost deps: map<Id, set<Id>>) returns (found: bool)
      requires EdgesOf(vertices, deps) && Elements(nodes) <= deps.Keys
      modifies this
      ensures Now(found) == SearchFrom(deps, old(Now(false)), nodes)
    {
      ghost var w := Now(false);
      var i := 0;
      while i < |nodes|
        invariant 0 <= i <= |nodes| && Elements(nodes[i..]) <= deps.Keys
        invariant SearchFrom(deps, w, nodes) == SearchFrom(deps, Now(false), nodes[i..])
      {
        HeadTail(nodes[i..]);
        if nodes[i] !in visited {
          cyclePath := [];
          found := Dfs(nodes[i], deps);
          if found {
            return true;
          }
        }
        i := i + 1;
      }
      return false;
    }
  }

  /** Cuts the lead-in off a path that runs into itself. */
  method Trim(path: seq<Id>) returns (cycle: seq<Id>)
    requires path != []
    ensures cycle == Trimmed(path)
  {
    var n := |path| - 1;
    var start := 0;
    var i := 0;
    while i < n
      invariant 0 <= i <= n && start == 0 && path[n] !in path[..i]
    {
      if path[i] == path[n] {
        IndexAt(path[..n], i);
        return path[i..];
      }
      i := i + 1;
    }
    return path;
  }

  lemma {:induction false} IndexAt(s: seq<Id>, i: nat)
    requires i < |s| && s[i] !in s[..i]
    ensures s[i] in s && Index(s, s[i]) == i
  {
    if i > 0 {
      assert s[0] in s[..i];
      assert s[1..][..i - 1] == s[..i][1..];
      IndexAt(s[1..], i - 1);
    }
  }

  /** True exactly when the graph has a cycle, and then a real one, which the graph alone
      determines. */
  method HasCycle(d: DirectedAcyclicGraph) returns (found: bool, cycle: seq<Id>)
    requires d.Valid()
    ensures found == Cyclic(d.g.deps)
    ensures found ==> IsCycle(d.g.deps, cycle)
    ensures cycle == ReportedCycle(d.g.deps)
  {
    ghost var deps := d.g.deps;
    ReportedCycleReal(deps);
    var finder := new CycleFinder(d.vertices);
    var nodes := SortedKeys(d.vertices.Keys);
    found := finder.SearchAll(nodes, deps);
    if found {
      cycle := Trim(finder.cyclePath);
    } else {
      cycle := [];
    }
  }
}
