/** The mutable dependency graph of pkg/dag: incremental edges with cycle detection and
    rollback, and the searches it uses. */
module Dag {
  import opened Collections
  import opened Digraph

  datatype AddResult =
    | Added
    | NoSuchNode(id: Id)
    | SelfReference
    | ClosesCycle(cycle: seq<Id>)

  class Vertex {
    const id: Id
    const order: int
    var dependsOn: set<Id>

    constructor (id: Id, order: int)
      ensures this.id == id && this.order == order && dependsOn == {}
    {
      this.id, this.order, this.dependsOn := id, order, {};
    }
  }

  /** `to` can be reached from one of `from` along at least one edge. */
  ghost predicate CanReach(deps: map<Id, set<Id>>, from: seq<Id>, to: Id) {
    exists s :: s in from && Reaches(deps, s, to)
  }

  /** A listed dependency that `from` did not have already leads back to `from`. */
  ghost predicate ClosingEdge(deps: map<Id, set<Id>>, grown: map<Id, set<Id>>, from: Id, dependencies: seq<Id>)
    requires from in deps
  {
    exists s :: s in dependencies && s !in deps[from] && Reaches(grown, s, from)
  }

  lemma ClosingEdgeIffCyclic(deps: map<Id, set<Id>>, from: Id, dependencies: seq<Id>)
    requires from in deps && from !in dependencies
    ensures var grown := WithDeps(deps, from, Elements(dependencies));
            !Cyclic(deps) ==> (ClosingEdge(deps, grown, from, dependencies) <==> Cyclic(grown))
  {
    if !Cyclic(deps) {
      NewCycleIffReachable(deps, from, Elements(dependencies));
    }
  }

  /** v is one of `from` or can be reached from one of them. */
  ghost predicate ReachableFrom(deps: map<Id, set<Id>>, from: seq<Id>, v: Id) {
    v in from || CanReach(deps, from, v)
  }

  lemma ReachStep(deps: map<Id, set<Id>>, from: seq<Id>, v: Id, n: Id)
    requires ReachableFrom(deps, from, v) && Edge(deps, v, n)
    ensures CanReach(deps, from, n)
  {
    if v in from {
      assert IsPath(deps, [v, n]);
      assert Reaches(deps, v, n);
    } else {
      var s :| s in from && Reaches(deps, s, v);
      var p :| IsPath(deps, p) && |p| >= 2 && p[0] == s && p[|p| - 1] == v;
      PathSnoc(deps, p, n);
      assert Reaches(deps, s, n);
    }
  }

  ghost predicate AllReachable(deps: map<Id, set<Id>>, from: seq<Id>, visited: set<Id>) {
    forall v {:trigger ReachableFrom(deps, from, v)} :: v in visited ==> ReachableFrom(deps, from, v)
  }

  lemma ReachNeighbor(deps: map<Id, set<Id>>, from: seq<Id>, visited: set<Id>, v: Id, n: Id)
    requires AllReachable(deps, from, visited) && v in visited && Edge(deps, v, n)
    ensures AllReachable(deps, from, visited + {n})
    ensures CanReach(deps, from, n)
  {
    ReachStep(deps, from, v, n);
  }

  /** Every vertex of `done` has all its dependencies among `seen`, and none of them is `to`. */
  ghost predicate Explored(deps: map<Id, set<Id>>, done: set<Id>, seen: set<Id>, to: Id) {
    forall v :: v in done ==> v in deps && deps[v] <= seen && to !in deps[v]
  }

  /** A set that the search has exhausted without meeting `to` cannot reach it. */
  lemma ExhaustedCannotReach(deps: map<Id, set<Id>>, from: seq<Id>, done: set<Id>, to: Id)
    requires Explored(deps, done, done, to) && Elements(from) <= done
    ensures !CanReach(deps, from, to)
  {
    forall s, p | s in from && IsPath(deps, p) && |p| >= 2 && p[0] == s ensures p[|p| - 1] != to {
      assert s in Elements(from);
      StaysInside(deps, done, p, |p| - 2, to);
      assert Edge(deps, p[|p| - 2], p[|p| - 1]);
    }
  }

  lemma {:induction false} StaysInside(deps: map<Id, set<Id>>, done: set<Id>, p: seq<Id>, i: nat, to: Id)
    requires Explored(deps, done, done, to)
    requires IsPath(deps, p) && i < |p| && p[0] in done
    ensures p[i] in done
  {
    if i > 0 {
      StaysInside(deps, done, p, i - 1, to);
      assert Edge(deps, p[i - 1], p[i]);
    }
  }

  /** A search stack holds each vertex once and none that is done. */
  ghost predicate Frontier(stack: seq<Id>, visited: set<Id>, done: set<Id>) {
    NoDup(stack) && done !! Elements(stack) && visited == done + Elements(stack)
  }

  lemma Pop(stack: seq<Id>, visited: set<Id>, done: set<Id>) returns (node: Id)
    requires Frontier(stack, visited, done) && stack != []
    ensures node == stack[|stack| - 1] && node in visited && node !in done
    ensures Frontier(stack[..|stack| - 1], visited, done + {node})
  {
    var n := |stack| - 1;
    node := stack[n];
    assert stack == stack[..n] + [node];
    ElementsSnoc(stack[..n], node);
    assert node in Elements(stack);
  }

  lemma Push(stack: seq<Id>, visited: set<Id>, done: set<Id>, v: Id)
    requires Frontier(stack, visited, done) && v !in visited
    ensures Frontier(stack + [v], visited + {v}, done)
  {
    ElementsSnoc(stack, v);
  }

  /** A real cycle through `from`, which the graph and the new edges determine. */
  ghost predicate ReportedBy(grown: map<Id, set<Id>>, from: Id, starts: set<Id>, cycle: seq<Id>) {
    IsCycle(grown, cycle) && Closed(grown) && starts <= grown.Keys && cycle == [from] + SortedPath(grown, starts, from)
  }

  lemma ClosesIffReached(deps: map<Id, set<Id>>, grown: map<Id, set<Id>>, from: Id, dependencies: seq<Id>, added: seq<Id>)
    requires from in deps && Elements(added) == Elements(dependencies) - deps[from]
    ensures ClosingEdge(deps, grown, from, dependencies) <==> CanReach(grown, added, from)
  {
    assert forall s :: s in added <==> s in Elements(added);
    assert forall s :: s in dependencies <==> s in Elements(dependencies);
    assert forall s :: s in added <==> s in dependencies && s !in deps[from];
  }

  /** Deleting the added edges of one vertex gives g0 back. */
  ghost predicate RestoresTo(g0: Graph, g: Graph, from: Id, added: seq<Id>) {
    g0.deps.Keys == g.deps.Keys && g0.order == g.order && Closed(g0.deps) && from in g.deps
    && g.deps == g0.deps[from := g.deps[from]] && g.deps[from] - Elements(added) == g0.deps[from]
  }

  /** What the insertion leaves behind when it does not fail. */
  ghost predicate Inserted(g0: Graph, g: Graph, from: Id, dependencies: seq<Id>, added: seq<Id>) {
    from in g0.deps && g == Graph(WithDeps(g0.deps, from, Elements(dependencies)), g0.order) && from !in dependencies
    && Elements(added) <= g0.deps.Keys && Elements(added) == Elements(dependencies) - g0.deps[from]
  }

  lemma InsertedVerdict(g0: Graph, g: Graph, from: Id, dependencies: seq<Id>, added: seq<Id>)
    requires Inserted(g0, g, from, dependencies, added) && Closed(g0.deps)
    ensures ClosingEdge(g0.deps, g.deps, from, dependencies) == CanReach(g.deps, added, from)
    ensures !Cyclic(g0.deps) ==> CanReach(g.deps, added, from) == Cyclic(g.deps)
    ensures RestoresTo(g0, g, from, added)
  {
    ClosesIffReached(g0.deps, g.deps, from, dependencies, added);
    ClosingEdgeIffCyclic(g0.deps, from, dependencies);
  }

  lemma PathCloses(deps: map<Id, set<Id>>, g0: Graph, from: Id, dependencies: seq<Id>, added: seq<Id>, path: seq<Id>)
    requires Closed(deps) && Inserted(g0, Graph(deps, g0.order), from, dependencies, added) && Elements(added) <= deps.Keys
    requires PathFound(deps, added, from, path) && path == SortedPath(deps, Elements(added), from)
    ensures ReportedBy(deps, from, Elements(added), [from] + path)
  {
    assert path[0] in Elements(added) && from !in Elements(added);
    CloseCycle(deps, from, path);
  }

  lemma CloseCycle(deps: map<Id, set<Id>>, from: Id, path: seq<Id>)
    requires IsPath(deps, path) && NoDup(path) && path[|path| - 1] == from && Edge(deps, from, path[0])
    ensures IsCycle(deps, [from] + path)
  {
    var c := [from] + path;
    forall i | 0 < i < |c| ensures Edge(deps, c[i - 1], c[i]) {
      if i > 1 { assert Edge(deps, path[i - 2], path[i - 1]); }
    }
    assert c[1..] == path;
  }

  ghost predicate Ascending(s: seq<Id>) {
    forall i, j :: 0 <= i < j < |s| ==> IdLess(s[i], s[j])
  }

  /** The least string of a set. */
  method MinId(ids: set<Id>) returns (m: Id)
    requires ids != {}
    ensures m in ids && forall x :: x in ids ==> x == m || IdLess(m, x)
  {
    m :| m in ids;
    var todo := ids - {m};
    while todo != {}
      invariant m in ids && m !in todo && todo <= ids
      invariant forall x :: x in ids - todo ==> x == m || IdLess(m, x)
    {
      var x :| x in todo;
      IdLessTotal(x, m);
      if IdLess(x, m) {
        forall y | y in ids - todo && y != m ensures IdLess(x, y) { StringLessTransitive(x.name, m.name, y.name); }
        m := x;
      }
      todo := todo - {x};
    }
  }

  ghost predicate IsLeast(m: Id, ids: set<Id>) {
    m in ids && forall x :: x in ids ==> x == m || IdLess(m, x)
  }

  lemma {:induction false} LeastExists(ids: set<Id>)
    requires ids != {}
    ensures exists m :: IsLeast(m, ids)
  {
    var x :| x in ids;
    if ids == {x} {
      assert IsLeast(x, ids);
    } else {
      LeastExists(ids - {x});
      var m :| IsLeast(m, ids - {x});
      IdLessTotal(m, x);
      if IdLess(m, x) {
        assert IsLeast(m, ids);
      } else {
        forall y | y in ids && y != x ensures IdLess(x, y) {
          assert y in ids - {x};
          if y != m { StringLessTransitive(x.name, m.name, y.name); }
        }
        assert IsLeast(x, ids);
      }
    }
  }

  /** The one ascending listing of a set. */
  ghost function Listing(ids: set<Id>): (s: seq<Id>)
    ensures Elements(s) == ids && Ascending(s)
  {
    if ids == {} then []
    else
      LeastExists(ids);
      var m :| IsLeast(m, ids);
      ListingCons(ids, m, Listing(ids - {m}));
      [m] + Listing(ids - {m})
  }

  lemma ListingCons(ids: set<Id>, m: Id, rest: seq<Id>)
    requires IsLeast(m, ids) && Ascending(rest) && Elements(rest) == ids - {m}
    ensures Elements([m] + rest) == ids && Ascending([m] + rest)
  {
    assert forall x :: x in [m] + rest <==> x == m || x in Elements(rest);
    assert forall i :: 0 <= i < |rest| ==> rest[i] in Elements(rest);
  }

  lemma AscendingTail(s: seq<Id>)
    requires Ascending(s) && s != []
    ensures Ascending(s[1..]) && Elements(s[1..]) == Elements(s) - {s[0]}
    ensures IsLeast(s[0], Elements(s))
  {
    IdLessTotal(s[0], s[0]);
    assert s[0] !in s[1..];
    assert s == [s[0]] + s[1..];
  }

  lemma {:induction false} AscendingUnique(s: seq<Id>, t: seq<Id>)
    requires Ascending(s) && Ascending(t) && Elements(s) == Elements(t)
    ensures s == t
  {
    if s == [] {
      ElementsEmpty(t);
    } else {
      assert s[0] in Elements(t);
      AscendingTail(s);
      AscendingTail(t);
      IdLessTotal(s[0], t[0]);
      AscendingUnique(s[1..], t[1..]);
      assert s == [s[0]] + s[1..] && t == [t[0]] + t[1..];
    }
  }

  lemma AscendingNoDup(s: seq<Id>)
    requires Ascending(s)
    ensures NoDup(s)
  {
    forall i, j | 0 <= i < j < |s| ensures s[i] != s[j] { IdLessTotal(s[i], s[j]); }
  }

  /** slices.Sorted over the keys of a map. */
  method SortedKeys(ids: set<Id>) returns (sorted: seq<Id>)
    ensures Elements(sorted) == ids && NoDup(sorted)
    ensures sorted == Listing(ids)
  {
    sorted := [];
    var todo := ids;
    while todo != {}
      invariant Elements(sorted) + todo == ids
      invariant Ascending(sorted)
      invariant forall i, y :: 0 <= i < |sorted| && y in todo ==> IdLess(sorted[i], y)
    {
      var m := MinId(todo);
      todo := todo - {m};
      ElementsSnoc(sorted, m);
      sorted := sorted + [m];
    }
    AscendingNoDup(sorted);
    AscendingUnique(sorted, Listing(ids));
  }

  /* ---------- the sorted search as a function ---------- */

  /** The entries of list that have not been seen, in order. */
  ghost function Unseen(list: seq<Id>, seen: set<Id>): (r: seq<Id>)
    ensures Elements(r) == Elements(list) - seen && (NoDup(list) ==> NoDup(r))
  {
    if list == [] then []
    else
      var n := |list| - 1;
      ElementsSnoc(list[..n], list[n]);
      assert list == list[..n] + [list[n]];
      var r := Unseen(list[..n], seen);
      ElementsSnoc(r, list[n]);
      assert list[n] in r ==> list[n] in Elements(r);
      if list[n] in seen then r else r + [list[n]]
  }

  lemma UnseenNext(list: seq<Id>, j: nat, seen: set<Id>)
    requires j < |list|
    ensures Unseen(list[..j + 1], seen) == Unseen(list[..j], seen) + if list[j] in seen then [] else [list[j]]
    ensures Elements(list[..j + 1]) == Elements(list[..j]) + {list[j]}
  {
    PrefixSnoc(list, j);
  }

  /** Records how the newly found vertices were reached: by way of node. */
  ghost function Chained(chain: map<Id, seq<Id>>, node: Id, found: set<Id>): map<Id, seq<Id>>
    requires node in chain
  {
    map v | v in chain.Keys + found :: if v in chain then chain[v] else chain[node] + [v]
  }

  /** The stack and the chains after the first j entries of list have been looked at. */
  ghost predicate Looked(list: seq<Id>, j: nat, node: Id, stack0: seq<Id>, chain0: map<Id, seq<Id>>,
                         visited: set<Id>, stack: seq<Id>, chain: map<Id, seq<Id>>)
    requires j <= |list| && node in chain0
  {
    visited == chain.Keys && node in chain && chain[node] == chain0[node]
    && stack == stack0 + Unseen(list[..j], chain0.Keys) && chain == Chained(chain0, node, Elements(list[..j]))
  }

  lemma LookFirst(list: seq<Id>, node: Id, stack0: seq<Id>, chain0: map<Id, seq<Id>>)
    requires node in chain0
    ensures Looked(list, 0, node, stack0, chain0, chain0.Keys, stack0, chain0)
  {
    assert Elements(list[..0]) == {};
    assert Chained(chain0, node, {}) == chain0;
    assert stack0 + [] == stack0;
  }

  lemma ChainedNext(chain: map<Id, seq<Id>>, node: Id, found: set<Id>, v: Id)
    requires node in chain && v !in found
    ensures var chain1 := Chained(chain, node, found);
            (v in chain <==> v in chain1)
            && Chained(chain, node, found + {v}) == if v in chain then chain1 else chain1[v := chain[node] + [v]]
  {
  }

  lemma LookNext(list: seq<Id>, j: nat, node: Id, stack0: seq<Id>, chain0: map<Id, seq<Id>>,
                 visited: set<Id>, stack: seq<Id>, chain: map<Id, seq<Id>>)
    requires j < |list| && NoDup(list) && node in chain0
    requires Looked(list, j, node, stack0, chain0, visited, stack, chain)
    ensures if list[j] in visited then Looked(list, j + 1, node, stack0, chain0, visited, stack, chain)
            else Looked(list, j + 1, node, stack0, chain0, visited + {list[j]}, stack + [list[j]], chain[list[j] := chain0[node] + [list[j]]])
  {
    var found, v, next := Elements(list[..j]), list[j], Unseen(list[..j], chain0.Keys);
    assert v !in found;
    UnseenNext(list, j, chain0.Keys);
    ChainedNext(chain0, node, found, v);
    ConcatAssociative(stack0, next, [v]);
    assert next + [] == next;
  }

  /** Depth-first search by a stack, chain[v] being the way on which v was first seen: the first
      popped vertex with an edge to the target decides the path. */
  ghost function Search(deps: map<Id, set<Id>>, to: Id, stack: seq<Id>, chain: map<Id, seq<Id>>): seq<Id>
    requires Closed(deps) && Elements(stack) <= chain.Keys <= deps.Keys
    decreases deps.Keys - chain.Keys, |stack|
  {
    if stack == [] then []
    else
      var n := |stack| - 1;
      var node := stack[n];
      assert node in Elements(stack);
      if to in deps[node] then chain[node] + [to]
      else
        Narrows(deps, stack, chain);
        Search(deps, to, stack[..n] + Unseen(Listing(deps[node]), chain.Keys), Chained(chain, node, deps[node]))
  }

  /** A round either sees new vertices or only shortens the stack. */
  lemma Narrows(deps: map<Id, set<Id>>, stack: seq<Id>, chain: map<Id, seq<Id>>)
    requires Closed(deps) && stack != [] && Elements(stack) <= chain.Keys <= deps.Keys
    ensures stack[|stack| - 1] in chain
    ensures var n := |stack| - 1;
            var next, chain1 := Unseen(Listing(deps[stack[n]]), chain.Keys), Chained(chain, stack[n], deps[stack[n]]);
            Elements(stack[..n] + next) <= chain1.Keys <= deps.Keys
            && (next == [] ==> chain1.Keys == chain.Keys)
            && (next != [] ==> deps.Keys - chain1.Keys < deps.Keys - chain.Keys)
  {
    var n := |stack| - 1;
    var node := stack[n];
    assert node in Elements(stack);
    var next, chain1 := Unseen(Listing(deps[node]), chain.Keys), Chained(chain, node, deps[node]);
    ElementsEmpty(next);
    assert forall v :: v in deps[node] ==> v in deps;
    assert chain1.Keys == chain.Keys + Elements(next);
    forall v | v in stack[..n] + next ensures v in chain1.Keys {
      assert v in stack[..n] ==> v in Elements(stack);
      assert v in next ==> v in Elements(next);
    }
    if next != [] { assert next[0] in Elements(next); }
  }

  /** A round that does not meet the target leaves the outcome of the search as it was. */
  lemma SearchRound(deps: map<Id, set<Id>>, to: Id, stack: seq<Id>, chain: map<Id, seq<Id>>,
                    visited: set<Id>, stack1: seq<Id>, chain1: map<Id, seq<Id>>)
    requires Closed(deps) && stack != [] && Elements(stack) <= chain.Keys <= deps.Keys
    requires var n := |stack| - 1;
             stack[n] in chain && to !in deps[stack[n]]
             && Looked(Listing(deps[stack[n]]), |Listing(deps[stack[n]])|, stack[n], stack[..n], chain, visited, stack1, chain1)
    ensures Elements(stack1) <= chain1.Keys <= deps.Keys
    ensures Search(deps, to, stack, chain) == Search(deps, to, stack1, chain1)
    ensures (chain1.Keys == chain.Keys && |stack1| < |stack|) || deps.Keys - chain1.Keys < deps.Keys - chain.Keys
  {
    Narrows(deps, stack, chain);
    var neighbors := Listing(deps[stack[|stack| - 1]]);
    assert neighbors[..|neighbors|] == neighbors;
  }

  /** The path the sorted search reports: it depends on the graph, the set of starts and the
      target alone. */
  ghost function SortedPath(deps: map<Id, set<Id>>, starts: set<Id>, to: Id): seq<Id>
    requires Closed(deps) && starts <= deps.Keys
  {
    Search(deps, to, Listing(starts), map s | s in starts :: [s])
  }

  /** What both searches promise about a reported path. */
  ghost predicate PathFound(deps: map<Id, set<Id>>, from: seq<Id>, to: Id, path: seq<Id>) {
    IsPath(deps, path) && |path| >= 2 && path[0] in from && path[|path| - 1] == to
    && (to !in from ==> NoDup(path))
  }

  /** A repetition-free path from a start to v. */
  ghost predicate IsChain(deps: map<Id, set<Id>>, from: seq<Id>, seen: set<Id>, c: seq<Id>, v: Id) {
    IsPath(deps, c) && NoDup(c) && c[0] in from && c[|c| - 1] == v && Elements(c) <= seen
  }

  ghost predicate Chains(deps: map<Id, set<Id>>, from: seq<Id>, chain: map<Id, seq<Id>>, to: Id) {
    (to in chain ==> to in from)
    && forall v {:trigger chain[v]} :: v in chain ==> IsChain(deps, from, chain.Keys, chain[v], v)
  }

  lemma SeedChains(deps: map<Id, set<Id>>, from: seq<Id>, to: Id)
    ensures Chains(deps, from, map s | s in Elements(from) :: [s], to)
  {
  }

  lemma ExtendChain(deps: map<Id, set<Id>>, from: seq<Id>, seen: set<Id>, seen1: set<Id>, c: seq<Id>, node: Id, v: Id)
    requires IsChain(deps, from, seen, c, node) && Edge(deps, node, v) && v !in seen && seen + {v} <= seen1
    ensures IsChain(deps, from, seen1, c + [v], v)
  {
    PathSnoc(deps, c, v);
    ElementsSnoc(c, v);
    assert v !in Elements(c);
  }

  lemma ExtendChains(deps: map<Id, set<Id>>, from: seq<Id>, chain: map<Id, seq<Id>>, node: Id, to: Id)
    requires Chains(deps, from, chain, to) && node in chain && node in deps && to !in deps[node]
    ensures Chains(deps, from, Chained(chain, node, deps[node]), to)
  {
    var chain1 := Chained(chain, node, deps[node]);
    forall v | v in chain1 ensures IsChain(deps, from, chain1.Keys, chain1[v], v) {
      if v in chain {
        assert IsChain(deps, from, chain.Keys, chain[v], v);
      } else {
        ExtendChain(deps, from, chain.Keys, chain1.Keys, chain[node], node, v);
      }
    }
  }

  lemma ChainToTarget(deps: map<Id, set<Id>>, from: seq<Id>, chain: map<Id, seq<Id>>, node: Id, to: Id)
    requires Chains(deps, from, chain, to) && node in chain && Edge(deps, node, to)
    ensures PathFound(deps, from, to, chain[node] + [to]) && CanReach(deps, from, to)
  {
    var c := chain[node];
    assert IsChain(deps, from, chain.Keys, c, node);
    PathSnoc(deps, c, to);
    var p := c + [to];
    assert p[0] in from && p[|p| - 1] == to;
    assert Reaches(deps, p[0], to);
    if to !in from {
      assert to !in Elements(c);
      ElementsSnoc(c, to);
    }
  }

  lemma Settle(deps: map<Id, set<Id>>, done: set<Id>, visited0: set<Id>, visited: set<Id>, node: Id, to: Id)
    requires Explored(deps, done, visited0, to) && visited0 <= visited
    requires node in deps && deps[node] <= visited && to !in deps[node]
    ensures Explored(deps, done + {node}, visited, to)
  {
  }

  lemma PushAll(stack: seq<Id>, visited: set<Id>, done: set<Id>, next: seq<Id>)
    requires Frontier(stack, visited, done) && NoDup(next) && visited !! Elements(next)
    ensures Frontier(stack + next, visited + Elements(next), done)
  {
    assert Elements(stack + next) == Elements(stack) + Elements(next);
    forall i, j | 0 <= i < |stack| && 0 <= j < |next| ensures stack[i] != next[j] {
      assert stack[i] in Elements(stack) && next[j] in Elements(next);
    }
  }

  lemma RoundKeeps(deps: map<Id, set<Id>>, from: seq<Id>, to: Id, stack: seq<Id>, chain: map<Id, seq<Id>>, done: set<Id>, node: Id)
    requires node in deps && node in chain && to !in deps[node] && Chains(deps, from, chain, to)
    requires Frontier(stack, chain.Keys, done + {node}) && Explored(deps, done, chain.Keys, to)
    ensures var next, chain1 := Unseen(Listing(deps[node]), chain.Keys), Chained(chain, node, deps[node]);
            Frontier(stack + next, chain1.Keys, done + {node}) && Explored(deps, done + {node}, chain1.Keys, to)
            && Chains(deps, from, chain1, to) && chain.Keys <= chain1.Keys
  {
    var next, chain1 := Unseen(Listing(deps[node]), chain.Keys), Chained(chain, node, deps[node]);
    AscendingNoDup(Listing(deps[node]));
    assert chain1.Keys == chain.Keys + Elements(next);
    PushAll(stack, chain.Keys, done + {node}, next);
    ExtendChains(deps, from, chain, node, to);
    Settle(deps, done, chain.Keys, chain1.Keys, node, to);
  }

  /** The sorted search reports a path exactly when there is one. */
  lemma {:induction false} SearchFinds(deps: map<Id, set<Id>>, from: seq<Id>, to: Id, stack: seq<Id>, chain: map<Id, seq<Id>>, done: set<Id>)
    requires Closed(deps) && Elements(from) <= chain.Keys <= deps.Keys && Chains(deps, from, chain, to)
    requires Frontier(stack, chain.Keys, done) && Explored(deps, done, chain.Keys, to)
    ensures var path := Search(deps, to, stack, chain);
            if CanReach(deps, from, to) then PathFound(deps, from, to, path) else path == []
    decreases deps.Keys - chain.Keys, |stack|
  {
    if stack == [] {
      assert Elements(stack) == {};
      ExhaustedCannotReach(deps, from, done, to);
    } else {
      var n := |stack| - 1;
      var node := Pop(stack, chain.Keys, done);
      if to in deps[node] {
        ChainToTarget(deps, from, chain, node, to);
      } else {
        var next, chain1 := Unseen(Listing(deps[node]), chain.Keys), Chained(chain, node, deps[node]);
        RoundKeeps(deps, from, to, stack[..n], chain, done, node);
        Narrows(deps, stack, chain);
        SearchFinds(deps, from, to, stack[..n] + next, chain1, done + {node});
      }
    }
  }

  lemma SortedPathFound(deps: map<Id, set<Id>>, from: seq<Id>, to: Id)
    requires Closed(deps) && Elements(from) <= deps.Keys
    ensures var path := SortedPath(deps, Elements(from), to);
            if CanReach(deps, from, to) then PathFound(deps, from, to, path) else path == []
  {
    var stack, chain := Listing(Elements(from)), map s | s in Elements(from) :: [s];
    AscendingNoDup(stack);
    SeedChains(deps, from, to);
    SearchFinds(deps, from, to, stack, chain, {});
  }

  /** parent[v] is the vertex before v on its chain, v itself for a start. */
  ghost predicate FollowsParent(parent: map<Id, Id>, chain: map<Id, seq<Id>>, v: Id)
    requires v in chain && parent.Keys == chain.Keys
  {
    if parent[v] == v then chain[v] == [v] else parent[v] in chain && chain[v] == chain[parent[v]] + [v]
  }

  ghost predicate Parents(parent: map<Id, Id>, chain: map<Id, seq<Id>>)
    requires parent.Keys == chain.Keys
  {
    forall v {:trigger FollowsParent(parent, chain, v)} :: v in chain ==> FollowsParent(parent, chain, v)
  }

  /** What the sorted search keeps between two rounds. */
  ghost predicate SearchState(deps: map<Id, set<Id>>, visited: set<Id>, parent: map<Id, Id>, stack: seq<Id>, chain: map<Id, seq<Id>>) {
    visited == parent.Keys == chain.Keys <= deps.Keys && Elements(stack) <= visited && Parents(parent, chain)
  }

  /** Every vertex its own parent. */
  ghost function Selves(ids: set<Id>): (r: map<Id, Id>)
    ensures r.Keys == ids && forall v :: v in r ==> r[v] == v
  {
    map v | v in ids :: v
  }

  ghost predicate Seeded(starts: seq<Id>, i: nat, visited: set<Id>, parent: map<Id, Id>, stack: seq<Id>)
    requires i <= |starts|
  {
    stack == starts[..i] && visited == Elements(starts[..i]) && parent == Selves(visited)
  }

  lemma SeedNext(starts: seq<Id>, i: nat, visited: set<Id>, parent: map<Id, Id>, stack: seq<Id>)
    requires i < |starts| && NoDup(starts) && Seeded(starts, i, visited, parent, stack)
    ensures starts[i] !in visited
    ensures Seeded(starts, i + 1, visited + {starts[i]}, parent[starts[i] := starts[i]], stack + [starts[i]])
  {
    PrefixSnoc(starts, i);
    assert Selves(visited + {starts[i]}) == parent[starts[i] := starts[i]];
  }

  lemma ExtendParents(parent: map<Id, Id>, chain: map<Id, seq<Id>>, node: Id, v: Id)
    requires parent.Keys == chain.Keys && Parents(parent, chain) && node in chain && v !in chain
    ensures Parents(parent[v := node], chain[v := chain[node] + [v]])
  {
    forall w | w in chain ensures FollowsParent(parent[v := node], chain[v := chain[node] + [v]], w) {
      assert FollowsParent(parent, chain, w);
    }
  }

  class DirectedAcyclicGraph {
    var vertices: map<Id, Vertex>
    ghost var g: Graph  // the same graph as a value

    ghost predicate Valid()
      reads this, vertices.Values
    {
      g.deps.Keys == g.order.Keys == vertices.Keys && Closed(g.deps)
      && forall k {:trigger vertices[k]} :: k in vertices ==>
           vertices[k].id == k && vertices[k].order == g.order[k] && vertices[k].dependsOn == g.deps[k]
    }

    constructor ()
      ensures Valid() && g == Graph(map[], map[])
    {
      vertices := map[];
      g := Graph(map[], map[]);
    }

    method AddVertex(id: Id, order: int) returns (ok: bool)
      requires Valid()
      modifies this
      ensures Valid() && ok == (id !in old(vertices))
      ensures ok ==> id in vertices && fresh(vertices[id]) && vertices == old(vertices)[id := vertices[id]]
      ensures ok ==> g == Graph(old(g).deps[id := {}], old(g).order[id := order])
      ensures !ok ==> vertices == old(vertices) && g == old(g)
    {
      if id in vertices {
        return false;
      }
      var v := new Vertex(id, order);
      ghost var before := vertices;
      vertices := vertices[id := v];
      g := Graph(g.deps[id := {}], g.order[id := order]);
      assert forall k :: k in before ==> before[k] in before.Values;
      return true;
    }

    /** Makes `from` depend on every listed vertex. The first unusable entry, or a cycle the
        new edges would close, undoes exactly what this call added. */
    method AddDependencies(from: Id, dependencies: seq<Id>) returns (r: AddResult)
      requires Valid()
      modifies this`g, vertices.Values
      ensures Valid() && vertices == old(vertices)
      ensures from !in vertices ==> r == NoSuchNode(from)
      ensures r.Added? ==> from in vertices && g == Graph(WithDeps(old(g).deps, from, Elements(dependencies)), old(g).order)
      ensures !r.Added? ==> g == old(g)
      ensures from in vertices ==>
                match FirstBad(vertices.Keys, from, dependencies)
                case Some(bad) => r == bad
                case None =>
                  var grown := WithDeps(old(g).deps, from, Elements(dependencies));
                  r.Added? == !ClosingEdge(old(g).deps, grown, from, dependencies)
                  && (!r.Added? ==> r.ClosesCycle? && ReportedBy(grown, from, Elements(dependencies) - old(g).deps[from], r.cycle))
                  && (!Cyclic(old(g).deps) ==> r.Added? == !Cyclic(grown))
    {
      if from !in vertices {
        return NoSuchNode(from);
      }
      ghost var g0 := g;
      var added, bad := InsertAll(from, vertices[from], dependencies);
      if bad.Some? {
        return bad.value;
      }
      InsertedVerdict(g0, g, from, dependencies, added);
      var path, closes := FindPath(added, from);
      if closes {
        PathCloses(g.deps, g0, from, dependencies, added, path);
        Restore(from, vertices[from], added, g0);
        return ClosesCycle([from] + path);
      }
      return Added;
    }

    /** The insertion loop: adds the edges that are new, or undoes them at the first bad entry. */
    method InsertAll(from: Id, fromNode: Vertex, dependencies: seq<Id>) returns (added: seq<Id>, bad: Option<AddResult>)
      requires Valid() && from in vertices && vertices[from] == fromNode
      modifies fromNode`dependsOn, this`g
      ensures Valid()
      ensures bad == FirstBad(vertices.Keys, from, dependencies)
      ensures bad.Some? ==> (bad.value.NoSuchNode? || bad.value.SelfReference?) && g == old(g)
      ensures bad.None? ==> Inserted(old(g), g, from, dependencies, added)
    {
      ghost var deps0 := fromNode.dependsOn;
      added := [];
      var i := 0;
      while i < |dependencies|
        invariant 0 <= i <= |dependencies|
        invariant g == old(g)
        invariant FirstBad(vertices.Keys, from, dependencies) == FirstBad(vertices.Keys, from, dependencies[i..])
        invariant from !in dependencies[..i] && Elements(dependencies[..i]) <= vertices.Keys
        invariant Elements(added) == Elements(dependencies[..i]) - deps0
        invariant fromNode.dependsOn == deps0 + Elements(added)
      {
        var dependency := dependencies[i];
        if dependency !in vertices {
          Rollback(fromNode, added);
          return added, Some(NoSuchNode(dependency));
        }
        if from == dependency {
          Rollback(fromNode, added);
          return added, Some(SelfReference);
        }
        assert Elements(dependencies[..i + 1]) == Elements(dependencies[..i]) + {dependency};
        if dependency !in fromNode.dependsOn {
          fromNode.dependsOn := fromNode.dependsOn + {dependency};
          ElementsSnoc(added, dependency);
          added := added + [dependency];
        }
        i := i + 1;
      }
      assert dependencies[..i] == dependencies;
      assert deps0 + Elements(added) == deps0 + Elements(dependencies);
      g := Graph(WithDeps(g.deps, from, Elements(dependencies)), g.order);
      return added, None;
    }

    /** The rollback: deletes the edges this call added, and only those. */
    method Restore(from: Id, fromNode: Vertex, added: seq<Id>, ghost g0: Graph)
      requires Valid() && from in vertices && vertices[from] == fromNode && RestoresTo(g0, g, from, added)
      modifies fromNode`dependsOn, this`g
      ensures Valid() && g == g0
    {
      Rollback(fromNode, added);
      g := g0;
    }

    static method Rollback(fromNode: Vertex, added: seq<Id>)
      modifies fromNode`dependsOn
      ensures fromNode.dependsOn == old(fromNode.dependsOn) - Elements(added)
    {
      var i := 0;
      while i < |added|
        invariant 0 <= i <= |added|
        invariant fromNode.dependsOn == old(fromNode.dependsOn) - Elements(added[..i])
      {
        assert Elements(added[..i + 1]) == Elements(added[..i]) + {added[i]};
        fromNode.dependsOn := fromNode.dependsOn - {added[i]};
        i := i + 1;
      }
      assert added[..i] == added;
    }

    /** Whether `to` is reachable from any of `from`. The search order is arbitrary; on success
        the path comes from the deterministic search, which finds one whenever this one did. */
    method FindPath(from: seq<Id>, to: Id) returns (path: seq<Id>, found: bool)
      requires Valid() && Elements(from) <= vertices.Keys
      ensures found == CanReach(g.deps, from, to)
      ensures found ==> PathFound(g.deps, from, to, path)
      ensures found ==> path == SortedPath(g.deps, Elements(from), to)
    {
      ghost var deps := g.deps;
      var visited, stack := Starts(from);
      ghost var done: set<Id> := {};
      while stack != []
        invariant Elements(from) <= visited <= deps.Keys
        invariant Frontier(stack, visited, done) && Explored(deps, done, visited, to)
        invariant AllReachable(deps, from, visited)
        decreases deps.Keys - done
      {
        ghost var _ := Pop(stack, visited, done);
        var node := stack[|stack| - 1];
        assert vertices[node].dependsOn == deps[node];
        ghost var visited0 := visited;
        var hit;
        hit, visited, stack := Scan(deps, from, to, node, vertices[node].dependsOn, visited, stack[..|stack| - 1], done);
        if hit {
          path, found := FindSortedPath(from, to);
          return;
        }
        Settle(deps, done, visited0, visited, node, to);
        done := done + {node};
      }
      ExhaustedCannotReach(deps, from, done, to);
      return [], false;
    }

    /** The distinct starts, in order. */
    static method Starts(from: seq<Id>) returns (visited: set<Id>, stack: seq<Id>)
      ensures visited == Elements(from) && Frontier(stack, visited, {})
    {
      visited, stack := {}, [];
      var i := 0;
      while i < |from|
        invariant 0 <= i <= |from|
        invariant visited == Elements(from[..i]) && Frontier(stack, visited, {})
      {
        assert Elements(from[..i + 1]) == Elements(from[..i]) + {from[i]};
        if from[i] !in visited {
          Push(stack, visited, {}, from[i]);
          visited := visited + {from[i]};
          stack := stack + [from[i]];
        }
        i := i + 1;
      }
      assert from[..i] == from;
    }

    /** One popped vertex: looks for the target among its neighbors in arbitrary order, queueing
        the unseen ones. */
    static method Scan(ghost deps: map<Id, set<Id>>, ghost from: seq<Id>, to: Id, node: Id, neighbors: set<Id>,
                       visited0: set<Id>, stack0: seq<Id>, ghost done: set<Id>)
      returns (hit: bool, visited: set<Id>, stack: seq<Id>)
      requires node in deps && neighbors == deps[node] <= deps.Keys
      requires visited0 <= deps.Keys && node in visited0
      requires Frontier(stack0, visited0, done + {node}) && AllReachable(deps, from, visited0)
      ensures hit <==> to in deps[node]
      ensures hit ==> CanReach(deps, from, to)
      ensures visited0 <= visited <= deps.Keys && Frontier(stack, visited, done + {node})
      ensures AllReachable(deps, from, visited)
      ensures !hit ==> deps[node] <= visited
    {
      hit, visited, stack := false, visited0, stack0;
      var todo := neighbors;
      while todo != {}
        invariant todo <= neighbors && visited0 <= visited <= deps.Keys
        invariant Frontier(stack, visited, done + {node}) && AllReachable(deps, from, visited)
        invariant neighbors - todo <= visited && to !in neighbors - todo
      {
        var neighbor :| neighbor in todo;
        todo := todo - {neighbor};
        assert Edge(deps, node, neighbor);
        ReachNeighbor(deps, from, visited, node, neighbor);
        if neighbor == to {
          return true, visited, stack;
        }
        if neighbor !in visited {
          Push(stack, visited, done + {node}, neighbor);
          visited := visited + {neighbor};
          stack := stack + [neighbor];
        }
      }
    }

    /** The sorted search: it computes SortedPath. */
    method FindSortedPath(from: seq<Id>, to: Id) returns (path: seq<Id>, found: bool)
      requires Valid() && Elements(from) <= vertices.Keys
      ensures found == CanReach(g.deps, from, to)
      ensures found ==> PathFound(g.deps, from, to, path)
      ensures path == SortedPath(g.deps, Elements(from), to)
    {
      ghost var deps := g.deps;
      SortedPathFound(deps, from, to);
      var visited, parent, stack := Seed(from);
      ghost var chain: map<Id, seq<Id>> := map s | s in Elements(from) :: [s];
      while stack != []
        invariant SearchState(deps, visited, parent, stack, chain)
        invariant SortedPath(deps, Elements(from), to) == Search(deps, to, stack, chain)
        decreases deps.Keys - visited, |stack|
      {
        assert stack[|stack| - 1] in Elements(stack);
        var hit;
        path, hit, visited, parent, stack, chain :=
          Round(deps, to, vertices[stack[|stack| - 1]].dependsOn, visited, parent, stack, chain);
        if hit {
          return path, true;
        }
      }
      return [], false;
    }

    /** Pops one vertex of the sorted search. */
    static method Round(ghost deps: map<Id, set<Id>>, to: Id, dependsOn: set<Id>, visited0: set<Id>, parent0: map<Id, Id>,
                        stack0: seq<Id>, ghost chain0: map<Id, seq<Id>>)
      returns (path: seq<Id>, hit: bool, visited: set<Id>, parent: map<Id, Id>, stack: seq<Id>, ghost chain: map<Id, seq<Id>>)
      requires Closed(deps) && SearchState(deps, visited0, parent0, stack0, chain0)
      requires stack0 != [] && stack0[|stack0| - 1] in deps && dependsOn == deps[stack0[|stack0| - 1]]
      ensures hit ==> path == Search(deps, to, stack0, chain0) != []
      ensures !hit ==> SearchState(deps, visited, parent, stack, chain)
      ensures !hit ==> Search(deps, to, stack, chain) == Search(deps, to, stack0, chain0)
      ensures !hit ==> (visited == visited0 && |stack| < |stack0|) || deps.Keys - visited < deps.Keys - visited0
    {
      var node := stack0[|stack0| - 1];
      assert node in Elements(stack0);
      var neighbors := SortedKeys(dependsOn);
      path := [];
      hit, visited, parent, stack, chain := Expand(to, node, neighbors, visited0, parent0, stack0[..|stack0| - 1], chain0);
      assert to in neighbors <==> to in Elements(neighbors);
      if hit {
        path := WalkParents(parent, chain, node, to);
      } else {
        SearchRound(deps, to, stack0, chain0, visited, stack, chain);
      }
    }

    /** The distinct starts, in order, each its own parent. */
    static method Seed(from: seq<Id>) returns (visited: set<Id>, parent: map<Id, Id>, stack: seq<Id>)
      ensures visited == Elements(from) && parent == Selves(visited)
      ensures stack == Listing(Elements(from))
    {
      visited, parent, stack := {}, map[], [];
      var starts := SortedKeys(set s | s in from);
      assert (set s | s in from) == Elements(from);
      var i := 0;
      while i < |starts|
        invariant 0 <= i <= |starts| && Seeded(starts, i, visited, parent, stack)
      {
        SeedNext(starts, i, visited, parent, stack);
        if starts[i] !in visited {
          visited := visited + {starts[i]};
          parent := parent[starts[i] := starts[i]];
          stack := stack + [starts[i]];
        }
        i := i + 1;
      }
      assert starts[..i] == starts;
    }

    /** One popped vertex: looks for the target among its sorted neighbors, queueing the unseen ones. */
    static method Expand(to: Id, node: Id, neighbors: seq<Id>, visited0: set<Id>, parent0: map<Id, Id>, stack0: seq<Id>,
                         ghost chain0: map<Id, seq<Id>>)
      returns (hit: bool, visited: set<Id>, parent: map<Id, Id>, stack: seq<Id>, ghost chain: map<Id, seq<Id>>)
      requires NoDup(neighbors) && node in visited0
      requires visited0 == parent0.Keys == chain0.Keys && Parents(parent0, chain0)
      ensures hit <==> to in neighbors
      ensures visited == parent.Keys == chain.Keys && Parents(parent, chain) && node in chain && chain[node] == chain0[node]
      ensures !hit ==> Looked(neighbors, |neighbors|, node, stack0, chain0, visited, stack, chain)
    {
      hit, visited, parent, stack, chain := false, visited0, parent0, stack0, chain0;
      var j := 0;
      LookFirst(neighbors, node, stack0, chain0);
      while j < |neighbors|
        invariant 0 <= j <= |neighbors| && to !in neighbors[..j]
        invariant parent.Keys == chain.Keys && Parents(parent, chain)
        invariant Looked(neighbors, j, node, stack0, chain0, visited, stack, chain)
      {
        var neighbor := neighbors[j];
        if neighbor == to {
          return true, visited, parent, stack, chain;
        }
        PrefixSnoc(neighbors, j);
        LookNext(neighbors, j, node, stack0, chain0, visited, stack, chain);
        if neighbor !in visited {
          ExtendParents(parent, chain, node, neighbor);
          visited := visited + {neighbor};
          parent := parent[neighbor := node];
          chain := chain[neighbor := chain0[node] + [neighbor]];
          stack := stack + [neighbor];
        }
        j := j + 1;
      }
      assert neighbors[..j] == neighbors;
    }

    /** Follows parents back to a start and reverses the result. */
    static method WalkParents(parent: map<Id, Id>, ghost chain: map<Id, seq<Id>>, node: Id, to: Id) returns (path: seq<Id>)
      requires parent.Keys == chain.Keys && Parents(parent, chain) && node in chain
      ensures path == chain[node] + [to]
    {
      path := [to];
      var cur := node;
      assert chain[node] + [to] == chain[cur] + Reverse(path);
      while parent[cur] != cur
        invariant cur in chain
        invariant chain[node] + [to] == chain[cur] + Reverse(path)
        decreases |chain[cur]|
      {
        assert FollowsParent(parent, chain, cur);
        assert Reverse(path + [cur]) == [cur] + Reverse(path);
        path := path + [cur];
        cur := parent[cur];
      }
      assert FollowsParent(parent, chain, cur);
      assert Reverse(path + [cur]) == [cur] + Reverse(path);
      path := path + [cur];
      path := Reverse(path);
    }
  }

  /** The error the first unusable dependency causes, in list order. */
  function FirstBad(known: set<Id>, from: Id, dependencies: seq<Id>): Option<AddResult> {
    if dependencies == [] then None
    else if dependencies[0] !in known then Some(NoSuchNode(dependencies[0]))
    else if dependencies[0] == from then Some(SelfReference)
    else FirstBad(known, from, dependencies[1..])
  }

  /** Position i is the first unusable entry, and this is what is wrong with it: an unknown one is
      reported as such even if it is the vertex itself. */
  ghost predicate FirstUnusable(known: set<Id>, from: Id, dependencies: seq<Id>, i: nat, bad: AddResult) {
    && i < |dependencies|
    && (forall j :: 0 <= j < i ==> dependencies[j] in known && dependencies[j] != from)
    && ((dependencies[i] !in known && bad == NoSuchNode(dependencies[i]))
        || (dependencies[i] in known && dependencies[i] == from && bad == SelfReference))
  }

  lemma {:induction false} FirstBadIs(known: set<Id>, from: Id, dependencies: seq<Id>)
    ensures FirstBad(known, from, dependencies).None? <==> forall d :: d in dependencies ==> d in known && d != from
    ensures FirstBad(known, from, dependencies).Some? ==>
              exists i: nat :: FirstUnusable(known, from, dependencies, i, FirstBad(known, from, dependencies).value)
  {
    if dependencies != [] {
      var head, tail := dependencies[0], dependencies[1..];
      assert forall d :: d in dependencies <==> d == head || d in tail;
      if head !in known || head == from {
        assert FirstUnusable(known, from, dependencies, 0, FirstBad(known, from, dependencies).value);
      } else {
        FirstBadIs(known, from, tail);
        if FirstBad(known, from, tail).Some? {
          var bad := FirstBad(known, from, tail).value;
          var i: nat :| FirstUnusable(known, from, tail, i, bad);
          assert dependencies[i + 1] == tail[i];
          forall j | 0 <= j < i + 1 ensures dependencies[j] in known && dependencies[j] != from {
            assert j > 0 ==> dependencies[j] == tail[j - 1];
          }
          assert FirstUnusable(known, from, dependencies, i + 1, bad);
        }
      }
    }
  }
}
