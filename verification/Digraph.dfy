/** Directed graphs over string identifiers: paths, cycles, topological orders,
    the greedy (Order, ID) schedule and the layering by longest chain of dependents.
    Nothing here is executed; `Dag` proves its methods against these definitions. */
module Digraph {

  import opened Collections

  /** A vertex identifier; kro instantiates the graph with strings. */
  datatype Id = Id(name: string)

  /** What a dependency graph holds: for each vertex the vertices it depends on,
      and the vertex's original position. */
  datatype Graph = Graph(deps: map<Id, set<Id>>, order: map<Id, int>)

  ghost predicate Closed(deps: map<Id, set<Id>>) {
    forall v, d {:trigger d in deps[v]} :: v in deps && d in deps[v] ==> d in deps
  }

  ghost predicate WellFormed(g: Graph) {
    g.order.Keys == g.deps.Keys && Closed(g.deps)
  }

  ghost predicate Edge(deps: map<Id, set<Id>>, a: Id, b: Id) {
    a in deps && b in deps[a]
  }

  ghost predicate IsPath(deps: map<Id, set<Id>>, p: seq<Id>) {
    p != [] && forall i :: 0 < i < |p| ==> Edge(deps, p[i - 1], p[i])
  }

  /** b can be reached from a along at least one edge. */
  ghost predicate Reaches(deps: map<Id, set<Id>>, a: Id, b: Id) {
    exists p :: IsPath(deps, p) && |p| >= 2 && p[0] == a && p[|p| - 1] == b
  }

  /** A closed walk along real edges that repeats only its end vertex. */
  ghost predicate IsCycle(deps: map<Id, set<Id>>, c: seq<Id>) {
    IsPath(deps, c) && |c| >= 2 && c[0] == c[|c| - 1] && NoDup(c[1..])
  }

  ghost predicate Cyclic(deps: map<Id, set<Id>>) {
    exists v :: Reaches(deps, v, v)
  }

  /* ---------- the heap order on (Order, ID) ---------- */

  /** Go's `<` on strings: lexicographic, a proper prefix first. */
  predicate StringLess(a: string, b: string) {
    b != [] && (a == [] || a[0] < b[0] || (a[0] == b[0] && StringLess(a[1..], b[1..])))
  }

  lemma {:induction false} StringLessTrichotomy(a: string, b: string)
    ensures StringLess(a, b) || StringLess(b, a) || a == b
    ensures !(StringLess(a, b) && StringLess(b, a))
    ensures !StringLess(a, a)
  {
    if a != [] {
      StringLessTrichotomy(a[1..], a[1..]);
      if b != [] {
        StringLessTrichotomy(a[1..], b[1..]);
        assert a == [a[0]] + a[1..];
        assert b == [b[0]] + b[1..];
      }
    }
  }

  lemma {:induction false} StringLessTransitive(a: string, b: string, c: string)
    requires StringLess(a, b) && StringLess(b, c)
    ensures StringLess(a, c)
  {
    if a != [] && a[0] == b[0] && b[0] == c[0] {
      StringLessTransitive(a[1..], b[1..], c[1..]);
    }
  }

  predicate IdLess(a: Id, b: Id) {
    StringLess(a.name, b.name)
  }

  lemma IdLessTotal(a: Id, b: Id)
    ensures IdLess(a, b) || IdLess(b, a) || a == b
    ensures !(IdLess(a, b) && IdLess(b, a))
    ensures !IdLess(a, a)
  {
    StringLessTrichotomy(a.name, b.name);
  }

  datatype Item = Item(id: Id, order: int)

  /** topoHeap.Less */
  predicate Less(a: Item, b: Item) {
    if a.order != b.order then a.order < b.order else IdLess(a.id, b.id)
  }

  /** The heap's comparison is a strict total order, so the minimum the heap pops is unique. */
  lemma LessIsStrictTotalOrder(a: Item, b: Item, c: Item)
    ensures !Less(a, a)
    ensures Less(a, b) || Less(b, a) || a == b
    ensures !(Less(a, b) && Less(b, a))
    ensures Less(a, b) && Less(b, c) ==> Less(a, c)
  {
    IdLessTotal(a.id, b.id);
    if Less(a, b) && Less(b, c) && a.order == b.order == c.order {
      StringLessTransitive(a.id.name, b.id.name, c.id.name);
    }
  }

  /** Dictionary order: at the first difference the smaller character, or a proper prefix. */
  ghost predicate Lexicographic(a: string, b: string) {
    exists n :: 0 <= n <= |a| && n < |b| && a[..n] == b[..n] && (n == |a| || a[n] < b[n])
  }

  lemma {:induction false} StringLessIff(a: string, b: string)
    ensures StringLess(a, b) <==> Lexicographic(a, b)
  {
    if b != [] && a != [] && a[0] == b[0] {
      StringLessIff(a[1..], b[1..]);
      if Lexicographic(a[1..], b[1..]) {
        var n :| 0 <= n <= |a[1..]| && n < |b[1..]| && a[1..][..n] == b[1..][..n] && (n == |a[1..]| || a[1..][n] < b[1..][n]);
        assert a[..n + 1] == [a[0]] + a[1..][..n] && b[..n + 1] == [b[0]] + b[1..][..n];
      }
      if n :| 0 <= n <= |a| && n < |b| && a[..n] == b[..n] && (n == |a| || a[n] < b[n]) {
        assert n > 0;
        assert a[1..][..n - 1] == a[..n][1..] && b[1..][..n - 1] == b[..n][1..];
      }
    } else if b != [] {
      assert a[..0] == b[..0];
      if n :| 0 <= n <= |a| && n < |b| && a[..n] == b[..n] && (n == |a| || a[n] < b[n]) {
        assert n > 0 ==> a[..n][0] == b[..n][0];
      }
    }
  }

  /** What the heap's comparison means: the smaller Order first, and for equal ones the smaller name. */
  ghost predicate EarlierBy(order: map<Id, int>, v: Id, w: Id)
    requires v in order && w in order
  {
    order[v] < order[w] || (order[v] == order[w] && Lexicographic(v.name, w.name))
  }

  lemma BeforeIff(order: map<Id, int>, v: Id, w: Id)
    requires v in order && w in order
    ensures Before(order, v, w) <==> EarlierBy(order, v, w)
  {
    StringLessIff(v.name, w.name);
  }

  ghost predicate Before(order: map<Id, int>, a: Id, b: Id)
    requires a in order && b in order
  {
    Less(Item(a, order[a]), Item(b, order[b]))
  }

  /* ---------- topological orders ---------- */

  /** Vertices not yet scheduled whose needs are all scheduled. */
  ghost function Ready(need: map<Id, set<Id>>, done: set<Id>): set<Id> {
    set v | v in need && v !in done && need[v] <= done
  }

  /** Every vertex exactly once, after everything it needs. */
  ghost predicate IsTopological(need: map<Id, set<Id>>, s: seq<Id>) {
    Elements(s) == need.Keys && forall i :: 0 <= i < |s| ==> s[i] in Ready(need, Elements(s[..i]))
  }

  /** At every step the least ready (Order, ID) is taken. */
  ghost predicate IsGreedy(need: map<Id, set<Id>>, order: map<Id, int>, s: seq<Id>)
    requires order.Keys == need.Keys
  {
    forall i :: 0 <= i < |s| ==> IsLeastReady(need, order, Elements(s[..i]), s[i])
  }

  ghost predicate IsLeastReady(need: map<Id, set<Id>>, order: map<Id, int>, done: set<Id>, v: Id)
    requires order.Keys == need.Keys
  {
    v in Ready(need, done) && forall w :: w in Ready(need, done) ==> w == v || Before(order, v, w)
  }

  lemma TopologicalNoDup(need: map<Id, set<Id>>, s: seq<Id>)
    requires forall i :: 0 <= i < |s| ==> s[i] in Ready(need, Elements(s[..i]))
    ensures NoDup(s)
  {
    forall i, j | 0 <= i < j < |s| ensures s[i] != s[j] {
      assert s[i] in s[..j] by { assert s[..j][i] == s[i]; }
      assert s[j] !in Elements(s[..j]);
    }
  }

  ghost function Index<T>(s: seq<T>, x: T): (i: nat)
    requires x in s
    ensures i < |s| && s[i] == x
  {
    if s[0] == x then 0 else 1 + Index(s[1..], x)
  }

  lemma {:induction false} PathDescends(need: map<Id, set<Id>>, s: seq<Id>, p: seq<Id>, i: nat)
    requires Closed(need) && IsTopological(need, s) && IsPath(need, p) && i < |p| && p[0] in need
    ensures p[i] in s && p[0] in s && Index(s, p[i]) <= Index(s, p[0]) - i
  {
    assert p[0] in Elements(s);
    if i > 0 {
      PathDescends(need, s, p, i - 1);
      var k := Index(s, p[i - 1]);
      assert Edge(need, p[i - 1], p[i]);
      assert s[k] in Ready(need, Elements(s[..k]));
      assert p[i] in Elements(s[..k]);
      var j := Index(s[..k], p[i]);
      assert s[j] == p[i];
      TopologicalNoDup(need, s);
      assert Index(s, p[i]) == j;
    }
  }

  lemma TopologicalImpliesAcyclic(need: map<Id, set<Id>>, s: seq<Id>)
    requires Closed(need) && IsTopological(need, s)
    ensures !Cyclic(need)
  {
    forall v ensures !Reaches(need, v, v) {
      forall p | IsPath(need, p) && |p| >= 2 && p[0] == v ensures p[|p| - 1] != v {
        assert Edge(need, p[0], p[1]);
        PathDescends(need, s, p, |p| - 1);
      }
    }
  }

  lemma PathSuffix(deps: map<Id, set<Id>>, p: seq<Id>, i: nat)
    requires IsPath(deps, p) && i < |p|
    ensures IsPath(deps, p[i..])
  {
    forall k | 0 < k < |p[i..]| ensures Edge(deps, p[i..][k - 1], p[i..][k]) {
      assert Edge(deps, p[i + k - 1], p[i + k]);
    }
  }

  lemma PathSnoc(deps: map<Id, set<Id>>, p: seq<Id>, v: Id)
    requires IsPath(deps, p) && Edge(deps, p[|p| - 1], v)
    ensures IsPath(deps, p + [v])
  {
    var q := p + [v];
    forall k | 0 < k < |q| ensures Edge(deps, q[k - 1], q[k]) {
      if k < |p| { assert Edge(deps, p[k - 1], p[k]); }
    }
  }

  lemma ClosedWalkReaches(deps: map<Id, set<Id>>, p: seq<Id>, v: Id)
    requires IsPath(deps, p) && Edge(deps, p[|p| - 1], v) && v in p
    ensures Reaches(deps, v, v)
  {
    PathSnoc(deps, p, v);
    var i := Index(p, v);
    PathSuffix(deps, p + [v], i);
    var c := (p + [v])[i..];
    assert c[0] == v && c[|c| - 1] == v && |c| >= 2;
  }

  /** If every vertex of a nonempty finite set still needs a vertex of the set, walking
      those needs must revisit a vertex: the pigeonhole step of Kahn's algorithm. */
  lemma {:induction false} StuckSetHasCycle(need: map<Id, set<Id>>, stuck: set<Id>, p: seq<Id>)
    requires stuck <= need.Keys && forall v :: v in stuck ==> need[v] * stuck != {}
    requires IsPath(need, p) && NoDup(p) && Elements(p) <= stuck
    ensures Cyclic(need)
    decreases |stuck| - |p|
  {
    var u := p[|p| - 1];
    assert u in Elements(p);
    var v :| v in need[u] * stuck;
    assert Edge(need, u, v);
    if v in p {
      ClosedWalkReaches(need, p, v);
    } else {
      PathSnoc(need, p, v);
      ElementsSnoc(p, v);
      NoDupCardinality(p + [v]);
      SubsetCardinality(Elements(p + [v]), stuck);
      StuckSetHasCycle(need, stuck, p + [v]);
    }
  }

  lemma StuckImpliesCyclic(need: map<Id, set<Id>>, done: set<Id>)
    requires Closed(need) && Ready(need, done) == {} && !(need.Keys <= done)
    ensures Cyclic(need)
  {
    var stuck := need.Keys - done;
    var v :| v in need.Keys && v !in done;
    forall w | w in stuck ensures need[w] * stuck != {} {
      assert w !in Ready(need, done);
      assert !(need[w] <= done);
      var x :| x in need[w] && x !in done;
      assert x in need[w] * stuck;
    }
    assert IsPath(need, [v]);
    StuckSetHasCycle(need, stuck, [v]);
  }

  lemma BeforeIrreflexive(order: map<Id, int>, v: Id, w: Id)
    requires v in order && w in order && Before(order, v, w)
    ensures v != w
  {
    var a, b := Item(v, order[v]), Item(w, order[w]);
    LessIsStrictTotalOrder(a, b, a);
  }

  lemma LeastReadyFirst(need: map<Id, set<Id>>, order: map<Id, int>, done: set<Id>, v: Id, w: Id)
    requires order.Keys == need.Keys && IsLeastReady(need, order, done, v) && w in Ready(need, done)
    ensures w == v || Before(order, v, w)
    ensures IsLeastReady(need, order, done, w) ==> w == v
  {
    var a, b := Item(v, order[v]), Item(w, order[w]);
    LessIsStrictTotalOrder(a, b, a);
  }

  /** The greedy schedule is lexicographically least by (Order, ID) among all topological
      orders: at the first difference it holds the smaller item. */
  lemma {:induction false} GreedyIsLexLeast(need: map<Id, set<Id>>, order: map<Id, int>, s: seq<Id>, t: seq<Id>, n: nat)
      returns (i: nat)
    requires order.Keys == need.Keys
    requires IsTopological(need, s) && IsGreedy(need, order, s) && IsTopological(need, t)
    requires n <= |s| == |t| && s[..n] == t[..n]
    ensures n <= i <= |s| && s[..i] == t[..i]
    ensures i < |s| ==> Before(order, s[i], t[i])
    decreases |s| - n
  {
    if n == |s| {
      i := n;
    } else if s[n] == t[n] {
      PrefixSnoc(s, n);
      PrefixSnoc(t, n);
      i := GreedyIsLexLeast(need, order, s, t, n + 1);
    } else {
      i := n;
      LeastReadyFirst(need, order, Elements(s[..n]), s[n], t[n]);
    }
  }

  /** Lexicographic comparison of two listings by (Order, ID). */
  ghost predicate LexLess(order: map<Id, int>, s: seq<Id>, t: seq<Id>)
    requires Elements(s) <= order.Keys && Elements(t) <= order.Keys
  {
    exists i :: 0 <= i < |s| && i < |t| && s[..i] == t[..i]
      && s[i] in Elements(s) && t[i] in Elements(t) && Before(order, s[i], t[i])
  }

  /** The greedy order precedes every other topological order, so it is a function of the
      graph alone: no choice made while iterating over maps can show in it. */
  lemma GreedyLeastAndUnique(need: map<Id, set<Id>>, order: map<Id, int>, s: seq<Id>, t: seq<Id>)
    requires order.Keys == need.Keys
    requires IsTopological(need, s) && IsGreedy(need, order, s) && IsTopological(need, t)
    ensures s == t || LexLess(order, s, t)
    ensures IsGreedy(need, order, t) ==> s == t
  {
    TopologicalNoDup(need, s);
    TopologicalNoDup(need, t);
    SameElementsSameLength(s, t);
    var i := GreedyIsLexLeast(need, order, s, t, 0);
    if i < |s| {
      assert s[i] in Elements(s) && t[i] in Elements(t);
      assert LexLess(order, s, t);
      LeastReadyFirst(need, order, Elements(s[..i]), s[i], t[i]);
      BeforeIrreflexive(order, s[i], t[i]);
    } else {
      assert s[..i] == s && t[..i] == t;
    }
  }

  /** In the greedy order, whatever else is ready comes later in Order or, if equal there, by name. */
  lemma GreedyTakesSmallest(need: map<Id, set<Id>>, order: map<Id, int>, s: seq<Id>, i: nat, w: Id)
    requires order.Keys == need.Keys && IsGreedy(need, order, s) && i < |s|
    requires w in need && w !in s[..i] && need[w] <= Elements(s[..i])
    ensures w == s[i] || EarlierBy(order, s[i], w)
  {
    assert IsLeastReady(need, order, Elements(s[..i]), s[i]);
    assert w in Ready(need, Elements(s[..i]));
    if w != s[i] { BeforeIff(order, s[i], w); }
  }

  /** An order that respects the dependencies and is already sorted by Order is the greedy one, so
      sorting returns it unchanged. */
  lemma SortedIsUnchanged(need: map<Id, set<Id>>, order: map<Id, int>, s: seq<Id>, t: seq<Id>)
    requires order.Keys == need.Keys && IsTopological(need, s)
    requires forall i, j :: 0 <= i < j < |s| ==> s[i] in order && s[j] in order && EarlierBy(order, s[i], s[j])
    requires IsTopological(need, t) && IsGreedy(need, order, t)
    ensures t == s
  {
    forall i | 0 <= i < |s| ensures IsLeastReady(need, order, Elements(s[..i]), s[i]) {
      SortedTakesLeast(need, order, s, i);
    }
    GreedyLeastAndUnique(need, order, s, t);
  }

  lemma SortedTakesLeast(need: map<Id, set<Id>>, order: map<Id, int>, s: seq<Id>, i: nat)
    requires order.Keys == need.Keys && IsTopological(need, s) && i < |s|
    requires forall i, j :: 0 <= i < j < |s| ==> s[i] in order && s[j] in order && EarlierBy(order, s[i], s[j])
    ensures IsLeastReady(need, order, Elements(s[..i]), s[i])
  {
    assert s[i] in Ready(need, Elements(s[..i]));
    assert forall m :: 0 <= m < i ==> s[..i][m] == s[m];
    forall w | w in Ready(need, Elements(s[..i])) && w != s[i] ensures Before(order, s[i], w) {
      assert w in Elements(s);
      var j :| 0 <= j < |s| && s[j] == w;
      BeforeIff(order, s[i], w);
    }
  }

  /* ---------- reversed edges and layers ---------- */

  /** For each vertex the vertices that depend on it. */
  ghost function Dependents(deps: map<Id, set<Id>>): (r: map<Id, set<Id>>)
    ensures r.Keys == deps.Keys && Closed(r)
    ensures forall v, w :: v in r ==> (w in r[v] <==> w in deps && v in deps[w])
  {
    map v | v in deps :: (set w | w in deps && v in deps[w])
  }

  function Reverse<T>(s: seq<T>): (r: seq<T>)
    ensures |r| == |s| && forall i :: 0 <= i < |s| ==> r[i] == s[|s| - 1 - i]
  {
    seq(|s|, i requires 0 <= i < |s| => s[|s| - 1 - i])
  }

  lemma DependentsCyclic(deps: map<Id, set<Id>>)
    requires Closed(deps)
    ensures Cyclic(Dependents(deps)) <==> Cyclic(deps)
  {
    var r := Dependents(deps);
    if v :| Reaches(deps, v, v) {
      var p :| IsPath(deps, p) && |p| >= 2 && p[0] == v && p[|p| - 1] == v;
      ReversePath(deps, r, p);
      assert Reaches(r, v, v);
    }
    if v :| Reaches(r, v, v) {
      var p :| IsPath(r, p) && |p| >= 2 && p[0] == v && p[|p| - 1] == v;
      ReversePath(r, deps, p);
      assert Reaches(deps, v, v);
    }
  }

  lemma ReversePath(a: map<Id, set<Id>>, b: map<Id, set<Id>>, p: seq<Id>)
    requires IsPath(a, p)
    requires forall v, w :: Edge(a, v, w) ==> Edge(b, w, v)
    ensures IsPath(b, Reverse(p))
  {
    var q := Reverse(p);
    forall i | 0 < i < |q| ensures Edge(b, q[i - 1], q[i]) {
      var k := |p| - i;
      assert Edge(a, p[k - 1], p[k]);
      assert q[i - 1] == p[k] && q[i] == p[k - 1];
    }
  }

  ghost function Flatten(layers: seq<seq<Id>>): set<Id> {
    set i, v | 0 <= i < |layers| && v in layers[i] :: v
  }

  ghost predicate SortedBy(order: map<Id, int>, s: seq<Id>)
    requires Elements(s) <= order.Keys
  {
    forall i, j :: 0 <= i < j < |s| ==> s[i] in Elements(s) && s[j] in Elements(s) && Before(order, s[i], s[j])
  }

  /** Layer i is exactly what becomes free of unscheduled dependents after layers 0..i-1,
      listed by (Order, ID). */
  ghost predicate IsLayering(g: Graph, layers: seq<seq<Id>>)
    requires WellFormed(g)
  {
    forall i :: 0 <= i < |layers| ==>
      layers[i] != [] &&
      Elements(layers[i]) == Ready(Dependents(g.deps), Flatten(layers[..i])) &&
      SortedBy(g.order, layers[i])
  }

  /** p is a chain of dependents that ends in v. */
  ghost predicate ChainAbove(deps: map<Id, set<Id>>, p: seq<Id>, v: Id) {
    IsPath(deps, p) && p[|p| - 1] == v
  }

  lemma FlattenPrefix(layers: seq<seq<Id>>, i: nat, v: Id)
    requires i <= |layers| && v in Flatten(layers[..i])
    ensures exists j :: 0 <= j < i && v in layers[j]
  {
    var j :| 0 <= j < |layers[..i]| && v in layers[..i][j];
    assert v in layers[j];
  }

  lemma FlattenMember(layers: seq<seq<Id>>, n: nat, i: nat, v: Id)
    requires i < n <= |layers| && v in layers[i]
    ensures v in Flatten(layers[..n])
  {
    assert v in layers[..n][i];
  }

  lemma FlattenSnoc(layers: seq<seq<Id>>, layer: seq<Id>)
    ensures Flatten(layers + [layer]) == Flatten(layers) + Elements(layer)
  {
    var all := layers + [layer];
    forall v | v in Flatten(layers) ensures v in Flatten(all) {
      var j :| 0 <= j < |layers| && v in layers[j];
      assert v in all[j];
    }
    forall v | v in layer ensures v in Flatten(all) {
      assert v in all[|layers|];
    }
  }

  lemma {:induction false} LongChainExists(g: Graph, layers: seq<seq<Id>>, i: nat, v: Id) returns (p: seq<Id>)
    requires WellFormed(g) && IsLayering(g, layers) && i < |layers| && v in layers[i]
    ensures ChainAbove(g.deps, p, v) && |p| == i + 1
  {
    if i == 0 {
      p := [v];
    } else {
      var r := Dependents(g.deps);
      assert v in Elements(layers[i]) && v in Ready(r, Flatten(layers[..i]));
      assert layers[..i] == layers[..i - 1] + [layers[i - 1]];
      FlattenSnoc(layers[..i - 1], layers[i - 1]);
      assert v !in Ready(r, Flatten(layers[..i - 1]));
      assert !(r[v] <= Flatten(layers[..i - 1]));
      var u :| u in r[v] && u !in Flatten(layers[..i - 1]);
      assert u in Elements(layers[i - 1]);
      var q := LongChainExists(g, layers, i - 1, u);
      assert Edge(g.deps, u, v);
      PathSnoc(g.deps, q, v);
      p := q + [v];
    }
  }

  lemma {:induction false} ChainBound(g: Graph, layers: seq<seq<Id>>, i: nat, v: Id, p: seq<Id>)
    requires WellFormed(g) && IsLayering(g, layers) && i < |layers| && v in layers[i]
    requires ChainAbove(g.deps, p, v)
    ensures |p| <= i + 1
    decreases |p|
  {
    var n := |p| - 1;
    if n > 0 {
      var u := p[n - 1];
      assert Edge(g.deps, u, v);
      assert v in Elements(layers[i]);
      assert u in Flatten(layers[..i]);
      FlattenPrefix(layers, i, u);
      var j :| 0 <= j < i && u in layers[j];
      forall k | 0 < k < |p[..n]| ensures Edge(g.deps, p[..n][k - 1], p[..n][k]) {
        assert Edge(g.deps, p[k - 1], p[k]);
      }
      ChainBound(g, layers, j, u, p[..n]);
    }
  }

  /** A vertex's layer is the length of the longest chain of dependents above it. */
  lemma LayerIsLongestChain(g: Graph, layers: seq<seq<Id>>, i: nat, v: Id)
    requires WellFormed(g) && IsLayering(g, layers) && i < |layers| && v in layers[i]
    ensures exists p :: ChainAbove(g.deps, p, v) && |p| - 1 == i
    ensures forall p :: ChainAbove(g.deps, p, v) ==> |p| - 1 <= i
  {
    var q := LongChainExists(g, layers, i, v);
    forall p | ChainAbove(g.deps, p, v) ensures |p| - 1 <= i {
      ChainBound(g, layers, i, v, p);
    }
  }

  /** Layers are disjoint, and a dependency lies in a strictly later layer than its dependent. */
  lemma LayersOrderEdges(g: Graph, layers: seq<seq<Id>>, i: nat, v: Id, j: nat, d: Id)
    requires WellFormed(g) && IsLayering(g, layers)
    requires i < |layers| && v in layers[i] && j < |layers| && d in layers[j]
    ensures v == d ==> i == j
    ensures v in g.deps && (d in g.deps[v] ==> i < j)
  {
    assert v in Elements(layers[i]) && d in Elements(layers[j]);
    if i < j { FlattenMember(layers, j, i, v); }
    if j < i { FlattenMember(layers, i, j, d); }
    if d in g.deps[v] {
      assert v in Dependents(g.deps)[d];
      assert v in Flatten(layers[..j]);
      FlattenPrefix(layers, j, v);
      var k :| 0 <= k < j && v in layers[k];
      if k < i { FlattenMember(layers, i, k, v); }
    }
  }

  /* ---------- adding edges ---------- */

  /** The edges after `from` is also made to depend on `more`. */
  ghost function WithDeps(deps: map<Id, set<Id>>, from: Id, more: set<Id>): map<Id, set<Id>>
    requires from in deps
  {
    deps[from := deps[from] + more]
  }

  lemma PathPrefix(deps: map<Id, set<Id>>, p: seq<Id>, n: nat)
    requires IsPath(deps, p) && 0 < n <= |p|
    ensures IsPath(deps, p[..n])
  {
    forall k | 0 < k < |p[..n]| ensures Edge(deps, p[..n][k - 1], p[..n][k]) {
      assert Edge(deps, p[k - 1], p[k]);
    }
  }

  /** A path that uses a new edge passes through `from` and then through an added dependency:
      what follows the last visit of `from` can be cut off. */
  lemma {:induction false} NewPathUsesFrom(deps: map<Id, set<Id>>, from: Id, more: set<Id>, p: seq<Id>)
    requires from in deps && IsPath(WithDeps(deps, from, more), p)
    ensures IsPath(deps, p) || exists i :: 0 < i < |p| && p[i - 1] == from && p[i] in more && p[i] !in deps[from]
  {
    var grown := WithDeps(deps, from, more);
    if !IsPath(deps, p) {
      var i :| 0 < i < |p| && !Edge(deps, p[i - 1], p[i]);
      assert Edge(grown, p[i - 1], p[i]);
    }
  }

  lemma PathJoin(deps: map<Id, set<Id>>, p: seq<Id>, q: seq<Id>)
    requires IsPath(deps, p) && IsPath(deps, q) && p[|p| - 1] == q[0]
    ensures IsPath(deps, p + q[1..])
  {
    var r := p + q[1..];
    forall k | 0 < k < |r| ensures Edge(deps, r[k - 1], r[k]) {
      if k < |p| {
        assert Edge(deps, p[k - 1], p[k]);
      } else {
        assert Edge(deps, q[k - |p|], q[k - |p| + 1]);
      }
    }
  }

  lemma AddedPathClosesCycle(deps: map<Id, set<Id>>, from: Id, added: set<Id>, s: Id)
    requires from in deps && s in added && Reaches(WithDeps(deps, from, added), s, from)
    ensures Reaches(WithDeps(deps, from, added), from, from)
  {
    var grown := WithDeps(deps, from, added);
    var q :| IsPath(grown, q) && |q| >= 2 && q[0] == s && q[|q| - 1] == from;
    assert Edge(grown, from, s);
    assert IsPath(grown, [from]);
    PathSnoc(grown, [from], s);
    PathJoin(grown, [from, s], q);
    var c := [from, s] + q[1..];
    assert c[0] == from && c[|c| - 1] == from;
  }

  /** Rotates a closed walk so that it starts at position i. */
  lemma RotateWalk(deps: map<Id, set<Id>>, p: seq<Id>, i: nat)
    requires IsPath(deps, p) && |p| >= 2 && p[0] == p[|p| - 1] && 0 < i < |p| && p[i] != p[i - 1]
    ensures Reaches(deps, p[i], p[i - 1])
  {
    PathSuffix(deps, p, i);
    PathPrefix(deps, p, i);
    PathJoin(deps, p[i..], p[..i]);
    var r := p[i..] + p[..i][1..];
    assert r[0] == p[i];
    assert r[|r| - 1] == p[i - 1];
  }

  lemma NewCycleStartsAtAdded(deps: map<Id, set<Id>>, from: Id, added: set<Id>)
    requires from in deps && from !in added && Cyclic(WithDeps(deps, from, added))
    ensures Cyclic(deps) || exists s :: s in added && s !in deps[from] && Reaches(WithDeps(deps, from, added), s, from)
  {
    var grown := WithDeps(deps, from, added);
    var v :| Reaches(grown, v, v);
    var p :| IsPath(grown, p) && |p| >= 2 && p[0] == v && p[|p| - 1] == v;
    NewPathUsesFrom(deps, from, added, p);
    if IsPath(deps, p) {
      assert Reaches(deps, v, v);
    } else {
      var i :| 0 < i < |p| && p[i - 1] == from && p[i] in added && p[i] !in deps[from];
      RotateWalk(grown, p, i);
    }
  }

  /** On an acyclic graph, new edges out of `from` make it cyclic exactly when `from` is
      reachable from one of the vertices it newly depends on. */
  lemma NewCycleIffReachable(deps: map<Id, set<Id>>, from: Id, added: set<Id>)
    requires from in deps && !Cyclic(deps) && from !in added
    ensures Cyclic(WithDeps(deps, from, added)) <==>
            exists s :: s in added && s !in deps[from] && Reaches(WithDeps(deps, from, added), s, from)
  {
    if s :| s in added && s !in deps[from] && Reaches(WithDeps(deps, from, added), s, from) {
      AddedPathClosesCycle(deps, from, added, s);
    }
    if Cyclic(WithDeps(deps, from, added)) {
      NewCycleStartsAtAdded(deps, from, added);
    }
  }

  /** A cycle of a subgraph is a cycle of the graph. */
  lemma SubgraphCyclic(small: map<Id, set<Id>>, big: map<Id, set<Id>>)
    requires forall v :: v in small ==> v in big && small[v] <= big[v]
    ensures Cyclic(small) ==> Cyclic(big)
  {
    if v :| Reaches(small, v, v) {
      var p :| IsPath(small, p) && |p| >= 2 && p[0] == v && p[|p| - 1] == v;
      forall i | 0 < i < |p| ensures Edge(big, p[i - 1], p[i]) {
        assert Edge(small, p[i - 1], p[i]);
      }
      assert Reaches(big, v, v);
    }
  }
}
