/** Apply waves (pkg/graph/graph.go) and what the topological order guarantees to evaluation. */
module ApplyOrders {

  import opened Collections
  import opened Digraph
  import opened Dag
  import opened DagSort
  import DagOrder
  import CelInspector
  import CelEval
  import opened References
  import opened GraphBuilder
  import opened GraphBuild
  import opened ResourcePlan

  /* ---------- waves ---------- */

  /** The first layer gets the highest number, the last one 1. */
  ghost predicate OrdersFrom(layers: seq<seq<Id>>, orders: map<Id, int>) {
    NumberedTo(layers, |layers|, orders)
  }

  ghost predicate NumberedTo(layers: seq<seq<Id>>, n: nat, orders: map<Id, int>)
    requires n <= |layers|
  {
    && orders.Keys == Flatten(layers[..n])
    && forall i, v {:trigger v in layers[i]} :: 0 <= i < n && v in layers[i] ==> v in orders && orders[v] == |layers| - i
  }

  method Number(orders0: map<Id, int>, layer: seq<Id>, order: int) returns (orders: map<Id, int>)
    ensures orders.Keys == orders0.Keys + Elements(layer)
    ensures forall v :: v in orders ==> orders[v] == if v in layer then order else orders0[v]
  {
    orders := orders0;
    for j := 0 to |layer|
      invariant orders.Keys == orders0.Keys + Elements(layer[..j])
      invariant forall v :: v in orders ==> orders[v] == if v in layer[..j] then order else orders0[v]
    {
      PrefixSnoc(layer, j);
      orders := orders[layer[j] := order];
    }
    assert layer[..|layer|] == layer;
  }

  method ApplyOrdersForDAG(d: DirectedAcyclicGraph) returns (r: SortResult<map<Id, int>>, ghost layers: seq<seq<Id>>)
    requires d.Valid()
    ensures r.Sorted? == !Cyclic(d.g.deps)
    ensures r.Sorted? ==> IsLayering(d.g, layers) && Flatten(layers) == d.g.deps.Keys && OrdersFrom(layers, r.value)
  {
    var sorted := DagOrder.ReverseTopologicalLayers(d);
    if sorted.CycleError? {
      return CycleError(sorted.cycle), [];
    }
    var orders := NumberLayers(d.g, sorted.value);
    return Sorted(orders), sorted.value;
  }

  method NumberLayers(ghost g: Graph, layers: seq<seq<Id>>) returns (orders: map<Id, int>)
    requires WellFormed(g) && IsLayering(g, layers)
    ensures OrdersFrom(layers, orders)
  {
    orders := map[];
    for i := 0 to |layers|
      invariant NumberedTo(layers, i, orders)
    {
      NextLayer(g, layers, i);
      ghost var before := orders;
      orders := Number(orders, layers[i], |layers| - i);
      NumberedNext(layers, i, before, orders);
    }
  }

  lemma NumberedNext(layers: seq<seq<Id>>, i: nat, before: map<Id, int>, orders: map<Id, int>)
    requires i < |layers| && NumberedTo(layers, i, before)
    requires Flatten(layers[..i + 1]) == Flatten(layers[..i]) + Elements(layers[i])
    requires forall k, v {:trigger v in layers[k]} :: 0 <= k < i && v in layers[k] ==> v !in layers[i]
    requires orders.Keys == before.Keys + Elements(layers[i])
    requires forall v :: v in orders ==> orders[v] == if v in layers[i] then |layers| - i else before[v]
    ensures NumberedTo(layers, i + 1, orders)
  {
    forall k, v | 0 <= k < i + 1 && v in layers[k] ensures v in orders && orders[v] == |layers| - k {
      if k == i {
        assert v in Elements(layers[i]);
      }
    }
  }

  lemma NextLayer(g: Graph, ls: seq<seq<Id>>, i: nat)
    requires WellFormed(g) && IsLayering(g, ls) && i < |ls|
    ensures Flatten(ls[..i + 1]) == Flatten(ls[..i]) + Elements(ls[i])
    ensures forall k, v {:trigger v in ls[k]} :: 0 <= k < i && v in ls[k] ==> v !in ls[i]
  {
    assert ls[..i + 1] == ls[..i] + [ls[i]];
    FlattenSnoc(ls[..i], ls[i]);
    forall k, v | 0 <= k < i && v in ls[k] ensures v !in ls[i] {
      if v in ls[i] {
        LayersOrderEdges(g, ls, k, v, i, v);
      }
    }
  }

  ghost predicate Used(orders: map<Id, int>, n: int) {
    exists v :: v in orders && orders[v] == n
  }

  /** Every vertex has a wave from 1 to the number of layers, every wave is used, and a dependency's
      wave is strictly lower than that of everything that depends on it. */
  lemma OrdersFollowEdges(g: Graph, layers: seq<seq<Id>>, orders: map<Id, int>)
    requires WellFormed(g) && IsLayering(g, layers) && Flatten(layers) == g.deps.Keys && OrdersFrom(layers, orders)
    ensures orders.Keys == g.deps.Keys
    ensures forall v :: v in orders ==> 1 <= orders[v] <= |layers|
    ensures forall n :: 1 <= n <= |layers| ==> Used(orders, n)
    ensures forall v, d :: Edge(g.deps, v, d) ==> orders[d] < orders[v]
  {
    assert layers[..|layers|] == layers;
    forall v | v in orders ensures 1 <= orders[v] <= |layers| {
      var i :| 0 <= i < |layers| && v in layers[i];
    }
    forall n | 1 <= n <= |layers| ensures Used(orders, n) {
      var v := layers[|layers| - n][0];
      assert v in layers[|layers| - n];
    }
    forall v, d | Edge(g.deps, v, d) ensures orders[d] < orders[v] {
      EdgeLowers(g, layers, orders, v, d);
    }
  }

  lemma EdgeLowers(g: Graph, layers: seq<seq<Id>>, orders: map<Id, int>, v: Id, d: Id)
    requires WellFormed(g) && IsLayering(g, layers) && Flatten(layers) == g.deps.Keys && OrdersFrom(layers, orders)
    requires Edge(g.deps, v, d)
    ensures v in orders && d in orders && orders[d] < orders[v]
  {
    assert layers[..|layers|] == layers;
    assert v in Flatten(layers) && d in Flatten(layers);
    var i :| 0 <= i < |layers| && v in layers[i];
    var j :| 0 <= j < |layers| && d in layers[j];
    LayersOrderEdges(g, layers, i, v, j, d);
  }

  /** The wave of a vertex is the number of layers less the longest chain of dependents above it; so
      the top wave is exactly the vertices nothing depends on, isolated ones among them. */
  lemma OrderIsLongestChain(g: Graph, layers: seq<seq<Id>>, orders: map<Id, int>, v: Id)
    requires WellFormed(g) && IsLayering(g, layers) && Flatten(layers) == g.deps.Keys && OrdersFrom(layers, orders)
    requires v in g.deps
    ensures v in orders && 1 <= orders[v] <= |layers|
    ensures exists p :: ChainAbove(g.deps, p, v) && |p| - 1 == |layers| - orders[v]
    ensures forall p :: ChainAbove(g.deps, p, v) ==> |p| - 1 <= |layers| - orders[v]
    ensures orders[v] == |layers| <==> forall w :: w in g.deps ==> v !in g.deps[w]
  {
    assert layers[..|layers|] == layers;
    assert v in Flatten(layers);
    var i :| 0 <= i < |layers| && v in layers[i];
    LayerIsLongestChain(g, layers, i, v);
    if w :| w in g.deps && v in g.deps[w] {
      EdgeLowers(g, layers, orders, w, v);
    }
    if i > 0 {
      var p :| ChainAbove(g.deps, p, v) && |p| - 1 == i;
      assert Edge(g.deps, p[|p| - 2], p[|p| - 1]);
    }
  }

  /* ---------- evaluation order ---------- */

  /** In the topological order of an accepted resource set, every node comes after everything its
      template, forEach and includeWhen expressions refer to. */
  lemma EvaluationOrder(known: Known, gate: bool, nodes: seq<Node>, sorted: seq<Id>, i: nat, j: nat, e: Expression, x: Id)
    requires Accepted(known, gate, nodes) && IsTopological(RefGraph(known, nodes).deps, sorted)
    requires i < |nodes| && j < |sorted| && sorted[j] == nodes[i].id
    requires e in Exprs(nodes[i]) && x in ReportOf(known, e).resources && x != SCHEMA
    ensures x in sorted[..j]
  {
    ExprDepsMember(known, nodes[i], e);
    assert x in DepsOf(known, e);
    RefGraphAt(known, nodes, i);
    assert sorted[j] in Ready(RefGraph(known, nodes).deps, Elements(sorted[..j]));
  }

  lemma RefGraphAt(known: Known, nodes: seq<Node>, i: nat)
    requires NoDup(Ids(nodes)) && i < |nodes|
    ensures nodes[i].id in RefGraph(known, nodes).deps
    ensures RefGraph(known, nodes).deps[nodes[i].id] == NodeDeps(known, nodes[i])
  {
    GraphAt(PlanOf(known, false, nodes), |nodes|, i);
  }

  /** So when a node is evaluated in that order, its well-scoped expressions depend on nothing but the
      instance's schema, the node's own iterators and the nodes already placed. */
  lemma EvaluationNeedsOnlyEarlier<V>(sem: CelEval.Semantics<V>, known: Known, gate: bool, nodes: seq<Node>, sorted: seq<Id>,
                                      i: nat, j: nat, e: Expression, a: map<Id, V>, b: map<Id, V>)
    requires Accepted(known, gate, nodes) && IsTopological(RefGraph(known, nodes).deps, sorted)
    requires i < |nodes| && j < |sorted| && sorted[j] == nodes[i].id
    requires e in Exprs(nodes[i]) && e.original.Some? && CelInspector.WellScoped(known, e.original.value)
    requires CelEval.NoInternal(known, a) && CelEval.NoInternal(known, b)
    requires CelEval.Agree(a, b, {SCHEMA} + Elements(IteratorNames(nodes[i])) + Elements(sorted[..j]))
    ensures CelEval.Eval(sem, known.functions, a, e.original.value) == CelEval.Eval(sem, known.functions, b, e.original.value)
  {
    var available := {SCHEMA} + Elements(IteratorNames(nodes[i])) + Elements(sorted[..j]);
    UnknownAreIterators(known, gate, nodes[i], e);
    forall x | x in ReportOf(known, e).All() ensures x in available {
      if x in ReportOf(known, e).resources && x != SCHEMA {
        EvaluationOrder(known, gate, nodes, sorted, i, j, e, x);
      }
    }
    CelEval.ReportedNamesDecide(sem, known, e.original.value, a, b, available);
  }

  /** The contract of Expression.References: whatever the contexts hold besides the references that
      extraction recorded, a well-scoped expression evaluates the same. */
  lemma ReferencesSuffice<V>(sem: CelEval.Semantics<V>, known: Known, e: Expression, a: map<Id, V>, b: map<Id, V>)
    requires Referenced(known, e)
    requires e.original.Some? && CelInspector.WellScoped(known, e.original.value)
    requires CelEval.NoInternal(known, a) && CelEval.NoInternal(known, b)
    requires CelEval.Agree(a, b, Elements(e.references))
    ensures CelEval.Eval(sem, known.functions, a, e.original.value) == CelEval.Eval(sem, known.functions, b, e.original.value)
  {
    CelEval.ReportedNamesDecide(sem, known, e.original.value, a, b, Elements(e.references));
  }

  /** What a kind promises: a well-scoped variable that extraction left static depends on nothing but
      the instance's schema, and one that does not iterate on nothing but that and the nodes it refers to. */
  lemma KindBoundsNeeds<V>(sem: CelEval.Semantics<V>, known: Known, e: Expression, before: Kind, after: Kind,
                           a: map<Id, V>, b: map<Id, V>)
    requires Classified(known, e, before, after) && !after.Iteration?
    requires e.original.Some? && CelInspector.WellScoped(known, e.original.value)
    requires CelEval.NoInternal(known, a) && CelEval.NoInternal(known, b)
    requires CelEval.Agree(a, b, {SCHEMA} + if after.Static? then {} else DepsOf(known, e))
    ensures CelEval.Eval(sem, known.functions, a, e.original.value) == CelEval.Eval(sem, known.functions, b, e.original.value)
  {
    var available := {SCHEMA} + if after.Static? then {} else DepsOf(known, e);
    assert ReportOf(known, e).All() <= available;
    CelEval.ReportedNamesDecide(sem, known, e.original.value, a, b, available);
  }

  lemma UnknownAreIterators(known: Known, gate: bool, node: Node, e: Expression)
    requires NodeOk(known, gate, node) && e in Exprs(node)
    ensures forall u :: u in ReportOf(known, e).unknown ==> u in IteratorNames(node)
  {
    if e in TemplateExprs(node.variables) {
      TemplateUnknown(known, gate, node.variables, IteratorNames(node), e);
    } else if e in ForEachExprs(node.forEach) {
      ForEachUnknown(known, gate, node.forEach, e);
    } else {
      ConditionUnknown(known, node.includeWhen, e);
    }
  }

  lemma {:induction false} TemplateUnknown(known: Known, gate: bool, vs: seq<TemplateVariable>, names: seq<Id>, e: Expression)
    requires TemplateOk(known, gate, vs, names) && e in TemplateExprs(vs)
    ensures Acceptable(known, gate, e, names)
  {
    if e != vs[|vs| - 1].expression {
      TemplateUnknown(known, gate, vs[..|vs| - 1], names, e);
    }
  }

  lemma {:induction false} ForEachUnknown(known: Known, gate: bool, ds: seq<Dimension>, e: Expression)
    requires ForEachOk(known, gate, ds) && e in ForEachExprs(ds)
    ensures Acceptable(known, gate, e, [])
  {
    if e != ds[|ds| - 1].expression {
      ForEachUnknown(known, gate, ds[..|ds| - 1], e);
    }
  }

  lemma {:induction false} ConditionUnknown(known: Known, es: seq<Expression>, e: Expression)
    requires ConditionsOk(known, es) && e in ConditionExprs(es)
    ensures Acceptable(known, false, e, [])
  {
    if e != es[|es| - 1] {
      ConditionUnknown(known, es[..|es| - 1], e);
    }
  }
}
