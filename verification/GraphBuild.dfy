/** Building the dependency graph of a resource set, and what its orders guarantee
    (pkg/graph/builder.go, pkg/graph/graph.go). */
module GraphBuild {

  import opened Collections
  import opened Digraph
  import opened Dag
  import opened References
  import opened GraphBuilder
  import opened ResourcePlan

  /* ---------- one node ---------- */

  method AddNodeDependencies(node: Node, deps: seq<Id>)
    modifies node
    ensures Elements(node.dependencies) == old(Elements(node.dependencies)) + Elements(deps)
  {
    for i := 0 to |deps|
      invariant Elements(node.dependencies) == old(Elements(node.dependencies)) + Elements(deps[..i])
    {
      PrefixSnoc(deps, i);
      node.dependencies := AddUnique(node.dependencies, deps[i]);
    }
    assert deps[..|deps|] == deps;
  }

  function Missing(names: seq<Id>, used: seq<Id>): (missing: seq<Id>)
    ensures missing == [] <==> forall n :: n in names ==> n in used
  {
    if names == [] then []
    else
      assert names == [names[0]] + names[1..];
      (if names[0] in used then [] else [names[0]]) + Missing(names[1..], used)
  }

  /** All of a node's expressions, in the order the builder inspects them. */
  method InspectNode(inspector: Inspector, node: Node, gate: bool, ghost done: set<Expression>) returns (r: ExtractResult)
    requires inspector.loopVars == {} && AllReferenced(inspector.known, done)
    modifies inspector, Exprs(node), set v | v in node.variables
    ensures inspector.loopVars == {} && AllReferenced(inspector.known, done)
    ensures r.Extracted? <==> NodeOk(inspector.known, gate, node)
    ensures r.Extracted? ==> Elements(r.deps) == NodeDeps(inspector.known, node)
                             && AllReferenced(inspector.known, done + Exprs(node))
    ensures r.Extracted? ==> forall v :: v in node.variables ==> Classified(inspector.known, v.expression, old(v.kind), v.kind)
  {
    ghost var known := inspector.known;
    TemplateMember(known, node.variables);
    ForEachMember(known, node.forEach);
    ConditionMember(known, node.includeWhen);
    var names := IteratorNames(node);
    ghost var done1 := done + TemplateExprs(node.variables);
    ghost var done2 := done1 + ForEachExprs(node.forEach);
    var template := ExtractTemplate(inspector, node, names, gate, Exprs(node), done);
    if !template.Extracted? {
      return template;
    }
    var missing := Missing(names, template.iterators);
    assert missing == [] <==> IteratorsUsed(known, node) by {
      assert forall n :: n in template.iterators <==> n in Elements(template.iterators);
    }
    if missing != [] {
      return UnusedIterators(missing);
    }
    var forEach := ExtractForEach(inspector, node, names, gate, Exprs(node), done1);
    if !forEach.Extracted? {
      return forEach;
    }
    var conditions := ExtractConditions(inspector, node, gate, Exprs(node), done2);
    if !conditions.Extracted? {
      return conditions;
    }
    assert done2 + ConditionExprs(node.includeWhen) == done + Exprs(node);
    ElementsConcat(template.deps, forEach.deps);
    ElementsConcat(template.deps + forEach.deps, conditions.deps);
    return Extracted(template.deps + forEach.deps + conditions.deps, []);
  }

  method ExtractNode(inspector: Inspector, node: Node, gate: bool, ghost exprs: set<Expression>,
                     ghost done: set<Expression>) returns (r: ExtractResult)
    requires exprs == Exprs(node) && node.dependencies == []
    requires inspector.loopVars == {} && AllReferenced(inspector.known, done)
    modifies inspector, node, exprs, set v | v in node.variables
    ensures inspector.loopVars == {} && AllReferenced(inspector.known, done)
    ensures r.Extracted? <==> NodeOk(inspector.known, gate, node)
    ensures r.Extracted? ==> Elements(node.dependencies) == NodeDeps(inspector.known, node)
                             && AllReferenced(inspector.known, done + exprs)
    ensures r.Extracted? ==> forall v :: v in node.variables ==> Classified(inspector.known, v.expression, old(v.kind), v.kind)
  {
    r := InspectNode(inspector, node, gate, done);
    if r.Extracted? {
      assert AllReferenced(inspector.known, done + exprs);
      AddNodeDependencies(node, r.deps);
    }
  }

  /* ---------- the graph of a resource set ---------- */

  datatype BuildResult =
    | Built(dag: DirectedAcyclicGraph)
    | DuplicateNode(id: Id)
    | BadNode(id: Id, reason: ExtractResult)
    | BadEdges(id: Id, why: AddResult)

  /** What the nodes ask for. */
  ghost function PlanOf(known: Known, gate: bool, nodes: seq<Node>): Plan {
    Plan(Ids(nodes), Positions(nodes),
         seq(|nodes|, i requires 0 <= i < |nodes| => NodeDeps(known, nodes[i])),
         seq(|nodes|, i requires 0 <= i < |nodes| => NodeOk(known, gate, nodes[i])))
  }

  function Ids(nodes: seq<Node>): seq<Id> {
    seq(|nodes|, i requires 0 <= i < |nodes| => nodes[i].id)
  }

  function Positions(nodes: seq<Node>): seq<int> {
    seq(|nodes|, i requires 0 <= i < |nodes| => nodes[i].index)
  }

  /** The reference graph: what every node's expressions refer to, with the order of declaration. */
  ghost function RefGraph(known: Known, nodes: seq<Node>): Graph {
    GraphTo(PlanOf(known, false, nodes), |nodes|)
  }

  /** The resource sets that have a dependency graph: distinct ids, acceptable expressions, every
      reference declared and none to the node itself, and no cycle of references. */
  ghost predicate Accepted(known: Known, gate: bool, nodes: seq<Node>) {
    && NoDup(Ids(nodes))
    && (forall j :: 0 <= j < |nodes| ==> NodeOk(known, gate, nodes[j]))
    && (forall j :: 0 <= j < |nodes| ==> Declared(Ids(nodes), nodes[j].id, NodeDeps(known, nodes[j])))
    && !Cyclic(RefGraph(known, nodes).deps)
  }

  lemma AcceptedIsAcceptance(known: Known, gate: bool, nodes: seq<Node>)
    ensures GraphTo(PlanOf(known, gate, nodes), |nodes|) == RefGraph(known, nodes)
    ensures Accepted(known, gate, nodes) <==> Acceptance(PlanOf(known, gate, nodes))
  {
    var p := PlanOf(known, gate, nodes);
    assert p.needs == PlanOf(known, false, nodes).needs;
    forall j | 0 <= j < |nodes|
      ensures p.oks[j] == NodeOk(known, gate, nodes[j])
      ensures Declared(p.ids, p.ids[j], p.needs[j]) == Declared(Ids(nodes), nodes[j].id, NodeDeps(known, nodes[j]))
    {
    }
  }

  method AddVertices(ids: seq<Id>, positions: seq<int>) returns (d: DirectedAcyclicGraph, duplicate: Option<Id>)
    requires |ids| == |positions|
    ensures fresh(d) && fresh(d.vertices.Values) && d.Valid()
    ensures duplicate.None? <==> NoDup(ids)
    ensures duplicate.None? ==> d.g == Vertices(ids, positions, |ids|)
  {
    d := new DirectedAcyclicGraph();
    for i := 0 to |ids|
      invariant fresh(d) && d.Valid()
      invariant forall k {:trigger d.vertices[k]} :: k in d.vertices ==> fresh(d.vertices[k])
      invariant NoDup(ids[..i]) && d.g == Vertices(ids, positions, i)
    {
      var ok := AddNext(d, ids, positions, i);
      if !ok {
        return d, Some(ids[i]);
      }
    }
    assert ids[..|ids|] == ids;
    return d, None;
  }

  method AddNext(d: DirectedAcyclicGraph, ids: seq<Id>, positions: seq<int>, i: nat) returns (ok: bool)
    requires i < |ids| == |positions| && NoDup(ids[..i])
    requires d.Valid() && d.g == Vertices(ids, positions, i)
    modifies d
    ensures d.Valid() && ok == (NoDup(ids[..i + 1])) && (!ok ==> !NoDup(ids))
    ensures ok ==> d.g == Vertices(ids, positions, i + 1)
    ensures forall k {:trigger d.vertices[k]} :: k in d.vertices ==>
              fresh(d.vertices[k]) || (k in old(d.vertices) && d.vertices[k] == old(d.vertices)[k])
  {
    VerticesFacts(ids, positions, i);
    NextVertex(ids, i);
    assert d.vertices.Keys == d.g.deps.Keys;
    ok := d.AddVertex(ids[i], positions[i]);
  }

  /** One node's edges, after its expressions were accepted. */
  method AddEdges(d: DirectedAcyclicGraph, k: nat, deps: seq<Id>, ghost p: Plan, id: Id) returns (added: AddResult)
    requires p.Proper() && k < |p.ids| && NoDup(p.ids) && id == p.ids[k]
    requires d.Valid() && d.g == GraphTo(p, k)
    requires Progress(p, k) && p.oks[k] && Elements(deps) == p.needs[k]
    modifies d`g, d.vertices.Values
    ensures d.Valid() && d.vertices == old(d.vertices)
    ensures if added.Added? then Progress(p, k + 1) && d.g == GraphTo(p, k + 1) else !Acceptance(p)
  {
    GraphKeys(p, k);
    GrownGraph(p, k);
    ghost var keys := GraphTo(p, k).deps.Keys;
    assert d.vertices.Keys == keys;
    added := d.AddDependencies(id, deps);
    FirstBadNone(keys, id, deps);
    NextEdges(p, k, deps, added.Added?);
  }

  /** Adding edges does not touch what the expressions recorded. */
  method AddEdgesOnly(d: DirectedAcyclicGraph, k: nat, deps: seq<Id>, ghost p: Plan, id: Id,
                      ghost known: Known, ghost covered: set<Expression>)
    returns (added: AddResult)
    requires AllReferenced(known, covered)
    requires p.Proper() && k < |p.ids| && NoDup(p.ids) && id == p.ids[k]
    requires d.Valid() && d.g == GraphTo(p, k)
    requires Progress(p, k) && p.oks[k] && Elements(deps) == p.needs[k]
    modifies d`g, d.vertices.Values
    ensures AllReferenced(known, covered)
    ensures d.Valid() && d.vertices == old(d.vertices)
    ensures if added.Added? then Progress(p, k + 1) && d.g == GraphTo(p, k + 1) else !Acceptance(p)
  {
    added := AddEdges(d, k, deps, p, id);
  }

  /** Entry k of the plan is what this node asks for; own are its expressions. */
  ghost predicate Matches(p: Plan, k: nat, known: Known, gate: bool, node: Node, own: set<Expression>)
    requires p.Proper() && k < |p.ids|
  {
    && p.ids[k] == node.id && p.needs[k] == NodeDeps(known, node) && p.oks[k] == NodeOk(known, gate, node)
    && own == Exprs(node)
  }

  /** One node: inspect its expressions, record its dependencies, connect it. */
  method ConnectNode(inspector: Inspector, d: DirectedAcyclicGraph, node: Node, k: nat, gate: bool, ghost p: Plan,
                     ghost exprs: set<Expression>, ghost done: set<Expression>)
    returns (r: BuildResult)
    requires p.Proper() && k < |p.ids| && NoDup(p.ids) && Matches(p, k, inspector.known, gate, node, exprs)
    requires inspector.loopVars == {} && node.dependencies == [] && AllReferenced(inspector.known, done)
    requires d.Valid() && Progress(p, k) && d.g == GraphTo(p, k)
    modifies inspector, node, exprs, set v | v in node.variables
    modifies d`g, d.vertices.Values
    ensures inspector.loopVars == {} && d.Valid() && d.vertices == old(d.vertices)
    ensures r.Built? ==> r.dag == d && Progress(p, k + 1) && d.g == GraphTo(p, k + 1)
    ensures r.Built? ==> Elements(node.dependencies) == p.needs[k] && AllReferenced(inspector.known, done + exprs)
    ensures !r.Built? ==> !Acceptance(p)
  {
    var x := ExtractNode(inspector, node, gate, exprs, done);
    if x.Extracted? {
      var added := AddEdgesOnly(d, k, node.dependencies, p, node.id, inspector.known, done + exprs);
      r := if added.Added? then Built(d) else BadEdges(node.id, added);
    } else {
      Rejected(p, k);
      r := BadNode(node.id, x);
    }
  }

  ghost function UnionTo(exprs: seq<set<Expression>>, k: nat): set<Expression>
    requires k <= |exprs|
  {
    if k == 0 then {} else UnionTo(exprs, k - 1) + exprs[k - 1]
  }

  /** The first k nodes list what they depend on, the others nothing yet. */
  ghost predicate Recorded(needs: seq<set<Id>>, nodes: seq<Node>, k: nat)
    requires |needs| == |nodes|
    reads nodes
  {
    forall j {:trigger nodes[j]} :: 0 <= j < |nodes| ==>
      if j < k then Elements(nodes[j].dependencies) == needs[j] else nodes[j].dependencies == []
  }

  /** Everything that building may update. */
  ghost predicate Footprint(p: Plan, known: Known, gate: bool, nodes: seq<Node>, exprs: seq<set<Expression>>, frame: set<object>) {
    && p.Proper() && |exprs| == |p.ids| == |nodes|
    && forall i {:trigger exprs[i]} :: 0 <= i < |nodes| ==> FootprintAt(p, i, known, gate, nodes[i], exprs[i], frame)
  }

  ghost predicate FootprintAt(p: Plan, i: nat, known: Known, gate: bool, node: Node, own: set<Expression>, frame: set<object>)
    requires p.Proper() && i < |p.ids|
  {
    Matches(p, i, known, gate, node, own) && node in frame && own <= frame && forall v :: v in node.variables ==> v in frame
  }

  /** The first k nodes have been inspected and connected, seen being their expressions. */
  ghost predicate Connected(inspector: Inspector, d: DirectedAcyclicGraph, nodes: seq<Node>, p: Plan, k: nat, seen: set<Expression>)
    requires p.Proper() && k <= |p.ids| == |nodes|
    reads inspector, d, d.vertices.Values, nodes, seen
  {
    && inspector.loopVars == {} && d.Valid() && Progress(p, k) && d.g == GraphTo(p, k)
    && Recorded(p.needs, nodes, k) && AllReferenced(inspector.known, seen)
  }

  /** The other nodes keep what they list. */
  method ConnectNext(inspector: Inspector, d: DirectedAcyclicGraph, nodes: seq<Node>, k: nat, gate: bool, ghost p: Plan,
                     ghost exprs: set<Expression>, ghost done: set<Expression>, ghost frame: set<object>)
    returns (r: BuildResult)
    requires p.Proper() && k < |p.ids| == |nodes| && NoDup(p.ids)
    requires FootprintAt(p, k, inspector.known, gate, nodes[k], exprs, frame)
    requires inspector in frame && d in frame && d.vertices.Values <= frame
    requires forall i, j :: 0 <= i < j < |nodes| ==> nodes[i] != nodes[j]
    requires Connected(inspector, d, nodes, p, k, done)
    modifies frame
    ensures d.vertices == old(d.vertices)
    ensures r.Built? ==> r.dag == d && Connected(inspector, d, nodes, p, k + 1, done + exprs)
    ensures !r.Built? ==> !Acceptance(p)
  {
    r := ConnectNode(inspector, d, nodes[k], k, gate, p, exprs, done);
    if r.Built? {
      forall j | 0 <= j < |nodes| && j != k ensures nodes[j].dependencies == old(nodes[j].dependencies) {
        assert nodes[j] != nodes[k];
      }
    }
  }

  method ConnectAll(inspector: Inspector, d: DirectedAcyclicGraph, nodes: seq<Node>, gate: bool, ghost p: Plan,
                    ghost exprs: seq<set<Expression>>, ghost frame: set<object>)
    returns (r: BuildResult)
    requires Footprint(p, inspector.known, gate, nodes, exprs, frame) && NoDup(p.ids)
    requires inspector in frame && d in frame && d.vertices.Values <= frame
    requires forall i, j :: 0 <= i < j < |nodes| ==> nodes[i] != nodes[j]
    requires Connected(inspector, d, nodes, p, 0, {})
    modifies frame
    ensures r.Built? ==> r.dag == d && Connected(inspector, d, nodes, p, |nodes|, UnionTo(exprs, |nodes|))
    ensures !r.Built? ==> !Acceptance(p)
  {
    r := Built(d);
    for i := 0 to |nodes|
      invariant d.vertices == old(d.vertices) && r == Built(d)
      invariant Connected(inspector, d, nodes, p, i, UnionTo(exprs, i))
    {
      assert FootprintAt(p, i, inspector.known, gate, nodes[i], exprs[i], frame);
      r := ConnectNext(inspector, d, nodes, i, gate, p, exprs[i], UnionTo(exprs, i), frame);
      if !r.Built? {
        return;
      }
    }
  }

  lemma DistinctNodes(nodes: seq<Node>)
    requires NoDup(Ids(nodes))
    ensures forall i, j :: 0 <= i < j < |nodes| ==> nodes[i] != nodes[j]
  {
    forall i, j | 0 <= i < j < |nodes| ensures nodes[i] != nodes[j] {
      assert Ids(nodes)[i] != Ids(nodes)[j];
    }
  }

  lemma WiderFootprint(p: Plan, known: Known, gate: bool, nodes: seq<Node>, exprs: seq<set<Expression>>,
                       frame: set<object>, wider: set<object>)
    requires Footprint(p, known, gate, nodes, exprs, frame) && frame <= wider
    ensures Footprint(p, known, gate, nodes, exprs, wider)
  {
    forall i | 0 <= i < |nodes| ensures FootprintAt(p, i, known, gate, nodes[i], exprs[i], wider) {
      assert FootprintAt(p, i, known, gate, nodes[i], exprs[i], frame);
    }
  }

  method BuildPlanned(inspector: Inspector, nodes: seq<Node>, gate: bool, ghost p: Plan,
                              ghost exprs: seq<set<Expression>>, ghost frame: set<object>)
    returns (r: BuildResult)
    requires inspector.loopVars == {} && inspector in frame
    requires p == PlanOf(inspector.known, gate, nodes) && Recorded(p.needs, nodes, 0)
    requires Footprint(p, inspector.known, gate, nodes, exprs, frame)
    modifies frame
    ensures r.Built? <==> Accepted(inspector.known, gate, nodes)
    ensures r.Built? ==> r.dag.Valid() && r.dag.g == RefGraph(inspector.known, nodes)
    ensures r.Built? ==> Recorded(p.needs, nodes, |nodes|)
    ensures r.Built? ==> AllReferenced(inspector.known, UnionTo(exprs, |nodes|))
  {
    AcceptedIsAcceptance(inspector.known, gate, nodes);
    var d, duplicate := AddVertices(Ids(nodes), Positions(nodes));
    if duplicate.Some? {
      r := DuplicateNode(duplicate.value);
    } else {
      DistinctNodes(nodes);
      NothingYet(p);
      ghost var wider := frame + {d} + d.vertices.Values;
      WiderFootprint(p, inspector.known, gate, nodes, exprs, frame, wider);
      r := ConnectAll(inspector, d, nodes, gate, p, exprs, wider);
    }
  }

  /** What inspecting a node may update: the node, its expressions and its variables. */
  ghost function Touched(node: Node): set<object> {
    {node} + Exprs(node) + set v | v in node.variables
  }

  ghost function AllTouched(nodes: seq<Node>): set<object> {
    if nodes == [] then {} else AllTouched(nodes[..|nodes| - 1]) + Touched(nodes[|nodes| - 1])
  }

  lemma {:induction false} TouchedIncluded(nodes: seq<Node>, i: nat)
    requires i < |nodes|
    ensures Touched(nodes[i]) <= AllTouched(nodes)
  {
    if i < |nodes| - 1 {
      TouchedIncluded(nodes[..|nodes| - 1], i);
    }
  }

  ghost function ExprSets(nodes: seq<Node>): seq<set<Expression>> {
    seq(|nodes|, i requires 0 <= i < |nodes| => Exprs(nodes[i]))
  }

  lemma FootprintOf(known: Known, gate: bool, nodes: seq<Node>, frame: set<object>)
    requires AllTouched(nodes) <= frame
    ensures Footprint(PlanOf(known, gate, nodes), known, gate, nodes, ExprSets(nodes), frame)
  {
    var p, exprs := PlanOf(known, gate, nodes), ExprSets(nodes);
    forall i | 0 <= i < |nodes| ensures FootprintAt(p, i, known, gate, nodes[i], exprs[i], frame) {
      TouchedIncluded(nodes, i);
    }
  }

  lemma {:induction false} UnionIncludes(exprs: seq<set<Expression>>, k: nat, j: nat)
    requires j < k <= |exprs|
    ensures exprs[j] <= UnionTo(exprs, k)
  {
    if j < k - 1 {
      UnionIncludes(exprs, k - 1, j);
    }
  }

  lemma EachReferenced(known: Known, nodes: seq<Node>, j: nat)
    requires j < |nodes| && AllReferenced(known, UnionTo(ExprSets(nodes), |nodes|))
    ensures AllReferenced(known, Exprs(nodes[j]))
  {
    UnionIncludes(ExprSets(nodes), |nodes|, j);
    assert ExprSets(nodes)[j] == Exprs(nodes[j]);
  }

  /** The map of nodes is visited in an arbitrary order, here the order of the sequence: a set of
      resources is built exactly when it is accepted, the graph is its reference graph, every node
      lists what it depends on, and every expression of a node records all that it refers to. */
  method BuildDependencyGraph(inspector: Inspector, nodes: seq<Node>, gate: bool) returns (r: BuildResult)
    requires inspector.loopVars == {} && forall j :: 0 <= j < |nodes| ==> nodes[j].dependencies == []
    modifies inspector, AllTouched(nodes)
    ensures r.Built? <==> Accepted(inspector.known, gate, nodes)
    ensures r.Built? ==> r.dag.Valid() && r.dag.g == RefGraph(inspector.known, nodes)
    ensures r.Built? ==> forall j :: 0 <= j < |nodes| ==> Elements(nodes[j].dependencies) == NodeDeps(inspector.known, nodes[j])
    ensures r.Built? ==> forall j :: 0 <= j < |nodes| ==> AllReferenced(inspector.known, Exprs(nodes[j]))
  {
    ghost var known, frame := inspector.known, AllTouched(nodes) + {inspector};
    ghost var p := PlanOf(known, gate, nodes);
    FootprintOf(known, gate, nodes, frame);
    r := BuildPlanned(inspector, nodes, gate, p, ExprSets(nodes), frame);
    if r.Built? {
      forall j | 0 <= j < |nodes| ensures AllReferenced(known, Exprs(nodes[j])) { EachReferenced(known, nodes, j); }
    }
  }
}
