/** What the nodes of a resource set depend on (pkg/graph/builder.go): the dependencies of templates,
    forEach dimensions and conditions, and which nodes are accepted. */
module GraphBuilder {

  import opened Collections
  import opened Digraph
  import opened References

  /* ---------- what a node depends on ---------- */

  ghost function TemplateDeps(known: Known, vs: seq<TemplateVariable>): set<Id> {
    if vs == [] then {} else TemplateDeps(known, vs[..|vs| - 1]) + DepsOf(known, vs[|vs| - 1].expression)
  }

  ghost function ForEachDeps(known: Known, ds: seq<Dimension>): set<Id> {
    if ds == [] then {} else ForEachDeps(known, ds[..|ds| - 1]) + DepsOf(known, ds[|ds| - 1].expression)
  }

  ghost function ConditionDeps(known: Known, es: seq<Expression>): set<Id> {
    if es == [] then {} else ConditionDeps(known, es[..|es| - 1]) + DepsOf(known, es[|es| - 1])
  }

  ghost function NodeDeps(known: Known, node: Node): set<Id> {
    TemplateDeps(known, node.variables) + ForEachDeps(known, node.forEach) + ConditionDeps(known, node.includeWhen)
  }

  ghost function TemplateExprs(vs: seq<TemplateVariable>): set<Expression> {
    if vs == [] then {} else TemplateExprs(vs[..|vs| - 1]) + {vs[|vs| - 1].expression}
  }

  ghost function ForEachExprs(ds: seq<Dimension>): set<Expression> {
    if ds == [] then {} else ForEachExprs(ds[..|ds| - 1]) + {ds[|ds| - 1].expression}
  }

  ghost function ConditionExprs(es: seq<Expression>): set<Expression> {
    if es == [] then {} else ConditionExprs(es[..|es| - 1]) + {es[|es| - 1]}
  }

  /** The expressions that decide a node's edges. */
  ghost function Exprs(node: Node): set<Expression> {
    TemplateExprs(node.variables) + ForEachExprs(node.forEach) + ConditionExprs(node.includeWhen)
  }

  lemma {:induction false} TemplateMember(known: Known, vs: seq<TemplateVariable>)
    ensures forall v :: v in vs ==> v.expression in TemplateExprs(vs)
    ensures forall e :: e in TemplateExprs(vs) ==> DepsOf(known, e) <= TemplateDeps(known, vs)
  {
    if vs != [] {
      TemplateMember(known, vs[..|vs| - 1]);
      assert vs == vs[..|vs| - 1] + [vs[|vs| - 1]];
    }
  }

  lemma {:induction false} ForEachMember(known: Known, ds: seq<Dimension>)
    ensures forall d :: d in ds ==> d.expression in ForEachExprs(ds)
    ensures forall e :: e in ForEachExprs(ds) ==> DepsOf(known, e) <= ForEachDeps(known, ds)
  {
    if ds != [] {
      ForEachMember(known, ds[..|ds| - 1]);
      assert ds == ds[..|ds| - 1] + [ds[|ds| - 1]];
    }
  }

  lemma {:induction false} ConditionMember(known: Known, es: seq<Expression>)
    ensures forall e :: e in es ==> e in ConditionExprs(es)
    ensures forall e :: e in ConditionExprs(es) ==> DepsOf(known, e) <= ConditionDeps(known, es)
  {
    if es != [] {
      ConditionMember(known, es[..|es| - 1]);
      assert es == es[..|es| - 1] + [es[|es| - 1]];
    }
  }

  /** Every node an expression depends on is a dependency of the node that carries it. */
  lemma ExprDepsMember(known: Known, node: Node, e: Expression)
    requires e in Exprs(node)
    ensures DepsOf(known, e) <= NodeDeps(known, node)
  {
    TemplateMember(known, node.variables);
    ForEachMember(known, node.forEach);
    ConditionMember(known, node.includeWhen);
  }

  /* ---------- which nodes are accepted ---------- */

  function IteratorNames(node: Node): seq<Id> {
    seq(|node.forEach|, i requires 0 <= i < |node.forEach| => node.forEach[i].name)
  }

  /** The fields that make a resource's identity. */
  predicate InIdentity(node: Node, v: TemplateVariable) {
    v.path.MetadataName? || (v.path.MetadataNamespace? && node.namespaced)
  }

  /** The iterators that a field of the resource's identity mentions. */
  ghost function IdentityOf(known: Known, node: Node, v: TemplateVariable): set<Id> {
    if InIdentity(node, v) then Elements(ReportOf(known, v.expression).unknown) else {}
  }

  ghost function IdentityIterators(known: Known, node: Node, vs: seq<TemplateVariable>): set<Id> {
    if vs == [] then {} else IdentityIterators(known, node, vs[..|vs| - 1]) + IdentityOf(known, node, vs[|vs| - 1])
  }

  ghost predicate TemplateOk(known: Known, gate: bool, vs: seq<TemplateVariable>, names: seq<Id>) {
    vs == [] || (TemplateOk(known, gate, vs[..|vs| - 1], names) && Acceptable(known, gate, vs[|vs| - 1].expression, names))
  }

  /** Every forEach dimension is used to tell the expanded resources apart. */
  ghost predicate IteratorsUsed(known: Known, node: Node) {
    forall n :: n in IteratorNames(node) ==> n in IdentityIterators(known, node, node.variables)
  }

  /** The iterators that name, or for a namespaced resource namespace, mentions. */
  lemma {:induction false} IdentityMeans(known: Known, node: Node, vs: seq<TemplateVariable>, n: Id)
    ensures n in IdentityIterators(known, node, vs) <==>
              exists v :: v in vs && n in ReportOf(known, v.expression).unknown
                          && (v.path == MetadataName || (v.path == MetadataNamespace && node.namespaced))
  {
    if vs != [] {
      IdentityMeans(known, node, vs[..|vs| - 1], n);
      assert vs == vs[..|vs| - 1] + [vs[|vs| - 1]];
    }
  }

  /** A dimension may not refer to other dimensions. */
  ghost predicate ForEachOk(known: Known, gate: bool, ds: seq<Dimension>) {
    ds == [] || (ForEachOk(known, gate, ds[..|ds| - 1]) && Acceptable(known, gate, ds[|ds| - 1].expression, []))
  }

  ghost predicate ConditionsOk(known: Known, es: seq<Expression>) {
    es == [] || (ConditionsOk(known, es[..|es| - 1]) && Acceptable(known, false, es[|es| - 1], []))
  }

  ghost predicate NodeOk(known: Known, gate: bool, node: Node) {
    && TemplateOk(known, gate, node.variables, IteratorNames(node))
    && IteratorsUsed(known, node)
    && ForEachOk(known, gate, node.forEach)
    && ConditionsOk(known, node.includeWhen)
  }

  /** A node is acceptable when each of its expressions is: the template's with the node's iterators in
      scope, dimensions and conditions with none, and conditions without omit(). */
  lemma NodeOkIff(known: Known, gate: bool, node: Node)
    ensures NodeOk(known, gate, node) <==>
              && (forall v :: v in node.variables ==> Acceptable(known, gate, v.expression, IteratorNames(node)))
              && (forall d :: d in node.forEach ==> Acceptable(known, gate, d.expression, []))
              && (forall e :: e in node.includeWhen ==> Acceptable(known, false, e, []))
              && IteratorsUsed(known, node)
  {
    TemplateOkIff(known, gate, node.variables, IteratorNames(node));
    ForEachOkIff(known, gate, node.forEach);
    ConditionsOkIff(known, node.includeWhen);
  }

  lemma {:induction false} TemplateOkIff(known: Known, gate: bool, vs: seq<TemplateVariable>, names: seq<Id>)
    ensures TemplateOk(known, gate, vs, names) <==> forall v :: v in vs ==> Acceptable(known, gate, v.expression, names)
  {
    if vs != [] {
      TemplateOkIff(known, gate, vs[..|vs| - 1], names);
      assert vs == vs[..|vs| - 1] + [vs[|vs| - 1]];
    }
  }

  lemma {:induction false} ForEachOkIff(known: Known, gate: bool, ds: seq<Dimension>)
    ensures ForEachOk(known, gate, ds) <==> forall d :: d in ds ==> Acceptable(known, gate, d.expression, [])
  {
    if ds != [] {
      ForEachOkIff(known, gate, ds[..|ds| - 1]);
      assert ds == ds[..|ds| - 1] + [ds[|ds| - 1]];
    }
  }

  lemma {:induction false} ConditionsOkIff(known: Known, es: seq<Expression>)
    ensures ConditionsOk(known, es) <==> forall e :: e in es ==> Acceptable(known, false, e, [])
  {
    if es != [] {
      ConditionsOkIff(known, es[..|es| - 1]);
      assert es == es[..|es| - 1] + [es[|es| - 1]];
    }
  }

  /* ---------- extraction, node by node ---------- */

  /** A variable is never demoted; it iterates exactly when it refers to an iterator or did so
      before, and stays static exactly when it was and refers to no iterator and no other node. */
  ghost predicate Reclassified(before: Kind, after: Kind, iterators: set<Id>, deps: set<Id>) {
    && before.Rank() <= after.Rank()
    && (after.Iteration? <==> before.Iteration? || iterators != {})
    && (after.Static? <==> before.Static? && iterators == {} && deps == {})
  }

  /** What extraction makes of a variable's kind. */
  ghost predicate Classified(known: Known, e: Expression, before: Kind, after: Kind) {
    Reclassified(before, after, Elements(ReportOf(known, e).unknown), DepsOf(known, e))
  }

  /** Classifying again changes nothing. */
  lemma ClassifiedTwice(known: Known, e: Expression, before: Kind, mid: Kind, after: Kind)
    requires Classified(known, e, before, mid) && Classified(known, e, mid, after)
    ensures after == mid && Classified(known, e, before, after)
  {
  }

  method Classify(v: TemplateVariable, iterators: seq<Id>, deps: seq<Id>)
    modifies v
    ensures Reclassified(old(v.kind), v.kind, Elements(iterators), Elements(deps))
  {
    ElementsEmpty(iterators);
    ElementsEmpty(deps);
    if |iterators| > 0 {
      v.kind := Iteration;
    } else if |deps| > 0 && v.kind.Static? {
      v.kind := Dynamic;
    }
  }

  method Track(tracked: seq<Id>, iterators: seq<Id>) returns (r: seq<Id>)
    ensures Elements(r) == Elements(tracked) + Elements(iterators)
  {
    r := tracked;
    for i := 0 to |iterators|
      invariant Elements(r) == Elements(tracked) + Elements(iterators[..i])
    {
      PrefixSnoc(iterators, i);
      r := AddUnique(r, iterators[i]);
    }
    assert iterators[..|iterators|] == iterators;
  }

  lemma {:induction false} TemplateOkPrefix(known: Known, gate: bool, vs: seq<TemplateVariable>, names: seq<Id>, k: nat)
    requires k <= |vs| && TemplateOk(known, gate, vs, names)
    ensures TemplateOk(known, gate, vs[..k], names)
  {
    if k == |vs| {
      assert vs[..k] == vs;
    } else {
      TemplateOkPrefix(known, gate, vs[..|vs| - 1], names, k);
      assert vs[..|vs| - 1][..k] == vs[..k];
    }
  }

  method ExtractVariable(inspector: Inspector, node: Node, v: TemplateVariable, names: seq<Id>, gate: bool,
                         used: seq<Id>, ghost done: set<Expression>)
    returns (r: ExtractResult)
    requires inspector.loopVars == {} && AllReferenced(inspector.known, done)
    modifies inspector, v.expression, v
    ensures inspector.loopVars == {} && AllReferenced(inspector.known, done)
    ensures r.Extracted? <==> Acceptable(inspector.known, gate, v.expression, names)
    ensures r.Extracted? ==> Elements(r.deps) == DepsOf(inspector.known, v.expression)
                             && Elements(r.iterators) == Elements(used) + IdentityOf(inspector.known, node, v)
                             && AllReferenced(inspector.known, done + {v.expression})
                             && Classified(inspector.known, v.expression, old(v.kind), v.kind)
  {
    r := ExtractNext(inspector, v.expression, names, gate, done);
    if r.Extracted? {
      var iterators := r.iterators;
      Classify(v, iterators, r.deps);
      r := r.(iterators := used);
      if v.path.MetadataName? {
        var tracked := Track(used, iterators);
        r := r.(iterators := tracked);
      } else if v.path.MetadataNamespace? {
        if node.namespaced {
          var tracked := Track(used, iterators);
          r := r.(iterators := tracked);
        }
      }
    }
  }

  ghost function KindsOf(vs: seq<TemplateVariable>): (r: map<TemplateVariable, Kind>)
    reads vs
    ensures r.Keys == Elements(vs) && forall v :: v in vs ==> r[v] == v.kind
  {
    map v: TemplateVariable | v in vs :: v.kind
  }

  /** The variables in `seen` have been classified, the others are as they were. */
  ghost predicate Kinds(known: Known, was: map<TemplateVariable, Kind>, seen: set<TemplateVariable>)
    reads was.Keys
  {
    forall v {:trigger was[v]} :: v in was ==>
      if v in seen then Classified(known, v.expression, was[v], v.kind) else v.kind == was[v]
  }

  method ExtractNextVariable(inspector: Inspector, node: Node, v: TemplateVariable, names: seq<Id>, gate: bool, used: seq<Id>,
                             ghost done: set<Expression>, ghost was: map<TemplateVariable, Kind>, ghost seen: set<TemplateVariable>)
    returns (r: ExtractResult)
    requires inspector.loopVars == {} && AllReferenced(inspector.known, done)
    requires v in was && Kinds(inspector.known, was, seen)
    modifies inspector, v.expression, v
    ensures inspector.loopVars == {} && AllReferenced(inspector.known, done)
    ensures r.Extracted? <==> Acceptable(inspector.known, gate, v.expression, names)
    ensures r.Extracted? ==> Elements(r.deps) == DepsOf(inspector.known, v.expression)
                             && Elements(r.iterators) == Elements(used) + IdentityOf(inspector.known, node, v)
                             && AllReferenced(inspector.known, done + {v.expression})
                             && Kinds(inspector.known, was, seen + {v})
  {
    ghost var mid := v.kind;
    r := ExtractVariable(inspector, node, v, names, gate, used, done);
    if r.Extracted? && v in seen {
      ClassifiedTwice(inspector.known, v.expression, was[v], mid, v.kind);
    }
  }

  method ExtractTemplate(inspector: Inspector, node: Node, names: seq<Id>, gate: bool,
                         ghost exprs: set<Expression>, ghost done: set<Expression>) returns (r: ExtractResult)
    requires inspector.loopVars == {} && AllReferenced(inspector.known, done)
    requires forall v :: v in node.variables ==> v.expression in exprs
    modifies inspector, exprs, set v | v in node.variables
    ensures inspector.loopVars == {} && AllReferenced(inspector.known, done)
    ensures r.Extracted? <==> TemplateOk(inspector.known, gate, node.variables, names)
    ensures r.Extracted? ==> Elements(r.deps) == TemplateDeps(inspector.known, node.variables)
                             && Elements(r.iterators) == IdentityIterators(inspector.known, node, node.variables)
                             && AllReferenced(inspector.known, done + TemplateExprs(node.variables))
    ensures r.Extracted? ==> forall v :: v in node.variables ==> Classified(inspector.known, v.expression, old(v.kind), v.kind)
  {
    var vs := node.variables;
    ghost var was := KindsOf(vs);
    r := Extracted([], []);
    for i := 0 to |vs|
      invariant inspector.loopVars == {} && TemplateTo(inspector.known, gate, node, names, i, r)
      invariant AllReferenced(inspector.known, done)
      invariant AllReferenced(inspector.known, done + TemplateExprs(vs[..i]))
      invariant Kinds(inspector.known, was, Elements(vs[..i]))
    {
      var v := vs[i];
      assert v in vs;
      ghost var before := done + TemplateExprs(vs[..i]);
      var x := ExtractNextVariable(inspector, node, v, names, gate, r.iterators, before, was, Elements(vs[..i]));
      TemplateNext(inspector.known, gate, node, names, i, r, x, done);
      if !x.Extracted? {
        return x;
      }
      r := Extracted(r.deps + x.deps, x.iterators);
    }
    assert vs[..|vs|] == vs;
  }

  /** What the first i variables of a template add up to. */
  ghost predicate TemplateTo(known: Known, gate: bool, node: Node, names: seq<Id>, i: nat, r: ExtractResult)
    requires i <= |node.variables|
  {
    var vs := node.variables[..i];
    && r.Extracted? && TemplateOk(known, gate, vs, names)
    && Elements(r.deps) == TemplateDeps(known, vs) && Elements(r.iterators) == IdentityIterators(known, node, vs)
  }

  lemma TemplateNext(known: Known, gate: bool, node: Node, names: seq<Id>, i: nat, r: ExtractResult, x: ExtractResult,
                     done: set<Expression>)
    requires i < |node.variables| && TemplateTo(known, gate, node, names, i, r)
    requires var v := node.variables[i];
             (x.Extracted? <==> Acceptable(known, gate, v.expression, names))
             && (x.Extracted? ==> Elements(x.deps) == DepsOf(known, v.expression)
                                  && Elements(x.iterators) == Elements(r.iterators) + IdentityOf(known, node, v))
    ensures x.Extracted? ==> TemplateTo(known, gate, node, names, i + 1, Extracted(r.deps + x.deps, x.iterators))
    ensures !x.Extracted? ==> !TemplateOk(known, gate, node.variables, names)
    ensures done + TemplateExprs(node.variables[..i + 1]) == done + TemplateExprs(node.variables[..i]) + {node.variables[i].expression}
    ensures Elements(node.variables[..i + 1]) == Elements(node.variables[..i]) + {node.variables[i]}
  {
    var vs := node.variables;
    PrefixSnoc(vs, i);
    if x.Extracted? {
      ElementsConcat(r.deps, x.deps);
    } else if TemplateOk(known, gate, vs, names) {
      TemplateOkPrefix(known, gate, vs, names, i + 1);
    }
  }

  lemma {:induction false} ForEachOkPrefix(known: Known, gate: bool, ds: seq<Dimension>, k: nat)
    requires k <= |ds| && ForEachOk(known, gate, ds)
    ensures ForEachOk(known, gate, ds[..k])
  {
    if k == |ds| {
      assert ds[..k] == ds;
    } else {
      ForEachOkPrefix(known, gate, ds[..|ds| - 1], k);
      assert ds[..|ds| - 1][..k] == ds[..k];
    }
  }

  /** One dimension: accepted with the iterators in scope, and using none of them. */
  method ExtractDimension(inspector: Inspector, d: Dimension, names: seq<Id>, gate: bool, ghost done: set<Expression>)
    returns (r: ExtractResult)
    requires inspector.loopVars == {} && AllReferenced(inspector.known, done)
    modifies inspector, d.expression
    ensures inspector.loopVars == {} && AllReferenced(inspector.known, done)
    ensures r.Extracted? <==> Acceptable(inspector.known, gate, d.expression, [])
    ensures r.Extracted? ==> Elements(r.deps) == DepsOf(inspector.known, d.expression)
                             && AllReferenced(inspector.known, done + {d.expression})
  {
    r := ExtractNext(inspector, d.expression, names, gate, done);
    if r.Extracted? {
      ghost var unknown := ReportOf(inspector.known, d.expression).unknown;
      assert unknown != [] ==> unknown[0] in Elements(unknown);
      assert r.iterators != [] ==> r.iterators[0] in Elements(r.iterators);
      if |r.iterators| > 0 {
        return IteratorReference(d.name);
      }
    }
  }

  method ExtractForEach(inspector: Inspector, node: Node, names: seq<Id>, gate: bool,
                        ghost exprs: set<Expression>, ghost done: set<Expression>) returns (r: ExtractResult)
    requires inspector.loopVars == {} && AllReferenced(inspector.known, done)
    requires forall d :: d in node.forEach ==> d.expression in exprs
    modifies inspector, exprs
    ensures inspector.loopVars == {} && AllReferenced(inspector.known, done)
    ensures r.Extracted? <==> ForEachOk(inspector.known, gate, node.forEach)
    ensures r.Extracted? ==> Elements(r.deps) == ForEachDeps(inspector.known, node.forEach)
                             && AllReferenced(inspector.known, done + ForEachExprs(node.forEach))
  {
    var ds := node.forEach;
    r := Extracted([], []);
    for i := 0 to |ds|
      invariant inspector.loopVars == {} && r.Extracted?
      invariant AllReferenced(inspector.known, done)
      invariant AllReferenced(inspector.known, done + ForEachExprs(ds[..i]))
      invariant ForEachOk(inspector.known, gate, ds[..i])
      invariant Elements(r.deps) == ForEachDeps(inspector.known, ds[..i])
    {
      var d := ds[i];
      assert ds[..i + 1][..i] == ds[..i] && d in ds;
      ghost var before := done + ForEachExprs(ds[..i]);
      assert done + ForEachExprs(ds[..i + 1]) == before + {d.expression};
      var x := ExtractDimension(inspector, d, names, gate, before);
      if !x.Extracted? {
        if ForEachOk(inspector.known, gate, ds) {
          ForEachOkPrefix(inspector.known, gate, ds, i + 1);
        }
        return x;
      }
      ElementsConcat(r.deps, x.deps);
      r := Extracted(r.deps + x.deps, []);
    }
    assert ds[..|ds|] == ds;
  }

  lemma {:induction false} ConditionsOkPrefix(known: Known, es: seq<Expression>, k: nat)
    requires k <= |es| && ConditionsOk(known, es)
    ensures ConditionsOk(known, es[..k])
  {
    if k == |es| {
      assert es[..k] == es;
    } else {
      ConditionsOkPrefix(known, es[..|es| - 1], k);
      assert es[..|es| - 1][..k] == es[..k];
    }
  }

  /** One condition: omit() is refused whatever the feature gate says, and no iterator is in scope. */
  method ExtractCondition(inspector: Inspector, e: Expression, gate: bool, all: seq<Id>, ghost done: set<Expression>)
    returns (r: ExtractResult)
    requires inspector.loopVars == {} && AllReferenced(inspector.known, done)
    modifies inspector, e
    ensures inspector.loopVars == {} && AllReferenced(inspector.known, done)
    ensures r.Extracted? <==> Acceptable(inspector.known, false, e, [])
    ensures r.Extracted? ==> Elements(r.deps) == Elements(all) + DepsOf(inspector.known, e)
                             && AllReferenced(inspector.known, done + {e})
  {
    if e.original.None? {
      return ParseError;
    }
    var report := inspector.InspectExpr(e.original.value);
    CallsDecide(inspector.known, e.original.value);
    if report.omit {
      return OmitNotAllowed;
    }
    r := ExtractNext(inspector, e, [], gate, done);
    if r.Extracted? {
      var deps := Track(all, r.deps);
      r := Extracted(deps, []);
    }
  }

  method ExtractConditions(inspector: Inspector, node: Node, gate: bool,
                           ghost exprs: set<Expression>, ghost done: set<Expression>) returns (r: ExtractResult)
    requires inspector.loopVars == {} && AllReferenced(inspector.known, done)
    requires forall e :: e in node.includeWhen ==> e in exprs
    modifies inspector, exprs
    ensures inspector.loopVars == {} && AllReferenced(inspector.known, done)
    ensures r.Extracted? <==> ConditionsOk(inspector.known, node.includeWhen)
    ensures r.Extracted? ==> Elements(r.deps) == ConditionDeps(inspector.known, node.includeWhen)
                             && AllReferenced(inspector.known, done + ConditionExprs(node.includeWhen))
  {
    var es := node.includeWhen;
    r := Extracted([], []);
    for i := 0 to |es|
      invariant inspector.loopVars == {} && r.Extracted?
      invariant AllReferenced(inspector.known, done)
      invariant AllReferenced(inspector.known, done + ConditionExprs(es[..i]))
      invariant ConditionsOk(inspector.known, es[..i])
      invariant Elements(r.deps) == ConditionDeps(inspector.known, es[..i])
    {
      var e := es[i];
      assert es[..i + 1][..i] == es[..i] && e in es;
      ghost var before := done + ConditionExprs(es[..i]);
      assert done + ConditionExprs(es[..i + 1]) == before + {e};
      var x := ExtractCondition(inspector, e, gate, r.deps, before);
      if !x.Extracted? {
        if ConditionsOk(inspector.known, es) {
          ConditionsOkPrefix(inspector.known, es, i + 1);
        }
        return x;
      }
      r := x;
    }
    assert es[..|es|] == es;
  }
}
