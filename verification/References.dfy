/** Dependency extraction from a node's expressions (pkg/graph/builder.go): which identifiers each
    expression references and which of them are other nodes. */
module References {

  import opened Collections
  import opened Digraph
  import CelInspector
  import CelCalls

  type Inspector = CelInspector.Inspector
  type Report = CelInspector.Report
  type Known = CelInspector.Known

  const SCHEMA := Id("schema")
  const RUNTIME := Id("runtime")

  /** original is None for text that does not parse. */
  class Expression {
    const original: Option<CelInspector.Expr>
    var references: seq<Id>

    constructor (original: Option<CelInspector.Expr>)
      ensures this.original == original && references == []
    {
      this.original, references := original, [];
    }
  }

  datatype Path = MetadataName | MetadataNamespace | OtherPath

  datatype Kind = Static | Dynamic | Iteration {
    function Rank(): nat {
      if Static? then 0 else if Dynamic? then 1 else 2
    }
  }

  class TemplateVariable {
    const path: Path
    const expression: Expression
    var kind: Kind

    constructor (path: Path, expression: Expression)
      ensures this.path == path && this.expression == expression && kind == Static
    {
      this.path, this.expression, kind := path, expression, Static;
    }
  }

  datatype Dimension = Dimension(name: Id, expression: Expression)

  class Node {
    const id: Id
    const index: int
    const namespaced: bool
    const variables: seq<TemplateVariable>
    const forEach: seq<Dimension>
    const includeWhen: seq<Expression>
    var dependencies: seq<Id>

    constructor (id: Id, index: int, namespaced: bool, variables: seq<TemplateVariable>,
                 forEach: seq<Dimension>, includeWhen: seq<Expression>)
      ensures this.id == id && this.index == index && this.namespaced == namespaced && this.variables == variables
      ensures this.forEach == forEach && this.includeWhen == includeWhen && dependencies == []
    {
      this.id, this.index, this.namespaced, this.variables := id, index, namespaced, variables;
      this.forEach, this.includeWhen, dependencies := forEach, includeWhen, [];
    }
  }

  datatype ExtractResult =
    | Extracted(deps: seq<Id>, iterators: seq<Id>)
    | ParseError
    | OmitNotAllowed
    | RuntimeReserved
    | UnknownIdentifier(id: Id)
    | UnknownFunctions
    | UnusedIterators(missing: seq<Id>)
    | IteratorReference(name: Id)

  /* ---------- what an expression's inspection says ---------- */

  ghost function ReportOf(known: Known, e: Expression): Report {
    if e.original.Some? then CelInspector.Inspected(known, e.original.value, {}) else CelInspector.NOTHING
  }

  /** The other nodes an expression depends on. */
  ghost function DepsOf(known: Known, e: Expression): set<Id> {
    Elements(ReportOf(known, e).resources) - {SCHEMA}
  }

  ghost predicate Within(unknown: seq<Id>, iterators: seq<Id>) {
    forall u :: u in unknown ==> u in iterators
  }

  /** The expression calls omit(), and the environment has it. */
  ghost predicate UsesOmit(known: Known, e: CelInspector.Expr) {
    [CelInspector.OMIT] in known.functions && CelCalls.Calls(known.functions, e, CelInspector.OMIT)
  }

  /** Every function that the expression calls directly is one of the environment's. */
  ghost predicate FunctionsKnown(known: Known, e: CelInspector.Expr) {
    forall fn :: CelCalls.Calls(known.functions, e, fn) ==> [fn] in known.functions
  }

  /** An expression is accepted where these iterators are in scope. */
  ghost predicate Acceptable(known: Known, gate: bool, e: Expression, iterators: seq<Id>) {
    var report := ReportOf(known, e);
    && e.original.Some?
    && (UsesOmit(known, e.original.value) ==> gate)
    && RUNTIME !in report.resources
    && Within(report.unknown, iterators)
    && FunctionsKnown(known, e.original.value)
  }

  lemma CallsDecide(known: Known, e: CelInspector.Expr)
    ensures CelInspector.Inspected(known, e, {}).omit <==> UsesOmit(known, e)
    ensures CelInspector.Inspected(known, e, {}).unknownFunctions == [] <==> FunctionsKnown(known, e)
  {
    var unknown := CelInspector.Inspected(known, e, {}).unknownFunctions;
    CelCalls.OmitIff(known, e, {});
    forall fn ensures fn in unknown <==> CelCalls.Calls(known.functions, e, fn) && [fn] !in known.functions {
      CelCalls.UnknownFunctionsIff(known, e, {}, fn);
    }
    if unknown != [] {
      assert unknown[0] in unknown;
    }
  }

  /** What acceptance means for a well-scoped expression, in terms of its free identifiers and of the
      calls in it: each visible identifier is a declared one other than runtime, or an iterator. */
  lemma AcceptableIff(known: Known, gate: bool, e: Expression, iterators: seq<Id>)
    requires e.original.Some? && CelInspector.WellScoped(known, e.original.value)
    ensures var names := CelInspector.Visible(known, CelInspector.Free(known.functions, e.original.value), {});
            && (Acceptable(known, gate, e, iterators) <==>
                  && (forall n :: n in names ==> if n in known.resources then n != Id("runtime") else n in iterators)
                  && (UsesOmit(known, e.original.value) ==> gate)
                  && FunctionsKnown(known, e.original.value))
            && DepsOf(known, e) == names * known.resources - {Id("schema")}
            && Elements(ReportOf(known, e).unknown) == names - known.resources
  {
    var report := ReportOf(known, e);
    var names := CelInspector.Visible(known, CelInspector.Free(known.functions, e.original.value), {});
    CelInspector.ReportsAllNeeded(known, e.original.value, {});
    CelCalls.ReportSorted(known, e.original.value, {});
    assert Elements(report.resources) + Elements(report.unknown) == names;
    assert Elements(report.resources) == names * known.resources;
    assert forall u :: u in report.unknown <==> u in Elements(report.unknown);
    assert RUNTIME in report.resources <==> RUNTIME in Elements(report.resources);
  }

  /** Every identifier reported for the expression is among its references. */
  ghost predicate Referenced(known: Known, e: Expression)
    reads e
  {
    ReportOf(known, e).All() <= Elements(e.references)
  }

  function AddUnique(s: seq<Id>, x: Id): (r: seq<Id>)
    ensures Elements(r) == Elements(s) + {x}
    ensures s <= r
  {
    if x in s then s else s + [x]
  }

  method AddReferences(e: Expression, ids: seq<Id>)
    modifies e
    ensures old(e.references) <= e.references
    ensures Elements(e.references) == old(Elements(e.references)) + Elements(ids)
  {
    for i := 0 to |ids|
      invariant old(e.references) <= e.references
      invariant Elements(e.references) == old(Elements(e.references)) + Elements(ids[..i])
    {
      PrefixSnoc(ids, i);
      e.references := AddUnique(e.references, ids[i]);
    }
    assert ids[..|ids|] == ids;
  }

  method CollectDeps(resources: seq<Id>) returns (reserved: bool, deps: seq<Id>)
    ensures reserved == (RUNTIME in resources)
    ensures !reserved ==> Elements(deps) == Elements(resources) - {SCHEMA}
  {
    deps := [];
    for i := 0 to |resources|
      invariant RUNTIME !in resources[..i]
      invariant Elements(deps) == Elements(resources[..i]) - {SCHEMA}
    {
      var id := resources[i];
      PrefixSnoc(resources, i);
      if id == SCHEMA {
        continue;
      }
      if id == RUNTIME {
        return true, [];
      }
      deps := AddUnique(deps, id);
    }
    assert resources[..|resources|] == resources;
    return false, deps;
  }

  method ExtractDependencies(inspector: Inspector, e: Expression, iterators: seq<Id>, gate: bool)
    returns (r: ExtractResult)
    requires inspector.loopVars == {}
    modifies inspector, e
    ensures inspector.loopVars == {}
    ensures old(e.references) <= e.references
    ensures r.Extracted? <==> Acceptable(inspector.known, gate, e, iterators)
    ensures r.Extracted? ==> Elements(r.deps) == DepsOf(inspector.known, e)
                             && Elements(r.iterators) == Elements(ReportOf(inspector.known, e).unknown)
                             && Referenced(inspector.known, e)
    ensures old(Referenced(inspector.known, e)) ==> Referenced(inspector.known, e)
  {
    if e.original.None? {
      return ParseError;
    }
    var report := inspector.InspectExpr(e.original.value);
    CallsDecide(inspector.known, e.original.value);
    if !gate && report.omit {
      return OmitNotAllowed;
    }
    AddReferences(e, report.resources);
    var reserved, deps := CollectDeps(report.resources);
    if reserved {
      return RuntimeReserved;
    }
    var iters: seq<Id> := [];
    for i := 0 to |report.unknown|
      invariant inspector.loopVars == {}
      invariant old(e.references) <= e.references
      invariant forall u :: u in report.unknown[..i] ==> u in iterators
      invariant Elements(iters) == Elements(report.unknown[..i])
      invariant Elements(report.resources) + Elements(report.unknown[..i]) <= Elements(e.references)
    {
      var u := report.unknown[i];
      PrefixSnoc(report.unknown, i);
      if u in iterators {
        iters := AddUnique(iters, u);
        e.references := AddUnique(e.references, u);
      } else {
        assert u in report.unknown;
        return UnknownIdentifier(u);
      }
    }
    assert report.unknown[..|report.unknown|] == report.unknown;
    if |report.unknownFunctions| > 0 {
      return UnknownFunctions;
    }
    return Extracted(deps, iters);
  }

  ghost predicate AllReferenced(known: Known, es: set<Expression>)
    reads es
  {
    forall e {:trigger Referenced(known, e)} :: e in es ==> Referenced(known, e)
  }

  /** Extraction keeps what earlier extractions recorded: done only grows. */
  method ExtractNext(inspector: Inspector, e: Expression, iterators: seq<Id>, gate: bool, ghost done: set<Expression>)
    returns (r: ExtractResult)
    requires inspector.loopVars == {} && AllReferenced(inspector.known, done)
    modifies inspector, e
    ensures inspector.loopVars == {}
    ensures AllReferenced(inspector.known, done)
    ensures r.Extracted? ==> AllReferenced(inspector.known, done + {e})
    ensures r.Extracted? <==> Acceptable(inspector.known, gate, e, iterators)
    ensures r.Extracted? ==> Elements(r.deps) == DepsOf(inspector.known, e)
                             && Elements(r.iterators) == Elements(ReportOf(inspector.known, e).unknown)
  {
    r := ExtractDependencies(inspector, e, iterators, gate);
  }
}
