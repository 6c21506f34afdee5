/** Free-identifier analysis of CEL expressions (pkg/cel/ast/inspector.go): a recursive walk that
    keeps the loop variables in scope in a mutable set, and the evaluation it must agree with. */
module CelInspector {

  import opened Collections
  import opened Digraph

  /** Parsed CEL. A comprehension binds its iteration variables in the condition and the step, and
      its accumulator also in the result; the range and the initial value see neither. */
  datatype Expr =
    | Literal(value: int)
    | Ident(name: Id)
    | Select(operand: Expr, field: Id)
    | Call(fn: Id, args: seq<Expr>)
    | MemberCall(target: Expr, fn: Id, args: seq<Expr>)
    | List(elems: seq<Expr>)
    | Struct(shape: Id, children: seq<Expr>)
    | Comp(iterVar: Id, iterVar2: Option<Id>, accuVar: Id,
           init: Expr, range: Expr, cond: Expr, step: Expr, result: Expr)

  /** A function name, split at its dots. */
  type QName = seq<Id>

  /** The declared resources and the functions of the environment. */
  datatype Known = Known(resources: set<Id>, functions: set<QName>)

  /** ExpressionInspection: identifiers in the order they are met; omit says whether omit() is called. */
  datatype Report = Report(resources: seq<Id>, unknown: seq<Id>, unknownFunctions: seq<Id>, omit: bool) {
    function Merge(other: Report): (r: Report)
      ensures r.All() == All() + other.All()
    {
      Report(resources + other.resources, unknown + other.unknown,
             unknownFunctions + other.unknownFunctions, omit || other.omit)
    }

    ghost function All(): set<Id> {
      Elements(resources) + Elements(unknown)
    }
  }

  const NOTHING := Report([], [], [], false)

  const OMIT := Id("omit")

  /** isInternalIdentifier */
  predicate IsInternal(name: Id) {
    name.name == "@result" || "$$" <= name.name || "@__" <= name.name
  }

  /** The qualified name that a chain of selections on an identifier spells. */
  function Qualified(e: Expr): Option<QName> {
    match e
    case Ident(name) => Some([name])
    case Select(operand, field) =>
      (match Qualified(operand)
       case Some(q) => Some(q + [field])
       case None => None)
    case _ => None
  }

  /** target.fn names a function of the environment, so the target is not an expression at all. */
  predicate IsNamespaced(functions: set<QName>, target: Expr, fn: Id) {
    match Qualified(target)
    case Some(q) => q + [fn] in functions
    case None => false
  }

  ghost function LoopVars(e: Expr): set<Id>
    requires e.Comp?
  {
    {e.iterVar, e.accuVar} + if e.iterVar2.Some? then {e.iterVar2.value} else {}
  }

  /* ---------- what the inspector reports ---------- */

  function InspectedIdent(known: Known, name: Id, bound: set<Id>): Report {
    if name in bound then NOTHING
    else if name in known.resources then NOTHING.(resources := [name])
    else if IsInternal(name) then NOTHING
    else NOTHING.(unknown := [name])
  }

  ghost function Inspected(known: Known, e: Expr, bound: set<Id>): Report {
    match e
    case Literal(_) => NOTHING
    case Ident(name) => InspectedIdent(known, name, bound)
    case Select(operand, _) => Inspected(known, operand, bound)
    case Call(fn, args) =>
      InspectedAll(known, args, bound).Merge(
        if [fn] in known.functions then NOTHING.(omit := fn == OMIT)
        else NOTHING.(unknownFunctions := [fn]))
    case MemberCall(target, fn, args) =>
      InspectedAll(known, args, bound).Merge(
        if IsNamespaced(known.functions, target, fn) then NOTHING else Inspected(known, target, bound))
    case List(elems) => InspectedAll(known, elems, bound)
    case Struct(_, children) => InspectedAll(known, children, bound)
    case Comp(_, _, _, init, range, cond, step, result) =>
      var inner := bound + LoopVars(e);
      Inspected(known, init, inner)
      .Merge(Inspected(known, range, inner))
      .Merge(Inspected(known, cond, inner))
      .Merge(Inspected(known, step, inner))
      .Merge(Inspected(known, result, inner))
  }

  ghost function InspectedAll(known: Known, es: seq<Expr>, bound: set<Id>): Report {
    if es == [] then NOTHING
    else InspectedAll(known, es[..|es| - 1], bound).Merge(Inspected(known, es[|es| - 1], bound))
  }

  /** The inspector: loopVars holds the variables of the comprehensions being walked. */
  class Inspector {
    const known: Known
    var loopVars: set<Id>

    constructor (resources: set<Id>, functions: set<QName>)
      ensures known == Known(resources, functions) && loopVars == {}
    {
      known, loopVars := Known(resources, functions), {};
    }

    method InspectExpr(e: Expr) returns (out: Report)
      modifies this
      ensures loopVars == old(loopVars)
      ensures out == Inspected(known, e, loopVars)
      decreases e, 2
    {
      match e
      case Literal(_) => out := NOTHING;
      case Ident(name) => out := InspectedIdent(known, name, loopVars);
      case Select(operand, _) => out := InspectExpr(operand);
      case Call(_, _) => out := InspectCall(e);
      case MemberCall(_, _, _) => out := InspectCall(e);
      case List(elems) => out := InspectChildren(e, elems);
      case Struct(_, children) => out := InspectChildren(e, children);
      case Comp(_, _, _, _, _, _, _, _) => out := InspectComprehension(e);
    }

    method InspectChildren(ghost e: Expr, es: seq<Expr>) returns (out: Report)
      requires forall i :: 0 <= i < |es| ==> es[i] < e
      modifies this
      ensures loopVars == old(loopVars)
      ensures out == InspectedAll(known, es, loopVars)
      decreases e, 0
    {
      out := NOTHING;
      for i := 0 to |es|
        invariant loopVars == old(loopVars)
        invariant out == InspectedAll(known, es[..i], loopVars)
      {
        assert es[..i + 1][..i] == es[..i];
        var child := InspectExpr(es[i]);
        out := out.Merge(child);
      }
      assert es[..|es|] == es;
    }

    method InspectCall(e: Expr) returns (out: Report)
      requires e.Call? || e.MemberCall?
      modifies this
      ensures loopVars == old(loopVars)
      ensures out == Inspected(known, e, loopVars)
      decreases e, 1
    {
      out := InspectChildren(e, e.args);
      if e.MemberCall? {
        if !IsNamespaced(known.functions, e.target, e.fn) {
          var target := InspectExpr(e.target);
          out := out.Merge(target);
        } else {
          out := out.Merge(NOTHING);
        }
        return;
      }
      if [e.fn] in known.functions {
        out := out.Merge(NOTHING.(omit := e.fn == OMIT));
      } else {
        out := out.Merge(NOTHING.(unknownFunctions := [e.fn]));
      }
    }

    /** Brings a loop variable into scope and says whether it already was. */
    method Push(name: Id) returns (wasSet: bool)
      modifies this
      ensures wasSet == (name in old(loopVars)) && loopVars == old(loopVars) + {name}
    {
      wasSet := name in loopVars;
      loopVars := loopVars + {name};
    }

    method Pop(name: Id, wasSet: bool)
      modifies this
      ensures loopVars == if wasSet then old(loopVars) else old(loopVars) - {name}
    {
      if !wasSet {
        loopVars := loopVars - {name};
      }
    }

    method InspectComprehension(e: Expr) returns (out: Report)
      requires e.Comp?
      modifies this
      ensures loopVars == old(loopVars)
      ensures out == Inspected(known, e, loopVars)
      decreases e, 1
    {
      var iterVarWasSet := Push(e.iterVar);
      var iterVar2WasSet := true;
      if e.iterVar2.Some? {
        iterVar2WasSet := Push(e.iterVar2.value);
      }
      var accuVarWasSet := Push(e.accuVar);
      assert loopVars == old(loopVars) + LoopVars(e);
      out := InspectParts(e);
      Pop(e.accuVar, accuVarWasSet);
      if e.iterVar2.Some? {
        Pop(e.iterVar2.value, iterVar2WasSet);
      }
      Pop(e.iterVar, iterVarWasSet);
    }

    /** The five parts, all in the same scope. */
    method InspectParts(e: Expr) returns (out: Report)
      requires e.Comp?
      modifies this
      ensures loopVars == old(loopVars)
      ensures out == Inspected(known, e.init, loopVars)
                     .Merge(Inspected(known, e.range, loopVars))
                     .Merge(Inspected(known, e.cond, loopVars))
                     .Merge(Inspected(known, e.step, loopVars))
                     .Merge(Inspected(known, e.result, loopVars))
      decreases e, 0
    {
      out := InspectExpr(e.init);
      var part := InspectExpr(e.range);
      out := out.Merge(part);
      part := InspectExpr(e.cond);
      out := out.Merge(part);
      part := InspectExpr(e.step);
      out := out.Merge(part);
      part := InspectExpr(e.result);
      out := out.Merge(part);
    }
  }

  /* ---------- what the expression needs ---------- */

  /** The identifiers whose values an evaluation may look up. */
  ghost function Free(functions: set<QName>, e: Expr): set<Id> {
    match e
    case Literal(_) => {}
    case Ident(name) => {name}
    case Select(operand, _) => Free(functions, operand)
    case Call(_, args) => FreeAll(functions, args)
    case MemberCall(target, fn, args) =>
      FreeAll(functions, args) + if IsNamespaced(functions, target, fn) then {} else Free(functions, target)
    case List(elems) => FreeAll(functions, elems)
    case Struct(_, children) => FreeAll(functions, children)
    case Comp(_, _, accuVar, init, range, cond, step, result) =>
      Free(functions, init) + Free(functions, range)
      + (Free(functions, cond) - LoopVars(e)) + (Free(functions, step) - LoopVars(e))
      + (Free(functions, result) - {accuVar})
  }

  ghost function FreeAll(functions: set<QName>, es: seq<Expr>): set<Id> {
    if es == [] then {} else FreeAll(functions, es[..|es| - 1]) + Free(functions, es[|es| - 1])
  }

  /** The variables that a comprehension lets escape from where it binds them: those free in its own
      range or initial value, and iteration variables free in its result. */
  ghost function SelfCaptured(functions: set<QName>, e: Expr): set<Id>
    requires e.Comp?
  {
    LoopVars(e) * (Free(functions, e.init) + Free(functions, e.range) + (Free(functions, e.result) - {e.accuVar}))
  }

  /** Names that are neither bound nor, unless declared, internal. */
  ghost function Visible(known: Known, names: set<Id>, bound: set<Id>): set<Id> {
    set n | n in names && n !in bound && (n in known.resources || !IsInternal(n))
  }

  /** No comprehension in e captures an identifier of its own range, initial value or result. */
  ghost predicate WellScoped(known: Known, e: Expr) {
    match e
    case Literal(_) => true
    case Ident(_) => true
    case Select(operand, _) => WellScoped(known, operand)
    case Call(_, args) => WellScopedAll(known, args)
    case MemberCall(target, fn, args) =>
      WellScopedAll(known, args) && (IsNamespaced(known.functions, target, fn) || WellScoped(known, target))
    case List(elems) => WellScopedAll(known, elems)
    case Struct(_, children) => WellScopedAll(known, children)
    case Comp(_, _, _, init, range, cond, step, result) =>
      && WellScoped(known, init) && WellScoped(known, range) && WellScoped(known, cond)
      && WellScoped(known, step) && WellScoped(known, result)
      && Visible(known, SelfCaptured(known.functions, e), {}) == {}
  }

  ghost predicate WellScopedAll(known: Known, es: seq<Expr>) {
    es == [] || (WellScopedAll(known, es[..|es| - 1]) && WellScoped(known, es[|es| - 1]))
  }

  /** e and each of its parts is reported exactly: what it reports is what it needs. */
  ghost predicate ExactThroughout(known: Known, e: Expr) {
    && Inspected(known, e, {}).All() == Visible(known, Free(known.functions, e), {})
    && match e
       case Literal(_) => true
       case Ident(_) => true
       case Select(operand, _) => ExactThroughout(known, operand)
       case Call(_, args) => ExactThroughoutAll(known, args)
       case MemberCall(target, fn, args) =>
         ExactThroughoutAll(known, args) && (IsNamespaced(known.functions, target, fn) || ExactThroughout(known, target))
       case List(elems) => ExactThroughoutAll(known, elems)
       case Struct(_, children) => ExactThroughoutAll(known, children)
       case Comp(_, _, _, init, range, cond, step, result) =>
         && ExactThroughout(known, init) && ExactThroughout(known, range) && ExactThroughout(known, cond)
         && ExactThroughout(known, step) && ExactThroughout(known, result)
  }

  ghost predicate ExactThroughoutAll(known: Known, es: seq<Expr>) {
    es == [] || (ExactThroughoutAll(known, es[..|es| - 1]) && ExactThroughout(known, es[|es| - 1]))
  }

  /** Nothing is reported that is bound, internal or not needed. */
  lemma {:induction false} ReportsOnlyNeeded(known: Known, e: Expr, bound: set<Id>)
    ensures Inspected(known, e, bound).All() <= Visible(known, Free(known.functions, e), bound)
  {
    match e
    case Literal(_) =>
    case Ident(_) =>
    case Select(operand, _) => ReportsOnlyNeeded(known, operand, bound);
    case Call(_, args) => ReportsOnlyNeededAll(known, args, bound);
    case MemberCall(target, fn, args) =>
      ReportsOnlyNeededAll(known, args, bound);
      if !IsNamespaced(known.functions, target, fn) {
        ReportsOnlyNeeded(known, target, bound);
      }
    case List(elems) => ReportsOnlyNeededAll(known, elems, bound);
    case Struct(_, children) => ReportsOnlyNeededAll(known, children, bound);
    case Comp(_, _, _, init, range, cond, step, result) =>
      var inner := bound + LoopVars(e);
      ReportsOnlyNeeded(known, init, inner);
      ReportsOnlyNeeded(known, range, inner);
      ReportsOnlyNeeded(known, cond, inner);
      ReportsOnlyNeeded(known, step, inner);
      ReportsOnlyNeeded(known, result, inner);
      CompReport(known, e, bound);
      CompVisible(known, e, bound);
  }

  lemma {:induction false} ReportsOnlyNeededAll(known: Known, es: seq<Expr>, bound: set<Id>)
    ensures InspectedAll(known, es, bound).All() <= Visible(known, FreeAll(known.functions, es), bound)
  {
    if es != [] {
      ReportsOnlyNeededAll(known, es[..|es| - 1], bound);
      ReportsOnlyNeeded(known, es[|es| - 1], bound);
    }
  }

  lemma CompReport(known: Known, e: Expr, bound: set<Id>)
    requires e.Comp?
    ensures var inner := bound + LoopVars(e);
            Inspected(known, e, bound).All()
            == Inspected(known, e.init, inner).All() + Inspected(known, e.range, inner).All()
               + Inspected(known, e.cond, inner).All() + Inspected(known, e.step, inner).All()
               + Inspected(known, e.result, inner).All()
  {
  }

  /** In a well-scoped expression everything needed is reported. */
  lemma {:induction false} ReportsAllNeeded(known: Known, e: Expr, bound: set<Id>)
    requires WellScoped(known, e)
    ensures Inspected(known, e, bound).All() == Visible(known, Free(known.functions, e), bound)
  {
    match e
    case Literal(_) =>
    case Ident(_) =>
    case Select(operand, _) => ReportsAllNeeded(known, operand, bound);
    case Call(_, args) => ReportsAllNeededAll(known, args, bound);
    case MemberCall(target, fn, args) =>
      ReportsAllNeededAll(known, args, bound);
      if !IsNamespaced(known.functions, target, fn) {
        ReportsAllNeeded(known, target, bound);
      }
    case List(elems) => ReportsAllNeededAll(known, elems, bound);
    case Struct(_, children) => ReportsAllNeededAll(known, children, bound);
    case Comp(_, _, _, init, range, cond, step, result) =>
      var inner := bound + LoopVars(e);
      ReportsAllNeeded(known, init, inner);
      ReportsAllNeeded(known, range, inner);
      ReportsAllNeeded(known, cond, inner);
      ReportsAllNeeded(known, step, inner);
      ReportsAllNeeded(known, result, inner);
      CompReport(known, e, bound);
      CompVisible(known, e, bound);
  }

  lemma {:induction false} ReportsAllNeededAll(known: Known, es: seq<Expr>, bound: set<Id>)
    requires WellScopedAll(known, es)
    ensures InspectedAll(known, es, bound).All() == Visible(known, FreeAll(known.functions, es), bound)
  {
    if es != [] {
      ReportsAllNeededAll(known, es[..|es| - 1], bound);
      ReportsAllNeeded(known, es[|es| - 1], bound);
    }
  }

  /** The parts of a comprehension, walked with its variables in scope, show all it needs exactly
      when no visible variable is self-captured. */
  lemma CompVisible(known: Known, e: Expr, bound: set<Id>)
    requires e.Comp?
    ensures var fns, inner := known.functions, bound + LoopVars(e);
            var shown := Visible(known, Free(fns, e.init), inner) + Visible(known, Free(fns, e.range), inner)
                         + Visible(known, Free(fns, e.cond), inner) + Visible(known, Free(fns, e.step), inner)
                         + Visible(known, Free(fns, e.result), inner);
            shown <= Visible(known, Free(fns, e), bound)
            && (shown == Visible(known, Free(fns, e), bound) <==> Visible(known, SelfCaptured(fns, e), bound) == {})
  {
    var fns, inner := known.functions, bound + LoopVars(e);
    var shown := Visible(known, Free(fns, e.init), inner) + Visible(known, Free(fns, e.range), inner)
                 + Visible(known, Free(fns, e.cond), inner) + Visible(known, Free(fns, e.step), inner)
                 + Visible(known, Free(fns, e.result), inner);
    forall n ensures n in shown <==> n in Visible(known, Free(fns, e), bound) && n !in SelfCaptured(fns, e) {
    }
    forall n | n in Visible(known, SelfCaptured(fns, e), bound) ensures n in Visible(known, Free(fns, e), bound) && n !in shown {
    }
  }

  /** The inspector is exact on an expression and all its parts exactly when no comprehension
      captures a visible identifier of its own range, initial value or result. */
  lemma {:induction false} ExactIffWellScoped(known: Known, e: Expr)
    ensures ExactThroughout(known, e) <==> WellScoped(known, e)
  {
    if WellScoped(known, e) {
      ReportsAllNeeded(known, e, {});
    }
    match e
    case Literal(_) =>
    case Ident(_) =>
    case Select(operand, _) => ExactIffWellScoped(known, operand);
    case Call(_, args) => ExactIffWellScopedAll(known, args);
    case MemberCall(target, fn, args) =>
      ExactIffWellScopedAll(known, args);
      if !IsNamespaced(known.functions, target, fn) {
        ExactIffWellScoped(known, target);
      }
    case List(elems) => ExactIffWellScopedAll(known, elems);
    case Struct(_, children) => ExactIffWellScopedAll(known, children);
    case Comp(_, _, _, init, range, cond, step, result) =>
      ExactIffWellScoped(known, init);
      ExactIffWellScoped(known, range);
      ExactIffWellScoped(known, cond);
      ExactIffWellScoped(known, step);
      ExactIffWellScoped(known, result);
      if WellScoped(known, init) && WellScoped(known, range) && WellScoped(known, cond) && WellScoped(known, step)
         && WellScoped(known, result)
      {
        CompExactIff(known, e);
      }
  }

  lemma CompExactIff(known: Known, e: Expr)
    requires e.Comp?
    requires WellScoped(known, e.init) && WellScoped(known, e.range) && WellScoped(known, e.cond)
    requires WellScoped(known, e.step) && WellScoped(known, e.result)
    ensures Inspected(known, e, {}).All() == Visible(known, Free(known.functions, e), {})
            <==> Visible(known, SelfCaptured(known.functions, e), {}) == {}
  {
    var inner := {} + LoopVars(e);
    ReportsAllNeeded(known, e.init, inner);
    ReportsAllNeeded(known, e.range, inner);
    ReportsAllNeeded(known, e.cond, inner);
    ReportsAllNeeded(known, e.step, inner);
    ReportsAllNeeded(known, e.result, inner);
    CompReport(known, e, {});
    CompVisible(known, e, {});
  }

  lemma {:induction false} ExactIffWellScopedAll(known: Known, es: seq<Expr>)
    ensures ExactThroughoutAll(known, es) <==> WellScopedAll(known, es)
  {
    if es != [] {
      ExactIffWellScopedAll(known, es[..|es| - 1]);
      ExactIffWellScoped(known, es[|es| - 1]);
    }
  }
}
