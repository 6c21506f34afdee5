/** Which function calls the inspector of pkg/cel/ast sees, in terms of the expression alone. */
module CelCalls {

  import opened Collections
  import opened Digraph
  import opened CelInspector

  /* ---------- namespaced functions ---------- */

  /** a.b.c as an expression. */
  ghost function Chain(q: QName): Expr
    requires q != []
  {
    if |q| == 1 then Ident(q[0]) else Select(Chain(q[..|q| - 1]), q[|q| - 1])
  }

  /** target.fn spells the name of a known function. */
  ghost predicate NamesFunction(functions: set<QName>, target: Expr, fn: Id) {
    exists q {:trigger q + [fn]} :: q != [] && q + [fn] in functions && target == Chain(q)
  }

  lemma {:induction false} QualifiedChain(q: QName)
    requires q != []
    ensures Qualified(Chain(q)) == Some(q)
  {
    if |q| == 1 {
      assert q == [q[0]];
    } else {
      var p, f := q[..|q| - 1], q[|q| - 1];
      QualifiedChain(p);
      assert Chain(q) == Select(Chain(p), f) && Qualified(Chain(q)) == Some(p + [f]);
      assert q == p + [f];
    }
  }

  lemma {:induction false} QualifiedOnlyChain(e: Expr)
    ensures Qualified(e).Some? ==> Qualified(e).value != [] && e == Chain(Qualified(e).value)
  {
    match e
    case Select(operand, field) =>
      QualifiedOnlyChain(operand);
      if Qualified(operand).Some? {
        var q := Qualified(operand).value + [field];
        assert q[..|q| - 1] == Qualified(operand).value;
      }
    case _ =>
  }

  lemma NamespacedIff(functions: set<QName>, target: Expr, fn: Id)
    ensures IsNamespaced(functions, target, fn) <==> NamesFunction(functions, target, fn)
  {
    QualifiedOnlyChain(target);
    forall q | q != [] && q + [fn] in functions && target == Chain(q) ensures IsNamespaced(functions, target, fn) {
      QualifiedChain(q);
    }
    if IsNamespaced(functions, target, fn) {
      assert Qualified(target).value + [fn] in functions;
    }
  }

  /* ---------- what is walked ---------- */

  /** d is e or a part of it, anything but the target of a call that names a known function. */
  ghost predicate Walked(functions: set<QName>, d: Expr, e: Expr) {
    d == e
    || match e
       case Literal(_) => false
       case Ident(_) => false
       case Select(operand, _) => Walked(functions, d, operand)
       case Call(_, args) => exists i :: 0 <= i < |args| && Walked(functions, d, args[i])
       case MemberCall(target, fn, args) =>
         (exists i :: 0 <= i < |args| && Walked(functions, d, args[i]))
         || (!NamesFunction(functions, target, fn) && Walked(functions, d, target))
       case List(elems) => exists i :: 0 <= i < |elems| && Walked(functions, d, elems[i])
       case Struct(_, children) => exists i :: 0 <= i < |children| && Walked(functions, d, children[i])
       case Comp(_, _, _, init, range, cond, step, result) =>
         || Walked(functions, d, init) || Walked(functions, d, range) || Walked(functions, d, cond)
         || Walked(functions, d, step) || Walked(functions, d, result)
  }

  /** Some walked part is a direct call of fn. */
  ghost predicate Calls(functions: set<QName>, e: Expr, fn: Id) {
    exists d {:trigger Walked(functions, d, e)} :: Walked(functions, d, e) && d.Call? && d.fn == fn
  }

  ghost predicate CallsIn(functions: set<QName>, es: seq<Expr>, fn: Id) {
    exists i :: 0 <= i < |es| && Calls(functions, es[i], fn)
  }

  /** Calls, part by part. */
  ghost predicate CallsInParts(functions: set<QName>, e: Expr, fn: Id) {
    match e
    case Literal(_) => false
    case Ident(_) => false
    case Select(operand, _) => Calls(functions, operand, fn)
    case Call(f, args) => f == fn || CallsIn(functions, args, fn)
    case MemberCall(target, f, args) =>
      CallsIn(functions, args, fn) || (!NamesFunction(functions, target, f) && Calls(functions, target, fn))
    case List(elems) => CallsIn(functions, elems, fn)
    case Struct(_, children) => CallsIn(functions, children, fn)
    case Comp(_, _, _, init, range, cond, step, result) =>
      || Calls(functions, init, fn) || Calls(functions, range, fn) || Calls(functions, cond, fn)
      || Calls(functions, step, fn) || Calls(functions, result, fn)
  }

  lemma WalkedInParts(functions: set<QName>, d: Expr, e: Expr, fn: Id)
    requires Walked(functions, d, e) && d.Call? && d.fn == fn
    ensures CallsInParts(functions, e, fn)
  {
    if d != e {
      match e
      case Call(_, args) => WalkedIn(functions, d, args, fn);
      case MemberCall(target, f, args) =>
        if exists i :: 0 <= i < |args| && Walked(functions, d, args[i]) {
          WalkedIn(functions, d, args, fn);
        } else {
          assert Walked(functions, d, target);
        }
      case List(elems) => WalkedIn(functions, d, elems, fn);
      case Struct(_, children) => WalkedIn(functions, d, children, fn);
      case _ =>
    }
  }

  lemma CallsParts(functions: set<QName>, e: Expr, fn: Id)
    ensures Calls(functions, e, fn) <==> CallsInParts(functions, e, fn)
  {
    if Calls(functions, e, fn) {
      var d :| Walked(functions, d, e) && d.Call? && d.fn == fn;
      WalkedInParts(functions, d, e, fn);
    }
    match e
    case Select(operand, _) => CalledThrough(functions, operand, e, fn);
    case Call(f, args) =>
      assert f == fn ==> Walked(functions, e, e);
      CalledInAny(functions, args, e, fn);
    case MemberCall(target, f, args) =>
      CalledInAny(functions, args, e, fn);
      if !NamesFunction(functions, target, f) { CalledThrough(functions, target, e, fn); }
    case List(elems) => CalledInAny(functions, elems, e, fn);
    case Struct(_, children) => CalledInAny(functions, children, e, fn);
    case Comp(_, _, _, init, range, cond, step, result) =>
      CalledThrough(functions, init, e, fn);
      CalledThrough(functions, range, e, fn);
      CalledThrough(functions, cond, e, fn);
      CalledThrough(functions, step, e, fn);
      CalledThrough(functions, result, e, fn);
    case _ =>
  }

  lemma WalkedIn(functions: set<QName>, d: Expr, es: seq<Expr>, fn: Id)
    requires d.Call? && d.fn == fn && exists i :: 0 <= i < |es| && Walked(functions, d, es[i])
    ensures CallsIn(functions, es, fn)
  {
    var i :| 0 <= i < |es| && Walked(functions, d, es[i]);
    assert Calls(functions, es[i], fn);
  }

  lemma CalledThrough(functions: set<QName>, part: Expr, e: Expr, fn: Id)
    requires forall d {:trigger Walked(functions, d, part)} :: Walked(functions, d, part) ==> Walked(functions, d, e)
    ensures Calls(functions, part, fn) ==> Calls(functions, e, fn)
  {
  }

  lemma CalledInAny(functions: set<QName>, es: seq<Expr>, e: Expr, fn: Id)
    requires forall d, i {:trigger Walked(functions, d, es[i])} :: 0 <= i < |es| && Walked(functions, d, es[i]) ==> Walked(functions, d, e)
    ensures CallsIn(functions, es, fn) ==> Calls(functions, e, fn)
  {
  }

  lemma CallsSnoc(functions: set<QName>, es: seq<Expr>, fn: Id)
    requires es != []
    ensures CallsIn(functions, es, fn) <==> CallsIn(functions, es[..|es| - 1], fn) || Calls(functions, es[|es| - 1], fn)
  {
    var n := |es| - 1;
    var before := es[..n];
    if i :| 0 <= i < n && Calls(functions, before[i], fn) {
      assert Calls(functions, es[i], fn);
    }
    if i :| 0 <= i < |es| && Calls(functions, es[i], fn) {
      if i < n { assert Calls(functions, before[i], fn); }
    }
  }

  /* ---------- what is reported of calls ---------- */

  /** What a report says about fn. */
  ghost predicate Tells(known: Known, r: Report, fn: Id, calls: bool) {
    (fn in r.unknownFunctions <==> calls && [fn] !in known.functions)
    && (fn == OMIT ==> (r.omit <==> calls && [OMIT] in known.functions))
  }

  lemma TellsMerged(known: Known, a: Report, b: Report, fn: Id, x: bool, y: bool)
    requires Tells(known, a, fn, x) && Tells(known, b, fn, y)
    ensures Tells(known, a.Merge(b), fn, x || y)
  {
  }

  /** A function is reported unknown exactly when it is called and the environment lacks it, and omit
      exactly when it is called and known; loop variables have no part in it. */
  lemma {:induction false} CallsReported(known: Known, e: Expr, bound: set<Id>, fn: Id)
    ensures Tells(known, Inspected(known, e, bound), fn, Calls(known.functions, e, fn))
    decreases e
  {
    var fns := known.functions;
    CallsParts(fns, e, fn);
    match e
    case Literal(_) =>
    case Ident(_) =>
    case Select(operand, _) => CallsReported(known, operand, bound, fn);
    case Call(f, args) =>
      CallsReportedAll(known, args, bound, fn);
      var own := if [f] in fns then NOTHING.(omit := f == OMIT) else NOTHING.(unknownFunctions := [f]);
      assert Inspected(known, e, bound) == InspectedAll(known, args, bound).Merge(own);
      TellsMerged(known, InspectedAll(known, args, bound), own, fn, CallsIn(fns, args, fn), f == fn);
    case MemberCall(target, f, args) =>
      CallsReportedAll(known, args, bound, fn);
      NamespacedIff(fns, target, f);
      if !IsNamespaced(fns, target, f) {
        CallsReported(known, target, bound, fn);
      }
    case List(elems) => CallsReportedAll(known, elems, bound, fn);
    case Struct(_, children) => CallsReportedAll(known, children, bound, fn);
    case Comp(_, _, _, init, range, cond, step, result) =>
      var inner := bound + LoopVars(e);
      CallsReported(known, init, inner, fn);
      CallsReported(known, range, inner, fn);
      CallsReported(known, cond, inner, fn);
      CallsReported(known, step, inner, fn);
      CallsReported(known, result, inner, fn);
  }

  lemma {:induction false} CallsReportedAll(known: Known, es: seq<Expr>, bound: set<Id>, fn: Id)
    ensures Tells(known, InspectedAll(known, es, bound), fn, CallsIn(known.functions, es, fn))
    decreases es
  {
    if es != [] {
      var n := |es| - 1;
      CallsSnoc(known.functions, es, fn);
      CallsReportedAll(known, es[..n], bound, fn);
      CallsReported(known, es[n], bound, fn);
    }
  }

  /** The functions reported unknown are those that some walked part calls and the environment lacks. */
  lemma UnknownFunctionsIff(known: Known, e: Expr, bound: set<Id>, fn: Id)
    ensures fn in Inspected(known, e, bound).unknownFunctions <==>
            [fn] !in known.functions && exists d :: Walked(known.functions, d, e) && d.Call? && d.fn == fn
  {
    CallsReported(known, e, bound, fn);
  }

  /** omit is reported when some walked part calls it and the environment has it. */
  lemma OmitIff(known: Known, e: Expr, bound: set<Id>)
    ensures Inspected(known, e, bound).omit <==>
            [Id("omit")] in known.functions && exists d :: Walked(known.functions, d, e) && d.Call? && d.fn == Id("omit")
  {
    CallsReported(known, e, bound, OMIT);
  }

  /* ---------- declared and undeclared identifiers ---------- */

  /** The names the parser reserves: @result, and those that begin with $$ or @__. No name that begins
      otherwise is one. */
  lemma InternalIff(name: Id)
    ensures IsInternal(name) <==>
              || name.name == "@result"
              || (|name.name| >= 2 && name.name[0] == '$' && name.name[1] == '$')
              || (|name.name| >= 3 && name.name[0] == '@' && name.name[1] == '_' && name.name[2] == '_')
  {
  }

  ghost predicate Sorted(known: Known, r: Report) {
    Elements(r.resources) <= known.resources && Elements(r.unknown) !! known.resources
  }

  /** Declared identifiers are reported as resources and all others as unknown. */
  lemma {:induction false} ReportSorted(known: Known, e: Expr, bound: set<Id>)
    ensures Sorted(known, Inspected(known, e, bound))
    decreases e
  {
    match e
    case Literal(_) =>
    case Ident(_) =>
    case Select(operand, _) => ReportSorted(known, operand, bound);
    case Call(_, args) => ReportSortedAll(known, args, bound);
    case MemberCall(target, fn, args) =>
      ReportSortedAll(known, args, bound);
      if !IsNamespaced(known.functions, target, fn) {
        ReportSorted(known, target, bound);
      }
    case List(elems) => ReportSortedAll(known, elems, bound);
    case Struct(_, children) => ReportSortedAll(known, children, bound);
    case Comp(_, _, _, init, range, cond, step, result) =>
      var inner := bound + LoopVars(e);
      ReportSorted(known, init, inner);
      ReportSorted(known, range, inner);
      ReportSorted(known, cond, inner);
      ReportSorted(known, step, inner);
      ReportSorted(known, result, inner);
      SortedMerged(known, Inspected(known, init, inner), Inspected(known, range, inner));
      var r := Inspected(known, init, inner).Merge(Inspected(known, range, inner));
      SortedMerged(known, r, Inspected(known, cond, inner));
      r := r.Merge(Inspected(known, cond, inner));
      SortedMerged(known, r, Inspected(known, step, inner));
      r := r.Merge(Inspected(known, step, inner));
      SortedMerged(known, r, Inspected(known, result, inner));
  }

  lemma {:induction false} ReportSortedAll(known: Known, es: seq<Expr>, bound: set<Id>)
    ensures Sorted(known, InspectedAll(known, es, bound))
    decreases es
  {
    if es != [] {
      ReportSortedAll(known, es[..|es| - 1], bound);
      ReportSorted(known, es[|es| - 1], bound);
      SortedMerged(known, InspectedAll(known, es[..|es| - 1], bound), Inspected(known, es[|es| - 1], bound));
    }
  }

  lemma SortedMerged(known: Known, a: Report, b: Report)
    requires Sorted(known, a) && Sorted(known, b)
    ensures Sorted(known, a.Merge(b))
  {
  }
}
