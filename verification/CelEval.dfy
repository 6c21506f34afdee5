/** Evaluation of CEL expressions over any interpretation of literals, operators and functions, and
    the contract of Expression.References (pkg/cel/expression.go): the names the inspector reports
    are all an evaluation depends on. */
module CelEval {

  import opened Collections
  import opened Digraph
  import opened CelInspector

  /** What the operators mean; a value may stand for an error. */
  datatype Semantics<!V> = Semantics(
    literal: int -> V,
    unbound: Id -> V,
    select: (V, Id) -> V,
    call: (QName, seq<V>) -> V,
    member: (V, Id, seq<V>) -> V,
    list: seq<V> -> V,
    struct: (Id, seq<V>) -> V,
    items: (V, bool) -> seq<(V, V)>,
    holds: V -> bool)

  ghost function Lookup<V>(sem: Semantics<V>, env: map<Id, V>, name: Id): V {
    if name in env then env[name] else sem.unbound(name)
  }

  ghost function BindIter<V>(env: map<Id, V>, e: Expr, item: (V, V)): map<Id, V>
    requires e.Comp?
  {
    var one := env[e.iterVar := item.0];
    if e.iterVar2.Some? then one[e.iterVar2.value := item.1] else one
  }

  ghost function Eval<V>(sem: Semantics<V>, fns: set<QName>, env: map<Id, V>, e: Expr): V
    decreases e
  {
    match e
    case Literal(value) => sem.literal(value)
    case Ident(name) => Lookup(sem, env, name)
    case Select(operand, field) => sem.select(Eval(sem, fns, env, operand), field)
    case Call(fn, args) => sem.call([fn], EvalAll(sem, fns, env, args))
    case MemberCall(target, fn, args) =>
      if IsNamespaced(fns, target, fn) then sem.call(Qualified(target).value + [fn], EvalAll(sem, fns, env, args))
      else sem.member(Eval(sem, fns, env, target), fn, EvalAll(sem, fns, env, args))
    case List(elems) => sem.list(EvalAll(sem, fns, env, elems))
    case Struct(shape, children) => sem.struct(shape, EvalAll(sem, fns, env, children))
    case Comp(_, iterVar2, accuVar, init, range, _, _, result) =>
      var items := sem.items(Eval(sem, fns, env, range), iterVar2.Some?);
      var accu := Fold(sem, fns, env, e, items, Eval(sem, fns, env, init));
      Eval(sem, fns, env[accuVar := accu], result)
  }

  ghost function EvalAll<V>(sem: Semantics<V>, fns: set<QName>, env: map<Id, V>, es: seq<Expr>): seq<V>
    decreases es
  {
    if es == [] then [] else EvalAll(sem, fns, env, es[..|es| - 1]) + [Eval(sem, fns, env, es[|es| - 1])]
  }

  /** The loop of a comprehension: it stops when the items run out or the condition fails. */
  ghost function Fold<V>(sem: Semantics<V>, fns: set<QName>, env: map<Id, V>, e: Expr, items: seq<(V, V)>, accu: V): V
    requires e.Comp?
    decreases e, |items|
  {
    if items == [] then accu
    else
      var inner := BindIter(env, e, items[0])[e.accuVar := accu];
      if !sem.holds(Eval(sem, fns, inner, e.cond)) then accu
      else Fold(sem, fns, env, e, items[1..], Eval(sem, fns, inner, e.step))
  }

  ghost predicate Agree<V>(a: map<Id, V>, b: map<Id, V>, names: set<Id>) {
    forall n :: n in names ==> (n in a <==> n in b) && (n in a ==> a[n] == b[n])
  }

  lemma {:induction false} Coincidence<V>(sem: Semantics<V>, fns: set<QName>, a: map<Id, V>, b: map<Id, V>, e: Expr)
    requires Agree(a, b, Free(fns, e))
    ensures Eval(sem, fns, a, e) == Eval(sem, fns, b, e)
    decreases e
  {
    match e
    case Literal(_) =>
    case Ident(name) => assert name in Free(fns, e);
    case Select(operand, _) => Coincidence(sem, fns, a, b, operand);
    case Call(_, args) => CoincidenceAll(sem, fns, a, b, args);
    case MemberCall(target, fn, args) =>
      CoincidenceAll(sem, fns, a, b, args);
      if !IsNamespaced(fns, target, fn) {
        Coincidence(sem, fns, a, b, target);
      }
    case List(elems) => CoincidenceAll(sem, fns, a, b, elems);
    case Struct(_, children) => CoincidenceAll(sem, fns, a, b, children);
    case Comp(_, iterVar2, accuVar, init, range, _, _, result) =>
      Coincidence(sem, fns, a, b, init);
      Coincidence(sem, fns, a, b, range);
      var items := sem.items(Eval(sem, fns, a, range), iterVar2.Some?);
      var start := Eval(sem, fns, a, init);
      CoincidenceFold(sem, fns, a, b, e, items, start);
      var accu := Fold(sem, fns, a, e, items, start);
      Coincidence(sem, fns, a[accuVar := accu], b[accuVar := accu], result);
  }

  lemma {:induction false} CoincidenceAll<V>(sem: Semantics<V>, fns: set<QName>, a: map<Id, V>, b: map<Id, V>, es: seq<Expr>)
    requires Agree(a, b, FreeAll(fns, es))
    ensures EvalAll(sem, fns, a, es) == EvalAll(sem, fns, b, es)
    decreases es
  {
    if es != [] {
      CoincidenceAll(sem, fns, a, b, es[..|es| - 1]);
      Coincidence(sem, fns, a, b, es[|es| - 1]);
    }
  }

  lemma {:induction false} CoincidenceFold<V>(sem: Semantics<V>, fns: set<QName>, a: map<Id, V>, b: map<Id, V>, e: Expr,
                                              items: seq<(V, V)>, accu: V)
    requires e.Comp?
    requires Agree(a, b, (Free(fns, e.cond) - LoopVars(e)) + (Free(fns, e.step) - LoopVars(e)))
    ensures Fold(sem, fns, a, e, items, accu) == Fold(sem, fns, b, e, items, accu)
    decreases e, |items|
  {
    if items != [] {
      var a' := BindIter(a, e, items[0])[e.accuVar := accu];
      var b' := BindIter(b, e, items[0])[e.accuVar := accu];
      Coincidence(sem, fns, a', b', e.cond);
      Coincidence(sem, fns, a', b', e.step);
      CoincidenceFold(sem, fns, a, b, e, items[1..], Eval(sem, fns, a', e.step));
    }
  }

  /** Contexts never bind the names the parser reserves for itself, unless they are declared. */
  ghost predicate NoInternal<V>(known: Known, env: map<Id, V>) {
    forall n :: n in env ==> n in known.resources || !IsInternal(n)
  }

  /** The contract of References: two contexts that agree on the reported names give a well-scoped
      expression the same value, whatever else they hold. */
  lemma ReportedNamesDecide<V>(sem: Semantics<V>, known: Known, e: Expr, a: map<Id, V>, b: map<Id, V>, references: set<Id>)
    requires WellScoped(known, e) && Inspected(known, e, {}).All() <= references
    requires Agree(a, b, references) && NoInternal(known, a) && NoInternal(known, b)
    ensures Eval(sem, known.functions, a, e) == Eval(sem, known.functions, b, e)
  {
    ReportsAllNeeded(known, e, {});
    forall n | n in Free(known.functions, e) ensures (n in a <==> n in b) && (n in a ==> a[n] == b[n]) {
      if n in Visible(known, Free(known.functions, e), {}) {
        assert n in references;
      }
    }
    Coincidence(sem, known.functions, a, b, e);
  }

  /* ---------- why the expression must be well-scoped ---------- */

  /** x.map(x, x) in its simplest form: the range mentions the loop variable's outer namesake. */
  function Shadowing(x: Id, accu: Id): Expr {
    Comp(x, None, accu, Literal(0), Ident(x), Literal(1), Ident(x), Ident(accu))
  }

  function Numbers(): Semantics<int> {
    Semantics(v => v, n => 0, (v, f) => v, (f, vs) => 0, (v, f, vs) => v, vs => 0, (s, vs) => 0,
              (v, two) => if v == 0 then [] else [(v, v)], v => v != 0)
  }

  /** The inspector puts loop variables in scope before it walks the range, so the outer x, although
      it is needed, is not reported, and contexts that agree on everything reported disagree. */
  lemma SelfCaptureLosesDependency(known: Known, x: Id, accu: Id)
    requires x in known.resources && x != accu
    ensures x in Free(known.functions, Shadowing(x, accu))
    ensures Inspected(known, Shadowing(x, accu), {}) == NOTHING
    ensures !WellScoped(known, Shadowing(x, accu))
    ensures Eval(Numbers(), known.functions, map[x := 0], Shadowing(x, accu)) !=
            Eval(Numbers(), known.functions, map[x := 7], Shadowing(x, accu))
  {
    var e, fns, sem := Shadowing(x, accu), known.functions, Numbers();
    assert x in Visible(known, SelfCaptured(fns, e), {});
    var env := map[x := 7];
    assert Fold(sem, fns, env, e, [(7, 7)], 0) == 7 by {
      var inner := BindIter(env, e, (7, 7))[accu := 0];
      assert Eval(sem, fns, inner, e.cond) == 1 && Eval(sem, fns, inner, e.step) == 7;
      assert [(7, 7)][1..] == [];
    }
  }
}
