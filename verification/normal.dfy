/**
  What simplified expressions look like: nothing that the simplifier could
  still do is left in them.
*/
module NormalForms {
  import opened Options
  import opened Scheme
  import opened KnownValues
  import opened Rewriting
  import opened Simplifier

  function LiteralValues(args: seq<Expr>): (vs: seq<Val>)
    requires forall a <- args :: a.Lit?
    ensures |vs| == |args|
  {
    seq(|args|, i requires 0 <= i < |args| => Imm(args[i].c))
  }

  /** Arithmetic on literals that has a constant for its value. */
  predicate Computable(op: Opcode, args: seq<Expr>) {
    && op in {Plus, Times, Minus, Quotient, Remainder} && ArityOk(op, |args|) && (forall a <- args :: a.Lit?)
    && PrimValue(op, LiteralValues(args)).Some? && PrimValue(op, LiteralValues(args)).value.Imm?
  }

  /** A parameter that is never assigned, and a literal for it. */
  predicate Substitutable(l: Lambda, args: seq<Expr>) {
    |l.params| == |args| && exists i :: 0 <= i < |args| && args[i].Lit? && l.params[i] !in l.sv
  }

  /** Nothing is left to do; outside of every lambda the operator of an application is not looked into when it is a lambda. */
  predicate Done(e: Expr, inside: bool)
    decreases e, 0
  {
    match e
    case Lit(_) => true
    case Ref(_) => true
    case Set(_, a) => Done(a, inside)
    case Cnd(t, p, f) => !t.Lit? && Done(t, inside) && Done(p, inside) && Done(f, inside)
    case Seq(es) => AllDone(es, inside) && |es| != 1 && forall i :: 0 <= i < |es| - 1 ==> !(es[i].Lit? || es[i].Ref? || es[i].Lam?)
    case Lam(l) => Done(l.body, true)
    case App(f, args) =>
      AllDone(args, inside)
      && if f.Lam? then inside ==> Done(f.l.body, true) && !Substitutable(f.l, args) else Done(f, inside)
    case Prim(op, args) => AllDone(args, inside) && !Computable(op, args)
  }

  predicate AllDone(es: seq<Expr>, inside: bool)
    decreases es, 0
  {
    forall i :: 0 <= i < |es| ==> Done(es[i], inside)
  }

  // ---------------------------------------------------------------- the result

  lemma FoldComputes(op: Opcode, args: seq<Expr>)
    ensures Fold(op, args).Some? <==> Computable(op, args)
  {
    hide PrimValue;
    hide ArityOk;
    hide Eval;
    hide LiteralValues;
    if ClassOf(op) == Arithmetic && forall a <- args :: a.Lit? {
      ArithmeticRuns(op, args);
    }
  }

  lemma ArithmeticRuns(op: Opcode, args: seq<Expr>)
    requires ClassOf(op) == Arithmetic && forall a <- args :: a.Lit?
    ensures Eval(Prim(op, args), map[], [], 0)
            == if ArityOk(op, |args|) && PrimValue(op, LiteralValues(args)).Some? then Ok(PrimValue(op, LiteralValues(args)).value, []) else Err
  {
    hide PrimValue;
    hide ArityOk;
    LiteralsRun(args);
  }

  lemma {:induction false} LiteralsRun(args: seq<Expr>)
    requires forall a <- args :: a.Lit?
    ensures EvalRight(args, map[], [], 0) == Ok(LiteralValues(args), [])
  {
    if args != [] {
      assert args[0].Lit?;
      LiteralsRun(args[1..]);
      assert LiteralValues(args) == [Imm(args[0].c)] + LiteralValues(args[1..]);
    }
  }

  /** Whatever the expression and the substitution, the result is in normal form. */
  lemma {:induction false} SimplifyDone(e: Expr, s: Substs, mode: Mode)
    ensures Done(Simplify(e, s, mode), mode.Inside?)
    decreases Size(e), 1
  {
    hide Computable;
    hide Fold;
    match e
    case Lit(_) =>
    case Ref(_) =>
    case Set(_, a) => SimplifyDone(a, s, mode);
    case Cnd(t, p, f) =>
      SimplifyDone(t, s, mode);
      SimplifyDone(p, s, mode);
      SimplifyDone(f, s, mode);
    case Seq(es) => SeqDone(es, s, mode);
    case Lam(l) => SimplifyDone(l.body, s, Inside);
    case App(f, args) => AppDone(f, args, s, mode);
    case Prim(op, args) =>
      AllSimplifyDone(args, s, mode);
      FoldComputes(op, SimplifyAll(args, s, mode));
  }

  lemma {:induction false} AllSimplifyDone(es: seq<Expr>, s: Substs, mode: Mode)
    ensures AllDone(SimplifyAll(es, s, mode), mode.Inside?)
    decreases SizeAll(es), 1
  {
    hide Done;
    hide Simplify;
    if es != [] {
      SimplifyDone(es[0], s, mode);
      AllSimplifyDone(es[1..], s, mode);
    }
  }

  lemma {:induction false} SeqDone(es: seq<Expr>, s: Substs, mode: Mode)
    ensures var r := SimplifySeq(es, s, mode);
            AllDone(r, mode.Inside?) && forall i :: 0 <= i < |r| - 1 ==> !(r[i].Lit? || r[i].Ref? || r[i].Lam?)
    decreases SizeAll(es), 1
  {
    hide Done;
    hide Simplify;
    if es != [] {
      SimplifyDone(es[0], s, mode);
      SeqDone(es[1..], s, mode);
    }
  }

  lemma {:induction false} AppDone(f: Expr, args: seq<Expr>, s: Substs, mode: Mode)
    ensures Done(Simplify(App(f, args), s, mode), mode.Inside?)
    decreases Size(App(f, args)), 0
  {
    AllSimplifyDone(args, s, mode);
    var args1 := SimplifyAll(args, s, mode);
    var f1 := if f.Lam? then f else Simplify(f, s, mode);
    if !f.Lam? {
      SimplifyDone(f, s, mode);
    }
    if mode.Inside? && f1.Lam? {
      assert Size(f1.l.body) < Size(f1) <= Size(f);
      LetDone(f1.l, args1, s);
    }
  }

  lemma {:induction false} LetDone(l: Lambda, args: seq<Expr>, s: Substs)
    requires AllDone(args, true)
    ensures Done(SimplifyLet(l, args, s), true)
    decreases Size(l.body), 2
  {
    if |l.params| == |args| {
      var plan := PlanFor(l.params, args, l.sv);
      SimplifyDone(l.body, s + Moved(l.params, plan, l.id), Inside);
      PickedDone(l.params, args, plan, l.sv);
    } else {
      SimplifyDone(l.body, s, Inside);
    }
  }

  /** No literal stays for a parameter that is never assigned. */
  lemma {:induction false} PickedDone(params: seq<Name>, args: seq<Expr>, plan: Plan, sv: seq<Name>)
    requires |params| == |args| == |plan| && AllDone(args, true)
    requires forall i :: 0 <= i < |plan| && plan[i].None? && args[i].Lit? ==> params[i] in sv
    ensures AllDone(Pick(args, plan), true) && |Pick(params, plan)| == |Pick(args, plan)|
    ensures forall i :: 0 <= i < |Pick(args, plan)| && Pick(args, plan)[i].Lit? ==> Pick(params, plan)[i] in sv
    decreases |args|
  {
    hide Done;
    if args != [] {
      PickedDone(params[1..], args[1..], plan[1..], sv);
    }
  }

  // --------------------------------------------------------------- fixed points

  /** What is in normal form the simplifier leaves alone. */
  lemma {:induction false} DoneStays(e: Expr, mode: Mode)
    requires Done(e, mode.Inside?)
    ensures Simplify(e, map[], mode) == e
    decreases e, 1
  {
    hide Computable;
    hide Fold;
    match e
    case Lit(_) =>
    case Ref(_) =>
    case Set(_, a) => DoneStays(a, mode);
    case Cnd(t, p, f) =>
      DoneStays(t, mode);
      DoneStays(p, mode);
      DoneStays(f, mode);
    case Seq(es) => SeqStays(es, mode);
    case Lam(l) => DoneStays(l.body, Inside);
    case App(f, args) =>
      AllStay(args, mode);
      if f.Lam? {
        if mode.Inside? {
          LetStays(f.l, args);
        }
      } else {
        DoneStays(f, mode);
      }
    case Prim(op, args) =>
      AllStay(args, mode);
      FoldComputes(op, args);
  }

  lemma {:induction false} AllStay(es: seq<Expr>, mode: Mode)
    requires AllDone(es, mode.Inside?)
    ensures SimplifyAll(es, map[], mode) == es
    decreases es, 0
  {
    hide Done;
    hide Simplify;
    if es != [] {
      DoneStays(es[0], mode);
      AllStay(es[1..], mode);
    }
  }

  lemma {:induction false} SeqStays(es: seq<Expr>, mode: Mode)
    requires AllDone(es, mode.Inside?) && forall i :: 0 <= i < |es| - 1 ==> !(es[i].Lit? || es[i].Ref? || es[i].Lam?)
    ensures SimplifySeq(es, map[], mode) == es
    decreases es, 0
  {
    hide Done;
    hide Simplify;
    if es != [] {
      DoneStays(es[0], mode);
      SeqStays(es[1..], mode);
    }
  }

  lemma {:induction false} LetStays(l: Lambda, args: seq<Expr>)
    requires Done(l.body, true) && !Substitutable(l, args)
    ensures SimplifyLet(l, args, map[]) == App(Lam(l), args)
    decreases Lam(l), 0
  {
    DoneStays(l.body, Inside);
    if |l.params| == |args| {
      var plan := PlanFor(l.params, args, l.sv);
      PickNones(l.params, plan);
      PickNones(args, plan);
      MovedNones(l.params, plan, l.id);
      var none: Substs := map[];
      assert none + none == none;
    }
  }

  /** Simplifying twice is simplifying once. */
  lemma SimplifyTwice(e: Expr, s: Substs, mode: Mode)
    ensures Simplify(Simplify(e, s, mode), map[], mode) == Simplify(e, s, mode)
  {
    SimplifyDone(e, s, mode);
    DoneStays(Simplify(e, s, mode), mode);
  }
}
