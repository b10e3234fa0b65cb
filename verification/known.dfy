/**
  What the simplifier can tell of an expression without running it: the
  constant it must be, that it has no effect, or the lambda it must be.
*/
module KnownValues {
  import opened Options
  import opened Scheme
  import opened FreeVariables

  /** Variables that stand for a constant. */
  type Substs = map<Var, Const>

  predicate Pure(e: Expr) { e.Lit? || e.Ref? || e.Lam? }

  /** The constant that `e` evaluates to, when that can be told. */
  function Known(e: Expr, s: Substs): Option<Const>
    decreases e, 0
  {
    match e
    case Lit(c) => Some(c)
    case Ref(x) => if x in s then Some(s[x]) else None
    case Cnd(t, p, f) => if Known(t, s).Some? then Known(Branch(Known(t, s).value, p, f), s) else None
    case Seq(es) => if es != [] && IdleInit(es, s) then Known(es[|es| - 1], s) else None
    case Prim(op, args) =>
      if ClassOf(op) == Arithmetic && ArityOk(op, |args|) && AllKnown(args, s) then
        var v := PrimValue(op, Constants(args, s));
        if v.Some? && v.value.Imm? then Some(v.value.c) else None
      else None
    case _ => None
  }

  function Branch(c: Const, p: Expr, f: Expr): Expr { if c == Bool(false) then f else p }

  predicate AllKnown(es: seq<Expr>, s: Substs)
    decreases es, 0
  {
    forall i :: 0 <= i < |es| ==> Known(es[i], s).Some?
  }

  function Constants(es: seq<Expr>, s: Substs): (vs: seq<Val>)
    requires AllKnown(es, s)
    ensures |vs| == |es|
    decreases es, 1
  {
    seq(|es|, i requires 0 <= i < |es| => Imm(Known(es[i], s).value))
  }

  /** `e` has a value and no effect. */
  predicate Idle(e: Expr, s: Substs)
    decreases e, 1
  {
    match e
    case Cnd(t, p, f) => Known(t, s).Some? && Idle(Branch(Known(t, s).value, p, f), s)
    case Seq(es) => es != [] && IdleInit(es, s) && Idle(es[|es| - 1], s)
    case Prim(_, _) => Known(e, s).Some?
    case _ => Pure(e)
  }

  /** Nothing before the last element has an effect. */
  predicate IdleInit(es: seq<Expr>, s: Substs)
    decreases es, 0
  {
    forall i :: 0 <= i < |es| - 1 ==> Idle(es[i], s)
  }

  /** The lambda that `e` evaluates to, when that can be told. */
  function Head(e: Expr, s: Substs): (l: Option<Lambda>)
    ensures l.Some? ==> Lam(l.value) == e || Lam(l.value) < e
    decreases e
  {
    match e
    case Lam(l) => Some(l)
    case Cnd(t, p, f) => if Known(t, s).Some? then Head(Branch(Known(t, s).value, p, f), s) else None
    case Seq(es) => if es != [] && IdleInit(es, s) then Head(es[|es| - 1], s) else None
    case _ => None
  }

  // ------------------------------------------------------------- what it means

  /** The variables have locations, and the constants are in theirs. */
  ghost predicate Fixed(vars: set<Var>, env: Env, st: Store, s: Substs) {
    forall x <- vars :: x in env && env[x] < |st| && (x in s ==> st[env[x]] == Imm(s[x]))
  }

  lemma {:induction false} KnownRuns(e: Expr, s: Substs, env: Env, st: Store, fuel: nat)
    requires Known(e, s).Some? && Fixed(Free(e), env, st, s)
    ensures Eval(e, env, st, fuel) == Ok(Imm(Known(e, s).value), st)
    decreases e, 0
  {
    match e
    case Lit(_) =>
    case Ref(x) => assert x in Free(e);
    case Cnd(t, p, f) =>
      KnownRuns(t, s, env, st, fuel);
      KnownRuns(Branch(Known(t, s).value, p, f), s, env, st, fuel);
    case Seq(es) =>
      IdleInitRuns(es, s, env, st, fuel);
      FreeAllMember(es, |es| - 1);
      KnownRuns(es[|es| - 1], s, env, st, fuel);
    case Prim(op, args) =>
      AllKnownRuns(args, s, env, st, fuel);
  }

  lemma {:induction false} AllKnownRuns(es: seq<Expr>, s: Substs, env: Env, st: Store, fuel: nat)
    requires AllKnown(es, s) && Fixed(FreeAll(es), env, st, s)
    ensures EvalRight(es, env, st, fuel) == Ok(Constants(es, s), st)
    decreases es, 0
  {
    if es != [] {
      AllKnownRuns(es[1..], s, env, st, fuel);
      KnownRuns(es[0], s, env, st, fuel);
      assert Constants(es, s) == [Imm(Known(es[0], s).value)] + Constants(es[1..], s);
    }
  }

  lemma {:induction false} IdleRuns(e: Expr, s: Substs, env: Env, st: Store, fuel: nat)
    requires Idle(e, s) && Fixed(Free(e), env, st, s)
    ensures Eval(e, env, st, fuel).Ok? && Eval(e, env, st, fuel).st == st
    decreases e, 1
  {
    match e
    case Lit(_) =>
    case Ref(x) => assert x in Free(e);
    case Cnd(t, p, f) =>
      KnownRuns(t, s, env, st, fuel);
      IdleRuns(Branch(Known(t, s).value, p, f), s, env, st, fuel);
    case Seq(es) =>
      IdleInitRuns(es, s, env, st, fuel);
      FreeAllMember(es, |es| - 1);
      IdleRuns(es[|es| - 1], s, env, st, fuel);
    case Lam(_) =>
    case Prim(op, args) =>
      KnownRuns(e, s, env, st, fuel);
  }

  lemma {:induction false} IdleInitRuns(es: seq<Expr>, s: Substs, env: Env, st: Store, fuel: nat)
    requires es != [] && IdleInit(es, s) && Fixed(FreeAll(es), env, st, s)
    ensures EvalSeq(es, env, st, fuel) == Eval(es[|es| - 1], env, st, fuel)
    decreases es, 0
  {
    if |es| > 1 {
      IdleRuns(es[0], s, env, st, fuel);
      IdleInitRuns(es[1..], s, env, st, fuel);
    }
  }

  lemma {:induction false} HeadRuns(e: Expr, s: Substs, env: Env, st: Store, fuel: nat)
    requires Head(e, s).Some? && Fixed(Free(e), env, st, s)
    ensures Eval(e, env, st, fuel) == Ok(Clo(Head(e, s).value, env), st)
    decreases e
  {
    match e
    case Lam(_) =>
    case Cnd(t, p, f) =>
      KnownRuns(t, s, env, st, fuel);
      HeadRuns(Branch(Known(t, s).value, p, f), s, env, st, fuel);
    case Seq(es) =>
      IdleInitRuns(es, s, env, st, fuel);
      FreeAllMember(es, |es| - 1);
      HeadRuns(es[|es| - 1], s, env, st, fuel);
    case _ =>
  }

  lemma {:induction false} HeadInside(e: Expr, s: Substs, scope: seq<Binder>, sv: set<Var>)
    requires Head(e, s).Some? && Resolved(e, scope, sv)
    ensures Resolved(Lam(Head(e, s).value), scope, sv) && Free(Lam(Head(e, s).value)) <= Free(e)
    decreases e
  {
    match e
    case Lam(_) =>
    case Cnd(t, p, f) => HeadInside(Branch(Known(t, s).value, p, f), s, scope, sv);
    case Seq(es) =>
      FreeAllMember(es, |es| - 1);
      HeadInside(es[|es| - 1], s, scope, sv);
    case _ =>
  }
}
