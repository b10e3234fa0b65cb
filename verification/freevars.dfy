/**
  Free-variable analysis: an accumulated list of references, and the list
  stored in every lambda, from which closures are built.
*/
module FreeVariables {
  import opened Scheme
  import opened Relation
  import Program

  // ------------------------------------------------------------ specification

  /** The references of an expression that no lambda in it binds. */
  ghost function Free(e: Expr): set<Var>
    decreases e, 0
  {
    match e
    case Lit(_) => {}
    case Ref(x) => {x}
    case Set(x, e1) => {x} + Free(e1)
    case Cnd(t, p, f) => Free(t) + Free(p) + Free(f)
    case Seq(es) => FreeAll(es)
    case Lam(l) => set x | x in Free(l.body) && !Binds(l, x)
    case App(f, args) => Free(f) + FreeAll(args)
    case Prim(_, args) => FreeAll(args)
  }

  ghost function FreeAll(es: seq<Expr>): set<Var>
    decreases es, 0
  {
    if es == [] then {} else Free(es[0]) + FreeAll(es[1..])
  }

  predicate Binds(l: Lambda, x: Var) { x.lam == l.id && x.name in l.Names() }

  ghost function Elements(fv: seq<Var>): set<Var> { set x | x in fv }

  /** The list of every lambda is exactly its free variables, each once. */
  ghost predicate Exact(e: Expr)
    decreases e
  {
    match e
    case Lit(_) => true
    case Ref(_) => true
    case Set(_, e1) => Exact(e1)
    case Cnd(t, p, f) => Exact(t) && Exact(p) && Exact(f)
    case Seq(es) => forall e1 <- es :: Exact(e1)
    case Lam(l) => Distinct(l.fv) && Elements(l.fv) == Free(e) && Exact(l.body)
    case App(f, args) => Exact(f) && forall e1 <- args :: Exact(e1)
    case Prim(_, args) => forall e1 <- args :: Exact(e1)
  }

  /** The same expression but for the lists in its lambdas. */
  ghost predicate Same(e: Expr, e1: Expr)
    decreases e
  {
    match e
    case Lit(_) => e1 == e
    case Ref(_) => e1 == e
    case Set(x, a) => e1.Set? && e1.x == x && Same(a, e1.e)
    case Cnd(t, p, f) => e1.Cnd? && Same(t, e1.test) && Same(p, e1.pass) && Same(f, e1.fail)
    case Seq(es) => e1.Seq? && |e1.es| == |es| && forall i :: 0 <= i < |es| ==> Same(es[i], e1.es[i])
    case Lam(l) => e1.Lam? && e1.l == l.(fv := e1.l.fv, body := e1.l.body) && Same(l.body, e1.l.body)
    case App(f, args) =>
      e1.App? && Same(f, e1.f) && |e1.args| == |args| && forall i :: 0 <= i < |args| ==> Same(args[i], e1.args[i])
    case Prim(op, args) =>
      e1.Prim? && e1.op == op && |e1.args| == |args| && forall i :: 0 <= i < |args| ==> Same(args[i], e1.args[i])
  }

  // ----------------------------------------------------------------- analysis

  /** Put a reference in front of the list unless it is there. */
  method InsertFreeVar(x: Var, fv: seq<Var>) returns (r: seq<Var>)
    requires Distinct(fv)
    ensures Distinct(r) && Elements(r) == Elements(fv) + {x}
  {
    var i := 0;
    while i < |fv|
      invariant 0 <= i <= |fv| && x !in fv[..i]
    {
      if x.name == fv[i].name && x.lam == fv[i].lam {
        assert x == fv[i];
        return fv;
      }
      i := i + 1;
    }
    r := [x] + fv;
  }

  method UnionFreeVars(fv1: seq<Var>, fv2: seq<Var>) returns (r: seq<Var>)
    requires Distinct(fv1) && Distinct(fv2)
    ensures Distinct(r) && Elements(r) == Elements(fv1) + Elements(fv2)
  {
    if fv2 == [] {
      return fv1;
    }
    r := fv2;
    var i := 0;
    while i < |fv1|
      invariant 0 <= i <= |fv1| && Distinct(r) && Elements(r) == Elements(fv1[..i]) + Elements(fv2)
    {
      r := InsertFreeVar(fv1[i], r);
      assert fv1[..i + 1] == fv1[..i] + [fv1[i]];
      i := i + 1;
    }
    assert fv1[..|fv1|] == fv1;
  }

  /** Leave out what the lambda binds; this reverses the list. */
  method DiffFreeVars(l: Lambda, fv: seq<Var>, names: seq<Name>) returns (r: seq<Var>)
    requires Distinct(fv)
    ensures Distinct(r) && forall x :: x in r <==> x in fv && !(x.lam == l.id && x.name in names)
  {
    r := [];
    var i := 0;
    while i < |fv|
      invariant 0 <= i <= |fv| && Distinct(r)
      invariant forall x :: x in r <==> x in fv[..i] && !(x.lam == l.id && x.name in names)
    {
      if fv[i].lam != l.id || fv[i].name !in names {
        r := [fv[i]] + r;
      }
      i := i + 1;
    }
    assert fv[..|fv|] == fv;
  }

  /** Add the free variables of `e` to the list, and fill in the lists of its lambdas. */
  method FreeVars(e: Expr, fv: seq<Var>) returns (r: seq<Var>, e1: Expr)
    requires Distinct(fv)
    ensures Distinct(r) && Elements(r) == Elements(fv) + Free(e)
    ensures Same(e, e1) && Exact(e1)
    decreases e, 0
  {
    match e
    case Lit(_) =>
      r, e1 := fv, e;
    case Ref(x) =>
      r := InsertFreeVar(x, fv);
      e1 := e;
    case Set(x, a) =>
      var a1;
      r, a1 := FreeVars(a, fv);
      r := InsertFreeVar(x, r);
      e1 := Set(x, a1);
    case Cnd(t, p, f) =>
      var t1, p1, f1;
      r, t1 := FreeVars(t, fv);
      r, p1 := FreeVars(p, r);
      r, f1 := FreeVars(f, r);
      e1 := Cnd(t1, p1, f1);
    case Seq(es) =>
      var es1;
      r, es1 := FreeVarsOf(es, fv);
      e1 := Seq(es1);
    case Lam(l) =>
      var inner, body1 := FreeVars(l.body, []);
      var own := DiffFreeVars(l, inner, l.locals + l.Formals());
      r := UnionFreeVars(own, fv);
      e1 := Lam(l.(fv := own, body := body1));
      SameFree(l.body, body1);
      assert Elements(own) == Free(e);
    case App(f, args) =>
      var f1, args1;
      r, f1 := FreeVars(f, fv);
      r, args1 := FreeVarsOf(args, r);
      e1 := App(f1, args1);
    case Prim(op, args) =>
      var args1;
      r, args1 := FreeVarsOf(args, fv);
      e1 := Prim(op, args1);
  }

  method FreeVarsOf(es: seq<Expr>, fv: seq<Var>) returns (r: seq<Var>, es1: seq<Expr>)
    requires Distinct(fv)
    ensures Distinct(r) && Elements(r) == Elements(fv) + FreeAll(es)
    ensures |es1| == |es| && forall i :: 0 <= i < |es| ==> Same(es[i], es1[i]) && Exact(es1[i])
    decreases es, 1
  {
    r, es1 := fv, [];
    var i := 0;
    while i < |es|
      invariant 0 <= i == |es1| <= |es| && Distinct(r) && Elements(r) == Elements(fv) + FreeAll(es[..i])
      invariant forall j :: 0 <= j < i ==> Same(es[j], es1[j]) && Exact(es1[j])
    {
      var x;
      r, x := FreeVars(es[i], r);
      FreeAllSnoc(es, i);
      es1 := es1 + [x];
      i := i + 1;
    }
    assert es[..|es|] == es;
  }

  lemma {:induction false} FreeAllSnoc(es: seq<Expr>, i: nat)
    requires i < |es|
    ensures FreeAll(es[..i + 1]) == FreeAll(es[..i]) + Free(es[i])
    decreases i
  {
    if i == 0 {
      assert es[..1][1..] == [];
    } else {
      FreeAllSnoc(es[1..], i - 1);
      assert es[1..][..i] == es[..i + 1][1..] && es[1..][..i - 1] == es[..i][1..];
    }
  }

  lemma {:induction false} FreeAllMember(es: seq<Expr>, i: nat)
    requires i < |es|
    ensures Free(es[i]) <= FreeAll(es)
    decreases i
  {
    if i > 0 {
      FreeAllMember(es[1..], i - 1);
    }
  }

  lemma {:induction false} SameFree(e: Expr, e1: Expr)
    requires Same(e, e1)
    ensures Free(e) == Free(e1)
    decreases e, 0
  {
    match e
    case Lit(_) =>
    case Ref(_) =>
    case Set(_, a) => SameFree(a, e1.e);
    case Cnd(t, p, f) =>
      SameFree(t, e1.test);
      SameFree(p, e1.pass);
      SameFree(f, e1.fail);
    case Seq(es) => SameFreeAll(es, e1.es);
    case Lam(l) =>
      SameFree(l.body, e1.l.body);
      assert e1.l.Names() == l.Names();
    case App(f, args) =>
      SameFree(f, e1.f);
      SameFreeAll(args, e1.args);
    case Prim(_, args) => SameFreeAll(args, e1.args);
  }

  lemma {:induction false} SameFreeAll(es: seq<Expr>, es1: seq<Expr>)
    requires |es| == |es1| && forall i :: 0 <= i < |es| ==> Same(es[i], es1[i])
    ensures FreeAll(es) == FreeAll(es1)
    decreases es, 0
  {
    if es != [] {
      SameFree(es[0], es1[0]);
      SameFreeAll(es[1..], es1[1..]);
    }
  }

  // ------------------------------------------------- what compilation relies on

  /** An enclosing lambda, as far as references care. */
  datatype Binder = Binder(id: nat, names: seq<Name>)

  predicate BoundIn(x: Var, scope: seq<Binder>) {
    exists b <- scope :: b.id == x.lam && x.name in b.names
  }

  /**
    What the analyser hands over: every reference names an enclosing lambda and
    one of its variables, lambdas have identities of their own, and the `sv`
    lists are the assigned variables.
  */
  ghost predicate Resolved(e: Expr, scope: seq<Binder>, sv: set<Var>)
    decreases e
  {
    match e
    case Lit(_) => true
    case Ref(x) => BoundIn(x, scope)
    case Set(x, e1) => BoundIn(x, scope) && x in sv && Resolved(e1, scope, sv)
    case Cnd(t, p, f) => Resolved(t, scope, sv) && Resolved(p, scope, sv) && Resolved(f, scope, sv)
    case Seq(es) => |es| >= 1 && forall e1 <- es :: Resolved(e1, scope, sv)
    case Lam(l) =>
      && (forall b <- scope :: b.id != l.id)
      && Distinct(l.Names()) && Distinct(l.sv)
      && (forall n :: n in l.sv ==> n in l.Names())
      && (forall n :: n in l.Names() ==> (n in l.sv <==> Var(n, l.id) in sv))
      && Resolved(l.body, scope + [Binder(l.id, l.Names())], sv)
    case App(f, args) => Resolved(f, scope, sv) && forall e1 <- args :: Resolved(e1, scope, sv)
    case Prim(op, args) => ArityOk(op, |args|) && forall e1 <- args :: Resolved(e1, scope, sv)
  }

  lemma {:induction false} SameResolved(e: Expr, e1: Expr, scope: seq<Binder>, sv: set<Var>)
    requires Same(e, e1) && Resolved(e, scope, sv)
    ensures Resolved(e1, scope, sv)
    decreases e
  {
    match e
    case Lit(_) =>
    case Ref(_) =>
    case Set(_, a) => SameResolved(a, e1.e, scope, sv);
    case Cnd(t, p, f) =>
      SameResolved(t, e1.test, scope, sv);
      SameResolved(p, e1.pass, scope, sv);
      SameResolved(f, e1.fail, scope, sv);
    case Seq(es) =>
      forall i | 0 <= i < |es| ensures Resolved(e1.es[i], scope, sv) { SameResolved(es[i], e1.es[i], scope, sv); }
    case Lam(l) =>
      assert e1.l.Names() == l.Names();
      SameResolved(l.body, e1.l.body, scope + [Binder(l.id, l.Names())], sv);
    case App(f, args) =>
      SameResolved(f, e1.f, scope, sv);
      forall i | 0 <= i < |args| ensures Resolved(e1.args[i], scope, sv) { SameResolved(args[i], e1.args[i], scope, sv); }
    case Prim(_, args) =>
      forall i | 0 <= i < |args| ensures Resolved(e1.args[i], scope, sv) { SameResolved(args[i], e1.args[i], scope, sv); }
  }

  /** What is free in a resolved expression is bound by an enclosing lambda. */
  lemma {:induction false} FreeAreBound(e: Expr, scope: seq<Binder>, sv: set<Var>)
    requires Resolved(e, scope, sv)
    ensures forall x <- Free(e) :: BoundIn(x, scope)
    decreases e, 0
  {
    match e
    case Lit(_) =>
    case Ref(_) =>
    case Set(_, a) => FreeAreBound(a, scope, sv);
    case Cnd(t, p, f) =>
      FreeAreBound(t, scope, sv);
      FreeAreBound(p, scope, sv);
      FreeAreBound(f, scope, sv);
    case Seq(es) => AllFreeAreBound(es, scope, sv);
    case Lam(l) => FreeAreBound(l.body, scope + [Binder(l.id, l.Names())], sv);
    case App(f, args) =>
      FreeAreBound(f, scope, sv);
      AllFreeAreBound(args, scope, sv);
    case Prim(_, args) => AllFreeAreBound(args, scope, sv);
  }

  lemma {:induction false} AllFreeAreBound(es: seq<Expr>, scope: seq<Binder>, sv: set<Var>)
    requires forall e <- es :: Resolved(e, scope, sv)
    ensures forall x <- FreeAll(es) :: BoundIn(x, scope)
    decreases es, 0
  {
    if es != [] {
      FreeAreBound(es[0], scope, sv);
      AllFreeAreBound(es[1..], scope, sv);
    }
  }

  /** In the body of a lambda, its own variables and its list cover everything free. */
  lemma BodyInScope(l: Lambda, scope: seq<Binder>, sv: set<Var>)
    requires Resolved(Lam(l), scope, sv) && Exact(Lam(l))
    ensures forall x <- Free(l.body) :: InScope(x, l)
    ensures forall x <- l.fv :: x.lam != l.id
  {
    var inner := scope + [Binder(l.id, l.Names())];
    FreeAreBound(l.body, inner, sv);
    forall x <- Free(l.body)
      ensures InScope(x, l) && (x in l.fv ==> x.lam != l.id)
    {
      var b :| b in inner && b.id == x.lam && x.name in b.names;
      if x.lam == l.id {
        assert b == Binder(l.id, l.Names());
        assert Binds(l, x) && x !in Free(Lam(l)) && x !in Elements(l.fv);
      } else {
        assert x in Free(Lam(l));
        assert x in Elements(l.fv);
      }
    }
    forall x <- l.fv
      ensures x in Free(l.body)
    {
      assert x in Elements(l.fv);
    }
  }

  /** Exact lists make every reference find its slot, also when an inner closure is built. */
  lemma {:induction false} ExactIsWellFormed(e: Expr, lam: Lambda, scope: seq<Binder>, sv: set<Var>)
    requires Resolved(e, scope, sv) && Exact(e) && forall x <- Free(e) :: InScope(x, lam)
    ensures Wf(e, lam, sv)
    decreases e, 0
  {
    match e
    case Lit(_) =>
    case Ref(_) =>
    case Set(x, a) => ExactIsWellFormed(a, lam, scope, sv);
    case Cnd(t, p, f) =>
      ExactIsWellFormed(t, lam, scope, sv);
      ExactIsWellFormed(p, lam, scope, sv);
      ExactIsWellFormed(f, lam, scope, sv);
    case Seq(es) => AllWellFormed(es, lam, scope, sv);
    case Lam(l) =>
      BodyInScope(l, scope, sv);
      ExactIsWellFormed(l.body, l, scope + [Binder(l.id, l.Names())], sv);
      forall x <- l.fv
        ensures InScope(x, lam)
      {
        assert x in Elements(l.fv);
      }
    case App(f, args) =>
      ExactIsWellFormed(f, lam, scope, sv);
      AllWellFormed(args, lam, scope, sv);
    case Prim(_, args) => AllWellFormed(args, lam, scope, sv);
  }

  lemma {:induction false} AllWellFormed(es: seq<Expr>, lam: Lambda, scope: seq<Binder>, sv: set<Var>)
    requires (forall e <- es :: Resolved(e, scope, sv)) && (forall e <- es :: Exact(e))
    requires forall x <- FreeAll(es) :: InScope(x, lam)
    ensures forall i :: 0 <= i < |es| ==> Wf(es[i], lam, sv)
    decreases es, 0
  {
    if es != [] {
      ExactIsWellFormed(es[0], lam, scope, sv);
      AllWellFormed(es[1..], lam, scope, sv);
    }
  }

  /** The analysed program, with its lists filled in, is fit to be compiled. */
  method Annotate(e: Expr, sv: set<Var>) returns (e1: Expr)
    requires Resolved(e, [], sv)
    ensures Same(e, e1) && Exact(e1) && Program.WfProgram(e1, sv)
  {
    var fv;
    fv, e1 := FreeVars(e, []);
    SameResolved(e, e1, [], sv);
    FreeAreBound(e1, [], sv);
    ExactIsWellFormed(e1, Program.Top(e1), [], sv);
  }
}
