/**
  The simplifier as a function: what it makes of an expression under a list of
  variables that stand for constants.  Whatever it makes is a rewriting, so the
  simplified program has the outcome of the original.
*/
module Simplifier {
  import opened Options
  import opened Scheme
  import opened FreeVariables
  import opened KnownValues
  import Relation
  import Program
  import opened Rewriting
  import opened Composition

  /** Outside of every lambda the operator of a direct application is left alone; inside a lambda it is treated as `let`. */
  datatype Mode = Outside | Inside

  function Size(e: Expr): nat
    decreases e, 0
  {
    match e
    case Lit(_) => 1
    case Ref(_) => 1
    case Set(_, a) => 1 + Size(a)
    case Cnd(t, p, f) => 1 + Size(t) + Size(p) + Size(f)
    case Seq(es) => 1 + SizeAll(es)
    case Lam(l) => 1 + Size(l.body)
    case App(f, args) => 1 + Size(f) + SizeAll(args)
    case Prim(_, args) => 1 + SizeAll(args)
  }

  function SizeAll(es: seq<Expr>): nat
    decreases es, 0
  {
    if es == [] then 0 else 1 + Size(es[0]) + SizeAll(es[1..])
  }

  /** Constant arguments for parameters that are never assigned. */
  function PlanFor(params: seq<Name>, args: seq<Expr>, sv: seq<Name>): (p: Plan)
    requires |params| == |args|
    ensures |p| == |args|
    ensures forall i :: 0 <= i < |p| ==> (p[i].Some? <==> params[i] !in sv && args[i].Lit?)
    ensures forall i :: 0 <= i < |p| && p[i].Some? ==> args[i] == Lit(p[i].value)
  {
    seq(|args|, i requires 0 <= i < |args| =>
      if params[i] !in sv && args[i].Lit? then Some(args[i].c) else None)
  }

  // ----------------------------------------------------------- the simplifier

  function Simplify(e: Expr, s: Substs, mode: Mode): (r: Expr)
    ensures Size(r) <= Size(e)
    decreases Size(e), 0
  {
    match e
    case Lit(_) => e
    case Ref(x) => if x in s then Lit(s[x]) else e
    case Set(x, a) => Set(x, Simplify(a, s, mode))
    case Cnd(t, p, f) =>
      var t1 := Simplify(t, s, mode);
      if t1.Lit? then Simplify(if t1.c == Bool(false) then f else p, s, mode)
      else Cnd(t1, Simplify(p, s, mode), Simplify(f, s, mode))
    case Seq(es) =>
      var es1 := SimplifySeq(es, s, mode);
      SizeOne(es1);
      if |es1| == 1 then es1[0] else Seq(es1)
    case Lam(l) => Lam(l.(body := Simplify(l.body, s, Inside)))
    case App(f, args) =>
      var args1 := SimplifyAll(args, s, mode);
      var f1 := if f.Lam? then f else Simplify(f, s, mode);
      if mode.Inside? && f1.Lam? then SimplifyLet(f1.l, args1, s) else App(f1, args1)
    case Prim(op, args) =>
      var args1 := SimplifyAll(args, s, mode);
      var folded := Fold(op, args1);
      if folded.Some? then Lit(folded.value) else Prim(op, args1)
  }

  function SimplifyAll(es: seq<Expr>, s: Substs, mode: Mode): (r: seq<Expr>)
    ensures |r| == |es| && SizeAll(r) <= SizeAll(es)
    decreases SizeAll(es), 1
  {
    if es == [] then [] else [Simplify(es[0], s, mode)] + SimplifyAll(es[1..], s, mode)
  }

  /** Elements before the last that turn out to have no effect are dropped. */
  function SimplifySeq(es: seq<Expr>, s: Substs, mode: Mode): (r: seq<Expr>)
    ensures SizeAll(r) <= SizeAll(es) && (es != [] ==> r != [])
    decreases SizeAll(es), 1
  {
    if es == [] then []
    else
      var e1 := Simplify(es[0], s, mode);
      var rest := SimplifySeq(es[1..], s, mode);
      assert ([e1] + rest)[1..] == rest;
      if |es| > 1 && Pure(e1) then rest else [e1] + rest
  }

  /** A directly applied lambda: move constants in, and simplify the body with them. */
  function SimplifyLet(l: Lambda, args: seq<Expr>, s: Substs): (r: Expr)
    ensures Size(r) <= 2 + Size(l.body) + SizeAll(args)
    decreases Size(l.body), 2
  {
    if |l.params| == |args| then
      var plan := PlanFor(l.params, args, l.sv);
      PickSize(args, plan);
      App(Lam(l.(params := Pick(l.params, plan), body := Simplify(l.body, s + Moved(l.params, plan, l.id), Inside))),
          Pick(args, plan))
    else
      App(Lam(l.(body := Simplify(l.body, s, Inside))), args)
  }

  /** Arithmetic on constants is run at once; an exception leaves it for later. */
  function Fold(op: Opcode, args: seq<Expr>): Option<Const> {
    if ClassOf(op) == Arithmetic && forall a <- args :: a.Lit? then
      match Eval(Prim(op, args), map[], [], 0)
      case Ok(v, _) => if v.Imm? then Some(v.c) else None
      case _ => None
    else None
  }

  lemma SizeOne(es: seq<Expr>)
    ensures |es| == 1 ==> SizeAll(es) == 1 + Size(es[0])
  {
    if |es| == 1 {
      assert es[1..] == [];
    }
  }

  lemma {:induction false} PickSize(es: seq<Expr>, plan: Plan)
    requires |es| == |plan|
    ensures SizeAll(Pick(es, plan)) <= SizeAll(es)
    decreases |es|
  {
    if es != [] {
      PickSize(es[1..], plan[1..]);
      if plan[0].None? {
        assert Pick(es, plan)[1..] == Pick(es[1..], plan[1..]);
      } else {
        assert Pick(es, plan) == Pick(es[1..], plan[1..]);
      }
    }
  }

  // ---------------------------------------------------- what is made resolves

  /** The same lambdas, less the variables that are gone. */
  ghost predicate Narrower(scope: seq<Binder>, scope1: seq<Binder>, s: Substs) {
    IdsWithin(scope1, scope) && IdsWithin(scope, scope1) && BoundKept(scope, scope1, s)
  }

  ghost predicate IdsWithin(scope: seq<Binder>, scope1: seq<Binder>) {
    forall b <- scope :: exists b1 <- scope1 :: b1.id == b.id
  }

  ghost predicate BoundKept(scope: seq<Binder>, scope1: seq<Binder>, s: Substs) {
    forall x :: BoundIn(x, scope) && x !in s ==> BoundIn(x, scope1)
  }

  lemma {:induction false} RewritesResolved(e: Expr, e1: Expr, s: Substs, scope: seq<Binder>, scope1: seq<Binder>, sv: set<Var>)
    requires Rewrites(e, e1, s) && Resolved(e, scope, sv) && Narrower(scope, scope1, s)
    ensures Resolved(e1, scope1, sv)
    decreases e, 2
  {
    hide Narrower;
    if Replaced(e, e1, s) {
      return;
    }
    match e
    case Ref(x) => NarrowerKeeps(x, scope, scope1, s);
    case Set(x, a) =>
      NarrowerKeeps(x, scope, scope1, s);
      RewritesResolved(a, e1.e, s, scope, scope1, sv);
    case Cnd(t, p, f) =>
      if CndKept(t, p, f, e1, s) {
        RewritesResolved(t, e1.test, s, scope, scope1, sv);
        RewritesResolved(p, e1.pass, s, scope, scope1, sv);
        RewritesResolved(f, e1.fail, s, scope, scope1, sv);
      } else {
        RewritesResolved(Branch(Known(t, s).value, p, f), e1, s, scope, scope1, sv);
      }
    case Seq(es) =>
      if e1.Seq? && RewritesSeq(es, e1.es, s) {
        SeqResolved(es, e1.es, s, scope, scope1, sv);
      } else {
        SeqResolved(es, [e1], s, scope, scope1, sv);
        assert e1 in [e1];
      }
    case Lam(l) =>
      LambdaShrinks(l, e1.l, s);
      ShrunkResolved(l, e1.l, Nones(|l.params|), s, scope, scope1, sv);
    case App(f, args) => AppResolved(f, args, e1, s, scope, scope1, sv);
    case Prim(_, args) =>
      forall i | 0 <= i < |args| ensures Resolved(e1.args[i], scope1, sv) {
        RewritesResolved(args[i], e1.args[i], s, scope, scope1, sv);
      }
  }

  lemma {:induction false} NarrowerKeeps(x: Var, scope: seq<Binder>, scope1: seq<Binder>, s: Substs)
    requires Narrower(scope, scope1, s) && BoundIn(x, scope) && x !in s
    ensures BoundIn(x, scope1)
  {
  }

  lemma {:induction false} SeqResolved(es: seq<Expr>, es1: seq<Expr>, s: Substs, scope: seq<Binder>, scope1: seq<Binder>, sv: set<Var>)
    requires es != [] && RewritesSeq(es, es1, s) && (forall e <- es :: Resolved(e, scope, sv)) && Narrower(scope, scope1, s)
    ensures es1 != [] && forall e <- es1 :: Resolved(e, scope1, sv)
    decreases es, 0
  {
    hide Narrower;
    hide Rewrites;
    hide Idle;
    if |es| == 1 {
      RewritesResolved(es[0], es1[0], s, scope, scope1, sv);
    } else if es1 != [] && Rewrites(es[0], es1[0], s) && RewritesSeq(es[1..], es1[1..], s) {
      RewritesResolved(es[0], es1[0], s, scope, scope1, sv);
      SeqResolved(es[1..], es1[1..], s, scope, scope1, sv);
    } else {
      SeqResolved(es[1..], es1, s, scope, scope1, sv);
    }
  }

  lemma {:induction false} AppResolved(f: Expr, args: seq<Expr>, e1: Expr, s: Substs, scope: seq<Binder>, scope1: seq<Binder>, sv: set<Var>)
    requires Rewrites(App(f, args), e1, s) && Resolved(App(f, args), scope, sv) && Narrower(scope, scope1, s)
    ensures Resolved(e1, scope1, sv)
    decreases App(f, args), 1
  {
    hide Narrower;
    hide Rewrites;
    hide Shrinks;
    hide RewritesArgs;
    var plan := AppCases(f, args, e1, s);
    ArgsResolved(args, plan, e1.args, s, scope, scope1, sv);
    if Rewrites(f, e1.f, s) {
      RewritesResolved(f, e1.f, s, scope, scope1, sv);
    } else {
      HeadInside(f, s, scope, sv);
      ShrunkResolved(Head(f, s).value, e1.f.l, plan, s, scope, scope1, sv);
    }
  }

  lemma {:induction false} ArgsResolved(args: seq<Expr>, plan: Plan, args1: seq<Expr>, s: Substs,
                                        scope: seq<Binder>, scope1: seq<Binder>, sv: set<Var>)
    requires |plan| == |args| && RewritesArgs(args, plan, args1, s)
    requires (forall e <- args :: Resolved(e, scope, sv)) && Narrower(scope, scope1, s)
    ensures forall e <- args1 :: Resolved(e, scope1, sv)
    decreases args, 0
  {
    hide Narrower;
    hide Rewrites;
    hide Known;
    if args != [] {
      if plan[0].Some? {
        ArgsResolved(args[1..], plan[1..], args1, s, scope, scope1, sv);
      } else {
        RewritesResolved(args[0], args1[0], s, scope, scope1, sv);
        ArgsResolved(args[1..], plan[1..], args1[1..], s, scope, scope1, sv);
      }
    }
  }

  lemma {:induction false} ShrunkResolved(l: Lambda, l1: Lambda, plan: Plan, s: Substs,
                                          scope: seq<Binder>, scope1: seq<Binder>, sv: set<Var>)
    requires Shrinks(l, l1, plan, s) && Resolved(Lam(l), scope, sv) && Narrower(scope, scope1, s)
    ensures Resolved(Lam(l1), scope1, sv)
    decreases Lam(l), 1
  {
    hide Rewrites;
    hide Narrower;
    hide Shrinks;
    hide Moved;
    ShrinksLength(l, l1, plan, s);
    NamesResolve(l, l1, plan, s);
    BodyNarrower(l, l1, plan, s, scope, scope1);
    BodyRewrites(l, l1, plan, s);
    RewritesResolved(l.body, l1.body, s + Moved(l.params, plan, l.id),
                     scope + [Binder(l.id, l.Names())], scope1 + [Binder(l.id, l1.Names())], sv);
  }

  lemma BodyRewrites(l: Lambda, l1: Lambda, plan: Plan, s: Substs)
    requires Shrinks(l, l1, plan, s)
    ensures |plan| == |l.params| && Rewrites(l.body, l1.body, s + Moved(l.params, plan, l.id))
  {
  }

  lemma NamesResolve(l: Lambda, l1: Lambda, plan: Plan, s: Substs)
    requires Shrinks(l, l1, plan, s) && Relation.Distinct(l.Names()) && forall n :: n in l.sv ==> n in l.Names()
    ensures l1.id == l.id && l1.sv == l.sv && Relation.Distinct(l1.Names())
    ensures (forall n :: n in l1.Names() ==> n in l.Names()) && (forall n :: n in l1.sv ==> n in l1.Names())
  {
    hide Rewrites;
    NamesShrink(l, l1, plan, s);
    var names, kept := l.Names(), plan + Nones(|l.Names()| - |plan|);
    PickDistinct(names, kept);
    PickedAmong(names, kept);
    forall n | n in l.sv
      ensures n in l1.Names()
    {
      NameStays(l, l1, plan, s, n);
    }
  }

  lemma NamesShrink(l: Lambda, l1: Lambda, plan: Plan, s: Substs)
    requires Shrinks(l, l1, plan, s)
    ensures |plan| <= |l.Names()| && l1.Names() == Pick(l.Names(), plan + Nones(|l.Names()| - |plan|))
  {
    hide Rewrites;
    var tail := (if l.rest.Some? then [l.rest.value] else []) + l.locals;
    assert l.Names() == l.params + tail && l1.Names() == l1.params + tail;
    PickAppend(l.params, tail, plan, |tail|);
  }

  /** What the plan does not move is still bound. */
  lemma NameStays(l: Lambda, l1: Lambda, plan: Plan, s: Substs, n: Name)
    requires Shrinks(l, l1, plan, s) && n in l.Names()
    requires forall i :: 0 <= i < |plan| && plan[i].Some? ==> l.params[i] != n
    ensures n in l1.Names()
  {
    hide Rewrites;
    NamesShrink(l, l1, plan, s);
    var i: nat :| i < |l.Names()| && l.Names()[i] == n;
    assert i < |plan| ==> l.params[i] == n;
    PickKeeps(l.Names(), plan + Nones(|l.Names()| - |plan|), i);
  }

  lemma {:induction false} MovedHas(names: seq<Name>, plan: Plan, id: nat, i: nat)
    requires |names| == |plan| && i < |plan| && plan[i].Some?
    ensures Var(names[i], id) in Moved(names, plan, id)
    decreases |names|
  {
    if i > 0 {
      MovedHas(names[1..], plan[1..], id, i - 1);
    }
  }

  lemma {:induction false} BodyNarrower(l: Lambda, l1: Lambda, plan: Plan, s: Substs, scope: seq<Binder>, scope1: seq<Binder>)
    requires Shrinks(l, l1, plan, s) && Narrower(scope, scope1, s) && forall b <- scope :: b.id != l.id
    ensures forall b <- scope1 :: b.id != l.id
    ensures Narrower(scope + [Binder(l.id, l.Names())], scope1 + [Binder(l.id, l1.Names())], s + Moved(l.params, plan, l.id))
  {
    hide IdsWithin;
    hide BoundKept;
    hide Shrinks;
    hide Moved;
    ShrinksLength(l, l1, plan, s);
    NotAmong(scope, scope1, l.id);
    IdsSnoc(scope, scope1, Binder(l.id, l.Names()), Binder(l.id, l1.Names()));
    IdsSnoc(scope1, scope, Binder(l.id, l1.Names()), Binder(l.id, l.Names()));
    BoundSnocKept(l, l1, plan, s, scope, scope1);
  }

  lemma {:induction false} NotAmong(scope: seq<Binder>, scope1: seq<Binder>, id: nat)
    requires IdsWithin(scope1, scope) && forall b <- scope :: b.id != id
    ensures forall b <- scope1 :: b.id != id
  {
  }

  lemma {:induction false} IdsSnoc(scope: seq<Binder>, scope1: seq<Binder>, b: Binder, b1: Binder)
    requires IdsWithin(scope, scope1) && b.id == b1.id
    ensures IdsWithin(scope + [b], scope1 + [b1])
  {
    forall c <- scope + [b]
      ensures exists c1 <- scope1 + [b1] :: c1.id == c.id
    {
      if c in scope {
        var c1 :| c1 in scope1 && c1.id == c.id;
        assert c1 in scope1 + [b1];
      } else {
        assert b1 in scope1 + [b1];
      }
    }
  }

  lemma {:induction false} BoundSnocKept(l: Lambda, l1: Lambda, plan: Plan, s: Substs, scope: seq<Binder>, scope1: seq<Binder>)
    requires Shrinks(l, l1, plan, s) && |plan| == |l.params| && BoundKept(scope, scope1, s)
    ensures BoundKept(scope + [Binder(l.id, l.Names())], scope1 + [Binder(l.id, l1.Names())], s + Moved(l.params, plan, l.id))
  {
    hide BoundIn;
    hide Shrinks;
    hide Moved;
    var b, b1, moved := Binder(l.id, l.Names()), Binder(l.id, l1.Names()), Moved(l.params, plan, l.id);
    forall x | BoundIn(x, scope + [b]) && x !in s + moved
      ensures BoundIn(x, scope1 + [b1])
    {
      BoundSnoc(x, scope, b);
      BoundSnoc(x, scope1, b1);
      if !BoundIn(x, scope) {
        OwnStays(l, l1, plan, s, x);
      }
    }
  }

  lemma {:induction false} BoundSnoc(x: Var, scope: seq<Binder>, b: Binder)
    ensures BoundIn(x, scope + [b]) <==> BoundIn(x, scope) || (b.id == x.lam && x.name in b.names)
  {
    assert b in scope + [b];
    if BoundIn(x, scope) {
      var c :| c in scope && c.id == x.lam && x.name in c.names;
      assert c in scope + [b];
    }
  }

  lemma {:induction false} OwnStays(l: Lambda, l1: Lambda, plan: Plan, s: Substs, x: Var)
    requires Shrinks(l, l1, plan, s) && Binds(l, x) && x !in Moved(l.params, plan, l.id)
    ensures Binds(l1, x)
  {
    hide Rewrites;
    forall i | 0 <= i < |plan| && plan[i].Some? ensures l.params[i] != x.name { MovedHas(l.params, plan, l.id, i); }
    NameStays(l, l1, plan, s, x.name);
  }

  // --------------------------------------------------- what is made rewrites

  lemma {:induction false} RewritesRefl(e: Expr)
    ensures Rewrites(e, e, map[])
    decreases e, 0
  {
    match e
    case Lit(_) =>
    case Ref(_) =>
    case Set(_, a) => RewritesRefl(a);
    case Cnd(t, p, f) =>
      RewritesRefl(t);
      RewritesRefl(p);
      RewritesRefl(f);
    case Seq(es) => SeqRefl(es);
    case Lam(l) => RewritesRefl(l.body);
    case App(f, args) =>
      RewritesRefl(f);
      AllRefl(args);
    case Prim(_, args) => AllRefl(args);
  }

  lemma {:induction false} AllRefl(es: seq<Expr>)
    ensures RewritesAll(es, es, map[])
    decreases es, 0
  {
    forall i | 0 <= i < |es| ensures Rewrites(es[i], es[i], map[]) { RewritesRefl(es[i]); }
  }

  lemma {:induction false} SeqRefl(es: seq<Expr>)
    ensures RewritesSeq(es, es, map[])
    decreases es, 0
  {
    if es != [] {
      RewritesRefl(es[0]);
      SeqRefl(es[1..]);
    }
  }

  /** What the simplifier makes of an expression is a rewriting of it. */
  lemma {:induction false} SimplifyRewrites(e: Expr, s: Substs, mode: Mode, scope: seq<Binder>, sv: set<Var>)
    requires Resolved(e, scope, sv) && Fit(s, scope, sv) && (mode.Outside? ==> s == map[])
    ensures Rewrites(e, Simplify(e, s, mode), s)
    decreases Size(e), 1
  {
    hide Fit;
    hide Size;
    match e
    case Lit(_) =>
    case Ref(_) =>
    case Set(x, a) =>
      SizeParts(e);
      NotReplaced(x, s, scope, sv);
      SimplifyRewrites(a, s, mode, scope, sv);
    case Cnd(t, p, f) => CndRewrites(t, p, f, s, mode, scope, sv);
    case Seq(es) =>
      SizeParts(e);
      SeqRewrites(es, s, mode, scope, sv);
      var es1 := SimplifySeq(es, s, mode);
      if |es1| == 1 {
        assert es1 == [es1[0]];
      }
    case Lam(l) =>
      SizeParts(e);
      LambdaFits(l, s, scope, sv);
      SimplifyRewrites(l.body, s, Inside, scope + [Binder(l.id, l.Names())], sv);
    case App(f, args) => AppRewrites(f, args, s, mode, scope, sv);
    case Prim(op, args) =>
      SizeParts(e);
      AllRewrites(args, s, mode, scope, sv);
      PrimRewrites(op, args, SimplifyAll(args, s, mode), s);
  }

  lemma SizeParts(e: Expr)
    ensures match e
            case Set(_, a) => Size(a) < Size(e)
            case Cnd(t, p, f) => Size(t) < Size(e) && Size(p) < Size(e) && Size(f) < Size(e)
            case Seq(es) => SizeAll(es) < Size(e)
            case Lam(l) => Size(l.body) < Size(e)
            case App(f, args) => Size(f) + SizeAll(args) < Size(e)
            case Prim(_, args) => SizeAll(args) < Size(e)
            case _ => true
  {
  }

  lemma NotReplaced(x: Var, s: Substs, scope: seq<Binder>, sv: set<Var>)
    requires x in sv && Fit(s, scope, sv)
    ensures x !in s
  {
  }

  lemma {:induction false} AllRewrites(es: seq<Expr>, s: Substs, mode: Mode, scope: seq<Binder>, sv: set<Var>)
    requires (forall e <- es :: Resolved(e, scope, sv)) && Fit(s, scope, sv) && (mode.Outside? ==> s == map[])
    ensures RewritesAll(es, SimplifyAll(es, s, mode), s)
    decreases SizeAll(es), 1
  {
    hide Fit;
    hide Rewrites;
    hide Simplify;
    if es != [] {
      SimplifyRewrites(es[0], s, mode, scope, sv);
      AllRewrites(es[1..], s, mode, scope, sv);
    }
  }

  /** A test that comes out constant was known. */
  lemma LiteralKnown(e: Expr, e1: Expr, s: Substs)
    requires Rewrites(e, e1, s) && e1.Lit?
    ensures Known(e, s) == Some(e1.c)
  {
    KnownThrough(e, e1, s, map[]);
    assert map[] + s == s;
  }

  lemma {:induction false} CndRewrites(t: Expr, p: Expr, f: Expr, s: Substs, mode: Mode, scope: seq<Binder>, sv: set<Var>)
    requires Resolved(Cnd(t, p, f), scope, sv) && Fit(s, scope, sv) && (mode.Outside? ==> s == map[])
    ensures Rewrites(Cnd(t, p, f), Simplify(Cnd(t, p, f), s, mode), s)
    decreases Size(Cnd(t, p, f)), 0
  {
    hide Fit;
    hide Size;
    SizeParts(Cnd(t, p, f));
    SimplifyRewrites(t, s, mode, scope, sv);
    var t1 := Simplify(t, s, mode);
    if t1.Lit? {
      LiteralKnown(t, t1, s);
      SimplifyRewrites(Branch(t1.c, p, f), s, mode, scope, sv);
    } else {
      SimplifyRewrites(p, s, mode, scope, sv);
      SimplifyRewrites(f, s, mode, scope, sv);
    }
  }

  /** A dropped element had no effect. */
  lemma PureIdle(e: Expr, e1: Expr, s: Substs)
    requires Rewrites(e, e1, s) && Pure(e1)
    ensures Idle(e, s)
  {
    IdleThrough(e, e1, s, map[]);
    assert map[] + s == s;
  }

  lemma {:induction false} SeqRewrites(es: seq<Expr>, s: Substs, mode: Mode, scope: seq<Binder>, sv: set<Var>)
    requires es != [] && (forall e <- es :: Resolved(e, scope, sv)) && Fit(s, scope, sv) && (mode.Outside? ==> s == map[])
    ensures RewritesSeq(es, SimplifySeq(es, s, mode), s)
    decreases SizeAll(es), 1
  {
    hide Fit;
    hide Rewrites;
    hide Simplify;
    hide Idle;
    SimplifyRewrites(es[0], s, mode, scope, sv);
    if |es| > 1 {
      SeqRewrites(es[1..], s, mode, scope, sv);
      var e1 := Simplify(es[0], s, mode);
      if Pure(e1) {
        PureIdle(es[0], e1, s);
      } else {
        assert SimplifySeq(es, s, mode)[1..] == SimplifySeq(es[1..], s, mode);
      }
    }
  }

  lemma PrimRewrites(op: Opcode, args: seq<Expr>, args1: seq<Expr>, s: Substs)
    requires RewritesAll(args, args1, s)
    ensures var folded := Fold(op, args1);
            Rewrites(Prim(op, args), if folded.Some? then Lit(folded.value) else Prim(op, args1), s)
  {
    var e1 := Prim(op, args1);
    assert Rewrites(Prim(op, args), e1, s);
    if Fold(op, args1).Some? {
      LiteralsClosed(args1);
      AllKnownRuns(args1, map[], map[], [], 0);
      assert Known(e1, map[]) == Fold(op, args1);
      KnownThrough(Prim(op, args), e1, s, map[]);
      assert map[] + s == s;
    }
  }

  lemma {:induction false} LiteralsClosed(es: seq<Expr>)
    requires forall e <- es :: e.Lit?
    ensures FreeAll(es) == {}
    decreases |es|
  {
    if es != [] {
      LiteralsClosed(es[1..]);
    }
  }

  // ------------------------------------------------------------- applications

  lemma {:induction false} AppRewrites(f: Expr, args: seq<Expr>, s: Substs, mode: Mode, scope: seq<Binder>, sv: set<Var>)
    requires Resolved(App(f, args), scope, sv) && Fit(s, scope, sv) && (mode.Outside? ==> s == map[])
    ensures Rewrites(App(f, args), Simplify(App(f, args), s, mode), s)
    decreases Size(App(f, args)), 0
  {
    hide Fit;
    hide Size;
    hide Rewrites;
    hide SimplifyLet;
    SizeParts(App(f, args));
    AllRewrites(args, s, mode, scope, sv);
    var args1 := SimplifyAll(args, s, mode);
    if f.Lam? {
      if mode.Inside? {
        RewritesRefl(f);
        NoneFit(scope, sv);
        SizeParts(f);
        LetRewrites(f, f.l, args, args1, map[], s, scope, sv);
      } else {
        RewritesRefl(f);
        KeepApp(f, args, App(f, args1), s);
      }
    } else {
      SimplifyRewrites(f, s, mode, scope, sv);
      var f1 := Simplify(f, s, mode);
      if mode.Inside? && f1.Lam? {
        SizeParts(f1);
        LetRewrites(f, f1.l, args, args1, s, s, scope, sv);
      } else {
        KeepApp(f, args, App(f1, args1), s);
      }
    }
  }

  /** The operator is, or has become, a lambda. */
  lemma {:induction false} LetRewrites(f: Expr, l1: Lambda, args: seq<Expr>, args1: seq<Expr>, s0: Substs, s: Substs,
                                       scope: seq<Binder>, sv: set<Var>)
    requires Rewrites(f, Lam(l1), s0) && (s0 == map[] || s0 == s) && RewritesAll(args, args1, s)
    requires Resolved(App(f, args), scope, sv) && Fit(s0, scope, sv) && Fit(s, scope, sv)
    ensures Rewrites(App(f, args), SimplifyLet(l1, args1, s), s)
    decreases Size(l1.body), 3
  {
    hide *;
    assert s + s0 == s;
    NarrowerSelf(scope, s0);
    OperatorResolves(f, args, scope, sv);
    RewritesResolved(f, Lam(l1), s0, scope, scope, sv);
    if |l1.params| == |args1| {
      LetMoves(f, l1, args, args1, s0, s, scope, sv);
    } else {
      LetKeeps(f, l1, args, args1, s0, s, scope, sv);
    }
  }

  lemma OperatorResolves(f: Expr, args: seq<Expr>, scope: seq<Binder>, sv: set<Var>)
    requires Resolved(App(f, args), scope, sv)
    ensures Resolved(f, scope, sv)
  {
  }

  /** Constant arguments are moved into the body. */
  lemma {:induction false} LetMoves(f: Expr, l1: Lambda, args: seq<Expr>, args1: seq<Expr>, s0: Substs, s: Substs,
                                    scope: seq<Binder>, sv: set<Var>)
    requires |l1.params| == |args1| && Rewrites(f, Lam(l1), s0) && s + s0 == s && RewritesAll(args, args1, s)
    requires Resolved(f, scope, sv) && Resolved(Lam(l1), scope, sv) && Fit(s0, scope, sv) && Fit(s, scope, sv)
    ensures Rewrites(App(f, args), SimplifyLet(l1, args1, s), s)
    decreases Size(l1.body), 2
  {
    hide Fit;
    hide Rewrites;
    hide Simplify;
    hide Pick;
    hide Moved;
    hide Head;
    var plan := PlanFor(l1.params, args1, l1.sv);
    var l2 := l1.(params := Pick(l1.params, plan), body := Simplify(l1.body, s + Moved(l1.params, plan, l1.id), Inside));
    BodyFits(l1, plan, Context(s, scope, sv, map[], map[]));
    SimplifyRewrites(l1.body, s + Moved(l1.params, plan, l1.id), Inside, scope + [Binder(l1.id, l1.Names())], sv);
    var l := HeadShrinks(f, l1, l2, plan, s0, s, scope, sv);
    SameLength(args, args1, s);
    PlanArgs(args, args1, plan, s);
    ShrinkApp(f, args, App(Lam(l2), Pick(args1, plan)), plan, s);
  }

  /** With another number of arguments the body is simplified as it is. */
  lemma {:induction false} LetKeeps(f: Expr, l1: Lambda, args: seq<Expr>, args1: seq<Expr>, s0: Substs, s: Substs,
                                    scope: seq<Binder>, sv: set<Var>)
    requires |l1.params| != |args1| && Rewrites(f, Lam(l1), s0) && s + s0 == s && RewritesAll(args, args1, s)
    requires Resolved(f, scope, sv) && Resolved(Lam(l1), scope, sv) && Fit(s0, scope, sv) && Fit(s, scope, sv)
    ensures Rewrites(App(f, args), SimplifyLet(l1, args1, s), s)
    decreases Size(l1.body), 2
  {
    hide Fit;
    hide Rewrites;
    hide Simplify;
    var l2 := l1.(body := Simplify(l1.body, s, Inside));
    LambdaFits(l1, s, scope, sv);
    SimplifyRewrites(l1.body, s, Inside, scope + [Binder(l1.id, l1.Names())], sv);
    LambdaRewrites(l1, l2, s);
    Compose(f, Lam(l1), Lam(l2), s0, s, scope, sv);
    KeepApp(f, args, App(Lam(l2), args1), s);
  }

  lemma NoneFit(scope: seq<Binder>, sv: set<Var>)
    ensures Fit(map[], scope, sv)
  {
  }

  lemma {:induction false} NarrowerSelf(scope: seq<Binder>, s: Substs)
    ensures Narrower(scope, scope, s)
  {
  }

  lemma LambdaRewrites(l: Lambda, l1: Lambda, s: Substs)
    requires l1 == l.(body := l1.body) && Rewrites(l.body, l1.body, s)
    ensures Rewrites(Lam(l), Lam(l1), s)
  {
  }

  lemma HeadShrinks(f: Expr, l1: Lambda, l2: Lambda, plan: Plan, s0: Substs, s: Substs, scope: seq<Binder>, sv: set<Var>)
    returns (l: Lambda)
    requires Rewrites(f, Lam(l1), s0) && s + s0 == s && Shrinks(l1, l2, plan, s) && Resolved(f, scope, sv) && Fit(s0, scope, sv)
    ensures Head(f, s) == Some(l) && Shrinks(l, l2, plan, s)
  {
    hide Fit;
    hide Rewrites;
    HeadLambda(l1, s);
    HeadThrough(f, Lam(l1), s0, s);
    l := Head(f, s).value;
    HeadInside(f, s, scope, sv);
    LambdaShrinks(l, l1, s0);
    ComposeShrinks(l, l1, l2, Nones(|l.params|), plan, s0, s, scope, sv);
    MergeNones(Nones(|l.params|), plan);
  }

  lemma {:induction false} MergeNones(p: Plan, q: Plan)
    requires |q| == Count(p) && forall i :: 0 <= i < |p| ==> p[i].None?
    ensures Merge(p, q) == q
    decreases |p|
  {
    if p != [] {
      MergeNones(p[1..], q[1..]);
    }
  }

  lemma {:induction false} PlanArgs(args: seq<Expr>, args1: seq<Expr>, plan: Plan, s: Substs)
    requires RewritesAll(args, args1, s) && |plan| == |args|
    requires forall i :: 0 <= i < |plan| && plan[i].Some? ==> args1[i] == Lit(plan[i].value)
    ensures RewritesArgs(args, plan, Pick(args1, plan), s)
    decreases |args|
  {
    hide Rewrites;
    hide Known;
    if args != [] {
      PlanArgs(args[1..], args1[1..], plan[1..], s);
      if plan[0].Some? {
        LiteralKnown(args[0], args1[0], s);
        assert Pick(args1, plan) == Pick(args1[1..], plan[1..]);
      } else {
        assert Pick(args1, plan)[1..] == Pick(args1[1..], plan[1..]);
      }
    }
  }

  // --------------------------------------------------------------- whole programs

  /** A simplified program still resolves, and ends as the original does after equally many calls. */
  lemma SimplifyPreserves(e: Expr, sv: set<Var>, fuel: nat)
    requires Resolved(e, [], sv)
    ensures Resolved(Simplify(e, map[], Outside), [], sv)
    ensures SameOutcome(Program.Meaning(e, fuel), Program.Meaning(Simplify(e, map[], Outside), fuel))
  {
    SimplifyRewrites(e, map[], Outside, [], sv);
    NarrowerSelf([], map[]);
    RewritesResolved(e, Simplify(e, map[], Outside), map[], [], [], sv);
    RewritesPreserve(e, Simplify(e, map[], Outside), sv, fuel);
  }
}
