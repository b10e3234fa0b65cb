/**
  The simplification pass as it is written: one recursive procedure that loops
  over argument lists and sequences, with an association list of constants
  that grows at the front.
*/
module SimplifyPass {
  import opened Scheme
  import opened KnownValues
  import opened Rewriting
  import opened Simplifier
  import NormalForms

  type Alist = seq<(Var, Const)>

  /** The first entry for a variable counts. */
  function AsSubsts(substs: Alist): Substs {
    if substs == [] then map[] else AsSubsts(substs[1..])[substs[0].0 := substs[0].1]
  }

  method LookUp(x: Var, substs: Alist) returns (r: Expr)
    ensures r == if x in AsSubsts(substs) then Lit(AsSubsts(substs)[x]) else Ref(x)
  {
    var ls := substs;
    while ls != []
      invariant x in AsSubsts(ls) <==> x in AsSubsts(substs)
      invariant x in AsSubsts(ls) ==> AsSubsts(ls)[x] == AsSubsts(substs)[x]
      decreases |ls|
    {
      if ls[0].0.name == x.name && ls[0].0.lam == x.lam {
        assert ls[0].0 == x;
        return Lit(ls[0].1);
      }
      ls := ls[1..];
    }
    r := Ref(x);
  }

  /** The simplified form; nothing that the pass could still do is left in it. */
  method Run(e: Expr, substs: Alist, mode: Mode) returns (r: Expr)
    ensures r == Simplify(e, AsSubsts(substs), mode)
    ensures NormalForms.Done(r, mode.Inside?)
    decreases Size(e), 0
  {
    NormalForms.SimplifyDone(e, AsSubsts(substs), mode);
    hide NormalForms.Done;
    match e
    case Lit(_) => r := e;
    case Ref(x) => r := LookUp(x, substs);
    case Set(x, a) =>
      var a1 := Run(a, substs, mode);
      r := Set(x, a1);
    case Cnd(t, p, f) =>
      var t1 := Run(t, substs, mode);
      if t1.Lit? {
        r := Run(if t1.c == Bool(false) then f else p, substs, mode);
      } else {
        var p1 := Run(p, substs, mode);
        var f1 := Run(f, substs, mode);
        r := Cnd(t1, p1, f1);
      }
    case Seq(es) => r := RunSeq(es, substs, mode);
    case Lam(l) =>
      var body1 := Run(l.body, substs, Inside);
      r := Lam(l.(body := body1));
    case App(f, args) =>
      var f1 := f;
      if !f.Lam? {
        f1 := Run(f, substs, mode);
      }
      var args1 := RunAll(args, substs, mode);
      if mode.Inside? && f1.Lam? {
        r := RunLet(f1.l, args1, substs);
      } else {
        r := App(f1, args1);
      }
    case Prim(op, args) =>
      var args1 := RunAll(args, substs, mode);
      var folded := Fold(op, args1);
      r := if folded.Some? then Lit(folded.value) else Prim(op, args1);
  }

  method RunAll(es: seq<Expr>, substs: Alist, mode: Mode) returns (r: seq<Expr>)
    ensures r == SimplifyAll(es, AsSubsts(substs), mode)
    decreases SizeAll(es), 1
  {
    hide *;
    r := [];
    ghost var s := AsSubsts(substs);
    var i := 0;
    while i < |es|
      invariant 0 <= i <= |es| && r + SimplifyAll(es[i..], s, mode) == SimplifyAll(es, s, mode)
    {
      SizeAt(es, i);
      AllNext(es, i, s, mode);
      var x := Run(es[i], substs, mode);
      r := r + [x];
      i := i + 1;
    }
    NoneLeft(es[i..], s, mode);
  }

  lemma {:induction false} SizeAt(es: seq<Expr>, i: nat)
    requires i < |es|
    ensures Size(es[i]) < SizeAll(es)
    decreases i
  {
    if i > 0 {
      SizeAt(es[1..], i - 1);
    }
  }

  lemma AllNext(es: seq<Expr>, i: nat, s: Substs, mode: Mode)
    requires i < |es|
    ensures SimplifyAll(es[i..], s, mode) == [Simplify(es[i], s, mode)] + SimplifyAll(es[i + 1..], s, mode)
  {
    hide Simplify;
    assert es[i..][1..] == es[i + 1..];
  }

  lemma SeqNext(es: seq<Expr>, i: nat, s: Substs, mode: Mode)
    requires i < |es|
    ensures var x := Simplify(es[i], s, mode);
            SimplifySeq(es[i..], s, mode) == (if i + 1 < |es| && Pure(x) then [] else [x]) + SimplifySeq(es[i + 1..], s, mode)
  {
    hide Simplify;
    assert es[i..][1..] == es[i + 1..];
  }

  lemma NoneLeft(es: seq<Expr>, s: Substs, mode: Mode)
    requires es == []
    ensures SimplifyAll(es, s, mode) == [] && SimplifySeq(es, s, mode) == []
  {
  }

  method RunSeq(es: seq<Expr>, substs: Alist, mode: Mode) returns (r: Expr)
    ensures r == Simplify(Seq(es), AsSubsts(substs), mode)
    decreases SizeAll(es), 1
  {
    hide Simplify;
    hide SimplifySeq;
    hide AsSubsts;
    hide Size;
    hide SizeAll;
    var app: seq<Expr> := [];
    ghost var s := AsSubsts(substs);
    var i := 0;
    while i < |es|
      invariant 0 <= i <= |es| && app + SimplifySeq(es[i..], s, mode) == SimplifySeq(es, s, mode)
    {
      SizeAt(es, i);
      SeqNext(es, i, s, mode);
      var x := Run(es[i], substs, mode);
      if !(i + 1 < |es| && (x.Lit? || x.Ref? || x.Lam?)) {
        app := app + [x];
      }
      i := i + 1;
    }
    NoneLeft(es[i..], s, mode);
    SeqResult(es, s, mode);
    r := if |app| == 1 then app[0] else Seq(app);
  }

  lemma SeqResult(es: seq<Expr>, s: Substs, mode: Mode)
    ensures var app := SimplifySeq(es, s, mode);
            Simplify(Seq(es), s, mode) == if |app| == 1 then app[0] else Seq(app)
  {
  }

  method RunLet(l: Lambda, args: seq<Expr>, substs: Alist) returns (r: Expr)
    ensures r == SimplifyLet(l, args, AsSubsts(substs))
    decreases Size(l.body), 2
  {
    hide Simplify;
    hide AsSubsts;
    if |l.params| == |args| {
      var params1, args1, inner := MoveConstants(l, args, substs);
      var body1 := Run(l.body, inner, Inside);
      r := App(Lam(l.(params := params1, body := body1)), args1);
    } else {
      var body1 := Run(l.body, substs, Inside);
      r := App(Lam(l.(body := body1)), args);
    }
  }

  /** Constant arguments leave the two lists and join the substitutions. */
  method MoveConstants(l: Lambda, args: seq<Expr>, substs: Alist) returns (params1: seq<Name>, args1: seq<Expr>, inner: Alist)
    requires |l.params| == |args|
    ensures var plan := PlanFor(l.params, args, l.sv);
            && params1 == Pick(l.params, plan) && args1 == Pick(args, plan)
            && AsSubsts(inner) == AsSubsts(substs) + Moved(l.params, plan, l.id)
  {
    hide Pick;
    hide Moved;
    hide AsSubsts;
    params1, args1, inner := [], [], substs;
    ghost var plan, s := PlanFor(l.params, args, l.sv), AsSubsts(substs);
    var i := 0;
    while i < |args|
      invariant 0 <= i <= |args|
      invariant params1 + Pick(l.params[i..], plan[i..]) == Pick(l.params, plan)
      invariant args1 + Pick(args[i..], plan[i..]) == Pick(args, plan)
      invariant AsSubsts(inner) + Moved(l.params[i..], plan[i..], l.id) == s + Moved(l.params, plan, l.id)
    {
      PickNext(l.params, plan, i);
      PickNext(args, plan, i);
      MovedNext(AsSubsts(inner), l.params, plan, l.id, i);
      if l.params[i] !in l.sv && args[i].Lit? {
        FrontEntry(Var(l.params[i], l.id), args[i].c, inner);
        inner := [(Var(l.params[i], l.id), args[i].c)] + inner;
      } else {
        params1 := params1 + [l.params[i]];
        args1 := args1 + [args[i]];
      }
      i := i + 1;
    }
    NothingLeft(l.params[i..], args[i..], plan[i..], l.id);
  }

  lemma FrontEntry(x: Var, c: Const, substs: Alist)
    ensures AsSubsts([(x, c)] + substs) == AsSubsts(substs)[x := c]
  {
    assert ([(x, c)] + substs)[1..] == substs;
  }

  lemma NothingLeft(names: seq<Name>, args: seq<Expr>, plan: Plan, id: nat)
    requires names == [] && args == [] && plan == []
    ensures Pick(names, plan) == [] && Pick(args, plan) == [] && Moved(names, plan, id) == map[]
  {
  }

  lemma PickNext<T>(xs: seq<T>, plan: Plan, i: nat)
    requires |xs| == |plan| && i < |xs|
    ensures Pick(xs[i..], plan[i..]) == (if plan[i].None? then [xs[i]] else []) + Pick(xs[i + 1..], plan[i + 1..])
  {
    assert xs[i..][1..] == xs[i + 1..] && plan[i..][1..] == plan[i + 1..];
  }

  lemma MovedNext(s: Substs, names: seq<Name>, plan: Plan, id: nat, i: nat)
    requires |names| == |plan| && i < |names|
    ensures var rest := Moved(names[i + 1..], plan[i + 1..], id);
            s + Moved(names[i..], plan[i..], id) == (if plan[i].Some? then s[Var(names[i], id) := plan[i].value] else s) + rest
  {
    assert names[i..][1..] == names[i + 1..] && plan[i..][1..] == plan[i + 1..];
    if plan[i].Some? {
      var x, c, rest := Var(names[i], id), plan[i].value, Moved(names[i + 1..], plan[i + 1..], id);
      assert s + (map[x := c] + rest) == s[x := c] + rest;
    }
  }
}
