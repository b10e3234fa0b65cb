/**
  What the simplifier may do to an expression, and what that preserves.

  `Rewrites(e, e1, s)` allows any number of simplifications anywhere in `e`:
  constants for the variables in `s` and for anything else that is known, the
  branch of a known test, idle sequence elements left out, and constant
  arguments of a directly applied lambda moved into its body.  Rewritten
  programs run with fewer locations; `World` says what became of each.
*/
module Rewriting {
  import opened Options
  import opened Scheme
  import opened FreeVariables
  import opened KnownValues
  import Relation
  import Program

  /** For each argument of a directly applied lambda, the constant that replaces it, if any. */
  type Plan = seq<Option<Const>>

  /** The elements that the plan keeps. */
  function Pick<T>(xs: seq<T>, plan: Plan): seq<T>
    requires |xs| == |plan|
  {
    if xs == [] then [] else (if plan[0].None? then [xs[0]] else []) + Pick(xs[1..], plan[1..])
  }

  /** The constants that the plan moves into the body. */
  function Moved(params: seq<Name>, plan: Plan, id: nat): Substs
    requires |params| == |plan|
    decreases params
  {
    if params == [] then map[]
    else
      var rest := Moved(params[1..], plan[1..], id);
      if plan[0].Some? then map[Var(params[0], id) := plan[0].value] + rest else rest
  }

  // ----------------------------------------------------------- the relation

  ghost predicate Rewrites(e: Expr, e1: Expr, s: Substs)
    decreases e, 0
  {
    || Replaced(e, e1, s)
    || match e
       case Lit(_) => false
       case Ref(x) => e1 == e && x !in s
       case Set(x, a) => e1.Set? && e1.x == x && x !in s && Rewrites(a, e1.e, s)
       case Cnd(t, p, f) =>
         || (e1.Cnd? && Rewrites(t, e1.test, s) && Rewrites(p, e1.pass, s) && Rewrites(f, e1.fail, s))
         || (Known(t, s).Some? && Rewrites(Branch(Known(t, s).value, p, f), e1, s))
       case Seq(es) => (e1.Seq? && RewritesSeq(es, e1.es, s)) || RewritesSeq(es, [e1], s)
       case Lam(l) => e1.Lam? && RewritesLambda(l, e1.l, s)
       case App(f, args) =>
         e1.App?
         && ((Rewrites(f, e1.f, s) && RewritesAll(args, e1.args, s))
             || (Head(f, s).Some? && e1.f.Lam?
                 && exists plan: Plan :: |plan| == |args| && Shrinks(Head(f, s).value, e1.f.l, plan, s) && RewritesArgs(args, plan, e1.args, s)))
       case Prim(op, args) => e1.Prim? && e1.op == op && RewritesAll(args, e1.args, s)
  }

  predicate Replaced(e: Expr, e1: Expr, s: Substs) { e1.Lit? && Known(e, s) == Some(e1.c) }

  ghost predicate RewritesLambda(l: Lambda, l1: Lambda, s: Substs)
    decreases l, 1
  {
    l1 == l.(fv := l1.fv, body := l1.body) && Rewrites(l.body, l1.body, s)
  }

  ghost predicate RewritesAll(es: seq<Expr>, es1: seq<Expr>, s: Substs)
    decreases es, 0
  {
    |es| == |es1| && forall i :: 0 <= i < |es| ==> Rewrites(es[i], es1[i], s)
  }

  /** Elements before the last may be left out when they have no effect. */
  ghost predicate RewritesSeq(es: seq<Expr>, es1: seq<Expr>, s: Substs)
    decreases es, 0
  {
    if |es| <= 1 then |es1| == |es| && (es != [] ==> Rewrites(es[0], es1[0], s))
    else
      || (es1 != [] && Rewrites(es[0], es1[0], s) && RewritesSeq(es[1..], es1[1..], s))
      || (Idle(es[0], s) && RewritesSeq(es[1..], es1, s))
  }

  /** The moved parameters are gone, and their constants are in the body. */
  ghost predicate Shrinks(l: Lambda, l1: Lambda, plan: Plan, s: Substs)
    decreases l, 2
  {
    && |plan| == |l.params|
    && l1 == l.(params := Pick(l.params, plan), fv := l1.fv, body := l1.body)
    && (forall i :: 0 <= i < |plan| && plan[i].Some? ==> l.params[i] !in l.sv)
    && Rewrites(l.body, l1.body, s + Moved(l.params, plan, l.id))
  }

  ghost predicate RewritesArgs(args: seq<Expr>, plan: Plan, args1: seq<Expr>, s: Substs)
    requires |plan| == |args|
    decreases args, 0
  {
    if args == [] then args1 == []
    else if plan[0].Some? then Known(args[0], s) == plan[0] && RewritesArgs(args[1..], plan[1..], args1, s)
    else args1 != [] && Rewrites(args[0], args1[0], s) && RewritesArgs(args[1..], plan[1..], args1[1..], s)
  }

  // ------------------------------------------------------------------ worlds

  /** What became of a location: kept, at another place, or gone, holding a constant for good. */
  datatype Fate = Kept(at: nat) | Gone(c: Const)

  type World = seq<Fate>

  /** Where an expression and its rewriting run. */
  datatype Context = Context(s: Substs, scope: seq<Binder>, sv: set<Var>, env: Env, env1: Env)

  /** Only variables of enclosing lambdas that are never assigned are replaced. */
  ghost predicate Fit(s: Substs, scope: seq<Binder>, sv: set<Var>) {
    forall x <- s :: x !in sv && exists b <- scope :: b.id == x.lam
  }

  ghost predicate EnvAlike(vars: set<Var>, env: Env, env1: Env, s: Substs, m: World) {
    forall x <- vars ::
      && x in env && env[x] < |m|
      && (if x in s then m[env[x]] == Gone(s[x]) else x in env1 && m[env[x]] == Kept(env1[x]))
  }

  /** The same value, but for rewritten procedures. */
  ghost predicate Alike(m: World, v: Val, v1: Val) {
    match v
    case Imm(_) => v1 == v
    case PairAt(at) => v1.PairAt? && at + 1 < |m| && m[at] == Kept(v1.loc) && m[at + 1] == Kept(v1.loc + 1)
    case Clo(l, env) => v1.Clo? && exists c: Context :: CloAlike(m, l, env, v1.l, v1.env, c)
  }

  ghost predicate CloAlike(m: World, l: Lambda, env: Env, l1: Lambda, env1: Env, c: Context) {
    && c.env == env && c.env1 == env1 && RewritesLambda(l, l1, c.s)
    && Resolved(Lam(l), c.scope, c.sv) && Fit(c.s, c.scope, c.sv) && EnvAlike(Free(Lam(l)), env, env1, c.s, m)
  }

  ghost predicate StoreAlike(m: World, st: Store, st1: Store) {
    && |m| == |st|
    && (forall i :: 0 <= i < |m| ==>
          match m[i]
          case Kept(j) => j < |st1| && Alike(m, st[i], st1[j])
          case Gone(c) => st[i] == Imm(c))
    && (forall i, k :: 0 <= i < k < |m| && m[i].Kept? && m[k].Kept? ==> m[i].at != m[k].at)
  }

  ghost predicate Ready(c: Context, vars: set<Var>, st: Store, st1: Store, m: World) {
    Fit(c.s, c.scope, c.sv) && EnvAlike(vars, c.env, c.env1, c.s, m) && StoreAlike(m, st, st1)
  }

  /** Both runs end in the same way, in a later world. */
  ghost predicate Matches(r: Result<Val>, r1: Result<Val>, m: World, m1: World) {
    && m <= m1
    && (r.Ok? ==> r1.Ok? && Alike(m1, r.value, r1.value) && StoreAlike(m1, r.st, r1.st))
    && (r.Err? ==> r1.Err?) && (r.Timeout? ==> r1.Timeout?)
  }

  ghost predicate AllAlike(m: World, vs: seq<Val>, vs1: seq<Val>) {
    |vs| == |vs1| && forall i :: 0 <= i < |vs| ==> Alike(m, vs[i], vs1[i])
  }

  ghost predicate MatchesAll(r: Result<seq<Val>>, r1: Result<seq<Val>>, m: World, m1: World) {
    && m <= m1
    && (r.Ok? ==> r1.Ok? && AllAlike(m1, r.value, r1.value) && StoreAlike(m1, r.st, r1.st))
    && (r.Err? ==> r1.Err?) && (r.Timeout? ==> r1.Timeout?)
  }

  lemma AlikeLater(m: World, m1: World, v: Val, v1: Val)
    requires m <= m1 && Alike(m, v, v1)
    ensures Alike(m1, v, v1)
  {
    if v.Clo? {
      var c: Context :| CloAlike(m, v.l, v.env, v1.l, v1.env, c);
      assert CloAlike(m1, v.l, v.env, v1.l, v1.env, c);
    }
  }

  lemma AllAlikeLater(m: World, m1: World, vs: seq<Val>, vs1: seq<Val>)
    requires m <= m1 && AllAlike(m, vs, vs1)
    ensures AllAlike(m1, vs, vs1)
  {
    forall i | 0 <= i < |vs| ensures Alike(m1, vs[i], vs1[i]) { AlikeLater(m, m1, vs[i], vs1[i]); }
  }

  lemma EnvLater(vars: set<Var>, env: Env, env1: Env, s: Substs, m: World, m1: World)
    requires m <= m1 && EnvAlike(vars, env, env1, s, m)
    ensures EnvAlike(vars, env, env1, s, m1)
  {
  }

  lemma EnvFewer(vars: set<Var>, fewer: set<Var>, env: Env, env1: Env, s: Substs, m: World)
    requires fewer <= vars && EnvAlike(vars, env, env1, s, m)
    ensures EnvAlike(fewer, env, env1, s, m)
  {
  }

  // -------------------------------------------------------------- primitives

  lemma {:induction false} ArithAlike(m: World, op: Opcode, a: Val, b: Val, a1: Val, b1: Val)
    requires Alike(m, a, a1) && Alike(m, b, b1)
    ensures Arith(op, a, b) == Arith(op, a1, b1)
    ensures Arith(op, a, b).Some? ==> Arith(op, a, b).value.Imm?
  {
  }

  lemma {:induction false} FoldAlike(m: World, op: Opcode, a: Val, a1: Val, vs: seq<Val>, vs1: seq<Val>)
    requires Alike(m, a, a1) && AllAlike(m, vs, vs1)
    ensures var r, r1 := FoldArith(op, a, vs), FoldArith(op, a1, vs1);
            (r.Some? <==> r1.Some?) && (r.Some? ==> Alike(m, r.value, r1.value))
    decreases vs
  {
    hide Arith;
    if vs != [] {
      ArithAlike(m, op, a, vs[0], a1, vs1[0]);
      var r := Arith(op, a, vs[0]);
      if r.Some? {
        FoldAlike(m, op, r.value, r.value, vs[1..], vs1[1..]);
      }
    }
  }

  lemma NumsAlike(m: World, vs: seq<Val>, vs1: seq<Val>)
    requires AllAlike(m, vs, vs1)
    ensures AllNums(vs) <==> AllNums(vs1)
    ensures AllNums(vs) ==> vs == vs1
  {
    forall i | 0 <= i < |vs|
      ensures vs[i].Imm? <==> vs1[i].Imm?
      ensures vs[i].Imm? ==> vs[i] == vs1[i]
    {
    }
  }

  lemma ValueAlike(m: World, op: Opcode, vs: seq<Val>, vs1: seq<Val>)
    requires ArityOk(op, |vs|) && !OnPairs(op) && AllAlike(m, vs, vs1)
    ensures var r, r1 := PrimValue(op, vs), PrimValue(op, vs1);
            (r.Some? <==> r1.Some?) && (r.Some? ==> Alike(m, r.value, r1.value))
  {
    hide Arith;
    hide FoldArith;
    if ClassOf(op) == Arithmetic {
      if vs != [] {
        FoldAlike(m, op, vs[0], vs1[0], vs[1..], vs1[1..]);
        ArithAlike(m, op, Imm(Num(0)), vs[0], Imm(Num(0)), vs1[0]);
      }
      if |vs| > 1 {
        ArithAlike(m, op, vs[0], vs[1], vs1[0], vs1[1]);
      }
    } else {
      NumsAlike(m, vs, vs1);
    }
  }

  /** A pair holds related values, in two fresh locations of either side. */
  lemma NewPair(m: World, st: Store, st1: Store, a: Val, d: Val, a1: Val, d1: Val) returns (m1: World)
    requires StoreAlike(m, st, st1) && Alike(m, a, a1) && Alike(m, d, d1)
    ensures m <= m1 && StoreAlike(m1, st + [a, d], st1 + [a1, d1]) && Alike(m1, PairAt(|st|), PairAt(|st1|))
  {
    NewKept(m, st, st1, a, a1);
    var m0 := m + [Kept(|st1|)];
    AlikeLater(m, m0, d, d1);
    NewKept(m0, st + [a], st1 + [a1], d, d1);
    m1 := m0 + [Kept(|st1 + [a1]|)];
    assert st + [a] + [d] == st + [a, d] && st1 + [a1] + [d1] == st1 + [a1, d1];
  }

  ghost predicate CellAlike(m: World, st: Store, st1: Store, at: nat, at1: nat) {
    at < |m| && at < |st| && at1 < |st1| && m[at] == Kept(at1) && Alike(m, st[at], st1[at1])
  }

  /** Related pairs are pairs of both stores, and their fields are related. */
  lemma PairAlike(m: World, st: Store, st1: Store, v: Val, v1: Val)
    requires StoreAlike(m, st, st1) && Alike(m, v, v1)
    ensures IsPair(st, v) <==> IsPair(st1, v1)
    ensures IsPair(st, v) ==> CellAlike(m, st, st1, v.loc, v1.loc) && CellAlike(m, st, st1, v.loc + 1, v1.loc + 1)
  {
    if v.PairAt? {
      assert m[v.loc] == Kept(v1.loc) && m[v.loc + 1] == Kept(v1.loc + 1);
    }
  }

  /** An opcode on related operands, in a later world when it makes a pair. */
  lemma PrimAlike(m: World, op: Opcode, vs: seq<Val>, vs1: seq<Val>, st: Store, st1: Store) returns (m1: World)
    requires ArityOk(op, |vs|) && AllAlike(m, vs, vs1) && StoreAlike(m, st, st1)
    ensures var r, r1 := PrimStep(op, vs, st), PrimStep(op, vs1, st1);
            && m <= m1 && (r.Some? <==> r1.Some?)
            && (r.Some? ==> Alike(m1, r.value.0, r1.value.0) && StoreAlike(m1, r.value.1, r1.value.1))
  {
    hide PrimValue;
    hide Alike;
    hide StoreAlike;
    m1 := m;
    if !OnPairs(op) {
      ValueAlike(m, op, vs, vs1);
    } else if op.ConsOp? {
      m1 := NewPair(m, st, st1, vs[0], vs[1], vs1[0], vs1[1]);
    } else {
      FieldAlike(m, op, vs, vs1, st, st1);
    }
  }

  lemma FieldAlike(m: World, op: Opcode, vs: seq<Val>, vs1: seq<Val>, st: Store, st1: Store)
    requires OnPairs(op) && !op.ConsOp? && ArityOk(op, |vs|) && AllAlike(m, vs, vs1) && StoreAlike(m, st, st1)
    ensures var r, r1 := PairStep(op, vs, st), PairStep(op, vs1, st1);
            && (r.Some? <==> r1.Some?)
            && (r.Some? ==> Alike(m, r.value.0, r1.value.0) && StoreAlike(m, r.value.1, r1.value.1))
  {
    hide Alike;
    hide StoreAlike;
    PairAlike(m, st, st1, vs[0], vs1[0]);
    ImmAlike(m, Lit(Void));
    if IsPair(st, vs[0]) && (op.SetCarOp? || op.SetCdrOp?) {
      var i := if op.SetCarOp? then 0 else 1;
      StoreUpdate(st, st1, m, vs[0].loc + i, vs1[0].loc + i, vs[1], vs1[1]);
    }
  }

  // ------------------------------------------------------------------ binding

  /** The values that stay, given what the plan moved away. */
  ghost predicate ValsAlike(m: World, plan: Plan, vs: seq<Val>, vs1: seq<Val>)
    requires |plan| == |vs|
  {
    if vs == [] then vs1 == []
    else if plan[0].Some? then vs[0] == Imm(plan[0].value) && ValsAlike(m, plan[1..], vs[1..], vs1)
    else vs1 != [] && Alike(m, vs[0], vs1[0]) && ValsAlike(m, plan[1..], vs[1..], vs1[1..])
  }

  lemma {:induction false} ValsLater(m: World, m1: World, plan: Plan, vs: seq<Val>, vs1: seq<Val>)
    requires |plan| == |vs| && m <= m1 && ValsAlike(m, plan, vs, vs1)
    ensures ValsAlike(m1, plan, vs, vs1)
    decreases |vs|
  {
    if vs != [] {
      if plan[0].Some? {
        ValsLater(m, m1, plan[1..], vs[1..], vs1);
      } else {
        AlikeLater(m, m1, vs[0], vs1[0]);
        ValsLater(m, m1, plan[1..], vs[1..], vs1[1..]);
      }
    }
  }

  /** The variables that a lambda binds to `names`. */
  ghost function Bound(names: seq<Name>, id: nat): set<Var> { set n <- names :: Var(n, id) }

  /** A fresh location holds a value on both sides. */
  lemma NewKept(m: World, st: Store, st1: Store, v: Val, v1: Val)
    requires StoreAlike(m, st, st1) && Alike(m, v, v1)
    ensures StoreAlike(m + [Kept(|st1|)], st + [v], st1 + [v1])
  {
    var m1, t, t1 := m + [Kept(|st1|)], st + [v], st1 + [v1];
    forall i | 0 <= i < |m1|
      ensures match m1[i] case Kept(j) => j < |t1| && Alike(m1, t[i], t1[j]) case Gone(c) => t[i] == Imm(c)
    {
      if i < |m| {
        if m[i].Kept? {
          AlikeLater(m, m1, st[i], st1[m[i].at]);
        }
      } else {
        AlikeLater(m, m1, v, v1);
      }
    }
  }

  /** A fresh location holds a constant, and the other side has none. */
  lemma NewGone(m: World, st: Store, st1: Store, c: Const)
    requires StoreAlike(m, st, st1)
    ensures StoreAlike(m + [Gone(c)], st + [Imm(c)], st1)
  {
    var m1, t := m + [Gone(c)], st + [Imm(c)];
    forall i | 0 <= i < |m1|
      ensures match m1[i] case Kept(j) => j < |st1| && Alike(m1, t[i], st1[j]) case Gone(c) => t[i] == Imm(c)
    {
      if i < |m| && m[i].Kept? {
        AlikeLater(m, m1, st[i], st1[m[i].at]);
      }
    }
  }

  /** Bind what a lambda binds, on both sides. */
  lemma {:induction false} BindAll(names: seq<Name>, plan: Plan, id: nat, vs: seq<Val>, vs1: seq<Val>,
                                   vars: set<Var>, env: Env, env1: Env, s: Substs, st: Store, st1: Store, m: World)
    returns (m1: World)
    requires |names| == |plan| == |vs| && Relation.Distinct(names) && vars !! Bound(names, id) && s.Keys !! Bound(names, id)
    requires EnvAlike(vars, env, env1, s, m) && StoreAlike(m, st, st1) && ValsAlike(m, plan, vs, vs1)
    ensures m <= m1 && StoreAlike(m1, st + vs, st1 + vs1)
    ensures EnvAlike(vars + Bound(names, id), Extend(env, names, id, |st|), Extend(env1, Pick(names, plan), id, |st1|),
                     s + Moved(names, plan, id), m1)
    decreases |names|
  {
    hide EnvAlike;
    hide StoreAlike;
    hide Alike;
    if names == [] {
      m1 := m;
      assert st + vs == st && st1 + vs1 == st1;
      assert vars + Bound(names, id) == vars && s + Moved(names, plan, id) == s;
    } else {
      var x := Var(names[0], id);
      var tail := names[1..];
      BoundTail(names, id, vars, s);
      MovedKeys(tail, plan[1..], id);
      if plan[0].Some? {
        var c := plan[0].value;
        NewGone(m, st, st1, c);
        ValsLater(m, m + [Gone(c)], plan[1..], vs[1..], vs1);
        BoundOne(x, vars, env, env1, s, m, |st|, Gone(c), |st1|);
        m1 := BindAll(tail, plan[1..], id, vs[1..], vs1, vars + {x}, env[x := |st|], env1, s[x := c],
                      st + [vs[0]], st1, m + [Gone(c)]);
        assert st + [vs[0]] + vs[1..] == st + vs;
        assert Pick(names, plan) == Pick(tail, plan[1..]);
        MovedFirst(names, plan, id, s);
      } else {
        NewKept(m, st, st1, vs[0], vs1[0]);
        ValsLater(m, m + [Kept(|st1|)], plan[1..], vs[1..], vs1[1..]);
        BoundOne(x, vars, env, env1, s, m, |st|, Kept(|st1|), |st1|);
        m1 := BindAll(tail, plan[1..], id, vs[1..], vs1[1..], vars + {x}, env[x := |st|], env1[x := |st1|], s,
                      st + [vs[0]], st1 + [vs1[0]], m + [Kept(|st1|)]);
        assert st + [vs[0]] + vs[1..] == st + vs && st1 + [vs1[0]] + vs1[1..] == st1 + vs1;
        assert Pick(names, plan)[1..] == Pick(tail, plan[1..]);
      }
    }
  }

  lemma BoundTail(names: seq<Name>, id: nat, vars: set<Var>, s: Substs)
    requires names != [] && Relation.Distinct(names) && vars !! Bound(names, id) && s.Keys !! Bound(names, id)
    ensures var x, tail := Var(names[0], id), names[1..];
            && x in Bound(names, id) && x !in vars && x !in s && x !in Bound(tail, id) && Relation.Distinct(tail)
            && vars + {x} !! Bound(tail, id) && s.Keys + {x} !! Bound(tail, id)
            && vars + Bound(names, id) == vars + {x} + Bound(tail, id)
  {
    var x, tail := Var(names[0], id), names[1..];
    assert x in Bound(names, id);
    assert forall n <- tail :: n in names && Var(n, id) in Bound(names, id);
    assert forall i :: 0 <= i < |tail| ==> tail[i] == names[i + 1] != names[0];
    assert forall n <- names :: n == names[0] || n in tail;
  }

  lemma MovedFirst(names: seq<Name>, plan: Plan, id: nat, s: Substs)
    requires |names| == |plan| && names != [] && plan[0].Some? && Var(names[0], id) !in Bound(names[1..], id)
    ensures s[Var(names[0], id) := plan[0].value] + Moved(names[1..], plan[1..], id) == s + Moved(names, plan, id)
  {
    MovedKeys(names[1..], plan[1..], id);
  }

  lemma {:induction false} MovedKeys(names: seq<Name>, plan: Plan, id: nat)
    requires |names| == |plan|
    ensures Moved(names, plan, id).Keys <= Bound(names, id)
    decreases |names|
  {
    if names != [] {
      MovedKeys(names[1..], plan[1..], id);
      assert Var(names[0], id) in Bound(names, id);
      assert forall n <- names[1..] :: n in names;
    }
  }

  lemma BoundOne(x: Var, vars: set<Var>, env: Env, env1: Env, s: Substs, m: World, at: nat, fate: Fate, at1: nat)
    requires EnvAlike(vars, env, env1, s, m) && x !in vars && x !in s && at == |m|
    requires fate.Kept? ==> fate.at == at1
    ensures fate.Kept? ==> EnvAlike(vars + {x}, env[x := at], env1[x := at1], s, m + [fate])
    ensures fate.Gone? ==> EnvAlike(vars + {x}, env[x := at], env1, s[x := fate.c], m + [fate])
  {
  }

  function Nones(n: nat): (p: Plan)
    ensures |p| == n && forall i :: 0 <= i < n ==> p[i].None?
  {
    seq(n, _ => None)
  }

  lemma {:induction false} PickNones<T>(xs: seq<T>, plan: Plan)
    requires |xs| == |plan| && forall i :: 0 <= i < |plan| ==> plan[i].None?
    ensures Pick(xs, plan) == xs
    decreases |xs|
  {
    if xs != [] {
      PickNones(xs[1..], plan[1..]);
      assert [xs[0]] + xs[1..] == xs;
    }
  }

  lemma {:induction false} PickAppend<T>(xs: seq<T>, ys: seq<T>, plan: Plan, n: nat)
    requires |xs| == |plan| && n == |ys|
    ensures Pick(xs + ys, plan + Nones(n)) == Pick(xs, plan) + ys
    decreases |xs|
  {
    if xs == [] {
      assert xs + ys == ys && plan + Nones(n) == Nones(n) && [] + ys == ys;
      PickNones(ys, Nones(n));
    } else {
      assert (xs + ys)[1..] == xs[1..] + ys && (plan + Nones(n))[1..] == plan[1..] + Nones(n);
      PickAppend(xs[1..], ys, plan[1..], n);
      var one := if plan[0].None? then [xs[0]] else [];
      assert one + (Pick(xs[1..], plan[1..]) + ys) == one + Pick(xs[1..], plan[1..]) + ys;
    }
  }

  lemma {:induction false} MovedNones(names: seq<Name>, plan: Plan, id: nat)
    requires |names| == |plan| && forall i :: 0 <= i < |plan| ==> plan[i].None?
    ensures Moved(names, plan, id) == map[]
    decreases |names|
  {
    if names != [] {
      MovedNones(names[1..], plan[1..], id);
    }
  }

  lemma {:induction false} MovedAppend(names: seq<Name>, more: seq<Name>, plan: Plan, id: nat, n: nat)
    requires |names| == |plan| && n == |more|
    ensures Moved(names + more, plan + Nones(n), id) == Moved(names, plan, id)
    decreases |names|
  {
    if names == [] {
      assert names + more == more && plan + Nones(n) == Nones(n);
      MovedNones(more, Nones(n), id);
    } else {
      assert (names + more)[1..] == names[1..] + more && (plan + Nones(n))[1..] == plan[1..] + Nones(n);
      MovedAppend(names[1..], more, plan[1..], id, n);
    }
  }

  lemma {:induction false} ValsNones(m: World, vs: seq<Val>, vs1: seq<Val>, plan: Plan)
    requires |plan| == |vs| && (forall i :: 0 <= i < |plan| ==> plan[i].None?) && AllAlike(m, vs, vs1)
    ensures ValsAlike(m, plan, vs, vs1)
    decreases |vs|
  {
    if vs != [] {
      ValsNones(m, vs[1..], vs1[1..], plan[1..]);
    }
  }

  lemma {:induction false} ValsAppend(m: World, plan: Plan, vs: seq<Val>, vs1: seq<Val>, ws: seq<Val>, ws1: seq<Val>)
    requires |plan| == |vs| && ValsAlike(m, plan, vs, vs1) && AllAlike(m, ws, ws1)
    ensures ValsAlike(m, plan + Nones(|ws|), vs + ws, vs1 + ws1)
    decreases |vs|
  {
    var p := plan + Nones(|ws|);
    if vs == [] {
      assert vs + ws == ws && vs1 + ws1 == ws1 && p == Nones(|ws|);
      ValsNones(m, ws, ws1, p);
    } else {
      assert (vs + ws)[1..] == vs[1..] + ws && p[1..] == plan[1..] + Nones(|ws|);
      if plan[0].Some? {
        ValsAppend(m, plan[1..], vs[1..], vs1, ws, ws1);
      } else {
        ValsAppend(m, plan[1..], vs[1..], vs1[1..], ws, ws1);
        assert (vs1 + ws1)[1..] == vs1[1..] + ws1;
      }
    }
  }

  /** Inside the body of a lambda, after its variables are bound on both sides. */
  lemma BodyReady(l: Lambda, l1: Lambda, plan: Plan, c: Context, acts: seq<Val>, acts1: seq<Val>, st: Store, st1: Store, m: World)
    returns (m1: World, c1: Context)
    requires Shrinks(l, l1, plan, c.s) && Resolved(Lam(l), c.scope, c.sv) && Ready(c, Free(Lam(l)), st, st1, m)
    requires |acts| == |l.Names()| && ValsAlike(m, plan + Nones(|l.Names()| - |plan|), acts, acts1)
    ensures m <= m1 && Ready(c1, Free(l.body), st + acts, st1 + acts1, m1)
    ensures Rewrites(l.body, l1.body, c1.s) && Resolved(l.body, c1.scope, c1.sv)
    ensures c1.env == Extend(c.env, l.Names(), l.id, |st|) && c1.env1 == Extend(c.env1, l1.Names(), l.id, |st1|)
  {
    hide EnvAlike;
    hide StoreAlike;
    hide Rewrites;
    var names := l.Names();
    var tail := (if l.rest.Some? then [l.rest.value] else []) + l.locals;
    var p := plan + Nones(|names| - |plan|);
    assert names == l.params + tail && l1.Names() == l1.params + tail;
    PickAppend(l.params, tail, plan, |tail|);
    MovedAppend(l.params, tail, plan, l.id, |tail|);
    BoundApart(l, c);
    m1 := BindAll(names, p, l.id, acts, acts1, Free(Lam(l)), c.env, c.env1, c.s, st, st1, m);
    c1 := Context(c.s + Moved(l.params, plan, l.id), c.scope + [Binder(l.id, names)], c.sv,
                  Extend(c.env, names, l.id, |st|), Extend(c.env1, l1.Names(), l.id, |st1|));
    BodyFits(l, plan, c);
    FreeInBody(l);
    EnvFewer(Free(Lam(l)) + Bound(names, l.id), Free(l.body), c1.env, c1.env1, c1.s, m1);
  }

  lemma BoundApart(l: Lambda, c: Context)
    requires Resolved(Lam(l), c.scope, c.sv) && Fit(c.s, c.scope, c.sv)
    ensures Free(Lam(l)) !! Bound(l.Names(), l.id) && c.s.Keys !! Bound(l.Names(), l.id)
  {
  }

  lemma FreeInBody(l: Lambda)
    ensures Free(l.body) <= Free(Lam(l)) + Bound(l.Names(), l.id)
  {
  }

  lemma BodyFits(l: Lambda, plan: Plan, c: Context)
    requires Resolved(Lam(l), c.scope, c.sv) && Fit(c.s, c.scope, c.sv) && |plan| == |l.params|
    requires forall i :: 0 <= i < |plan| && plan[i].Some? ==> l.params[i] !in l.sv
    ensures Fit(c.s + Moved(l.params, plan, l.id), c.scope + [Binder(l.id, l.Names())], c.sv)
  {
    var scope1, moved := c.scope + [Binder(l.id, l.Names())], Moved(l.params, plan, l.id);
    assert Binder(l.id, l.Names()) in scope1;
    forall x <- c.s + moved
      ensures x !in c.sv && exists b <- scope1 :: b.id == x.lam
    {
      if x in moved {
        var i := MovedAt(l.params, plan, l.id, x);
        assert l.params[i] in l.params && l.params[i] in l.Names();
      } else {
        var b :| b in c.scope && b.id == x.lam;
        assert b in scope1;
      }
    }
  }

  lemma {:induction false} MovedAt(names: seq<Name>, plan: Plan, id: nat, x: Var) returns (i: nat)
    requires |names| == |plan| && x in Moved(names, plan, id)
    ensures i < |names| && x == Var(names[i], id) && plan[i].Some?
    decreases |names|
  {
    if plan[0].Some? && x == Var(names[0], id) {
      i := 0;
    } else {
      var j := MovedAt(names[1..], plan[1..], id, x);
      i := j + 1;
    }
  }

  // --------------------------------------------------------------- simulation

  /** A rewritten expression ends as the original does, in as many calls. */
  lemma {:induction false} SimEval(e: Expr, e1: Expr, c: Context, st: Store, st1: Store, m: World, fuel: nat)
    returns (m1: World)
    requires Rewrites(e, e1, c.s) && Resolved(e, c.scope, c.sv) && Ready(c, Free(e), st, st1, m)
    ensures Matches(Eval(e, c.env, st, fuel), Eval(e1, c.env1, st1, fuel), m, m1)
    decreases fuel, 1, e, 1
  {
    hide Alike;
    hide StoreAlike;
    hide EnvAlike;
    if Replaced(e, e1, c.s) {
      m1 := m;
      ReadyFixed(c, Free(e), st, st1, m);
      KnownRuns(e, c.s, c.env, st, fuel);
      ImmAlike(m, e1);
      return;
    }
    match e
    case Ref(x) => m1 := m; SimRef(x, e1, c, st, st1, m, fuel);
    case Set(x, a) => m1 := SimSet(x, a, e1, c, st, st1, m, fuel);
    case Cnd(t, p, f) => m1 := SimCnd(t, p, f, e1, c, st, st1, m, fuel);
    case Seq(es) => m1 := SimSeqExpr(es, e1, c, st, st1, m, fuel);
    case Lam(l) => m1 := m; LamAlike(l, e1, c, st, st1, m);
    case App(f, args) => m1 := SimApp(f, args, e1, c, st, st1, m, fuel);
    case Prim(op, args) => m1 := SimPrim(op, args, e1, c, st, st1, m, fuel);
  }

  lemma ReadyFixed(c: Context, vars: set<Var>, st: Store, st1: Store, m: World)
    requires Ready(c, vars, st, st1, m)
    ensures Fixed(vars, c.env, st, c.s)
  {
    hide Alike;
  }

  lemma ImmAlike(m: World, e: Expr)
    ensures e.Lit? ==> Alike(m, Imm(e.c), Imm(e.c))
  {
  }

  lemma SimRef(x: Var, e1: Expr, c: Context, st: Store, st1: Store, m: World, fuel: nat)
    requires Rewrites(Ref(x), e1, c.s) && !Replaced(Ref(x), e1, c.s) && Ready(c, Free(Ref(x)), st, st1, m)
    ensures Matches(Eval(Ref(x), c.env, st, fuel), Eval(e1, c.env1, st1, fuel), m, m)
  {
    assert x in Free(Ref(x));
    assert m[c.env[x]] == Kept(c.env1[x]);
  }

  lemma LamAlike(l: Lambda, e1: Expr, c: Context, st: Store, st1: Store, m: World)
    requires Rewrites(Lam(l), e1, c.s) && Resolved(Lam(l), c.scope, c.sv) && Ready(c, Free(Lam(l)), st, st1, m)
    ensures e1.Lam? && Alike(m, Clo(l, c.env), Clo(e1.l, c.env1))
  {
    assert CloAlike(m, l, c.env, e1.l, c.env1, c);
  }

  lemma {:induction false} SimSet(x: Var, a: Expr, e1: Expr, c: Context, st: Store, st1: Store, m: World, fuel: nat)
    returns (m1: World)
    requires Rewrites(Set(x, a), e1, c.s) && Resolved(Set(x, a), c.scope, c.sv) && Ready(c, Free(Set(x, a)), st, st1, m)
    ensures Matches(Eval(Set(x, a), c.env, st, fuel), Eval(e1, c.env1, st1, fuel), m, m1)
    decreases fuel, 1, Set(x, a), 0
  {
    hide Alike;
    hide StoreAlike;
    hide Rewrites;
    RewritesSet(x, a, e1, c.s);
    m1 := SimEval(a, e1.e, c, st, st1, m, fuel);
    var r, r1 := Eval(a, c.env, st, fuel), Eval(e1.e, c.env1, st1, fuel);
    assert x in Free(Set(x, a));
    if r.Ok? {
      StoreUpdate(r.st, r1.st, m1, c.env[x], c.env1[x], r.value, r1.value);
      ImmAlike(m1, Lit(Void));
    }
  }

  lemma RewritesSet(x: Var, a: Expr, e1: Expr, s: Substs)
    requires Rewrites(Set(x, a), e1, s)
    ensures e1.Set? && e1.x == x && x !in s && Rewrites(a, e1.e, s)
  {
  }

  lemma StoreUpdate(st: Store, st1: Store, m: World, at: nat, at1: nat, v: Val, v1: Val)
    requires StoreAlike(m, st, st1) && Alike(m, v, v1) && at < |m| && m[at] == Kept(at1)
    ensures at < |st| && at1 < |st1| && StoreAlike(m, st[at := v], st1[at1 := v1])
  {
    hide Alike;
  }

  lemma {:induction false} SimCnd(t: Expr, p: Expr, f: Expr, e1: Expr, c: Context, st: Store, st1: Store, m: World, fuel: nat)
    returns (m1: World)
    requires Rewrites(Cnd(t, p, f), e1, c.s) && Resolved(Cnd(t, p, f), c.scope, c.sv)
    requires Ready(c, Free(Cnd(t, p, f)), st, st1, m) && !Replaced(Cnd(t, p, f), e1, c.s)
    ensures Matches(Eval(Cnd(t, p, f), c.env, st, fuel), Eval(e1, c.env1, st1, fuel), m, m1)
    decreases fuel, 1, Cnd(t, p, f), 0
  {
    hide Alike;
    hide StoreAlike;
    hide EnvAlike;
    hide Rewrites;
    EnvFewer(Free(Cnd(t, p, f)), Free(t), c.env, c.env1, c.s, m);
    EnvFewer(Free(Cnd(t, p, f)), Free(p), c.env, c.env1, c.s, m);
    EnvFewer(Free(Cnd(t, p, f)), Free(f), c.env, c.env1, c.s, m);
    if CndKept(t, p, f, e1, c.s) {
      m1 := SimEval(t, e1.test, c, st, st1, m, fuel);
      var r, r1 := Eval(t, c.env, st, fuel), Eval(e1.test, c.env1, st1, fuel);
      EnvLater(Free(p), c.env, c.env1, c.s, m, m1);
      EnvLater(Free(f), c.env, c.env1, c.s, m, m1);
      if r.Ok? {
        TruthAlike(m1, r.value, r1.value);
        if Truthy(r.value) {
          m1 := SimEval(p, e1.pass, c, r.st, r1.st, m1, fuel);
        } else {
          m1 := SimEval(f, e1.fail, c, r.st, r1.st, m1, fuel);
        }
      }
    } else {
      CndGone(t, p, f, e1, c.s);
      ReadyFixed(c, Free(t), st, st1, m);
      KnownRuns(t, c.s, c.env, st, fuel);
      m1 := SimEval(Branch(Known(t, c.s).value, p, f), e1, c, st, st1, m, fuel);
    }
  }

  ghost predicate CndKept(t: Expr, p: Expr, f: Expr, e1: Expr, s: Substs) {
    e1.Cnd? && Rewrites(t, e1.test, s) && Rewrites(p, e1.pass, s) && Rewrites(f, e1.fail, s)
  }

  lemma CndGone(t: Expr, p: Expr, f: Expr, e1: Expr, s: Substs)
    requires Rewrites(Cnd(t, p, f), e1, s) && !CndKept(t, p, f, e1, s) && !Replaced(Cnd(t, p, f), e1, s)
    ensures Known(t, s).Some? && Rewrites(Branch(Known(t, s).value, p, f), e1, s)
  {
  }

  lemma TruthAlike(m: World, v: Val, v1: Val)
    requires Alike(m, v, v1)
    ensures Truthy(v) <==> Truthy(v1)
  {
  }

  lemma {:induction false} SimSeqExpr(es: seq<Expr>, e1: Expr, c: Context, st: Store, st1: Store, m: World, fuel: nat)
    returns (m1: World)
    requires Rewrites(Seq(es), e1, c.s) && Resolved(Seq(es), c.scope, c.sv) && Ready(c, Free(Seq(es)), st, st1, m)
    requires !Replaced(Seq(es), e1, c.s)
    ensures Matches(Eval(Seq(es), c.env, st, fuel), Eval(e1, c.env1, st1, fuel), m, m1)
    decreases fuel, 1, Seq(es), 0
  {
    hide Alike;
    hide StoreAlike;
    hide EnvAlike;
    if e1.Seq? && RewritesSeq(es, e1.es, c.s) {
      m1 := SimSeq(es, e1.es, c, st, st1, m, fuel);
    } else {
      m1 := SimSeq(es, [e1], c, st, st1, m, fuel);
    }
  }

  lemma {:induction false} SimSeq(es: seq<Expr>, es1: seq<Expr>, c: Context, st: Store, st1: Store, m: World, fuel: nat)
    returns (m1: World)
    requires es != [] && RewritesSeq(es, es1, c.s) && (forall e <- es :: Resolved(e, c.scope, c.sv))
    requires Ready(c, FreeAll(es), st, st1, m)
    ensures Matches(EvalSeq(es, c.env, st, fuel), EvalSeq(es1, c.env1, st1, fuel), m, m1)
    decreases fuel, 1, es, 0
  {
    hide Alike;
    hide StoreAlike;
    hide EnvAlike;
    hide Rewrites;
    EnvFewer(FreeAll(es), Free(es[0]), c.env, c.env1, c.s, m);
    EnvFewer(FreeAll(es), FreeAll(es[1..]), c.env, c.env1, c.s, m);
    if |es| == 1 {
      m1 := SimEval(es[0], es1[0], c, st, st1, m, fuel);
    } else if es1 != [] && Rewrites(es[0], es1[0], c.s) && RewritesSeq(es[1..], es1[1..], c.s) {
      m1 := SimEval(es[0], es1[0], c, st, st1, m, fuel);
      var r, r1 := Eval(es[0], c.env, st, fuel), Eval(es1[0], c.env1, st1, fuel);
      SeqNonempty(es[1..], es1[1..], c.s);
      EnvLater(FreeAll(es[1..]), c.env, c.env1, c.s, m, m1);
      if r.Ok? {
        m1 := SimSeq(es[1..], es1[1..], c, r.st, r1.st, m1, fuel);
      }
    } else {
      ReadyFixed(c, Free(es[0]), st, st1, m);
      IdleRuns(es[0], c.s, c.env, st, fuel);
      m1 := SimSeq(es[1..], es1, c, st, st1, m, fuel);
    }
  }

  lemma SeqNonempty(es: seq<Expr>, es1: seq<Expr>, s: Substs)
    requires es != [] && RewritesSeq(es, es1, s)
    ensures es1 != []
    decreases es
  {
    if |es| > 1 && es1 == [] {
      SeqNonempty(es[1..], es1, s);
    }
  }

  ghost predicate MatchesArgs(r: Result<seq<Val>>, r1: Result<seq<Val>>, plan: Plan, m: World, m1: World) {
    && m <= m1
    && (r.Ok? ==> r1.Ok? && |r.value| == |plan| && ValsAlike(m1, plan, r.value, r1.value) && StoreAlike(m1, r.st, r1.st))
    && (r.Err? ==> r1.Err?) && (r.Timeout? ==> r1.Timeout?)
  }

  /** Operands from the last to the first; the constants that were moved away have no effect. */
  lemma {:induction false} SimArgs(args: seq<Expr>, plan: Plan, args1: seq<Expr>, c: Context,
                                   st: Store, st1: Store, m: World, fuel: nat)
    returns (m1: World)
    requires |plan| == |args| && RewritesArgs(args, plan, args1, c.s) && forall e <- args :: Resolved(e, c.scope, c.sv)
    requires Ready(c, FreeAll(args), st, st1, m)
    ensures MatchesArgs(EvalRight(args, c.env, st, fuel), EvalRight(args1, c.env1, st1, fuel), plan, m, m1)
    decreases fuel, 1, args, 0
  {
    hide Alike;
    hide StoreAlike;
    hide EnvAlike;
    hide Rewrites;
    if args == [] {
      m1 := m;
    } else {
      EnvFewer(FreeAll(args), Free(args[0]), c.env, c.env1, c.s, m);
      EnvFewer(FreeAll(args), FreeAll(args[1..]), c.env, c.env1, c.s, m);
      var kept := plan[0].None?;
      var rest1 := if kept then args1[1..] else args1;
      m1 := SimArgs(args[1..], plan[1..], rest1, c, st, st1, m, fuel);
      var r, r1 := EvalRight(args[1..], c.env, st, fuel), EvalRight(rest1, c.env1, st1, fuel);
      if r.Ok? {
        EnvLater(Free(args[0]), c.env, c.env1, c.s, m, m1);
      }
      if r.Ok? && !kept {
        ReadyFixed(c, Free(args[0]), r.st, r1.st, m1);
        KnownRuns(args[0], c.s, c.env, r.st, fuel);
      } else if r.Ok? {
        var m2 := m1;
        m1 := SimEval(args[0], args1[0], c, r.st, r1.st, m1, fuel);
        ValsLater(m2, m1, plan[1..], r.value, r1.value);
      }
    }
  }

  lemma {:induction false} AllRewritesArgs(args: seq<Expr>, args1: seq<Expr>, s: Substs, plan: Plan)
    requires RewritesAll(args, args1, s) && |plan| == |args| && forall i :: 0 <= i < |plan| ==> plan[i].None?
    ensures RewritesArgs(args, plan, args1, s)
    decreases |args|
  {
    hide Rewrites;
    if args != [] {
      AllRewritesArgs(args[1..], args1[1..], s, plan[1..]);
    }
  }

  lemma {:induction false} NonesVals(m: World, plan: Plan, vs: seq<Val>, vs1: seq<Val>)
    requires |plan| == |vs| && (forall i :: 0 <= i < |plan| ==> plan[i].None?) && ValsAlike(m, plan, vs, vs1)
    ensures AllAlike(m, vs, vs1)
    decreases |vs|
  {
    hide Alike;
    if vs != [] {
      NonesVals(m, plan[1..], vs[1..], vs1[1..]);
    }
  }

  lemma {:induction false} SimApp(f: Expr, args: seq<Expr>, e1: Expr, c: Context, st: Store, st1: Store, m: World, fuel: nat)
    returns (m1: World)
    requires Rewrites(App(f, args), e1, c.s) && Resolved(App(f, args), c.scope, c.sv) && Ready(c, Free(App(f, args)), st, st1, m)
    ensures Matches(Eval(App(f, args), c.env, st, fuel), Eval(e1, c.env1, st1, fuel), m, m1)
    decreases fuel, 1, App(f, args), 0
  {
    hide Alike;
    hide StoreAlike;
    hide EnvAlike;
    hide Rewrites;
    hide Shrinks;
    hide Apply;
    EnvFewer(Free(App(f, args)), Free(f), c.env, c.env1, c.s, m);
    EnvFewer(Free(App(f, args)), FreeAll(args), c.env, c.env1, c.s, m);
    var plan := AppCases(f, args, e1, c.s);
    m1 := SimArgs(args, plan, e1.args, c, st, st1, m, fuel);
    var r, r1 := EvalRight(args, c.env, st, fuel), EvalRight(e1.args, c.env1, st1, fuel);
    if r.Ok? {
      EnvLater(Free(f), c.env, c.env1, c.s, m, m1);
      if plan == Nones(|args|) && Rewrites(f, e1.f, c.s) {
        m1 := SimAppKept(f, e1.f, c, r.value, r1.value, r.st, r1.st, m1, fuel);
      } else {
        ReadyFixed(c, Free(f), r.st, r1.st, m1);
        HeadRuns(f, c.s, c.env, r.st, fuel);
        HeadInside(f, c.s, c.scope, c.sv);
        EnvFewer(Free(f), Free(Lam(Head(f, c.s).value)), c.env, c.env1, c.s, m1);
        m1 := SimLet(Head(f, c.s).value, e1.f.l, plan, c, r.value, r1.value, r.st, r1.st, m1, fuel);
      }
    }
  }

  lemma AppCases(f: Expr, args: seq<Expr>, e1: Expr, s: Substs) returns (plan: Plan)
    requires Rewrites(App(f, args), e1, s)
    ensures e1.App? && |plan| == |args| && RewritesArgs(args, plan, e1.args, s)
    ensures || (plan == Nones(|args|) && Rewrites(f, e1.f, s))
            || (Head(f, s).Some? && e1.f.Lam? && Shrinks(Head(f, s).value, e1.f.l, plan, s))
  {
    if Rewrites(f, e1.f, s) && RewritesAll(args, e1.args, s) {
      plan := Nones(|args|);
      AllRewritesArgs(args, e1.args, s, plan);
    } else {
      plan :| |plan| == |args| && Shrinks(Head(f, s).value, e1.f.l, plan, s) && RewritesArgs(args, plan, e1.args, s);
    }
  }

  lemma {:induction false} SimAppKept(f: Expr, f1: Expr, c: Context, vs: seq<Val>, vs1: seq<Val>,
                                      st: Store, st1: Store, m: World, fuel: nat)
    returns (m1: World)
    requires Rewrites(f, f1, c.s) && Resolved(f, c.scope, c.sv) && Ready(c, Free(f), st, st1, m)
    requires ValsAlike(m, Nones(|vs|), vs, vs1)
    ensures var r, r1 := Eval(f, c.env, st, fuel), Eval(f1, c.env1, st1, fuel);
            && (r.Ok? ==> r1.Ok? && Matches(Apply(r.value, vs, r.st, fuel), Apply(r1.value, vs1, r1.st, fuel), m, m1))
            && (r.Err? ==> r1.Err?) && (r.Timeout? ==> r1.Timeout?) && m <= m1
    decreases fuel, 1, f, 2
  {
    hide Alike;
    hide StoreAlike;
    hide EnvAlike;
    hide Rewrites;
    hide Apply;
    m1 := SimEval(f, f1, c, st, st1, m, fuel);
    var r, r1 := Eval(f, c.env, st, fuel), Eval(f1, c.env1, st1, fuel);
    NonesVals(m, Nones(|vs|), vs, vs1);
    AllAlikeLater(m, m1, vs, vs1);
    if r.Ok? {
      m1 := SimApply(r.value, r1.value, vs, vs1, r.st, r1.st, m1, fuel);
    }
  }

  lemma LambdaShrinks(l: Lambda, l1: Lambda, s: Substs)
    requires RewritesLambda(l, l1, s)
    ensures Shrinks(l, l1, Nones(|l.params|), s)
  {
    PickNones(l.params, Nones(|l.params|));
    MovedNones(l.params, Nones(|l.params|), l.id);
    assert s + map[] == s;
  }

  lemma {:induction false} ListAlike(m: World, vs: seq<Val>, vs1: seq<Val>, st: Store, st1: Store) returns (m1: World)
    requires AllAlike(m, vs, vs1) && StoreAlike(m, st, st1)
    ensures var r, r1 := ListIn(st, vs), ListIn(st1, vs1);
            m <= m1 && StoreAlike(m1, r.0, r1.0) && Alike(m1, r.1, r1.1)
    decreases |vs|
  {
    hide StoreAlike;
    if vs == [] {
      m1 := m;
    } else {
      m1 := ListAlike(m, vs[1..], vs1[1..], st, st1);
      AlikeLater(m, m1, vs[0], vs1[0]);
      hide Alike;
      var r, r1 := ListIn(st, vs[1..]), ListIn(st1, vs1[1..]);
      m1 := NewPair(m1, r.0, r1.0, vs[0], r.1, vs1[0], r1.1);
    }
  }

  lemma {:induction false} ActualsAlike(m: World, l: Lambda, l1: Lambda, vs: seq<Val>, vs1: seq<Val>, st: Store, st1: Store)
    returns (m1: World)
    requires AllAlike(m, vs, vs1) && StoreAlike(m, st, st1) && l1 == l.(fv := l1.fv, body := l1.body) && Takes(l, |vs|)
    ensures m <= m1 && StoreAlike(m1, RestStore(l, vs, st), RestStore(l1, vs1, st1))
    ensures AllAlike(m1, Actuals(l, vs, st), Actuals(l1, vs1, st1))
  {
    hide Alike;
    hide StoreAlike;
    var n := |l.params|;
    m1 := m;
    if l.rest.Some? {
      m1 := ListAlike(m, vs[n..], vs1[n..], st, st1);
    }
    AllAlikeLater(m, m1, vs, vs1);
    ImmAlike(m1, Lit(Undef));
    var a, a1 := Actuals(l, vs, st), Actuals(l1, vs1, st1);
    forall i | 0 <= i < |a| ensures Alike(m1, a[i], a1[i]) {
    }
  }

  lemma {:induction false} SimApply(v: Val, v1: Val, vs: seq<Val>, vs1: seq<Val>, st: Store, st1: Store, m: World, fuel: nat)
    returns (m1: World)
    requires Alike(m, v, v1) && AllAlike(m, vs, vs1) && StoreAlike(m, st, st1)
    ensures Matches(Apply(v, vs, st, fuel), Apply(v1, vs1, st1, fuel), m, m1)
    decreases fuel, 0
  {
    hide StoreAlike;
    hide EnvAlike;
    hide Rewrites;
    hide Actuals;
    hide RestStore;
    hide Alike;
    hide Resolved;
    m1 := m;
    Shapes(m, v, v1);
    if v.Clo? {
      var l, l1 := v.l, v1.l;
      var c := Opened(m, v, v1);
      if Takes(l, |vs|) && fuel > 0 {
        m1 := ActualsAlike(m, l, l1, vs, vs1, st, st1);
        EnvLater(Free(Lam(l)), c.env, c.env1, c.s, m, m1);
        LambdaShrinks(l, l1, c.s);
        var acts, acts1 := Actuals(l, vs, st), Actuals(l1, vs1, st1);
        NonesSplit(|l.params|, |acts|);
        ValsNones(m1, acts, acts1, Nones(|acts|));
        m1 := SimBody(l, l1, Nones(|l.params|), c, acts, acts1, RestStore(l, vs, st), RestStore(l1, vs1, st1), m1, fuel - 1);
      }
    }
  }

  lemma Shapes(m: World, v: Val, v1: Val)
    requires Alike(m, v, v1)
    ensures v.Clo? <==> v1.Clo?
  {
  }

  /** The context in which related procedures were made. */
  lemma Opened(m: World, v: Val, v1: Val) returns (c: Context)
    requires Alike(m, v, v1) && v.Clo?
    ensures v1.Clo? && CloAlike(m, v.l, v.env, v1.l, v1.env, c)
  {
    c :| CloAlike(m, v.l, v.env, v1.l, v1.env, c);
  }

  lemma NonesSplit(k: nat, n: nat)
    requires k <= n
    ensures Nones(k) + Nones(n - k) == Nones(n)
  {
  }

  lemma {:induction false} SimBody(l: Lambda, l1: Lambda, plan: Plan, c: Context, acts: seq<Val>, acts1: seq<Val>,
                                   st: Store, st1: Store, m: World, fuel: nat)
    returns (m1: World)
    requires Shrinks(l, l1, plan, c.s) && Resolved(Lam(l), c.scope, c.sv) && Ready(c, Free(Lam(l)), st, st1, m)
    requires |acts| == |l.Names()| && ValsAlike(m, plan + Nones(|l.Names()| - |plan|), acts, acts1)
    ensures Matches(Eval(l.body, Extend(c.env, l.Names(), l.id, |st|), st + acts, fuel),
                    Eval(l1.body, Extend(c.env1, l1.Names(), l.id, |st1|), st1 + acts1, fuel), m, m1)
    decreases fuel, 1, l.body, 2
  {
    hide StoreAlike;
    hide EnvAlike;
    hide Rewrites;
    hide Alike;
    hide Eval;
    var m2, c1 := BodyReady(l, l1, plan, c, acts, acts1, st, st1, m);
    m1 := SimEval(l.body, l1.body, c1, st + acts, st1 + acts1, m2, fuel);
  }

  lemma {:induction false} ValsCount(m: World, plan: Plan, vs: seq<Val>, vs1: seq<Val>, params: seq<Name>)
    requires |plan| == |vs| == |params| && ValsAlike(m, plan, vs, vs1)
    ensures |vs1| == |Pick(params, plan)|
    decreases |vs|
  {
    hide Alike;
    if vs != [] {
      ValsCount(m, plan[1..], vs[1..], if plan[0].Some? then vs1 else vs1[1..], params[1..]);
    }
  }

  /** Values of the rest parameter and the internal definitions when there are no extra arguments. */
  function TailValues(l: Lambda): seq<Val> {
    (if l.rest.Some? then [Imm(Null)] else []) + seq(|l.locals|, _ => Imm(Undef))
  }

  lemma ExactActuals(l: Lambda, vs: seq<Val>, st: Store)
    requires |vs| == |l.params|
    ensures Takes(l, |vs|) && Actuals(l, vs, st) == vs + TailValues(l) && RestStore(l, vs, st) == st
  {
    assert vs[..|vs|] == vs && ListIn(st, vs[|vs|..]) == (st, Imm(Null));
    assert Actuals(l, vs, st) == vs + TailValues(l);
  }

  lemma TailAlike(m: World, l: Lambda)
    ensures AllAlike(m, TailValues(l), TailValues(l))
  {
  }

  /** A directly applied lambda, with and without the constants among its arguments. */
  lemma {:induction false} SimLet(l: Lambda, l1: Lambda, plan: Plan, c: Context, vs: seq<Val>, vs1: seq<Val>,
                                  st: Store, st1: Store, m: World, fuel: nat)
    returns (m1: World)
    requires Shrinks(l, l1, plan, c.s) && Resolved(Lam(l), c.scope, c.sv) && Ready(c, Free(Lam(l)), st, st1, m)
    requires |vs| == |plan| && ValsAlike(m, plan, vs, vs1)
    ensures Matches(Apply(Clo(l, c.env), vs, st, fuel), Apply(Clo(l1, c.env1), vs1, st1, fuel), m, m1)
    decreases fuel, 0
  {
    hide StoreAlike;
    hide EnvAlike;
    hide Rewrites;
    hide Alike;
    hide Actuals;
    hide RestStore;
    m1 := m;
    ValsCount(m, plan, vs, vs1, l.params);
    var tail := TailValues(l);
    ExactActuals(l, vs, st);
    ExactActuals(l1, vs1, st1);
    var acts, acts1 := Actuals(l, vs, st), Actuals(l1, vs1, st1);
    TailAlike(m, l);
    ValsAppend(m, plan, vs, vs1, tail, tail);
    if fuel > 0 {
      m1 := SimBody(l, l1, plan, c, acts, acts1, st, st1, m, fuel - 1);
    }
  }

  // --------------------------------------------------------------- primitives

  lemma {:induction false} SimLeft(es: seq<Expr>, es1: seq<Expr>, c: Context, st: Store, st1: Store, m: World, fuel: nat)
    returns (m1: World)
    requires RewritesAll(es, es1, c.s) && (forall e <- es :: Resolved(e, c.scope, c.sv)) && Ready(c, FreeAll(es), st, st1, m)
    ensures MatchesAll(EvalLeft(es, c.env, st, fuel), EvalLeft(es1, c.env1, st1, fuel), m, m1)
    decreases fuel, 1, es, 0
  {
    hide Alike;
    hide StoreAlike;
    hide EnvAlike;
    hide Rewrites;
    if es == [] {
      m1 := m;
    } else {
      EnvFewer(FreeAll(es), Free(es[0]), c.env, c.env1, c.s, m);
      EnvFewer(FreeAll(es), FreeAll(es[1..]), c.env, c.env1, c.s, m);
      m1 := SimEval(es[0], es1[0], c, st, st1, m, fuel);
      var r, r1 := Eval(es[0], c.env, st, fuel), Eval(es1[0], c.env1, st1, fuel);
      if r.Ok? {
        var m2 := m1;
        EnvLater(FreeAll(es[1..]), c.env, c.env1, c.s, m, m2);
        m1 := SimLeft(es[1..], es1[1..], c, r.st, r1.st, m2, fuel);
        AlikeLater(m2, m1, r.value, r1.value);
      }
    }
  }

  lemma {:induction false} SimPrim(op: Opcode, args: seq<Expr>, e1: Expr, c: Context, st: Store, st1: Store, m: World, fuel: nat)
    returns (m1: World)
    requires Rewrites(Prim(op, args), e1, c.s) && Resolved(Prim(op, args), c.scope, c.sv)
    requires Ready(c, Free(Prim(op, args)), st, st1, m) && !Replaced(Prim(op, args), e1, c.s)
    ensures Matches(Eval(Prim(op, args), c.env, st, fuel), Eval(e1, c.env1, st1, fuel), m, m1)
    decreases fuel, 1, Prim(op, args), 0
  {
    hide Alike;
    hide StoreAlike;
    hide EnvAlike;
    hide Rewrites;
    hide PrimStep;
    PrimKept(op, args, e1, c.s);
    if Inverse(op) && ClassOf(op) == Comparison {
      m1 := SimLeft(args, e1.args, c, st, st1, m, fuel);
      var r, r1 := EvalLeft(args, c.env, st, fuel), EvalLeft(e1.args, c.env1, st1, fuel);
      if r.Ok? {
        m1 := PrimAlike(m1, op, r.value, r1.value, r.st, r1.st);
      }
    } else {
      AllRewritesArgs(args, e1.args, c.s, Nones(|args|));
      m1 := SimArgs(args, Nones(|args|), e1.args, c, st, st1, m, fuel);
      var r, r1 := EvalRight(args, c.env, st, fuel), EvalRight(e1.args, c.env1, st1, fuel);
      if r.Ok? {
        NonesVals(m1, Nones(|args|), r.value, r1.value);
        m1 := PrimAlike(m1, op, r.value, r1.value, r.st, r1.st);
      }
    }
  }

  lemma PrimKept(op: Opcode, args: seq<Expr>, e1: Expr, s: Substs)
    requires Rewrites(Prim(op, args), e1, s) && !Replaced(Prim(op, args), e1, s)
    ensures e1.Prim? && e1.op == op && RewritesAll(args, e1.args, s)
  {
  }

  /** Related values lead to related values along every path. */
  lemma {:induction false} LookAlike(m: World, st: Store, st1: Store, v: Val, v1: Val, path: seq<bool>)
    requires StoreAlike(m, st, st1) && Alike(m, v, v1)
    ensures var u, u1 := Look(st, v, path), Look(st1, v1, path);
            (u.Some? <==> u1.Some?) && (u.Some? ==> Alike(m, u.value, u1.value) && Kind(u.value) == Kind(u1.value))
    decreases |path|
  {
    if path != [] {
      hide StoreAlike;
      hide Alike;
      PairAlike(m, st, st1, v, v1);
      if IsPair(st, v) {
        var i := if path[0] then 0 else 1;
        LookAlike(m, st, st1, st[v.loc + i], st1[v1.loc + i], path[1..]);
      }
    }
  }

  /** Different pairs of one store are different pairs of the other. */
  lemma OnePair(m: World, st: Store, st1: Store, u: Val, u1: Val, v: Val, v1: Val)
    requires StoreAlike(m, st, st1) && u.PairAt? && v.PairAt? && Alike(m, u, u1) && Alike(m, v, v1)
    ensures u == v <==> u1 == v1
  {
    if u.loc < v.loc {
      assert m[u.loc].at != m[v.loc].at;
    } else if v.loc < u.loc {
      assert m[v.loc].at != m[u.loc].at;
    }
  }

  lemma SharedAlike(m: World, st: Store, st1: Store, v: Val, v1: Val, path: seq<bool>, other: seq<bool>)
    requires StoreAlike(m, st, st1) && Alike(m, v, v1)
    ensures Shared(st, v, path, other) <==> Shared(st1, v1, path, other)
  {
    hide StoreAlike;
    hide Alike;
    hide Look;
    LookAlike(m, st, st1, v, v1, path);
    LookAlike(m, st, st1, v, v1, other);
    var u, w := Look(st, v, path), Look(st, v, other);
    var u1, w1 := Look(st1, v1, path), Look(st1, v1, other);
    if u.Some? && w.Some? && u.value.PairAt? && w.value.PairAt? {
      OnePair(m, st, st1, u.value, u1.value, w.value, w1.value);
    }
  }

  lemma AlikeSameData(m: World, st: Store, st1: Store, v: Val, v1: Val)
    requires StoreAlike(m, st, st1) && Alike(m, v, v1)
    ensures SameData(st, v, st1, v1)
  {
    hide StoreAlike;
    hide Alike;
    hide Look;
    forall path ensures Seen(st, v, path) == Seen(st1, v1, path) {
      LookAlike(m, st, st1, v, v1, path);
    }
    forall path, other ensures Shared(st, v, path, other) <==> Shared(st1, v1, path, other) {
      SharedAlike(m, st, st1, v, v1, path, other);
    }
  }

  /** A whole program and its rewriting have the same outcome, after equally many calls. */
  ghost predicate SameOutcome(r: Result<Val>, r1: Result<Val>) {
    && (r.Ok? <==> r1.Ok?) && (r.Err? <==> r1.Err?) && (r.Timeout? <==> r1.Timeout?)
    && (r.Ok? ==> SameData(r.st, r.value, r1.st, r1.value))
  }

  lemma RewritesPreserve(e: Expr, e1: Expr, sv: set<Var>, fuel: nat)
    requires Rewrites(e, e1, map[]) && Resolved(e, [], sv)
    ensures SameOutcome(Program.Meaning(e, fuel), Program.Meaning(e1, fuel))
  {
    FreeAreBound(e, [], sv);
    assert Free(e) == {};
    var c := Context(map[], [], sv, map[], map[]);
    var m1 := SimEval(e, e1, c, [], [], [], fuel);
    var r, r1 := Program.Meaning(e, fuel), Program.Meaning(e1, fuel);
    if r.Ok? {
      AlikeSameData(m1, r.st, r1.st, r.value, r1.value);
    }
  }
}
