/**
  The simulation, by induction on the evaluator's recursion, and what it means
  for whole programs.
*/
module Simulate {
  import opened Options
  import opened Scheme
  import opened Bytecode
  import opened Codegen
  import opened Relation
  import opened Steps
  import Entry
  import opened Prims
  import Closures
  import opened Compiler

  lemma {:induction false} SimExpr(e: Expr, lam: Lambda, sv: set<Var>, env: Env, st: Store, rep: Rep, s: State,
                                   tail: bool, fuel: nat)
    returns (q: Sim)
    requires Wf(e, lam, sv) && Ready(lam, sv, env, st, rep, s)
    requires s.self.Proc? && CodeAt(s.self.code, s.ip, Gen(e, lam, sv, tail))
    ensures Simulates(Eval(e, env, st, fuel), sv, tail, fuel, |Gen(e, lam, sv, tail)|, rep, s, q)
    decreases fuel, 1, e, 2
  {
    hide Step;
    hide FrameRel;
    ReadyFrame(lam, sv, env, st, rep, s);
    match e
    case Lit(c) =>
      DoPush(s, Const(c));
      GrowsRefl(rep, s.heap);
      q := Sim(1, After(s, s.stack + [Const(c)], 1 + WORD, s.heap), rep, Const(c));
    case Ref(x) =>
      var n, w := DoRef(x, lam, sv, env, st, rep, s);
      GrowsRefl(rep, s.heap);
      hide GenRef;
      q := Sim(n, After(s, s.stack + [w], |GenRef(x, lam, sv, true)|, s.heap), rep, w);
    case Set(x, e1) =>
      q := SimSet(x, e1, lam, sv, env, st, rep, s, tail, fuel);
    case Cnd(test, pass, fail) =>
      q := SimCnd(test, pass, fail, lam, sv, env, st, rep, s, tail, fuel);
    case Seq(es) =>
      q := SimSeq(es, lam, sv, env, st, rep, s, tail, fuel);
    case Lam(l) =>
      var n, w, heap := Closures.DoLambda(l, lam, sv, env, rep, s);
      hide GenLambda;
      StoreGrow(rep, s.heap, heap, sv, st);
      q := Sim(n, After(s, s.stack + [w], |GenLambda(l, lam, sv)|, heap), rep, w);
    case App(f, args) =>
      q := SimApp(f, args, lam, sv, env, st, rep, s, tail, fuel);
    case Prim(op, args) =>
      q := SimPrim(op, args, lam, sv, env, st, rep, s, tail, fuel);
  }


  // -------------------------------------------------- definitions, unfolded once

  lemma EvalCnd(test: Expr, pass: Expr, fail: Expr, env: Env, st: Store, fuel: nat)
    ensures Eval(Cnd(test, pass, fail), env, st, fuel) ==
            match Eval(test, env, st, fuel)
            case Ok(v, st1) => if Truthy(v) then Eval(pass, env, st1, fuel) else Eval(fail, env, st1, fuel)
            case Err => Err
            case Timeout => Timeout
  {
  }

  lemma EvalApp(f: Expr, args: seq<Expr>, env: Env, st: Store, fuel: nat)
    ensures Eval(App(f, args), env, st, fuel) == AppResult(EvalRight(args, env, st, fuel), f, env, fuel)
  {
  }

  /** Operand values to the result of the application. */
  function AppResult(rs: Result<seq<Val>>, f: Expr, env: Env, fuel: nat): Result<Val> {
    if rs.Timeout? then Timeout
    else if rs.Err? then Err
    else
      var r := Eval(f, env, rs.st, fuel);
      if r.Timeout? then Timeout else if r.Err? then Err else Apply(r.value, rs.value, r.st, fuel)
  }

  lemma AppCode(f: Expr, args: seq<Expr>, lam: Lambda, sv: set<Var>, tail: bool)
    ensures Gen(App(f, args), lam, sv, tail) ==
            GenRight(args, lam, sv) + Gen(f, lam, sv, false) + WithWord(if tail then TAIL_CALL else CALL, I(|args|))
  {
  }

  lemma EffectCode(e: Expr, lam: Lambda, sv: set<Var>)
    ensures e.Lit? ==> GenEffect(e, lam, sv) == []
    ensures e.Set? ==> GenEffect(e, lam, sv) == Gen(e.e, lam, sv, false) + GenStore(e.x, lam, sv)
    ensures !e.Lit? && !e.Set? ==> GenEffect(e, lam, sv) == Gen(e, lam, sv, false) + Plain(DROP)
  {
  }

  lemma SeqCode(es: seq<Expr>, lam: Lambda, sv: set<Var>, tail: bool, env: Env, st: Store, fuel: nat)
    requires |es| >= 1
    ensures |es| == 1 ==> GenSeq(es, lam, sv, tail) == Gen(es[0], lam, sv, tail)
    ensures |es| == 1 ==> EvalSeq(es, env, st, fuel) == Eval(es[0], env, st, fuel)
    ensures |es| > 1 ==> GenSeq(es, lam, sv, tail) == GenEffect(es[0], lam, sv) + GenSeq(es[1..], lam, sv, tail)
    ensures |es| > 1 ==>
              var r := Eval(es[0], env, st, fuel);
              && (r.Ok? ==> EvalSeq(es, env, st, fuel) == EvalSeq(es[1..], env, r.st, fuel))
              && (!r.Ok? ==> EvalSeq(es, env, st, fuel) == r)
  {
  }

  // ------------------------------------------------------------ assignment

  lemma {:induction false} SimStore(x: Var, e1: Expr, lam: Lambda, sv: set<Var>, env: Env, st: Store, rep: Rep,
                                    s: State, fuel: nat)
    returns (q: Sim)
    requires Wf(e1, lam, sv) && InScope(x, lam) && x in sv && Ready(lam, sv, env, st, rep, s)
    requires s.self.Proc? && CodeAt(s.self.code, s.ip, Gen(e1, lam, sv, false) + GenStore(x, lam, sv))
    ensures Effects(Eval(Set(x, e1), env, st, fuel), sv, fuel,
                    |Gen(e1, lam, sv, false)| + |GenStore(x, lam, sv)|, rep, s, q)
    ensures Eval(Set(x, e1), env, st, fuel).Ok? ==> Eval(Set(x, e1), env, st, fuel).value == Imm(Void)
    decreases fuel, 1, e1, 3
  {
    hide Step;
    hide FrameRel;
    hide Gen;
    hide GenStore;
    hide Eval;
    var c1, c2 := Gen(e1, lam, sv, false), GenStore(x, lam, sv);
    CodeSplit(s.self.code, s.ip, c1, c2);
    q := SimExpr(e1, lam, sv, env, st, rep, s, false, fuel);
    var r := Eval(e1, env, st, fuel);
    EvalSet(x, e1, env, st, fuel);
    if r.Ok? {
      q := StoreAfter(x, lam, sv, env, st, rep, s, r, |c1|, fuel, q);
    }
  }

  /** The value is on the stack; store it. */
  lemma StoreAfter(x: Var, lam: Lambda, sv: set<Var>, env: Env, st: Store, rep: Rep, s: State,
                   r: Result<Val>, len: nat, fuel: nat, q: Sim)
    returns (q1: Sim)
    requires InScope(x, lam) && x in sv && Ready(lam, sv, env, st, rep, s) && s.self.Proc?
    requires r.Ok? && Simulates(r, sv, false, fuel, len, rep, s, q)
    requires CodeAt(s.self.code, s.ip + len, GenStore(x, lam, sv))
    ensures x in env && env[x] < |r.st|
    ensures Effects(Ok(Imm(Void), r.st[env[x] := r.value]), sv, fuel, len + |GenStore(x, lam, sv)|, rep, s, q1)
  {
    hide Step;
    hide FrameRel;
    hide GenStore;
    assert q.t.stack[..|s.stack|] == s.stack;
    StillReady(lam, sv, env, st, rep, s, r.st, q.rep, q.t);
    var q2 := FinishStore(x, lam, sv, env, r.st, q.rep, q.t, s.stack, r.value, q.w);
    Chain2(s, q.n, q.t, q2.n);
    GrowsTrans(rep, s.heap, q.rep, q.t.heap, q2.rep, q2.t.heap);
    q1 := Sim(q.n + q2.n, q2.t, q2.rep, q2.w);
  }

  lemma EvalSet(x: Var, e1: Expr, env: Env, st: Store, fuel: nat)
    ensures Eval(Set(x, e1), env, st, fuel) ==
            match Eval(e1, env, st, fuel)
            case Ok(v, st1) => if x in env && env[x] < |st1| then Ok(Imm(Void), st1[env[x] := v]) else Err
            case Err => Err
            case Timeout => Timeout
  {
  }

  lemma SetCode(x: Var, e1: Expr, lam: Lambda, sv: set<Var>, tail: bool)
    ensures Gen(Set(x, e1), lam, sv, tail) == Gen(e1, lam, sv, false) + GenStore(x, lam, sv) + Push(Const(Void))
  {
  }

  lemma {:induction false} SimSet(x: Var, e1: Expr, lam: Lambda, sv: set<Var>, env: Env, st: Store, rep: Rep, s: State,
                                  tail: bool, fuel: nat)
    returns (q: Sim)
    requires Wf(Set(x, e1), lam, sv) && Ready(lam, sv, env, st, rep, s)
    requires s.self.Proc? && CodeAt(s.self.code, s.ip, Gen(Set(x, e1), lam, sv, tail))
    ensures Simulates(Eval(Set(x, e1), env, st, fuel), sv, tail, fuel, |Gen(Set(x, e1), lam, sv, tail)|, rep, s, q)
    decreases fuel, 1, e1, 4
  {
    hide Step;
    hide FrameRel;
    hide Gen;
    hide GenStore;
    hide Eval;
    SetCode(x, e1, lam, sv, tail);
    var c := Gen(e1, lam, sv, false) + GenStore(x, lam, sv);
    CodeSplit(s.self.code, s.ip, c, Push(Const(Void)));
    q := SimStore(x, e1, lam, sv, env, st, rep, s, fuel);
    if Eval(Set(x, e1), env, st, fuel).Ok? {
      DoPush(q.t, Const(Void));
      Chain2(s, q.n, q.t, 1);
      q := Sim(q.n + 1, After(q.t, q.t.stack + [Const(Void)], 1 + WORD, q.t.heap), q.rep, Const(Void));
    }
  }

  // ------------------------------------------------------------ conditional

  lemma {:induction false} SimCnd(test: Expr, pass: Expr, fail: Expr, lam: Lambda, sv: set<Var>, env: Env, st: Store,
                                  rep: Rep, s: State, tail: bool, fuel: nat)
    returns (q: Sim)
    requires Wf(test, lam, sv) && Wf(pass, lam, sv) && Wf(fail, lam, sv) && Ready(lam, sv, env, st, rep, s)
    requires s.self.Proc? && CodeAt(s.self.code, s.ip, Gen(Cnd(test, pass, fail), lam, sv, tail))
    ensures Simulates(Eval(Cnd(test, pass, fail), env, st, fuel), sv, tail, fuel,
                      |Gen(Cnd(test, pass, fail), lam, sv, tail)|, rep, s, q)
    decreases fuel, 1, Cnd(test, pass, fail), 1
  {
    hide Step;
    hide Run;
    hide CodeAt;
    hide ValRel;
    hide StoreRel;
    hide Grows;
    hide FrameRel;
    hide Gen;
    hide Eval;
    EvalCnd(test, pass, fail, env, st, fuel);
    CndCode(s.self.code, s.ip, test, pass, fail, lam, sv, tail);
    var c, p, f := Gen(test, lam, sv, false), Gen(pass, lam, sv, tail), Gen(fail, lam, sv, tail);
    var len := |Gen(Cnd(test, pass, fail), lam, sv, tail)|;
    q := SimExpr(test, lam, sv, env, st, rep, s, false, fuel);
    var r := Eval(test, env, st, fuel);
    if r.Ok? {
      var t := TestAfter(r, lam, sv, env, st, rep, s, |c|, |p|, fuel, q);
      if Truthy(r.value) {
        var q2 := SimExpr(pass, lam, sv, env, r.st, q.rep, t, tail, fuel);
        var q3 := FinishPass(Eval(pass, env, r.st, fuel), sv, tail, fuel, |p|, |f|, q.rep, t, q2);
        q := Continue(Eval(pass, env, r.st, fuel), sv, tail, fuel, len, rep, s, q.n + 1, t, q.rep,
                      |p| + 1 + WORD + |f|, q3);
      } else {
        var q2 := SimExpr(fail, lam, sv, env, r.st, q.rep, t, tail, fuel);
        q := Continue(Eval(fail, env, r.st, fuel), sv, tail, fuel, len, rep, s, q.n + 1, t, q.rep, |f|, q2);
      }
    }
  }

  /** The conditional jump after the test. */
  lemma TestAfter(r: Result<Val>, lam: Lambda, sv: set<Var>, env: Env, st: Store, rep: Rep, s: State, len: nat, skip: nat,
                  fuel: nat, q: Sim)
    returns (t: State)
    requires Ready(lam, sv, env, st, rep, s) && s.self.Proc?
    requires r.Ok? && Simulates(r, sv, false, fuel, len, rep, s, q)
    requires CodeAt(s.self.code, s.ip + len, WithWord(JUMP_UNLESS, I(WORD + skip + 1 + WORD)))
    ensures Run(s, q.n + 1) == Next(t) && Ready(lam, sv, env, r.st, q.rep, t)
    ensures t == After(s, s.stack, len + (if Truthy(r.value) then 1 + WORD else 2 + 2 * WORD + skip), q.t.heap)
    ensures Grows(rep, s.heap, q.rep, t.heap) && FrameOk(s)
  {
    hide Step;
    hide FrameRel;
    FalseRel(q.rep, q.t.heap, sv, r.value, q.w);
    DoJumpUnless(q.t, WORD + skip + 1 + WORD, s.stack, q.w);
    Chain2(s, q.n, q.t, 1);
    t := After(q.t, s.stack, if IsFalse(q.w) then 2 + 2 * WORD + skip else 1 + WORD, q.t.heap);
    assert t.stack[..|s.stack|] == s.stack;
    StillReady(lam, sv, env, st, rep, s, r.st, q.rep, t);
    ReadyFrame(lam, sv, env, st, rep, s);
  }

  // --------------------------------------------------------------- sequence

  lemma {:induction false} SimEffect(e: Expr, lam: Lambda, sv: set<Var>, env: Env, st: Store, rep: Rep, s: State, fuel: nat)
    returns (q: Sim)
    requires Wf(e, lam, sv) && Ready(lam, sv, env, st, rep, s)
    requires s.self.Proc? && CodeAt(s.self.code, s.ip, GenEffect(e, lam, sv))
    ensures Effects(Eval(e, env, st, fuel), sv, fuel, |GenEffect(e, lam, sv)|, rep, s, q)
    decreases fuel, 1, e, 5
  {
    hide Step;
    hide FrameRel;
    hide Gen;
    hide GenEffect;
    hide GenStore;
    EffectCode(e, lam, sv);
    if e.Lit? {
      q := Sim(0, s, rep, Const(Void));
      GrowsRefl(rep, s.heap);
    } else if e.Set? {
      q := SimStore(e.x, e.e, lam, sv, env, st, rep, s, fuel);
    } else {
      q := SimDropped(e, lam, sv, env, st, rep, s, fuel);
    }
  }

  lemma {:induction false} SimDropped(e: Expr, lam: Lambda, sv: set<Var>, env: Env, st: Store, rep: Rep, s: State, fuel: nat)
    returns (q: Sim)
    requires Wf(e, lam, sv) && Ready(lam, sv, env, st, rep, s)
    requires s.self.Proc? && CodeAt(s.self.code, s.ip, Gen(e, lam, sv, false) + Plain(DROP))
    ensures Effects(Eval(e, env, st, fuel), sv, fuel, |Gen(e, lam, sv, false)| + 1, rep, s, q)
    decreases fuel, 1, e, 4
  {
    hide Step;
    hide FrameRel;
    hide Gen;
    hide Eval;
    hide Wf;
    var c := Gen(e, lam, sv, false);
    CodeSplit(s.self.code, s.ip, c, Plain(DROP));
    q := SimExpr(e, lam, sv, env, st, rep, s, false, fuel);
    q := FinishDrop(Eval(e, env, st, fuel), sv, fuel, |c|, rep, s, q);
  }

  lemma FinishDrop(r: Result<Val>, sv: set<Var>, fuel: nat, len: nat, rep: Rep, s: State, q: Sim) returns (q1: Sim)
    requires Simulates(r, sv, false, fuel, len, rep, s, q)
    requires s.self.Proc? && CodeAt(s.self.code, s.ip + len, Plain(DROP))
    ensures Effects(r, sv, fuel, len + 1, rep, s, q1)
  {
    hide Step;
    q1 := q;
    if r.Ok? {
      DoDrop(q.t, s.stack, q.w);
      Chain2(s, q.n, q.t, 1);
      q1 := Sim(q.n + 1, After(q.t, s.stack, 1, q.t.heap), q.rep, q.w);
    }
  }

  lemma {:induction false} SimSeq(es: seq<Expr>, lam: Lambda, sv: set<Var>, env: Env, st: Store, rep: Rep, s: State,
                                  tail: bool, fuel: nat)
    returns (q: Sim)
    requires |es| >= 1 && (forall i :: 0 <= i < |es| ==> Wf(es[i], lam, sv)) && Ready(lam, sv, env, st, rep, s)
    requires s.self.Proc? && CodeAt(s.self.code, s.ip, GenSeq(es, lam, sv, tail))
    ensures Simulates(EvalSeq(es, env, st, fuel), sv, tail, fuel, |GenSeq(es, lam, sv, tail)|, rep, s, q)
    decreases fuel, 1, es, 0
  {
    hide Step;
    hide FrameRel;
    hide Gen;
    hide GenEffect;
    hide GenSeq;
    hide Eval;
    hide EvalSeq;
    hide Wf;
    SeqCode(es, lam, sv, tail, env, st, fuel);
    assert Wf(es[0], lam, sv);
    if |es| == 1 {
      q := SimExpr(es[0], lam, sv, env, st, rep, s, tail, fuel);
    } else {
      var c1, c2 := GenEffect(es[0], lam, sv), GenSeq(es[1..], lam, sv, tail);
      CodeSplit(s.self.code, s.ip, c1, c2);
      q := SimEffect(es[0], lam, sv, env, st, rep, s, fuel);
      var r := Eval(es[0], env, st, fuel);
      if r.Ok? {
        assert q.t.stack[..|s.stack|] == s.stack;
        StillReady(lam, sv, env, st, rep, s, r.st, q.rep, q.t);
        ReadyFrame(lam, sv, env, st, rep, s);
        var q2 := SimSeq(es[1..], lam, sv, env, r.st, q.rep, q.t, tail, fuel);
        q := Continue(EvalSeq(es[1..], env, r.st, fuel), sv, tail, fuel, |c1| + |c2|, rep, s, q.n, q.t, q.rep, |c2|, q2);
      }
    }
  }

  // --------------------------------------------------------------- operands

  lemma {:induction false} SimRight(es: seq<Expr>, lam: Lambda, sv: set<Var>, env: Env, st: Store, rep: Rep, s: State,
                                    fuel: nat)
    returns (q: Sim, ws: seq<Word>)
    requires (forall i :: 0 <= i < |es| ==> Wf(es[i], lam, sv)) && Ready(lam, sv, env, st, rep, s)
    requires s.self.Proc? && CodeAt(s.self.code, s.ip, GenRight(es, lam, sv))
    ensures Operands(EvalRight(es, env, st, fuel), sv, false, fuel, |GenRight(es, lam, sv)|, rep, s, q, ws)
    decreases fuel, 1, es, 0
  {
    hide Step;
    hide FrameRel;
    hide Gen;
    hide Eval;
    if es == [] {
      q, ws := Sim(0, s, rep, Const(Void)), [];
      assert s.stack + Reverse(ws) == s.stack;
      GrowsRefl(rep, s.heap);
    } else {
      assert Wf(es[0], lam, sv);
      var c1, c2 := GenRight(es[1..], lam, sv), Gen(es[0], lam, sv, false);
      assert GenRight(es, lam, sv) == c1 + c2;
      CodeSplit(s.self.code, s.ip, c1, c2);
      q, ws := SimRight(es[1..], lam, sv, env, st, rep, s, fuel);
      var r := EvalRight(es[1..], env, st, fuel);
      if r.Ok? {
        assert q.t.stack[..|s.stack|] == s.stack;
        StillReady(lam, sv, env, st, rep, s, r.st, q.rep, q.t);
        var q2 := SimExpr(es[0], lam, sv, env, r.st, q.rep, q.t, false, fuel);
        q, ws := RightAfter(r, Eval(es[0], env, r.st, fuel), sv, fuel, |c1|, |c2|, rep, s, q, ws, q2);
      }
    }
  }

  /** The later operands and the first one, put together. */
  lemma RightAfter(r: Result<seq<Val>>, r2: Result<Val>, sv: set<Var>, fuel: nat, len: nat, len2: nat, rep: Rep, s: State,
                   q: Sim, ws: seq<Word>, q2: Sim)
    returns (q1: Sim, ws1: seq<Word>)
    requires r.Ok? && Operands(r, sv, false, fuel, len, rep, s, q, ws)
    requires Simulates(r2, sv, false, fuel, len2, q.rep, q.t, q2)
    ensures Operands(Prepend(r2, r), sv, false, fuel, len + len2, rep, s, q1, ws1)
  {
    hide Step;
    Chain2(s, q.n, q.t, q2.n);
    q1, ws1 := Sim(q.n + q2.n, q2.t, q2.rep, q2.w), [];
    if r2.Ok? {
      PushOperand(sv, r.value, ws, r2.value, q, q2);
      GrowsTrans(rep, s.heap, q.rep, q.t.heap, q2.rep, q2.t.heap);
      ws1 := [q2.w] + ws;
      assert s.stack + Reverse(ws) + [q2.w] == s.stack + Reverse(ws1);
    }
  }

  function Prepend(r: Result<Val>, rs: Result<seq<Val>>): Result<seq<Val>>
    requires rs.Ok?
  {
    match r
    case Ok(v, st) => Ok([v] + rs.value, st)
    case Err => Err
    case Timeout => Timeout
  }

  function PrependTo(v: Val, rs: Result<seq<Val>>): Result<seq<Val>> {
    match rs
    case Ok(vs, st) => Ok([v] + vs, st)
    case Err => Err
    case Timeout => Timeout
  }

  lemma PushOperand(sv: set<Var>, vs: seq<Val>, ws: seq<Word>, v: Val, q: Sim, q2: Sim)
    requires ValsRel(q.rep, q.t.heap, sv, vs, ws) && Grows(q.rep, q.t.heap, q2.rep, q2.t.heap)
    requires ValRel(q2.rep, q2.t.heap, sv, v, q2.w)
    ensures ValsRel(q2.rep, q2.t.heap, sv, [v] + vs, [q2.w] + ws)
  {
    GrowsVals(q.rep, q.t.heap, q2.rep, q2.t.heap, sv, vs, ws);
  }

  lemma PrependOperand(sv: set<Var>, v: Val, vs: seq<Val>, ws: seq<Word>, q: Sim, q2: Sim)
    requires ValRel(q.rep, q.t.heap, sv, v, q.w) && Grows(q.rep, q.t.heap, q2.rep, q2.t.heap)
    requires ValsRel(q2.rep, q2.t.heap, sv, vs, ws)
    ensures ValsRel(q2.rep, q2.t.heap, sv, [v] + vs, [q.w] + ws)
  {
    GrowsVal(q.rep, q.t.heap, q2.rep, q2.t.heap, sv, v, q.w);
  }

  lemma {:induction false} SimLeft(es: seq<Expr>, lam: Lambda, sv: set<Var>, env: Env, st: Store, rep: Rep, s: State,
                                   fuel: nat)
    returns (q: Sim, ws: seq<Word>)
    requires (forall i :: 0 <= i < |es| ==> Wf(es[i], lam, sv)) && Ready(lam, sv, env, st, rep, s)
    requires s.self.Proc? && CodeAt(s.self.code, s.ip, GenLeft(es, lam, sv))
    ensures Operands(EvalLeft(es, env, st, fuel), sv, true, fuel, |GenLeft(es, lam, sv)|, rep, s, q, ws)
    decreases fuel, 1, es, 0
  {
    hide Step;
    hide FrameRel;
    hide Gen;
    hide Eval;
    if es == [] {
      q, ws := Sim(0, s, rep, Const(Void)), [];
      assert s.stack + ws == s.stack;
      GrowsRefl(rep, s.heap);
    } else {
      assert Wf(es[0], lam, sv);
      var c1, c2 := Gen(es[0], lam, sv, false), GenLeft(es[1..], lam, sv);
      assert GenLeft(es, lam, sv) == c1 + c2;
      CodeSplit(s.self.code, s.ip, c1, c2);
      q := SimExpr(es[0], lam, sv, env, st, rep, s, false, fuel);
      ws := [];
      var r := Eval(es[0], env, st, fuel);
      if r.Ok? {
        assert q.t.stack[..|s.stack|] == s.stack;
        StillReady(lam, sv, env, st, rep, s, r.st, q.rep, q.t);
        var q2, ws2 := SimLeft(es[1..], lam, sv, env, r.st, q.rep, q.t, fuel);
        q, ws := LeftAfter(r, EvalLeft(es[1..], env, r.st, fuel), sv, fuel, |c1|, |c2|, rep, s, q, q2, ws2);
      }
    }
  }

  /** The first operand and the operands after it, put together. */
  lemma LeftAfter(r: Result<Val>, r2: Result<seq<Val>>, sv: set<Var>, fuel: nat, len: nat, len2: nat, rep: Rep, s: State,
                  q: Sim, q2: Sim, ws2: seq<Word>)
    returns (q1: Sim, ws: seq<Word>)
    requires r.Ok? && Simulates(r, sv, false, fuel, len, rep, s, q)
    requires Operands(r2, sv, true, fuel, len2, q.rep, q.t, q2, ws2)
    ensures Operands(PrependTo(r.value, r2), sv, true, fuel, len + len2, rep, s, q1, ws)
  {
    hide Step;
    Chain2(s, q.n, q.t, q2.n);
    q1, ws := Sim(q.n + q2.n, q2.t, q2.rep, q2.w), [];
    if r2.Ok? {
      PrependOperand(sv, r.value, r2.value, ws2, q, q2);
      GrowsTrans(rep, s.heap, q.rep, q.t.heap, q2.rep, q2.t.heap);
      assert s.stack + [q.w] + ws2 == s.stack + ([q.w] + ws2);
      ws := [q.w] + ws2;
    }
  }

  // ------------------------------------------------------------ application

  /** The operand words as the call instructions find them. */
  lemma CallArgs(all: seq<Word>, stack: seq<Word>, ws: seq<Word>, fw: Word)
    requires all == stack + Reverse(ws) + [fw]
    ensures all[|all| - 1] == fw
    ensures all[..|all| - 1 - |ws|] == stack
    ensures Reverse(all[|all| - 1 - |ws| .. |all| - 1]) == ws
  {
    hide Reverse;
    CallParts(all, stack, Reverse(ws), fw);
    ReverseTwice(ws);
  }

  lemma CallParts(all: seq<Word>, stack: seq<Word>, r: seq<Word>, fw: Word)
    requires all == stack + r + [fw]
    ensures all[|all| - 1] == fw && all[..|all| - 1 - |r|] == stack && all[|all| - 1 - |r| .. |all| - 1] == r
  {
  }

  lemma StepIsCall(s: State, op: Op, i: nat)
    requires s.self.Proc? && 0 <= s.ip < |s.self.code| && s.self.code[s.ip] == OpC(op)
    requires Operand0(s) == Some(I(i)) && i < |s.stack| && FrameOk(s) && s.fp + 4 <= |s.stack| - 1 - i
    ensures var top := |s.stack|;
            var args := Reverse(s.stack[top - 1 - i .. top - 1]);
            && (op.CALL? ==>
                  Step(s) == EnterCall(s.stack[..top - 1 - i], args, s.stack[top - 1], s.ip + 1 + WORD, s.self, s.fp, s.heap))
            && (op.TAIL_CALL? ==>
                  Step(s) == EnterCall(s.stack[..s.fp - Int(s.stack[s.fp])], args, s.stack[top - 1],
                                       Int(s.stack[s.fp + 1]), s.stack[s.fp + 2], Int(s.stack[s.fp + 3]), s.heap))
  {
    hide EnterCall;
    hide Reverse;
  }

  /** Both call instructions, with the operator on top of the operands. */
  lemma DoCall(s: State, op: Op, stack: seq<Word>, ws: seq<Word>, fw: Word)
    requires s.self.Proc? && FrameOk(s) && |ws| < |s.stack| && s.fp + 4 <= |stack|
    requires s.stack[|s.stack| - 1] == fw && s.stack[..|s.stack| - 1 - |ws|] == stack
    requires Reverse(s.stack[|s.stack| - 1 - |ws| .. |s.stack| - 1]) == ws
    requires CodeAt(s.self.code, s.ip, WithWord(op, I(|ws|)))
    ensures op.TAIL_CALL? ==>
              Step(s) == EnterCall(s.stack[..s.fp - Int(s.stack[s.fp])], ws, fw,
                                   Int(s.stack[s.fp + 1]), s.stack[s.fp + 2], Int(s.stack[s.fp + 3]), s.heap)
    ensures op.CALL? ==> Step(s) == EnterCall(stack, ws, fw, s.ip + 1 + WORD, s.self, s.fp, s.heap)
  {
    hide Step;
    hide EnterCall;
    hide Reverse;
    hide CodeAt;
    hide WithWord;
    hide Operand0;
    FetchWord(s, op, I(|ws|));
    StepIsCall(s, op, |ws|);
  }

  /** One instruction with outcome `o`, then what follows. */
  lemma Then(s: State, o: Outcome, n: nat)
    requires Step(s) == o
    ensures Run(s, n + 1) == if o.Next? then Run(o.s, n) else o
  {
    hide Step;
  }

  /** From the call instruction to the value, or to the caller. */
  lemma FinishCall(r: Result<Val>, sv: set<Var>, tail: bool, fuel: nat, rep: Rep, s: State, stack: seq<Word>,
                   ws: seq<Word>, fw: Word, q: Sim)
    returns (q1: Sim)
    requires s.self.Proc? && FrameOk(s) && s.stack == stack + Reverse(ws) + [fw]
    requires CodeAt(s.self.code, s.ip, WithWord(if tail then TAIL_CALL else CALL, I(|ws|)))
    requires if tail
             then Applied(r, sv, fuel, rep, s.heap, Step(s), s.stack[..s.fp - Int(s.stack[s.fp])],
                          Int(s.stack[s.fp + 1]), s.stack[s.fp + 2], Int(s.stack[s.fp + 3]), q)
             else Applied(r, sv, fuel, rep, s.heap, Step(s), stack, s.ip + 1 + WORD, s.self, s.fp, q)
    ensures match r
            case Ok(v, st) =>
              && Run(s, q1.n) == Next(q1.t) && Held(sv, st, rep, s, q1) && ValRel(q1.rep, q1.t.heap, sv, v, q1.w)
              && (if tail then q1.t == Returned(s, q1.w, q1.t.heap)
                  else q1.t == After(s, stack + [q1.w], 1 + WORD, q1.t.heap))
            case Err => Run(s, q1.n) == Raised
            case Timeout => q1.n >= fuel && Run(s, q1.n) == Next(q1.t)
  {
    hide Step;
    Then(s, Step(s), q.n);
    q1 := Sim(q.n + 1, q.t, q.rep, q.w);
  }

  lemma {:induction false} SimApply(f: Val, vs: seq<Val>, st: Store, sv: set<Var>, rep: Rep, heap: Heap, fuel: nat,
                                    base: seq<Word>, ws: seq<Word>, fw: Word, retIp: int, retSelf: Word, retFp: int)
    returns (q: Sim)
    requires StoreRel(rep, heap, sv, st) && ValRel(rep, heap, sv, f, fw) && ValsRel(rep, heap, sv, vs, ws)
    ensures Applied(Apply(f, vs, st, fuel), sv, fuel, rep, heap,
                    EnterCall(base, ws, fw, retIp, retSelf, retFp, heap), base, retIp, retSelf, retFp, q)
    decreases fuel, 0, 2
  {
    hide Step;
    hide FrameRel;
    q := Sim(0, State([], 0, 0, fw, heap), rep, fw);
    if f.Clo? {
      if !Takes(f.l, |vs|) {
        var _, _, _ := Entry.EnterRel(rep, heap, sv, st, f.l, f.env, vs, ws, base, fw, retIp, retSelf, retFp);
      } else {
        q := SimClosure(f.l, f.env, vs, st, sv, rep, heap, fuel, base, ws, fw, retIp, retSelf, retFp);
      }
    }
  }

  lemma {:induction false} SimClosure(l: Lambda, env: Env, vs: seq<Val>, st: Store, sv: set<Var>, rep: Rep, heap: Heap,
                                      fuel: nat, base: seq<Word>, ws: seq<Word>, fw: Word,
                                      retIp: int, retSelf: Word, retFp: int)
    returns (q: Sim)
    requires StoreRel(rep, heap, sv, st) && ValRel(rep, heap, sv, Clo(l, env), fw) && ValsRel(rep, heap, sv, vs, ws)
    requires Takes(l, |vs|)
    ensures Applied(Apply(Clo(l, env), vs, st, fuel), sv, fuel, rep, heap,
                    EnterCall(base, ws, fw, retIp, retSelf, retFp, heap), base, retIp, retSelf, retFp, q)
    decreases fuel, 0, 1
  {
    hide Step;
    hide FrameRel;
    hide EnterCall;
    hide Gen;
    hide GenBody;
    hide GenBoxes;
    hide GenReserve;
    hide Eval;
    hide Wf;
    var n, s, t, rep1 := Enter(rep, heap, sv, st, l, env, vs, ws, base, fw, retIp, retSelf, retFp);
    if fuel == 0 {
      q := Sim(0, s, rep, fw);
    } else {
      BodyCode(l, sv);
      var st0 := RestStore(l, vs, st);
      var env1 := Extend(env, l.Names(), l.id, |st0|);
      var st1 := st0 + Actuals(l, vs, st);
      var q1 := SimExpr(l.body, l, sv, env1, st1, rep1, t, true, fuel - 1);
      var r := Eval(l.body, env1, st1, fuel - 1);
      assert Apply(Clo(l, env), vs, st, fuel) == r;
      q := ClosureAfter(r, sv, fuel, |Gen(l.body, l, sv, true)|, rep, heap, s, n, t, rep1, q1);
    }
  }

  /** The body has been simulated from its entry; return to the caller. */
  lemma ClosureAfter(r: Result<Val>, sv: set<Var>, fuel: nat, len: nat, rep: Rep, heap: Heap, s: State, n: nat, t: State,
                     rep1: Rep, q1: Sim)
    returns (q: Sim)
    requires fuel > 0 && Run(s, n) == Next(t) && Grows(rep, heap, rep1, t.heap)
    requires Simulates(r, sv, true, fuel - 1, len, rep1, t, q1) && t.self.Proc? && FrameOk(t)
    requires CodeAt(t.self.code, t.ip + len, Plain(RET))
    ensures r.Ok? ==>
              && Run(s, q.n) == Next(q.t) && StoreRel(q.rep, q.t.heap, sv, r.st) && Grows(rep, heap, q.rep, q.t.heap)
              && ValRel(q.rep, q.t.heap, sv, r.value, q.w) && q.t == Returned(t, q.w, q.t.heap)
    ensures r.Err? ==> Run(s, q.n) == Raised
    ensures r.Timeout? ==> q.n + 1 >= fuel && Run(s, q.n) == Next(q.t)
  {
    hide Step;
    var q2 := FinishBody(r, sv, fuel - 1, len, rep1, t, q1);
    Chain2(s, n, t, q2.n);
    q := Sim(n + q2.n, q2.t, q2.rep, q2.w);
    if r.Ok? {
      GrowsTrans(rep, heap, rep1, t.heap, q2.rep, q2.t.heap);
    }
  }

  lemma {:induction false} SimApp(f: Expr, args: seq<Expr>, lam: Lambda, sv: set<Var>, env: Env, st: Store, rep: Rep,
                                  s: State, tail: bool, fuel: nat)
    returns (q: Sim)
    requires Wf(f, lam, sv) && (forall i :: 0 <= i < |args| ==> Wf(args[i], lam, sv)) && Ready(lam, sv, env, st, rep, s)
    requires s.self.Proc? && CodeAt(s.self.code, s.ip, Gen(App(f, args), lam, sv, tail))
    ensures Simulates(Eval(App(f, args), env, st, fuel), sv, tail, fuel, |Gen(App(f, args), lam, sv, tail)|, rep, s, q)
    decreases fuel, 1, App(f, args), 1
  {
    hide Step;
    hide FrameRel;
    hide Gen;
    hide GenRight;
    hide Eval;
    hide EvalRight;
    hide Apply;
    hide Wf;
    EvalApp(f, args, env, st, fuel);
    AppCode(f, args, lam, sv, tail);
    var c1, c2 := GenRight(args, lam, sv), Gen(f, lam, sv, false);
    CodeSplit3(s.self.code, s.ip, c1, c2, WithWord(if tail then TAIL_CALL else CALL, I(|args|)));
    var ws;
    q, ws := SimRight(args, lam, sv, env, st, rep, s, fuel);
    var r := EvalRight(args, env, st, fuel);
    if r.Ok? {
      assert q.t.stack[..|s.stack|] == s.stack;
      StillReady(lam, sv, env, st, rep, s, r.st, q.rep, q.t);
      var q2 := SimExpr(f, lam, sv, env, r.st, q.rep, q.t, false, fuel);
      var r2 := Eval(f, env, r.st, fuel);
      Chain2(s, q.n, q.t, q2.n);
      if r2.Ok? {
        GrowsVals(q.rep, q.t.heap, q2.rep, q2.t.heap, sv, r.value, ws);
        GrowsTrans(rep, s.heap, q.rep, q.t.heap, q2.rep, q2.t.heap);
        ReadyFrame(lam, sv, env, st, rep, s);
        q := SimCall(r2.value, r.value, r2.st, sv, tail, rep, s, q.n + q2.n, q2, ws, |c1| + |c2|, fuel);
      } else {
        q := Sim(q.n + q2.n, q2.t, q2.rep, q2.w);
      }
    }
  }

  /** The call itself, `n` steps after `s`, with operands and operator on the stack. */
  lemma {:induction false} SimCall(f: Val, vs: seq<Val>, st: Store, sv: set<Var>, tail: bool, rep: Rep, s: State, n: nat,
                                   at: Sim, ws: seq<Word>, len: nat, fuel: nat)
    returns (q: Sim)
    requires s.self.Proc? && FrameOk(s) && Run(s, n) == Next(at.t) && Held(sv, st, rep, s, at)
    requires ValRel(at.rep, at.t.heap, sv, f, at.w) && ValsRel(at.rep, at.t.heap, sv, vs, ws)
    requires at.t == After(s, s.stack + Reverse(ws) + [at.w], len, at.t.heap)
    requires CodeAt(s.self.code, s.ip + len, WithWord(if tail then TAIL_CALL else CALL, I(|ws|)))
    ensures Simulates(Apply(f, vs, st, fuel), sv, tail, fuel, len + 1 + WORD, rep, s, q)
    decreases fuel, 0, 3
  {
    hide Step;
    hide Run;
    hide EnterCall;
    hide Apply;
    hide CodeAt;
    hide WithWord;
    hide Reverse;
    hide ValRel;
    hide StoreRel;
    hide Grows;
    var t := at.t;
    var r := Apply(f, vs, st, fuel);
    assert t.stack[..|s.stack|] == s.stack;
    SameReturn(s, t, at.w, t.heap);
    CallArgs(t.stack, s.stack, ws, at.w);
    DoCall(t, if tail then TAIL_CALL else CALL, s.stack, ws, at.w);
    var q1;
    if tail {
      q1 := SimApply(f, vs, st, sv, at.rep, t.heap, fuel, t.stack[..t.fp - Int(t.stack[t.fp])], ws, at.w,
                     Int(t.stack[t.fp + 1]), t.stack[t.fp + 2], Int(t.stack[t.fp + 3]));
    } else {
      q1 := SimApply(f, vs, st, sv, at.rep, t.heap, fuel, s.stack, ws, at.w, t.ip + 1 + WORD, t.self, t.fp);
    }
    var q2 := FinishCall(r, sv, tail, fuel, at.rep, t, s.stack, ws, at.w, q1);
    Chain2(s, n, t, q2.n);
    q := Sim(n + q2.n, q2.t, q2.rep, q2.w);
    if r.Ok? {
      GrowsTrans(rep, s.heap, at.rep, t.heap, q2.rep, q2.t.heap);
      SameReturn(s, t, q2.w, q2.t.heap);
    }
  }

  // ------------------------------------------------------ opcode application

  predicate LeftFirst(op: Opcode) {
    Inverse(op) && ClassOf(op) == Comparison
  }

  function GenArgs(op: Opcode, args: seq<Expr>, lam: Lambda, sv: set<Var>): Code {
    if LeftFirst(op) then GenLeft(args, lam, sv) else GenRight(args, lam, sv)
  }

  function Opening(op: Opcode, n: nat): Code {
    if DefaultFirst(op, n) then Push(DefaultWord(op)) else []
  }

  /** The default that goes on top of the operands, and the operator. */
  function Closing(op: Opcode, n: nat): Code {
    (if DefaultLast(op, n) then Push(DefaultWord(op)) else [])
    + GenOperator(op, if DefaultFirst(op, n) || DefaultLast(op, n) then n + 1 else n)
  }

  lemma PrimCode(op: Opcode, args: seq<Expr>, lam: Lambda, sv: set<Var>, tail: bool)
    ensures Gen(Prim(op, args), lam, sv, tail) == Opening(op, |args|) + GenArgs(op, args, lam, sv) + Closing(op, |args|)
  {
    hide GenOperator;
    hide DefaultFirst;
    hide DefaultLast;
    var n := |args|;
    var a, b := Opening(op, n), GenArgs(op, args, lam, sv);
    var c := if DefaultLast(op, n) then Push(DefaultWord(op)) else [];
    var d := GenOperator(op, if DefaultFirst(op, n) || DefaultLast(op, n) then n + 1 else n);
    assert Gen(Prim(op, args), lam, sv, tail) == a + b + c + d;
    assert a + b + c + d == a + b + (c + d);
  }

  /** What lies on the stack when the operator runs, given the operand words. */
  function PrimStack(op: Opcode, ws: seq<Word>): seq<Word> {
    (if DefaultFirst(op, |ws|) then [DefaultWord(op)] else []) + Pushed(op, ws)
  }

  /** An operand list in the evaluation order the opcode uses. */
  function EvalArgs(op: Opcode, args: seq<Expr>, env: Env, st: Store, fuel: nat): Result<seq<Val>> {
    if LeftFirst(op) then EvalLeft(args, env, st, fuel) else EvalRight(args, env, st, fuel)
  }

  /** Operand values to the result of the application. */
  function PrimResult(op: Opcode, r: Result<seq<Val>>): Result<Val> {
    if r.Timeout? then Timeout
    else if r.Err? then Err
    else if !ArityOk(op, |r.value|) then Err
    else match PrimStep(op, r.value, r.st)
      case Some((v, st)) => Ok(v, st)
      case None => Err
  }

  /** The default of an opcode and the operator's code, once the operands are pushed. */
  lemma FinishPrim(rep: Rep, sv: set<Var>, op: Opcode, vs: seq<Val>, ws: seq<Word>, base: seq<Word>, s: State)
    returns (n: nat, w: Word)
    requires ArityOk(op, |vs|) && !OnPairs(op) && ValsRel(rep, s.heap, sv, vs, ws)
    requires s.self.Proc? && s.stack == base + PrimStack(op, ws)
    requires CodeAt(s.self.code, s.ip, Closing(op, |vs|))
    ensures Computes(rep, sv, s, base, |Closing(op, |vs|)|, PrimValue(op, vs), n, w, s.heap)
  {
    hide Step;
    match ClassOf(op)
    case Comparison =>
      assert Closing(op, |vs|) == [] + GenOperator(op, |vs|) == GenOperator(op, |vs|);
      assert PrimStack(op, ws) == Pushed(op, ws);
      hide Closing;
      n, w := DoComparison(rep, sv, op, vs, ws, base, s);
    case Other =>
      assert Closing(op, |vs|) == Plain(OpOf(op));
      assert PrimStack(op, ws) == Reverse(ws);
      n, w := DoNullTest(rep, sv, vs, ws, base, s);
    case Arithmetic =>
      n, w := FinishArithmetic(rep, sv, op, vs, ws, base, s);
  }

  /** Opcodes on pairs have no defaults. */
  lemma PairClosing(op: Opcode, n: nat, ws: seq<Word>)
    requires OnPairs(op)
    ensures Closing(op, n) == GenOperator(op, n) && PrimStack(op, ws) == Reverse(ws)
  {
    assert Closing(op, n) == [] + GenOperator(op, n);
  }

  /** Without operands the default is the value. */
  lemma {:induction false} DefaultIsValue(rep: Rep, sv: set<Var>, op: Opcode, vs: seq<Val>, ws: seq<Word>, base: seq<Word>, s: State)
    requires ClassOf(op) == Arithmetic && ArityOk(op, |vs|) && DefaultFirst(op, |vs|) && |ws| == |vs|
    requires s.stack == base + PrimStack(op, ws)
    ensures Computes(rep, sv, s, base, |Closing(op, |vs|)|, PrimValue(op, vs), 0, DefaultWord(op), s.heap)
  {
    hide Step;
    assert Closing(op, |vs|) == [];
    assert s.stack == base + [DefaultWord(op)];
    GrowsRefl(rep, s.heap);
    assert s == After(s, s.stack, 0, s.heap);
  }

  lemma {:induction false} FinishArithmetic(rep: Rep, sv: set<Var>, op: Opcode, vs: seq<Val>, ws: seq<Word>, base: seq<Word>, s: State)
    returns (n: nat, w: Word)
    requires ClassOf(op) == Arithmetic && ArityOk(op, |vs|) && ValsRel(rep, s.heap, sv, vs, ws)
    requires s.self.Proc? && s.stack == base + PrimStack(op, ws)
    requires CodeAt(s.self.code, s.ip, Closing(op, |vs|))
    ensures Computes(rep, sv, s, base, |Closing(op, |vs|)|, PrimValue(op, vs), n, w, s.heap)
  {
    hide Step;
    hide CodeAt;
    hide Reverse;
    hide Run;
    hide PrimValue;
    hide ValRel;
    hide Prims.Computes;
    if DefaultFirst(op, |vs|) {
      n, w := 0, DefaultWord(op);
      DefaultIsValue(rep, sv, op, vs, ws, base, s);
    } else if DefaultLast(op, |vs|) {
      n, w := FinishNegate(rep, sv, op, vs, ws, base, s);
    } else {
      assert Closing(op, |vs|) == Repeat(Plain(OpOf(op)), |vs| - 1);
      RepeatLength(Plain(OpOf(op)), |vs| - 1);
      assert PrimStack(op, ws) == Reverse(ws);
      n, w := DoArithmetic(rep, sv, op, vs, ws, base, s);
      FoldPrim(op, vs);
    }
  }

  lemma NegateCode(op: Opcode)
    requires op == Minus
    ensures Closing(op, 1) == Push(Fix(0)) + Plain(SUB)
  {
    assert Repeat(Plain(SUB), 1) == Plain(SUB) + Repeat(Plain(SUB), 0) == Plain(SUB);
  }

  /** (- x) is 0 - x. */
  lemma FinishNegate(rep: Rep, sv: set<Var>, op: Opcode, vs: seq<Val>, ws: seq<Word>, base: seq<Word>, s: State)
    returns (n: nat, w: Word)
    requires op == Minus && |vs| == 1 && ValsRel(rep, s.heap, sv, vs, ws)
    requires s.self.Proc? && s.stack == base + PrimStack(op, ws)
    requires CodeAt(s.self.code, s.ip, Closing(op, 1))
    ensures Computes(rep, sv, s, base, |Closing(op, 1)|, PrimValue(op, vs), n, w, s.heap)
  {
    hide Step;
    hide Closing;
    NegateCode(op);
    CodeSplit(s.self.code, s.ip, Push(Fix(0)), Plain(SUB));
    assert ws == [ws[0]] && Reverse(ws) == [ws[0]];
    assert s.stack == base + [ws[0]];
    DoPush(s, Fix(0));
    var t := After(s, s.stack + [Fix(0)], 1 + WORD, s.heap);
    assert ValRel(rep, s.heap, sv, vs[0], ws[0]);
    DoArith(t, SUB, base, ws[0], Fix(0));
    ArithRel(rep, s.heap, sv, op, Imm(Num(0)), Fix(0), vs[0], ws[0]);
    Chain2(s, 1, t, 1);
    n := 2;
    GrowsRefl(rep, s.heap);
    w := match Arith(op, Imm(Num(0)), vs[0]) case Some(v) => Const(v.c) case None => Fix(0);
  }

  lemma {:induction false} RepeatLength(c: Code, n: nat)
    requires |c| == 1
    ensures |Repeat(c, n)| == n
    decreases n
  {
    if n > 0 {
      RepeatLength(c, n - 1);
    }
  }

  lemma FoldPrim(op: Opcode, vs: seq<Val>)
    requires ClassOf(op) == Arithmetic && ArityOk(op, |vs|) && |vs| >= 1 && !DefaultLast(op, |vs|)
    ensures PrimValue(op, vs) == FoldArith(op, vs[0], vs[1..])
  {
    if |vs| == 2 {
      var rest := vs[1..];
      assert rest[0] == vs[1] && rest[1..] == [];
      assert FoldArith(op, vs[0], rest) ==
             (match Arith(op, vs[0], rest[0]) case None => None case Some(r) => FoldArith(op, r, rest[1..]));
    }
  }

  lemma {:induction false} SimArgs(op: Opcode, args: seq<Expr>, lam: Lambda, sv: set<Var>, env: Env, st: Store, rep: Rep,
                                   s: State, fuel: nat)
    returns (q: Sim, ws: seq<Word>)
    requires (forall i :: 0 <= i < |args| ==> Wf(args[i], lam, sv)) && Ready(lam, sv, env, st, rep, s)
    requires s.self.Proc? && CodeAt(s.self.code, s.ip, GenArgs(op, args, lam, sv))
    ensures Operands(EvalArgs(op, args, env, st, fuel), sv, LeftFirst(op), fuel, |GenArgs(op, args, lam, sv)|, rep, s, q, ws)
    decreases fuel, 1, args, 1
  {
    hide Step;
    hide FrameRel;
    hide GenLeft;
    hide GenRight;
    if LeftFirst(op) {
      q, ws := SimLeft(args, lam, sv, env, st, rep, s, fuel);
    } else {
      q, ws := SimRight(args, lam, sv, env, st, rep, s, fuel);
    }
  }

  lemma {:induction false} SimPrim(op: Opcode, args: seq<Expr>, lam: Lambda, sv: set<Var>, env: Env, st: Store, rep: Rep,
                                   s: State, tail: bool, fuel: nat)
    returns (q: Sim)
    requires ArityOk(op, |args|) && (forall i :: 0 <= i < |args| ==> Wf(args[i], lam, sv))
    requires Ready(lam, sv, env, st, rep, s)
    requires s.self.Proc? && CodeAt(s.self.code, s.ip, Gen(Prim(op, args), lam, sv, tail))
    ensures Simulates(Eval(Prim(op, args), env, st, fuel), sv, tail, fuel, |Gen(Prim(op, args), lam, sv, tail)|, rep, s, q)
    decreases fuel, 1, Prim(op, args), 1
  {
    hide Step;
    hide FrameRel;
    hide Eval;
    hide EvalArgs;
    hide PrimValue;
    hide Gen;
    hide GenArgs;
    hide Opening;
    hide Closing;
    hide Wf;
    var k := |args|;
    EvalPrim(op, args, env, st, fuel);
    PrimCode(op, args, lam, sv, tail);
    EvalArgsLength(op, args, env, st, fuel);
    var c1, c2, c3 := Opening(op, k), GenArgs(op, args, lam, sv), Closing(op, k);
    CodeSplit3(s.self.code, s.ip, c1, c2, c3);
    var n0, s0 := OpenPrim(op, k, lam, sv, env, st, rep, s);
    var q1, ws := SimArgs(op, args, lam, sv, env, st, rep, s0, fuel);
    q := PrimAfter(op, EvalArgs(op, args, env, st, fuel), sv, tail, fuel, rep, s, n0, s0, |c1|, |c2|, q1, ws);
  }

  lemma OpenPrim(op: Opcode, k: nat, lam: Lambda, sv: set<Var>, env: Env, st: Store, rep: Rep, s: State)
    returns (n: nat, t: State)
    requires Ready(lam, sv, env, st, rep, s) && s.self.Proc? && CodeAt(s.self.code, s.ip, Opening(op, k))
    ensures Run(s, n) == Next(t) && Ready(lam, sv, env, st, rep, t)
    ensures t == After(s, s.stack + (if DefaultFirst(op, k) then [DefaultWord(op)] else []), |Opening(op, k)|, s.heap)
  {
    hide Step;
    hide FrameRel;
    n, t := DoOpening(op, k, s);
    assert t.stack[..|s.stack|] == s.stack;
    GrowsRefl(rep, s.heap);
    StillReady(lam, sv, env, st, rep, s, st, rep, t);
  }

  /** The operands are on the stack, under or over the default; run the operator. */
  lemma PrimAfter(op: Opcode, r: Result<seq<Val>>, sv: set<Var>, tail: bool, fuel: nat, rep: Rep, s: State,
                  n0: nat, s0: State, len1: nat, len2: nat, q1: Sim, ws: seq<Word>)
    returns (q: Sim)
    requires s.self.Proc? && Run(s, n0) == Next(s0)
    requires r.Ok? ==> ArityOk(op, |r.value|)
    requires r.Ok? ==> s0 == After(s, s.stack + (if DefaultFirst(op, |r.value|) then [DefaultWord(op)] else []), len1, s.heap)
    requires Operands(r, sv, LeftFirst(op), fuel, len2, rep, s0, q1, ws)
    requires r.Ok? ==> CodeAt(s.self.code, s.ip + len1 + len2, Closing(op, |r.value|))
    ensures Simulates(PrimResult(op, r), sv, tail, fuel, len1 + len2 + (if r.Ok? then |Closing(op, |r.value|)| else 0), rep, s, q)
  {
    hide Step;
    hide Closing;
    hide PrimValue;
    hide DefaultFirst;
    Chain2(s, n0, s0, q1.n);
    q := Sim(n0 + q1.n, q1.t, q1.rep, q1.w);
    if r.Ok? {
      q := SimOperator(op, r.value, r.st, sv, tail, fuel, rep, s, n0 + q1.n, q1, ws, len1 + len2);
    }
  }

  lemma EvalArgsLength(op: Opcode, args: seq<Expr>, env: Env, st: Store, fuel: nat)
    ensures EvalArgs(op, args, env, st, fuel).Ok? ==> |EvalArgs(op, args, env, st, fuel).value| == |args|
  {
  }

  lemma EvalPrim(op: Opcode, args: seq<Expr>, env: Env, st: Store, fuel: nat)
    requires ArityOk(op, |args|)
    ensures Eval(Prim(op, args), env, st, fuel) == PrimResult(op, EvalArgs(op, args, env, st, fuel))
  {
    hide PrimValue;
  }

  lemma DoOpening(op: Opcode, k: nat, s: State) returns (n: nat, t: State)
    requires s.self.Proc? && CodeAt(s.self.code, s.ip, Opening(op, k))
    ensures Run(s, n) == Next(t)
    ensures t == After(s, s.stack + (if DefaultFirst(op, k) then [DefaultWord(op)] else []), |Opening(op, k)|, s.heap)
  {
    hide Step;
    if DefaultFirst(op, k) {
      DoPush(s, DefaultWord(op));
      n, t := 1, After(s, s.stack + [DefaultWord(op)], 1 + WORD, s.heap);
    } else {
      n, t := 0, s;
      assert s.stack + [] == s.stack;
    }
  }

  lemma SimOperator(op: Opcode, vs: seq<Val>, st: Store, sv: set<Var>, tail: bool, fuel: nat, rep: Rep, s: State,
                    n: nat, at: Sim, ws: seq<Word>, len: nat)
    returns (q: Sim)
    requires ArityOk(op, |vs|) && s.self.Proc? && Run(s, n) == Next(at.t) && Held(sv, st, rep, s, at)
    requires ValsRel(at.rep, at.t.heap, sv, vs, ws)
    requires at.t == After(s, s.stack + (if DefaultFirst(op, |vs|) then [DefaultWord(op)] else []) + Pushed(op, ws),
                           len, at.t.heap)
    requires CodeAt(s.self.code, s.ip + len, Closing(op, |vs|))
    ensures Simulates(PrimResult(op, Ok(vs, st)), sv, tail, fuel, len + |Closing(op, |vs|)|, rep, s, q)
  {
    hide Step;
    hide Closing;
    hide PrimValue;
    hide PairStep;
    hide DefaultFirst;
    hide StoreRel;
    hide ValRel;
    hide Run;
    hide CodeAt;
    hide Grows;
    var t := at.t;
    assert t.stack == s.stack + PrimStack(op, ws);
    if OnPairs(op) {
      PairClosing(op, |vs|, ws);
      var m, w, heap, rep1 := DoPairs(at.rep, sv, op, vs, ws, st, s.stack, t);
      Chain2(s, n, t, m);
      q := Sim(n + m, After(t, s.stack + [w], |Closing(op, |vs|)|, heap), rep1, w);
      if PairStep(op, vs, st).Some? {
        GrowsTrans(rep, s.heap, at.rep, t.heap, rep1, heap);
      }
    } else {
      var m, w := FinishPrim(at.rep, sv, op, vs, ws, s.stack, t);
      Chain2(s, n, t, m);
      q := Sim(n + m, After(t, s.stack + [w], |Closing(op, |vs|)|, t.heap), at.rep, w);
    }
  }
}
