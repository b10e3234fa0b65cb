/**
  How machine states represent evaluator states.

  `Rep[loc]` says how the machine holds store location `loc`: an assigned
  variable lives in a box (a pair whose cdr is the current value), any other
  variable is its value, copied wherever it is needed, and the two locations of
  a pair are the car and the cdr of a pair of the machine.
*/
module Relation {
  import opened Options
  import opened Scheme
  import opened Bytecode
  import Codegen

  /** In the cdr of a pair, in the car of one, or nowhere but in copies. */
  datatype Loc = Boxed(addr: nat) | CarOf(addr: nat) | Direct(w: Word)

  type Rep = seq<Loc>

  /** The word a frame or closure slot holds for a location. */
  function SlotWord(r: Loc): Word {
    if r.Direct? then r.w else Pair(r.addr)
  }

  /** The pair at `a` holds a location of the store. */
  ghost predicate IsCell(rep: Rep, a: nat) {
    exists i :: 0 <= i < |rep| && InCell(rep[i], a)
  }

  predicate InCell(r: Loc, a: nat) { !r.Direct? && r.addr == a }

  /** Two locations in the same field of the same pair. */
  predicate SameField(r: Loc, r1: Loc) {
    !r.Direct? && !r1.Direct? && r.addr == r1.addr && (r.Boxed? <==> r1.Boxed?)
  }

  // -------------------------------------------------------- well-formedness

  predicate Distinct<T(==)>(s: seq<T>) {
    forall i, j :: 0 <= i < j < |s| ==> s[i] != s[j]
  }

  ghost predicate WfLambda(l: Lambda, sv: set<Var>)
    decreases l, 1
  {
    && Distinct(l.Names())
    && Distinct(l.sv)
    && (forall n :: n in l.sv ==> n in l.Names())
    && (forall n :: n in l.Names() ==> (n in l.sv <==> Var(n, l.id) in sv))
    && (forall x :: x in l.fv ==> x.lam != l.id)
    && Wf(l.body, l, sv)
  }

  /** A variable the code of `lam` can reach. */
  predicate InScope(x: Var, lam: Lambda) {
    if x.lam == lam.id then x.name in lam.Names() else x in lam.fv
  }

  /**
    What analysis and free-variable analysis establish: references are in scope
    of the lambda they occur in or among its captured variables, assigned
    variables are listed, opcode applications have an admissible number of operands.
  */
  ghost predicate Wf(e: Expr, lam: Lambda, sv: set<Var>)
    decreases e, 0
  {
    match e
    case Lit(_) => true
    case Ref(x) => InScope(x, lam)
    case Set(x, e1) => InScope(x, lam) && x in sv && Wf(e1, lam, sv)
    case Cnd(t, p, f) => Wf(t, lam, sv) && Wf(p, lam, sv) && Wf(f, lam, sv)
    case Seq(es) => |es| >= 1 && forall i :: 0 <= i < |es| ==> Wf(es[i], lam, sv)
    case Lam(l) => WfLambda(l, sv) && forall x :: x in l.fv ==> InScope(x, lam)
    case App(f, args) => Wf(f, lam, sv) && forall i :: 0 <= i < |args| ==> Wf(args[i], lam, sv)
    case Prim(op, args) => ArityOk(op, |args|) && forall i :: 0 <= i < |args| ==> Wf(args[i], lam, sv)
  }

  // -------------------------------------------------------------- relations

  /** The variable's location is held in word `w`, boxed exactly when assigned. */
  ghost predicate SlotRel(rep: Rep, sv: set<Var>, env: Env, x: Var, w: Word) {
    && x in env && env[x] < |rep|
    && w == SlotWord(rep[env[x]])
    && VarKind(rep[env[x]], x in sv)
  }

  /** Variables are boxed exactly when assigned. */
  predicate VarKind(r: Loc, boxed: bool) { if boxed then r.Boxed? else r.Direct? }

  ghost predicate VectorRel(rep: Rep, heap: Heap, sv: set<Var>, env: Env, fv: seq<Var>, vars: Word) {
    fv != [] ==>
      && vars.Vector? && vars.addr < |heap| && !IsCell(rep, vars.addr)
      && heap[vars.addr].VecObj? && |heap[vars.addr].elems| == |fv|
      && forall k :: 0 <= k < |fv| ==> SlotRel(rep, sv, env, fv[k], heap[vars.addr].elems[k])
  }

  ghost predicate ValRel(rep: Rep, heap: Heap, sv: set<Var>, v: Val, w: Word) {
    match v
    case Imm(c) => w == Const(c)
    case PairAt(i) =>
      i + 1 < |rep| && rep[i].CarOf? && rep[i + 1] == Boxed(rep[i].addr) && w == Pair(rep[i].addr)
    case Clo(l, env) =>
      && WfLambda(l, sv)
      && w.Proc? && w.nargs == |l.params| && w.variadic == l.rest.Some? && w.code == Codegen.GenBody(l, sv)
      && VectorRel(rep, heap, sv, env, l.fv, w.vars)
  }

  ghost predicate LocRel(rep: Rep, heap: Heap, sv: set<Var>, v: Val, r: Loc) {
    match r
    case Direct(w) => ValRel(rep, heap, sv, v, w)
    case Boxed(a) => a < |heap| && heap[a].PairObj? && ValRel(rep, heap, sv, v, heap[a].cdr)
    case CarOf(a) => a < |heap| && heap[a].PairObj? && ValRel(rep, heap, sv, v, heap[a].car)
  }

  /** Every location holds a related value, in a field of its own if it is in one. */
  ghost predicate StoreRel(rep: Rep, heap: Heap, sv: set<Var>, st: Store) {
    && |rep| == |st|
    && (forall i :: 0 <= i < |rep| ==> LocRel(rep, heap, sv, st[i], rep[i]))
    && FieldsApart(rep)
  }

  ghost predicate FieldsApart(rep: Rep) {
    forall i, j :: 0 <= i < j < |rep| ==> !SameField(rep[i], rep[j])
  }

  /** Nothing but boxes and pairs of the store changes, and new ones are new heap cells. */
  ghost predicate Grows(rep: Rep, heap: Heap, rep1: Rep, heap1: Heap) {
    && |rep| <= |rep1| && (forall i :: 0 <= i < |rep| ==> rep1[i] == rep[i])
    && |heap| <= |heap1|
    && (forall a :: 0 <= a < |heap| && !IsCell(rep, a) ==> heap1[a] == heap[a])
    && (forall i :: |rep| <= i < |rep1| && !rep1[i].Direct? ==> rep1[i].addr >= |heap|)
  }

  lemma GrowsCell(rep: Rep, heap: Heap, rep1: Rep, heap1: Heap, a: nat)
    requires Grows(rep, heap, rep1, heap1) && a < |heap|
    ensures IsCell(rep1, a) <==> IsCell(rep, a)
  {
    if IsCell(rep, a) {
      var i :| 0 <= i < |rep| && InCell(rep[i], a);
      assert InCell(rep1[i], a);
    }
  }

  lemma GrowsTrans(r0: Rep, h0: Heap, r1: Rep, h1: Heap, r2: Rep, h2: Heap)
    requires Grows(r0, h0, r1, h1) && Grows(r1, h1, r2, h2)
    ensures Grows(r0, h0, r2, h2)
  {
    forall a | 0 <= a < |h0| && !IsCell(r0, a) ensures h2[a] == h0[a] {
      GrowsCell(r0, h0, r1, h1, a);
    }
  }

  lemma GrowsVector(rep: Rep, heap: Heap, rep1: Rep, heap1: Heap, sv: set<Var>, env: Env, fv: seq<Var>, vars: Word)
    requires Grows(rep, heap, rep1, heap1) && VectorRel(rep, heap, sv, env, fv, vars)
    ensures VectorRel(rep1, heap1, sv, env, fv, vars)
  {
    if fv != [] {
      GrowsCell(rep, heap, rep1, heap1, vars.addr);
    }
  }

  /** Representations survive everything the machine does later. */
  lemma {:induction false} GrowsVal(rep: Rep, heap: Heap, rep1: Rep, heap1: Heap, sv: set<Var>, v: Val, w: Word)
    requires Grows(rep, heap, rep1, heap1) && ValRel(rep, heap, sv, v, w)
    ensures ValRel(rep1, heap1, sv, v, w)
  {
    if v.Clo? {
      GrowsVector(rep, heap, rep1, heap1, sv, v.env, v.l.fv, w.vars);
    }
  }

  /** Words for a list of values. */
  ghost predicate ValsRel(rep: Rep, heap: Heap, sv: set<Var>, vs: seq<Val>, ws: seq<Word>) {
    |vs| == |ws| && forall i :: 0 <= i < |vs| ==> ValRel(rep, heap, sv, vs[i], ws[i])
  }

  lemma GrowsVals(rep: Rep, heap: Heap, rep1: Rep, heap1: Heap, sv: set<Var>, vs: seq<Val>, ws: seq<Word>)
    requires Grows(rep, heap, rep1, heap1) && ValsRel(rep, heap, sv, vs, ws)
    ensures ValsRel(rep1, heap1, sv, vs, ws)
  {
    forall i | 0 <= i < |vs| ensures ValRel(rep1, heap1, sv, vs[i], ws[i]) {
      GrowsVal(rep, heap, rep1, heap1, sv, vs[i], ws[i]);
    }
  }

  /** The slot of the k-th bound name, counted as sexp_param_index counts. */
  function SlotPos(l: Lambda, fp: int, k: nat): int {
    if k < |l.Formals()| then fp - 1 - k else fp + 4 + (k - |l.Formals()|)
  }

  /** The running frame of `lam`: saved registers, bound variables, closure vector. */
  ghost predicate FrameRel(lam: Lambda, sv: set<Var>, env: Env, rep: Rep, s: State) {
    && s.self.Proc?
    && |lam.Formals()| <= s.fp
    && s.fp + 4 + |lam.locals| <= |s.stack|
    && s.stack[s.fp] == Fix(|lam.Formals()|)
    && (forall k :: 0 <= k < |lam.Names()| ==>
          SlotRel(rep, sv, env, Var(lam.Names()[k], lam.id), s.stack[SlotPos(lam, s.fp, k)]))
    && VectorRel(rep, s.heap, sv, env, lam.fv, s.self.vars)
  }

  /** The frame survives as long as the stack keeps its contents. */
  lemma GrowsFrame(lam: Lambda, sv: set<Var>, env: Env, rep: Rep, s: State, rep1: Rep, t: State)
    requires FrameRel(lam, sv, env, rep, s)
    requires Grows(rep, s.heap, rep1, t.heap)
    requires t.fp == s.fp && t.self == s.self && |t.stack| >= |s.stack| && t.stack[..|s.stack|] == s.stack
    ensures FrameRel(lam, sv, env, rep1, t)
  {
    assert forall i :: 0 <= i < |s.stack| ==> t.stack[i] == t.stack[..|s.stack|][i];
    forall k | 0 <= k < |lam.Names()|
      ensures SlotRel(rep1, sv, env, Var(lam.Names()[k], lam.id), t.stack[SlotPos(lam, t.fp, k)])
    {
      assert SlotRel(rep, sv, env, Var(lam.Names()[k], lam.id), s.stack[SlotPos(lam, s.fp, k)]);
    }
    GrowsVector(rep, s.heap, rep1, t.heap, sv, env, lam.fv, s.self.vars);
  }

  /** Names are found where SlotPos puts them. */
  lemma ParamIndexPos(l: Lambda, n: Name, fp: int) returns (k: nat)
    requires n in l.Names()
    ensures k < |l.Names()| && l.Names()[k] == n
    ensures fp - 1 - Codegen.ParamIndex(l, n) == SlotPos(l, fp, k)
  {
    if n in l.params {
      k := Codegen.IndexOf(l.params, n);
    } else if l.rest == Some(n) {
      k := |l.params|;
    } else {
      k := |l.Formals()| + Codegen.IndexOf(l.locals, n);
    }
  }
}
