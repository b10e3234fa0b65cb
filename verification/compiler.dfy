/**
  Compiler correctness.

  Running the code generated for an expression from a well-formed frame mirrors
  the evaluator's three outcomes: a value is left on the otherwise unchanged
  stack, an error raises, and as long as the evaluator has not finished neither
  has the machine.  In tail position the frame may instead have been replaced
  and the value handed to the caller.
*/
module Compiler {
  import opened Scheme
  import opened Bytecode
  import opened Codegen
  import opened Relation
  import opened Steps
  import opened Entry

  /** Witnesses of a simulation: how many steps, where they lead, how the store is then held. */
  datatype Sim = Sim(n: nat, t: State, rep: Rep, w: Word)

  /** The registers after the running procedure has returned `w` to its caller. */
  function Returned(s: State, w: Word, heap: Heap): State
    requires FrameOk(s)
  {
    State(s.stack[..s.fp - Int(s.stack[s.fp])] + [w],
          Int(s.stack[s.fp + 3]), Int(s.stack[s.fp + 1]), s.stack[s.fp + 2], heap)
  }

  /** The machine state `s` is about to run code of `lam` in environment `env` and store `st`. */
  ghost predicate Ready(lam: Lambda, sv: set<Var>, env: Env, st: Store, rep: Rep, s: State) {
    FrameRel(lam, sv, env, rep, s) && StoreRel(rep, s.heap, sv, st)
  }

  /** The store is held by `q` and nothing but boxes has changed since `s`. */
  ghost predicate Held(sv: set<Var>, st: Store, rep: Rep, s: State, q: Sim) {
    StoreRel(q.rep, q.t.heap, sv, st) && Grows(rep, s.heap, q.rep, q.t.heap)
  }

  ghost predicate Simulates(r: Result<Val>, sv: set<Var>, tail: bool, fuel: nat, len: nat, rep: Rep, s: State, q: Sim) {
    match r
    case Ok(v, st) =>
      && Run(s, q.n) == Next(q.t)
      && Held(sv, st, rep, s, q)
      && ValRel(q.rep, q.t.heap, sv, v, q.w)
      && (|| q.t == After(s, s.stack + [q.w], len, q.t.heap)
          || (tail && FrameOk(s) && q.t == Returned(s, q.w, q.t.heap)))
    case Err => Run(s, q.n) == Raised
    case Timeout => q.n >= fuel && Run(s, q.n) == Next(q.t)
  }

  /** For code run for its effect only. */
  ghost predicate Effects<T>(r: Result<T>, sv: set<Var>, fuel: nat, len: nat, rep: Rep, s: State, q: Sim) {
    match r
    case Ok(_, st) =>
      Run(s, q.n) == Next(q.t) && Held(sv, st, rep, s, q) && q.t == After(s, s.stack, len, q.t.heap)
    case Err => Run(s, q.n) == Raised
    case Timeout => q.n >= fuel && Run(s, q.n) == Next(q.t)
  }

  /** For operand lists: the words of the values, pushed in one order or the other. */
  ghost predicate Operands(r: Result<seq<Val>>, sv: set<Var>, left: bool, fuel: nat, len: nat, rep: Rep, s: State,
                           q: Sim, ws: seq<Word>) {
    match r
    case Ok(vs, st) =>
      && Run(s, q.n) == Next(q.t) && Held(sv, st, rep, s, q)
      && ValsRel(q.rep, q.t.heap, sv, vs, ws)
      && q.t == After(s, s.stack + (if left then ws else Reverse(ws)), len, q.t.heap)
    case Err => Run(s, q.n) == Raised
    case Timeout => q.n >= fuel && Run(s, q.n) == Next(q.t)
  }

  // --------------------------------------------------------- glue lemmas

  /** Adding cells to the heap keeps the store. */
  lemma StoreGrow(rep: Rep, heap: Heap, heap1: Heap, sv: set<Var>, st: Store)
    requires StoreRel(rep, heap, sv, st) && Grows(rep, heap, rep, heap1)
    requires |heap| <= |heap1| && heap1[..|heap|] == heap
    ensures StoreRel(rep, heap1, sv, st)
  {
    forall i | 0 <= i < |rep| ensures LocRel(rep, heap1, sv, st[i], rep[i]) {
      assert LocRel(rep, heap, sv, st[i], rep[i]);
      assert !rep[i].Direct? ==> heap1[rep[i].addr] == heap1[..|heap|][rep[i].addr];
      OldLocRel(rep, heap, rep, heap1, sv, st[i], rep[i]);
    }
  }

  /** After code that only pushed, the same frame is running. */
  lemma StillReady(lam: Lambda, sv: set<Var>, env: Env, st: Store, rep: Rep, s: State, st1: Store, rep1: Rep, t: State)
    requires Ready(lam, sv, env, st, rep, s)
    requires Grows(rep, s.heap, rep1, t.heap) && StoreRel(rep1, t.heap, sv, st1)
    requires t.fp == s.fp && t.self == s.self && |t.stack| >= |s.stack| && t.stack[..|s.stack|] == s.stack
    ensures Ready(lam, sv, env, st1, rep1, t)
  {
    GrowsFrame(lam, sv, env, rep, s, rep1, t);
  }

  /** The frame that a later state returns from is the same one. */
  lemma SameReturn(s: State, t: State, w: Word, heap: Heap)
    requires FrameOk(s) && t.fp == s.fp && |t.stack| >= |s.stack| && t.stack[..|s.stack|] == s.stack
    ensures FrameOk(t) && Returned(t, w, heap) == Returned(s, w, heap)
  {
    assert forall i :: 0 <= i < |s.stack| ==> t.stack[i] == t.stack[..|s.stack|][i];
    assert t.stack[..s.fp - Int(s.stack[s.fp])] == s.stack[..s.fp - Int(s.stack[s.fp])];
  }

  lemma ReadyFrame(lam: Lambda, sv: set<Var>, env: Env, st: Store, rep: Rep, s: State)
    requires Ready(lam, sv, env, st, rep, s)
    ensures FrameOk(s) && s.self.Proc? && |rep| == |st| && BoxesIn(rep, s.heap)
  {
    StoreBoxes(rep, s.heap, sv, st);
  }

  /** First run to `t` for effect or a pushed word, then go on as `q` does from `t`. */
  lemma Continue(r: Result<Val>, sv: set<Var>, tail: bool, fuel: nat, len: nat, rep: Rep, s: State,
                 n: nat, t: State, rep1: Rep, len1: nat, q: Sim) returns (q1: Sim)
    requires Run(s, n) == Next(t) && Grows(rep, s.heap, rep1, t.heap)
    requires Simulates(r, sv, tail, fuel, len1, rep1, t, q)
    requires FrameOk(s) && t == After(s, s.stack, len - len1, t.heap)
    ensures q1.n == n + q.n && q1.t == q.t && q1.w == q.w && q1.rep == q.rep
    ensures Simulates(r, sv, tail, fuel, len, rep, s, q1)
  {
    hide Step;
    Chain2(s, n, t, q.n);
    q1 := Sim(n + q.n, q.t, q.rep, q.w);
    if r.Ok? {
      GrowsTrans(rep, s.heap, rep1, t.heap, q.rep, q.t.heap);
      assert t.stack[..|s.stack|] == s.stack;
      SameReturn(s, t, q.w, q.t.heap);
    }
  }

  // ------------------------------------------------------------ assignment

  lemma StoreCode(x: Var, lam: Lambda, sv: set<Var>)
    requires x in sv
    ensures GenStore(x, lam, sv) == GenRef(x, lam, sv, false) + Plain(SET_CDR)
  {
  }

  /** The tail of an assignment: the new value is on the stack. */
  lemma FinishStore(x: Var, lam: Lambda, sv: set<Var>, env: Env, st: Store, rep: Rep, s: State, stack: seq<Word>,
                    v: Val, w: Word)
    returns (q: Sim)
    requires Ready(lam, sv, env, st, rep, s) && InScope(x, lam) && x in sv
    requires s.stack == stack + [w] && ValRel(rep, s.heap, sv, v, w)
    requires CodeAt(s.self.code, s.ip, GenStore(x, lam, sv))
    ensures x in env && env[x] < |st|
    ensures Run(s, q.n) == Next(q.t) && Held(sv, st[env[x] := v], rep, s, q)
    ensures q.t == After(s, stack, |GenStore(x, lam, sv)|, q.t.heap)
  {
    hide Step;
    hide GenRef;
    hide GenStore;
    hide FrameRel;
    hide CodeAt;
    StoreCode(x, lam, sv);
    ReadyFrame(lam, sv, env, st, rep, s);
    CodeSplit(s.self.code, s.ip, GenRef(x, lam, sv, false), Plain(SET_CDR));
    DoSlot(x, lam, sv, env, rep, s);
    var loc := env[x];
    StoreSet(rep, s.heap, sv, st, loc, v, w);
    var a := rep[loc].addr;
    var heap1 := s.heap[a := WithField(s.heap[a], false, w)];
    var s1 := After(s, s.stack + [Pair(a)], |GenRef(x, lam, sv, false)|, s.heap);
    DoSetField(s1, SET_CDR, stack, w, a);
    Chain2(s, 1, s1, 1);
    q := Sim(2, After(s1, stack, 1, heap1), rep, w);
  }

  // ------------------------------------------------------------ conditional

  lemma GenCnd(test: Expr, pass: Expr, fail: Expr, lam: Lambda, sv: set<Var>, tail: bool)
    ensures var t, p, f := Gen(test, lam, sv, false), Gen(pass, lam, sv, tail), Gen(fail, lam, sv, tail);
            Gen(Cnd(test, pass, fail), lam, sv, tail)
            == t + WithWord(JUMP_UNLESS, I(WORD + |p| + 1 + WORD)) + p + WithWord(JUMP, I(WORD + |f|)) + f
  {
    hide WithWord;
  }

  /** Code positions of a conditional. */
  lemma CndCode(code: Code, ip: int, test: Expr, pass: Expr, fail: Expr, lam: Lambda, sv: set<Var>, tail: bool)
    requires CodeAt(code, ip, Gen(Cnd(test, pass, fail), lam, sv, tail))
    ensures var t, p, f := Gen(test, lam, sv, false), Gen(pass, lam, sv, tail), Gen(fail, lam, sv, tail);
            && CodeAt(code, ip, t)
            && CodeAt(code, ip + |t|, WithWord(JUMP_UNLESS, I(WORD + |p| + 1 + WORD)))
            && CodeAt(code, ip + |t| + 1 + WORD, p)
            && CodeAt(code, ip + |t| + 1 + WORD + |p|, WithWord(JUMP, I(WORD + |f|)))
            && CodeAt(code, ip + |t| + 2 + 2 * WORD + |p|, f)
            && |Gen(Cnd(test, pass, fail), lam, sv, tail)| == |t| + 2 + 2 * WORD + |p| + |f|
  {
    hide Gen;
    hide WithWord;
    hide CodeAt;
    var t, p, f := Gen(test, lam, sv, false), Gen(pass, lam, sv, tail), Gen(fail, lam, sv, tail);
    var ju, j := WithWord(JUMP_UNLESS, I(WORD + |p| + 1 + WORD)), WithWord(JUMP, I(WORD + |f|));
    GenCnd(test, pass, fail, lam, sv, tail);
    CodeSplit(code, ip, t + ju + p + j, f);
    CodeSplit4(code, ip, t, ju, p, j);
  }

  lemma FalseRel(rep: Rep, heap: Heap, sv: set<Var>, v: Val, w: Word)
    requires ValRel(rep, heap, sv, v, w)
    ensures IsFalse(w) <==> !Truthy(v)
  {
  }

  /** The branch is done; the consequent still has to jump over the alternative. */
  lemma FinishPass(r: Result<Val>, sv: set<Var>, tail: bool, fuel: nat, len: nat, skip: nat, rep: Rep, s: State, q: Sim)
    returns (q1: Sim)
    requires Simulates(r, sv, tail, fuel, len, rep, s, q) && s.self.Proc?
    requires CodeAt(s.self.code, s.ip + len, WithWord(JUMP, I(WORD + skip)))
    ensures Simulates(r, sv, tail, fuel, len + 1 + WORD + skip, rep, s, q1)
  {
    hide Step;
    q1 := q;
    if r.Ok? && q.t == After(s, s.stack + [q.w], len, q.t.heap) {
      DoJump(q.t, WORD + skip);
      Chain2(s, q.n, q.t, 1);
      q1 := Sim(q.n + 1, After(q.t, q.t.stack, 1 + WORD + skip, q.t.heap), q.rep, q.w);
    }
  }

  // ----------------------------------------------------------------- return

  /** The last instruction of a procedure. */
  lemma FinishBody(r: Result<Val>, sv: set<Var>, fuel: nat, len: nat, rep: Rep, s: State, q: Sim)
    returns (q1: Sim)
    requires Simulates(r, sv, true, fuel, len, rep, s, q) && s.self.Proc? && FrameOk(s)
    requires CodeAt(s.self.code, s.ip + len, Plain(RET))
    ensures r.Ok? ==>
              && Run(s, q1.n) == Next(q1.t) && Held(sv, r.st, rep, s, q1)
              && ValRel(q1.rep, q1.t.heap, sv, r.value, q1.w)
              && q1.t == Returned(s, q1.w, q1.t.heap)
    ensures r.Err? ==> Run(s, q1.n) == Raised
    ensures r.Timeout? ==> q1.n >= fuel && Run(s, q1.n) == Next(q1.t)
  {
    hide Step;
    q1 := q;
    if r.Ok? && q.t == After(s, s.stack + [q.w], len, q.t.heap) {
      assert q.t.stack[..|s.stack|] == s.stack;
      SameReturn(s, q.t, q.w, q.t.heap);
      DoReturn(q.t);
      Chain2(s, q.n, q.t, 1);
      q1 := Sim(q.n + 1, Returned(s, q.w, q.t.heap), q.rep, q.w);
    }
  }

  // ------------------------------------------------------------ application

  /** What a call achieves, from the moment of the call instruction's effect `o`. */
  ghost predicate Applied(r: Result<Val>, sv: set<Var>, fuel: nat, rep: Rep, heap: Heap, o: Outcome,
                          base: seq<Word>, retIp: int, retSelf: Word, retFp: int, q: Sim) {
    match r
    case Ok(v, st) =>
      && o.Next? && Run(o.s, q.n) == Next(q.t)
      && StoreRel(q.rep, q.t.heap, sv, st) && Grows(rep, heap, q.rep, q.t.heap)
      && ValRel(q.rep, q.t.heap, sv, v, q.w)
      && q.t == State(base + [q.w], retFp, retIp, retSelf, q.t.heap)
    case Err => o == Raised || (o.Next? && Run(o.s, q.n) == Raised)
    case Timeout => o.Next? && q.n + 1 >= fuel && Run(o.s, q.n) == Next(q.t)
  }

  /** Code positions of a procedure body. */
  lemma BodyCode(l: Lambda, sv: set<Var>)
    ensures var c := GenBody(l, sv);
            var a, b, e := GenReserve(|l.locals|), GenBoxes(l.sv, l), Gen(l.body, l, sv, true);
            && CodeAt(c, 0, a) && CodeAt(c, |a|, b) && CodeAt(c, |a| + |b|, e)
            && CodeAt(c, |a| + |b| + |e|, Plain(RET))
  {
    var a, b, e := GenReserve(|l.locals|), GenBoxes(l.sv, l), Gen(l.body, l, sv, true);
    var c := GenBody(l, sv);
    assert c == a + b + e + Plain(RET);
    hide Gen;
    hide GenBody;
    hide GenReserve;
    hide GenBoxes;
    assert c[0 .. 0 + |c|] == c;
    CodeSplit4(c, 0, a, b, e, Plain(RET));
  }

  /** The slots of a new frame hold the actuals once room for internal definitions is made. */
  lemma EnteredSlots(l: Lambda, sv: set<Var>, rep: Rep, vs: seq<Val>, st: Store, formals: seq<Word>, base: seq<Word>,
                     retIp: int, retSelf: Word, retFp: int, s: State, s1: State)
    requires Takes(l, |vs|) && Entered(base, formals, retIp, retSelf, retFp, s) && |formals| == |l.Formals()|
    requires ValsRel(rep, s.heap, sv, FormalVals(l, vs, st), formals)
    requires s1.stack == s.stack + seq(|l.locals|, _ => Const(Undef)) && s1.fp == s.fp && s1.heap == s.heap
    ensures Roomy(l, s1) && s1.stack[s1.fp] == Fix(|l.Formals()|)
    ensures forall k :: 0 <= k < |l.Names()| ==>
              0 <= SlotPos(l, s1.fp, k) < |s1.stack|
              && ValRel(rep, s1.heap, sv, Actuals(l, vs, st)[k], s1.stack[SlotPos(l, s1.fp, k)])
  {
    var vals := Actuals(l, vs, st);
    var undefs := seq(|l.locals|, _ => Imm(Undef));
    assert vals == FormalVals(l, vs, st) + undefs;
    var rf := Reverse(formals);
    assert forall i :: 0 <= i < |rf| ==> s1.stack[|base| + i] == rf[i];
    forall k | 0 <= k < |l.Names()|
      ensures 0 <= SlotPos(l, s1.fp, k) < |s1.stack|
      ensures ValRel(rep, s1.heap, sv, vals[k], s1.stack[SlotPos(l, s1.fp, k)])
    {
      if k < |l.Formals()| {
        assert s1.stack[|base| + (|formals| - 1 - k)] == rf[|formals| - 1 - k] == formals[k];
        assert ValRel(rep, s.heap, sv, FormalVals(l, vs, st)[k], formals[k]);
      } else {
        assert vals[k] == undefs[k - |l.Formals()|] == Imm(Undef);
        assert s1.stack[SlotPos(l, s1.fp, k)] == Const(Undef);
      }
    }
  }

  /** Boxing leaves the saved registers and everything below the frame alone. */
  lemma EnteredReturn(l: Lambda, formals: seq<Word>, base: seq<Word>,
                      retIp: int, retSelf: Word, retFp: int, s: State, s1: State, t: State)
    requires Entered(base, formals, retIp, retSelf, retFp, s) && |formals| == |l.Formals()|
    requires s1.stack == s.stack + seq(|l.locals|, _ => Const(Undef)) && s1.fp == s.fp
    requires BoxedFrom(l, l.sv, s1, t)
    ensures FrameOk(t)
    ensures forall w, heap :: Returned(t, w, heap) == State(base + [w], retFp, retIp, retSelf, heap)
  {
    assert forall p :: s.fp <= p < s.fp + 4 ==> t.stack[p] == s1.stack[p] == s.stack[p];
    assert t.stack[..|base|] == base by {
      forall p | 0 <= p < |base| ensures t.stack[p] == base[p] {
        assert t.stack[p] == s1.stack[p];
      }
    }
  }

  /** Entering a procedure up to its body: afterwards its frame is ready. */
  lemma {:induction false} Enter(rep: Rep, heap: Heap, sv: set<Var>, st: Store, l: Lambda, env: Env, vs: seq<Val>, args: seq<Word>,
              base: seq<Word>, proc: Word, retIp: int, retSelf: Word, retFp: int)
    returns (n: nat, s: State, t: State, rep1: Rep)
    requires StoreRel(rep, heap, sv, st) && Takes(l, |vs|)
    requires ValRel(rep, heap, sv, Clo(l, env), proc) && ValsRel(rep, heap, sv, vs, args)
    ensures EnterCall(base, args, proc, retIp, retSelf, retFp, heap) == Next(s) && Run(s, n) == Next(t)
    ensures var st1 := RestStore(l, vs, st);
            Ready(l, sv, Extend(env, l.Names(), l.id, |st1|), st1 + Actuals(l, vs, st), rep1, t)
    ensures Grows(rep, heap, rep1, t.heap)
    ensures t.self == proc && t.ip == |GenReserve(|l.locals|)| + |GenBoxes(l.sv, l)|
    ensures FrameOk(t) && forall w, h :: Returned(t, w, h) == State(base + [w], retFp, retIp, retSelf, h)
  {
    hide Step;
    hide Run;
    hide EnterCall;
    hide GenReserve;
    hide GenBoxes;
    hide Gen;
    hide BoxesIn;
    hide Grows;
    var formals, rep0;
    s, formals, rep0 := EnterRel(rep, heap, sv, st, l, env, vs, args, base, proc, retIp, retSelf, retFp);
    BodyCode(l, sv);
    DoReserve(s, |l.locals|);
    var s1 := After(s, s.stack + seq(|l.locals|, _ => Const(Undef)), |GenReserve(|l.locals|)|, s.heap);
    EnteredSlots(l, sv, rep0, vs, st, formals, base, retIp, retSelf, retFp, s, s1);
    var m;
    m, t := DoBoxes(s1, l, l.sv);
    n := |l.locals| + m;
    Chain2(s, |l.locals|, s1, m);
    GrowsVector(rep, heap, rep0, s.heap, sv, env, l.fv, proc.vars);
    rep1 := ActivationRel(rep0, sv, RestStore(l, vs, st), l, env, Actuals(l, vs, st), s1, t);
    GrowsTrans(rep, heap, rep0, s.heap, rep1, t.heap);
    EnteredReturn(l, formals, base, retIp, retSelf, retFp, s, s1, t);
  }
}
