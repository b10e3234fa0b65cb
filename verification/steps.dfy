/**
  What single instructions and short fixed sequences of the generated code do.
*/
module Steps {
  import opened Options
  import opened Scheme
  import opened Bytecode
  import opened Codegen
  import opened Relation

  predicate CodeAt(code: Code, ip: int, c: Code) {
    0 <= ip && ip + |c| <= |code| && code[ip .. ip + |c|] == c
  }

  /** The registers after a straight-line piece of code of length `len`. */
  function After(s: State, stack: seq<Word>, len: int, heap: Heap): State {
    State(stack, s.fp, s.ip + len, s.self, heap)
  }

  lemma CodeSplit(code: Code, ip: int, a: Code, b: Code)
    requires CodeAt(code, ip, a + b)
    ensures CodeAt(code, ip, a) && CodeAt(code, ip + |a|, b)
  {
    assert (a + b)[..|a|] == a && (a + b)[|a|..] == b;
    assert code[ip .. ip + |a|] == code[ip .. ip + |a + b|][..|a|];
    assert code[ip + |a| .. ip + |a| + |b|] == code[ip .. ip + |a + b|][|a|..];
  }

  lemma CodeSplit3(code: Code, ip: int, a: Code, b: Code, c: Code)
    requires CodeAt(code, ip, a + b + c)
    ensures CodeAt(code, ip, a) && CodeAt(code, ip + |a|, b) && CodeAt(code, ip + |a| + |b|, c)
  {
    CodeSplit(code, ip, a + b, c);
    CodeSplit(code, ip, a, b);
  }

  lemma CodeSplit4(code: Code, ip: int, a: Code, b: Code, c: Code, d: Code)
    requires CodeAt(code, ip, a + b + c + d)
    ensures CodeAt(code, ip, a) && CodeAt(code, ip + |a|, b)
    ensures CodeAt(code, ip + |a| + |b|, c) && CodeAt(code, ip + |a| + |b| + |c|, d)
  {
    CodeSplit(code, ip, a + b + c, d);
    CodeSplit3(code, ip, a, b, c);
  }

  lemma CodeCell(code: Code, ip: int, c: Code, i: nat)
    requires CodeAt(code, ip, c) && i < |c|
    ensures code[ip + i] == c[i]
  {
    assert code[ip + i] == code[ip .. ip + |c|][i];
  }

  lemma FetchPlain(s: State, op: Op)
    requires s.self.Proc? && CodeAt(s.self.code, s.ip, Plain(op))
    ensures 0 <= s.ip < |s.self.code| && s.self.code[s.ip] == OpC(op)
  {
    CodeCell(s.self.code, s.ip, Plain(op), 0);
  }

  lemma FetchWord(s: State, op: Op, w: Operand)
    requires s.self.Proc? && CodeAt(s.self.code, s.ip, WithWord(op, w))
    ensures 0 <= s.ip < |s.self.code| && s.self.code[s.ip] == OpC(op) && Operand0(s) == Some(w)
  {
    CodeCell(s.self.code, s.ip, WithWord(op, w), 0);
    CodeCell(s.self.code, s.ip, WithWord(op, w), 1);
  }

  lemma Chain2(s: State, a: nat, t: State, b: nat)
    requires Run(s, a) == Next(t)
    ensures Run(s, a + b) == Run(t, b)
  {
    RunCompose(s, a, b);
  }

  lemma Run1(s: State)
    ensures Run(s, 1) == Step(s)
  {
    assert Run(s, 1) == (match Step(s) case Next(t) => Run(t, 0) case o => o);
  }

  lemma DoPush(s: State, w: Word)
    requires s.self.Proc? && CodeAt(s.self.code, s.ip, Push(w))
    ensures Run(s, 1) == Next(After(s, s.stack + [w], 1 + WORD, s.heap))
  {
    FetchWord(s, PUSH, V(w));
    Run1(s);
  }

  lemma DoDrop(s: State, stack: seq<Word>, w: Word)
    requires s.self.Proc? && CodeAt(s.self.code, s.ip, Plain(DROP)) && s.stack == stack + [w]
    ensures Run(s, 1) == Next(After(s, stack, 1, s.heap))
  {
    FetchPlain(s, DROP);
    Run1(s);
    assert s.stack[..|s.stack| - 1] == stack;
  }

  lemma DoStackRef(s: State, i: int)
    requires s.self.Proc? && CodeAt(s.self.code, s.ip, WithWord(STACK_REF, I(i))) && 1 <= i <= |s.stack|
    ensures Run(s, 1) == Next(After(s, s.stack + [s.stack[|s.stack| - i]], 1 + WORD, s.heap))
  {
    FetchWord(s, STACK_REF, I(i));
    Run1(s);
  }

  lemma DoLocalRef(s: State, i: int)
    requires s.self.Proc? && CodeAt(s.self.code, s.ip, WithWord(LOCAL_REF, I(i)))
    requires 0 <= s.fp - 1 - i < |s.stack|
    ensures Run(s, 1) == Next(After(s, s.stack + [s.stack[s.fp - 1 - i]], 1 + WORD, s.heap))
  {
    FetchWord(s, LOCAL_REF, I(i));
    Run1(s);
  }

  lemma DoLocalSet(s: State, i: int, stack: seq<Word>, w: Word)
    requires s.self.Proc? && CodeAt(s.self.code, s.ip, WithWord(LOCAL_SET, I(i)))
    requires s.stack == stack + [w] && 0 <= s.fp - 1 - i < |stack|
    ensures Run(s, 1) == Next(After(s, stack[s.fp - 1 - i := w], 1 + WORD, s.heap))
  {
    FetchWord(s, LOCAL_SET, I(i));
    Run1(s);
    assert s.stack[..|s.stack| - 1] == stack;
  }

  lemma DoClosureRef(s: State, i: nat)
    requires s.self.Proc? && CodeAt(s.self.code, s.ip, WithWord(CLOSURE_REF, I(i)))
    requires s.self.vars.Vector? && s.self.vars.addr < |s.heap| && s.heap[s.self.vars.addr].VecObj?
    requires i < |s.heap[s.self.vars.addr].elems|
    ensures Run(s, 1) == Next(After(s, s.stack + [s.heap[s.self.vars.addr].elems[i]], 1 + WORD, s.heap))
  {
    FetchWord(s, CLOSURE_REF, I(i));
    Run1(s);
  }

  lemma DoJump(s: State, off: int)
    requires s.self.Proc? && CodeAt(s.self.code, s.ip, WithWord(JUMP, I(off)))
    ensures Run(s, 1) == Next(After(s, s.stack, 1 + off, s.heap))
  {
    FetchWord(s, JUMP, I(off));
    Run1(s);
  }

  lemma DoJumpUnless(s: State, off: int, stack: seq<Word>, w: Word)
    requires s.self.Proc? && CodeAt(s.self.code, s.ip, WithWord(JUMP_UNLESS, I(off))) && s.stack == stack + [w]
    ensures Run(s, 1) == Next(After(s, stack, if IsFalse(w) then 1 + off else 1 + WORD, s.heap))
  {
    FetchWord(s, JUMP_UNLESS, I(off));
    Run1(s);
    assert s.stack[..|s.stack| - 1] == stack;
  }

  /** CONS takes the car from the top: [..., cdr, car]. */
  lemma DoCons(s: State, stack: seq<Word>, d: Word, a: Word)
    requires s.self.Proc? && CodeAt(s.self.code, s.ip, Plain(CONS)) && s.stack == stack + [d] + [a]
    ensures Run(s, 1) == Next(After(s, stack + [Pair(|s.heap|)], 1, s.heap + [PairObj(a, d)]))
  {
    FetchPlain(s, CONS);
    Run1(s);
    assert s.stack[..|s.stack| - 2] == stack;
  }

  lemma DoField(s: State, op: Op, stack: seq<Word>, a: nat)
    requires op.CAR? || op.CDR?
    requires s.self.Proc? && CodeAt(s.self.code, s.ip, Plain(op)) && s.stack == stack + [Pair(a)]
    requires a < |s.heap| && s.heap[a].PairObj?
    ensures Run(s, 1) == Next(After(s, stack + [if op.CAR? then s.heap[a].car else s.heap[a].cdr], 1, s.heap))
  {
    FetchPlain(s, op);
    Run1(s);
    assert s.stack[..|s.stack| - 1] == stack;
  }

  lemma DoFieldRaises(s: State, op: Op)
    requires op.CAR? || op.CDR? || op.SET_CAR? || op.SET_CDR?
    requires s.self.Proc? && CodeAt(s.self.code, s.ip, Plain(op))
    requires |s.stack| >= (if op.CAR? || op.CDR? then 1 else 2) && !s.stack[|s.stack| - 1].Pair?
    ensures Run(s, 1) == Raised
  {
    FetchPlain(s, op);
    Run1(s);
  }

  function WithField(o: Obj, car: bool, w: Word): Obj
    requires o.PairObj?
  {
    if car then PairObj(w, o.cdr) else PairObj(o.car, w)
  }

  lemma DoSetField(s: State, op: Op, stack: seq<Word>, w: Word, a: nat)
    requires op.SET_CAR? || op.SET_CDR?
    requires s.self.Proc? && CodeAt(s.self.code, s.ip, Plain(op)) && s.stack == stack + [w] + [Pair(a)]
    requires a < |s.heap| && s.heap[a].PairObj?
    ensures Run(s, 1) == Next(After(s, stack, 1, s.heap[a := WithField(s.heap[a], op.SET_CAR?, w)]))
  {
    FetchPlain(s, op);
    Run1(s);
    assert s.stack[..|s.stack| - 2] == stack;
  }

  lemma DoNullP(s: State, stack: seq<Word>, w: Word)
    requires s.self.Proc? && CodeAt(s.self.code, s.ip, Plain(NULLP)) && s.stack == stack + [w]
    ensures Run(s, 1) == Next(After(s, stack + [Const(Bool(w == Const(Null)))], 1, s.heap))
  {
    FetchPlain(s, NULLP);
    Run1(s);
    assert s.stack[..|s.stack| - 1] == stack;
  }

  lemma DoArith(s: State, op: Op, stack: seq<Word>, b: Word, a: Word)
    requires IsArith(op) && s.self.Proc? && CodeAt(s.self.code, s.ip, Plain(op))
    requires s.stack == stack + [b] + [a]
    ensures ArithWord(op, a, b).Some? ==>
              Run(s, 1) == Next(After(s, stack + [ArithWord(op, a, b).value], 1, s.heap))
    ensures ArithWord(op, a, b).None? ==> Run(s, 1) == Raised
  {
    FetchPlain(s, op);
    Run1(s);
    assert s.stack[..|s.stack| - 2] == stack;
  }

  lemma DoAnd(s: State, stack: seq<Word>, b: Word, a: Word)
    requires s.self.Proc? && CodeAt(s.self.code, s.ip, Plain(AND)) && s.stack == stack + [b] + [a]
    ensures Run(s, 1) == Next(After(s, stack + [Const(Bool(!IsFalse(a) && !IsFalse(b)))], 1, s.heap))
  {
    FetchPlain(s, AND);
    Run1(s);
    assert s.stack[..|s.stack| - 2] == stack;
  }

  lemma DoMakeVector(s: State, stack: seq<Word>, n: nat, w: Word)
    requires n > 0 && s.self.Proc? && CodeAt(s.self.code, s.ip, Plain(MAKE_VECTOR))
    requires s.stack == stack + [w] + [Fix(n)]
    ensures Run(s, 1) == Next(After(s, stack + [Vector(|s.heap|)], 1, s.heap + [VecObj(seq(n, _ => w))]))
  {
    FetchPlain(s, MAKE_VECTOR);
    Run1(s);
    assert s.stack[..|s.stack| - 2] == stack;
  }

  lemma DoVectorSet(s: State, stack: seq<Word>, w: Word, k: nat, a: nat)
    requires s.self.Proc? && CodeAt(s.self.code, s.ip, Plain(VECTOR_SET))
    requires s.stack == stack + [w] + [Fix(k)] + [Vector(a)]
    requires a < |s.heap| && s.heap[a].VecObj? && k < |s.heap[a].elems|
    ensures Run(s, 1) == Next(After(s, stack, 1, s.heap[a := VecObj(s.heap[a].elems[k := w])]))
  {
    FetchPlain(s, VECTOR_SET);
    Run1(s);
    assert s.stack[..|s.stack| - 3] == stack;
  }

  function ProcedureCode(l: Lambda, sv: set<Var>): Code {
    [OpC(MAKE_PROCEDURE), WordC(I(if l.rest.Some? then 1 else 0))] + Pads
    + [WordC(I(|l.params|))] + Pads + [WordC(B(GenBody(l, sv)))] + Pads
  }

  lemma ProcedureCells(l: Lambda, sv: set<Var>)
    ensures |ProcedureCode(l, sv)| == 1 + 3 * WORD
    ensures ProcedureCode(l, sv)[0] == OpC(MAKE_PROCEDURE)
    ensures ProcedureCode(l, sv)[1] == WordC(I(if l.rest.Some? then 1 else 0))
    ensures ProcedureCode(l, sv)[1 + WORD] == WordC(I(|l.params|))
    ensures ProcedureCode(l, sv)[1 + 2 * WORD] == WordC(B(GenBody(l, sv)))
  {
    hide GenBody;
  }

  lemma {:induction false} DoMakeProcedure(s: State, stack: seq<Word>, w: Word, l: Lambda, sv: set<Var>)
    requires s.self.Proc? && s.stack == stack + [w]
    requires CodeAt(s.self.code, s.ip, ProcedureCode(l, sv))
    ensures Run(s, 1) ==
            Next(After(s, stack + [Proc(|l.params|, l.rest.Some?, GenBody(l, sv), w)], |ProcedureCode(l, sv)|, s.heap))
  {
    hide GenBody;
    hide ProcedureCode;
    var c := ProcedureCode(l, sv);
    ProcedureCells(l, sv);
    CodeCell(s.self.code, s.ip, c, 0);
    CodeCell(s.self.code, s.ip, c, 1);
    CodeCell(s.self.code, s.ip, c, 1 + WORD);
    CodeCell(s.self.code, s.ip, c, 1 + 2 * WORD);
    Run1(s);
    assert s.stack[..|s.stack| - 1] == stack;
  }

  lemma DoReturn(s: State)
    requires s.self.Proc? && CodeAt(s.self.code, s.ip, Plain(RET)) && FrameOk(s)
    ensures Run(s, 1) == StepReturn(s)
  {
    FetchPlain(s, RET);
    Run1(s);
  }

  // ------------------------------------------------------ variable access

  lemma ScopePos(x: Var, lam: Lambda, sv: set<Var>, env: Env, rep: Rep, s: State)
    requires FrameRel(lam, sv, env, rep, s) && InScope(x, lam)
    ensures x in env && env[x] < |rep|
    ensures VarKind(rep[env[x]], x in sv)
    ensures x.lam == lam.id ==>
              0 <= s.fp - 1 - ParamIndex(lam, x.name) < |s.stack|
              && s.stack[s.fp - 1 - ParamIndex(lam, x.name)] == SlotWord(rep[env[x]])
    ensures x.lam != lam.id ==>
              && s.self.vars.Vector? && s.self.vars.addr < |s.heap| && s.heap[s.self.vars.addr].VecObj?
              && FvIndex(lam.fv, x) < |s.heap[s.self.vars.addr].elems|
              && s.heap[s.self.vars.addr].elems[FvIndex(lam.fv, x)] == SlotWord(rep[env[x]])
  {
    if x.lam == lam.id {
      var k := ParamIndexPos(lam, x.name, s.fp);
      assert SlotRel(rep, sv, env, Var(lam.Names()[k], lam.id), s.stack[SlotPos(lam, s.fp, k)]);
    } else {
      var k := FvIndex(lam.fv, x);
      assert SlotRel(rep, sv, env, lam.fv[k], s.heap[s.self.vars.addr].elems[k]);
    }
  }

  lemma AppendNil(c: Code)
    ensures c + [] == c
  {
  }

  /** The slot access in GenRef, without the unboxing. */
  lemma SlotCode(x: Var, lam: Lambda, sv: set<Var>)
    ensures x.lam == lam.id ==> GenRef(x, lam, sv, false) == WithWord(LOCAL_REF, I(ParamIndex(lam, x.name)))
    ensures x.lam != lam.id ==> GenRef(x, lam, sv, false) == WithWord(CLOSURE_REF, I(FvIndex(lam.fv, x)))
    ensures |GenRef(x, lam, sv, false)| == 1 + WORD
  {
    AppendNil(WithWord(LOCAL_REF, I(ParamIndex(lam, x.name))));
    AppendNil(WithWord(CLOSURE_REF, I(FvIndex(lam.fv, x))));
  }

  /** Fetching a variable without unboxing pushes its slot. */
  lemma {:induction false} DoSlot(x: Var, lam: Lambda, sv: set<Var>, env: Env, rep: Rep, s: State)
    requires FrameRel(lam, sv, env, rep, s) && InScope(x, lam)
    requires CodeAt(s.self.code, s.ip, GenRef(x, lam, sv, false))
    ensures x in env && env[x] < |rep| && VarKind(rep[env[x]], x in sv)
    ensures Run(s, 1) ==
            Next(After(s, s.stack + [SlotWord(rep[env[x]])], |GenRef(x, lam, sv, false)|, s.heap))
  {
    ScopePos(x, lam, sv, env, rep, s);
    SlotCode(x, lam, sv);
    if x.lam == lam.id {
      DoLocalRef(s, ParamIndex(lam, x.name));
    } else {
      DoClosureRef(s, FvIndex(lam.fv, x));
    }
  }

  /** Fetching a variable pushes a word for its current value. */
  lemma DoRef(x: Var, lam: Lambda, sv: set<Var>, env: Env, st: Store, rep: Rep, s: State) returns (n: nat, w: Word)
    requires FrameRel(lam, sv, env, rep, s) && InScope(x, lam) && StoreRel(rep, s.heap, sv, st)
    requires CodeAt(s.self.code, s.ip, GenRef(x, lam, sv, true))
    ensures x in env && env[x] < |st| && ValRel(rep, s.heap, sv, st[env[x]], w)
    ensures Run(s, n) == Next(After(s, s.stack + [w], |GenRef(x, lam, sv, true)|, s.heap))
  {
    hide Step;
    var c := GenRef(x, lam, sv, false);
    var d: Code := if x in sv then Plain(CDR) else [];
    assert GenRef(x, lam, sv, true) == c + d;
    CodeSplit(s.self.code, s.ip, c, d);
    DoSlot(x, lam, sv, env, rep, s);
    var t := After(s, s.stack + [SlotWord(rep[env[x]])], |c|, s.heap);
    n, w := 1, SlotWord(rep[env[x]]);
    if x in sv {
      var a := rep[env[x]].addr;
      DoField(t, CDR, s.stack, a);
      Chain2(s, 1, t, 1);
      n, w := 2, s.heap[a].cdr;
    }
  }
}
