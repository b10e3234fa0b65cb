/**
  The bytecode and the virtual machine.

  Code is a buffer of cells: an opcode takes one cell and an operand word takes
  `WORD` cells, so positions, jump offsets and return addresses are the byte
  positions of the original.  Pairs and vectors live in a heap; everything a
  procedure call saves lives on the one stack, relative to the frame pointer.
*/
module Bytecode {
  import opened Options
  import opened Scheme

  const WORD := 8

  datatype Op =
    | PUSH | DROP | STACK_REF | LOCAL_REF | LOCAL_SET | CLOSURE_REF
    | JUMP | JUMP_UNLESS | CALL | TAIL_CALL | RET | DONE | CALLCC | RESUMECC
    | CONS | CAR | CDR | SET_CAR | SET_CDR | NULLP
    | MAKE_VECTOR | VECTOR_SET | MAKE_PROCEDURE
    | ADD | SUB | MUL | QUOTIENT | REMAINDER | LT | LE | EQN | AND

  /** An operand is a value, a number (index, count or jump offset), or a code object. */
  datatype Operand = V(v: Word) | I(i: int) | B(code: Code)

  /** `Pad` fills the cells of a word after its first one. */
  datatype Cell = OpC(op: Op) | WordC(w: Operand) | Pad

  type Code = seq<Cell>

  /** What a stack slot, a heap field or an operand word can hold. */
  datatype Word =
    | Const(c: Const)
    | Pair(addr: nat)
    | Vector(addr: nat)
    | EmptyVector
    | Proc(nargs: nat, variadic: bool, code: Code, vars: Word)

  datatype Obj = PairObj(car: Word, cdr: Word) | VecObj(elems: seq<Word>)

  type Heap = seq<Obj>

  function Fix(n: int): Word { Const(Num(n)) }

  function Int(w: Word): int {
    if w.Const? && w.c.Num? then w.c.n else 0
  }

  /** The registers; `self` determines the running code and its closure. */
  datatype State = State(stack: seq<Word>, fp: int, ip: int, self: Word, heap: Heap)

  datatype Outcome = Next(s: State) | Raised | Halt(v: Word, heap: Heap) | Stuck

  function WordAt(code: Code, ip: int): Option<Operand> {
    if 0 <= ip < |code| && code[ip].WordC? then Some(code[ip].w) else None
  }

  /** The operand word right after the opcode. */
  function Operand0(s: State): Option<Operand>
    requires s.self.Proc?
  {
    WordAt(s.self.code, s.ip + 1)
  }

  /** The cells of the list `ws`, consed onto the heap back to front. */
  function ConsList(heap: Heap, ws: seq<Word>): (r: (Heap, Word)) {
    if ws == [] then (heap, Const(Null))
    else
      var (h, tl) := ConsList(heap, ws[1..]);
      (h + [PairObj(ws[0], tl)], Pair(|h|))
  }

  function Reverse<T>(s: seq<T>): (r: seq<T>)
    ensures |r| == |s|
    ensures forall i :: 0 <= i < |s| ==> r[i] == s[|s| - 1 - i]
  {
    if s == [] then [] else Reverse(s[1..]) + [s[0]]
  }

  lemma ReverseItem(s: seq<Word>, k: nat)
    requires k < |s|
    ensures Reverse(s)[k] == s[|s| - 1 - k]
  {
  }

  lemma ReverseTwice(s: seq<Word>)
    ensures Reverse(Reverse(s)) == s
  {
    forall k | 0 <= k < |s|
      ensures Reverse(Reverse(s))[k] == s[k]
    {
      ReverseItem(Reverse(s), k);
      ReverseItem(s, |s| - 1 - k);
    }
  }

  /**
    The target of both call instructions (label make_call): `args[0]` is the
    first argument, `base` is the stack below the arguments.  Surplus
    arguments become a list, and the frame is pushed above the arguments,
    which lie with the first one on top.
  */
  function EnterCall(base: seq<Word>, args: seq<Word>, proc: Word,
                     retIp: int, retSelf: Word, retFp: int, heap: Heap): Outcome
  {
    if !proc.Proc? then Raised
    else if |args| < proc.nargs then Raised
    else if |args| > proc.nargs && !proc.variadic then Raised
    else
      var (heap1, actuals) :=
        if proc.variadic then
          var (h, tl) := ConsList(heap, args[proc.nargs..]);
          (h, args[..proc.nargs] + [tl])
        else (heap, args);
      Next(State(base + Reverse(actuals) + [Fix(|actuals|), Fix(retIp), retSelf, Fix(retFp)],
                 |base| + |actuals|, 0, proc, heap1))
  }

  /** The saved frame is intact: argument count, return ip, caller, caller's fp. */
  predicate FrameOk(s: State) {
    && 0 <= s.fp && s.fp + 4 <= |s.stack|
    && 0 <= Int(s.stack[s.fp]) <= s.fp
  }

  /** Binary arithmetic on words; None raises. */
  function ArithWord(op: Op, a: Word, b: Word): Option<Word> {
    if !(a.Const? && a.c.Num? && b.Const? && b.c.Num?) then None
    else
      match op
      case ADD => Some(Fix(a.c.n + b.c.n))
      case SUB => Some(Fix(a.c.n - b.c.n))
      case MUL => Some(Fix(a.c.n * b.c.n))
      case QUOTIENT => if b.c.n == 0 then None else Some(Fix(TruncQuot(a.c.n, b.c.n)))
      case REMAINDER => if b.c.n == 0 then None else Some(Fix(TruncRem(a.c.n, b.c.n)))
      case LT => Some(Const(Bool(a.c.n < b.c.n)))
      case LE => Some(Const(Bool(a.c.n <= b.c.n)))
      case EQN => Some(Const(Bool(a.c.n == b.c.n)))
      case _ => None
  }

  predicate IsArith(op: Op) {
    op.ADD? || op.SUB? || op.MUL? || op.QUOTIENT? || op.REMAINDER? || op.LT? || op.LE? || op.EQN?
  }

  predicate IsFalse(w: Word) {
    w == Const(Bool(false))
  }

  // ----------------------------------------------------------- instructions

  function StepStack(s: State, op: Op): Outcome
    requires s.self.Proc?
  {
    var top := |s.stack|;
    match op
    case PUSH =>
      (match Operand0(s)
       case Some(V(w)) => Next(s.(stack := s.stack + [w], ip := s.ip + 1 + WORD))
       case _ => Stuck)
    case DROP =>
      if top < 1 then Stuck else Next(s.(stack := s.stack[..top - 1], ip := s.ip + 1))
    case STACK_REF =>
      (match Operand0(s)
       case Some(I(i)) =>
         if 1 <= i <= top
         then Next(s.(stack := s.stack + [s.stack[top - i]], ip := s.ip + 1 + WORD)) else Stuck
       case _ => Stuck)
    case LOCAL_REF =>
      (match Operand0(s)
       case Some(I(i)) =>
         if 0 <= s.fp - 1 - i < top
         then Next(s.(stack := s.stack + [s.stack[s.fp - 1 - i]], ip := s.ip + 1 + WORD)) else Stuck
       case _ => Stuck)
    case LOCAL_SET =>
      (match Operand0(s)
       case Some(I(i)) =>
         if top >= 1 && 0 <= s.fp - 1 - i < top - 1
         then Next(s.(stack := s.stack[..top - 1][s.fp - 1 - i := s.stack[top - 1]], ip := s.ip + 1 + WORD))
         else Stuck
       case _ => Stuck)
    case CLOSURE_REF =>
      (match Operand0(s)
       case Some(I(i)) =>
         if s.self.vars.Vector? && s.self.vars.addr < |s.heap| && s.heap[s.self.vars.addr].VecObj?
            && 0 <= i < |s.heap[s.self.vars.addr].elems|
         then Next(s.(stack := s.stack + [s.heap[s.self.vars.addr].elems[i]], ip := s.ip + 1 + WORD))
         else Stuck
       case _ => Stuck)
    case _ => Stuck
  }

  function StepJump(s: State, op: Op): Outcome
    requires s.self.Proc?
  {
    match Operand0(s)
    case Some(I(off)) =>
      if op.JUMP? then Next(s.(ip := s.ip + 1 + off))
      else if |s.stack| < 1 then Stuck
      else
        var top := |s.stack| - 1;
        Next(s.(stack := s.stack[..top],
                ip := if IsFalse(s.stack[top]) then s.ip + 1 + off else s.ip + 1 + WORD))
    case _ => Stuck
  }

  /** Either call; a tail call's operands lie above the frame they replace. */
  function StepCall(s: State, op: Op): Outcome
    requires s.self.Proc?
  {
    match Operand0(s)
    case Some(I(i)) =>
      var top := |s.stack|;
      if !(0 <= i < top) then Stuck
      else
        var args := Reverse(s.stack[top - 1 - i .. top - 1]);
        if op.CALL? then
          EnterCall(s.stack[..top - 1 - i], args, s.stack[top - 1], s.ip + 1 + WORD, s.self, s.fp, s.heap)
        else if !FrameOk(s) || top - 1 - i < s.fp + 4 then Stuck
        else
          EnterCall(s.stack[..s.fp - Int(s.stack[s.fp])], args, s.stack[top - 1],
                    Int(s.stack[s.fp + 1]), s.stack[s.fp + 2], Int(s.stack[s.fp + 3]), s.heap)
    case _ => Stuck
  }

  function StepReturn(s: State): Outcome {
    if !FrameOk(s) then Stuck
    else
      Next(State(s.stack[..s.fp - Int(s.stack[s.fp])] + [s.stack[|s.stack| - 1]],
                 Int(s.stack[s.fp + 3]), Int(s.stack[s.fp + 1]), s.stack[s.fp + 2], s.heap))
  }

  /** The code a captured continuation runs. */
  const ResumeCode: Code := [OpC(RESUMECC), OpC(RET)]

  /** Save the whole stack with a frame on top, and call the receiver on the result. */
  function StepCallCC(s: State): Outcome {
    var top := |s.stack|;
    if top < 1 then Stuck
    else
      var saved := s.stack + [Fix(1), Fix(s.ip + 1), s.self, Fix(s.fp)];
      var heap := s.heap + [VecObj(saved)] + [VecObj([Vector(|s.heap|)])];
      var k := Proc(1, false, ResumeCode, Vector(|s.heap| + 1));
      EnterCall(s.stack[..top - 1], [k], s.stack[top - 1], s.ip + 1, s.self, s.fp, heap)
  }

  function StepResume(s: State): Outcome
    requires s.self.Proc?
  {
    var h := s.heap;
    if !(1 <= s.fp <= |s.stack|) then Stuck
    else if !(s.self.vars.Vector? && s.self.vars.addr < |h| && h[s.self.vars.addr].VecObj?) then Stuck
    else
      var cp := h[s.self.vars.addr].elems;
      if !(|cp| >= 1 && cp[0].Vector? && cp[0].addr < |h| && h[cp[0].addr].VecObj?) then Stuck
      else
        var saved := h[cp[0].addr].elems;
        var len := |saved|;
        if len < 5 then Stuck
        else
          Next(State(saved[..len - 5] + [s.stack[s.fp - 1]],
                     Int(saved[len - 1]), Int(saved[len - 3]), saved[len - 2], h))
  }

  function StepData(s: State, op: Op): Outcome
    requires s.self.Proc?
  {
    var top := |s.stack|;
    match op
    case CONS =>
      if top < 2 then Stuck
      else Next(s.(stack := s.stack[..top - 2] + [Pair(|s.heap|)],
                   heap := s.heap + [PairObj(s.stack[top - 1], s.stack[top - 2])], ip := s.ip + 1))
    case CAR =>
      if top < 1 then Stuck
      else
        var p := s.stack[top - 1];
        if !p.Pair? then Raised
        else if !(p.addr < |s.heap| && s.heap[p.addr].PairObj?) then Stuck
        else Next(s.(stack := s.stack[..top - 1] + [s.heap[p.addr].car], ip := s.ip + 1))
    case CDR =>
      if top < 1 then Stuck
      else
        var p := s.stack[top - 1];
        if !p.Pair? then Raised
        else if !(p.addr < |s.heap| && s.heap[p.addr].PairObj?) then Stuck
        else Next(s.(stack := s.stack[..top - 1] + [s.heap[p.addr].cdr], ip := s.ip + 1))
    case SET_CAR =>
      if top < 2 then Stuck
      else
        var p := s.stack[top - 1];
        if !p.Pair? then Raised
        else if !(p.addr < |s.heap| && s.heap[p.addr].PairObj?) then Stuck
        else Next(s.(stack := s.stack[..top - 2],
                     heap := s.heap[p.addr := PairObj(s.stack[top - 2], s.heap[p.addr].cdr)], ip := s.ip + 1))
    case SET_CDR =>
      if top < 2 then Stuck
      else
        var p := s.stack[top - 1];
        if !p.Pair? then Raised
        else if !(p.addr < |s.heap| && s.heap[p.addr].PairObj?) then Stuck
        else Next(s.(stack := s.stack[..top - 2],
                     heap := s.heap[p.addr := PairObj(s.heap[p.addr].car, s.stack[top - 2])], ip := s.ip + 1))
    case NULLP =>
      if top < 1 then Stuck
      else Next(s.(stack := s.stack[..top - 1] + [Const(Bool(s.stack[top - 1] == Const(Null)))], ip := s.ip + 1))
    case MAKE_VECTOR =>
      if top < 2 then Stuck
      else if !s.stack[top - 1].Const? || !s.stack[top - 1].c.Num? || s.stack[top - 1].c.n < 0 then Raised
      else
        var n := s.stack[top - 1].c.n;
        if n == 0 then Next(s.(stack := s.stack[..top - 2] + [EmptyVector], ip := s.ip + 1))
        else Next(s.(stack := s.stack[..top - 2] + [Vector(|s.heap|)],
                     heap := s.heap + [VecObj(seq(n, _ => s.stack[top - 2]))], ip := s.ip + 1))
    case VECTOR_SET =>
      if top < 3 then Stuck
      else
        var vec := s.stack[top - 1];
        if !(vec.Vector? && vec.addr < |s.heap| && s.heap[vec.addr].VecObj?) then Raised
        else
          var elems := s.heap[vec.addr].elems;
          var k := Int(s.stack[top - 2]);
          if !(0 <= k < |elems|) then Raised
          else Next(s.(stack := s.stack[..top - 3],
                       heap := s.heap[vec.addr := VecObj(elems[k := s.stack[top - 3]])], ip := s.ip + 1))
    case MAKE_PROCEDURE =>
      (match (WordAt(s.self.code, s.ip + 1), WordAt(s.self.code, s.ip + 1 + WORD),
              WordAt(s.self.code, s.ip + 1 + 2 * WORD))
       case (Some(I(flags)), Some(I(len)), Some(B(bc))) =>
         if top < 1 || len < 0 then Stuck
         else Next(s.(stack := s.stack[..top - 1] + [Proc(len, flags % 2 == 1, bc, s.stack[top - 1])],
                      ip := s.ip + 1 + 3 * WORD))
       case _ => Stuck)
    case AND =>
      if top < 2 then Stuck
      else Next(s.(stack := s.stack[..top - 2]
                            + [Const(Bool(!IsFalse(s.stack[top - 1]) && !IsFalse(s.stack[top - 2])))],
                   ip := s.ip + 1))
    case _ =>
      if !IsArith(op) || top < 2 then Stuck
      else match ArithWord(op, s.stack[top - 1], s.stack[top - 2])
        case Some(w) => Next(s.(stack := s.stack[..top - 2] + [w], ip := s.ip + 1))
        case None => Raised
  }

  /** One turn of the interpreter loop. */
  function Step(s: State): Outcome {
    if !s.self.Proc? then Stuck
    else
      var code := s.self.code;
      if !(0 <= s.ip < |code| && code[s.ip].OpC?) then Stuck
      else
        match code[s.ip].op
        case PUSH | DROP | STACK_REF | LOCAL_REF | LOCAL_SET | CLOSURE_REF => StepStack(s, code[s.ip].op)
        case JUMP | JUMP_UNLESS => StepJump(s, code[s.ip].op)
        case CALL | TAIL_CALL => StepCall(s, code[s.ip].op)
        case RET => StepReturn(s)
        case DONE => if |s.stack| < 1 then Stuck else Halt(s.stack[|s.stack| - 1], s.heap)
        case CALLCC => StepCallCC(s)
        case RESUMECC => StepResume(s)
        case _ => StepData(s, code[s.ip].op)
  }

  /** At most `n` turns. */
  function Run(s: State, n: nat): Outcome
    decreases n
  {
    if n == 0 then Next(s)
    else match Step(s)
      case Next(t) => Run(t, n - 1)
      case o => o
  }

  lemma {:induction false} RunCompose(s: State, a: nat, b: nat)
    ensures Run(s, a + b) == (match Run(s, a) case Next(t) => Run(t, b) case o => o)
    decreases a
  {
    hide Step;
    if a > 0 && Step(s).Next? {
      RunCompose(Step(s).s, a - 1, b);
    }
  }

  /** The machine is deterministic: it ends in at most one way. */
  lemma {:induction false} OutcomeUnique(s: State, a: nat, b: nat)
    requires !Run(s, a).Next? && !Run(s, b).Next?
    ensures Run(s, a) == Run(s, b)
  {
    if a <= b {
      RunCompose(s, a, b - a);
    } else {
      RunCompose(s, b, a - b);
    }
  }
}
