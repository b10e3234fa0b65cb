/**
  What calls, returns, tail calls and captured continuations do to the frame:
  where a procedure returns to does not change until it returns.
*/
module Frames {
  import opened Options
  import opened Scheme
  import opened Bytecode

  /** Where the current procedure returns to: the stack below its frame, and the caller's registers. */
  datatype Exit = Exit(base: seq<Word>, ip: int, self: Word, fp: int)

  ghost predicate ReturnsTo(s: State, x: Exit) {
    && FrameOk(s) && s.stack[..s.fp - Int(s.stack[s.fp])] == x.base
    && Int(s.stack[s.fp + 1]) == x.ip && s.stack[s.fp + 2] == x.self && Int(s.stack[s.fp + 3]) == x.fp
  }

  /** The caller goes on at the exit with the value on top. */
  function Resumed(x: Exit, v: Word, heap: Heap): State {
    State(x.base + [v], x.fp, x.ip, x.self, heap)
  }

  predicate AtOp(s: State, op: Op) {
    s.self.Proc? && 0 <= s.ip < |s.self.code| && s.self.code[s.ip] == OpC(op)
  }

  /** A return with `v` on top goes to the exit. */
  lemma ReturnExits(s: State, x: Exit)
    requires ReturnsTo(s, x) && AtOp(s, RET)
    ensures |s.stack| > 0 && Step(s) == Next(Resumed(x, s.stack[|s.stack| - 1], s.heap))
  {
  }

  // ------------------------------------------------------------------- calls

  /** A list in the heap holding the words in order. */
  ghost predicate HeapList(heap: Heap, w: Word, ws: seq<Word>)
    decreases |ws|
  {
    if ws == [] then w == Word.Const(Null)
    else w.Pair? && w.addr < |heap| && heap[w.addr].PairObj? && heap[w.addr].car == ws[0] && HeapList(heap, heap[w.addr].cdr, ws[1..])
  }

  lemma {:induction false} ListInLarger(heap: Heap, more: Heap, w: Word, ws: seq<Word>)
    requires HeapList(heap, w, ws)
    ensures HeapList(heap + more, w, ws)
    decreases |ws|
  {
    if ws != [] {
      ListInLarger(heap, more, heap[w.addr].cdr, ws[1..]);
    }
  }

  lemma {:induction false} ConsListHolds(heap: Heap, ws: seq<Word>)
    ensures var (h, w) := ConsList(heap, ws); heap <= h && HeapList(h, w, ws)
    decreases |ws|
  {
    if ws != [] {
      ConsListHolds(heap, ws[1..]);
      var (h, tl) := ConsList(heap, ws[1..]);
      ListInLarger(h, [PairObj(ws[0], tl)], tl, ws[1..]);
      var h1 := h + [PairObj(ws[0], tl)];
      assert h1[|h|] == PairObj(ws[0], tl);
    }
  }

  /** The variable in slot `i` of the frame holds the word. */
  ghost predicate InSlot(s: State, i: nat, w: Word) {
    0 <= s.fp - 1 - i < |s.stack| && s.stack[s.fp - 1 - i] == w
  }

  /** The procedure takes this many arguments. */
  predicate Accepts(proc: Word, n: nat) {
    proc.Proc? && n >= proc.nargs && (n > proc.nargs ==> proc.variadic)
  }

  /**
    A call enters the procedure with its exit in the frame and its arguments
    in its first slots; what is more than it names is a list in call order in
    the next slot.
  */
  lemma CallEnters(base: seq<Word>, args: seq<Word>, proc: Word, x: Exit, heap: Heap)
    requires x.base == base
    ensures Accepts(proc, |args|) <==> EnterCall(base, args, proc, x.ip, x.self, x.fp, heap).Next?
    ensures !Accepts(proc, |args|) ==> EnterCall(base, args, proc, x.ip, x.self, x.fp, heap) == Raised
    ensures Accepts(proc, |args|) ==>
              var t := EnterCall(base, args, proc, x.ip, x.self, x.fp, heap).s;
              && ReturnsTo(t, x) && t.self == proc && t.ip == 0 && heap <= t.heap && |t.stack| == t.fp + 4
              && (forall i :: 0 <= i < proc.nargs ==> InSlot(t, i, args[i]))
              && (proc.variadic ==> exists rest :: InSlot(t, proc.nargs, rest) && HeapList(t.heap, rest, args[proc.nargs..]))
  {
    hide EnterCall;
    hide Reverse;
    hide ConsList;
    hide HeapList;
    hide ReturnsTo;
    CallShape(base, args, proc, x, heap);
    if Accepts(proc, |args|) {
      var t := EnterCall(base, args, proc, x.ip, x.self, x.fp, heap).s;
      var actuals := Received(args, proc, heap);
      FrameLaid(base, actuals, x, t);
      if proc.variadic {
        ConsListHolds(heap, args[proc.nargs..]);
        assert InSlot(t, proc.nargs, actuals[proc.nargs]);
        assert actuals[proc.nargs] == ConsList(heap, args[proc.nargs..]).1;
      }
    }
  }

  /** The arguments as the procedure gets them. */
  function Received(args: seq<Word>, proc: Word, heap: Heap): (actuals: seq<Word>)
    requires Accepts(proc, |args|)
    ensures |actuals| == proc.nargs + if proc.variadic then 1 else 0
    ensures forall i :: 0 <= i < proc.nargs ==> actuals[i] == args[i]
  {
    if proc.variadic then args[..proc.nargs] + [ConsList(heap, args[proc.nargs..]).1] else args
  }

  lemma CallShape(base: seq<Word>, args: seq<Word>, proc: Word, x: Exit, heap: Heap)
    ensures var o := EnterCall(base, args, proc, x.ip, x.self, x.fp, heap);
            if Accepts(proc, |args|) then
              var actuals := Received(args, proc, heap);
              o == Next(State(base + Reverse(actuals) + [Fix(|actuals|), Fix(x.ip), x.self, Fix(x.fp)], |base| + |actuals|, 0, proc,
                              if proc.variadic then ConsList(heap, args[proc.nargs..]).0 else heap))
            else o == Raised
  {
    hide Reverse;
    hide ConsList;
  }

  lemma FrameLaid(base: seq<Word>, actuals: seq<Word>, x: Exit, t: State)
    requires t.stack == base + Reverse(actuals) + [Fix(|actuals|), Fix(x.ip), x.self, Fix(x.fp)] && t.fp == |base| + |actuals|
    requires x.base == base
    ensures ReturnsTo(t, x) && |t.stack| == t.fp + 4
    ensures forall i :: 0 <= i < |actuals| ==> InSlot(t, i, actuals[i])
  {
    forall i | 0 <= i < |actuals|
      ensures Reverse(actuals)[|actuals| - 1 - i] == actuals[i]
    {
      ReverseAt(actuals, i);
    }
    FrameAbove(base, Reverse(actuals), actuals, x, t);
  }

  lemma FrameAbove(base: seq<Word>, r: seq<Word>, actuals: seq<Word>, x: Exit, t: State)
    requires |r| == |actuals| && forall i :: 0 <= i < |actuals| ==> r[|actuals| - 1 - i] == actuals[i]
    requires t.stack == base + r + [Fix(|actuals|), Fix(x.ip), x.self, Fix(x.fp)] && t.fp == |base| + |actuals| && x.base == base
    ensures ReturnsTo(t, x) && |t.stack| == t.fp + 4
    ensures forall i :: 0 <= i < |actuals| ==> InSlot(t, i, actuals[i])
  {
    hide InSlot;
    hide ReturnsTo;
    var fields := [Fix(|r|), Fix(x.ip), x.self, Fix(x.fp)];
    FrameExit(base, r, fields, t, x);
    forall i: nat | i < |actuals|
      ensures InSlot(t, i, actuals[i])
    {
      SlotFilled(base, r, fields, t, i);
    }
  }

  lemma ReverseAt(s: seq<Word>, i: nat)
    requires i < |s|
    ensures Reverse(s)[|s| - 1 - i] == s[i]
  {
  }

  lemma SlotFilled(base: seq<Word>, r: seq<Word>, fields: seq<Word>, t: State, i: nat)
    requires t.stack == base + r + fields && t.fp == |base| + |r| && i < |r|
    ensures InSlot(t, i, r[|r| - 1 - i])
  {
    FrameSlot(base, r, fields, |r| - 1 - i);
  }

  lemma FrameExit(base: seq<Word>, r: seq<Word>, fields: seq<Word>, t: State, x: Exit)
    requires fields == [Fix(|r|), Fix(x.ip), x.self, Fix(x.fp)] && t.stack == base + r + fields && t.fp == |base| + |r| && x.base == base
    ensures ReturnsTo(t, x)
  {
    assert t.stack[..|base|] == base;
    assert t.stack[t.fp..] == fields;
    assert t.stack[t.fp] == fields[0];
  }

  lemma FrameSlot(base: seq<Word>, r: seq<Word>, fields: seq<Word>, k: nat)
    requires k < |r|
    ensures (base + r + fields)[|base| + k] == r[k]
  {
  }

  /** A tail call that succeeds runs another procedure with the same exit. */
  lemma TailCallKeepsExit(s: State, x: Exit, t: State)
    requires ReturnsTo(s, x) && AtOp(s, TAIL_CALL) && Step(s) == Next(t)
    ensures ReturnsTo(t, x) && t.self == s.stack[|s.stack| - 1] && t.ip == 0
  {
    hide EnterCall;
    hide Reverse;
    var i := Operand0(s).value.i;
    var top := |s.stack|;
    CallEnters(x.base, Reverse(s.stack[top - 1 - i .. top - 1]), s.stack[top - 1], x, s.heap);
  }

  // ---------------------------------------------------------- whole activations

  /** How many words on the stack the instruction consumes or replaces. */
  function Pops(op: Op): nat {
    match op
    case DROP | JUMP_UNLESS | CAR | CDR | NULLP | MAKE_PROCEDURE => 1
    case CONS | SET_CAR | SET_CDR | MAKE_VECTOR | AND | ADD | SUB | MUL | QUOTIENT | REMAINDER | LT | LE | EQN => 2
    case VECTOR_SET => 3
    case LOCAL_SET => 1
    case _ => 0
  }

  /** The words are all there when the instruction goes on. */
  lemma PopsFit(s: State)
    requires Step(s).Next?
    ensures |s.stack| >= Pops(s.self.code[s.ip].op)
  {
    hide EnterCall;
  }

  /** The instruction works above the frame, or assigns to a variable of the procedure. */
  ghost predicate Local(s: State, x: Exit) {
    && s.self.Proc? && 0 <= s.ip < |s.self.code| && s.self.code[s.ip].OpC?
    && var op := s.self.code[s.ip].op;
       && !(op.CALL? || op.TAIL_CALL? || op.RET? || op.DONE? || op.CALLCC? || op.RESUMECC?)
       && s.fp + 4 <= |s.stack| - Pops(op)
       && (op.LOCAL_SET? ==>
             match Operand0(s)
             case Some(I(i)) => |x.base| <= s.fp - 1 - i && !(s.fp <= s.fp - 1 - i < s.fp + 4)
             case _ => false)
  }

  lemma {:induction false} LocalKeepsExit(s: State, x: Exit)
    requires ReturnsTo(s, x) && Local(s, x) && Step(s).Next?
    ensures ReturnsTo(Step(s).s, x) && |s.stack| - Pops(s.self.code[s.ip].op) <= |Step(s).s.stack|
  {
    var t, keep := Step(s).s, s.fp + 4;
    assert t.fp == s.fp && |t.stack| >= keep;
    forall k | 0 <= k < |x.base| || s.fp <= k < keep
      ensures t.stack[k] == s.stack[k]
    {
    }
    assert t.stack[..|x.base|] == s.stack[..|x.base|];
  }

  /** Where the callee of a call instruction returns to. */
  function CallExit(s: State, i: int): Exit
    requires 0 <= i < |s.stack|
  {
    Exit(s.stack[..|s.stack| - 1 - i], s.ip + 1 + WORD, s.self, s.fp)
  }

  ghost predicate CallAbove(s: State, i: int) {
    AtOp(s, CALL) && Operand0(s) == Some(I(i)) && 0 <= i < |s.stack| && s.fp + 4 <= |s.stack| - 1 - i
  }

  /**
    The next `n` instructions stay in activations that have the exit `x`: each
    is local, a tail call, or a call together with everything up to and with
    the return of its callee.
  */
  ghost predicate Within(s: State, x: Exit, n: nat)
    decreases n
  {
    || n == 0
    || ((Local(s, x) || AtOp(s, TAIL_CALL)) && Step(s).Next? && Within(Step(s).s, x, n - 1))
    || exists i: int, m: nat :: CallReturns(s, i, m) && m + 2 <= n && Within(Step(s).s, CallExit(s, i), m) && Within(AfterCall(s, m), x, n - 2 - m)
  }

  /** A call whose callee is about to return after `m` instructions. */
  ghost predicate CallReturns(s: State, i: int, m: nat) {
    && CallAbove(s, i) && Step(s).Next? && Run(Step(s).s, m).Next?
    && AtOp(Run(Step(s).s, m).s, RET) && Step(Run(Step(s).s, m).s).Next?
  }

  ghost function AfterCall(s: State, m: nat): State {
    if Step(s).Next? && Run(Step(s).s, m).Next? && Step(Run(Step(s).s, m).s).Next? then Step(Run(Step(s).s, m).s).s else s
  }

  lemma CallEntersAbove(s: State, i: int)
    requires CallAbove(s, i) && Step(s).Next?
    ensures ReturnsTo(Step(s).s, CallExit(s, i))
  {
    hide EnterCall;
    hide Reverse;
    var top := |s.stack|;
    CallEnters(s.stack[..top - 1 - i], Reverse(s.stack[top - 1 - i .. top - 1]), s.stack[top - 1], CallExit(s, i), s.heap);
  }

  lemma ResumedKeepsExit(s: State, x: Exit, i: int, v: Word, heap: Heap)
    requires ReturnsTo(s, x) && CallAbove(s, i)
    ensures ReturnsTo(Resumed(CallExit(s, i), v, heap), x)
  {
    var t := Resumed(CallExit(s, i), v, heap);
    assert t.stack[..|x.base|] == s.stack[..|x.base|];
  }

  /** Whatever an activation does, and whatever procedures it turns into by tail calls, its exit stays. */
  lemma {:induction false} ExitStays(s: State, x: Exit, n: nat)
    requires ReturnsTo(s, x) && Within(s, x, n)
    ensures Run(s, n).Next? && ReturnsTo(Run(s, n).s, x)
    decreases n
  {
    hide Step;
    hide Local;
    hide AtOp;
    hide ReturnsTo;
    if n == 0 {
    } else if (Local(s, x) || AtOp(s, TAIL_CALL)) && Step(s).Next? && Within(Step(s).s, x, n - 1) {
      if Local(s, x) {
        LocalKeepsExit(s, x);
      } else {
        TailCallKeepsExit(s, x, Step(s).s);
      }
      ExitStays(Step(s).s, x, n - 1);
    } else {
      var i: int, m: nat :| CallReturns(s, i, m) && m + 2 <= n && Within(Step(s).s, CallExit(s, i), m) && Within(AfterCall(s, m), x, n - 2 - m);
      CallEntersAbove(s, i);
      ExitStays(Step(s).s, CallExit(s, i), m);
      var u := Run(Step(s).s, m).s;
      ReturnExits(u, CallExit(s, i));
      ResumedKeepsExit(s, x, i, u.stack[|u.stack| - 1], u.heap);
      ExitStays(AfterCall(s, m), x, n - 2 - m);
      CallRuns(s, m, n);
    }
  }

  lemma CallRuns(s: State, m: nat, n: nat)
    requires m + 2 <= n && Step(s).Next? && Run(Step(s).s, m).Next? && Step(Run(Step(s).s, m).s).Next?
    ensures Run(s, n) == Run(AfterCall(s, m), n - 2 - m)
  {
    hide Step;
    RunCompose(Step(s).s, m, n - 1 - m);
  }

  /** A call whose activation ends in a return goes on at the exit it was made with, through any chain of tail calls. */
  lemma ActivationReturns(base: seq<Word>, args: seq<Word>, proc: Word, x: Exit, heap: Heap, n: nat)
    requires x.base == base && Accepts(proc, |args|)
    requires var t := EnterCall(base, args, proc, x.ip, x.self, x.fp, heap);
             t.Next? && Within(t.s, x, n) && Run(t.s, n).Next? && AtOp(Run(t.s, n).s, RET)
    ensures var t := EnterCall(base, args, proc, x.ip, x.self, x.fp, heap).s;
            var u := Run(t, n).s;
            |u.stack| > 0 && Run(t, n + 1) == Next(Resumed(x, u.stack[|u.stack| - 1], u.heap))
  {
    hide Step;
    hide EnterCall;
    CallEnters(base, args, proc, x, heap);
    var t := EnterCall(base, args, proc, x.ip, x.self, x.fp, heap).s;
    ExitStays(t, x, n);
    ReturnExits(Run(t, n).s, x);
    RunCompose(t, n, 1);
  }

  // ------------------------------------------------------- captured continuations

  /** The continuation made by a capture with `h` objects in the heap. */
  function Continuation(h: nat): Word { Proc(1, false, ResumeCode, Vector(h + 1)) }

  /** Where a capture at `s` goes on when its receiver returns. */
  function CaptureExit(s: State): Exit
    requires |s.stack| >= 1
  {
    Exit(s.stack[..|s.stack| - 1], s.ip + 1, s.self, s.fp)
  }

  /** The vectors in which a capture keeps the stack. */
  ghost predicate Keeps(heap: Heap, s: State)
    requires |s.stack| >= 1
  {
    var h := |s.heap|;
    && h + 1 < |heap| && heap[h + 1] == VecObj([Vector(h)])
    && heap[h] == VecObj(s.stack + [Fix(1), Fix(s.ip + 1), s.self, Fix(s.fp)])
  }

  /** A capture calls its receiver on the continuation, and keeps the stack. */
  lemma CaptureCalls(s: State)
    requires AtOp(s, CALLCC) && |s.stack| >= 1 && Step(s).Next?
    ensures var t := Step(s).s;
            && ReturnsTo(t, CaptureExit(s)) && Keeps(t.heap, s) && t.self == s.stack[|s.stack| - 1] && t.ip == 0
            && Step(s) == EnterCall(s.stack[..|s.stack| - 1], [Continuation(|s.heap|)], t.self, s.ip + 1, s.self, s.fp,
                                    s.heap + [VecObj(s.stack + [Fix(1), Fix(s.ip + 1), s.self, Fix(s.fp)])] + [VecObj([Vector(|s.heap|)])])
  {
    hide EnterCall;
    var saved := s.stack + [Fix(1), Fix(s.ip + 1), s.self, Fix(s.fp)];
    var heap := s.heap + [VecObj(saved)] + [VecObj([Vector(|s.heap|)])];
    CallEnters(s.stack[..|s.stack| - 1], [Continuation(|s.heap|)], s.stack[|s.stack| - 1], CaptureExit(s), heap);
    var t := Step(s).s;
    assert t.heap[|s.heap|] == heap[|s.heap|] && t.heap[|s.heap| + 1] == heap[|s.heap| + 1];
  }

  /**
    Throwing a value to a captured continuation reaches the very state that
    returning it from the receiver reaches, from any stack and at any time.
  */
  lemma ThrowIsReturn(s: State, c: State, v: Word)
    requires |s.stack| >= 1 && Keeps(c.heap, s)
    requires c.self == Continuation(|s.heap|) && c.ip == 0 && 1 <= c.fp <= |c.stack| && c.stack[c.fp - 1] == v
    ensures Step(c) == Next(Resumed(CaptureExit(s), v, c.heap))
  {
    var saved := s.stack + [Fix(1), Fix(s.ip + 1), s.self, Fix(s.fp)];
    assert saved[..|saved| - 5] == s.stack[..|s.stack| - 1];
    assert c.self.code[0] == OpC(RESUMECC);
  }

  /** Calling the continuation on one value, from anywhere, is the throw. */
  lemma CallThrows(s: State, base: seq<Word>, v: Word, ip: int, self: Word, fp: int, heap: Heap)
    requires |s.stack| >= 1 && Keeps(heap, s)
    ensures var t := EnterCall(base, [v], Continuation(|s.heap|), ip, self, fp, heap);
            t.Next? && Step(t.s) == Next(Resumed(CaptureExit(s), v, heap))
  {
    hide EnterCall;
    hide Step;
    CallEnters(base, [v], Continuation(|s.heap|), Exit(base, ip, self, fp), heap);
    var t := EnterCall(base, [v], Continuation(|s.heap|), ip, self, fp, heap).s;
    SameHeap(base, [v], Continuation(|s.heap|), ip, self, fp, heap);
    var i := 0;
    assert 0 <= i < Continuation(|s.heap|).nargs && [v][i] == v;
    assert InSlot(t, i, [v][i]);
    ThrowIsReturn(s, t, v);
  }

  lemma SameHeap(base: seq<Word>, args: seq<Word>, proc: Word, ip: int, self: Word, fp: int, heap: Heap)
    requires proc.Proc? && !proc.variadic && |args| == proc.nargs
    ensures EnterCall(base, args, proc, ip, self, fp, heap).s.heap == heap
  {
  }

  // --------------------------------------------------------- the saved stack stays

  /** The instruction stores into the heap object at `a`. */
  ghost predicate StoresAt(s: State, a: nat) {
    var top := |s.stack|;
    || ((AtOp(s, SET_CAR) || AtOp(s, SET_CDR)) && top >= 2 && s.stack[top - 1] == Word.Pair(a))
    || (AtOp(s, VECTOR_SET) && top >= 3 && s.stack[top - 1] == Word.Vector(a))
  }

  lemma StepKeepsObject(s: State, a: nat)
    requires Step(s).Next? && a < |s.heap| && !StoresAt(s, a)
    ensures a < |Step(s).s.heap| && Step(s).s.heap[a] == s.heap[a]
  {
    hide Reverse;
    hide ConsList;
    if AtOp(s, CALL) || AtOp(s, TAIL_CALL) || AtOp(s, CALLCC) {
      CallKeepsObject(s, a);
    }
  }

  lemma {:induction false} CallKeepsObject(s: State, a: nat)
    requires Step(s).Next? && a < |s.heap| && (AtOp(s, CALL) || AtOp(s, TAIL_CALL) || AtOp(s, CALLCC))
    ensures a < |Step(s).s.heap| && Step(s).s.heap[a] == s.heap[a]
  {
    hide EnterCall;
    hide Reverse;
    var top := |s.stack|;
    if AtOp(s, CALLCC) {
      CaptureCalls(s);
      var saved := s.stack + [Fix(1), Fix(s.ip + 1), s.self, Fix(s.fp)];
      var heap := s.heap + [VecObj(saved)] + [VecObj([Vector(|s.heap|)])];
      CallEnters(s.stack[..top - 1], [Continuation(|s.heap|)], s.stack[top - 1], CaptureExit(s), heap);
    } else {
      var i := Operand0(s).value.i;
      var args := Reverse(s.stack[top - 1 - i .. top - 1]);
      if AtOp(s, CALL) {
        CallEnters(s.stack[..top - 1 - i], args, s.stack[top - 1], CallExit(s, i), s.heap);
      } else {
        var x := Exit(s.stack[..s.fp - Int(s.stack[s.fp])], Int(s.stack[s.fp + 1]), s.stack[s.fp + 2], Int(s.stack[s.fp + 3]));
        CallEnters(x.base, args, s.stack[top - 1], x, s.heap);
      }
    }
  }

  /** None of the next `n` instructions stores there. */
  ghost predicate Unstored(s: State, n: nat, a: nat)
    decreases n
  {
    n > 0 ==> !StoresAt(s, a) && (Step(s).Next? ==> Unstored(Step(s).s, n - 1, a))
  }

  lemma {:induction false} RunKeepsObject(s: State, n: nat, a: nat)
    requires Run(s, n).Next? && a < |s.heap| && Unstored(s, n, a)
    ensures a < |Run(s, n).s.heap| && Run(s, n).s.heap[a] == s.heap[a]
    decreases n
  {
    hide Step;
    hide StoresAt;
    if n > 0 {
      StepKeepsObject(s, a);
      RunKeepsObject(Step(s).s, n - 1, a);
    }
  }

  /**
    However long after the capture, and whatever has happened to the stack:
    entering the continuation on `v` leads to the state that returning `v`
    from the receiver leads to, as long as nothing was stored into the vectors
    that hold the saved stack.
  */
  lemma ThrowLater(s: State, n: nat, v: Word)
    requires AtOp(s, CALLCC) && |s.stack| >= 1 && Step(s).Next? && Run(Step(s).s, n).Next?
    requires Unstored(Step(s).s, n, |s.heap|) && Unstored(Step(s).s, n, |s.heap| + 1)
    requires var c := Run(Step(s).s, n).s;
             c.self == Continuation(|s.heap|) && c.ip == 0 && 1 <= c.fp <= |c.stack| && c.stack[c.fp - 1] == v
    ensures Run(Step(s).s, n + 1) == Next(Resumed(CaptureExit(s), v, Run(Step(s).s, n).s.heap))
  {
    hide Step;
    hide Unstored;
    CaptureCalls(s);
    RunKeepsObject(Step(s).s, n, |s.heap|);
    RunKeepsObject(Step(s).s, n, |s.heap| + 1);
    ThrowIsReturn(s, Run(Step(s).s, n).s, v);
    RunCompose(Step(s).s, n, 1);
  }
}
