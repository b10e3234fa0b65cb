/**
  The virtual machine with its registers and a stack array that instructions
  change in place: each turn does what `Step` says.
*/
module Machines {
  import opened Options
  import opened Scheme
  import opened Bytecode
  import opened Frames

  datatype Status = Running | Failed | Done(v: Word)

  /** The machine ended up as the outcome says; about a stuck machine nothing is promised. */
  ghost predicate Agrees(o: Outcome, status: Status, s: State) {
    match o
    case Next(t) => status.Running? && s == t
    case Raised => status.Failed?
    case Halt(v, heap) => status == Done(v) && s.heap == heap
    case Stuck => true
  }

  class Machine {
    var data: array<Word>
    var top: nat
    var fp: int
    var ip: int
    var self: Word
    var heap: Heap

    ghost predicate Valid()
      reads this, data
    {
      top <= data.Length
    }

    /** The state that the registers and the stack stand for. */
    ghost function Now(): State
      reads this, data
      requires Valid()
    {
      State(data[..top], fp, ip, self, heap)
    }

    constructor (s: State, room: nat)
      ensures Valid() && Now() == s && fresh(data)
    {
      data := new Word[|s.stack| + room](i requires 0 <= i < |s.stack| + room => if i < |s.stack| then s.stack[i] else Fix(0));
      top, fp, ip, self, heap := |s.stack|, s.fp, s.ip, s.self, s.heap;
      new;
      assert data[..top] == s.stack;
    }

    // ------------------------------------------------------------------ stack

    /** Make room for `n` more words, moving to a larger stack when there is none. */
    method EnsureStack(n: nat)
      requires Valid()
      modifies this`data
      ensures Valid() && data[..top] == old(data[..top]) && data.Length >= top + n
      ensures data == old(data) || fresh(data)
    {
      if data.Length < top + n {
        var size := if data.Length * 2 < top + n then top + n else data.Length * 2;
        var from, to := data, new Word[size](_ => Fix(0));
        var i := top;
        while i > 0
          invariant 0 <= i <= top && data == from
          invariant forall p :: i <= p < top ==> to[p] == from[p]
        {
          i := i - 1;
          to[i] := from[i];
        }
        assert to[..top] == from[..top];
        data := to;
      }
    }

    method Push(w: Word)
      requires Valid()
      modifies this, data
      ensures Valid() && Now() == old(Now()).(stack := old(data[..top]) + [w])
      ensures data == old(data) || fresh(data)
    {
      EnsureStack(1);
      data[top] := w;
      top := top + 1;
      assert data[..top] == old(data[..top]) + [w];
    }

    method Drop(n: nat)
      requires Valid() && n <= top
      modifies this
      ensures Valid() && Now() == old(Now()).(stack := old(data[..top])[..old(top) - n])
      ensures data == old(data)
    {
      top := top - n;
      assert data[..top] == old(data[..top])[..old(top) - n];
    }

    /** Replace the `n` words on top by one. */
    method Replace(n: nat, w: Word)
      requires Valid() && n <= top && top - n < data.Length
      modifies this, data
      ensures Valid() && Now() == old(Now()).(stack := old(data[..top])[..old(top) - n] + [w])
      ensures data == old(data)
    {
      data[top - n] := w;
      top := top - n + 1;
      assert data[..top] == old(data[..top])[..old(top) - n] + [w];
    }
  
    // ------------------------------------------------------------ instructions

    method StackOp(op: Op)
      requires Valid() && self.Proc? && StepStack(Now(), op).Next?
      modifies this, data
      ensures Valid() && Next(Now()) == old(StepStack(Now(), op))
      ensures data == old(data) || fresh(data)
    {
      match op
      case PUSH =>
        Push(WordAt(self.code, ip + 1).value.v);
        ip := ip + 1 + WORD;
      case DROP =>
        Drop(1);
        ip := ip + 1;
      case STACK_REF =>
        Push(data[top - WordAt(self.code, ip + 1).value.i]);
        ip := ip + 1 + WORD;
      case LOCAL_REF =>
        Push(data[fp - 1 - WordAt(self.code, ip + 1).value.i]);
        ip := ip + 1 + WORD;
      case LOCAL_SET =>
        SetLocal(WordAt(self.code, ip + 1).value.i);
        ip := ip + 1 + WORD;
      case CLOSURE_REF =>
        Push(heap[self.vars.addr].elems[WordAt(self.code, ip + 1).value.i]);
        ip := ip + 1 + WORD;
    }

    /** Pop a word into the variable in slot `i`. */
    method SetLocal(i: int)
      requires Valid() && top >= 1 && 0 <= fp - 1 - i < top - 1
      modifies this, data
      ensures Valid() && data == old(data)
      ensures Now() == old(Now()).(stack := old(data[..top])[..old(top) - 1][old(fp) - 1 - i := old(data[..top])[old(top) - 1]])
    {
      data[fp - 1 - i] := data[top - 1];
      top := top - 1;
      assert data[..top] == old(data[..top])[..old(top) - 1][fp - 1 - i := old(data[..top])[old(top) - 1]];
    }

    method Jump()
      requires Valid() && self.Proc? && StepJump(Now(), JUMP).Next?
      modifies this`ip
      ensures Valid() && Next(Now()) == old(StepJump(Now(), JUMP))
    {
      ip := ip + 1 + WordAt(self.code, ip + 1).value.i;
    }

    method JumpUnless()
      requires Valid() && self.Proc? && StepJump(Now(), JUMP_UNLESS).Next?
      modifies this`ip, this`top
      ensures Valid() && Next(Now()) == old(StepJump(Now(), JUMP_UNLESS))
    {
      ghost var s0 := data[..top];
      ip := if IsFalse(data[top - 1]) then ip + 1 + WordAt(self.code, ip + 1).value.i else ip + 1 + WORD;
      top := top - 1;
      assert data[..top] == s0[..top];
    }

    /** Leave the procedure: the value goes where the first argument was. */
    method Return()
      requires Valid() && StepReturn(Now()).Next?
      modifies this, data
      ensures Valid() && Next(Now()) == old(StepReturn(Now())) && data == old(data)
    {
      ghost var s := Now();
      var i := Int(data[fp]);
      data[fp - i], top := data[top - 1], fp - i + 1;
      assert data[..top] == s.stack[..fp - i] + [s.stack[|s.stack| - 1]];
      self, ip, fp := data[fp + 2], Int(data[fp + 1]), Int(data[fp + 3]);
    }

    // ------------------------------------------------------------------- calls

    /** Cons what is more than the procedure names, the last argument first, in the slot of the last argument. */
    method ConsRest(i: nat, nargs: nat)
      requires Valid() && nargs < i < top
      modifies this`heap, data
      ensures Valid() && data.Length == old(data.Length)
      ensures var args := old(Reverse(data[top - 1 - i .. top - 1]));
              (heap, data[top - 1 - i]) == ConsList(old(heap), args[nargs..])
      ensures data[..top] == old(data[..top])[top - 1 - i := data[top - 1 - i]]
    {
      hide ConsList;
      hide Reverse;
      ghost var args, h0 := Reverse(data[top - 1 - i .. top - 1]), heap;
      ghost var d0 := data[..];
      var at := top - i - 1;
      LastConsed(h0, args);
      heap, data[at] := heap + [PairObj(data[at], Word.Const(Null))], Pair(|heap|);
      var k := top - i;
      while k < top - nargs - 1
        invariant Valid() && top - i <= k <= top - nargs - 1
        invariant (heap, data[at]) == ConsList(h0, args[top - 1 - k..])
        invariant forall p :: 0 <= p < data.Length && p != at ==> data[p] == d0[p]
      {
        NextConsed(h0, args, top - 2 - k);
        assert args[top - 2 - k] == data[k];
        heap, data[at] := heap + [PairObj(data[k], data[at])], Pair(|heap|);
        k := k + 1;
      }
    }

    /** Close the gap of `gap` words below the named arguments and the procedure. */
    method CloseGap(n: nat, gap: nat)
      requires Valid() && n + gap <= top
      modifies this`top, data
      ensures Valid() && data == old(data) && top == old(top) - gap
      ensures data[..top] == old(data[..top])[..old(top) - n - gap] + old(data[..top])[old(top) - n..]
    {
      ghost var s0 := data[..top];
      CopyDown(top - n, top - n - gap, n);
      assert s0[top - n .. top] == s0[top - n..];
      assert data[..top - gap] == data[..top - n - gap] + data[top - n - gap .. top - gap];
      top := top - gap;
    }

    /** Copy the `i` words at `from` down to `to`, the lowest first. */
    method CopyDown(from: nat, to: nat, i: nat)
      requires Valid() && to <= from && from + i <= top
      modifies data
      ensures data[..to] == old(data[..top])[..to]
      ensures data[to .. to + i] == old(data[..top])[from .. from + i]
    {
      ghost var d0, gap := data[..top], from - to;
      var k := 0;
      while k < i
        invariant Valid() && 0 <= k <= i
        invariant data[..to] == d0[..to] && data[to + k .. top] == d0[to + k..]
        invariant data[to .. to + k] == d0[to + gap .. to + gap + k]
      {
        CopyStep(data[..top], d0, to, k, gap);
        data[to + k] := data[from + k];
        assert data[to .. to + k + 1] == data[to .. to + k] + [data[to + k]];
        k := k + 1;
      }
    }

    /** Open a slot for an empty rest list below the arguments and the procedure. */
    method OpenGap(n: nat, w: Word)
      requires Valid() && n <= top
      modifies this, data
      ensures Valid() && Now() == old(Now()).(stack := old(data[..top])[..old(top) - n] + [w] + old(data[..top])[old(top) - n..])
      ensures data == old(data) || fresh(data)
    {
      ghost var d0 := data[..top];
      EnsureStack(1);
      CopyUp(n);
      data[top - n] := w;
      OpenedUp(data[..top + 1], d0, n, w);
      top := top + 1;
    }

    /** Copy the `n` words on top up by one, the highest first. */
    method CopyUp(n: nat)
      requires Valid() && n <= top < data.Length
      modifies data
      ensures forall p :: 0 <= p < top - n ==> data[p] == old(data[p])
      ensures forall p :: top - n < p <= top ==> data[p] == old(data[p - 1])
    {
      var k := top;
      while k > top - n
        invariant top - n <= k <= top
        invariant forall p :: 0 <= p < k ==> data[p] == old(data[p])
        invariant forall p :: k < p <= top ==> data[p] == old(data[p - 1])
      {
        data[k] := data[k - 1];
        k := k - 1;
      }
    }

    /** Turn the surplus arguments into a list in one slot, or add an empty list. */
    method CollectRest(i: nat, nargs: nat)
      requires Valid() && nargs <= i < top
      modifies this, data
      ensures Valid() && (data == old(data) || fresh(data))
      ensures fp == old(fp) && ip == old(ip) && self == old(self)
      ensures var s0, args := old(data[..top]), old(Reverse(data[top - 1 - i .. top - 1]));
              var (h, w) := ConsList(old(heap), args[nargs..]);
              heap == h && data[..top] == s0[..|s0| - 1 - i] + [w] + s0[|s0| - 1 - nargs..]
    {
      hide ConsList;
      hide Reverse;
      ghost var s0, args, h0 := data[..top], Reverse(data[top - 1 - i .. top - 1]), heap;
      NoneConsed(h0, args);
      if i > nargs {
        ConsRest(i, nargs);
        RestClosed(s0, data[top - 1 - i], i, nargs);
        CloseGap(nargs + 1, i - nargs - 1);
      } else {
        OpenGap(i + 1, Word.Const(Null));
      }
    }

    /** The arguments as the procedure takes them. */
    method Deliver(i: nat) returns (n: nat)
      requires Valid() && i < top && Accepts(data[top - 1], i)
      modifies this, data
      ensures Valid() && (data == old(data) || fresh(data))
      ensures fp == old(fp) && ip == old(ip) && self == old(self)
      ensures Delivered(old(data[..top]), old(heap), i, data[..top], heap, n)
    {
      hide ConsList;
      hide Reverse;
      hide Delivered;
      var proc := data[top - 1];
      ghost var s0, h0 := data[..top], heap;
      SameSlices(data, top, i);
      n := i;
      if proc.variadic {
        CollectRest(i, proc.nargs);
        n := proc.nargs + 1;
        DeliveredRest(s0, h0, i, data[..top], heap);
      } else {
        DeliveredPlain(s0, h0, i);
      }
    }

    /** The label both calls jump to: check the arguments, and push the frame above them. */
    method MakeCall(i: nat, retIp: int) returns (status: Status)
      requires Valid() && i < top
      modifies this, data
      ensures Valid() && (data == old(data) || fresh(data))
      ensures Agrees(old(CallOn(Now(), i, retIp)), status, Now())
    {
      hide CallOn;
      var proc := data[top - 1];
      CallOnAccepted(Now(), i, retIp);
      if !proc.Proc? || i < proc.nargs || (i > proc.nargs && !proc.variadic) {
        return Failed;
      }
      Enter(i, retIp);
      status := Running;
    }

    method Enter(i: nat, retIp: int)
      requires Valid() && i < top && Accepts(data[top - 1], i)
      modifies this, data
      ensures Valid() && (data == old(data) || fresh(data))
      ensures Next(Now()) == old(CallOn(Now(), i, retIp))
    {
      hide CallOn;
      hide Delivered;
      ghost var s := Now();
      var proc := data[top - 1];
      var n := Deliver(i);
      ghost var base, actuals := DeliveredParts(s, i, retIp, data[..top], heap, n);
      PushFrame(base, actuals, proc, n, retIp);
    }

    /** The procedure on top makes way for the frame, and runs. */
    method PushFrame(ghost base: seq<Word>, ghost actuals: seq<Word>, proc: Word, n: nat, retIp: int)
      requires Valid() && data[..top] == base + Reverse(actuals) + [proc] && n == |actuals|
      modifies this, data
      ensures Valid() && (data == old(data) || fresh(data))
      ensures Now() == State(base + Reverse(actuals) + [Fix(n), Fix(retIp), old(self), Fix(old(fp))], |base| + n, 0, proc, old(heap))
    {
      hide Reverse;
      ghost var s0 := data[..top];
      EnsureStack(3);
      assert data[..top] == s0;
      data[top - 1] := Fix(n);
      data[top] := Fix(retIp);
      data[top + 1] := self;
      data[top + 2] := Fix(fp);
      top := top + 3;
      self := proc;
      ip := 0;
      fp := top - 4;
      FrameOnTop(data[..top], s0, base, Reverse(actuals), proc);
    }

    method Call() returns (status: Status)
      requires Valid() && self.Proc? && !StepCall(Now(), CALL).Stuck?
      modifies this, data
      ensures Valid() && (data == old(data) || fresh(data))
      ensures Agrees(old(StepCall(Now(), CALL)), status, Now())
    {
      hide EnterCall;
      hide Reverse;
      status := MakeCall(WordAt(self.code, ip + 1).value.i, ip + 1 + WORD);
    }

    /** The operands move down over the frame, and the caller's registers come back before the call. */
    method TailCall() returns (status: Status)
      requires Valid() && self.Proc? && !StepCall(Now(), TAIL_CALL).Stuck?
      modifies this, data
      ensures Valid() && (data == old(data) || fresh(data))
      ensures Agrees(old(StepCall(Now(), TAIL_CALL)), status, Now())
    {
      hide EnterCall;
      hide Reverse;
      hide Agrees;
      hide CallOn;
      ghost var s := Now();
      var i: nat := WordAt(self.code, ip + 1).value.i;
      var retIp := Vacate(i);
      TailCallOn(s, i, Now(), retIp);
      status := MakeCall(i, retIp);
    }

    /** Put the operands and the procedure where the frame was, and bring back the caller's registers. */
    method Vacate(i: nat) returns (retIp: int)
      requires Valid() && FrameOk(Now()) && fp + 4 <= top - 1 - i
      modifies this`top, this`fp, this`self, data
      ensures Valid() && retIp == Int(old(Now()).stack[old(fp) + 1])
      ensures var s := old(Now());
              data[..top] == s.stack[..s.fp - Int(s.stack[s.fp])] + s.stack[|s.stack| - 1 - i .. |s.stack| - 1] + [s.stack[|s.stack| - 1]]
      ensures self == old(Now()).stack[old(fp) + 2] && fp == Int(old(Now()).stack[old(fp) + 3])
    {
      var proc, j := data[top - 1], Int(data[fp]);
      var retFp, retSelf := Int(data[fp + 3]), data[fp + 2];
      retIp := Int(data[fp + 1]);
      MoveOver(i, fp - j);
      data[top], top := proc, top + 1;
      assert data[..top] == data[..top - 1] + [proc];
      self, fp := retSelf, retFp;
    }

    /** Copy the `i` words below the top one down to `to`, and end the stack there. */
    method MoveOver(i: nat, to: nat)
      requires Valid() && to + i < top
      modifies this`top, data
      ensures Valid() && top == to + i < data.Length
      ensures data[..top] == old(data[..top])[..to] + old(data[..top])[old(top) - 1 - i .. old(top) - 1]
    {
      CopyDown(top - 1 - i, to, i);
      assert data[..to + i] == data[..to] + data[to .. to + i];
      top := to + i;
    }

    /** Save the whole stack with a frame on top, and call the receiver on a procedure that brings it back. */
    method CallCC() returns (status: Status)
      requires Valid() && !StepCallCC(Now()).Stuck?
      modifies this, data
      ensures Valid() && (data == old(data) || fresh(data))
      ensures Agrees(old(StepCallCC(Now())), status, Now())
    {
      hide EnterCall;
      hide Reverse;
      hide Agrees;
      ghost var s := Now();
      WriteFrame();
      var proc, h := data[top - 1], |heap|;
      heap := heap + [VecObj(data[..top + 4])] + [VecObj([Vector(h)])];
      PutBelow(Proc(1, false, ResumeCode, Vector(h + 1)), proc);
      CaptureOn(s, Now());
      status := MakeCall(1, ip + 1);
    }

    /** Write a frame above the stack without making it part of it. */
    method WriteFrame()
      requires Valid()
      modifies this`data, data
      ensures Valid() && (data == old(data) || fresh(data)) && top + 4 <= data.Length
      ensures data[..top] == old(data[..top])
      ensures data[..top + 4] == old(data[..top]) + [Fix(1), Fix(ip + 1), self, Fix(fp)]
    {
      ghost var s0 := data[..top];
      EnsureStack(4);
      assert data[..top] == s0;
      data[top] := Fix(1);
      data[top + 1] := Fix(ip + 1);
      data[top + 2] := self;
      data[top + 3] := Fix(fp);
      assert data[..top] == s0;
      SavedStack(data[..top + 4], s0);
    }

    /** Replace the word on top by `w`, and push `proc`. */
    method PutBelow(w: Word, proc: Word)
      requires Valid() && 1 <= top < data.Length
      modifies this`top, data
      ensures Valid() && data[..top] == old(data[..top])[..old(top) - 1] + [w] + [proc]
    {
      ghost var s0 := data[..top];
      data[top - 1] := w;
      data[top] := proc;
      top := top + 1;
      assert data[..top] == s0[..top - 2] + [w] + [proc];
    }

    /** Bring back the saved stack, with the value thrown in place of its frame. */
    method Resume()
      requires Valid() && self.Proc? && StepResume(Now()).Next?
      modifies this, data
      ensures Valid() && (data == old(data) || fresh(data))
      ensures Next(Now()) == old(StepResume(Now()))
    {
      var v := data[fp - 1];
      var saved := heap[heap[self.vars.addr].elems[0].addr].elems;
      Restore(saved);
      fp, self, ip := Int(data[top - 1]), data[top - 2], Int(data[top - 3]);
      top := top - 4;
      data[top - 1] := v;
      assert data[..top] == saved[..|saved| - 5] + [v];
    }

    method Restore(saved: seq<Word>)
      requires Valid()
      modifies this`top, this`data, data
      ensures Valid() && (data == old(data) || fresh(data)) && data[..top] == saved
    {
      if data.Length < |saved| {
        data := new Word[|saved|](_ => Fix(0));
      }
      var to := data;
      var k := 0;
      while k < |saved|
        invariant data == to && |saved| <= data.Length && 0 <= k <= |saved| && data[..k] == saved[..k]
        modifies data
      {
        data[k] := saved[k];
        k := k + 1;
      }
      top := |saved|;
    }

    method FieldOp(op: Op) returns (status: Status)
      requires Valid() && self.Proc? && (op.CAR? || op.CDR?) && !StepData(Now(), op).Stuck?
      modifies this, data
      ensures Valid() && data == old(data)
      ensures Agrees(old(StepData(Now(), op)), status, Now())
    {
      var w := data[top - 1];
      if !w.Pair? {
        return Failed;
      }
      Replace(1, if op.CAR? then heap[w.addr].car else heap[w.addr].cdr);
      ip := ip + 1;
      status := Running;
    }

    method Cons()
      requires Valid() && self.Proc? && StepData(Now(), CONS).Next?
      modifies this, data
      ensures Valid() && data == old(data) && Next(Now()) == old(StepData(Now(), CONS))
    {
      var h := |heap|;
      heap := heap + [PairObj(data[top - 1], data[top - 2])];
      Replace(2, Pair(h));
      ip := ip + 1;
    }

    method SetField(op: Op) returns (status: Status)
      requires Valid() && self.Proc? && (op.SET_CAR? || op.SET_CDR?) && !StepData(Now(), op).Stuck?
      modifies this, data
      ensures Valid() && data == old(data)
      ensures Agrees(old(StepData(Now(), op)), status, Now())
    {
      var w := data[top - 1];
      if !w.Pair? {
        return Failed;
      }
      if op.SET_CAR? {
        heap := heap[w.addr := PairObj(data[top - 2], heap[w.addr].cdr)];
      } else {
        heap := heap[w.addr := PairObj(heap[w.addr].car, data[top - 2])];
      }
      Drop(2);
      ip := ip + 1;
      status := Running;
    }

    method NullP()
      requires Valid() && self.Proc? && StepData(Now(), NULLP).Next?
      modifies this, data
      ensures Valid() && data == old(data) && Next(Now()) == old(StepData(Now(), NULLP))
    {
      Replace(1, Word.Const(Bool(data[top - 1] == Word.Const(Null))));
      ip := ip + 1;
    }

    method VectorOp(op: Op) returns (status: Status)
      requires Valid() && self.Proc? && (op.MAKE_VECTOR? || op.VECTOR_SET?)
      requires !StepData(Now(), op).Stuck?
      modifies this, data
      ensures Valid() && data == old(data)
      ensures Agrees(old(StepData(Now(), op)), status, Now())
    {
      var w := data[top - 1];
      status := Running;
      if op.MAKE_VECTOR? {
        if !w.Const? || !w.c.Num? || w.c.n < 0 {
          return Failed;
        }
        var elem := data[top - 2];
        if w.c.n == 0 {
          Replace(2, EmptyVector);
        } else {
          heap := heap + [VecObj(seq(w.c.n, _ => elem))];
          Replace(2, Vector(|heap| - 1));
        }
      } else {
        if !(w.Vector? && w.addr < |heap| && heap[w.addr].VecObj?) {
          return Failed;
        }
        var elems, k := heap[w.addr].elems, Int(data[top - 2]);
        if !(0 <= k < |elems|) {
          return Failed;
        }
        heap := heap[w.addr := VecObj(elems[k := data[top - 3]])];
        Drop(3);
      }
      ip := ip + 1;
    }

    method MakeProcedure()
      requires Valid() && self.Proc? && StepData(Now(), MAKE_PROCEDURE).Next?
      modifies this, data
      ensures Valid() && data == old(data)
      ensures Next(Now()) == old(StepData(Now(), MAKE_PROCEDURE))
    {
      var flags, len, bc := WordAt(self.code, ip + 1).value.i, WordAt(self.code, ip + 1 + WORD).value.i, WordAt(self.code, ip + 1 + 2 * WORD).value.code;
      Replace(1, Proc(len, flags % 2 == 1, bc, data[top - 1]));
      ip := ip + 1 + 3 * WORD;
    }

    method ArithOp(op: Op) returns (status: Status)
      requires Valid() && self.Proc? && (IsArith(op) || op.AND?) && !StepData(Now(), op).Stuck?
      modifies this, data
      ensures Valid() && data == old(data)
      ensures Agrees(old(StepData(Now(), op)), status, Now())
    {
      status := Running;
      if op.AND? {
        Replace(2, Word.Const(Bool(!IsFalse(data[top - 1]) && !IsFalse(data[top - 2]))));
      } else {
        var r := ArithWord(op, data[top - 1], data[top - 2]);
        if r.None? {
          return Failed;
        }
        Replace(2, r.value);
      }
      ip := ip + 1;
    }

    method DataOp(op: Op) returns (status: Status)
      requires Valid() && self.Proc? && !StepData(Now(), op).Stuck?
      requires !(op.CALLCC? || op.RESUMECC? || op.DONE? || op.RET?)
      modifies this, data
      ensures Valid() && data == old(data)
      ensures Agrees(old(StepData(Now(), op)), status, Now())
    {
      hide ArithWord;
      status := Running;
      if op.CONS? {
        Cons();
      } else if op.NULLP? {
        NullP();
      } else if op.MAKE_PROCEDURE? {
        MakeProcedure();
      } else if op.SET_CAR? || op.SET_CDR? {
        status := SetField(op);
      } else if op.CAR? || op.CDR? {
        status := FieldOp(op);
      } else if op.MAKE_VECTOR? || op.VECTOR_SET? {
        status := VectorOp(op);
      } else {
        status := ArithOp(op);
      }
    }

    /** One turn of the interpreter loop. */
    method Turn() returns (status: Status)
      requires Valid() && !Step(Now()).Stuck?
      modifies this, data
      ensures Valid() && (data == old(data) || fresh(data))
      ensures Agrees(old(Step(Now())), status, Now())
    {
      hide StepStack;
      hide StepJump;
      hide StepCall;
      hide StepReturn;
      hide StepCallCC;
      hide StepResume;
      hide StepData;
      var op := self.code[ip].op;
      NeverRaises(Now(), op);
      status := Running;
      match op
      case PUSH | DROP | STACK_REF | LOCAL_REF | LOCAL_SET | CLOSURE_REF => StackOp(op);
      case JUMP => Jump();
      case JUMP_UNLESS => JumpUnless();
      case CALL => status := Call();
      case TAIL_CALL => status := TailCall();
      case RET => Return();
      case DONE => status := Done(data[top - 1]);
      case CALLCC => status := CallCC();
      case RESUMECC => Resume();
      case _ => status := DataOp(op);
    }

    /** The interpreter loop, for at most `n` turns. */
    method Execute(n: nat) returns (status: Status)
      requires Valid() && forall m: nat :: m <= n ==> !Run(Now(), m).Stuck?
      modifies this, data
      ensures Valid() && Agrees(old(Run(Now(), n)), status, Now())
    {
      hide Step;
      ghost var s, d := Now(), data;
      var k := 0;
      status := Running;
      while k < n && status.Running?
        invariant 0 <= k <= n && Valid() && (data == d || fresh(data))
        invariant Agrees(Run(s, k), status, Now()) && !Run(s, k).Stuck?
        invariant !status.Running? ==> Run(s, n) == Run(s, k)
      {
        RunCompose(s, k, 1);
        RunOnce(Now());
        status := Turn();
        k := k + 1;
        RunCompose(s, k, n - k);
        assert !Run(s, k).Stuck?;
      }
    }
  }

  lemma OpenedUp(d: seq<Word>, d0: seq<Word>, n: nat, w: Word)
    requires |d| == |d0| + 1 && |d0| >= n && d[|d0| - n] == w
    requires forall p :: 0 <= p < |d0| - n ==> d[p] == d0[p]
    requires forall p :: |d0| - n < p <= |d0| ==> d[p] == d0[p - 1]
    ensures d == d0[..|d0| - n] + [w] + d0[|d0| - n..]
  {
  }

  lemma LastConsed(heap: Heap, args: seq<Word>)
    requires args != []
    ensures ConsList(heap, args[|args| - 1..]) == (heap + [PairObj(args[|args| - 1], Word.Const(Null))], Pair(|heap|))
  {
    assert args[|args| - 1..][1..] == [];
  }

  lemma NextConsed(heap: Heap, args: seq<Word>, k: nat)
    requires k < |args|
    ensures var (h, tl) := ConsList(heap, args[k + 1..]);
            ConsList(heap, args[k..]) == (h + [PairObj(args[k], tl)], Pair(|h|))
  {
    assert args[k..][1..] == args[k + 1..];
  }

  lemma NoneConsed(heap: Heap, args: seq<Word>)
    ensures ConsList(heap, args[|args|..]) == (heap, Word.Const(Null))
  {
  }

  lemma FrameOnTop(d: seq<Word>, s0: seq<Word>, base: seq<Word>, r: seq<Word>, proc: Word)
    requires s0 == base + r + [proc] && |d| == |s0| + 3 && d[..|s0| - 1] == s0[..|s0| - 1]
    ensures d == base + r + [d[|d| - 4], d[|d| - 3], d[|d| - 2], d[|d| - 1]]
  {
    assert s0[..|s0| - 1] == base + r;
    assert d == d[..|s0| - 1] + d[|s0| - 1..];
  }

  /** The list in the slot of the last argument, and the named arguments closed up to it. */
  lemma RestClosed(s: seq<Word>, w: Word, i: nat, nargs: nat)
    requires nargs < i < |s|
    ensures var s1 := s[|s| - 1 - i := w];
            s1[..|s| - i] + s1[|s| - 1 - nargs..] == s[..|s| - 1 - i] + [w] + s[|s| - 1 - nargs..]
  {
    var s1 := s[|s| - 1 - i := w];
    assert s1[..|s| - i] == s[..|s| - 1 - i] + [w];
    assert s1[|s| - 1 - nargs..] == s[|s| - 1 - nargs..];
  }

  /** The last of `s`, taken from its reverse. */
  lemma ReverseParts(s: seq<Word>, n: nat)
    requires n <= |s|
    ensures Reverse(Reverse(s)[..n]) == s[|s| - n..]
  {
    hide Reverse;
    var back := Reverse(Reverse(s)[..n]);
    forall k | 0 <= k < n
      ensures back[k] == s[|s| - n..][k]
    {
      ReversePart(s, n, k);
    }
  }

  lemma ReversePart(s: seq<Word>, n: nat, k: nat)
    requires k < n <= |s|
    ensures Reverse(Reverse(s)[..n])[k] == s[|s| - n + k]
  {
    hide Reverse;
    var q := Reverse(s)[..n];
    ReverseItem(q, k);
    ReverseItem(s, n - 1 - k);
  }

  lemma ReverseSnoc(s: seq<Word>, w: Word)
    ensures Reverse(s + [w]) == [w] + Reverse(s)
  {
    hide Reverse;
  }

  /** Below the procedure lie the arguments, the first one on top. */
  lemma StackParts(s: seq<Word>, i: nat)
    requires i < |s|
    ensures s == s[..|s| - 1 - i] + Reverse(Reverse(s[|s| - 1 - i .. |s| - 1])) + [s[|s| - 1]]
  {
    hide Reverse;
    var slice := s[|s| - 1 - i .. |s| - 1];
    ReverseTwice(slice);
    assert s == s[..|s| - 1 - i] + slice + [s[|s| - 1]];
  }

  lemma RestInPlace(s: seq<Word>, i: nat, n: nat, w: Word)
    requires n <= i < |s|
    ensures var args := Reverse(s[|s| - 1 - i .. |s| - 1]);
            s[..|s| - 1 - i] + [w] + s[|s| - 1 - n..] == s[..|s| - 1 - i] + Reverse(args[..n] + [w]) + [s[|s| - 1]]
  {
    hide Reverse;
    var slice := s[|s| - 1 - i .. |s| - 1];
    ReverseParts(slice, n);
    ReverseSnoc(Reverse(slice)[..n], w);
    assert s[|s| - 1 - n..] == slice[i - n..] + [s[|s| - 1]];
    Reassociate(s[..|s| - 1 - i], [w], slice[i - n..], [s[|s| - 1]]);
  }

  lemma Reassociate(a: seq<Word>, b: seq<Word>, c: seq<Word>, d: seq<Word>)
    ensures a + b + (c + d) == a + (b + c) + d
  {
  }

  /** On top of what was below them lie the arguments as the procedure takes them, and the procedure. */
  ghost predicate Delivered(s0: seq<Word>, h0: Heap, i: nat, s1: seq<Word>, h1: Heap, n: nat)
    requires i < |s0| && Accepts(s0[|s0| - 1], i)
  {
    var proc, args := s0[|s0| - 1], Reverse(s0[|s0| - 1 - i .. |s0| - 1]);
    var actuals := Received(args, proc, h0);
    && s1 == s0[..|s0| - 1 - i] + Reverse(actuals) + [proc] && n == |actuals|
    && h1 == if proc.variadic then ConsList(h0, args[proc.nargs..]).0 else h0
  }

  /** The outcome of calling what is on top of the stack on the `i` words below it. */
  ghost function CallOn(s: State, i: nat, retIp: int): Outcome
    requires i < |s.stack|
  {
    var top := |s.stack|;
    EnterCall(s.stack[..top - 1 - i], Reverse(s.stack[top - 1 - i .. top - 1]), s.stack[top - 1], retIp, s.self, s.fp, s.heap)
  }

  lemma CallOnAccepted(s: State, i: nat, retIp: int)
    requires i < |s.stack|
    ensures !Accepts(s.stack[|s.stack| - 1], i) ==> CallOn(s, i, retIp) == Raised
  {
    hide Reverse;
    hide ConsList;
  }

  lemma DeliveredParts(s: State, i: nat, retIp: int, s1: seq<Word>, h1: Heap, n: nat) returns (base: seq<Word>, actuals: seq<Word>)
    requires i < |s.stack| && Accepts(s.stack[|s.stack| - 1], i) && Delivered(s.stack, s.heap, i, s1, h1, n)
    ensures s1 == base + Reverse(actuals) + [s.stack[|s.stack| - 1]] && n == |actuals|
    ensures CallOn(s, i, retIp) == Next(State(base + Reverse(actuals) + [Fix(n), Fix(retIp), s.self, Fix(s.fp)], |base| + n, 0,
                                              s.stack[|s.stack| - 1], h1))
  {
    hide Reverse;
    hide ConsList;
    hide EnterCall;
    hide Received;
    var top := |s.stack|;
    var args, proc := Reverse(s.stack[top - 1 - i .. top - 1]), s.stack[top - 1];
    base, actuals := s.stack[..top - 1 - i], Received(args, proc, s.heap);
    CallShape(base, args, proc, Exit(base, retIp, s.self, s.fp), s.heap);
  }

  lemma DeliveredRest(s0: seq<Word>, h0: Heap, i: nat, s1: seq<Word>, h1: Heap)
    requires i < |s0| && Accepts(s0[|s0| - 1], i) && s0[|s0| - 1].variadic
    requires var nargs := s0[|s0| - 1].nargs;
             var (h, w) := ConsList(h0, Reverse(s0[|s0| - 1 - i .. |s0| - 1])[nargs..]);
             h1 == h && s1 == s0[..|s0| - 1 - i] + [w] + s0[|s0| - 1 - nargs..]
    ensures Delivered(s0, h0, i, s1, h1, s0[|s0| - 1].nargs + 1)
  {
    hide ConsList;
    hide Reverse;
    var nargs, args := s0[|s0| - 1].nargs, Reverse(s0[|s0| - 1 - i .. |s0| - 1]);
    RestInPlace(s0, i, nargs, ConsList(h0, args[nargs..]).1);
  }

  lemma DeliveredPlain(s0: seq<Word>, h0: Heap, i: nat)
    requires i < |s0| && Accepts(s0[|s0| - 1], i) && !s0[|s0| - 1].variadic
    ensures Delivered(s0, h0, i, s0, h0, i)
  {
    hide Reverse;
    StackParts(s0, i);
  }

  lemma SameSlices(data: array<Word>, top: nat, i: nat)
    requires i < top <= data.Length
    ensures data[..top][..top - 1 - i] == data[..top - 1 - i] && data[..top][top - 1] == data[top - 1]
    ensures data[..top][top - 1 - i .. top - 1] == data[top - 1 - i .. top - 1]
  {
  }

  lemma CopyStep(d: seq<Word>, d0: seq<Word>, to: nat, k: nat, gap: nat)
    requires to + k + gap < |d| == |d0| && d[to + k..] == d0[to + k..]
    ensures d[to + k + gap] == d0[to + k + gap] && d[to + k + 1..] == d0[to + k + 1..]
    ensures d0[to + gap .. to + gap + k + 1] == d0[to + gap .. to + gap + k] + [d0[to + k + gap]]
  {
    assert d[to + k..][gap] == d0[to + k..][gap];
    assert d[to + k..][1..] == d[to + k + 1..] && d0[to + k..][1..] == d0[to + k + 1..];
  }

  /** After the move a tail call is a call from the caller. */
  lemma TailCallOn(s: State, i: nat, t: State, retIp: int)
    requires s.self.Proc? && !StepCall(s, TAIL_CALL).Stuck? && Operand0(s) == Some(I(i)) && retIp == Int(s.stack[s.fp + 1])
    requires t.stack == s.stack[..s.fp - Int(s.stack[s.fp])] + s.stack[|s.stack| - 1 - i .. |s.stack| - 1] + [s.stack[|s.stack| - 1]]
    requires t.self == s.stack[s.fp + 2] && t.fp == Int(s.stack[s.fp + 3]) && t.heap == s.heap
    ensures CallOn(t, i, retIp) == StepCall(s, TAIL_CALL)
  {
    hide EnterCall;
    hide Reverse;
    var base, slice := s.stack[..s.fp - Int(s.stack[s.fp])], s.stack[|s.stack| - 1 - i .. |s.stack| - 1];
    assert t.stack[..|t.stack| - 1 - i] == base && t.stack[|t.stack| - 1 - i .. |t.stack| - 1] == slice;
  }

  lemma SavedStack(d: seq<Word>, s: seq<Word>)
    requires |d| == |s| + 4 && d[..|s|] == s
    ensures d == s + [d[|d| - 4], d[|d| - 3], d[|d| - 2], d[|d| - 1]]
  {
  }

  lemma CaptureOn(s: State, t: State)
    requires |s.stack| >= 1 && t.self == s.self && t.fp == s.fp
    requires t.stack == s.stack[..|s.stack| - 1] + [Continuation(|s.heap|)] + [s.stack[|s.stack| - 1]]
    requires t.heap == s.heap + [VecObj(s.stack + [Fix(1), Fix(s.ip + 1), s.self, Fix(s.fp)])] + [VecObj([Vector(|s.heap|)])]
    ensures CallOn(t, 1, s.ip + 1) == StepCallCC(s)
  {
    hide EnterCall;
    assert t.stack[..|t.stack| - 2] == s.stack[..|s.stack| - 1];
    assert Reverse(t.stack[|t.stack| - 2 .. |t.stack| - 1]) == [Continuation(|s.heap|)];
  }

  lemma RunOnce(s: State)
    ensures Run(s, 1) == Step(s)
  {
    hide Step;
  }

  /** These instructions do not raise. */
  lemma NeverRaises(s: State, op: Op)
    requires s.self.Proc?
    ensures !StepStack(s, op).Raised? && !StepStack(s, op).Halt? && !StepJump(s, op).Raised? && !StepJump(s, op).Halt?
    ensures !StepReturn(s).Raised? && !StepReturn(s).Halt? && !StepResume(s).Raised? && !StepResume(s).Halt?
  {
  }
}
