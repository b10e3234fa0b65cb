/**
  Building a closure: a fresh vector is filled, slot by slot, with the slots of
  the captured variables, so that a box is shared and never copied.
*/
module Closures {
  import opened Options
  import opened Scheme
  import opened Bytecode
  import opened Codegen
  import opened Relation
  import opened Steps
  import Entry
  import Prims

  /** Code positions of one capture. */
  lemma CaptureCode(code: Code, ip: int, fv: seq<Var>, k: nat, lam: Lambda, sv: set<Var>)
    requires k < |fv| && CodeAt(code, ip, GenCaptures(fv, k, lam, sv))
    ensures CodeAt(code, ip, GenRef(fv[k], lam, sv, false))
    ensures CodeAt(code, ip + 1 + WORD, Push(Fix(k)))
    ensures CodeAt(code, ip + 2 + 2 * WORD, WithWord(STACK_REF, I(3)))
    ensures CodeAt(code, ip + 3 + 3 * WORD, Plain(VECTOR_SET))
    ensures CodeAt(code, ip + 4 + 3 * WORD, GenCaptures(fv, k + 1, lam, sv))
    ensures |GenCaptures(fv, k, lam, sv)| == 4 + 3 * WORD + |GenCaptures(fv, k + 1, lam, sv)|
  {
    var c := GenRef(fv[k], lam, sv, false);
    SlotCode(fv[k], lam, sv);
    hide GenRef;
    var one := c + Push(Fix(k)) + WithWord(STACK_REF, I(3)) + Plain(VECTOR_SET);
    assert GenCaptures(fv, k, lam, sv) == one + GenCaptures(fv, k + 1, lam, sv);
    CodeSplit(code, ip, one, GenCaptures(fv, k + 1, lam, sv));
    CodeSplit4(code, ip, c, Push(Fix(k)), WithWord(STACK_REF, I(3)), Plain(VECTOR_SET));
  }

  /** One capture writes slot k of the vector on top of the stack. */
  lemma DoCapture(x: Var, k: nat, lam: Lambda, sv: set<Var>, env: Env, rep: Rep,
                  below: seq<Word>, h0: Heap, elems: seq<Word>, s: State)
    requires FrameRel(lam, sv, env, rep, s) && InScope(x, lam) && k < |elems|
    requires s.stack == below + [Vector(|h0|)] && s.heap == h0 + [VecObj(elems)]
    requires CodeAt(s.self.code, s.ip, GenRef(x, lam, sv, false))
    requires CodeAt(s.self.code, s.ip + 1 + WORD, Push(Fix(k)))
    requires CodeAt(s.self.code, s.ip + 2 + 2 * WORD, WithWord(STACK_REF, I(3)))
    requires CodeAt(s.self.code, s.ip + 3 + 3 * WORD, Plain(VECTOR_SET))
    ensures x in env && env[x] < |rep| && VarKind(rep[env[x]], x in sv)
    ensures Run(s, 4) == Next(After(s, s.stack, 4 + 3 * WORD, h0 + [VecObj(elems[k := SlotWord(rep[env[x]])])]))
  {
    hide Step;
    SlotCode(x, lam, sv);
    DoSlot(x, lam, sv, env, rep, s);
    hide GenRef;
    hide FrameRel;
    var w := SlotWord(rep[env[x]]);
    var s1 := After(s, s.stack + [w], 1 + WORD, s.heap);
    DoPush(s1, Fix(k));
    var s2 := After(s1, s1.stack + [Fix(k)], 1 + WORD, s.heap);
    DoStackRef(s2, 3);
    assert s2.stack[|s2.stack| - 3] == Vector(|h0|);
    var s3 := After(s2, s2.stack + [Vector(|h0|)], 1 + WORD, s.heap);
    assert s3.stack == s.stack + [w] + [Fix(k)] + [Vector(|h0|)];
    DoVectorSet(s3, s.stack, w, k, |h0|);
    assert s.heap[|h0| := VecObj(elems[k := w])] == h0 + [VecObj(elems[k := w])];
    Chain2(s, 1, s1, 1);
    Chain2(s, 2, s2, 1);
    Chain2(s, 3, s3, 1);
  }

  lemma {:induction false} DoCaptures(fv: seq<Var>, k: nat, lam: Lambda, sv: set<Var>, env: Env, rep: Rep,
                                      s0: State, elems: seq<Word>, s: State)
    returns (n: nat, elems1: seq<Word>)
    requires FrameRel(lam, sv, env, rep, s0) && k <= |fv| == |elems|
    requires forall x :: x in fv ==> InScope(x, lam)
    requires s.stack == s0.stack + [Vector(|s0.heap|)] && s.heap == s0.heap + [VecObj(elems)]
    requires s.fp == s0.fp && s.self == s0.self && s.self.Proc?
    requires CodeAt(s.self.code, s.ip, GenCaptures(fv, k, lam, sv))
    requires forall j :: 0 <= j < k ==> SlotRel(rep, sv, env, fv[j], elems[j])
    ensures |elems1| == |fv| && forall j :: 0 <= j < |fv| ==> SlotRel(rep, sv, env, fv[j], elems1[j])
    ensures Run(s, n) == Next(After(s, s.stack, |GenCaptures(fv, k, lam, sv)|, s0.heap + [VecObj(elems1)]))
    decreases |fv| - k
  {
    hide Step;
    hide FrameRel;
    hide GenRef;
    if k == |fv| {
      n, elems1 := 0, elems;
    } else {
      CaptureCode(s.self.code, s.ip, fv, k, lam, sv);
      Entry.GrowsAppend(rep, s0.heap, [VecObj(elems)]);
      GrowsFrame(lam, sv, env, rep, s0, rep, s);
      DoCapture(fv[k], k, lam, sv, env, rep, s0.stack, s0.heap, elems, s);
      var elems2 := elems[k := SlotWord(rep[env[fv[k]]])];
      var t := After(s, s.stack, 4 + 3 * WORD, s0.heap + [VecObj(elems2)]);
      var m;
      m, elems1 := DoCaptures(fv, k + 1, lam, sv, env, rep, s0, elems2, t);
      Chain2(s, 4, t, m);
      n := 4 + m;
    }
  }

  /** The closure code without captures and with them. */
  lemma LambdaCode(l: Lambda, lam: Lambda, sv: set<Var>)
    ensures l.fv == [] ==> GenLambda(l, lam, sv) == Push(Proc(|l.params|, l.rest.Some?, GenBody(l, sv), EmptyVector))
    ensures l.fv != [] ==>
              GenLambda(l, lam, sv) == Push(Const(Void)) + Push(Fix(|l.fv|)) + Plain(MAKE_VECTOR)
                                       + (GenCaptures(l.fv, 0, lam, sv) + ProcedureCode(l, sv))
  {
    hide GenCaptures;
    hide GenBody;
    if l.fv != [] {
      var a := Push(Const(Void)) + Push(Fix(|l.fv|)) + Plain(MAKE_VECTOR);
      var b := GenCaptures(l.fv, 0, lam, sv);
      AppendAssoc(a, b, l, sv);
    }
  }

  lemma AppendAssoc(a: Code, b: Code, l: Lambda, sv: set<Var>)
    ensures a + b + [OpC(MAKE_PROCEDURE), WordC(I(if l.rest.Some? then 1 else 0))] + Pads
            + [WordC(I(|l.params|))] + Pads + [WordC(B(GenBody(l, sv)))] + Pads
            == a + (b + ProcedureCode(l, sv))
  {
    hide GenBody;
  }

  /** Evaluating a lambda expression leaves a procedure that represents the closure. */
  lemma DoLambda(l: Lambda, lam: Lambda, sv: set<Var>, env: Env, rep: Rep, s: State)
    returns (n: nat, w: Word, heap: Heap)
    requires FrameRel(lam, sv, env, rep, s) && Entry.BoxesIn(rep, s.heap)
    requires WfLambda(l, sv) && forall x :: x in l.fv ==> InScope(x, lam)
    requires CodeAt(s.self.code, s.ip, GenLambda(l, lam, sv))
    ensures Prims.Computes(rep, sv, s, s.stack, |GenLambda(l, lam, sv)|, Some(Clo(l, env)), n, w, heap)
  {
    hide Step;
    LambdaCode(l, lam, sv);
    if l.fv == [] {
      hide GenBody;
      w := Proc(|l.params|, l.rest.Some?, GenBody(l, sv), EmptyVector);
      n, heap := 1, s.heap;
      DoPush(s, w);
      Prims.GrowsRefl(rep, s.heap);
    } else {
      n, w, heap := DoCapturing(l, lam, sv, env, rep, s);
    }
  }

  lemma DoCapturing(l: Lambda, lam: Lambda, sv: set<Var>, env: Env, rep: Rep, s: State)
    returns (n: nat, w: Word, heap: Heap)
    requires FrameRel(lam, sv, env, rep, s) && Entry.BoxesIn(rep, s.heap) && l.fv != []
    requires WfLambda(l, sv) && forall x :: x in l.fv ==> InScope(x, lam)
    requires CodeAt(s.self.code, s.ip, GenLambda(l, lam, sv))
    ensures Prims.Computes(rep, sv, s, s.stack, |GenLambda(l, lam, sv)|, Some(Clo(l, env)), n, w, heap)
  {
      LambdaCode(l, lam, sv);
      hide Step;
      hide GenLambda;
      hide GenBody;
      hide WfLambda;
      var open := Push(Const(Void)) + Push(Fix(|l.fv|)) + Plain(MAKE_VECTOR);
      var caps := GenCaptures(l.fv, 0, lam, sv);
      CodeSplit(s.self.code, s.ip, open, caps + ProcedureCode(l, sv));
      CodeSplit(s.self.code, s.ip + |open|, caps, ProcedureCode(l, sv));
      var s1 := DoNewVector(l, s);
      hide GenCaptures;
      var m, elems := DoCaptures(l.fv, 0, lam, sv, env, rep, s, seq(|l.fv|, _ => Const(Void)), s1);
      heap := s.heap + [VecObj(elems)];
      var s2 := After(s1, s1.stack, |caps|, heap);
      Chain2(s, 3, s1, m);
      DoMakeProcedure(s2, s.stack, Vector(|s.heap|), l, sv);
      Chain2(s, 3 + m, s2, 1);
      n := 3 + m + 1;
      w := Proc(|l.params|, l.rest.Some?, GenBody(l, sv), Vector(|s.heap|));
      Entry.GrowsAppend(rep, s.heap, [VecObj(elems)]);
      hide FrameRel;
      FilledVector(rep, s.heap, sv, env, l.fv, elems);
      assert |open| == 3 + 2 * WORD;
  }

  lemma FilledVector(rep: Rep, heap: Heap, sv: set<Var>, env: Env, fv: seq<Var>, elems: seq<Word>)
    requires Entry.BoxesIn(rep, heap) && |elems| == |fv|
    requires forall j :: 0 <= j < |fv| ==> SlotRel(rep, sv, env, fv[j], elems[j])
    ensures VectorRel(rep, heap + [VecObj(elems)], sv, env, fv, Vector(|heap|))
    ensures (heap + [VecObj(elems)])[..|heap|] == heap
  {
    assert (heap + [VecObj(elems)])[|heap|] == VecObj(elems);
  }

  lemma DoNewVector(l: Lambda, s: State) returns (t: State)
    requires l.fv != [] && s.self.Proc?
    requires CodeAt(s.self.code, s.ip, Push(Const(Void)) + Push(Fix(|l.fv|)) + Plain(MAKE_VECTOR))
    ensures t == After(s, s.stack + [Vector(|s.heap|)], 3 + 2 * WORD,
                       s.heap + [VecObj(seq(|l.fv|, _ => Const(Void)))])
    ensures Run(s, 3) == Next(t)
  {
    hide Step;
    CodeSplit3(s.self.code, s.ip, Push(Const(Void)), Push(Fix(|l.fv|)), Plain(MAKE_VECTOR));
    DoPush(s, Const(Void));
    var s1 := After(s, s.stack + [Const(Void)], 1 + WORD, s.heap);
    DoPush(s1, Fix(|l.fv|));
    var s2 := After(s1, s1.stack + [Fix(|l.fv|)], 1 + WORD, s.heap);
    DoMakeVector(s2, s.stack, |l.fv|, Const(Void));
    t := After(s2, s.stack + [Vector(|s.heap|)], 1, s.heap + [VecObj(seq(|l.fv|, _ => Const(Void)))]);
    Chain2(s, 1, s1, 1);
    Chain2(s, 2, s2, 1);
  }
}
