/**
  Compiled procedures and captured continuations: a call of a compiled
  procedure returns to the exit it was made with, and leaves every captured
  stack as it was.
*/
module Continuations {
  import opened Scheme
  import opened Bytecode
  import opened Relation
  import Compiler
  import Simulate
  import opened Frames

  /**
    Whatever a compiled procedure calls, in tail position or not, its call
    ends at its exit with the word of its value on top.
  */
  lemma CompiledReturns(f: Val, vs: seq<Val>, st: Store, sv: set<Var>, rep: Rep, heap: Heap, fuel: nat,
                        ws: seq<Word>, fw: Word, x: Exit) returns (q: Compiler.Sim)
    requires StoreRel(rep, heap, sv, st) && ValRel(rep, heap, sv, f, fw) && ValsRel(rep, heap, sv, vs, ws)
    requires Apply(f, vs, st, fuel).Ok?
    ensures var o := EnterCall(x.base, ws, fw, x.ip, x.self, x.fp, heap);
            o.Next? && ReturnsTo(o.s, x) && Run(o.s, q.n) == Next(Resumed(x, q.w, q.t.heap))
    ensures StoreRel(q.rep, q.t.heap, sv, Apply(f, vs, st, fuel).st) && Grows(rep, heap, q.rep, q.t.heap)
    ensures ValRel(q.rep, q.t.heap, sv, Apply(f, vs, st, fuel).value, q.w)
  {
    hide Step;
    hide EnterCall;
    hide Apply;
    hide ReturnsTo;
    q := Simulate.SimApply(f, vs, st, sv, rep, heap, fuel, x.base, ws, fw, x.ip, x.self, x.fp);
    CallEnters(x.base, ws, fw, x, heap);
  }

  /** The vectors of a captured stack are not among the boxes of assigned variables. */
  lemma SavedAreNotBoxes(rep: Rep, heap: Heap, sv: set<Var>, st: Store, s: State)
    requires StoreRel(rep, heap, sv, st) && |s.stack| >= 1 && Keeps(heap, s)
    ensures !IsCell(rep, |s.heap|) && !IsCell(rep, |s.heap| + 1)
  {
    forall i | 0 <= i < |rep| && !rep[i].Direct?
      ensures heap[rep[i].addr].PairObj?
    {
    }
  }

  /** A compiled call keeps every captured stack. */
  lemma CompiledKeeps(f: Val, vs: seq<Val>, st: Store, sv: set<Var>, rep: Rep, heap: Heap, fuel: nat,
                      ws: seq<Word>, fw: Word, x: Exit, s: State) returns (q: Compiler.Sim)
    requires StoreRel(rep, heap, sv, st) && ValRel(rep, heap, sv, f, fw) && ValsRel(rep, heap, sv, vs, ws)
    requires Apply(f, vs, st, fuel).Ok? && |s.stack| >= 1 && Keeps(heap, s)
    ensures var o := EnterCall(x.base, ws, fw, x.ip, x.self, x.fp, heap);
            o.Next? && Run(o.s, q.n) == Next(Resumed(x, q.w, q.t.heap))
    ensures Keeps(q.t.heap, s)
  {
    hide Step;
    hide EnterCall;
    hide Apply;
    hide ReturnsTo;
    hide ValRel;
    q := CompiledReturns(f, vs, st, sv, rep, heap, fuel, ws, fw, x);
    SavedAreNotBoxes(rep, heap, sv, st, s);
  }

  /**
    After a compiled call, calling the continuation captured at `s` on a word
    leads where returning that word from the receiver led.
  */
  lemma ThrowAfterCompiled(f: Val, vs: seq<Val>, st: Store, sv: set<Var>, rep: Rep, heap: Heap, fuel: nat,
                           ws: seq<Word>, fw: Word, x: Exit, s: State, v: Word) returns (q: Compiler.Sim)
    requires StoreRel(rep, heap, sv, st) && ValRel(rep, heap, sv, f, fw) && ValsRel(rep, heap, sv, vs, ws)
    requires Apply(f, vs, st, fuel).Ok? && |s.stack| >= 1 && Keeps(heap, s)
    ensures var o := EnterCall(x.base, ws, fw, x.ip, x.self, x.fp, heap);
            o.Next? && Run(o.s, q.n) == Next(Resumed(x, q.w, q.t.heap))
    ensures var t := Resumed(x, q.w, q.t.heap);
            var o := EnterCall(t.stack, [v], Continuation(|s.heap|), t.ip, t.self, t.fp, t.heap);
            o.Next? && Step(o.s) == Next(Resumed(CaptureExit(s), v, t.heap))
  {
    hide Step;
    hide EnterCall;
    hide Apply;
    hide ValRel;
    q := CompiledKeeps(f, vs, st, sv, rep, heap, fuel, ws, fw, x, s);
    var t := Resumed(x, q.w, q.t.heap);
    CallThrows(s, t.stack, v, t.ip, t.self, t.fp, t.heap);
  }
}
