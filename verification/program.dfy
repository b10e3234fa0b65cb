/**
  Whole programs: the compiled program and the evaluator agree on how a
  program ends, on the value it ends with, and on whether it ends at all.
*/
module Program {
  import opened Options
  import opened Scheme
  import opened Bytecode
  import Codegen
  import opened Relation
  import Steps
  import Prims
  import Simulate

  /** A toplevel expression is compiled as the body of a procedure of no arguments. */
  function Top(e: Expr): Lambda {
    Lambda(0, [], None, [], [], [], e)
  }

  function TopProc(e: Expr, sv: set<Var>): Word {
    Proc(0, false, Codegen.GenBody(Top(e), sv), EmptyVector)
  }

  /** The procedure the toplevel returns to. */
  const FinalResumer: Word := Proc(0, false, [OpC(DONE), OpC(RET)], EmptyVector)

  /** The machine about to run the first instruction of the program, on an empty stack and heap. */
  function Start(e: Expr, sv: set<Var>): State {
    State([Fix(0), Fix(0), FinalResumer, Fix(-4)], 0, 0, TopProc(e, sv), [])
  }

  lemma StartEntered(e: Expr, sv: set<Var>)
    ensures EnterCall([], [], TopProc(e, sv), 0, FinalResumer, -4, []) == Next(Start(e, sv))
  {
    hide Codegen.GenBody;
    assert [] + Reverse<Word>([]) + [Fix(0), Fix(0), FinalResumer, Fix(-4)] == [Fix(0), Fix(0), FinalResumer, Fix(-4)];
  }

  ghost predicate WfProgram(e: Expr, sv: set<Var>) {
    Wf(e, Top(e), sv)
  }

  /** The evaluator's run of the program. */
  function Meaning(e: Expr, fuel: nat): Result<Val> {
    Eval(e, map[], [], fuel)
  }

  // ------------------------------------------------------------------ results

  function KindOf(w: Word): Datum {
    match w
    case Const(c) => Atom(c)
    case Pair(_) => APair
    case Proc(_, _, _, _) => AProcedure
    case _ => AVector
  }

  /** Where a path of fields leads in the heap of the machine. */
  function LookIn(heap: Heap, w: Word, path: seq<bool>): Option<Word>
    decreases |path|
  {
    if path == [] then Some(w)
    else if w.Pair? && w.addr < |heap| && heap[w.addr].PairObj? then
      LookIn(heap, if path[0] then heap[w.addr].car else heap[w.addr].cdr, path[1..])
    else None
  }

  function SeenIn(heap: Heap, w: Word, path: seq<bool>): Option<Datum> {
    match LookIn(heap, w, path) case Some(u) => Some(KindOf(u)) case None => None
  }

  predicate SharedIn(heap: Heap, w: Word, path: seq<bool>, other: seq<bool>) {
    LookIn(heap, w, path).Some? && LookIn(heap, w, path).value.Pair? && LookIn(heap, w, path) == LookIn(heap, w, other)
  }

  /** `w` in `heap` is the datum `v` of the store: every path leads to the same, and the same pairs are shared. */
  ghost predicate Shows(heap: Heap, w: Word, st: Store, v: Val) {
    && (forall path :: SeenIn(heap, w, path) == Seen(st, v, path))
    && (forall path, other :: SharedIn(heap, w, path, other) <==> Shared(st, v, path, other))
  }

  /** Following a path keeps values and words related. */
  lemma {:induction false} LookRel(rep: Rep, heap: Heap, sv: set<Var>, st: Store, v: Val, w: Word, path: seq<bool>)
    requires StoreRel(rep, heap, sv, st) && ValRel(rep, heap, sv, v, w)
    ensures Look(st, v, path).Some? <==> LookIn(heap, w, path).Some?
    ensures Look(st, v, path).Some? ==> ValRel(rep, heap, sv, Look(st, v, path).value, LookIn(heap, w, path).value)
    decreases |path|
  {
    hide StoreRel;
    hide ValRel;
    if path != [] {
      Prims.PairFields(rep, heap, sv, st, v, w);
      if IsPair(st, v) {
        var at := v.loc + if path[0] then 0 else 1;
        LookRel(rep, heap, sv, st, st[at], if path[0] then heap[w.addr].car else heap[w.addr].cdr, path[1..]);
      }
    }
  }

  lemma KindRel(rep: Rep, heap: Heap, sv: set<Var>, v: Val, w: Word)
    requires ValRel(rep, heap, sv, v, w)
    ensures KindOf(w) == Kind(v)
  {
  }

  /** Different pairs of the evaluator are different pairs of the machine. */
  lemma OnePair(rep: Rep, heap: Heap, sv: set<Var>, i: nat, j: nat, w: Word, w1: Word)
    requires FieldsApart(rep) && ValRel(rep, heap, sv, PairAt(i), w) && ValRel(rep, heap, sv, PairAt(j), w1)
    ensures i == j <==> w == w1
  {
    if i != j {
      assert !SameField(rep[if i < j then i else j], rep[if i < j then j else i]);
    }
  }

  lemma {:induction false} RelatedShows(rep: Rep, heap: Heap, sv: set<Var>, st: Store, v: Val, w: Word)
    requires StoreRel(rep, heap, sv, st) && ValRel(rep, heap, sv, v, w)
    ensures Shows(heap, w, st, v)
  {
    hide ValRel;
    forall path: seq<bool>
      ensures SeenIn(heap, w, path) == Seen(st, v, path)
    {
      LookRel(rep, heap, sv, st, v, w, path);
      if Look(st, v, path).Some? {
        KindRel(rep, heap, sv, Look(st, v, path).value, LookIn(heap, w, path).value);
      }
    }
    forall path: seq<bool>, other: seq<bool>
      ensures SharedIn(heap, w, path, other) <==> Shared(st, v, path, other)
    {
      SharedRel(rep, heap, sv, st, v, w, path, other);
    }
  }

  lemma SharedRel(rep: Rep, heap: Heap, sv: set<Var>, st: Store, v: Val, w: Word, path: seq<bool>, other: seq<bool>)
    requires StoreRel(rep, heap, sv, st) && ValRel(rep, heap, sv, v, w)
    ensures SharedIn(heap, w, path, other) <==> Shared(st, v, path, other)
  {
    hide ValRel;
    hide LocRel;
    hide Look;
    hide LookIn;
    LookRel(rep, heap, sv, st, v, w, path);
    LookRel(rep, heap, sv, st, v, w, other);
    var u, u1 := Look(st, v, path), Look(st, v, other);
    var x, x1 := LookIn(heap, w, path), LookIn(heap, w, other);
    if u.Some? && u1.Some? {
      KindRel(rep, heap, sv, u.value, x.value);
      KindRel(rep, heap, sv, u1.value, x1.value);
      if u.value.PairAt? && u1.value.PairAt? {
        OnePair(rep, heap, sv, u.value.loc, u1.value.loc, x.value, x1.value);
      }
    }
  }

  // ----------------------------------------------------------------- programs

  lemma MeaningApplies(e: Expr, fuel: nat)
    ensures Apply(Clo(Top(e), map[]), [], [], fuel + 1) == Meaning(e, fuel)
  {
    var l := Top(e);
    assert l.Names() == [];
    assert Takes(l, 0) && RestStore(l, [], []) == [];
    assert Actuals(l, [], []) == [];
    assert Extend(map[], l.Names(), l.id, 0) == map[];
    assert [] + Actuals(l, [], []) == [];
  }

  /** One run of the evaluator, mirrored. */
  lemma ProgramSimulated(e: Expr, sv: set<Var>, fuel: nat)
    returns (n: nat, w: Word, heap: Heap)
    requires WfProgram(e, sv)
    ensures Meaning(e, fuel).Ok? ==>
              Run(Start(e, sv), n) == Halt(w, heap) && Shows(heap, w, Meaning(e, fuel).st, Meaning(e, fuel).value)
    ensures Meaning(e, fuel).Err? ==> Run(Start(e, sv), n) == Raised
    ensures Meaning(e, fuel).Timeout? ==> n >= fuel && Run(Start(e, sv), n).Next?
  {
    hide Step;
    hide EnterCall;
    hide Eval;
    hide Apply;
    hide Codegen.GenBody;
    hide Start;
    hide FinalResumer;
    hide Shows;
    var l := Top(e);
    var s := Start(e, sv);
    StartEntered(e, sv);
    MeaningApplies(e, fuel);
    assert WfLambda(l, sv) by { assert l.Names() == []; }
    var rep: Rep := [];
    assert StoreRel(rep, [], sv, []);
    assert ValRel(rep, [], sv, Clo(l, map[]), TopProc(e, sv));
    var q := Simulate.SimApply(Clo(l, map[]), [], [], sv, rep, [], fuel + 1, [], [], TopProc(e, sv), 0, FinalResumer, -4);
    n, w, heap := q.n, q.w, q.t.heap;
    if Meaning(e, fuel).Ok? {
      FinishProgram(s, q.n, q.t, q.w);
      n := q.n + 1;
      RelatedShows(q.rep, heap, sv, Meaning(e, fuel).st, Meaning(e, fuel).value, w);
    }
  }

  lemma FinishProgram(s: State, n: nat, t: State, w: Word)
    requires Run(s, n) == Next(t) && t == State([] + [w], -4, 0, FinalResumer, t.heap)
    ensures Run(s, n + 1) == Halt(w, t.heap)
  {
    Steps.Chain2(s, n, t, 1);
    Steps.Run1(t);
    assert t.self.code[t.ip] == OpC(DONE);
  }

  /** Once finished, finished for every larger number of steps. */
  lemma Finished(s: State, n: nat, m: nat)
    requires !Run(s, n).Next? && m >= n
    ensures Run(s, m) == Run(s, n)
  {
    RunCompose(s, n, m - n);
  }

  /**
    The compiled program and the evaluator agree: the program halts exactly
    when evaluation ends with a value and then with that very datum, cycles and
    shared pairs included, it raises exactly when evaluation ends in an error,
    and it never gets stuck on an ill-formed operand, frame or jump.
  */
  lemma CompilerCorrect(e: Expr, sv: set<Var>)
    requires WfProgram(e, sv)
    ensures (exists fuel: nat :: Meaning(e, fuel).Ok?) <==> (exists n: nat :: Run(Start(e, sv), n).Halt?)
    ensures (exists fuel: nat :: Meaning(e, fuel).Err?) <==> (exists n: nat :: Run(Start(e, sv), n).Raised?)
    ensures forall n: nat :: !Run(Start(e, sv), n).Stuck?
    ensures forall fuel: nat, n: nat :: Meaning(e, fuel).Ok? && Run(Start(e, sv), n).Halt? ==>
              Shows(Run(Start(e, sv), n).heap, Run(Start(e, sv), n).v, Meaning(e, fuel).st, Meaning(e, fuel).value)
  {
    hide Run;
    hide Meaning;
    hide Start;
    hide WfProgram;
    hide Shows;
    var s := Start(e, sv);
    if n: nat :| Run(s, n).Halt? {
      OutcomeMatches(e, sv, n);
      assert Meaning(e, n + 1).Ok?;
    }
    if n: nat :| Run(s, n).Raised? {
      OutcomeMatches(e, sv, n);
      assert Meaning(e, n + 1).Err?;
    }
    forall n: nat
      ensures !Run(s, n).Stuck?
    {
      if Run(s, n).Stuck? {
        OutcomeMatches(e, sv, n);
      }
    }
    forall fuel: nat
      ensures Meaning(e, fuel).Ok? ==> exists n: nat :: Run(s, n).Halt?
      ensures Meaning(e, fuel).Err? ==> exists n: nat :: Run(s, n).Raised?
    {
      var n, w, heap := ProgramSimulated(e, sv, fuel);
      assert Meaning(e, fuel).Ok? ==> Run(s, n).Halt?;
    }
    forall fuel: nat, n: nat | Meaning(e, fuel).Ok? && Run(s, n).Halt?
      ensures Shows(Run(s, n).heap, Run(s, n).v, Meaning(e, fuel).st, Meaning(e, fuel).value)
    {
      var m, w, heap := ProgramSimulated(e, sv, fuel);
      OutcomeUnique(s, n, m);
    }
  }

  /** A machine that has finished after `n` steps has a matching evaluation within n + 1 calls. */
  lemma OutcomeMatches(e: Expr, sv: set<Var>, n: nat)
    requires WfProgram(e, sv) && !Run(Start(e, sv), n).Next?
    ensures Run(Start(e, sv), n).Halt? ==> Meaning(e, n + 1).Ok?
    ensures Run(Start(e, sv), n).Raised? ==> Meaning(e, n + 1).Err?
    ensures !Run(Start(e, sv), n).Stuck?
  {
    hide Run;
    hide Meaning;
    hide Start;
    var s := Start(e, sv);
    var m, w, heap := ProgramSimulated(e, sv, n + 1);
    if m >= n {
      Finished(s, n, m);
    }
    if !Run(s, m).Next? {
      OutcomeUnique(s, n, m);
    }
  }

  /** A program that evaluates to a constant halts with that constant. */
  lemma ConstantResult(e: Expr, sv: set<Var>, fuel: nat, c: Scheme.Const)
    requires WfProgram(e, sv) && Meaning(e, fuel).Ok? && Meaning(e, fuel).value == Imm(c)
    ensures exists n: nat :: Run(Start(e, sv), n).Halt? && Run(Start(e, sv), n).v == Word.Const(c)
  {
    var n, w, heap := ProgramSimulated(e, sv, fuel);
    assert SeenIn(heap, w, []) == Seen(Meaning(e, fuel).st, Meaning(e, fuel).value, []) == Some(Atom(c));
    assert Run(Start(e, sv), n).Halt?;
  }
}
