/**
  From an analysed program to its bytecode: simplify, find the free variables
  of every lambda, generate code.  The machine runs what comes out to the
  outcome that the evaluator gives the program that went in.
*/
module Pipeline {
  import opened Scheme
  import opened Bytecode
  import Codegen
  import opened FreeVariables
  import opened Rewriting
  import Composition
  import Simplifier
  import opened Program
  import Emitter
  import Machines
  import SimplifyPass

  /** The machine about to run `code` as a program. */
  function Loaded(code: Code): State {
    State([Fix(0), Fix(0), FinalResumer, Fix(-4)], 0, 0, Proc(0, false, code, EmptyVector), [])
  }

  /** The machine halts on `code` with the value of `e`, raises when `e` ends in an error, and otherwise runs for ever. */
  ghost predicate Implements(code: Code, e: Expr) {
    && ((exists fuel: nat :: Meaning(e, fuel).Ok?) <==> (exists n: nat :: Run(Loaded(code), n).Halt?))
    && ((exists fuel: nat :: Meaning(e, fuel).Err?) <==> (exists n: nat :: Run(Loaded(code), n).Raised?))
    && (forall n: nat :: !Run(Loaded(code), n).Stuck?)
    && forall fuel: nat, n: nat :: Meaning(e, fuel).Ok? && Run(Loaded(code), n).Halt? ==>
         Gives(Run(Loaded(code), n).heap, Run(Loaded(code), n).v, Meaning(e, fuel))
  }

  /** The word in the heap is the datum that the evaluation ended with. */
  ghost predicate Gives(heap: Heap, w: Word, r: Result<Val>)
    requires r.Ok?
  {
    Shows(heap, w, r.st, r.value)
  }

  lemma SameShows(heap: Heap, w: Word, st: Store, v: Val, st1: Store, v1: Val)
    requires SameData(st, v, st1, v1) && Shows(heap, w, st1, v1)
    ensures Shows(heap, w, st, v)
  {
    hide Seen;
    hide SeenIn;
    hide Shared;
    hide SharedIn;
  }

  lemma {:induction false} SameRewrites(e: Expr, e1: Expr)
    requires Same(e, e1)
    ensures Rewrites(e, e1, map[])
    decreases e, 0
  {
    match e
    case Lit(_) =>
    case Ref(_) =>
    case Set(_, a) => SameRewrites(a, e1.e);
    case Cnd(t, p, f) =>
      SameRewrites(t, e1.test);
      SameRewrites(p, e1.pass);
      SameRewrites(f, e1.fail);
    case Seq(es) => SameSeq(es, e1.es);
    case Lam(l) => SameRewrites(l.body, e1.l.body);
    case App(f, args) =>
      SameRewrites(f, e1.f);
      forall i | 0 <= i < |args| ensures Rewrites(args[i], e1.args[i], map[]) { SameRewrites(args[i], e1.args[i]); }
    case Prim(_, args) =>
      forall i | 0 <= i < |args| ensures Rewrites(args[i], e1.args[i], map[]) { SameRewrites(args[i], e1.args[i]); }
  }

  lemma {:induction false} SameSeq(es: seq<Expr>, es1: seq<Expr>)
    requires |es| == |es1| && forall i :: 0 <= i < |es| ==> Same(es[i], es1[i])
    ensures RewritesSeq(es, es1, map[])
    decreases es, 0
  {
    if es != [] {
      SameRewrites(es[0], es1[0]);
      SameSeq(es[1..], es1[1..]);
    }
  }

  /** Code for any rewriting of a program implements the program. */
  lemma RewritingImplements(e: Expr, e1: Expr, sv: set<Var>)
    requires Rewrites(e, e1, map[]) && Resolved(e, [], sv) && WfProgram(e1, sv)
    ensures Implements(Codegen.GenBody(Top(e1), sv), e)
  {
    hide Rewrites;
    hide Run;
    hide Meaning;
    hide Codegen.GenBody;
    hide Shows;
    hide SameData;
    hide Resolved;
    CompilerCorrect(e1, sv);
    var code := Codegen.GenBody(Top(e1), sv);
    assert Start(e1, sv) == Loaded(code);
    forall fuel: nat
      ensures SameOutcome(Meaning(e, fuel), Meaning(e1, fuel))
    {
      RewritesPreserve(e, e1, sv, fuel);
    }
    forall fuel: nat, n: nat | Meaning(e, fuel).Ok? && Run(Loaded(code), n).Halt?
      ensures Gives(Run(Loaded(code), n).heap, Run(Loaded(code), n).v, Meaning(e, fuel))
    {
      var r, r1 := Meaning(e, fuel), Meaning(e1, fuel);
      SameShows(Run(Loaded(code), n).heap, Run(Loaded(code), n).v, r.st, r.value, r1.st, r1.value);
    }
    assert (exists fuel: nat :: Meaning(e, fuel).Ok?) <==> (exists n: nat :: Run(Loaded(code), n).Halt?);
    assert (exists fuel: nat :: Meaning(e, fuel).Err?) <==> (exists n: nat :: Run(Loaded(code), n).Raised?);
  }

  /** Compile a program: its code implements it. */
  method Compile(e: Expr, sv: set<Var>) returns (code: Code)
    requires Resolved(e, [], sv)
    ensures Implements(code, e)
  {
    hide Implements;
    hide Codegen.GenBody;
    hide Rewrites;
    var e1 := SimplifyPass.Run(e, [], Simplifier.Outside);
    Simplifier.SimplifyPreserves(e, sv, 0);
    var e2 := Annotate(e1, sv);
    code := Emitter.CompileBody(Top(e2), sv);
    Simplified(e, e1, e2, sv);
    RewritingImplements(e, e2, sv);
  }

  /**
    Compile a program and run it for up to `n` turns on a machine of its own:
    a value comes out only if the evaluator gives that value, and a failure
    only if the evaluator ends in an error.
  */
  method CompileAndRun(e: Expr, sv: set<Var>, n: nat, room: nat) returns (status: Machines.Status, ghost heap: Heap)
    requires Resolved(e, [], sv)
    ensures status.Done? ==> exists fuel: nat :: Meaning(e, fuel).Ok? && Gives(heap, status.v, Meaning(e, fuel))
    ensures status.Failed? ==> exists fuel: nat :: Meaning(e, fuel).Err?
  {
    hide Resolved;
    hide Run;
    hide Loaded;
    hide Gives;
    var code := Compile(e, sv);
    var machine := new Machines.Machine(Loaded(code), room);
    status := machine.Execute(n);
    heap := machine.heap;
    Concluded(code, e, n);
  }

  lemma Concluded(code: Code, e: Expr, n: nat)
    requires Implements(code, e)
    ensures Run(Loaded(code), n).Halt? ==>
              exists fuel: nat :: Meaning(e, fuel).Ok? && Gives(Run(Loaded(code), n).heap, Run(Loaded(code), n).v, Meaning(e, fuel))
    ensures Run(Loaded(code), n).Raised? ==> exists fuel: nat :: Meaning(e, fuel).Err?
  {
    hide Run;
    hide Meaning;
    hide Gives;
    if Run(Loaded(code), n).Halt? {
      var fuel: nat :| Meaning(e, fuel).Ok?;
      assert Gives(Run(Loaded(code), n).heap, Run(Loaded(code), n).v, Meaning(e, fuel));
    }
  }

  lemma Simplified(e: Expr, e1: Expr, e2: Expr, sv: set<Var>)
    requires Resolved(e, [], sv) && e1 == Simplifier.Simplify(e, map[], Simplifier.Outside) && Same(e1, e2)
    ensures Rewrites(e, e2, map[])
  {
    hide Rewrites;
    Simplifier.SimplifyRewrites(e, map[], Simplifier.Outside, [], sv);
    SameRewrites(e1, e2);
    Composition.Compose(e, e1, e2, map[], map[], [], sv);
    var none: map<Var, Const> := map[];
    assert none + none == none;
  }
}
