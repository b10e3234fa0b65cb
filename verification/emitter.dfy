/**
  The emitter: a growing buffer of code cells with a write position, labels
  that are reserved first and patched when their target is known, and the
  tail-position flag that the generator clears and restores as it goes.

  Every method is proved to append exactly the code that `Gen` describes.
*/
module Emitter {
  import opened Scheme
  import opened Bytecode
  import opened Codegen

  const INITIAL_SIZE := 128

  class Context {
    var data: array<Cell>
    var pos: nat
    var tailp: bool

    ghost predicate Valid()
      reads `pos, `data, data
    {
      pos <= data.Length && data.Length >= INITIAL_SIZE
    }

    /** What has been emitted so far. */
    ghost function Buffer(): Code
      reads `pos, `data, data
      requires Valid()
    {
      data[..pos]
    }

    constructor ()
      ensures Valid() && fresh(data) && Buffer() == [] && tailp
    {
      data := new Cell[INITIAL_SIZE];
      pos := 0;
      tailp := true;
    }

    /** Double the buffer when `size` more cells do not fit. */
    method Expand(size: nat)
      requires Valid() && size <= INITIAL_SIZE
      modifies this
      ensures Valid() && Buffer() == old(Buffer()) && pos == old(pos) && tailp == old(tailp)
      ensures pos + size <= data.Length
      ensures data == old(data) || fresh(data)
    {
      if data.Length < pos + size {
        var bigger := new Cell[data.Length * 2];
        forall i | 0 <= i < data.Length {
          bigger[i] := data[i];
        }
        assert bigger[..pos] == data[..pos];
        data := bigger;
      }
    }

    method Emit(op: Op)
      requires Valid()
      modifies this, data
      ensures Valid() && Buffer() == old(Buffer()) + Plain(op) && tailp == old(tailp)
      ensures data == old(data) || fresh(data)
    {
      Expand(1);
      data[pos] := OpC(op);
      pos := pos + 1;
    }

    /** Write a word over the cells at `at`. */
    method StoreWord(at: nat, w: Operand)
      requires Valid() && at + WORD <= data.Length
      modifies data
      ensures Valid() && data[at..at + WORD] == [WordC(w)] + Pads
      ensures data[..at] == old(data[..at]) && data[at + WORD..] == old(data[at + WORD..])
    {
      data[at] := WordC(w);
      forall i | at < i < at + WORD {
        data[i] := Pad;
      }
    }

    method EmitWord(w: Operand)
      requires Valid()
      modifies this, data
      ensures Valid() && Buffer() == old(Buffer()) + ([WordC(w)] + Pads) && tailp == old(tailp)
      ensures data == old(data) || fresh(data)
    {
      Expand(WORD);
      StoreWord(pos, w);
      assert data[..pos + WORD] == data[..pos] + data[pos..pos + WORD];
      pos := pos + WORD;
    }

    method EmitOp(op: Op, w: Operand)
      requires Valid()
      modifies this, data
      ensures Valid() && Buffer() == old(Buffer()) + WithWord(op, w) && tailp == old(tailp)
      ensures data == old(data) || fresh(data)
    {
      ghost var b := Buffer();
      Emit(op);
      EmitWord(w);
      assert Buffer() == b + WithWord(op, w);
    }

    method EmitPush(w: Word)
      requires Valid()
      modifies this, data
      ensures Valid() && Buffer() == old(Buffer()) + Push(w) && tailp == old(tailp)
      ensures data == old(data) || fresh(data)
    {
      EmitOp(PUSH, V(w));
    }

    /** Reserve the operand word of a jump; what it holds is not yet determined. */
    method MakeLabel() returns (mark: nat, ghost hole: Code)
      requires Valid()
      modifies this
      ensures Valid() && mark == |old(Buffer())| && tailp == old(tailp)
      ensures |hole| == WORD && Buffer() == old(Buffer()) + hole
      ensures data == old(data) || fresh(data)
    {
      mark := pos;
      Expand(WORD);
      hole := data[pos..pos + WORD];
      assert data[..pos + WORD] == data[..pos] + hole;
      pos := pos + WORD;
    }

    /** Make the jump at `mark` go to the current position. */
    method PatchLabel(mark: nat, ghost before: Code, ghost hole: Code, ghost after: Code)
      requires Valid() && |before| == mark && |hole| == WORD && Buffer() == before + hole + after
      modifies data
      ensures Valid() && Buffer() == before + JumpWord(after) + after
    {
      assert pos == mark + WORD + |after|;
      StoreWord(mark, I(pos - mark));
      assert data[..pos] == data[..mark] + data[mark..mark + WORD] + data[mark + WORD..][..pos - mark - WORD];
      assert (before + hole + after)[..mark] == before;
      assert (before + hole + after)[mark + WORD..] == after;
      assert old(data[mark + WORD..])[..pos - mark - WORD] == old(data[..pos])[mark + WORD..];
      assert old(data[..mark]) == old(data[..pos])[..mark];
    }

    /** Remove the push that was emitted last. */
    method DropPush(ghost before: Code, ghost w: Word)
      requires Valid() && Buffer() == before + Push(w)
      modifies this
      ensures Valid() && Buffer() == before && data == old(data) && tailp == old(tailp)
    {
      assert |Push(w)| == 1 + WORD;
      pos := pos - (1 + WORD);
      assert data[..pos] == (before + Push(w))[..pos];
    }

    // ---------------------------------------------------------- expressions

    method GenerateRef(x: Var, lam: Lambda, sv: set<Var>, unbox: bool)
      requires Valid()
      modifies this, data
      ensures Valid() && Buffer() == old(Buffer()) + GenRef(x, lam, sv, unbox) && tailp == old(tailp)
      ensures data == old(data) || fresh(data)
    {
      ghost var b := Buffer();
      if x.lam == lam.id {
        EmitOp(LOCAL_REF, I(ParamIndex(lam, x.name)));
      } else {
        var i := 0;
        while i < |lam.fv| && lam.fv[i] != x
          invariant 0 <= i <= |lam.fv| && FvIndex(lam.fv, x) == i + FvIndex(lam.fv[i..], x)
        {
          i := i + 1;
        }
        EmitOp(CLOSURE_REF, I(i));
      }
      if unbox && x in sv {
        Emit(CDR);
      }
      assert Buffer() == b + GenRef(x, lam, sv, unbox);
    }

    method GenerateStore(x: Var, lam: Lambda, sv: set<Var>)
      requires Valid()
      modifies this, data
      ensures Valid() && Buffer() == old(Buffer()) + GenStore(x, lam, sv) && tailp == old(tailp)
      ensures data == old(data) || fresh(data)
    {
      ghost var b := Buffer();
      if x in sv {
        GenerateRef(x, lam, sv, false);
        Emit(SET_CDR);
        assert Buffer() == b + GenStore(x, lam, sv);
      } else {
        EmitOp(LOCAL_SET, I(ParamIndex(lam, x.name)));
      }
    }

    method Generate(e: Expr, lam: Lambda, sv: set<Var>)
      requires Valid()
      modifies this, data
      ensures Valid() && Buffer() == old(Buffer()) + Gen(e, lam, sv, old(tailp)) && (!old(tailp) ==> !tailp)
      ensures data == old(data) || fresh(data)
      decreases e, 1
    {
      Pieces(e, lam, sv, tailp);
      hide CndCode;
      hide OpcodeCode;
      match e
      case Lit(c) => EmitPush(Word.Const(c));
      case Ref(x) => GenerateRef(x, lam, sv, true);
      case Set(x, e1) => GenerateSet(x, e1, lam, sv);
      case Cnd(test, pass, fail) => GenerateCnd(test, pass, fail, lam, sv);
      case Seq(es) => GenerateSeq(es, lam, sv);
      case Lam(l) => GenerateLambda(l, lam, sv);
      case App(f, args) => GenerateGeneralApp(f, args, lam, sv);
      case Prim(op, args) => GenerateOpcodeApp(op, args, lam, sv);
    }

    method GenerateSet(x: Var, e1: Expr, lam: Lambda, sv: set<Var>)
      requires Valid()
      modifies this, data
      ensures Valid() && !tailp
      ensures Buffer() == old(Buffer()) + (Gen(e1, lam, sv, false) + GenStore(x, lam, sv) + Push(Word.Const(Void)))
      ensures data == old(data) || fresh(data)
      decreases e1, 2
    {
      hide Gen;
      hide GenStore;
      hide Push;
      ghost var b := Buffer();
      tailp := false;
      Generate(e1, lam, sv);
      GenerateStore(x, lam, sv);
      EmitPush(Word.Const(Void));
      Regroup3(b, Gen(e1, lam, sv, false), GenStore(x, lam, sv), Push(Word.Const(Void)));
    }

    method GenerateCnd(test: Expr, pass: Expr, fail: Expr, lam: Lambda, sv: set<Var>)
      requires Valid()
      modifies this, data
      ensures Valid() && (!old(tailp) ==> !tailp)
      ensures Buffer() == old(Buffer()) + CndCode(Gen(test, lam, sv, false), Gen(pass, lam, sv, old(tailp)),
                                                  Gen(fail, lam, sv, old(tailp)))
      ensures data == old(data) || fresh(data)
      decreases Cnd(test, pass, fail), 0
    {
      hide Gen;
      hide CndCode;
      hide JumpWord;
      hide Plain;
      hide WithWord;
      hide Context.Buffer;
      hide Context.Valid;
      var tail := tailp;
      ghost var b0 := Buffer();
      ghost var t, p, f := Gen(test, lam, sv, false), Gen(pass, lam, sv, tail), Gen(fail, lam, sv, tail);
      tailp := false;
      Generate(test, lam, sv);
      tailp := tail;
      Emit(JUMP_UNLESS);
      ghost var b1 := Buffer();
      var label2, hole2 := GeneratePass(pass, lam, sv);
      ghost var b3 := b1 + JumpWord(p + Plain(JUMP) + hole2) + (p + Plain(JUMP));
      Generate(fail, lam, sv);
      PatchLabel(label2, b3, hole2, f);
      CndLayout(b0, t, p, f, hole2);
    }

    /** The branch taken, the jump over the other one, and the patch of the jump to that. */
    method GeneratePass(pass: Expr, lam: Lambda, sv: set<Var>) returns (mark: nat, ghost hole: Code)
      requires Valid()
      modifies this, data
      ensures Valid() && tailp == old(tailp) && |hole| == WORD
      ensures var over := Gen(pass, lam, sv, old(tailp)) + Plain(JUMP);
              && Buffer() == old(Buffer()) + JumpWord(over + hole) + over + hole
              && mark == |old(Buffer()) + JumpWord(over + hole) + over|
      ensures data == old(data) || fresh(data)
      decreases pass, 2
    {
      hide Gen;
      hide JumpWord;
      hide Plain;
      hide Context.Buffer;
      hide Context.Valid;
      var tail := tailp;
      ghost var b, p := Buffer(), Gen(pass, lam, sv, tail);
      var label1, hole1 := MakeLabel();
      Generate(pass, lam, sv);
      tailp := tail;
      Emit(JUMP);
      ghost var b2 := Buffer();
      mark, hole := MakeLabel();
      PassLayout(b, hole1, p + Plain(JUMP), hole, p, b2);
      PatchLabel(label1, b, hole1, p + Plain(JUMP) + hole);
    }

    method GenerateSeq(es: seq<Expr>, lam: Lambda, sv: set<Var>)
      requires Valid()
      modifies this, data
      ensures Valid() && Buffer() == old(Buffer()) + GenSeq(es, lam, sv, old(tailp)) && (!old(tailp) ==> !tailp)
      ensures data == old(data) || fresh(data)
      decreases es, 0
    {
      hide Gen;
      hide GenEffect;
      var tail := tailp;
      ghost var b := Buffer();
      tailp := false;
      var i := 0;
      while i + 1 < |es|
        invariant 0 <= i <= |es| && (es != [] ==> i < |es|) && Valid() && !tailp
        invariant data == old(data) || fresh(data)
        invariant b + GenSeq(es, lam, sv, tail) == Buffer() + GenSeq(es[i..], lam, sv, tail)
      {
        ghost var b1 := Buffer();
        GenerateEffect(es[i], lam, sv);
        SeqLayout(b1, es, i, lam, sv, tail, Buffer());
        i := i + 1;
      }
      tailp := tail;
      if es != [] {
        assert es[i..] == [es[i]];
        Generate(es[i], lam, sv);
      } else {
        assert Buffer() + [] == Buffer();
      }
    }

    /** One expression of a sequence before the last: literals are skipped, results dropped. */
    method GenerateEffect(e: Expr, lam: Lambda, sv: set<Var>)
      requires Valid() && !tailp
      modifies this, data
      ensures Valid() && Buffer() == old(Buffer()) + GenEffect(e, lam, sv) && !tailp
      ensures data == old(data) || fresh(data)
      decreases e, 2
    {
      ghost var b := Buffer();
      if !e.Lit? {
        Generate(e, lam, sv);
        if e.Set? {
          ghost var c := Gen(e.e, lam, sv, false) + GenStore(e.x, lam, sv);
          assert Buffer() == (b + c) + Push(Word.Const(Void));
          DropPush(b + c, Word.Const(Void));
        } else {
          Emit(DROP);
          assert Buffer() == b + (Gen(e, lam, sv, false) + Plain(DROP));
        }
      }
    }

    method GenerateGeneralApp(f: Expr, args: seq<Expr>, lam: Lambda, sv: set<Var>)
      requires Valid()
      modifies this, data
      ensures Valid() && tailp == old(tailp)
      ensures Buffer() == old(Buffer()) + (GenRight(args, lam, sv) + Gen(f, lam, sv, false)
                                           + WithWord(if tailp then TAIL_CALL else CALL, I(|args|)))
      ensures data == old(data) || fresh(data)
      decreases App(f, args), 0
    {
      hide Gen;
      hide GenRight;
      hide WithWord;
      var tail := tailp;
      ghost var b := Buffer();
      tailp := false;
      GenerateRight(args, lam, sv);
      Generate(f, lam, sv);
      var op := if tail then TAIL_CALL else CALL;
      EmitOp(op, I(|args|));
      tailp := tail;
      Regroup3(b, GenRight(args, lam, sv), Gen(f, lam, sv, false), WithWord(op, I(|args|)));
    }

    method GenerateRight(args: seq<Expr>, lam: Lambda, sv: set<Var>)
      requires Valid() && !tailp
      modifies this, data
      ensures Valid() && Buffer() == old(Buffer()) + GenRight(args, lam, sv) && !tailp
      ensures data == old(data) || fresh(data)
      decreases args, 0
    {
      hide Gen;
      ghost var b := Buffer();
      var i := |args|;
      while i > 0
        invariant 0 <= i <= |args| && Valid() && !tailp
        invariant data == old(data) || fresh(data)
        invariant Buffer() == b + GenRight(args[i..], lam, sv)
      {
        i := i - 1;
        Generate(args[i], lam, sv);
        assert args[i..][1..] == args[i + 1..];
        Regroup3(b, GenRight(args[i + 1..], lam, sv), Gen(args[i], lam, sv, false), []);
      }
      assert args[0..] == args;
    }

    method GenerateLeft(args: seq<Expr>, lam: Lambda, sv: set<Var>)
      requires Valid() && !tailp
      modifies this, data
      ensures Valid() && Buffer() == old(Buffer()) + GenLeft(args, lam, sv) && !tailp
      ensures data == old(data) || fresh(data)
      decreases args, 0
    {
      hide Gen;
      ghost var b := Buffer();
      var i := 0;
      while i < |args|
        invariant 0 <= i <= |args| && Valid() && !tailp
        invariant data == old(data) || fresh(data)
        invariant b + GenLeft(args, lam, sv) == Buffer() + GenLeft(args[i..], lam, sv)
      {
        ghost var b1 := Buffer();
        Generate(args[i], lam, sv);
        assert args[i..][1..] == args[i + 1..];
        assert Buffer() + GenLeft(args[i + 1..], lam, sv) == b1 + GenLeft(args[i..], lam, sv);
        i := i + 1;
      }
      assert Buffer() + [] == Buffer();
    }

    method GenerateOpcodeApp(op: Opcode, args: seq<Expr>, lam: Lambda, sv: set<Var>)
      requires Valid()
      modifies this, data
      ensures Valid() && Buffer() == old(Buffer()) + OpcodeCode(op, args, lam, sv) && !tailp
      ensures data == old(data) || fresh(data)
      decreases Prim(op, args), 0
    {
      hide Gen;
      hide GenOperator;
      hide Push;
      var n := |args|;
      var invDefault := false;
      tailp := false;
      ghost var b := Buffer();
      if n == NumArgs(op) && Variadic(op) && Default(op).Some? {
        if Inverse(op) {
          invDefault := true;
        } else {
          EmitPush(DefaultWord(op));
          n := n + 1;
        }
      }
      ghost var b1 := Buffer();
      GenerateArgs(op, args, lam, sv);
      ghost var b2 := Buffer();
      if invDefault {
        EmitPush(DefaultWord(op));
        n := n + 1;
      }
      ghost var b3 := Buffer();
      GenerateOperator(op, n);
      OpcodeLayout(op, args, lam, sv, b, b1, b2, b3, Buffer());
    }

    method GenerateArgs(op: Opcode, args: seq<Expr>, lam: Lambda, sv: set<Var>)
      requires Valid() && !tailp
      modifies this, data
      ensures Valid() && Buffer() == old(Buffer()) + ArgsCode(op, args, lam, sv) && !tailp
      ensures data == old(data) || fresh(data)
      decreases args, 1
    {
      if Inverse(op) && ClassOf(op) == Comparison {
        GenerateLeft(args, lam, sv);
      } else {
        GenerateRight(args, lam, sv);
      }
    }

    method GenerateOperator(op: Opcode, n: nat)
      requires Valid()
      modifies this, data
      ensures Valid() && Buffer() == old(Buffer()) + GenOperator(op, n) && tailp == old(tailp)
      ensures data == old(data) || fresh(data)
    {
      match ClassOf(op)
      case Arithmetic =>
        EmitRepeated(OpOf(op), if n >= 1 then n - 1 else 0);
      case Comparison =>
        if n > 2 {
          EmitComparisons(OpOf(op), n);
        } else {
          Emit(OpOf(op));
        }
      case Other =>
        Emit(OpOf(op));
        if ReturnsVoid(op) {
          EmitPush(Word.Const(Void));
        }
    }

    method EmitRepeated(op: Op, n: nat)
      requires Valid()
      modifies this, data
      ensures Valid() && Buffer() == old(Buffer()) + Repeat(Plain(op), n) && tailp == old(tailp)
      ensures data == old(data) || fresh(data)
    {
      ghost var b := Buffer();
      var i := n;
      while i > 0
        invariant 0 <= i <= n && Valid() && tailp == old(tailp)
        invariant data == old(data) || fresh(data)
        invariant b + Repeat(Plain(op), n) == Buffer() + Repeat(Plain(op), i)
      {
        ghost var b1 := Buffer();
        Emit(op);
        assert b1 + Repeat(Plain(op), i) == Buffer() + Repeat(Plain(op), i - 1);
        i := i - 1;
      }
      assert Buffer() + [] == Buffer();
    }

    method EmitComparisons(op: Op, n: nat)
      requires Valid() && n > 2
      modifies this, data
      ensures Valid() && tailp == old(tailp)
      ensures Buffer() == old(Buffer())
                          + (CompareFirst(op) + Repeat(CompareNext(op), n - 2) + Plain(AND))
      ensures data == old(data) || fresh(data)
    {
      hide CompareNext;
      ghost var b := Buffer();
      EmitCompareFirst(op);
      ghost var b1 := Buffer();
      var i := n - 2;
      while i > 0
        invariant 0 <= i <= n - 2 && Valid() && tailp == old(tailp)
        invariant data == old(data) || fresh(data)
        invariant b1 + Repeat(CompareNext(op), n - 2) == Buffer() + Repeat(CompareNext(op), i)
      {
        ghost var b2 := Buffer();
        EmitCompareNext(op);
        RepeatLayout(b2, CompareNext(op), i, Buffer());
        i := i - 1;
      }
      assert Buffer() + [] == Buffer();
      Emit(AND);
      Regroup3(b, CompareFirst(op), Repeat(CompareNext(op), n - 2), Plain(AND));
    }

    method EmitCompareFirst(op: Op)
      requires Valid()
      modifies this, data
      ensures Valid() && Buffer() == old(Buffer()) + CompareFirst(op) && tailp == old(tailp)
      ensures data == old(data) || fresh(data)
    {
      ghost var b := Buffer();
      EmitOp(STACK_REF, I(2));
      EmitOp(STACK_REF, I(2));
      Emit(op);
      Emit(AND);
      assert Buffer() == b + CompareFirst(op);
    }

    method EmitCompareNext(op: Op)
      requires Valid()
      modifies this, data
      ensures Valid() && Buffer() == old(Buffer()) + CompareNext(op) && tailp == old(tailp)
      ensures data == old(data) || fresh(data)
    {
      hide WithWord;
      hide Plain;
      hide Context.Buffer;
      hide Context.Valid;
      ghost var b := Buffer();
      EmitOp(STACK_REF, I(3));
      EmitOp(STACK_REF, I(3));
      Emit(op);
      Emit(AND);
      Emit(AND);
      CompareLayout(b, op);
    }

    // -------------------------------------------------------------- lambdas

    method GenerateLambda(l: Lambda, lam: Lambda, sv: set<Var>)
      requires Valid()
      modifies this, data
      ensures Valid() && Buffer() == old(Buffer()) + GenLambda(l, lam, sv) && tailp == old(tailp)
      ensures data == old(data) || fresh(data)
      decreases l, 3
    {
      ghost var b := Buffer();
      var bc := CompileBody(l, sv);
      if l.fv == [] {
        EmitPush(Proc(|l.params|, l.rest.Some?, bc, EmptyVector));
      } else {
        EmitClosure(l, lam, sv, bc);
      }
    }

    method EmitClosure(l: Lambda, lam: Lambda, sv: set<Var>, bc: Code)
      requires Valid() && l.fv != [] && bc == GenBody(l, sv)
      modifies this, data
      ensures Valid() && Buffer() == old(Buffer()) + GenLambda(l, lam, sv) && tailp == old(tailp)
      ensures data == old(data) || fresh(data)
    {
      hide GenLambda;
      hide GenBody;
      hide GenCaptures;
      hide Push;
      ghost var b := Buffer();
      EmitPush(Word.Const(Void));
      EmitPush(Fix(|l.fv|));
      Emit(MAKE_VECTOR);
      EmitCaptures(l.fv, lam, sv);
      Emit(MAKE_PROCEDURE);
      EmitWord(I(if l.rest.Some? then 1 else 0));
      EmitWord(I(|l.params|));
      EmitWord(B(bc));
      ProcedureLayout(b, l, lam, sv, Buffer());
    }

    method EmitCaptures(fv: seq<Var>, lam: Lambda, sv: set<Var>)
      requires Valid()
      modifies this, data
      ensures Valid() && Buffer() == old(Buffer()) + GenCaptures(fv, 0, lam, sv) && tailp == old(tailp)
      ensures data == old(data) || fresh(data)
    {
      ghost var b := Buffer();
      var k := 0;
      while k < |fv|
        invariant 0 <= k <= |fv| && Valid() && tailp == old(tailp)
        invariant data == old(data) || fresh(data)
        invariant b + GenCaptures(fv, 0, lam, sv) == Buffer() + GenCaptures(fv, k, lam, sv)
      {
        ghost var b1 := Buffer();
        EmitCapture(fv[k], k, lam, sv);
        CaptureLayout(b1, fv, k, lam, sv, Buffer());
        k := k + 1;
      }
      assert Buffer() + [] == Buffer();
    }

    method EmitCapture(x: Var, k: nat, lam: Lambda, sv: set<Var>)
      requires Valid()
      modifies this, data
      ensures Valid() && tailp == old(tailp)
      ensures Buffer() == old(Buffer()) + (GenRef(x, lam, sv, false) + Push(Fix(k)) + WithWord(STACK_REF, I(3)) + Plain(VECTOR_SET))
      ensures data == old(data) || fresh(data)
    {
      ghost var b := Buffer();
      GenerateRef(x, lam, sv, false);
      EmitPush(Fix(k));
      EmitOp(STACK_REF, I(3));
      Emit(VECTOR_SET);
      assert Buffer() == b + (GenRef(x, lam, sv, false) + Push(Fix(k)) + WithWord(STACK_REF, I(3)) + Plain(VECTOR_SET));
    }
  }

  /** The body of a lambda, compiled in a context of its own. */
  method CompileBody(l: Lambda, sv: set<Var>) returns (bc: Code)
    ensures bc == GenBody(l, sv)
    decreases l, 2
  {
    hide Gen;
    hide GenBox;
    hide Push;
    var ctx := new Context();
    var k := |l.locals|;
    while k > 0
      invariant 0 <= k <= |l.locals| && ctx.Valid() && fresh(ctx) && fresh(ctx.data)
      invariant GenReserve(|l.locals|) == ctx.Buffer() + GenReserve(k)
    {
      ghost var b := ctx.Buffer();
      ctx.EmitPush(Word.Const(Undef));
      RepeatLayout(b, Push(Word.Const(Undef)), k, ctx.Buffer());
      k := k - 1;
    }
    assert ctx.Buffer() + [] == ctx.Buffer();
    var i := 0;
    while i < |l.sv|
      invariant 0 <= i <= |l.sv| && ctx.Valid() && fresh(ctx) && fresh(ctx.data)
      invariant GenReserve(|l.locals|) + GenBoxes(l.sv, l) == ctx.Buffer() + GenBoxes(l.sv[i..], l)
    {
      ghost var b := ctx.Buffer();
      EmitBox(ctx, l.sv[i], l);
      assert l.sv[i..][1..] == l.sv[i + 1..];
      BoxesLayout(b, l, i, ctx.Buffer());
      i := i + 1;
    }
    assert ctx.Buffer() + [] == ctx.Buffer();
    ctx.tailp := true;
    ctx.Generate(l.body, l, sv);
    ctx.Emit(RET);
    bc := ctx.data[..ctx.pos];
  }

  method EmitBox(ctx: Context, n: Name, l: Lambda)
    requires ctx.Valid()
    modifies ctx, ctx.data
    ensures ctx.Valid() && ctx.Buffer() == old(ctx.Buffer()) + GenBox(n, l)
    ensures ctx.data == old(ctx.data) || fresh(ctx.data)
  {
    ghost var b := ctx.Buffer();
    ctx.EmitOp(LOCAL_REF, I(ParamIndex(l, n)));
    ctx.EmitPush(Word.Const(Sym(n)));
    ctx.Emit(CONS);
    ctx.EmitOp(LOCAL_SET, I(ParamIndex(l, n)));
    assert ctx.Buffer() == b + GenBox(n, l);
  }

  // ------------------------------------------------------------ layout lemmas

  function CndCode(t: Code, p: Code, f: Code): Code {
    t + WithWord(JUMP_UNLESS, I(WORD + |p| + 1 + WORD)) + p + WithWord(JUMP, I(WORD + |f|)) + f
  }

  lemma Regroup3(b: Code, x: Code, y: Code, z: Code)
    ensures b + x + y + z == b + (x + y + z)
  {
  }

  /** The operand of a jump over `skipped`, counted from the operand itself. */
  function JumpWord(skipped: Code): Code { [WordC(I(WORD + |skipped|))] + Pads }

  /** Patching both labels yields the conditional's code. */
  lemma CompareLayout(b: Code, op: Op)
    ensures b + WithWord(STACK_REF, I(3)) + WithWord(STACK_REF, I(3)) + Plain(op) + Plain(AND) + Plain(AND) == b + CompareNext(op)
  {
    hide WithWord;
    hide Plain;
  }

  lemma PassLayout(b: Code, hole1: Code, over: Code, hole: Code, p: Code, b2: Code)
    requires over == p + Plain(JUMP) && b2 == b + hole1 + p + Plain(JUMP) && |hole1| == WORD
    ensures b2 + hole == b + hole1 + (over + hole)
    ensures b + JumpWord(over + hole) + (over + hole) == b + JumpWord(over + hole) + over + hole
    ensures |b2| == |b + JumpWord(over + hole) + over|
  {
  }

  lemma CndLayout(b0: Code, t: Code, p: Code, f: Code, hole: Code)
    requires |hole| == WORD
    ensures b0 + t + Plain(JUMP_UNLESS) + JumpWord(p + Plain(JUMP) + hole) + (p + Plain(JUMP)) + JumpWord(f) + f
            == b0 + CndCode(t, p, f)
  {
    assert Plain(JUMP_UNLESS) + JumpWord(p + Plain(JUMP) + hole) == WithWord(JUMP_UNLESS, I(WORD + |p| + 1 + WORD));
    assert Plain(JUMP) + JumpWord(f) == WithWord(JUMP, I(WORD + |f|));
  }

  lemma SeqLayout(b: Code, es: seq<Expr>, i: nat, lam: Lambda, sv: set<Var>, tail: bool, b1: Code)
    requires i + 1 < |es| && b1 == b + GenEffect(es[i], lam, sv)
    ensures b + GenSeq(es[i..], lam, sv, tail) == b1 + GenSeq(es[i + 1..], lam, sv, tail)
  {
    hide GenEffect;
    assert es[i..][1..] == es[i + 1..];
  }

  function CompareFirst(op: Op): Code {
    WithWord(STACK_REF, I(2)) + WithWord(STACK_REF, I(2)) + Plain(op) + Plain(AND)
  }

  lemma BoxesLayout(b: Code, l: Lambda, i: nat, b1: Code)
    requires i < |l.sv| && b1 == b + GenBox(l.sv[i], l)
    ensures b + GenBoxes(l.sv[i..], l) == b1 + GenBoxes(l.sv[i + 1..], l)
  {
    hide GenBox;
    assert l.sv[i..][1..] == l.sv[i + 1..];
  }

  lemma RepeatLayout(b: Code, c: Code, i: nat, b1: Code)
    requires i > 0 && b1 == b + c
    ensures b + Repeat(c, i) == b1 + Repeat(c, i - 1)
  {
  }

  function ArgsCode(op: Opcode, args: seq<Expr>, lam: Lambda, sv: set<Var>): Code {
    if Inverse(op) && ClassOf(op) == Comparison then GenLeft(args, lam, sv) else GenRight(args, lam, sv)
  }

  function OpcodeCode(op: Opcode, args: seq<Expr>, lam: Lambda, sv: set<Var>): Code {
    var n := |args|;
    (if DefaultFirst(op, n) then Push(DefaultWord(op)) else [])
    + ArgsCode(op, args, lam, sv)
    + (if DefaultLast(op, n) then Push(DefaultWord(op)) else [])
    + GenOperator(op, if DefaultFirst(op, n) || DefaultLast(op, n) then n + 1 else n)
  }

  lemma OpcodeLayout(op: Opcode, args: seq<Expr>, lam: Lambda, sv: set<Var>,
                     b: Code, b1: Code, b2: Code, b3: Code, b4: Code)
    requires b1 == if DefaultFirst(op, |args|) then b + Push(DefaultWord(op)) else b
    requires b2 == b1 + ArgsCode(op, args, lam, sv)
    requires b3 == if DefaultLast(op, |args|) then b2 + Push(DefaultWord(op)) else b2
    requires b4 == b3 + GenOperator(op, if DefaultFirst(op, |args|) || DefaultLast(op, |args|) then |args| + 1 else |args|)
    ensures b4 == b + OpcodeCode(op, args, lam, sv)
  {
    hide GenOperator;
    hide ArgsCode;
    hide Push;
  }

  /** The pieces the methods append make up the code of each form. */
  lemma Pieces(e: Expr, lam: Lambda, sv: set<Var>, tail: bool)
    ensures e.Prim? ==> Gen(e, lam, sv, tail) == OpcodeCode(e.op, e.args, lam, sv)
    ensures e.Cnd? ==>
              Gen(e, lam, sv, tail) == CndCode(Gen(e.test, lam, sv, false), Gen(e.pass, lam, sv, tail), Gen(e.fail, lam, sv, tail))
  {
    hide GenOperator;
  }

  lemma CaptureLayout(b: Code, fv: seq<Var>, k: nat, lam: Lambda, sv: set<Var>, b1: Code)
    requires k < |fv|
    requires b1 == b + (GenRef(fv[k], lam, sv, false) + Push(Fix(k)) + WithWord(STACK_REF, I(3)) + Plain(VECTOR_SET))
    ensures b + GenCaptures(fv, k, lam, sv) == b1 + GenCaptures(fv, k + 1, lam, sv)
  {
    hide GenRef;
    hide WithWord;
    hide Plain;
    hide Push;
    var one := GenRef(fv[k], lam, sv, false) + Push(Fix(k)) + WithWord(STACK_REF, I(3)) + Plain(VECTOR_SET);
    assert GenCaptures(fv, k, lam, sv) == one + GenCaptures(fv, k + 1, lam, sv);
  }

  lemma ProcedureLayout(b: Code, l: Lambda, lam: Lambda, sv: set<Var>, b1: Code)
    requires l.fv != []
    requires b1 == b + Push(Word.Const(Void)) + Push(Fix(|l.fv|)) + Plain(MAKE_VECTOR) + GenCaptures(l.fv, 0, lam, sv)
                   + Plain(MAKE_PROCEDURE) + ([WordC(I(if l.rest.Some? then 1 else 0))] + Pads)
                   + ([WordC(I(|l.params|))] + Pads) + ([WordC(B(GenBody(l, sv)))] + Pads)
    ensures b1 == b + GenLambda(l, lam, sv)
  {
    hide GenCaptures;
    hide GenBody;
    hide Push;
  }
}
