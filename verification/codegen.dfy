/**
  The code generator, as the code it produces.

  `Gen` is the code of one expression; the emitter (emitter.dfy) writes exactly
  this code into its buffer, label by label.  `sv` is the set of assigned
  variables: the generator asks for membership in the `sv` list of the lambda
  that binds the name.
*/
module Codegen {
  import opened Options
  import opened Scheme
  import opened Bytecode

  const Pads: Code := [Pad, Pad, Pad, Pad, Pad, Pad, Pad]

  function Plain(op: Op): Code { [OpC(op)] }

  function WithWord(op: Op, w: Operand): (c: Code)
    ensures |c| == 1 + WORD
  {
    [OpC(op), WordC(w)] + Pads
  }

  function Push(w: Word): Code { WithWord(PUSH, V(w)) }

  /** Position of a bound name relative to the frame: sexp_param_index. */
  function IndexOf(names: seq<Name>, n: Name): nat
    requires n in names
    ensures IndexOf(names, n) < |names| && names[IndexOf(names, n)] == n
  {
    if names[0] == n then 0 else 1 + IndexOf(names[1..], n)
  }

  function ParamIndex(l: Lambda, n: Name): int {
    if n in l.params then IndexOf(l.params, n)
    else if l.rest == Some(n) then |l.params|
    else if n in l.locals then -5 - IndexOf(l.locals, n)
    else -10000
  }

  /** The first slot of the closure vector that holds `x`, or its length. */
  function FvIndex(fv: seq<Var>, x: Var): nat
    ensures FvIndex(fv, x) <= |fv|
    ensures x in fv ==> FvIndex(fv, x) < |fv| && fv[FvIndex(fv, x)] == x
  {
    if fv == [] then 0 else if fv[0] == x then 0 else 1 + FvIndex(fv[1..], x)
  }

  /** Fetch the slot of a variable, through its box when `unbox` is set. */
  function GenRef(x: Var, lam: Lambda, sv: set<Var>, unbox: bool): Code {
    (if x.lam == lam.id then WithWord(LOCAL_REF, I(ParamIndex(lam, x.name)))
     else WithWord(CLOSURE_REF, I(FvIndex(lam.fv, x))))
    + (if unbox && x in sv then Plain(CDR) else [])
  }

  /** An assignment without the result it pushes. */
  function GenStore(x: Var, lam: Lambda, sv: set<Var>): Code {
    if x in sv then GenRef(x, lam, sv, false) + Plain(SET_CDR)
    else WithWord(LOCAL_SET, I(ParamIndex(lam, x.name)))
  }

  function OpOf(op: Opcode): Op {
    match op
    case Plus => ADD
    case Times => MUL
    case Minus => SUB
    case Quotient => QUOTIENT
    case Remainder => REMAINDER
    case Less => LT
    case Greater => LT
    case LessEq => LE
    case GreaterEq => LE
    case NumEq => EQN
    case ConsOp => CONS
    case CarOp => CAR
    case CdrOp => CDR
    case SetCarOp => SET_CAR
    case SetCdrOp => SET_CDR
    case NullP => NULLP
  }

  function Repeat(c: Code, n: nat): Code {
    if n == 0 then [] else c + Repeat(c, n - 1)
  }

  /** One further comparison of a chain: fetch the next two operands, compare, and fold. */
  function CompareNext(op: Op): Code {
    WithWord(STACK_REF, I(3)) + WithWord(STACK_REF, I(3)) + Plain(op) + Plain(AND) + Plain(AND)
  }

  /** The operator of an opcode application with `n` operands on the stack. */
  function GenOperator(op: Opcode, n: nat): Code {
    match ClassOf(op)
    case Arithmetic => Repeat(Plain(OpOf(op)), if n >= 1 then n - 1 else 0)
    case Comparison =>
      if n > 2 then
        WithWord(STACK_REF, I(2)) + WithWord(STACK_REF, I(2)) + Plain(OpOf(op)) + Plain(AND)
        + Repeat(CompareNext(OpOf(op)), n - 2) + Plain(AND)
      else Plain(OpOf(op))
    case Other => Plain(OpOf(op)) + (if ReturnsVoid(op) then Push(Const(Void)) else [])
  }

  /** The opcodes whose return type in the table is void. */
  predicate ReturnsVoid(op: Opcode) { op.SetCarOp? || op.SetCdrOp? }

  /** Does exactly `n` operands call for the default, pushed before / after the operands? */
  predicate DefaultFirst(op: Opcode, n: nat) {
    n == NumArgs(op) && Variadic(op) && Default(op).Some? && !Inverse(op)
  }

  predicate DefaultLast(op: Opcode, n: nat) {
    n == NumArgs(op) && Variadic(op) && Default(op).Some? && Inverse(op)
  }

  function DefaultWord(op: Opcode): Word {
    match Default(op) case Some(c) => Const(c) case None => Const(Void)
  }

  // ------------------------------------------------------------ expressions

  function Gen(e: Expr, lam: Lambda, sv: set<Var>, tail: bool): Code
    decreases e, 1
  {
    match e
    case Lit(c) => Push(Const(c))
    case Ref(x) => GenRef(x, lam, sv, true)
    case Set(x, e1) => Gen(e1, lam, sv, false) + GenStore(x, lam, sv) + Push(Const(Void))
    case Cnd(test, pass, fail) =>
      var p := Gen(pass, lam, sv, tail);
      var f := Gen(fail, lam, sv, tail);
      Gen(test, lam, sv, false)
      + WithWord(JUMP_UNLESS, I(WORD + |p| + 1 + WORD)) + p
      + WithWord(JUMP, I(WORD + |f|)) + f
    case Seq(es) => GenSeq(es, lam, sv, tail)
    case Lam(l) => GenLambda(l, lam, sv)
    case App(f, args) =>
      GenRight(args, lam, sv) + Gen(f, lam, sv, false)
      + WithWord(if tail then TAIL_CALL else CALL, I(|args|))
    case Prim(op, args) =>
      var n := |args|;
      (if DefaultFirst(op, n) then Push(DefaultWord(op)) else [])
      + (if Inverse(op) && ClassOf(op) == Comparison then GenLeft(args, lam, sv) else GenRight(args, lam, sv))
      + (if DefaultLast(op, n) then Push(DefaultWord(op)) else [])
      + GenOperator(op, if DefaultFirst(op, n) || DefaultLast(op, n) then n + 1 else n)
  }

  /** Literals before the end are skipped, and the result of an assignment is never pushed. */
  function GenEffect(e: Expr, lam: Lambda, sv: set<Var>): Code
    decreases e, 2
  {
    match e
    case Lit(_) => []
    case Set(x, e1) => Gen(e1, lam, sv, false) + GenStore(x, lam, sv)
    case _ => Gen(e, lam, sv, false) + Plain(DROP)
  }

  function GenSeq(es: seq<Expr>, lam: Lambda, sv: set<Var>, tail: bool): Code
    decreases es, 0
  {
    if es == [] then []
    else if |es| == 1 then Gen(es[0], lam, sv, tail)
    else GenEffect(es[0], lam, sv) + GenSeq(es[1..], lam, sv, tail)
  }

  /** Operands pushed from the last to the first. */
  function GenRight(es: seq<Expr>, lam: Lambda, sv: set<Var>): Code
    decreases es, 0
  {
    if es == [] then [] else GenRight(es[1..], lam, sv) + Gen(es[0], lam, sv, false)
  }

  /** Operands pushed from the first to the last. */
  function GenLeft(es: seq<Expr>, lam: Lambda, sv: set<Var>): Code
    decreases es, 0
  {
    if es == [] then [] else Gen(es[0], lam, sv, false) + GenLeft(es[1..], lam, sv)
  }

  /** Room for internal definitions. */
  function GenReserve(n: nat): Code {
    Repeat(Push(Const(Undef)), n)
  }

  /** Move one assigned variable into a box (name . value). */
  function GenBox(n: Name, l: Lambda): (c: Code)
    ensures |c| == 4 + 3 * WORD
  {
    WithWord(LOCAL_REF, I(ParamIndex(l, n))) + Push(Const(Sym(n))) + Plain(CONS)
    + WithWord(LOCAL_SET, I(ParamIndex(l, n)))
  }

  function GenBoxes(names: seq<Name>, l: Lambda): Code {
    if names == [] then [] else GenBox(names[0], l) + GenBoxes(names[1..], l)
  }

  /** The code object of a lambda. */
  function GenBody(l: Lambda, sv: set<Var>): Code
    decreases l, 2
  {
    GenReserve(|l.locals|) + GenBoxes(l.sv, l) + Gen(l.body, l, sv, true) + Plain(RET)
  }

  /** Store fv[k..] into the closure vector on top of the stack. */
  function GenCaptures(fv: seq<Var>, k: nat, lam: Lambda, sv: set<Var>): Code
    decreases |fv| - k
  {
    if k >= |fv| then []
    else
      GenRef(fv[k], lam, sv, false) + Push(Fix(k)) + WithWord(STACK_REF, I(3)) + Plain(VECTOR_SET)
      + GenCaptures(fv, k + 1, lam, sv)
  }

  function GenLambda(l: Lambda, lam: Lambda, sv: set<Var>): Code
    decreases l, 3
  {
    if l.fv == [] then
      Push(Proc(|l.params|, l.rest.Some?, GenBody(l, sv), EmptyVector))
    else
      Push(Const(Void)) + Push(Fix(|l.fv|)) + Plain(MAKE_VECTOR)
      + GenCaptures(l.fv, 0, lam, sv)
      + [OpC(MAKE_PROCEDURE), WordC(I(if l.rest.Some? then 1 else 0))] + Pads
      + [WordC(I(|l.params|))] + Pads + [WordC(B(GenBody(l, sv)))] + Pads
  }
}
