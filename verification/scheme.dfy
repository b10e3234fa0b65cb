/**
  Analysed programs and their meaning.

  The syntax is what the analyser hands to the later passes: every reference
  is a pair (name, lambda), every lambda lists its parameters, its internal
  definitions, its assigned names `sv` and its free variables `fv`.

  The meaning is a reference evaluator in the style of the formal semantics of
  R7RS: every variable is bound to a location of a store, a pair is two
  neighbouring locations, a closure remembers an environment from variables to
  locations, and assignment and mutation write a location.  Nothing in it
  mentions boxes, frames or bytecode.
*/
module Scheme {
  import opened Options

  type Name = nat

  /** A local reference: a name together with the lambda that binds it. */
  datatype Var = Var(name: Name, lam: nat)

  datatype Const = Num(n: int) | Bool(b: bool) | Sym(name: Name) | Null | Void | Undef

  /** The inlined opcodes covered here (opcodes.c lists the table). */
  datatype Opcode =
    | Plus | Times | Minus | Quotient | Remainder
    | Less | LessEq | Greater | GreaterEq | NumEq
    | ConsOp | CarOp | CdrOp | SetCarOp | SetCdrOp | NullP

  datatype Expr =
    | Lit(c: Const)
    | Ref(x: Var)
    | Set(x: Var, e: Expr)
    | Cnd(test: Expr, pass: Expr, fail: Expr)
    | Seq(es: seq<Expr>)
    | Lam(l: Lambda)
    | App(f: Expr, args: seq<Expr>)
    | Prim(op: Opcode, args: seq<Expr>)

  datatype Lambda = Lambda(
    id: nat,
    params: seq<Name>,
    rest: Option<Name>,
    locals: seq<Name>,
    sv: seq<Name>,
    fv: seq<Var>,
    body: Expr)
  {
    /** Parameters, then the rest parameter. */
    function Formals(): seq<Name> {
      params + (if rest.Some? then [rest.value] else [])
    }

    /** Everything the lambda binds. */
    function Names(): seq<Name> {
      Formals() + locals
    }
  }

  // ---------------------------------------------------------------- opcodes

  datatype OpClass = Arithmetic | Comparison | Other

  function ClassOf(op: Opcode): OpClass {
    match op
    case Plus | Times | Minus | Quotient | Remainder => Arithmetic
    case Less | LessEq | Greater | GreaterEq | NumEq => Comparison
    case _ => Other
  }

  function NumArgs(op: Opcode): nat {
    match op
    case Plus | Times => 0
    case Minus | CarOp | CdrOp | NullP => 1
    case _ => 2
  }

  /** Opcodes that make, read or change pairs. */
  predicate OnPairs(op: Opcode) {
    op.ConsOp? || op.CarOp? || op.CdrOp? || op.SetCarOp? || op.SetCdrOp?
  }

  predicate Variadic(op: Opcode) {
    op.Plus? || op.Times? || op.Minus? || ClassOf(op) == Comparison
  }

  /** The `inverse` column: `-` takes its default first, `>` swaps its operands. */
  predicate Inverse(op: Opcode) {
    op.Minus? || op.Greater? || op.GreaterEq?
  }

  /** The default pushed when exactly `NumArgs` operands are given. */
  function Default(op: Opcode): Option<Const> {
    match op
    case Plus | Minus => Some(Num(0))
    case Times => Some(Num(1))
    case _ => None
  }

  predicate ArityOk(op: Opcode, n: nat) {
    n >= NumArgs(op) && (n > NumArgs(op) ==> Variadic(op))
  }

  /** Who takes how many operands. */
  lemma Arities(op: Opcode, n: nat)
    ensures ArityOk(op, n) <==>
              match op
              case Plus | Times => true
              case Minus => n >= 1
              case Less | LessEq | Greater | GreaterEq | NumEq => n >= 2
              case Quotient | Remainder | ConsOp | SetCarOp | SetCdrOp => n == 2
              case CarOp | CdrOp | NullP => n == 1
  {
  }

  /** C division truncates toward zero. */
  function TruncQuot(a: int, b: int): int
    requires b != 0
  {
    if a >= 0 then (if b > 0 then a / b else -(a / -b))
    else if b > 0 then -(-a / b) else -a / -b
  }

  function TruncRem(a: int, b: int): int
    requires b != 0
  {
    a - b * TruncQuot(a, b)
  }

  /** The remainder is smaller than the divisor and has the sign of the dividend. */
  lemma Truncates(a: int, b: int)
    requires b != 0
    ensures a == b * TruncQuot(a, b) + TruncRem(a, b)
    ensures (if a >= 0 then 0 <= TruncRem(a, b) else TruncRem(a, b) <= 0)
            && if b > 0 then -b < TruncRem(a, b) < b else b < TruncRem(a, b) < -b
  {
  }

  // ----------------------------------------------------------------- values

  /** A pair is its first location: the car is there, the cdr in the next one. */
  datatype Val =
    | Imm(c: Const)
    | PairAt(loc: nat)
    | Clo(l: Lambda, env: Env)

  type Env = map<Var, nat>
  type Store = seq<Val>

  datatype Result<+T> = Ok(value: T, st: Store) | Err | Timeout

  /** Make the list of the values, from its end. */
  function ListIn(st: Store, vs: seq<Val>): (Store, Val) {
    if vs == [] then (st, Imm(Null))
    else
      var (st1, tl) := ListIn(st, vs[1..]);
      (st1 + [vs[0], tl], PairAt(|st1|))
  }

  predicate Truthy(v: Val) {
    v != Imm(Bool(false))
  }

  // ------------------------------------------------------ primitive meaning

  /** One binary arithmetic step; None is a raised exception. */
  function Arith(op: Opcode, a: Val, b: Val): Option<Val> {
    if !(a.Imm? && a.c.Num? && b.Imm? && b.c.Num?) then None
    else
      match op
      case Plus => Some(Imm(Num(a.c.n + b.c.n)))
      case Times => Some(Imm(Num(a.c.n * b.c.n)))
      case Minus => Some(Imm(Num(a.c.n - b.c.n)))
      case Quotient => if b.c.n == 0 then None else Some(Imm(Num(TruncQuot(a.c.n, b.c.n))))
      case Remainder => if b.c.n == 0 then None else Some(Imm(Num(TruncRem(a.c.n, b.c.n))))
      case _ => None
  }

  /** ((v0 op v1) op v2) ... */
  function FoldArith(op: Opcode, acc: Val, vs: seq<Val>): Option<Val>
    decreases vs
  {
    if vs == [] then Some(acc)
    else match Arith(op, acc, vs[0])
      case None => None
      case Some(r) => FoldArith(op, r, vs[1..])
  }

  predicate Holds(op: Opcode, a: int, b: int) {
    match op
    case Less => a < b
    case LessEq => a <= b
    case Greater => a > b
    case GreaterEq => a >= b
    case _ => a == b
  }

  predicate AllNums(vs: seq<Val>) {
    forall i :: 0 <= i < |vs| ==> vs[i].Imm? && vs[i].c.Num?
  }

  /** Every neighbouring pair is in the relation. */
  predicate Chain(op: Opcode, vs: seq<Val>)
    requires AllNums(vs)
  {
    forall i :: 0 <= i < |vs| - 1 ==> Holds(op, vs[i].c.n, vs[i + 1].c.n)
  }

  /** The value of an opcode application that needs no store; None is a raised exception. */
  function PrimValue(op: Opcode, vs: seq<Val>): Option<Val>
    requires ArityOk(op, |vs|) && !OnPairs(op)
  {
    match op
    case Plus => if vs == [] then Some(Imm(Num(0))) else FoldArith(op, vs[0], vs[1..])
    case Times => if vs == [] then Some(Imm(Num(1))) else FoldArith(op, vs[0], vs[1..])
    case Minus => if |vs| == 1 then Arith(op, Imm(Num(0)), vs[0]) else FoldArith(op, vs[0], vs[1..])
    case Quotient => Arith(op, vs[0], vs[1])
    case Remainder => Arith(op, vs[0], vs[1])
    case NullP => Some(Imm(Bool(vs[0] == Imm(Null))))
    case _ => if AllNums(vs) then Some(Imm(Bool(Chain(op, vs)))) else None
  }

  predicate IsPair(st: Store, v: Val) {
    v.PairAt? && v.loc + 1 < |st|
  }

  // ----------------------------------------------------------- data as seen

  /** What a program can tell a value to be without calling it. */
  datatype Datum = Atom(c: Const) | APair | AProcedure | AVector

  function Kind(v: Val): Datum {
    match v
    case Imm(c) => Atom(c)
    case PairAt(_) => APair
    case Clo(_, _) => AProcedure
  }

  /** Where a path of fields leads; true stands for a car. */
  function Look(st: Store, v: Val, path: seq<bool>): Option<Val>
    decreases |path|
  {
    if path == [] then Some(v)
    else if IsPair(st, v) then Look(st, st[v.loc + if path[0] then 0 else 1], path[1..])
    else None
  }

  function Seen(st: Store, v: Val, path: seq<bool>): Option<Datum> {
    match Look(st, v, path) case Some(u) => Some(Kind(u)) case None => None
  }

  /** Both paths lead to one and the same pair. */
  predicate Shared(st: Store, v: Val, path: seq<bool>, other: seq<bool>) {
    Look(st, v, path).Some? && Look(st, v, path).value.PairAt? && Look(st, v, path) == Look(st, v, other)
  }

  /** Every path leads to the same, and the same pairs are shared, around every cycle. */
  ghost predicate SameData(st: Store, v: Val, st1: Store, v1: Val) {
    && (forall path :: Seen(st, v, path) == Seen(st1, v1, path))
    && (forall path, other :: Shared(st, v, path, other) <==> Shared(st1, v1, path, other))
  }

  // ---------------------------------------------------------- opcodes on pairs

  /** Value and store after an opcode on pairs. */
  function PairStep(op: Opcode, vs: seq<Val>, st: Store): Option<(Val, Store)>
    requires ArityOk(op, |vs|) && OnPairs(op)
  {
    if op.ConsOp? then Some((PairAt(|st|), st + [vs[0], vs[1]]))
    else if !IsPair(st, vs[0]) then None
    else
      var at := vs[0].loc + if op.CarOp? || op.SetCarOp? then 0 else 1;
      if op.CarOp? || op.CdrOp? then Some((st[at], st)) else Some((Imm(Void), st[at := vs[1]]))
  }

  /** Value and store after any opcode application. */
  function PrimStep(op: Opcode, vs: seq<Val>, st: Store): Option<(Val, Store)>
    requires ArityOk(op, |vs|)
  {
    if OnPairs(op) then PairStep(op, vs, st)
    else match PrimValue(op, vs)
      case None => None
      case Some(v) => Some((v, st))
  }

  // ---------------------------------------------------------------- binding

  /** Bind names[i] of lambda `id` to location base + i. */
  function Extend(env: Env, names: seq<Name>, id: nat, base: nat): Env
    decreases names
  {
    if names == [] then env
    else Extend(env[Var(names[0], id) := base], names[1..], id, base + 1)
  }

  /** Does the lambda take that many arguments? */
  predicate Takes(l: Lambda, n: nat) {
    n == |l.params| || (n > |l.params| && l.rest.Some?)
  }

  /** The store once surplus arguments have become a list. */
  function RestStore(l: Lambda, vs: seq<Val>, st: Store): Store
    requires Takes(l, |vs|)
  {
    if l.rest.Some? then ListIn(st, vs[|l.params|..]).0 else st
  }

  /** The values of everything a lambda binds, when it is called on `vs`. */
  function Actuals(l: Lambda, vs: seq<Val>, st: Store): (r: seq<Val>)
    requires Takes(l, |vs|)
    ensures |r| == |l.Names()|
  {
    vs[..|l.params|]
    + (if l.rest.Some? then [ListIn(st, vs[|l.params|..]).1] else [])
    + seq(|l.locals|, _ => Imm(Undef))
  }

  // --------------------------------------------------------------- evaluator

  /**
    Operands are evaluated from the last to the first and the operator after
    them, which is the order the generated code uses; the swapped comparisons
    take theirs from the first to the last.  Only procedure calls consume fuel.
  */
  function Eval(e: Expr, env: Env, st: Store, fuel: nat): Result<Val>
    decreases fuel, 1, e
  {
    match e
    case Lit(c) => Ok(Imm(c), st)
    case Ref(x) =>
      if x in env && env[x] < |st| then Ok(st[env[x]], st) else Err
    case Set(x, e1) =>
      (match Eval(e1, env, st, fuel)
       case Ok(v, st1) =>
         if x in env && env[x] < |st1| then Ok(Imm(Void), st1[env[x] := v]) else Err
       case Err => Err
       case Timeout => Timeout)
    case Cnd(test, pass, fail) =>
      (match Eval(test, env, st, fuel)
       case Ok(v, st1) =>
         if Truthy(v) then Eval(pass, env, st1, fuel) else Eval(fail, env, st1, fuel)
       case Err => Err
       case Timeout => Timeout)
    case Seq(es) => EvalSeq(es, env, st, fuel)
    case Lam(l) => Ok(Clo(l, env), st)
    case App(f, args) =>
      (match EvalRight(args, env, st, fuel)
       case Ok(vs, st1) =>
         (match Eval(f, env, st1, fuel)
          case Ok(fv, st2) => Apply(fv, vs, st2, fuel)
          case Err => Err
          case Timeout => Timeout)
       case Err => Err
       case Timeout => Timeout)
    case Prim(op, args) =>
      if !ArityOk(op, |args|) then Err
      else
        match (if Inverse(op) && ClassOf(op) == Comparison
               then EvalLeft(args, env, st, fuel) else EvalRight(args, env, st, fuel))
        case Ok(vs, st1) =>
          (match PrimStep(op, vs, st1) case Some((v, st2)) => Ok(v, st2) case None => Err)
        case Err => Err
        case Timeout => Timeout
  }

  function EvalSeq(es: seq<Expr>, env: Env, st: Store, fuel: nat): Result<Val>
    decreases fuel, 1, es
  {
    if es == [] then Ok(Imm(Void), st)
    else if |es| == 1 then Eval(es[0], env, st, fuel)
    else match Eval(es[0], env, st, fuel)
      case Ok(_, st1) => EvalSeq(es[1..], env, st1, fuel)
      case Err => Err
      case Timeout => Timeout
  }

  /** Operand values in order, evaluated from the last to the first. */
  function EvalRight(es: seq<Expr>, env: Env, st: Store, fuel: nat): (r: Result<seq<Val>>)
    ensures r.Ok? ==> |r.value| == |es|
    decreases fuel, 1, es
  {
    if es == [] then Ok([], st)
    else match EvalRight(es[1..], env, st, fuel)
      case Ok(vs, st1) =>
        (match Eval(es[0], env, st1, fuel)
         case Ok(v, st2) => Ok([v] + vs, st2)
         case Err => Err
         case Timeout => Timeout)
      case Err => Err
      case Timeout => Timeout
  }

  /** Operand values in order, evaluated from the first to the last. */
  function EvalLeft(es: seq<Expr>, env: Env, st: Store, fuel: nat): (r: Result<seq<Val>>)
    ensures r.Ok? ==> |r.value| == |es|
    decreases fuel, 1, es
  {
    if es == [] then Ok([], st)
    else match Eval(es[0], env, st, fuel)
      case Ok(v, st1) =>
        (match EvalLeft(es[1..], env, st1, fuel)
         case Ok(vs, st2) => Ok([v] + vs, st2)
         case Err => Err
         case Timeout => Timeout)
      case Err => Err
      case Timeout => Timeout
  }

  function Apply(f: Val, vs: seq<Val>, st: Store, fuel: nat): Result<Val>
    decreases fuel, 0
  {
    if !f.Clo? || !Takes(f.l, |vs|) then Err
    else if fuel == 0 then Timeout
    else
      var st1 := RestStore(f.l, vs, st);
      Eval(f.l.body, Extend(f.env, f.l.Names(), f.l.id, |st1|), st1 + Actuals(f.l, vs, st), fuel - 1)
  }
}
