/**
  Opcode applications: with the operands on the stack, the emitted operator
  leaves a word for the opcode's value, or raises exactly when it has none.
*/
module Prims {
  import opened Options
  import opened Scheme
  import opened Bytecode
  import opened Codegen
  import opened Relation
  import opened Steps
  import Entry

  /** What a piece of operator code achieves: raise, or leave one word in place of the operands. */
  ghost predicate Computes(rep: Rep, sv: set<Var>, s: State, base: seq<Word>, len: int, v: Option<Val>,
                           n: nat, w: Word, heap: Heap)
  {
    match v
    case None => Run(s, n) == Raised
    case Some(v) =>
      && Run(s, n) == Next(After(s, base + [w], len, heap))
      && Grows(rep, s.heap, rep, heap) && |heap| >= |s.heap| && heap[..|s.heap|] == s.heap
      && ValRel(rep, heap, sv, v, w)
  }

  lemma GrowsRefl(rep: Rep, heap: Heap)
    ensures Grows(rep, heap, rep, heap)
  {
  }

  // ------------------------------------------------------------- arithmetic

  lemma ArithRel(rep: Rep, heap: Heap, sv: set<Var>, op: Opcode, a: Val, wa: Word, b: Val, wb: Word)
    requires ValRel(rep, heap, sv, a, wa) && ValRel(rep, heap, sv, b, wb)
    requires ClassOf(op) == Arithmetic
    ensures Arith(op, a, b).None? ==> ArithWord(OpOf(op), wa, wb).None?
    ensures Arith(op, a, b).Some? ==>
              Arith(op, a, b).value.Imm? && ArithWord(OpOf(op), wa, wb) == Some(Const(Arith(op, a, b).value.c))
  {
  }

  lemma {:induction false} DoFold(rep: Rep, sv: set<Var>, op: Opcode, acc: Val, accw: Word, vs: seq<Val>, ws: seq<Word>,
                                  base: seq<Word>, s: State)
    returns (n: nat, w: Word)
    requires s.self.Proc? && ClassOf(op) == Arithmetic
    requires CodeAt(s.self.code, s.ip, Repeat(Plain(OpOf(op)), |vs|))
    requires s.stack == base + Reverse(ws) + [accw]
    requires ValRel(rep, s.heap, sv, acc, accw) && ValsRel(rep, s.heap, sv, vs, ws)
    ensures Computes(rep, sv, s, base, |vs|, FoldArith(op, acc, vs), n, w, s.heap)
    decreases vs
  {
    hide Step;
    if vs == [] {
      n, w := 0, accw;
      assert base + Reverse(ws) + [accw] == base + [accw];
      GrowsRefl(rep, s.heap);
    } else {
      var c := Plain(OpOf(op));
      assert Repeat(c, |vs|) == c + Repeat(c, |vs| - 1);
      CodeSplit(s.self.code, s.ip, c, Repeat(c, |vs| - 1));
      var below := base + Reverse(ws[1..]);
      assert s.stack == below + [ws[0]] + [accw];
      assert ValRel(rep, s.heap, sv, vs[0], ws[0]);
      DoArith(s, OpOf(op), below, ws[0], accw);
      ArithRel(rep, s.heap, sv, op, acc, accw, vs[0], ws[0]);
      if Arith(op, acc, vs[0]).None? {
        n, w := 1, accw;
      } else {
        var v1 := Arith(op, acc, vs[0]).value;
        var t := After(s, below + [Const(v1.c)], 1, s.heap);
        var m;
        m, w := DoFold(rep, sv, op, v1, Const(v1.c), vs[1..], ws[1..], base, t);
        Chain2(s, 1, t, m);
        n := 1 + m;
      }
    }
  }

  // ------------------------------------------------------------- comparison

  predicate NumWords(ws: seq<Word>) {
    forall i :: 0 <= i < |ws| ==> ws[i].Const? && ws[i].c.Num?
  }

  predicate HoldsWord(op: Op, a: int, b: int) {
    if op.LT? then a < b else if op.LE? then a <= b else a == b
  }

  /** Neighbouring operands from `k` on are in the relation. */
  predicate ChainWord(op: Op, us: seq<Word>, k: nat)
    requires NumWords(us)
  {
    forall i :: k <= i < |us| - 1 ==> HoldsWord(op, us[i].c.n, us[i + 1].c.n)
  }

  lemma ReverseTail(us: seq<Word>, k: nat)
    requires k < |us|
    ensures Reverse(us[k..]) == Reverse(us[k + 1..]) + [us[k]]
  {
    assert us[k..][1..] == us[k + 1..];
  }

  /** Code positions of CompareNext. */
  lemma CompareCode(code: Code, ip: int, op: Op, rest: Code)
    requires CodeAt(code, ip, CompareNext(op) + rest)
    ensures CodeAt(code, ip, WithWord(STACK_REF, I(3))) && CodeAt(code, ip + 1 + WORD, WithWord(STACK_REF, I(3)))
    ensures CodeAt(code, ip + 2 + 2 * WORD, Plain(op)) && CodeAt(code, ip + 3 + 2 * WORD, Plain(AND))
    ensures CodeAt(code, ip + 4 + 2 * WORD, Plain(AND)) && CodeAt(code, ip + 5 + 2 * WORD, rest)
  {
    CodeSplit(code, ip, CompareNext(op), rest);
    CodeSplit(code, ip, WithWord(STACK_REF, I(3)) + WithWord(STACK_REF, I(3)) + Plain(op) + Plain(AND), Plain(AND));
    CodeSplit4(code, ip, WithWord(STACK_REF, I(3)), WithWord(STACK_REF, I(3)), Plain(op), Plain(AND));
  }

  /** One turn of the chain: [.., y, x, b] becomes [.., y, b and x op y]. */
  lemma DoCompareNext(op: Op, below: seq<Word>, y: Word, x: Word, b: bool, s: State, rest: Code)
    returns (n: nat)
    requires op.LT? || op.LE? || op.EQN?
    requires s.self.Proc? && CodeAt(s.self.code, s.ip, CompareNext(op) + rest)
    requires s.stack == below + [y, x, Const(Bool(b))] && x.Const? && x.c.Num?
    ensures !(y.Const? && y.c.Num?) ==> Run(s, n) == Raised
    ensures y.Const? && y.c.Num? ==>
              Run(s, n) == Next(After(s, below + [y, Const(Bool(b && HoldsWord(op, x.c.n, y.c.n)))], 5 + 2 * WORD, s.heap))
  {
    hide Step;
    hide Run;
    hide CompareNext;
    CompareCode(s.self.code, s.ip, op, rest);
    DoStackRef(s, 3);
    var s1 := After(s, s.stack + [y], 1 + WORD, s.heap);
    DoStackRef(s1, 3);
    var s2 := After(s1, s1.stack + [x], 1 + WORD, s.heap);
    assert s2.stack == s.stack + [y] + [x];
    Chain2(s, 1, s1, 1);
    DoArith(s2, op, s.stack, y, x);
    Chain2(s, 2, s2, 1);
    n := 3;
    if y.Const? && y.c.Num? {
      var c := HoldsWord(op, x.c.n, y.c.n);
      assert ArithWord(op, x, y) == Some(Const(Bool(c)));
      var s3 := After(s2, s.stack + [Const(Bool(c))], 1, s.heap);
      assert s3.stack == below + [y, x] + [Const(Bool(b))] + [Const(Bool(c))];
      DoAnd(s3, below + [y, x], Const(Bool(b)), Const(Bool(c)));
      Chain2(s, 3, s3, 1);
      var s4 := After(s3, below + [y, x] + [Const(Bool(c && b))], 1, s.heap);
      assert s4.stack == below + [y] + [x] + [Const(Bool(c && b))];
      DoAnd(s4, below + [y], x, Const(Bool(c && b)));
      Chain2(s, 4, s4, 1);
      n := 5;
      assert below + [y] + [Const(Bool(c && b))] == below + [y, Const(Bool(b && c))];
    }
  }

  /** The remaining turns: the operands from us[k] on are still on the stack, under the result so far. */
  lemma {:induction false} DoCompareRest(op: Op, base: seq<Word>, us: seq<Word>, k: nat, b: bool, s: State, rest: Code)
    returns (n: nat)
    requires op.LT? || op.LE? || op.EQN?
    requires k < |us| && s.self.Proc?
    requires CodeAt(s.self.code, s.ip, Repeat(CompareNext(op), |us| - 1 - k) + rest)
    requires s.stack == base + Reverse(us[k..]) + [Const(Bool(b))]
    requires us[k].Const? && us[k].c.Num?
    ensures !NumWords(us[k..]) ==> Run(s, n) == Raised
    ensures NumWords(us[k..]) ==>
              Run(s, n) == Next(After(s, base + [us[|us| - 1], Const(Bool(b && ChainWord(op, us[k..], 0)))],
                                      (|us| - 1 - k) * (5 + 2 * WORD), s.heap))
    ensures |Repeat(CompareNext(op), |us| - 1 - k)| == (|us| - 1 - k) * (5 + 2 * WORD)
    decreases |us| - k
  {
    hide Step;
    hide CompareNext;
    var c := CompareNext(op);
    assert |c| == 5 + 2 * WORD by {
      CompareLength(op);
    }
    ReverseTail(us, k);
    if k == |us| - 1 {
      n := 0;
      assert us[k + 1..] == [];
      assert s.stack == base + [us[k], Const(Bool(b))];
    } else {
      var more := Repeat(c, |us| - 2 - k);
      assert Repeat(c, |us| - 1 - k) == c + more;
      assert c + more + rest == c + (more + rest);
      ReverseTail(us, k + 1);
      var below := base + Reverse(us[k + 2..]);
      assert s.stack == below + [us[k + 1], us[k], Const(Bool(b))];
      var m := DoCompareNext(op, below, us[k + 1], us[k], b, s, more + rest);
      n := m;
      if us[k + 1].Const? && us[k + 1].c.Num? {
        var b1 := b && HoldsWord(op, us[k].c.n, us[k + 1].c.n);
        var t := After(s, below + [us[k + 1], Const(Bool(b1))], |c|, s.heap);
        assert t.stack == base + Reverse(us[k + 1..]) + [Const(Bool(b1))];
        CodeSplit(s.self.code, s.ip, c, more + rest);
        var m2 := DoCompareRest(op, base, us, k + 1, b1, t, rest);
        Chain2(s, m, t, m2);
        n := m + m2;
        ChainTail(op, us, k);
        DistributeLength(|us| - 1 - k);
      } else {
        assert us[k..][1] == us[k + 1];
        CompareRestLength(op, |us| - 2 - k);
        DistributeLength(|us| - 1 - k);
      }
    }
  }

  lemma CompareLength(op: Op)
    ensures |CompareNext(op)| == 5 + 2 * WORD
  {
  }

  lemma DistributeLength(n: nat)
    requires n > 0
    ensures n * (5 + 2 * WORD) == (5 + 2 * WORD) + (n - 1) * (5 + 2 * WORD)
  {
  }

  lemma {:induction false} CompareRestLength(op: Op, n: nat)
    ensures |Repeat(CompareNext(op), n)| == n * (5 + 2 * WORD)
    decreases n
  {
    if n > 0 {
      CompareLength(op);
      CompareRestLength(op, n - 1);
      DistributeLength(n);
    }
  }

  lemma ChainTail(op: Op, us: seq<Word>, k: nat)
    requires k + 1 < |us| && us[k].Const? && us[k].c.Num?
    ensures NumWords(us[k..]) <==> NumWords(us[k + 1..])
    ensures NumWords(us[k..]) ==>
              (ChainWord(op, us[k..], 0) <==>
               HoldsWord(op, us[k].c.n, us[k + 1].c.n) && ChainWord(op, us[k + 1..], 0))
  {
    var a, b := us[k..], us[k + 1..];
    assert forall i :: 0 <= i < |b| ==> b[i] == a[i + 1];
    if NumWords(b) {
      forall i | 0 <= i < |a| ensures a[i].Const? && a[i].c.Num? {
        if i > 0 { assert a[i] == b[i - 1]; }
      }
      if ChainWord(op, a, 0) {
        forall i | 0 <= i < |b| - 1 ensures HoldsWord(op, b[i].c.n, b[i + 1].c.n) {
          assert HoldsWord(op, a[i + 1].c.n, a[i + 2].c.n);
        }
        assert HoldsWord(op, a[0].c.n, a[1].c.n);
      }
      if HoldsWord(op, us[k].c.n, us[k + 1].c.n) && ChainWord(op, b, 0) {
        forall i | 0 <= i < |a| - 1 ensures HoldsWord(op, a[i].c.n, a[i + 1].c.n) {
          if i > 0 { assert HoldsWord(op, b[i - 1].c.n, b[i].c.n); }
        }
      }
    }
  }

  /** The whole comparison: `us` holds the operands, the first of them on top of the stack. */
  lemma {:induction false} DoCompare(op: Op, base: seq<Word>, us: seq<Word>, s: State, code: Code)
    returns (n: nat)
    requires op.LT? || op.LE? || op.EQN?
    requires |us| >= 2 && s.self.Proc? && s.stack == base + Reverse(us)
    requires code == CompareCodeFor(op, |us|) && CodeAt(s.self.code, s.ip, code)
    ensures !NumWords(us) ==> Run(s, n) == Raised
    ensures NumWords(us) ==>
              Run(s, n) == Next(After(s, base + [Const(Bool(ChainWord(op, us, 0)))], |code|, s.heap))
  {
    hide Step;
    hide Repeat;
    hide Run;
    hide Reverse;
    ReverseTail(us, 0);
    ReverseTail(us, 1);
    assert us[0..] == us;
    var below := base + Reverse(us[2..]);
    assert s.stack == below + [us[1]] + [us[0]];
    if |us| == 2 {
      assert us[2..] == [] && below == base;
      DoArith(s, op, base, us[1], us[0]);
      n := 1;
      if NumWords(us) {
        assert ChainWord(op, us, 0) == HoldsWord(op, us[0].c.n, us[1].c.n);
      }
    } else {
      n := DoCompareMany(op, base, us, below, s, code);
    }
  }

  function CompareCodeFor(op: Op, n: nat): Code {
    if n > 2 then
      WithWord(STACK_REF, I(2)) + WithWord(STACK_REF, I(2)) + Plain(op) + Plain(AND)
      + Repeat(CompareNext(op), n - 2) + Plain(AND)
    else Plain(op)
  }

  /** The opening of a chain: compare the first two operands and drop the first. */
  lemma DoCompareFirst(op: Op, below: seq<Word>, y: Word, x: Word, s: State)
    returns (n: nat)
    requires op.LT? || op.LE? || op.EQN?
    requires s.self.Proc? && s.stack == below + [y] + [x]
    requires CodeAt(s.self.code, s.ip, WithWord(STACK_REF, I(2)) + WithWord(STACK_REF, I(2)) + Plain(op) + Plain(AND))
    ensures !(x.Const? && x.c.Num? && y.Const? && y.c.Num?) ==> Run(s, n) == Raised
    ensures x.Const? && x.c.Num? && y.Const? && y.c.Num? ==>
              Run(s, n) == Next(After(s, below + [y, Const(Bool(HoldsWord(op, x.c.n, y.c.n)))], 4 + 2 * WORD, s.heap))
  {
    hide Step;
    CodeSplit4(s.self.code, s.ip, WithWord(STACK_REF, I(2)), WithWord(STACK_REF, I(2)), Plain(op), Plain(AND));
    DoStackRef(s, 2);
    var s1 := After(s, s.stack + [y], 1 + WORD, s.heap);
    DoStackRef(s1, 2);
    var s2 := After(s1, s1.stack + [x], 1 + WORD, s.heap);
    Chain2(s, 1, s1, 1);
    DoArith(s2, op, s.stack, y, x);
    Chain2(s, 2, s2, 1);
    n := 3;
    if x.Const? && x.c.Num? && y.Const? && y.c.Num? {
      var c := Const(Bool(HoldsWord(op, x.c.n, y.c.n)));
      var s3 := After(s2, s.stack + [c], 1, s.heap);
      assert s3.stack == below + [y] + [x] + [c];
      DoAnd(s3, below + [y], x, c);
      Chain2(s, 3, s3, 1);
      n := 4;
      assert below + [y] + [c] == below + [y, c];
    }
  }

  lemma CompareManyCode(op: Op, n: nat)
    requires n > 2
    ensures var head := WithWord(STACK_REF, I(2)) + WithWord(STACK_REF, I(2)) + Plain(op) + Plain(AND);
            CompareCodeFor(op, n) == head + (Repeat(CompareNext(op), n - 2) + Plain(AND)) && |head| == 4 + 2 * WORD
  {
    hide CompareNext;
  }

  lemma DoCompareMany(op: Op, base: seq<Word>, us: seq<Word>, below: seq<Word>, s: State, code: Code)
    returns (n: nat)
    requires op.LT? || op.LE? || op.EQN?
    requires |us| > 2 && s.self.Proc? && below == base + Reverse(us[2..]) && s.stack == below + [us[1]] + [us[0]]
    requires code == CompareCodeFor(op, |us|) && CodeAt(s.self.code, s.ip, code)
    ensures !NumWords(us) ==> Run(s, n) == Raised
    ensures NumWords(us) ==>
              Run(s, n) == Next(After(s, base + [Const(Bool(ChainWord(op, us, 0)))], |code|, s.heap))
  {
    hide Step;
    hide CompareNext;
    hide CompareCodeFor;
    hide CodeAt;
    hide WithWord;
    hide Repeat;
    hide HoldsWord;
    var head := WithWord(STACK_REF, I(2)) + WithWord(STACK_REF, I(2)) + Plain(op) + Plain(AND);
    var loop := Repeat(CompareNext(op), |us| - 2);
    CompareManyCode(op, |us|);
    CodeSplit(s.self.code, s.ip, head, loop + Plain(AND));
    var m := DoCompareFirst(op, below, us[1], us[0], s);
    n := m;
    assert us[0..] == us && us[1..][0] == us[1];
    if us[0].Const? && us[0].c.Num? && us[1].Const? && us[1].c.Num? {
      var b := HoldsWord(op, us[0].c.n, us[1].c.n);
      var t := After(s, below + [us[1], Const(Bool(b))], 4 + 2 * WORD, s.heap);
      ReverseTail(us, 1);
      assert t.stack == base + Reverse(us[1..]) + [Const(Bool(b))];
      var m2 := DoCompareTail(op, base, us, b, t);
      Chain2(s, m, t, m2);
      n := m + m2;
      ChainTail(op, us, 0);
    }
  }

  /** From the second operand on: the remaining turns, then drop the last operand. */
  lemma DoCompareTail(op: Op, base: seq<Word>, us: seq<Word>, b: bool, s: State)
    returns (n: nat)
    requires op.LT? || op.LE? || op.EQN?
    requires |us| > 2 && s.self.Proc? && us[1].Const? && us[1].c.Num?
    requires s.stack == base + Reverse(us[1..]) + [Const(Bool(b))]
    requires CodeAt(s.self.code, s.ip, Repeat(CompareNext(op), |us| - 2) + Plain(AND))
    ensures !NumWords(us[1..]) ==> Run(s, n) == Raised
    ensures NumWords(us[1..]) ==>
              Run(s, n) == Next(After(s, base + [Const(Bool(b && ChainWord(op, us[1..], 0)))],
                                      |Repeat(CompareNext(op), |us| - 2)| + 1, s.heap))
  {
    hide Step;
    hide CompareNext;
    var loop := Repeat(CompareNext(op), |us| - 2);
    n := DoCompareRest(op, base, us, 1, b, s, Plain(AND));
    if NumWords(us[1..]) {
      var last := us[|us| - 1];
      assert us[1..][|us| - 2] == last;
      var r := Const(Bool(b && ChainWord(op, us[1..], 0)));
      var t := After(s, base + [last, r], |loop|, s.heap);
      CodeSplit(s.self.code, s.ip, loop, Plain(AND));
      assert t.stack == base + [last] + [r];
      DoAnd(t, base, last, r);
      Chain2(s, n, t, 1);
      n := n + 1;
    }
  }

  lemma NumsRel(rep: Rep, heap: Heap, sv: set<Var>, vs: seq<Val>, ws: seq<Word>)
    requires ValsRel(rep, heap, sv, vs, ws)
    ensures AllNums(vs) <==> NumWords(ws)
    ensures AllNums(vs) ==> forall i :: 0 <= i < |vs| ==> ws[i].c.n == vs[i].c.n
  {
    forall i | 0 <= i < |vs|
      ensures vs[i].Imm? && vs[i].c.Num? <==> ws[i].Const? && ws[i].c.Num?
      ensures vs[i].Imm? && vs[i].c.Num? ==> ws[i].c.n == vs[i].c.n
    {
      assert ValRel(rep, heap, sv, vs[i], ws[i]);
    }
  }

  /** A swapped comparison holds of the operands the other way round. */
  lemma Swapped(op: Opcode, a: int, b: int)
    requires ClassOf(op) == Comparison
    ensures HoldsWord(OpOf(op), if Inverse(op) then b else a, if Inverse(op) then a else b) == Holds(op, a, b)
  {
  }

  /** Comparing the pushed words decides the source-level chain, swapped operands included. */
  lemma {:induction false} ChainRel(op: Opcode, vs: seq<Val>, ws: seq<Word>)
    requires ClassOf(op) == Comparison && AllNums(vs) && |vs| == |ws|
    requires forall i :: 0 <= i < |vs| ==> ws[i] == Fix(vs[i].c.n)
    ensures NumWords(ws) && NumWords(Reverse(ws))
    ensures NumWords(ComparisonOrder(op, ws)) && (ChainWord(OpOf(op), ComparisonOrder(op, ws), 0) <==> Chain(op, vs))
  {
    hide HoldsWord;
    hide Holds;
    hide OpOf;
    hide Reverse;
    var r, n := Reverse(ws), |ws|;
    if Inverse(op) {
      forall i | 0 <= i < n - 1
        ensures HoldsWord(OpOf(op), r[n - 2 - i].c.n, r[n - 1 - i].c.n) == Holds(op, vs[i].c.n, vs[i + 1].c.n)
      {
        ReverseItem(ws, n - 2 - i);
        ReverseItem(ws, n - 1 - i);
        Swapped(op, vs[i].c.n, vs[i + 1].c.n);
      }
      if ChainWord(OpOf(op), r, 0) {
        forall i | 0 <= i < n - 1 ensures Holds(op, vs[i].c.n, vs[i + 1].c.n) {
          assert HoldsWord(OpOf(op), r[n - 2 - i].c.n, r[n - 2 - i + 1].c.n);
        }
      }
      if Chain(op, vs) {
        forall j | 0 <= j < n - 1 ensures HoldsWord(OpOf(op), r[j].c.n, r[j + 1].c.n) {
          assert Holds(op, vs[n - 2 - j].c.n, vs[n - 2 - j + 1].c.n);
        }
      }
    } else {
      forall i | 0 <= i < n - 1
        ensures HoldsWord(OpOf(op), ws[i].c.n, ws[i + 1].c.n) == Holds(op, vs[i].c.n, vs[i + 1].c.n)
      {
        Swapped(op, vs[i].c.n, vs[i + 1].c.n);
      }
    }
  }

  /** Operands as they lie on the stack: the first on top, or the last for the swapped comparisons. */
  function Pushed(op: Opcode, ws: seq<Word>): seq<Word> {
    if Inverse(op) && ClassOf(op) == Comparison then ws else Reverse(ws)
  }

  lemma OperatorCode(op: Opcode, n: nat)
    requires ClassOf(op) == Comparison
    ensures GenOperator(op, n) == CompareCodeFor(OpOf(op), n)
    ensures OpOf(op).LT? || OpOf(op).LE? || OpOf(op).EQN?
  {
  }

  lemma ReverseNums(ws: seq<Word>)
    ensures NumWords(ws) <==> NumWords(Reverse(ws))
  {
    var r := Reverse(ws);
    forall i | 0 <= i < |ws| ensures ws[i] == r[|ws| - 1 - i] {
    }
  }

  /** The comparison runs over the operands in this order. */
  function ComparisonOrder(op: Opcode, ws: seq<Word>): seq<Word> {
    if Inverse(op) then Reverse(ws) else ws
  }

  lemma ComparisonPushed(op: Opcode, ws: seq<Word>)
    requires ClassOf(op) == Comparison
    ensures |ComparisonOrder(op, ws)| == |ws|
    ensures Pushed(op, ws) == Reverse(ComparisonOrder(op, ws))
    ensures NumWords(ws) <==> NumWords(ComparisonOrder(op, ws))
  {
    ReverseTwice(ws);
    ReverseNums(ws);
  }

  lemma PrimComparison(op: Opcode, vs: seq<Val>)
    requires ClassOf(op) == Comparison && ArityOk(op, |vs|)
    ensures PrimValue(op, vs) == if AllNums(vs) then Some(Imm(Bool(Chain(op, vs)))) else None
  {
  }

  lemma DoComparison(rep: Rep, sv: set<Var>, op: Opcode, vs: seq<Val>, ws: seq<Word>, base: seq<Word>, s: State)
    returns (n: nat, w: Word)
    requires ClassOf(op) == Comparison && ArityOk(op, |vs|) && ValsRel(rep, s.heap, sv, vs, ws)
    requires s.self.Proc? && CodeAt(s.self.code, s.ip, GenOperator(op, |vs|)) && s.stack == base + Pushed(op, ws)
    ensures Computes(rep, sv, s, base, |GenOperator(op, |vs|)|, PrimValue(op, vs), n, w, s.heap)
  {
    hide Step;
    hide GenOperator;
    hide CompareCodeFor;
    hide NumWords;
    hide PrimValue;
    hide Pushed;
    hide ComparisonOrder;
    hide ChainWord;
    hide Chain;
    var us := ComparisonOrder(op, ws);
    ComparisonPushed(op, ws);
    OperatorCode(op, |vs|);
    n := DoCompare(OpOf(op), base, us, s, GenOperator(op, |vs|));
    NumsRel(rep, s.heap, sv, vs, ws);
    w := Const(Void);
    GrowsRefl(rep, s.heap);
    PrimComparison(op, vs);
    if AllNums(vs) {
      ChainRel(op, vs, ws);
      w := Const(Bool(Chain(op, vs)));
    }
  }

  // ------------------------------------------------------------ the others

  lemma DoNullTest(rep: Rep, sv: set<Var>, vs: seq<Val>, ws: seq<Word>, base: seq<Word>, s: State)
    returns (n: nat, w: Word)
    requires |vs| == 1 && ValsRel(rep, s.heap, sv, vs, ws)
    requires s.self.Proc? && CodeAt(s.self.code, s.ip, Plain(NULLP)) && s.stack == base + Reverse(ws)
    ensures Computes(rep, sv, s, base, 1, PrimValue(NullP, vs), n, w, s.heap)
  {
    hide Step;
    GrowsRefl(rep, s.heap);
    assert ValRel(rep, s.heap, sv, vs[0], ws[0]);
    assert ws == [ws[0]] && Reverse(ws) == [ws[0]];
    DoNullP(s, base, ws[0]);
    n, w := 1, Const(Bool(ws[0] == Const(Null)));
  }

  // ------------------------------------------------------------------ pairs

  /** What operator code on pairs achieves, with the store it works on. */
  ghost predicate ComputesIn(rep: Rep, sv: set<Var>, s: State, base: seq<Word>, len: int, r: Option<(Val, Store)>,
                             n: nat, w: Word, heap: Heap, rep1: Rep)
  {
    match r
    case None => Run(s, n) == Raised
    case Some((v, st)) =>
      && Run(s, n) == Next(After(s, base + [w], len, heap))
      && Grows(rep, s.heap, rep1, heap) && StoreRel(rep1, heap, sv, st) && ValRel(rep1, heap, sv, v, w)
  }

  lemma DoPairs(rep: Rep, sv: set<Var>, op: Opcode, vs: seq<Val>, ws: seq<Word>, st: Store, base: seq<Word>, s: State)
    returns (n: nat, w: Word, heap: Heap, rep1: Rep)
    requires OnPairs(op) && ArityOk(op, |vs|) && ValsRel(rep, s.heap, sv, vs, ws) && StoreRel(rep, s.heap, sv, st)
    requires s.self.Proc? && CodeAt(s.self.code, s.ip, GenOperator(op, |vs|)) && s.stack == base + Reverse(ws)
    ensures ComputesIn(rep, sv, s, base, |GenOperator(op, |vs|)|, PairStep(op, vs, st), n, w, heap, rep1)
  {
    hide Step;
    hide Run;
    hide StoreRel;
    hide Grows;
    hide Reverse;
    GrowsRefl(rep, s.heap);
    n, w, heap, rep1 := 1, Const(Void), s.heap, rep;
    assert ValRel(rep, s.heap, sv, vs[0], ws[0]);
    PairCode(op, |vs|);
    if op.ConsOp? {
      TwoOperands(base, ws, s.stack);
      DoCons(s, base, ws[1], ws[0]);
      heap, w := s.heap + [PairObj(ws[0], ws[1])], Pair(|s.heap|);
      assert ValRel(rep, s.heap, sv, vs[1], ws[1]);
      rep1 := Entry.PairRel(rep, s.heap, sv, st, vs[0], ws[0], vs[1], ws[1]);
    } else if op.CarOp? || op.CdrOp? {
      assert ws == [ws[0]] && Reverse(ws) == [ws[0]];
      w := DoAccess(rep, sv, op, vs[0], ws[0], st, base, s);
    } else {
      TwoOperands(base, ws, s.stack);
      assert ValRel(rep, s.heap, sv, vs[1], ws[1]);
      n, heap := DoMutation(rep, sv, op, vs, ws, st, base, s);
    }
  }

  lemma PairCode(op: Opcode, n: nat)
    requires OnPairs(op)
    ensures GenOperator(op, n) == Plain(OpOf(op)) + if ReturnsVoid(op) then Push(Const(Void)) else []
    ensures !ReturnsVoid(op) ==> GenOperator(op, n) == Plain(OpOf(op))
  {
  }

  lemma TwoOperands(base: seq<Word>, ws: seq<Word>, stack: seq<Word>)
    requires |ws| == 2 && stack == base + Reverse(ws)
    ensures stack == base + [ws[1]] + [ws[0]]
  {
    assert ws == [ws[0], ws[1]] && Reverse(ws) == [ws[1], ws[0]];
  }

  /** A related pair has both fields in the machine's pair; any other value is no pair there either. */
  lemma PairFields(rep: Rep, heap: Heap, sv: set<Var>, st: Store, v: Val, w: Word)
    requires StoreRel(rep, heap, sv, st) && ValRel(rep, heap, sv, v, w)
    ensures IsPair(st, v) <==> w.Pair?
    ensures IsPair(st, v) ==>
              && w.addr < |heap| && heap[w.addr].PairObj? && rep[v.loc] == CarOf(w.addr) && rep[v.loc + 1] == Boxed(w.addr)
              && ValRel(rep, heap, sv, st[v.loc], heap[w.addr].car) && ValRel(rep, heap, sv, st[v.loc + 1], heap[w.addr].cdr)
  {
    if v.PairAt? {
      assert LocRel(rep, heap, sv, st[v.loc], rep[v.loc]);
      assert LocRel(rep, heap, sv, st[v.loc + 1], rep[v.loc + 1]);
    }
  }

  lemma DoAccess(rep: Rep, sv: set<Var>, op: Opcode, v: Val, pw: Word, st: Store, base: seq<Word>, s: State)
    returns (w: Word)
    requires (op.CarOp? || op.CdrOp?) && StoreRel(rep, s.heap, sv, st) && ValRel(rep, s.heap, sv, v, pw)
    requires s.self.Proc? && CodeAt(s.self.code, s.ip, Plain(OpOf(op))) && s.stack == base + [pw]
    ensures ComputesIn(rep, sv, s, base, 1, PairStep(op, [v], st), 1, w, s.heap, rep)
  {
    hide Step;
    hide StoreRel;
    hide ValRel;
    hide Grows;
    PairFields(rep, s.heap, sv, st, v, pw);
    GrowsRefl(rep, s.heap);
    w := Const(Void);
    if IsPair(st, v) {
      DoField(s, OpOf(op), base, pw.addr);
      w := if op.CarOp? then s.heap[pw.addr].car else s.heap[pw.addr].cdr;
    } else {
      DoFieldRaises(s, OpOf(op));
    }
  }

  lemma DoMutation(rep: Rep, sv: set<Var>, op: Opcode, vs: seq<Val>, ws: seq<Word>, st: Store, base: seq<Word>, s: State)
    returns (n: nat, heap: Heap)
    requires ReturnsVoid(op) && |vs| == |ws| == 2 && StoreRel(rep, s.heap, sv, st)
    requires ValRel(rep, s.heap, sv, vs[0], ws[0]) && ValRel(rep, s.heap, sv, vs[1], ws[1])
    requires s.self.Proc? && CodeAt(s.self.code, s.ip, Plain(OpOf(op)) + Push(Const(Void))) && s.stack == base + [ws[1]] + [ws[0]]
    ensures ComputesIn(rep, sv, s, base, 2 + WORD, PairStep(op, vs, st), n, Const(Void), heap, rep)
  {
    hide Step;
    hide StoreRel;
    hide ValRel;
    hide Grows;
    CodeSplit(s.self.code, s.ip, Plain(OpOf(op)), Push(Const(Void)));
    PairFields(rep, s.heap, sv, st, vs[0], ws[0]);
    n, heap := 1, s.heap;
    if IsPair(st, vs[0]) {
      StoreLength(rep, s.heap, sv, st);
      var a := ws[0].addr;
      DoSetField(s, OpOf(op), base, ws[1], a);
      heap := s.heap[a := WithField(s.heap[a], op.SetCarOp?, ws[1])];
      var t := After(s, base, 1, heap);
      DoPush(t, Const(Void));
      Chain2(s, 1, t, 1);
      n := 2;
      Entry.StoreSet(rep, s.heap, sv, st, vs[0].loc + if op.SetCarOp? then 0 else 1, vs[1], ws[1]);
      VoidWord(rep, heap, sv);
    } else {
      DoFieldRaises(s, OpOf(op));
    }
  }

  lemma StoreLength(rep: Rep, heap: Heap, sv: set<Var>, st: Store)
    requires StoreRel(rep, heap, sv, st)
    ensures |rep| == |st|
  {
  }

  lemma VoidWord(rep: Rep, heap: Heap, sv: set<Var>)
    ensures ValRel(rep, heap, sv, Imm(Void), Const(Void))
  {
  }

  // --------------------------------------------------------- arithmetic, all

  /** Plus, times and minus with two or more operands, quotient and remainder. */
  lemma DoArithmetic(rep: Rep, sv: set<Var>, op: Opcode, vs: seq<Val>, ws: seq<Word>, base: seq<Word>, s: State)
    returns (n: nat, w: Word)
    requires ClassOf(op) == Arithmetic && |vs| >= 1 && ValsRel(rep, s.heap, sv, vs, ws)
    requires s.self.Proc? && CodeAt(s.self.code, s.ip, Repeat(Plain(OpOf(op)), |vs| - 1)) && s.stack == base + Reverse(ws)
    ensures Computes(rep, sv, s, base, |vs| - 1, FoldArith(op, vs[0], vs[1..]), n, w, s.heap)
  {
    hide Step;
    ReverseTail(ws, 0);
    assert ws[0..] == ws;
    assert s.stack == base + Reverse(ws[1..]) + [ws[0]];
    assert ValRel(rep, s.heap, sv, vs[0], ws[0]);
    assert ValsRel(rep, s.heap, sv, vs[1..], ws[1..]);
    n, w := DoFold(rep, sv, op, vs[0], ws[0], vs[1..], ws[1..], base, s);
  }
}
