/**
  Rewriting the pointers of copied objects: through a table sorted by source
  address, or by adding a constant.
*/
module Relocation {
  import opened Options

  /** A word of an object: the null pointer, bits that are no pointer, or a pointer. */
  datatype Word = Null | Imm(bits: int) | Ptr(addr: int)

  datatype Opcode =
    | FCALL0 | FCALL1 | FCALL2 | FCALL3 | FCALL4 | FCALLN | CALL | TAIL_CALL | PUSH
    | GLOBAL_REF | GLOBAL_KNOWN_REF | PARAMETER_REF
    | JUMP | JUMP_UNLESS | STACK_REF | CLOSURE_REF | LOCAL_REF | LOCAL_SET | TYPEP | RESERVE
    | MAKE | SLOT_REF | SLOT_SET | MAKE_PROCEDURE
    | PLAIN(number: nat)

  const WORD := 8

  /** How many operand words follow the opcode. */
  function Operands(op: Opcode): nat {
    match op
    case PLAIN(_) => 0
    case MAKE | SLOT_REF | SLOT_SET => 2
    case MAKE_PROCEDURE => 3
    case _ => 1
  }

  /** Which operand may be a pointer to an object. */
  function PointerOperand(op: Opcode): Option<nat> {
    match op
    case FCALL0 | FCALL1 | FCALL2 | FCALL3 | FCALL4 | FCALLN | CALL | TAIL_CALL | PUSH
       | GLOBAL_REF | GLOBAL_KNOWN_REF | PARAMETER_REF => Some(0)
    case MAKE_PROCEDURE => Some(2)
    case _ => None
  }

  /** A byte of code; an operand word is held in its first byte. */
  datatype Cell = OpC(op: Opcode) | WordC(w: Word) | Pad

  datatype Part = Code(cells: seq<Cell>) | Context(home: int) | Nothing

  /** An object: its size, its pointer slots, what else the relocation knows, and all other bytes. */
  datatype Body = Body(bytes: nat, slots: seq<Word>, part: Part, raw: seq<int>)

  datatype Entry = Entry(src: int, dst: int)

  /** How a pointer is translated. */
  datatype Adjust = Table(entries: seq<Entry>) | Offset(delta: int)

  ghost predicate Rising(t: seq<Entry>) { forall i, j :: 0 <= i < j < |t| ==> t[i].src < t[j].src }

  ghost predicate Usable(adj: Adjust) { adj.Table? ==> Rising(adj.entries) }

  // ------------------------------------------------------------- specification

  /** Where a pointer leads; a table knows only the objects in it. */
  ghost function Target(adj: Adjust, a: int): Option<int> {
    match adj
    case Offset(delta) => Some(a + delta)
    case Table(t) =>
      if exists i :: 0 <= i < |t| && t[i].src == a then
        var i :| 0 <= i < |t| && t[i].src == a;
        Some(t[i].dst)
      else None
  }

  lemma TargetAt(t: seq<Entry>, i: nat)
    requires Rising(t) && i < |t|
    ensures Target(Table(t), t[i].src) == Some(t[i].dst)
  {
  }

  ghost predicate Lands(w: Word, adj: Adjust) { w.Ptr? ==> Target(adj, w.addr).Some? }

  ghost function MoveWord(w: Word, adj: Adjust): Word
    requires Lands(w, adj)
  {
    if w.Ptr? then Ptr(Target(adj, w.addr).value) else w
  }

  ghost predicate AllLand(ws: seq<Word>, adj: Adjust) { forall i :: 0 <= i < |ws| ==> Lands(ws[i], adj) }

  ghost function MoveWords(ws: seq<Word>, adj: Adjust): seq<Word>
    requires AllLand(ws, adj)
  {
    seq(|ws|, i requires 0 <= i < |ws| => MoveWord(ws[i], adj))
  }

  /** The code from `i` on is a row of instructions, each with all its operands. */
  predicate WellFormed(code: seq<Cell>, i: nat)
    decreases |code| - i
  {
    i <= |code|
    && (i < |code| ==>
          && code[i].OpC? && i + 1 + WORD * Operands(code[i].op) <= |code|
          && (forall k :: 0 <= k < Operands(code[i].op) ==> code[i + 1 + WORD * k].WordC?)
          && WellFormed(code, i + 1 + WORD * Operands(code[i].op)))
  }

  /** Where the operands that may be pointers are, from `i` on. */
  ghost function Spots(code: seq<Cell>, i: nat): set<nat>
    requires WellFormed(code, i)
    decreases |code| - i
  {
    if i == |code| then {}
    else
      var op := code[i].op;
      (if PointerOperand(op).Some? then {i + 1 + WORD * PointerOperand(op).value} else {})
      + Spots(code, i + 1 + WORD * Operands(op))
  }

  lemma {:induction false} SpotsAhead(code: seq<Cell>, i: nat)
    requires WellFormed(code, i)
    ensures forall k <- Spots(code, i) :: i < k < |code| && code[k].WordC?
    decreases |code| - i
  {
    if i < |code| {
      SpotsAhead(code, i + 1 + WORD * Operands(code[i].op));
    }
  }

  ghost predicate CodeLands(code: seq<Cell>, adj: Adjust)
    requires WellFormed(code, 0)
  {
    forall k <- Spots(code, 0) :: k < |code| && code[k].WordC? ==> Lands(code[k].w, adj)
  }

  /** The pointer operands lead elsewhere; everything else stays. */
  ghost predicate CodeMoved(code: seq<Cell>, code1: seq<Cell>, adj: Adjust)
    requires WellFormed(code, 0)
  {
    && |code1| == |code|
    && (forall k :: 0 <= k < |code| && k !in Spots(code, 0) ==> code1[k] == code[k])
    && (forall k <- Spots(code, 0) :: k < |code| && code[k].WordC? ==> Lands(code[k].w, adj) && code1[k] == WordC(MoveWord(code[k].w, adj)))
  }

  // ------------------------------------------------------------ compiled code

  /** A word in a cell and seven cells that belong to it. */
  predicate IsWord(code: seq<Cell>, k: nat) {
    k + 8 <= |code| && code[k].WordC? && forall j :: k < j < k + 8 ==> code[j].Pad?
  }

  predicate NoPointer(code: seq<Cell>, k: nat) { IsWord(code, k) && !code[k].w.Ptr? }

  /**
    Code as the compiler makes it, from `i` on: each instruction with its
    operands, of which jump offsets, indices, counts, types and flags are no
    pointers.  Any other word may be one.
  */
  predicate Compiled(code: seq<Cell>, i: nat)
    decreases |code| - i
  {
    || i == |code|
    || (i < |code| && code[i].OpC?
        && match code[i].op
          case PLAIN(_) => Compiled(code, i + 1)
          case FCALL0 | FCALL1 | FCALL2 | FCALL3 | FCALL4 | FCALLN | CALL | TAIL_CALL | PUSH
             | GLOBAL_REF | GLOBAL_KNOWN_REF | PARAMETER_REF => IsWord(code, i + 1) && Compiled(code, i + 9)
          case JUMP | JUMP_UNLESS | STACK_REF | CLOSURE_REF | LOCAL_REF | LOCAL_SET | TYPEP | RESERVE =>
            NoPointer(code, i + 1) && Compiled(code, i + 9)
          case MAKE | SLOT_REF | SLOT_SET => NoPointer(code, i + 1) && NoPointer(code, i + 9) && Compiled(code, i + 17)
          case MAKE_PROCEDURE =>
            NoPointer(code, i + 1) && NoPointer(code, i + 9) && IsWord(code, i + 17) && Compiled(code, i + 25))
  }

  /** A pointer is in the cell. */
  predicate PointerAt(code: seq<Cell>, k: nat) { k < |code| && code[k].WordC? && code[k].w.Ptr? }

  lemma {:induction false} CompiledWellFormed(code: seq<Cell>, i: nat)
    requires Compiled(code, i)
    ensures WellFormed(code, i)
    decreases |code| - i
  {
    if i < |code| {
      CompiledWellFormed(code, i + 1 + WORD * Operands(code[i].op));
    }
  }

  /** Every pointer in compiled code is one that is looked at. */
  lemma {:induction false} PointersAreSpots(code: seq<Cell>, i: nat, k: nat)
    requires Compiled(code, i) && WellFormed(code, i) && i <= k && PointerAt(code, k)
    ensures k in Spots(code, i)
    decreases |code| - i
  {
    var next := i + 1 + WORD * Operands(code[i].op);
    if k >= next {
      PointersAreSpots(code, next, k);
    }
  }

  /** Every pointer leads elsewhere, whatever instruction it belongs to, and nothing else changes. */
  ghost predicate AllMovedBy(code: seq<Cell>, code1: seq<Cell>, adj: Adjust) {
    && |code1| == |code|
    && (forall k: nat :: PointerAt(code, k) ==>
          Target(adj, code[k].w.addr).Some? && code1[k] == WordC(Ptr(Target(adj, code[k].w.addr).value)))
    && (forall k: nat :: k < |code| && !PointerAt(code, k) ==> code1[k] == code[k])
  }

  ghost predicate AllKnown(code: seq<Cell>, adj: Adjust) {
    forall k: nat :: PointerAt(code, k) ==> Target(adj, code[k].w.addr).Some?
  }

  lemma {:induction false} CompiledLands(code: seq<Cell>, adj: Adjust)
    requires Compiled(code, 0)
    ensures WellFormed(code, 0) && (CodeLands(code, adj) <==> AllKnown(code, adj))
  {
    hide Target;
    hide Spots;
    CompiledWellFormed(code, 0);
    SpotsAhead(code, 0);
    forall k: nat | PointerAt(code, k)
      ensures k in Spots(code, 0)
    {
      PointersAreSpots(code, 0, k);
    }
    if !CodeLands(code, adj) {
      var k :| k in Spots(code, 0) && k < |code| && code[k].WordC? && !Lands(code[k].w, adj);
      assert PointerAt(code, k);
    }
  }

  lemma {:induction false} CompiledMoved(code: seq<Cell>, code1: seq<Cell>, adj: Adjust)
    requires Compiled(code, 0) && WellFormed(code, 0) && CodeMoved(code, code1, adj)
    ensures AllMovedBy(code, code1, adj)
  {
    hide Target;
    hide Spots;
    SpotsAhead(code, 0);
    forall k: nat | PointerAt(code, k)
      ensures k in Spots(code, 0)
    {
      PointersAreSpots(code, 0, k);
    }
  }

  // ------------------------------------------------------------------- search

  /** The destination of a source pointer, by binary search. */
  method SearchTable(t: seq<Entry>, srcp: int) returns (r: Option<int>)
    requires Rising(t)
    ensures r == Target(Table(t), srcp)
  {
    var imin, imax := 0, |t| - 1;
    while imin <= imax
      invariant 0 <= imin && imax < |t|
      invariant forall i :: 0 <= i < |t| && t[i].src == srcp ==> imin <= i <= imax
      decreases imax - imin
    {
      var imid := (imax - imin) / 2 + imin;
      var midp := t[imid].src;
      if midp == srcp {
        return Some(t[imid].dst);
      } else if midp < srcp {
        imin := imid + 1;
      } else {
        imax := imid - 1;
      }
    }
    return None;
  }

  method Translate(adj: Adjust, srcp: int) returns (r: Option<int>)
    requires Usable(adj)
    ensures r == Target(adj, srcp)
  {
    match adj
    case Table(t) => r := SearchTable(t, srcp);
    case Offset(delta) => r := Some(srcp + delta);
  }

  method TranslateWord(w: Word, adj: Adjust) returns (ok: bool, w1: Word)
    requires Usable(adj)
    ensures ok <==> Lands(w, adj)
    ensures ok ==> w1 == MoveWord(w, adj)
  {
    ok, w1 := true, w;
    if w.Ptr? {
      var dst := Translate(adj, w.addr);
      if dst.None? {
        return false, w;
      }
      w1 := Ptr(dst.value);
    }
  }

  // ------------------------------------------------------------------- memory

  /** Memory holding copied objects. */
  class Space {
    var mem: map<int, Body>

    constructor ()
      ensures mem == map[]
    {
      mem := map[];
    }

    /** Everything but the object at `dstp` is as it was. */
    twostate predicate OnlyAt(dstp: int)
      requires dstp in old(mem)
      reads this
    {
      dstp in mem && mem == old(mem)[dstp := mem[dstp]]
    }

    method AdjustFields(dstp: int, adj: Adjust) returns (ok: bool)
      requires dstp in mem && Usable(adj)
      modifies this
      ensures OnlyAt(dstp)
      ensures ok <==> AllLand(old(mem[dstp].slots), adj)
      ensures ok ==> mem[dstp] == old(mem[dstp]).(slots := MoveWords(old(mem[dstp].slots), adj))
    {
      ghost var b := mem[dstp];
      var i := 0;
      while i < |mem[dstp].slots|
        invariant OnlyAt(dstp) && mem[dstp] == b.(slots := mem[dstp].slots) && 0 <= i <= |mem[dstp].slots| == |b.slots|
        invariant forall k :: 0 <= k < i ==> Lands(b.slots[k], adj) && mem[dstp].slots[k] == MoveWord(b.slots[k], adj)
        invariant forall k :: i <= k < |b.slots| ==> mem[dstp].slots[k] == b.slots[k]
        decreases |b.slots| - i
      {
        var landed, dst := TranslateWord(mem[dstp].slots[i], adj);
        if !landed {
          return false;
        }
        mem := mem[dstp := mem[dstp].(slots := mem[dstp].slots[i := dst])];
        i := i + 1;
      }
      assert mem[dstp].slots == MoveWords(b.slots, adj);
      return true;
    }

    method AdjustBytecode(dstp: int, adj: Adjust) returns (ok: bool)
      requires dstp in mem && Usable(adj) && mem[dstp].part.Code? && WellFormed(mem[dstp].part.cells, 0)
      modifies this
      ensures OnlyAt(dstp)
      ensures ok <==> CodeLands(old(mem[dstp].part.cells), adj)
      ensures ok ==> mem[dstp].part.Code? && mem[dstp] == old(mem[dstp]).(part := mem[dstp].part)
                     && CodeMoved(old(mem[dstp].part.cells), mem[dstp].part.cells, adj)
      ensures Compiled(old(mem[dstp].part.cells), 0) ==>
                && (ok <==> AllKnown(old(mem[dstp].part.cells), adj))
                && (ok ==> AllMovedBy(old(mem[dstp].part.cells), mem[dstp].part.cells, adj))
    {
      hide Compiled;
      hide WellFormed;
      hide Spots;
      hide AdjustedUpTo;
      ghost var b := mem[dstp];
      ghost var code := b.part.cells;
      AdjustStarts(code, adj);
      if Compiled(code, 0) {
        CompiledLands(code, adj);
      }
      var i: nat := 0;
      while i < |mem[dstp].part.cells|
        invariant OnlyAt(dstp) && mem[dstp].part.Code? && mem[dstp] == b.(part := mem[dstp].part)
        invariant WellFormed(code, 0) && WellFormed(code, i) && AdjustedUpTo(code, mem[dstp].part.cells, i, adj)
        decreases |code| - i
      {
        AdjustNext(code, mem[dstp].part.cells, i, adj);
        var op := mem[dstp].part.cells[i].op;
        if PointerOperand(op).Some? {
          var landed := AdjustOperand(dstp, i + 1 + WORD * PointerOperand(op).value, adj);
          if !landed {
            return false;
          }
        }
        i := i + 1 + WORD * Operands(op);
      }
      AdjustEnds(code, mem[dstp].part.cells, i, adj);
      if Compiled(code, 0) {
        CompiledMoved(code, mem[dstp].part.cells, adj);
      }
      return true;
    }

    method AdjustOperand(dstp: int, at: nat, adj: Adjust) returns (ok: bool)
      requires dstp in mem && Usable(adj) && mem[dstp].part.Code?
      requires at < |mem[dstp].part.cells| && mem[dstp].part.cells[at].WordC?
      modifies this
      ensures OnlyAt(dstp)
      ensures ok <==> Lands(old(mem[dstp].part.cells[at].w), adj)
      ensures ok ==> mem[dstp] == old(mem[dstp]).(part :=
                Code(old(mem[dstp].part.cells)[at := WordC(MoveWord(old(mem[dstp].part.cells[at].w), adj))]))
    {
      var cells := mem[dstp].part.cells;
      var dst;
      ok, dst := TranslateWord(cells[at].w, adj);
      if ok {
        mem := mem[dstp := mem[dstp].(part := Code(cells[at := WordC(dst)]))];
      }
    }
  }

  /** The pointer operands before `i` are adjusted, and nothing else. */
  ghost predicate AdjustedUpTo(code: seq<Cell>, cells: seq<Cell>, i: nat, adj: Adjust)
    requires WellFormed(code, 0) && WellFormed(code, i)
  {
    && |cells| == |code| && i <= |code|
    && (forall k :: k >= i ==> (k in Spots(code, 0) <==> k in Spots(code, i)))
    && (forall k :: 0 <= k < |code| && (k >= i || k !in Spots(code, 0)) ==> cells[k] == code[k])
    && (forall k <- Spots(code, 0) :: k < |code| && code[k].WordC?)
    && (forall k <- Spots(code, 0) :: k < i ==> Lands(code[k].w, adj) && cells[k] == WordC(MoveWord(code[k].w, adj)))
  }

  lemma AdjustStarts(code: seq<Cell>, adj: Adjust)
    requires WellFormed(code, 0)
    ensures AdjustedUpTo(code, code, 0, adj)
  {
    SpotsAhead(code, 0);
  }

  lemma AdjustEnds(code: seq<Cell>, cells: seq<Cell>, i: nat, adj: Adjust)
    requires WellFormed(code, 0) && WellFormed(code, i) && AdjustedUpTo(code, cells, i, adj) && i >= |cells|
    ensures CodeLands(code, adj) && CodeMoved(code, cells, adj)
  {
  }

  /** The instruction at `i`: what there is to adjust in it, and what is adjusted afterwards. */
  lemma AdjustNext(code: seq<Cell>, cells: seq<Cell>, i: nat, adj: Adjust)
    requires WellFormed(code, 0) && WellFormed(code, i) && AdjustedUpTo(code, cells, i, adj) && i < |cells|
    ensures i < |code| == |cells| && cells[i].OpC?
    ensures var op, next := cells[i].op, i + 1 + WORD * Operands(cells[i].op);
            && next <= |code| && WellFormed(code, next)
            && (if PointerOperand(op).None? then AdjustedUpTo(code, cells, next, adj)
                else
                  var at := i + 1 + WORD * PointerOperand(op).value;
                  && at < |code| && cells[at].WordC? && (Lands(cells[at].w, adj)
                        ==> AdjustedUpTo(code, cells[at := WordC(MoveWord(cells[at].w, adj))], next, adj))
                  && (!Lands(cells[at].w, adj) ==> !CodeLands(code, adj)))
  {
    hide Spots;
    hide WellFormed;
    InstructionAt(code, i);
    var op, next := cells[i].op, i + 1 + WORD * Operands(cells[i].op);
    SpotsAhead(code, next);
    SpotsStep(code, i);
    if PointerOperand(op).Some? {
      var at := i + 1 + WORD * PointerOperand(op).value;
      assert code[i + 1 + WORD * PointerOperand(op).value].WordC?;
      OperandAdjusted(code, cells, i, at, next, adj);
    }
  }

  lemma OperandAdjusted(code: seq<Cell>, cells: seq<Cell>, i: nat, at: nat, next: nat, adj: Adjust)
    requires WellFormed(code, 0) && WellFormed(code, i) && AdjustedUpTo(code, cells, i, adj) && i < at < next <= |code| == |cells|
    requires WellFormed(code, next) && Spots(code, i) == {at} + Spots(code, next) && code[at].WordC?
    requires forall k <- Spots(code, next) :: k > next
    ensures cells[at] == code[at]
    ensures Lands(cells[at].w, adj) ==> AdjustedUpTo(code, cells[at := WordC(MoveWord(cells[at].w, adj))], next, adj)
    ensures !Lands(cells[at].w, adj) ==> !CodeLands(code, adj)
  {
    hide Spots;
    hide WellFormed;
    hide Lands;
    hide MoveWord;
    assert at in Spots(code, 0);
    if Lands(cells[at].w, adj) {
      var cells1 := cells[at := WordC(MoveWord(cells[at].w, adj))];
      assert forall k :: 0 <= k < |code| && (k >= next || k !in Spots(code, 0)) ==> cells1[k] == code[k];
    }
  }

  lemma InstructionAt(code: seq<Cell>, i: nat)
    requires WellFormed(code, i) && i < |code|
    ensures code[i].OpC?
    ensures var op, next := code[i].op, i + 1 + WORD * Operands(code[i].op);
            && next <= |code| && WellFormed(code, next)
            && (PointerOperand(op).Some? ==> i + 1 + WORD * PointerOperand(op).value < next
                                             && code[i + 1 + WORD * PointerOperand(op).value].WordC?)
  {
  }

  lemma SpotsStep(code: seq<Cell>, i: nat)
    requires WellFormed(code, i) && i < |code|
    ensures var op, next := code[i].op, i + 1 + WORD * Operands(code[i].op);
            Spots(code, i) == (if PointerOperand(op).Some? then {i + 1 + WORD * PointerOperand(op).value} else {}) + Spots(code, next)
  {
  }
}
