/**
  Copies of the whole heap: the packed heap, and an image of it loaded at
  another address, are the original up to where things are.
*/
module HeapImages {
  import opened Options
  import opened Relocation

  // ------------------------------------------------------------ the same graph

  /** Where every object of one memory is in the other. */
  type Places = map<int, int>

  ghost predicate WordImage(w: Word, w1: Word, to: Places) {
    if w.Ptr? then w.addr in to && w1 == Ptr(to[w.addr]) else w1 == w
  }

  ghost predicate CodeImage(code: seq<Cell>, code1: seq<Cell>, to: Places) {
    && WellFormed(code, 0) && |code1| == |code|
    && (forall k :: 0 <= k < |code| && k !in Spots(code, 0) ==> code1[k] == code[k])
    && (forall k <- Spots(code, 0) :: k < |code| && code[k].WordC? && code1[k].WordC? && WordImage(code[k].w, code1[k].w, to))
  }

  ghost predicate PartImage(p: Part, p1: Part, to: Places, home: int) {
    match p
    case Code(cells) => p1.Code? && CodeImage(cells, p1.cells, to)
    case Context(_) => p1 == Context(home)
    case Nothing => p1 == Nothing
  }

  ghost predicate BodyImage(b: Body, b1: Body, to: Places, home: int) {
    && b1.bytes == b.bytes && b1.raw == b.raw && |b1.slots| == |b.slots|
    && (forall i :: 0 <= i < |b.slots| ==> WordImage(b.slots[i], b1.slots[i], to))
    && PartImage(b.part, b1.part, to, home)
  }

  /** The places are all of `objects`. */
  ghost predicate Onto(to: Places, objects: set<int>) {
    (forall a <- to :: to[a] in objects) && forall y <- objects :: PlaceOf(to, y)
  }

  ghost predicate PlaceOf(to: Places, y: int) { exists a :: a in to && to[a] == y }

  /**
    The two memories hold the same graph: a one-to-one map of all their
    objects under which every slot and every operand of code corresponds.
  */
  ghost predicate Isomorphic(mem: map<int, Body>, mem1: map<int, Body>, to: Places, home: int) {
    && to.Keys == mem.Keys && Onto(to, mem1.Keys)
    && (forall a, b :: a in to && b in to && to[a] == to[b] ==> a == b)
    && forall a <- mem :: to[a] in mem1 && BodyImage(mem[a], mem1[to[a]], to, home)
  }

  // ----------------------------------------------------- every pointer, by its cell

  /** Every cell that holds a pointer holds the pointer to its place; the other cells are the same. */
  ghost predicate CodeOver(code: seq<Cell>, code1: seq<Cell>, to: Places) {
    && |code1| == |code|
    && (forall k: nat :: PointerAt(code, k) ==> code[k].w.addr in to && code1[k] == WordC(Ptr(to[code[k].w.addr])))
    && (forall k: nat :: k < |code| && !PointerAt(code, k) ==> code1[k] == code[k])
  }

  ghost predicate BodyOver(b: Body, b1: Body, to: Places) {
    && |b1.slots| == |b.slots| && (forall i :: 0 <= i < |b.slots| ==> WordImage(b.slots[i], b1.slots[i], to))
    && (b.part.Code? ==> b1.part.Code? && CodeOver(b.part.cells, b1.part.cells, to))
    && (!b.part.Code? ==> !b1.part.Code?)
  }

  /** Every pointer of every object, in its slots and in its code, goes over to the other memory. */
  ghost predicate AllOver(mem: map<int, Body>, mem1: map<int, Body>, to: Places) {
    forall a <- mem :: a in to && to[a] in mem1 && BodyOver(mem[a], mem1[to[a]], to)
  }

  /** No slot and no cell of code holds a pointer to anything else. */
  ghost predicate Within(b: Body, objects: set<int>) {
    && (forall i :: 0 <= i < |b.slots| && b.slots[i].Ptr? ==> b.slots[i].addr in objects)
    && (b.part.Code? ==> forall k: nat :: PointerAt(b.part.cells, k) ==> b.part.cells[k].w.addr in objects)
  }

  ghost predicate SelfContained(mem: map<int, Body>) { forall a <- mem :: Within(mem[a], mem.Keys) }

  ghost predicate AllCompiled(mem: map<int, Body>) { forall a <- mem :: mem[a].part.Code? ==> Compiled(mem[a].part.cells, 0) }

  lemma {:induction false} CodeGoesOver(code: seq<Cell>, code1: seq<Cell>, to: Places)
    requires Compiled(code, 0) && CodeImage(code, code1, to)
    ensures CodeOver(code, code1, to)
  {
    hide Spots;
    hide Compiled;
    hide WellFormed;
    SpotsAhead(code, 0);
    forall k: nat | PointerAt(code, k)
      ensures k in Spots(code, 0)
    {
      PointersAreSpots(code, 0, k);
    }
  }

  lemma BodyGoesOver(b: Body, b1: Body, to: Places, home: int)
    requires BodyImage(b, b1, to, home) && (b.part.Code? ==> Compiled(b.part.cells, 0))
    ensures BodyOver(b, b1, to)
  {
    hide CodeImage;
    hide CodeOver;
    hide Compiled;
    if b.part.Code? {
      CodeGoesOver(b.part.cells, b1.part.cells, to);
    }
  }

  lemma WithinAfter(b: Body, b1: Body, to: Places, objects: set<int>)
    requires BodyOver(b, b1, to) && forall a <- to :: to[a] in objects
    ensures Within(b1, objects)
  {
    forall i | 0 <= i < |b1.slots| && b1.slots[i].Ptr?
      ensures b1.slots[i].addr in objects
    {
      assert WordImage(b.slots[i], b1.slots[i], to);
    }
    if b1.part.Code? {
      forall k: nat | PointerAt(b1.part.cells, k)
        ensures b1.part.cells[k].w.addr in objects
      {
        assert PointerAt(b.part.cells, k);
      }
    }
  }

  /** A copy of compiled code and everything else takes every pointer along, and points nowhere else. */
  lemma AllGoOver(mem: map<int, Body>, mem1: map<int, Body>, to: Places, home: int)
    requires Isomorphic(mem, mem1, to, home) && AllCompiled(mem)
    ensures AllOver(mem, mem1, to) && SelfContained(mem1)
  {
    hide BodyImage;
    hide BodyOver;
    hide Within;
    forall a <- mem
      ensures a in to && to[a] in mem1 && BodyOver(mem[a], mem1[to[a]], to)
    {
      BodyGoesOver(mem[a], mem1[to[a]], to, home);
    }
    forall y <- mem1
      ensures Within(mem1[y], mem1.Keys)
    {
      assert PlaceOf(to, y);
      var a :| a in to && to[a] == y;
      WithinAfter(mem[a], mem1[y], to, mem1.Keys);
    }
  }

  /** What a path of slot numbers leads to. */
  ghost function Follow(mem: map<int, Body>, w: Word, path: seq<nat>): Option<Word>
    decreases |path|
  {
    if path == [] then Some(w)
    else if w.Ptr? && w.addr in mem && path[0] < |mem[w.addr].slots| then Follow(mem, mem[w.addr].slots[path[0]], path[1..])
    else None
  }

  /** Following a path and going over to the other memory commute. */
  lemma {:induction false} FollowCommutes(mem: map<int, Body>, mem1: map<int, Body>, to: Places, home: int,
                                          w: Word, w1: Word, path: seq<nat>)
    requires Isomorphic(mem, mem1, to, home) && WordImage(w, w1, to)
    ensures Follow(mem, w, path).Some? <==> Follow(mem1, w1, path).Some?
    ensures Follow(mem, w, path).Some? ==> WordImage(Follow(mem, w, path).value, Follow(mem1, w1, path).value, to)
    decreases |path|
  {
    if path != [] && w.Ptr? {
      var a := w.addr;
      assert BodyImage(mem[a], mem1[to[a]], to, home);
      if path[0] < |mem[a].slots| {
        FollowCommutes(mem, mem1, to, home, mem[a].slots[path[0]], mem1[to[a]].slots[path[0]], path[1..]);
      }
    }
  }

  ghost function Through(to: Places, on: Places): Places
    requires forall a <- to :: to[a] in on
  {
    map a | a in to :: Step(to, on, a)
  }

  ghost function Step(to: Places, on: Places, a: int): int
    requires a in to && to[a] in on
  {
    on[to[a]]
  }

  lemma BodyThrough(b: Body, b1: Body, b2: Body, to: Places, on: Places, home: int, home1: int)
    requires (forall a <- to :: to[a] in on) && BodyImage(b, b1, to, home) && BodyImage(b1, b2, on, home1)
    ensures BodyImage(b, b2, Through(to, on), home1)
  {
    match b.part
    case Code(code) =>
      SameSpots(code, b1.part.cells, 0, to);
    case _ =>
  }

  /** The operands are in the same places. */
  lemma {:induction false} SameSpots(code: seq<Cell>, code1: seq<Cell>, i: nat, to: Places)
    requires WellFormed(code, i) && |code1| == |code| && WellFormed(code1, i)
    requires CodeImage(code, code1, to)
    requires forall k :: k >= i ==> (k in Spots(code, 0) <==> k in Spots(code, i))
    ensures Spots(code1, i) == Spots(code, i)
    decreases |code| - i
  {
    if i < |code| {
      SpotsAhead(code, i);
      assert code1[i] == code[i];
      var next := i + 1 + WORD * Operands(code[i].op);
      SpotsAhead(code, next);
      SameSpots(code, code1, next, to);
    }
  }

  /** A copy of a copy is a copy. */
  lemma IsomorphicThrough(mem: map<int, Body>, mem1: map<int, Body>, mem2: map<int, Body>, to: Places, on: Places, home: int, home1: int)
    requires Isomorphic(mem, mem1, to, home) && Isomorphic(mem1, mem2, on, home1)
    ensures Isomorphic(mem, mem2, Through(to, on), home1)
  {
    hide BodyImage;
    assert forall a <- to :: to[a] in on;
    var th := Through(to, on);
    forall a <- mem
      ensures th[a] in mem2 && BodyImage(mem[a], mem2[th[a]], th, home1)
    {
      var b := to[a];
      assert b in mem1 && b in on && th[a] == on[b];
      assert BodyImage(mem1[b], mem2[on[b]], on, home1);
      BodyThrough(mem[a], mem1[b], mem2[on[b]], to, on, home, home1);
    }
    assert th.Keys == mem.Keys;
    forall a, b | a in th && b in th && th[a] == th[b]
      ensures a == b
    {
      assert to[a] in on && to[b] in on;
    }
    forall y <- mem2
      ensures PlaceOf(th, y)
    {
      assert PlaceOf(on, y);
      var x :| x in on && on[x] == y;
      assert PlaceOf(to, x);
      var a :| a in to && to[a] == x;
      assert th[a] == y;
    }
  }
}
