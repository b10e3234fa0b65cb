/**
  The marking phase of the garbage collector.

  Marking follows one pointer of each object directly and leaves the others on
  an explicit stack of slot ranges.  Trailing slots that need no work, and
  trailing copies of the same pointer, are not put on the stack.
*/
module Marking {
  datatype Value = Null | Immediate | Pointer(o: Object)

  /** A heap object as the collector sees it: its strong slots, and for a context its saved variables. */
  class Object {
    var marked: bool
    const slots: seq<Value>
    const saves: seq<Value>

    constructor (slots: seq<Value>, saves: seq<Value>)
      ensures this.slots == slots && this.saves == saves && !marked
    {
      this.slots, this.saves, marked := slots, saves, false;
    }
  }

  // ------------------------------------------------------------ reachability

  ghost predicate Edge(x: Object, y: Object) {
    Pointer(y) in x.slots || Pointer(y) in x.saves
  }

  /** What is reached from `x` in at most `n` steps within `heap`. */
  ghost function Within(heap: set<Object>, x: Object, n: nat): set<Object> {
    if n == 0 then {x}
    else Within(heap, x, n - 1) + set y, z | z in Within(heap, x, n - 1) && y in heap && Edge(z, y) :: y
  }

  /** Is `y` reachable from `x` through strong slots and saved variables? */
  ghost predicate Reachable(heap: set<Object>, x: Object, y: Object) {
    exists n: nat :: y in Within(heap, x, n)
  }

  /** Every pointer in an object of the heap leads to an object of the heap. */
  ghost predicate Closed(heap: set<Object>) {
    forall x <- heap :: (forall v <- x.slots :: InHeap(v, heap)) && (forall v <- x.saves :: InHeap(v, heap))
  }

  ghost predicate InHeap(v: Value, heap: set<Object>) {
    v.Pointer? ==> v.o in heap
  }

  lemma ReachableStep(heap: set<Object>, x: Object, y: Object, z: Object)
    requires Reachable(heap, x, y) && Edge(y, z) && z in heap
    ensures Reachable(heap, x, z)
  {
    var n: nat :| y in Within(heap, x, n);
    assert z in Within(heap, x, n + 1);
  }

  lemma ReachableSelf(heap: set<Object>, x: Object)
    ensures Reachable(heap, x, x)
  {
    assert x in Within(heap, x, 0);
  }

  /** A set of objects that is closed under edges contains all it reaches. */
  lemma {:induction false} ClosedReaches(heap: set<Object>, s: set<Object>, x: Object, n: nat)
    requires Closed(s) && x in s
    ensures Within(heap, x, n) <= s
  {
    if n > 0 {
      ClosedReaches(heap, s, x, n - 1);
    }
  }

  // -------------------------------------------------------------- invariants

  /** The slots start..end of an object. */
  datatype Range = Range(o: Object, start: nat, end: nat)

  ghost predicate ValidRange(r: Range, heap: set<Object>) {
    r.o in heap && r.start < r.end <= |r.o.slots|
  }

  ghost predicate InRange(r: Range, v: Value) {
    exists i :: r.start <= i < r.end && i < |r.o.slots| && r.o.slots[i] == v
  }

  /** Is there a range on the stack that holds `v`? */
  ghost predicate Pending(stack: seq<Range>, v: Value) {
    exists k :: 0 <= k < |stack| && InRange(stack[k], v)
  }

  ghost predicate Covered(stack: seq<Range>, v: Value)
    reads if v.Pointer? then {v.o} else {}
  {
    v.Pointer? ==> v.o.marked || Pending(stack, v)
  }

  /**
    The marking invariant: each value held by a marked object is immediate,
    marked, pending on the stack, or still owed.  Objects in `busy` are being
    scanned.
  */
  ghost predicate Tricolour(heap: set<Object>, stack: seq<Range>, busy: set<Object>, owed: set<Value>)
    reads heap
    requires Closed(heap)
  {
    forall o <- heap :: o.marked && o !in busy ==> Settled(heap, stack, o, owed)
  }

  ghost predicate Settled(heap: set<Object>, stack: seq<Range>, o: Object, owed: set<Value>)
    reads heap
    requires Closed(heap) && o in heap
  {
    && (forall v <- o.slots :: v in owed || Covered(stack, v))
    && (forall v <- o.saves :: v in owed || Covered(stack, v))
  }

  /** A value that is no pointer, or is marked, is no longer owed. */
  lemma Settle(heap: set<Object>, stack: seq<Range>, busy: set<Object>, owed: set<Value>, x: Value)
    requires Closed(heap) && Tricolour(heap, stack, busy, owed + {x}) && (x.Pointer? ==> x.o.marked)
    ensures Tricolour(heap, stack, busy, owed)
  {
  }

  /** An object without slots is done once its saved variables are marked. */
  lemma NoSlots(heap: set<Object>, stack: seq<Range>, busy: set<Object>, owed: set<Value>, o: Object)
    requires Closed(heap) && Tricolour(heap, stack, busy + {o}, owed) && o.slots == []
    requires forall v <- o.saves :: v.Pointer? ==> v.o.marked
    ensures Tricolour(heap, stack, busy, owed)
  {
  }

  ghost function Unmarked(heap: set<Object>): set<Object>
    reads heap
  {
    set o | o in heap && !o.marked
  }

  lemma PendingGrows(s: seq<Range>, t: seq<Range>, v: Value)
    requires Pending(s, v) && s <= t
    ensures Pending(t, v)
  {
    var k :| 0 <= k < |s| && InRange(s[k], v);
    assert InRange(t[k], v);
  }

  // ----------------------------------------------------------------- marking

  class Collector {
    var stack: seq<Range>

    constructor ()
      ensures stack == []
    {
      stack := [];
    }

    /** Nothing outside `bound`, which contains what is to be marked and all it leads to, is touched. */
    ghost predicate Confined(heap: set<Object>, bound: set<Object>)
      reads this
    {
      bound <= heap && Closed(bound) && forall r <- stack :: ValidRange(r, bound)
    }

    /**
      Mark `x` and follow one slot of each object marked; ranges of further
      slots go on the stack.
    */
    method MarkOne(x0: Value, ghost heap: set<Object>, ghost bound: set<Object>,
                   ghost busy: set<Object>, ghost owed: set<Value>)
      requires Closed(heap) && Confined(heap, bound) && InHeap(x0, bound)
      requires Tricolour(heap, stack, busy, owed + {x0})
      modifies this, bound`marked
      ensures Confined(heap, bound) && old(stack) <= stack
      ensures Tricolour(heap, stack, busy, owed) && (x0.Pointer? ==> x0.o.marked)
      ensures forall o <- heap :: old(o.marked) ==> o.marked
      ensures (stack == old(stack) && Unmarked(heap) == old(Unmarked(heap))) || Unmarked(heap) < old(Unmarked(heap))
      decreases Unmarked(heap), 0
    {
      hide Tricolour;
      hide Closed;
      var x := x0;
      while true
        invariant Confined(heap, bound) && InHeap(x, bound) && old(stack) <= stack
        invariant Tricolour(heap, stack, busy, owed + {x})
        invariant x == x0 || (x0.Pointer? ==> x0.o.marked)
        invariant forall o <- heap :: old(o.marked) ==> o.marked
        invariant (stack == old(stack) && Unmarked(heap) == old(Unmarked(heap))) || Unmarked(heap) < old(Unmarked(heap))
        decreases Unmarked(heap)
      {
        if !x.Pointer? || x.o.marked {
          Settle(heap, stack, busy, owed, x);
          return;
        }
        var o := x.o;
        SetMark(o, heap, busy, owed);
        MarkSaves(o, heap, bound, busy, owed);
        if |o.slots| == 0 {
          NoSlots(heap, stack, busy, owed, o);
          return;
        }
        x := PushSlots(o, heap, bound, busy, owed);
      }
    }

    /** Mark an object; its own values still have to be looked at. */
    method SetMark(o: Object, ghost heap: set<Object>, ghost busy: set<Object>, ghost owed: set<Value>)
      requires Closed(heap) && o in heap && !o.marked
      requires Tricolour(heap, stack, busy, owed + {Pointer(o)})
      modifies o`marked
      ensures o.marked && Tricolour(heap, stack, busy + {o}, owed) && Unmarked(heap) < old(Unmarked(heap))
      ensures forall x <- heap :: x != o ==> x.marked == old(x.marked)
    {
      ghost var unmarked := Unmarked(heap);
      assert o in unmarked;
      o.marked := true;
      assert Unmarked(heap) < unmarked;
    }

    /** Stack the slots that still need work, but for one, which is returned. */
    method PushSlots(o: Object, ghost heap: set<Object>, ghost bound: set<Object>,
                     ghost busy: set<Object>, ghost owed: set<Value>) returns (x: Value)
      requires Closed(heap) && Confined(heap, bound) && o in bound && o.marked && |o.slots| > 0
      requires Tricolour(heap, stack, busy + {o}, owed) && forall v <- o.saves :: v.Pointer? ==> v.o.marked
      modifies this
      ensures Confined(heap, bound) && InHeap(x, bound) && old(stack) <= stack
      ensures Tricolour(heap, stack, busy, owed + {x})
    {
      var p, q := 0, |o.slots| - 1;
      while p < q && (o.slots[q].Pointer? ==> o.slots[q].o.marked)
        invariant p <= q < |o.slots|
        invariant forall i :: q < i < |o.slots| ==> Covered(stack, o.slots[i])
      {
        q := q - 1;
      }
      while p < q && o.slots[q] == o.slots[q - 1]
        invariant p <= q < |o.slots|
        invariant forall i :: q < i < |o.slots| ==> Covered(stack, o.slots[i]) || o.slots[i] == o.slots[q]
      {
        q := q - 1;
      }
      ghost var before := stack;
      if p < q {
        stack := stack + [Range(o, p, q)];
      }
      x := o.slots[q];
      SlotsCovered(o, heap, before, stack, busy, owed, q);
    }

    /** The saved variables of a context. */
    method MarkSaves(o: Object, ghost heap: set<Object>, ghost bound: set<Object>,
                     ghost busy: set<Object>, ghost owed: set<Value>)
      requires Closed(heap) && Confined(heap, bound) && o in bound && o.marked
      requires Tricolour(heap, stack, busy + {o}, owed)
      modifies this, bound`marked
      ensures Confined(heap, bound) && old(stack) <= stack
      ensures Tricolour(heap, stack, busy + {o}, owed)
      ensures forall v <- o.saves :: v.Pointer? ==> v.o.marked
      ensures forall o <- heap :: old(o.marked) ==> o.marked
      ensures (stack == old(stack) && Unmarked(heap) == old(Unmarked(heap))) || Unmarked(heap) < old(Unmarked(heap))
      decreases Unmarked(heap), 1
    {
      var i := 0;
      while i < |o.saves|
        invariant 0 <= i <= |o.saves| && Confined(heap, bound) && old(stack) <= stack
        invariant Tricolour(heap, stack, busy + {o}, owed)
        invariant forall j :: 0 <= j < i ==> (o.saves[j].Pointer? ==> o.saves[j].o.marked)
        invariant forall o <- heap :: old(o.marked) ==> o.marked
        invariant (stack == old(stack) && Unmarked(heap) == old(Unmarked(heap))) || Unmarked(heap) < old(Unmarked(heap))
      {
        var v := o.saves[i];
        assert v in o.saves;
        assert v.Pointer? ==> Edge(o, v.o);
        MarkOne(v, heap, bound, busy + {o}, owed);
        i := i + 1;
      }
    }

    /** Mark everything reachable from `x`, draining the stack. */
    method MarkFrom(x: Value, ghost heap: set<Object>, ghost bound: set<Object>)
      requires stack == [] && Closed(heap) && Confined(heap, bound) && InHeap(x, bound)
      requires Tricolour(heap, [], {}, {})
      modifies this, bound`marked
      ensures stack == [] && Tricolour(heap, [], {}, {})
      ensures forall o <- heap :: old(o.marked) ==> o.marked
      ensures x.Pointer? ==> x.o.marked
    {
      hide Closed;
      hide Settled;
      StartsSettled(heap, x);
      MarkOne(x, heap, bound, {}, {});
      while stack != []
        invariant Confined(heap, bound) && Tricolour(heap, stack, {}, {})
        invariant forall o <- heap :: old(o.marked) ==> o.marked
        invariant x.Pointer? ==> x.o.marked
        decreases Unmarked(heap), |stack|
      {
        var r := stack[|stack| - 1];
        assert r in stack && stack == stack[..|stack| - 1] + [r];
        stack := stack[..|stack| - 1];
        DrainRange(r, heap, bound);
      }
    }

    /** Mark from each slot of a range that was on top of the stack. */
    method DrainRange(r: Range, ghost heap: set<Object>, ghost bound: set<Object>)
      requires Closed(heap) && Confined(heap, bound) && ValidRange(r, bound)
      requires Tricolour(heap, stack + [r], {}, {})
      modifies this, bound`marked
      ensures Confined(heap, bound) && Tricolour(heap, stack, {}, {})
      ensures forall o <- heap :: old(o.marked) ==> o.marked
      ensures (stack == old(stack) && Unmarked(heap) == old(Unmarked(heap))) || Unmarked(heap) < old(Unmarked(heap))
    {
      var p := r.start;
      Popped(heap, stack, r);
      while p < r.end
        invariant r.start <= p <= r.end && Confined(heap, bound)
        invariant Tricolour(heap, stack, {}, Values(r, p))
        invariant forall o <- heap :: old(o.marked) ==> o.marked
        invariant (stack == old(stack) && Unmarked(heap) == old(Unmarked(heap))) || Unmarked(heap) < old(Unmarked(heap))
      {
        var x := r.o.slots[p];
        p := p + 1;
        assert Values(r, p - 1) <= Values(r, p) + {x};
        MarkOne(x, heap, bound, {}, Values(r, p));
      }
      assert Values(r, r.end) == {};
    }
  }

  lemma StartsSettled(heap: set<Object>, x: Value)
    requires Closed(heap) && Tricolour(heap, [], {}, {})
    ensures Tricolour(heap, [], {}, {} + {x})
  {
  }

  /** The values of a range from slot `p` on. */
  ghost function Values(r: Range, p: nat): set<Value>
    requires r.end <= |r.o.slots|
  {
    set i | p <= i < r.end :: r.o.slots[i]
  }

  /** A range taken off the stack is owed instead of pending. */
  lemma Popped(heap: set<Object>, stack: seq<Range>, r: Range)
    requires Closed(heap) && ValidRange(r, heap) && Tricolour(heap, stack + [r], {}, {})
    ensures Tricolour(heap, stack, {}, Values(r, r.start))
  {
    forall y <- heap | y.marked
      ensures Settled(heap, stack, y, Values(r, r.start))
    {
      PoppedValues(stack, r, y.slots);
      PoppedValues(stack, r, y.saves);
    }
  }

  lemma PoppedValues(stack: seq<Range>, r: Range, vs: seq<Value>)
    requires r.end <= |r.o.slots| && forall v <- vs :: Covered(stack + [r], v)
    ensures forall v <- vs :: v in Values(r, r.start) || Covered(stack, v)
  {
    forall v <- vs
      ensures v in Values(r, r.start) || Covered(stack, v)
    {
      if v.Pointer? && !v.o.marked {
        var k :| 0 <= k < |stack + [r]| && InRange((stack + [r])[k], v);
        if k < |stack| {
          assert InRange(stack[k], v);
        }
      }
    }
  }

  /** After the push every slot of `o` is covered or is the one followed next. */
  lemma SlotsCovered(o: Object, heap: set<Object>, before: seq<Range>, stack: seq<Range>,
                     busy: set<Object>, owed: set<Value>, q: nat)
    requires Closed(heap) && o in heap && o.marked && q < |o.slots|
    requires Tricolour(heap, before, busy + {o}, owed)
    requires stack == if q > 0 then before + [Range(o, 0, q)] else before
    requires forall i :: q < i < |o.slots| ==> Covered(before, o.slots[i]) || o.slots[i] == o.slots[q]
    requires forall v <- o.saves :: v.Pointer? ==> v.o.marked
    ensures Tricolour(heap, stack, busy, owed + {o.slots[q]})
  {
    var x := o.slots[q];
    forall y <- heap | y.marked && y !in busy
      ensures Settled(heap, stack, y, owed + {x})
    {
      if y != o {
        Unfolded(before, stack, y.slots, owed, x);
        Unfolded(before, stack, y.saves, owed, x);
      } else {
        forall i | 0 <= i < |o.slots|
          ensures o.slots[i] == x || Covered(stack, o.slots[i])
        {
          if i < q {
            assert InRange(stack[|before|], o.slots[i]);
          } else if Pending(before, o.slots[i]) {
            PendingGrows(before, stack, o.slots[i]);
          }
        }
      }
    }
  }

  lemma Unfolded(before: seq<Range>, stack: seq<Range>, vs: seq<Value>, owed: set<Value>, x: Value)
    requires before <= stack && forall v <- vs :: v in owed || Covered(before, v)
    ensures forall v <- vs :: v in owed + {x} || Covered(stack, v)
  {
    forall v <- vs
      ensures v in owed + {x} || Covered(stack, v)
    {
      if Pending(before, v) {
        PendingGrows(before, stack, v);
      }
    }
  }

  // ---------------------------------------------------------- marked = reachable

  /** No marked object points to an unmarked one. */
  ghost predicate MarksClosed(heap: set<Object>)
    reads heap
  {
    forall o <- heap :: o.marked ==> (forall v <- o.slots :: v.Pointer? ==> v.o in heap && v.o.marked)
                                     && (forall v <- o.saves :: v.Pointer? ==> v.o in heap && v.o.marked)
  }

  /**
    Marking from `x` marks exactly what is reachable from `x`, besides what was
    marked already.
  */
  method Mark(collector: Collector, x: Value, ghost heap: set<Object>)
    requires collector.stack == [] && Closed(heap) && InHeap(x, heap) && MarksClosed(heap)
    modifies collector, heap`marked
    ensures collector.stack == [] && MarksClosed(heap)
    ensures forall o <- heap :: o.marked <==> old(o.marked) || (x.Pointer? && Reachable(heap, x.o, o))
  {
    ghost var bound := if x.Pointer? then set o | o in heap && Reachable(heap, x.o, o) else {};
    if x.Pointer? {
      ReachableSelf(heap, x.o);
      BoundClosed(heap, x.o, bound);
    }
    collector.MarkFrom(x, heap, bound);
    ghost var marks := set o | o in heap && o.marked;
    if x.Pointer? {
      forall o <- heap | Reachable(heap, x.o, o)
        ensures o.marked
      {
        var n: nat :| o in Within(heap, x.o, n);
        ClosedReaches(heap, marks, x.o, n);
      }
    }
  }

  lemma BoundClosed(heap: set<Object>, x: Object, bound: set<Object>)
    requires Closed(heap) && bound == set o | o in heap && Reachable(heap, x, o)
    ensures Closed(bound)
  {
    forall y <- bound
      ensures (forall v <- y.slots :: InHeap(v, bound)) && (forall v <- y.saves :: InHeap(v, bound))
    {
      forall v | (v in y.slots || v in y.saves) && v.Pointer?
        ensures v.o in bound
      {
        assert Edge(y, v.o);
        ReachableStep(heap, x, y, v.o);
      }
    }
  }
}
