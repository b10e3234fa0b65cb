/**
  Scanning lists that may be cyclic: `list?` and `length` move two cursors,
  one twice as fast as the other.
*/
module Lists {
  import opened Options

  /** A pair is known by its place in the heap. */
  datatype Obj = Null | Atom | Pair(at: nat)

  /** The cdr of every pair. */
  type Heap = seq<Obj>

  ghost predicate Closed(h: Heap) {
    forall i :: 0 <= i < |h| ==> InHeap(h, h[i])
  }

  predicate InHeap(h: Heap, x: Obj) {
    x.Pair? ==> x.at < |h|
  }

  function Cdr(h: Heap, x: Obj): Obj
    requires x.Pair? && InHeap(h, x)
  {
    h[x.at]
  }

  /** What is reached from `x` in `n` steps, or where the chain ended before. */
  function Chain(h: Heap, x: Obj, n: nat): (y: Obj)
    requires Closed(h) && InHeap(h, x)
    ensures InHeap(h, y)
  {
    if n == 0 then x
    else var y := Chain(h, x, n - 1); if y.Pair? then Cdr(h, y) else y
  }

  /** Pairs all the way. */
  ghost predicate Cyclic(h: Heap, x: Obj)
    requires Closed(h) && InHeap(h, x)
  {
    forall n: nat :: Chain(h, x, n).Pair?
  }

  /** A chain of pairs that ends in the empty list. */
  ghost predicate IsList(h: Heap, x: Obj)
    requires Closed(h) && InHeap(h, x)
  {
    exists n: nat :: Chain(h, x, n) == Null
  }

  /** The chain has exactly `n` pairs. */
  ghost predicate HasPairs(h: Heap, x: Obj, n: nat)
    requires Closed(h) && InHeap(h, x)
  {
    !Chain(h, x, n).Pair? && forall m: nat :: m < n ==> Chain(h, x, m).Pair?
  }

  // ------------------------------------------------------------------- chains

  lemma {:induction false} ChainEnds(h: Heap, x: Obj, n: nat, m: nat)
    requires Closed(h) && InHeap(h, x) && n <= m && !Chain(h, x, n).Pair?
    ensures Chain(h, x, m) == Chain(h, x, n)
  {
    if n < m {
      ChainEnds(h, x, n, m - 1);
    }
  }

  /** Coming to the same pair twice, the chain repeats itself. */
  lemma {:induction false} ChainRepeats(h: Heap, x: Obj, i: nat, j: nat, d: nat)
    requires Closed(h) && InHeap(h, x) && Chain(h, x, i) == Chain(h, x, j)
    ensures Chain(h, x, i + d) == Chain(h, x, j + d)
  {
    if d > 0 {
      ChainRepeats(h, x, i, j, d - 1);
    }
  }

  lemma {:induction false} ChainPeriodic(h: Heap, x: Obj, i: nat, p: nat, k: nat)
    requires Closed(h) && InHeap(h, x) && Chain(h, x, i) == Chain(h, x, i + p)
    ensures Chain(h, x, i) == Chain(h, x, i + k * p)
    decreases k
  {
    if k > 0 {
      ChainPeriodic(h, x, i, p, k - 1);
      assert (k - 1) * p + p == k * p;
      ChainRepeats(h, x, i, i + p, (k - 1) * p);
    }
  }

  lemma MeetingIsCyclic(h: Heap, x: Obj, i: nat, j: nat)
    requires Closed(h) && InHeap(h, x) && i < j && Chain(h, x, i) == Chain(h, x, j) && Chain(h, x, i).Pair?
    ensures Cyclic(h, x) && !IsList(h, x)
  {
    forall n: nat
      ensures Chain(h, x, n).Pair?
    {
      if !Chain(h, x, n).Pair? {
        if n <= i {
          ChainEnds(h, x, n, i);
        }
        ChainPeriodic(h, x, i, j - i, n);
        assert n * (j - i) >= n by { MulAtLeast(n, j - i); }
        ChainEnds(h, x, n, i + n * (j - i));
      }
    }
  }

  lemma MulAtLeast(n: nat, p: nat)
    requires p >= 1
    ensures n * p >= n
  {
  }

  /** More numbers than values: two are the same. */
  lemma {:induction false} Pigeonhole(s: seq<nat>, n: nat) returns (i: nat, j: nat)
    requires |s| > n && forall k :: 0 <= k < |s| ==> s[k] < n
    ensures i < j < |s| && s[i] == s[j]
    decreases n
  {
    var last := |s| - 1;
    if k :| 0 <= k < last && s[k] == s[last] {
      i, j := k, last;
    } else {
      var t := seq(last, k requires 0 <= k < last => if s[k] == n - 1 then s[last] else s[k]);
      i, j := Pigeonhole(t, n - 1);
    }
  }

  /** On a cyclic chain the cursors meet at some step. */
  lemma CursorsMeet(h: Heap, x: Obj) returns (k: nat)
    requires Closed(h) && InHeap(h, x) && Cyclic(h, x)
    ensures Chain(h, x, k) == Chain(h, x, 2 * k + 1)
  {
    var s := seq(|h| + 1, n requires 0 <= n => Chain(h, x, n).at);
    var i, j := Pigeonhole(s, |h|);
    var p := j - i;
    k := i * p + (p - 1);
    MulAtLeast(i, p);
    ChainPeriodic(h, x, i, p, i + 1);
    assert (i + 1) * p == i * p + p;
    ChainRepeats(h, x, i, i + (i + 1) * p, k - i);
  }

  lemma NotCyclic(h: Heap, x: Obj, n: nat)
    requires Closed(h) && InHeap(h, x) && !Chain(h, x, n).Pair?
    ensures !Cyclic(h, x) && (IsList(h, x) <==> Chain(h, x, n) == Null)
  {
    if IsList(h, x) {
      var m: nat :| Chain(h, x, m) == Null;
      ChainEnds(h, x, if m < n then m else n, if m < n then n else m);
    }
  }

  // -------------------------------------------------------------------- scans

  /** How far the scans can go before they stop. */
  lemma Bound(h: Heap, x: Obj) returns (n: nat)
    requires Closed(h) && InHeap(h, x)
    ensures !Chain(h, x, n).Pair? || Chain(h, x, n) == Chain(h, x, 2 * n + 1)
  {
    if m: nat :| !Chain(h, x, m).Pair? {
      n := m;
    } else {
      n := CursorsMeet(h, x);
    }
  }

  method IsListOp(h: Heap, x: Obj) returns (r: bool)
    requires Closed(h) && InHeap(h, x)
    ensures r <==> IsList(h, x)
  {
    if !x.Pair? {
      NotCyclic(h, x, 0);
      return x.Null?;
    }
    ghost var bound := Bound(h, x);
    ghost var k: nat := 0;
    var turtle := x;
    var hare := Cdr(h, x);
    assert hare == Chain(h, x, 1) by { assert Chain(h, x, 0) == x; }
    while hare.Pair?
      invariant InHeap(h, hare) && InHeap(h, turtle) && turtle == Chain(h, x, k) && hare == Chain(h, x, 2 * k + 1)
      invariant k <= bound
      decreases bound - k
    {
      TurtleIsPair(h, x, k);
      if hare == turtle {
        MeetingIsCyclic(h, x, k, 2 * k + 1);
        return false;
      }
      NotPast(h, x, k, bound);
      assert Chain(h, x, 2 * k + 2) == Cdr(h, hare);
      hare := Cdr(h, hare);
      if hare.Pair? {
        assert Chain(h, x, 2 * k + 3) == Cdr(h, hare);
        hare := Cdr(h, hare);
      } else {
        ChainEnds(h, x, 2 * k + 2, 2 * k + 3);
      }
      turtle := Cdr(h, turtle);
      k := k + 1;
    }
    NotCyclic(h, x, 2 * k + 1);
    return hare.Null?;
  }

  lemma TurtleIsPair(h: Heap, x: Obj, k: nat)
    requires Closed(h) && InHeap(h, x) && Chain(h, x, 2 * k + 1).Pair?
    ensures Chain(h, x, k).Pair?
  {
    if !Chain(h, x, k).Pair? {
      ChainEnds(h, x, k, 2 * k + 1);
    }
  }

  lemma NotPast(h: Heap, x: Obj, k: nat, bound: nat)
    requires Closed(h) && InHeap(h, x) && k <= bound
    requires Chain(h, x, 2 * k + 1).Pair? && Chain(h, x, k) != Chain(h, x, 2 * k + 1)
    requires !Chain(h, x, bound).Pair? || Chain(h, x, bound) == Chain(h, x, 2 * bound + 1)
    ensures k < bound
  {
    TurtleIsPair(h, x, k);
  }

  /** The number of pairs, or nothing for a cyclic chain. */
  method LengthOp(h: Heap, x: Obj) returns (r: Option<nat>)
    requires Closed(h) && InHeap(h, x)
    ensures r.None? <==> Cyclic(h, x)
    ensures r.Some? ==> HasPairs(h, x, r.value)
  {
    if !x.Pair? {
      NotCyclic(h, x, 0);
      return Some(0);
    }
    ghost var bound := Bound(h, x);
    ghost var k: nat := 0;
    var ls1, res := x, 1;
    var ls2 := Cdr(h, x);
    assert ls2 == Chain(h, x, 1) by { assert Chain(h, x, 0) == x; }
    while ls2.Pair? && Cdr(h, ls2).Pair?
      invariant InHeap(h, ls2) && InHeap(h, ls1) && ls1 == Chain(h, x, k) && ls2 == Chain(h, x, 2 * k + 1)
      invariant res == 2 * k + 1 && k <= bound && Chain(h, x, 2 * k).Pair?
      decreases bound - k
    {
      TurtleIsPair(h, x, k);
      if ls1 == ls2 {
        MeetingIsCyclic(h, x, k, 2 * k + 1);
        return None;
      }
      NotPast(h, x, k, bound);
      assert Chain(h, x, 2 * k + 2) == Cdr(h, ls2) && Chain(h, x, 2 * k + 3) == Cdr(h, Cdr(h, ls2));
      res, ls1, ls2 := res + 2, Cdr(h, ls1), Cdr(h, Cdr(h, ls2));
      k := k + 1;
    }
    var n := res + if ls2.Pair? then 1 else 0;
    assert ls2.Pair? ==> Chain(h, x, 2 * k + 2) == Cdr(h, ls2);
    CountedPairs(h, x, n);
    NotCyclic(h, x, n);
    return Some(n);
  }

  lemma CountedPairs(h: Heap, x: Obj, n: nat)
    requires Closed(h) && InHeap(h, x) && n > 0 && !Chain(h, x, n).Pair? && Chain(h, x, n - 1).Pair?
    ensures HasPairs(h, x, n)
  {
    forall m: nat | m < n
      ensures Chain(h, x, m).Pair?
    {
      if !Chain(h, x, m).Pair? {
        ChainEnds(h, x, m, n - 1);
      }
    }
  }
}
