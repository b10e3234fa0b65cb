/**
  The allocator: sweeping a heap chunk into its free list, first-fit
  allocation with splitting, and growing the chain of chunks.

  A chunk is modelled by the fields the collector keeps in its memory, indexed
  by byte offset: `sizes` and `nexts` of free blocks, and `bytes` and `marks`
  of objects.  The ghost `tiles` is how the chunk is divided.
*/
module Heaps {
  import opened Options
  import opened Tiles
  import opened Runs

  /** The fields kept in memory agree with the division into tiles. */
  ghost predicate Fields(tiles: seq<Tile>, sizes: seq<nat>, bytes: seq<nat>) {
    forall t <- tiles :: t.addr < |sizes| && t.addr < |bytes|
                         && (if t.free then sizes[t.addr] == t.size else Align(bytes[t.addr]) == t.size)
  }

  /** The tiles of the allocated blocks whose mark is set. */
  function Survivors(tiles: seq<Tile>, marks: seq<bool>): seq<Tile>
    requires forall t <- tiles :: t.addr < |marks|
  {
    if tiles == [] then []
    else (if !tiles[0].free && marks[tiles[0].addr] then [tiles[0]] else []) + Survivors(tiles[1..], marks)
  }

  ghost predicate MarksFit(tiles: seq<Tile>, marks: seq<bool>) {
    forall t <- tiles :: t.addr < |marks|
  }

  /** Where a mark is set. */
  ghost function Marked(marks: seq<bool>): set<nat> { set a: nat | a < |marks| && marks[a] }

  lemma {:induction false} SurvivorsAppend(a: seq<Tile>, t: Tile, marks: seq<bool>)
    requires forall t <- a :: t.addr < |marks|
    requires t.addr < |marks|
    ensures Survivors(a + [t], marks) == Survivors(a, marks) + if !t.free && marks[t.addr] then [t] else []
    ensures Garbage(a + [t], Marked(marks)) == Garbage(a, Marked(marks)) + if !t.free && !marks[t.addr] then t.size else 0
  {
    GarbageAppend(a, t, Marked(marks));
    if a == [] {
      assert a + [t] == [t] && [t][1..] == [];
    } else {
      assert (a + [t])[1..] == a[1..] + [t];
      SurvivorsAppend(a[1..], t, marks);
      Regroup(if !a[0].free && marks[a[0].addr] then [a[0]] else [], Survivors(a[1..], marks),
              if !t.free && marks[t.addr] then [t] else []);
    }
  }

  /** The list before the block at `lo`: its last element ends at `lo` exactly when that block is free. */
  lemma LastFree(done: seq<Tile>, p: nat, sizes: seq<nat>, bytes: seq<nat>)
    requires Tiling(done, FIRST, p) && Fields(done, sizes, bytes)
    ensures var l := [HEAD] + Frees(done); var q := l[|l| - 1];
            && q < p
            && (q == HEAD <==> Frees(done) == [])
            && (q != HEAD ==> q < |sizes|)
            && ((q != HEAD && q + sizes[q] == p) <==> (done != [] && done[|done| - 1].free))
            && (done != [] && done[|done| - 1].free ==> q == done[|done| - 1].addr)
    decreases |done|
  {
    TilingBounds(done, FIRST, p);
    FreesSorted(done, FIRST, p);
    if done != [] {
      var k := |done| - 1;
      var init, t := done[..k], done[k];
      assert done == init + [t];
      FreesAppend(init, [t]);
      assert Frees([t]) == if t.free then [t.addr] else [];
      TilingSplit(init, t, FIRST, p);
      if !t.free {
        TilingBounds(init, FIRST, t.addr);
        if Frees(init) != [] {
          var q := Frees(init)[|Frees(init)| - 1];
          FreesMembers(init, q);
          var u :| u in init && u.free && u.addr == q;
          assert u in done;
        }
      }
    }
  }

  lemma {:induction false} TilingSplit(init: seq<Tile>, t: Tile, lo: nat, hi: nat)
    requires Tiling(init + [t], lo, hi)
    ensures Tiling(init, lo, t.addr) && t.addr + t.size == hi && t.size >= ALIGN && t.size % ALIGN == 0
    decreases |init|
  {
    var all := init + [t];
    if init == [] {
      assert all[1..] == [];
    } else {
      assert all[1..] == init[1..] + [t];
      TilingSplit(init[1..], t, lo + init[0].size, hi);
    }
  }

  /** The next free block starts right after the object at `p` exactly when the next block is free. */
  lemma NextFree(rest: seq<Tile>, p: nat, hi: nat)
    requires rest != [] && Tiling(rest, p, hi) && !rest[0].free && p % ALIGN == 0 && p > 0
    ensures FirstOf(Frees(rest)) == p + rest[0].size <==> |rest| > 1 && rest[1].free
    ensures Frees(rest) == Frees(rest[1..])
    ensures |rest| > 1 && rest[1].free ==> Frees(rest) == [rest[1].addr] + Frees(rest[2..]) && rest[1].addr == p + rest[0].size
  {
    var size := rest[0].size;
    TilingBounds(rest, p, hi);
    assert rest[0] in rest;
    assert [] + Frees(rest[1..]) == Frees(rest[1..]);
    if |rest| > 1 {
      assert rest[1..][1..] == rest[2..];
      assert rest[1] in rest;
      FreesSorted(rest[2..], p + size + rest[1].size, hi);
    }
  }

  lemma Single(t: Tile)
    requires t.size >= ALIGN && t.size % ALIGN == 0
    ensures Tiling([t], t.addr, t.addr + t.size)
    ensures Frees([t]) == (if t.free then [t.addr] else []) && Allocated([t]) == if t.free then [] else [t]
  {
    assert [t][1..] == [];
  }

  lemma NoAdjacentJoin(a: seq<Tile>, b: seq<Tile>)
    ensures NoAdjacentFree(a + b)
            <==> NoAdjacentFree(a) && NoAdjacentFree(b) && (a != [] && b != [] ==> !(a[|a| - 1].free && b[0].free))
  {
    var c := a + b;
    if NoAdjacentFree(c) {
      forall i | 0 <= i < |a| - 1 ensures !(a[i].free && a[i + 1].free) { assert c[i] == a[i] && c[i + 1] == a[i + 1]; }
      forall i | 0 <= i < |b| - 1 ensures !(b[i].free && b[i + 1].free) {
        assert c[|a| + i] == b[i] && c[|a| + i + 1] == b[i + 1];
      }
      if a != [] && b != [] {
        assert c[|a| - 1] == a[|a| - 1] && c[|a| - 1 + 1] == b[0];
      }
    }
  }

  /** A free tile between two stretches whose neighbouring tiles are not free. */
  lemma Coalesce(d: seq<Tile>, t: Tile, r: seq<Tile>, limit: nat, sizes: seq<nat>, bytes: seq<nat>)
    requires Tiling(d, FIRST, t.addr) && Tiling(r, t.addr + t.size, limit) && limit <= |sizes| && limit <= |bytes|
    requires t.free && t.size >= ALIGN && t.size % ALIGN == 0
    requires NoAdjacentFree(d) && NoAdjacentFree(r)
    requires d != [] ==> !d[|d| - 1].free
    requires r != [] ==> !r[0].free
    requires Fields(d, sizes, bytes) && Fields(r, sizes, bytes)
    ensures FIRST <= t.addr < limit && t.addr + t.size <= limit
    ensures Tiling(d + [t] + r, FIRST, limit) && Tiling(d + [t], FIRST, t.addr + t.size) && NoAdjacentFree(d + [t] + r)
    ensures Frees(d + [t]) == Frees(d) + [t.addr] && Frees(d + [t] + r) == Frees(d) + [t.addr] + Frees(r)
    ensures Allocated(d + [t]) == Allocated(d)
    ensures Fields(d + [t] + r, sizes[t.addr := t.size], bytes)
  {
    hide Tiling;
    hide Frees;
    hide Allocated;
    hide NoAdjacentFree;
    Single(t);
    TilingAppend(d, [t], FIRST, t.addr, t.addr + t.size);
    TilingBounds(d, FIRST, t.addr);
    TilingBounds(r, t.addr + t.size, limit);
    TilingAppend(d + [t], r, FIRST, t.addr + t.size, limit);
    FreesAppend(d, [t]);
    FreesAppend(d + [t], r);
    NoAdjacentSingle(t);
    NoAdjacentJoin(d, [t]);
    NoAdjacentJoin(d + [t], r);
    assert Allocated(d) + [] == Allocated(d);
    FieldsJoin(d, t, r, sizes, bytes);
  }

  lemma NoAdjacentSingle(t: Tile)
    ensures NoAdjacentFree([t])
  {
  }

  lemma FieldsJoin(d: seq<Tile>, t: Tile, r: seq<Tile>, sizes: seq<nat>, bytes: seq<nat>)
    requires t.free && t.addr < |sizes| && t.addr < |bytes|
    requires Fields(d, sizes, bytes) && Fields(r, sizes, bytes)
    requires (forall u <- d :: u.addr != t.addr) && (forall u <- r :: u.addr != t.addr)
    ensures Fields(d + [t] + r, sizes[t.addr := t.size], bytes)
  {
    forall u | u in d + [t] + r
      ensures u in d || u == t || u in r
    {
    }
  }

  lemma FieldsParts(a: seq<Tile>, b: seq<Tile>, sizes: seq<nat>, bytes: seq<nat>)
    requires Fields(a + b, sizes, bytes)
    ensures Fields(a, sizes, bytes) && Fields(b, sizes, bytes)
  {
    assert forall t <- a :: t in a + b;
    assert forall t <- b :: t in a + b;
  }

  /** The free list rises from its head through the chunk. */
  lemma ListIncreasing(tiles: seq<Tile>, limit: nat)
    requires Tiling(tiles, FIRST, limit)
    ensures Increasing([HEAD] + Frees(tiles))
    ensures forall a <- Frees(tiles) :: FIRST <= a < limit
  {
    FreesSorted(tiles, FIRST, limit);
  }

  predicate MergeBefore(done: seq<Tile>) { done != [] && done[|done| - 1].free }

  predicate MergeAfter(rest: seq<Tile>) { |rest| > 1 && rest[1].free }

  /** What stays of the tiles before an object when it is freed. */
  function KeptBefore(done: seq<Tile>): seq<Tile> {
    if MergeBefore(done) then done[..|done| - 1] else done
  }

  /** What stays of the tiles from an object on when it is freed. */
  function KeptAfter(rest: seq<Tile>): seq<Tile>
    requires rest != []
  {
    if MergeAfter(rest) then rest[2..] else rest[1..]
  }

  /** Where the freed block starts, merged with a free block before. */
  function StartBefore(done: seq<Tile>, p: nat): nat {
    if MergeBefore(done) then done[|done| - 1].addr else p
  }

  /** Where the freed block ends, merged with a free block behind. */
  function EndAfter(rest: seq<Tile>): nat
    requires rest != []
  {
    rest[0].addr + rest[0].size + if MergeAfter(rest) then rest[1].size else 0
  }

  lemma Before(done: seq<Tile>, p: nat, sizes: seq<nat>, bytes: seq<nat>)
    requires Tiling(done, FIRST, p) && NoAdjacentFree(done) && Fields(done, sizes, bytes)
    ensures var d, a := KeptBefore(done), StartBefore(done, p);
            && Tiling(d, FIRST, a) && a <= p && (p - a) % ALIGN == 0 && a % ALIGN == 0
            && NoAdjacentFree(d) && (d != [] ==> !d[|d| - 1].free)
            && Fields(d, sizes, bytes) && Allocated(done) == Allocated(d)
            && Frees(done) == Frees(d) + (if MergeBefore(done) then [a] else [])
            && Frees(d) + [a] == Frees(done) + (if MergeBefore(done) then [] else [p])
  {
    hide Tiling;
    hide Frees;
    hide Allocated;
    hide NoAdjacentFree;
    hide Fields;
    var d := KeptBefore(done);
    TilingBounds(done, FIRST, p);
    if MergeBefore(done) {
      var t := done[|done| - 1];
      assert done == d + [t];
      TilingSplit(d, t, FIRST, p);
      TilingBounds(d, FIRST, t.addr);
      Single(t);
      FreesAppend(d, [t]);
      NoAdjacentJoin(d, [t]);
      FieldsParts(d, [t], sizes, bytes);
      assert Allocated(d) + [] == Allocated(d);
    } else {
      assert Frees(d) + [] == Frees(d);
    }
  }

  lemma After(rest: seq<Tile>, limit: nat, sizes: seq<nat>, bytes: seq<nat>)
    requires rest != [] && !rest[0].free
    requires Tiling(rest, rest[0].addr, limit) && NoAdjacentFree(rest) && Fields(rest, sizes, bytes)
    ensures AfterFacts(rest, limit, sizes, bytes)
  {
    hide Tiling;
    hide Frees;
    hide NoAdjacentFree;
    hide Fields;
    var t, tail := rest[0], rest[1..];
    assert rest == [t] + tail;
    if MergeAfter(rest) {
      assert tail == [rest[1]] + rest[2..];
      AfterMerged(t, rest[1], rest[2..], limit, sizes, bytes);
    } else {
      AfterAlone(t, tail, limit, sizes, bytes);
    }
  }

  lemma AfterAlone(t: Tile, r: seq<Tile>, limit: nat, sizes: seq<nat>, bytes: seq<nat>)
    requires !t.free && !MergeAfter([t] + r)
    requires Tiling([t] + r, t.addr, limit) && NoAdjacentFree([t] + r) && Fields([t] + r, sizes, bytes)
    ensures AfterFacts([t] + r, limit, sizes, bytes)
  {
    hide Tiling;
    hide Frees;
    hide NoAdjacentFree;
    hide Fields;
    Peel(t, r, t.addr, limit, sizes, bytes);
    assert ([t] + r)[1..] == r && [] + Frees(r) == Frees(r);
    assert r != [] ==> ([t] + r)[1] == r[0];
  }

  ghost predicate AfterFacts(rest: seq<Tile>, limit: nat, sizes: seq<nat>, bytes: seq<nat>)
    requires rest != []
  {
    var r := KeptAfter(rest);
    && Tiling(r, EndAfter(rest), limit) && EndAfter(rest) >= rest[0].addr + ALIGN
    && (EndAfter(rest) - rest[0].addr) % ALIGN == 0
    && NoAdjacentFree(r) && (r != [] ==> !r[0].free) && Fields(r, sizes, bytes)
    && Frees(rest) == (if MergeAfter(rest) then [rest[0].addr + rest[0].size] else []) + Frees(r)
  }

  lemma AfterMerged(t: Tile, u: Tile, r: seq<Tile>, limit: nat, sizes: seq<nat>, bytes: seq<nat>)
    requires !t.free && u.free
    requires var rest := [t] + ([u] + r);
             Tiling(rest, t.addr, limit) && NoAdjacentFree(rest) && Fields(rest, sizes, bytes)
    ensures u.addr == t.addr + t.size && t.size >= ALIGN && u.size >= ALIGN && (t.size + u.size) % ALIGN == 0
    ensures Tiling(r, u.addr + u.size, limit) && NoAdjacentFree(r) && (r != [] ==> !r[0].free) && Fields(r, sizes, bytes)
    ensures Frees([t] + ([u] + r)) == [u.addr] + Frees(r)
  {
    hide Tiling;
    hide Frees;
    hide NoAdjacentFree;
    hide Fields;
    Peel(t, [u] + r, t.addr, limit, sizes, bytes);
    Peel(u, r, t.addr + t.size, limit, sizes, bytes);
    assert [] + ([u.addr] + Frees(r)) == [u.addr] + Frees(r);
  }

  /** The first tile and the others. */
  lemma Peel(t: Tile, r: seq<Tile>, lo: nat, limit: nat, sizes: seq<nat>, bytes: seq<nat>)
    requires Tiling([t] + r, lo, limit) && NoAdjacentFree([t] + r) && Fields([t] + r, sizes, bytes)
    ensures t.addr == lo && t.size >= ALIGN && t.size % ALIGN == 0 && Tiling(r, lo + t.size, limit)
    ensures NoAdjacentFree(r) && (t.free && r != [] ==> !r[0].free) && Fields(r, sizes, bytes)
    ensures Frees([t] + r) == (if t.free then [t.addr] else []) + Frees(r)
  {
    assert ([t] + r)[1..] == r;
    NoAdjacentJoin([t], r);
    FieldsParts([t], r, sizes, bytes);
  }

  /** The free list after a block was linked in at `start`, by the four cases of the sweep. */
  lemma Relinked(next: seq<nat>, n1: seq<nat>, a: seq<nat>, p: nat, r: nat, b: seq<nat>, mergeQ: bool, mergeR: bool)
    requires a != [] && p < |next| && a[|a| - 1] < |next|
    requires Chain(next, a + (if mergeR then [r] else []) + b) && Increasing(a + (if mergeR then [r] else []) + b)
    requires Increasing(a + (if mergeQ then [] else [p]) + b)
    requires mergeR ==> r < |next|
    requires !mergeR ==> r == FirstOf(b)
    requires var q := a[|a| - 1];
             n1 == if mergeQ then (if mergeR then next[q := next[r]] else next)
                   else if mergeR then next[p := next[r]][q := p] else next[p := r][q := p]
    ensures Chain(n1, a + (if mergeQ then [] else [p]) + b)
  {
    if mergeQ {
      assert a + [] + b == a + b;
      if mergeR {
        ChainRemove(next, a, r, b, n1);
      }
    } else if mergeR {
      ChainReplace(next, a, r, p, b, n1);
    } else {
      assert a + [] + b == a + b;
      ChainInsert(next, a, p, b, n1);
    }
  }

  /** The invariant of a chunk, on the contents of its arrays. */
  ghost predicate Divided(tiles: seq<Tile>, limit: nat, sizes: seq<nat>, nexts: seq<nat>, bytes: seq<nat>) {
    && |sizes| == |nexts| == |bytes| == limit && limit >= FIRST && limit % ALIGN == 0
    && Tiling(tiles, FIRST, limit) && NoAdjacentFree(tiles)
    && sizes[HEAD] == 0
    && Chain(nexts, [HEAD] + Frees(tiles))
    && Fields(tiles, sizes, bytes)
  }

  /** The sweep is at the object at `p`, with `q` and `r` the list elements around it. */
  ghost predicate At(done: seq<Tile>, rest: seq<Tile>, p: nat, size: nat, q: nat, r: nat) {
    && rest != [] && rest[0] == Tile(p, size, false) && Tiling(done, FIRST, p)
    && q == ([HEAD] + Frees(done))[|Frees(done)|] && r == FirstOf(Frees(rest))
  }

  /** The tests of the sweep recognise free neighbours. */
  lemma Situate(done: seq<Tile>, rest: seq<Tile>, p: nat, size: nat, q: nat, r: nat, limit: nat,
                sizes: seq<nat>, nexts: seq<nat>, bytes: seq<nat>)
    requires Divided(done + rest, limit, sizes, nexts, bytes) && At(done, rest, p, size, q, r)
    ensures rest != [] && rest[0] == Tile(p, size, false) && q < p < limit && p + size <= limit && r < limit
    ensures MergeBefore(done) <==> q + sizes[q] == p && q != HEAD
    ensures MergeBefore(done) ==> q == done[|done| - 1].addr && sizes[q] == done[|done| - 1].size
    ensures size >= ALIGN
    ensures MergeAfter(rest) <==> r != NULL && sizes[r] > 0 && p + size == r
    ensures EndAfter(rest) == p + size + if MergeAfter(rest) then sizes[r] else 0
  {
    hide Frees;
    hide NoAdjacentFree;
    hide Chain;
    FieldsParts(done, rest, sizes, bytes);
    FreesAppend(done, rest);
    TilingAppend(done, rest, FIRST, p, limit);
    LastFree(done, p, sizes, bytes);
    TilingBounds(done, FIRST, p);
    TilingBounds(rest, p, limit);
    assert rest[0] in rest;
    NextFree(rest, p, limit);
    ListIncreasing(done + rest, limit);
    if Frees(rest) != [] {
      assert r in Frees(rest);
      assert r in Frees(done + rest);
    }
    if |rest| > 1 {
      assert rest[1] in rest;
    }
  }

  /** The new tiles after the object was freed. */
  lemma FreedTiles(done: seq<Tile>, rest: seq<Tile>, p: nat, size: nat, q: nat, r: nat, limit: nat,
                   sizes: seq<nat>, nexts: seq<nat>, bytes: seq<nat>, t: Tile)
    requires Divided(done + rest, limit, sizes, nexts, bytes) && At(done, rest, p, size, q, r)
    requires q < p < limit && r < limit
    requires StartBefore(done, p) <= p && t == Tile(StartBefore(done, p), EndAfter(rest) - StartBefore(done, p), true)
    ensures var done1, rest1 := KeptBefore(done) + [t], KeptAfter(rest);
            && FIRST <= t.addr < limit && EndAfter(rest) <= limit
            && Tiling(done1 + rest1, FIRST, limit) && NoAdjacentFree(done1 + rest1)
            && Fields(done1 + rest1, sizes[t.addr := t.size], bytes)
            && Tiling(done1, FIRST, EndAfter(rest)) && Tiling(rest1, EndAfter(rest), limit) && Allocated(done1) == Allocated(done)
            && Frees(done1) == Frees(done) + (if MergeBefore(done) then [] else [p])
            && Frees(rest) == (if MergeAfter(rest) then [r] else []) + Frees(rest1)
  {
    hide Tiling;
    hide Frees;
    hide Allocated;
    hide NoAdjacentFree;
    hide Chain;
    hide Increasing;
    hide Fields;
    hide KeptBefore;
    hide KeptAfter;
    hide StartBefore;
    hide EndAfter;
    hide MergeBefore;
    hide MergeAfter;
    var d, r1 := KeptBefore(done), KeptAfter(rest);
    FieldsParts(done, rest, sizes, bytes);
    NoAdjacentJoin(done, rest);
    FreesAppend(done, rest);
    TilingAppend(done, rest, FIRST, p, limit);
    Before(done, p, sizes, bytes);
    After(rest, limit, sizes, bytes);
    FirstFree(rest, p, size, limit, r);
    Coalesce(d, t, r1, limit, sizes, bytes);
  }

  /** The new division after the object was freed. */
  lemma Freed(done: seq<Tile>, rest: seq<Tile>, p: nat, size: nat, q: nat, r: nat, limit: nat,
              sizes: seq<nat>, nexts: seq<nat>, bytes: seq<nat>, t: Tile, n1: seq<nat>)
    requires Divided(done + rest, limit, sizes, nexts, bytes) && At(done, rest, p, size, q, r)
    requires q < p < limit && r < limit
    requires StartBefore(done, p) <= p && t == Tile(StartBefore(done, p), EndAfter(rest) - StartBefore(done, p), true)
    requires n1 == if MergeBefore(done) then (if MergeAfter(rest) then nexts[q := nexts[r]] else nexts)
                   else if MergeAfter(rest) then nexts[p := nexts[r]][q := p] else nexts[p := r][q := p]
    ensures var done1, rest1 := KeptBefore(done) + [t], KeptAfter(rest);
            && t.addr < limit
            && Divided(done1 + rest1, limit, sizes[t.addr := t.size], n1, bytes) && Tiling(done1, FIRST, EndAfter(rest))
            && Tiling(rest1, EndAfter(rest), limit)
            && Allocated(done1) == Allocated(done) && EndAfter(rest) <= limit
            && |Frees(done1)| >= |Frees(done)| && ([HEAD] + Frees(done1))[|Frees(done)|] == q
  {
    hide Tiling;
    hide Frees;
    hide Allocated;
    hide NoAdjacentFree;
    hide Chain;
    hide Increasing;
    hide Fields;
    hide KeptBefore;
    hide KeptAfter;
    hide StartBefore;
    hide EndAfter;
    hide MergeBefore;
    hide MergeAfter;
    var d := KeptBefore(done);
    FreedTiles(done, rest, p, size, q, r, limit, sizes, nexts, bytes, t);
    FreedChain(done, rest, d + [t], p, q, r, limit, nexts, n1);
    assert ([HEAD] + Frees(d + [t]))[|Frees(done)|] == q;
  }

  lemma FirstFree(rest: seq<Tile>, p: nat, size: nat, limit: nat, r: nat)
    requires rest != [] && rest[0] == Tile(p, size, false) && r == FirstOf(Frees(rest))
    requires Frees(rest) == (if MergeAfter(rest) then [p + size] else []) + Frees(KeptAfter(rest))
    ensures MergeAfter(rest) ==> r == p + size
  {
  }

  lemma FreedChain(done: seq<Tile>, rest: seq<Tile>, done1: seq<Tile>, p: nat, q: nat, r: nat, limit: nat,
                   nexts: seq<nat>, n1: seq<nat>)
    requires rest != [] && |nexts| == limit && q < p < limit && r < limit
    requires Tiling(done + rest, FIRST, limit) && Chain(nexts, [HEAD] + Frees(done + rest))
    requires q == ([HEAD] + Frees(done))[|Frees(done)|] && r == FirstOf(Frees(rest))
    requires Frees(rest) == (if MergeAfter(rest) then [r] else []) + Frees(KeptAfter(rest))
    requires Tiling(done1 + KeptAfter(rest), FIRST, limit)
    requires Frees(done1) == Frees(done) + (if MergeBefore(done) then [] else [p])
    requires n1 == if MergeBefore(done) then (if MergeAfter(rest) then nexts[q := nexts[r]] else nexts)
                   else if MergeAfter(rest) then nexts[p := nexts[r]][q := p] else nexts[p := r][q := p]
    ensures Chain(n1, [HEAD] + Frees(done1 + KeptAfter(rest)))
  {
    hide Tiling;
    hide Frees;
    hide Chain;
    hide Increasing;
    var r1 := KeptAfter(rest);
    FreesAppend(done, rest);
    FreesAppend(done1, r1);
    ListIncreasing(done + rest, limit);
    ListIncreasing(done1 + r1, limit);
    var a, b := [HEAD] + Frees(done), Frees(r1);
    Regroup([HEAD], Frees(done), Frees(rest));
    Regroup(a, if MergeAfter(rest) then [r] else [], b);
    Regroup([HEAD], Frees(done), if MergeBefore(done) then [] else [p]);
    Regroup([HEAD], Frees(done1), b);
    Relinked(nexts, n1, a, p, r, b, MergeBefore(done), MergeAfter(rest));
  }

  /** The element after place `j` lies before `p` while the list is in the part that is done. */
  lemma ListAround(done: seq<Tile>, rest: seq<Tile>, p: nat, limit: nat, j: nat)
    requires Tiling(done, FIRST, p) && Tiling(rest, p, limit) && j <= |Frees(done)|
    ensures var l := [HEAD] + Frees(done + rest);
            && |Frees(done)| < |l| && l[j] == ([HEAD] + Frees(done))[j]
            && (j < |Frees(done)| ==> l[j + 1] != NULL && l[j + 1] < p)
            && (j == |Frees(done)| ==> (if j + 1 < |l| then l[j + 1] else NULL) == FirstOf(Frees(rest)))
            && (j == |Frees(done)| && j + 1 < |l| ==> l[j + 1] >= p)
  {
    hide Frees;
    hide Tiling;
    FreesAppend(done, rest);
    TilingBounds(done, FIRST, p);
    FreesSorted(done, FIRST, p);
    FreesSorted(rest, p, limit);
  }

  lemma ChainAt(nexts: seq<nat>, l: seq<nat>, j: nat)
    requires Chain(nexts, l) && j < |l|
    ensures l[j] < |nexts| && nexts[l[j]] == if j + 1 < |l| then l[j + 1] else NULL
  {
  }

  lemma AllFit(tiles: seq<Tile>, limit: nat, sizes: seq<nat>, nexts: seq<nat>, bytes: seq<nat>, marks: seq<bool>)
    requires Divided(tiles, limit, sizes, nexts, bytes) && |marks| == limit
    ensures Tiling(tiles, FIRST, limit) && FIRST <= limit && limit % ALIGN == 0 && Fields(tiles, sizes, bytes) && MarksFit(tiles, marks)
  {
    TilingBounds(tiles, FIRST, limit);
  }

  /** The tile at `p` is free exactly when the free list continues there. */
  lemma TileAt(rest: seq<Tile>, p: nat, limit: nat, r: nat, sizes: seq<nat>, bytes: seq<nat>)
    requires Tiling(rest, p, limit) && p < limit && p % ALIGN == 0 && p > 0
    requires r == FirstOf(Frees(rest)) && Fields(rest, sizes, bytes)
    ensures rest != [] && rest[0].addr == p && p < |sizes| && p < |bytes| && (r == p <==> rest[0].free)
    ensures if rest[0].free then sizes[p] == rest[0].size else Align(bytes[p]) == rest[0].size
    ensures Tiling(rest[1..], p + rest[0].size, limit) && p + rest[0].size <= limit && rest[0].size >= ALIGN
  {
    assert rest[0] in rest;
    TilingBounds(rest, p, limit);
    FreesSorted(rest[1..], p + rest[0].size, limit);
    assert [] + Frees(rest[1..]) == Frees(rest[1..]);
  }

  lemma BlockFacts(done: seq<Tile>, rest: seq<Tile>, p: nat, limit: nat, r: nat,
                   sizes: seq<nat>, nexts: seq<nat>, bytes: seq<nat>)
    requires Divided(done + rest, limit, sizes, nexts, bytes)
    requires Tiling(done, FIRST, p) && Tiling(rest, p, limit) && p < limit && r == FirstOf(Frees(rest))
    ensures rest != [] && rest[0].addr == p && p < |sizes| && p < |bytes| && (r == p <==> rest[0].free)
    ensures if rest[0].free then sizes[p] == rest[0].size else Align(bytes[p]) == rest[0].size
    ensures Tiling(rest[1..], p + rest[0].size, limit) && p + rest[0].size <= limit
    ensures rest[0].size >= ALIGN && rest[0].size % ALIGN == 0
    ensures done + rest == done + [rest[0]] + rest[1..]
    ensures forall t <- done :: t.addr < p
    ensures forall t <- rest[1..] :: t.addr > p
  {
    hide Frees;
    FieldsParts(done, rest, sizes, bytes);
    TilingBounds(done, FIRST, p);
    TileAt(rest, p, limit, r, sizes, bytes);
    TilingBounds(rest, p, limit);
    assert rest[0] in rest;
    TilingBounds(rest[1..], p + rest[0].size, limit);
  }

  /** A free block does not follow another one. */
  lemma NotAfterFree(done: seq<Tile>, rest: seq<Tile>, tiles: seq<Tile>, limit: nat, sizes: seq<nat>, nexts: seq<nat>, bytes: seq<nat>)
    requires Divided(tiles, limit, sizes, nexts, bytes) && tiles == done + rest && rest != []
    ensures rest[0].free ==> !MergeBefore(done)
  {
    if MergeBefore(done) {
      assert tiles[|done| - 1] == done[|done| - 1] && tiles[|done| - 1 + 1] == rest[0];
    }
  }

  ghost predicate HasFree(tiles: seq<Tile>, size: nat) {
    exists t <- tiles :: t.free && t.size >= size
  }

  /** The largest block freed so far stays free, whole or merged into a larger one. */
  lemma LargestFreed(done: seq<Tile>, done1: seq<Tile>, freed: nat, max0: nat, max: nat)
    requires exists start :: done1 == KeptBefore(done) + [Tile(start, freed, true)]
    requires MergeBefore(done) ==> freed > done[|done| - 1].size
    requires max == max0 || HasFree(done, max)
    ensures HasFree(done1, freed)
    ensures freed <= max ==> max == max0 || HasFree(done1, max)
  {
    var start :| done1 == KeptBefore(done) + [Tile(start, freed, true)];
    assert Tile(start, freed, true) in done1;
    if max != max0 {
      var t :| t in done && t.free && t.size >= max;
      if t !in KeptBefore(done) {
        assert done == KeptBefore(done) + [done[|done| - 1]];
      } else {
        assert t in done1;
      }
    }
  }

  lemma NothingDone()
    ensures Tiling([], FIRST, FIRST) && Frees([]) == []
  {
  }

  /** The size of the free block that ends the part that is done. */
  function Trail(done: seq<Tile>): nat { if MergeBefore(done) then done[|done| - 1].size else 0 }

  /** The largest run is still found from here; `dead` tells whether the block that ends the part that is done was freed. */
  ghost predicate Measured(done: seq<Tile>, rest: seq<Tile>, live: set<nat>, dead: bool, max: nat, goal: nat) {
    && (dead ==> MergeBefore(done) && max >= Trail(done))
    && LargestRun(rest, live, Trail(done), dead, max) == goal
  }

  lemma MeasureStarts(tiles: seq<Tile>, live: set<nat>, max: nat)
    ensures Measured([], tiles, live, false, max, LargestRun(tiles, live, 0, false, max))
  {
  }

  lemma MeasureEnds(done: seq<Tile>, live: set<nat>, dead: bool, max: nat, goal: nat)
    requires Measured(done, [], live, dead, max, goal)
    ensures max == goal
  {
  }

  lemma MeasurePassed(done: seq<Tile>, rest: seq<Tile>, live: set<nat>, dead: bool, max: nat, goal: nat)
    requires rest != [] && Measured(done, rest, live, dead, max, goal)
    requires if rest[0].free then !MergeBefore(done) else rest[0].addr in live
    ensures Measured(done + [rest[0]], rest[1..], live, false, max, goal)
  {
  }

  lemma MeasureFreed(done: seq<Tile>, rest: seq<Tile>, live: set<nat>, dead: bool, max: nat, goal: nat,
                     done1: seq<Tile>, freed: nat, max1: nat)
    requires rest != [] && Measured(done, rest, live, dead, max, goal) && Dies(rest[0], live)
    requires exists start :: done1 == KeptBefore(done) + [Tile(start, freed, true)]
    requires freed == FreedSize(done, rest) && max1 == if freed > max then freed else max
    ensures Measured(done1, KeptAfter(rest), live, true, max1, goal)
  {
    var run := Trail(done) + rest[0].size;
    assert LargestRun(rest[1..], live, run, true, max) == goal;
    if MergeAfter(rest) {
      assert rest[1..][0] == rest[1] && rest[1..][1..] == rest[2..];
      assert LargestRun(rest[2..], live, freed, true, max) == goal;
    }
    RunCounts(KeptAfter(rest), live, freed, max, max1);
    assert Trail(done1) == freed;
  }

  /** The size of the block that freeing the first of `rest` makes. */
  function FreedSize(done: seq<Tile>, rest: seq<Tile>): nat
    requires rest != []
  {
    Trail(done) + rest[0].size + if MergeAfter(rest) then rest[1].size else 0
  }

  /** No object in the part that is done is marked. */
  ghost predicate Cleared(done: seq<Tile>, marks: seq<bool>) {
    forall t <- done :: !t.free ==> t.addr < |marks| && !marks[t.addr]
  }

  ghost predicate Untouched(rest: seq<Tile>, marks: seq<bool>, m0: seq<bool>) {
    forall t <- rest :: t.addr < |marks| && t.addr < |m0| && marks[t.addr] == m0[t.addr]
  }

  lemma MarksStart(tiles: seq<Tile>, m0: seq<bool>)
    requires MarksFit(tiles, m0)
    ensures Cleared([], m0) && Untouched(tiles, m0, m0)
  {
  }

  lemma MarkAt(rest: seq<Tile>, m: seq<bool>, m0: seq<bool>)
    requires rest != [] && Untouched(rest, m, m0)
    ensures rest[0].addr < |m| && rest[0].addr < |m0| && m[rest[0].addr] == m0[rest[0].addr]
  {
  }

  lemma HasFreeMore(done: seq<Tile>, t: Tile, size: nat)
    requires HasFree(done, size)
    ensures HasFree(done + [t], size)
  {
    var u :| u in done && u.free && u.size >= size;
    assert u in done + [t];
  }

  lemma MarksPassed(done: seq<Tile>, rest: seq<Tile>, m: seq<bool>, m1: seq<bool>, m0: seq<bool>)
    requires rest != [] && Cleared(done, m) && Untouched(rest, m, m0) && |m1| == |m|
    requires (forall t <- done :: t.addr < rest[0].addr) && (forall t <- rest[1..] :: t.addr > rest[0].addr)
    requires m1 == if rest[0].free then m else m[rest[0].addr := false]
    ensures Cleared(done + [rest[0]], m1) && Untouched(rest[1..], m1, m0)
  {
  }

  /** Freeing changes no mark, and leaves no marked object behind. */
  lemma MarksFreed(done: seq<Tile>, rest: seq<Tile>, done1: seq<Tile>, rest1: seq<Tile>, m: seq<bool>, m0: seq<bool>)
    requires Cleared(done, m) && Untouched(rest, m, m0) && Allocated(done1) == Allocated(done)
    requires |rest| >= 1 && (rest1 == rest[1..] || (|rest| > 1 && rest1 == rest[2..]))
    ensures Cleared(done1, m) && Untouched(rest1, m, m0)
  {
    hide Allocated;
    forall t <- done1 | !t.free
      ensures t in done
    {
      AllocatedMembers(done1, t);
      AllocatedMembers(done, t);
    }
  }

  lemma SweepEnds(rest: seq<Tile>, limit: nat)
    requires Tiling(rest, limit, limit) && limit % ALIGN == 0
    ensures rest == []
  {
    if rest != [] {
      assert rest[0] in rest;
      TilingBounds(rest, limit, limit);
    }
  }

  /** Moving one tile over to the part that is done. */
  lemma Passed(done: seq<Tile>, t: Tile, p: nat)
    requires Tiling(done, FIRST, p) && t.addr == p && t.size >= ALIGN && t.size % ALIGN == 0
    ensures Tiling(done + [t], FIRST, p + t.size)
    ensures Frees(done + [t]) == Frees(done) + (if t.free then [p] else [])
    ensures Allocated(done + [t]) == Allocated(done) + (if t.free then [] else [t])
  {
    Single(t);
    TilingAppend(done, [t], FIRST, p, p + t.size);
    FreesAppend(done, [t]);
  }

  /** How far the sweep has come: the survivors so far are what is allocated in the part that is done. */
  ghost predicate Progress(t0: seq<Tile>, m0: seq<bool>, done: seq<Tile>, rest: seq<Tile>, sum: nat)
    requires MarksFit(t0, m0)
  {
    exists k: nat :: k <= |t0| && rest == t0[k..] && Allocated(done) == Survivors(t0[..k], m0) && sum == Garbage(t0[..k], Marked(m0))
  }

  lemma ProgressStarts(t0: seq<Tile>, m0: seq<bool>)
    requires MarksFit(t0, m0)
    ensures Progress(t0, m0, [], t0, 0)
  {
    assert t0[0..] == t0 && t0[..0] == [];
  }

  lemma ProgressEnds(t0: seq<Tile>, m0: seq<bool>, done: seq<Tile>, sum: nat)
    requires MarksFit(t0, m0) && Progress(t0, m0, done, [], sum)
    ensures Allocated(done) == Survivors(t0, m0) && sum == Garbage(t0, Marked(m0))
  {
    var k: nat :| k <= |t0| && [] == t0[k..] && Allocated(done) == Survivors(t0[..k], m0) && sum == Garbage(t0[..k], Marked(m0));
    assert t0[..k] == t0;
  }

  /** One more of the original tiles. */
  lemma ProgressStep(t0: seq<Tile>, m0: seq<bool>, done: seq<Tile>, rest: seq<Tile>, sum: nat, done1: seq<Tile>)
    requires MarksFit(t0, m0) && rest != [] && Progress(t0, m0, done, rest, sum) && rest[0].addr < |m0|
    requires Allocated(done1) == Allocated(done) + if !rest[0].free && m0[rest[0].addr] then [rest[0]] else []
    ensures Progress(t0, m0, done1, rest[1..], sum + if !rest[0].free && !m0[rest[0].addr] then rest[0].size else 0)
  {
    hide Allocated;
    hide Survivors;
    hide Garbage;
    hide Marked;
    var k: nat :| k <= |t0| && rest == t0[k..] && Allocated(done) == Survivors(t0[..k], m0) && sum == Garbage(t0[..k], Marked(m0));
    var sum1 := sum + if !rest[0].free && !m0[rest[0].addr] then rest[0].size else 0;
    assert t0[k] == rest[0] && rest[1..] == t0[k + 1..];
    OneMore(t0, m0, k);
    assert Allocated(done1) == Survivors(t0[..k + 1], m0) && sum1 == Garbage(t0[..k + 1], Marked(m0));
  }

  lemma OneMore(t0: seq<Tile>, m0: seq<bool>, k: nat)
    requires MarksFit(t0, m0) && k < |t0|
    ensures t0[k].addr < |m0|
    ensures Survivors(t0[..k + 1], m0) == Survivors(t0[..k], m0) + if !t0[k].free && m0[t0[k].addr] then [t0[k]] else []
    ensures Garbage(t0[..k + 1], Marked(m0)) == Garbage(t0[..k], Marked(m0)) + if !t0[k].free && !m0[t0[k].addr] then t0[k].size else 0
  {
    hide Survivors;
    hide Garbage;
    hide Marked;
    assert t0[..k + 1] == t0[..k] + [t0[k]];
    SurvivorsAppend(t0[..k], t0[k], m0);
  }

  /** An unmarked object, and the free block after it if there is one. */
  lemma ProgressFreed(t0: seq<Tile>, m0: seq<bool>, done: seq<Tile>, rest: seq<Tile>, sum: nat, done1: seq<Tile>, rest1: seq<Tile>)
    requires MarksFit(t0, m0) && rest != [] && Progress(t0, m0, done, rest, sum)
    requires !rest[0].free && rest[0].addr < |m0| && !m0[rest[0].addr] && Allocated(done1) == Allocated(done)
    requires rest1 == rest[1..] || (|rest| > 1 && rest[1].free && rest1 == rest[2..])
    ensures Progress(t0, m0, done1, rest1, sum + rest[0].size)
  {
    hide Progress;
    assert Allocated(done) + [] == Allocated(done);
    ProgressStep(t0, m0, done, rest, sum, done1);
    if rest1 != rest[1..] {
      assert rest[1..][1..] == rest[2..];
      ProgressFits(t0, m0, done, rest, sum);
      ProgressStep(t0, m0, done1, rest[1..], sum + rest[0].size, done1);
    }
  }

  lemma ProgressFits(t0: seq<Tile>, m0: seq<bool>, done: seq<Tile>, rest: seq<Tile>, sum: nat)
    requires MarksFit(t0, m0) && Progress(t0, m0, done, rest, sum)
    ensures forall t <- rest :: t.addr < |m0|
  {
  }

  class Heap {
    const limit: nat
    var sizes: seq<nat>
    var nexts: seq<nat>
    var bytes: seq<nat>
    var marks: seq<bool>
    ghost var tiles: seq<Tile>

    ghost predicate Valid()
      reads this
    {
      |sizes| == |nexts| == |bytes| == |marks| == limit >= FIRST && Divided(tiles, limit, sizes, nexts, bytes)
    }

    /** A new chunk: one free block after the list head. */
    constructor (size: nat)
      requires size % ALIGN == 0 && size >= 2 * ALIGN
      ensures Valid()
      ensures limit == size && tiles == [Tile(FIRST, size - ALIGN, true)]
      ensures forall i :: 0 <= i < limit ==> !marks[i]
    {
      limit := size;
      sizes := seq(size, i => if i == FIRST then size - ALIGN else 0);
      nexts := seq(size, i => if i == HEAD then FIRST else NULL);
      bytes := seq(size, i => 0);
      marks := seq(size, i => false);
      new;
      tiles := [Tile(FIRST, size - ALIGN, true)];
      assert tiles[1..] == [];
      assert Frees(tiles) == [FIRST];
    }

    // ------------------------------------------------------------- sweeping

    /**
      Free the object at `p`, between the list elements `q` and `r`, merging it
      with either neighbour that is free.
    */
    method FreeBlock(p: nat, q: nat, r: nat, size: nat, ghost done: seq<Tile>, ghost rest: seq<Tile>)
        returns (freed: nat, next: nat, ghost done1: seq<Tile>, ghost rest1: seq<Tile>)
      requires Valid() && tiles == done + rest && At(done, rest, p, size, q, r)
      modifies this`tiles, this`sizes, this`nexts
      ensures Valid() && tiles == done1 + rest1 && Tiling(done1, FIRST, next) && Tiling(rest1, next, limit) && p < next <= limit
      ensures exists start :: done1 == KeptBefore(done) + [Tile(start, freed, true)]
      ensures rest1 == KeptAfter(rest) && freed == FreedSize(done, rest)
      ensures MergeBefore(done) ==> freed > done[|done| - 1].size
      ensures Allocated(done1) == Allocated(done)
      ensures rest1 == rest[1..] || (|rest| > 1 && rest[1].free && rest1 == rest[2..])
      ensures |Frees(done1)| >= |Frees(done)| && ([HEAD] + Frees(done1))[|Frees(done)|] == q
    {
      hide Divided;
      hide At;
      hide Frees;
      hide Tiling;
      hide Allocated;
      ghost var s0, n0 := sizes, nexts;
      Situate(done, rest, p, size, q, r, limit, s0, n0, bytes);
      if q + sizes[q] == p && q != HEAD {
        if r != NULL && sizes[r] > 0 && p + size == r {
          nexts := nexts[q := nexts[r]];
          freed := sizes[q] + size + sizes[r];
          next := p + size + sizes[r];
        } else {
          freed := sizes[q] + size;
          next := p + size;
        }
        sizes := sizes[q := freed];
      } else {
        if r != NULL && sizes[r] > 0 && p + size == r {
          sizes := sizes[p := size + sizes[r]];
          nexts := nexts[p := nexts[r]];
          nexts := nexts[q := p];
          freed := size + sizes[r];
        } else {
          sizes := sizes[p := size];
          nexts := nexts[p := r];
          nexts := nexts[q := p];
          freed := size;
        }
        next := p + freed;
      }
      ghost var t := Tile(StartBefore(done, p), freed, true);
      Freed(done, rest, p, size, q, r, limit, s0, n0, bytes, t, nexts);
      done1, rest1 := KeptBefore(done) + [t], KeptAfter(rest);
      tiles := done1 + rest1;
      assert sizes == s0[t.addr := t.size];
    }

    /** Advance along the free list to the elements before and after `p`. */
    method Neighbours(q0: nat, p: nat, ghost j0: nat, ghost done: seq<Tile>, ghost rest: seq<Tile>) returns (q: nat, r: nat)
      requires Valid() && tiles == done + rest && Tiling(done, FIRST, p) && Tiling(rest, p, limit)
      requires j0 <= |Frees(done)| && q0 == ([HEAD] + Frees(done))[j0]
      ensures q == ([HEAD] + Frees(done))[|Frees(done)|] && r == FirstOf(Frees(rest))
    {
      hide Tiling;
      hide Frees;
      hide Chain;
      hide NoAdjacentFree;
      hide Fields;
      ghost var l := [HEAD] + Frees(tiles);
      ghost var j := j0;
      q := q0;
      ListAround(done, rest, p, limit, j);
      ChainAt(nexts, l, j);
      r := nexts[q];
      while r != NULL && r < p
        invariant j <= |Frees(done)| < |l| && q == l[j] && r == (if j + 1 < |l| then l[j + 1] else NULL)
        decreases |Frees(done)| - j
      {
        ListAround(done, rest, p, limit, j);
        j := j + 1;
        q := r;
        ChainAt(nexts, l, j);
        r := nexts[r];
      }
      ListAround(done, rest, p, limit, j);
    }

    /** Skip a free block, keep a marked object and clear its mark, or free the object. */
    method SweepBlock(p0: nat, q0: nat, sum0: nat, max0: nat, ghost j0: nat, ghost done0: seq<Tile>, ghost rest0: seq<Tile>,
                      ghost t0: seq<Tile>, ghost m0: seq<bool>, ghost base: nat, ghost dead0: bool, ghost goal: nat)
        returns (p: nat, q: nat, sum: nat, max: nat, ghost j: nat, ghost done: seq<Tile>, ghost rest: seq<Tile>, ghost dead: bool)
      requires Valid() && tiles == done0 + rest0 && Tiling(done0, FIRST, p0) && Tiling(rest0, p0, limit) && p0 < limit
      requires j0 <= |Frees(done0)| && q0 == ([HEAD] + Frees(done0))[j0] && MarksFit(t0, m0)
      requires Progress(t0, m0, done0, rest0, sum0) && Cleared(done0, marks) && Untouched(rest0, marks, m0)
      requires max0 >= base && (max0 == base || HasFree(done0, max0))
      requires Measured(done0, rest0, Marked(m0), dead0, max0, goal)
      modifies this`tiles, this`sizes, this`nexts, this`marks
      ensures Valid() && tiles == done + rest && Tiling(done, FIRST, p) && Tiling(rest, p, limit) && p0 < p <= limit
      ensures j <= |Frees(done)| && q == ([HEAD] + Frees(done))[j]
      ensures Progress(t0, m0, done, rest, sum) && Cleared(done, marks) && Untouched(rest, marks, m0)
      ensures max >= base && (max == base || HasFree(done, max))
      ensures Measured(done, rest, Marked(m0), dead, max, goal)
    {
      hide Frees;
      hide Allocated;
      hide Tiling;
      hide Divided;
      hide Progress;
      hide Cleared;
      hide Untouched;
      hide MarksFit;
      hide Fields;
      hide HasFree;
      hide KeptBefore;
      hide KeptAfter;
      hide MergeBefore;
      hide Measured;
      hide FreedSize;
      var r;
      q, r := Neighbours(q0, p0, j0, done0, rest0);
      j := |Frees(done0)|;
      BlockFacts(done0, rest0, p0, limit, r, sizes, nexts, bytes);
      ghost var t, m := rest0[0], marks;
      MarkAt(rest0, m, m0);
      NotAfterFree(done0, rest0, tiles, limit, sizes, nexts, bytes);
      Passed(done0, t, p0);
      if max0 != base {
        HasFreeMore(done0, t, max0);
      }
      p, sum, max, done, rest, dead := p0, sum0, max0, done0 + [t], rest0[1..], false;
      if r == p {
        MeasurePassed(done0, rest0, Marked(m0), dead0, max0, goal);
        ProgressStep(t0, m0, done0, rest0, sum, done);
        MarksPassed(done0, rest0, m, m, m0);
        p := p + sizes[r];
      } else {
        var size := Align(bytes[p]);
        if !marks[p] {
          var freed;
          freed, p, done, rest := FreeBlock(p, q, r, size, done0, rest0);
          LargestFreed(done0, done, freed, base, max0);
          dead := true;
          MeasureFreed(done0, rest0, Marked(m0), dead0, max0, goal, done, freed, if freed > max0 then freed else max0);
          ProgressFreed(t0, m0, done0, rest0, sum, done, rest);
          MarksFreed(done0, rest0, done, rest, m, m0);
          sum := sum + size;
          if freed > max {
            max := freed;
          }
        } else {
          marks := marks[p := false];
          MeasurePassed(done0, rest0, Marked(m0), dead0, max0, goal);
          ProgressStep(t0, m0, done0, rest0, sum, done);
          MarksPassed(done0, rest0, m, marks, m0);
          p := p + size;
        }
      }
    }

    /**
      Sweep the chunk: clear the mark of every marked object, and free the rest.
      The largest block freed and the total freed are added to those so far:
      no run of free and unmarked neighbours that something died in is larger,
      and one is as large unless there was a larger one before.
    */
    method Sweep(max0: nat, sum0: nat) returns (maxFreed: nat, sumFreed: nat)
      requires Valid()
      modifies this`tiles, this`sizes, this`nexts, this`marks
      ensures Valid() && MarksFit(old(tiles), old(marks)) && Allocated(tiles) == Survivors(old(tiles), old(marks))
      ensures Cleared(tiles, marks)
      ensures sumFreed == sum0 + Garbage(old(tiles), Marked(old(marks)))
      ensures maxFreed == LargestRun(old(tiles), Marked(old(marks)), 0, false, max0)
      ensures forall i: nat, j: nat :: IsRun(old(tiles), Marked(old(marks)), i, j) ==> SizeOf(old(tiles)[i..j]) <= maxFreed
      ensures maxFreed == max0
              || exists i: nat, j: nat :: IsRun(old(tiles), Marked(old(marks)), i, j) && SizeOf(old(tiles)[i..j]) == maxFreed
      ensures maxFreed >= max0 && (maxFreed == max0 || HasFree(tiles, maxFreed))
    {
      hide Frees;
      hide Allocated;
      hide Survivors;
      hide Garbage;
      hide Tiling;
      hide Divided;
      hide Progress;
      hide Cleared;
      hide Untouched;
      hide MarksFit;
      hide Fields;
      hide HasFree;
      hide KeptBefore;
      hide MergeBefore;
      hide Measured;
      hide LargestRun;
      hide IsRun;
      hide Marked;
      ghost var t0, m0 := tiles, marks;
      ghost var done: seq<Tile>, rest: seq<Tile>, j: nat, dead := [], tiles, 0, false;
      ghost var goal := LargestRun(t0, Marked(m0), 0, false, max0);
      MeasureStarts(t0, Marked(m0), max0);
      AllFit(tiles, limit, sizes, nexts, bytes, m0);
      ProgressStarts(t0, m0);
      MarksStart(t0, m0);
      NothingDone();
      var p, q, sum := FIRST, HEAD, 0;
      maxFreed := max0;
      while p < limit
        invariant Valid() && tiles == done + rest && Tiling(done, FIRST, p) && Tiling(rest, p, limit) && p <= limit
        invariant j <= |Frees(done)| && q == ([HEAD] + Frees(done))[j]
        invariant Progress(t0, m0, done, rest, sum) && Cleared(done, marks) && Untouched(rest, marks, m0)
        invariant maxFreed >= max0 && (maxFreed == max0 || HasFree(done, maxFreed))
        invariant Measured(done, rest, Marked(m0), dead, maxFreed, goal)
        decreases limit - p
      {
        p, q, sum, maxFreed, j, done, rest, dead := SweepBlock(p, q, sum, maxFreed, j, done, rest, t0, m0, max0, dead, goal);
      }
      SweepEnds(rest, limit);
      MeasureEnds(done, Marked(m0), dead, maxFreed, goal);
      LargestIsLargest(t0, Marked(m0), max0);
      assert done + [] == done;
      ProgressEnds(t0, m0, done, sum);
      sumFreed := sum0 + sum;
    }

    /** First fit within the chunk: a free block at least as large, split when something is left over. */
    method TryAlloc(size: nat) returns (r: Option<nat>)
      requires Valid() && size % ALIGN == 0 && size >= ALIGN
      modifies this
      ensures Valid()
      ensures r.None? ==> tiles == old(tiles) && marks == old(marks) && forall t <- tiles :: t.free ==> t.size < size
      ensures r.Some? ==> TakenFrom(this, r.value, size)
    {
      hide Frees;
      hide Tiling;
      hide Chain;
      hide Divided;
      hide Fields;
      hide Carve;
      var ls1, ls2 := HEAD, nexts[HEAD];
      ghost var i := 0;
      ListStart(tiles, limit, sizes, nexts, bytes);
      while ls2 != NULL
        invariant Valid() && tiles == old(tiles) && marks == old(marks)
        invariant i <= |Frees(tiles)| && ls1 == ([HEAD] + Frees(tiles))[i]
        invariant ls2 == if i < |Frees(tiles)| then Frees(tiles)[i] else NULL
        invariant forall t <- tiles :: t.free && (ls2 == NULL || t.addr < ls2) ==> t.size < size
        decreases |Frees(tiles)| - i
      {
        ghost var k := FoundTile(tiles, limit, i, sizes, nexts, bytes);
        if sizes[ls2] >= size {
          ghost var s0, n0, b0 := sizes, nexts, bytes;
          if sizes[ls2] >= size + ALIGN {
            var ls3 := ls2 + size;
            sizes := sizes[ls3 := sizes[ls2] - size];
            nexts := nexts[ls3 := nexts[ls2]];
            nexts := nexts[ls1 := ls3];
          } else {
            nexts := nexts[ls1 := nexts[ls2]];
          }
          bytes := bytes[ls2 := size];
          marks := marks[ls2 := false];
          Carved(tiles, k, size, limit, ls1, s0, n0, b0, sizes, nexts, bytes);
          tiles := Carve(tiles, k, size);
          return Some(ls2);
        }
        SmallerSoFar(tiles, limit, k, size, i);
        ls1 := ls2;
        ls2 := nexts[ls2];
        i := i + 1;
      }
      return None;
    }
  }

  /** The front of the first free block that is large enough was taken. */
  twostate predicate TakenFrom(h: Heap, addr: nat, size: nat)
    reads h
  {
    && addr < |old(h.marks)| && h.marks == old(h.marks)[addr := false]
    && exists k: nat :: FirstFit(old(h.tiles), k, size) && addr == old(h.tiles)[k].addr && h.tiles == Carve(old(h.tiles), k, size)
  }

  /** Tile `k` is the first free one of at least the given size. */
  ghost predicate FirstFit(tiles: seq<Tile>, k: nat, size: nat) {
    && k < |tiles| && tiles[k].free && tiles[k].size >= size
    && forall j :: 0 <= j < k && tiles[j].free ==> tiles[j].size < size
  }

  /** Allocate the front of tile `k`; what is left stays free. */
  function Carve(tiles: seq<Tile>, k: nat, size: nat): seq<Tile>
    requires k < |tiles| && tiles[k].size >= size
  {
    var t := tiles[k];
    tiles[..k] + ([Tile(t.addr, size, false)] + Left(t, size)) + tiles[k + 1..]
  }

  function Left(t: Tile, size: nat): seq<Tile>
    requires t.size >= size
  {
    if t.size > size then [Tile(t.addr + size, t.size - size, true)] else []
  }

  lemma ListStart(tiles: seq<Tile>, limit: nat, sizes: seq<nat>, nexts: seq<nat>, bytes: seq<nat>)
    requires Divided(tiles, limit, sizes, nexts, bytes)
    ensures nexts[HEAD] == FirstOf(Frees(tiles)) && (Frees(tiles) != [] ==> Frees(tiles)[0] != NULL)
    ensures forall t <- tiles :: t.free ==> Frees(tiles) != [] && t.addr >= Frees(tiles)[0]
  {
    hide Frees;
    var l := [HEAD] + Frees(tiles);
    assert l[0] == HEAD && (|l| > 1 ==> l[1] == Frees(tiles)[0]);
    FreesSorted(tiles, FIRST, limit);
    forall t <- tiles | t.free
      ensures Frees(tiles) != [] && t.addr >= Frees(tiles)[0]
    {
      FreesMembers(tiles, t.addr);
      var j :| 0 <= j < |Frees(tiles)| && Frees(tiles)[j] == t.addr;
    }
  }

  /** The tile of a free-list element. */
  lemma FoundTile(tiles: seq<Tile>, limit: nat, i: nat, sizes: seq<nat>, nexts: seq<nat>, bytes: seq<nat>) returns (k: nat)
    requires Divided(tiles, limit, sizes, nexts, bytes) && i < |Frees(tiles)|
    ensures k < |tiles| && tiles[k].free && tiles[k].addr == Frees(tiles)[i] < limit && sizes[tiles[k].addr] == tiles[k].size
    ensures nexts[tiles[k].addr] == if i + 1 < |Frees(tiles)| then Frees(tiles)[i + 1] else NULL
    ensures tiles[k].addr + tiles[k].size <= limit && tiles[k].size % ALIGN == 0
    ensures forall j :: 0 <= j < |tiles| && tiles[j].free && j != k ==> (j < k <==> tiles[j].addr < tiles[k].addr)
    ensures |Frees(tiles[..k])| == i && ([HEAD] + Frees(tiles[..k]))[i] == ([HEAD] + Frees(tiles))[i] < limit
    ensures Tiling(tiles, FIRST, limit)
  {
    hide Tiling;
    hide Frees;
    var a := Frees(tiles)[i];
    var l := [HEAD] + Frees(tiles);
    assert l[i + 1] == a && (i + 2 < |l| ==> l[i + 2] == Frees(tiles)[i + 1]);
    FreesMembers(tiles, a);
    var t :| t in tiles && t.free && t.addr == a;
    k :| 0 <= k < |tiles| && tiles[k] == t;
    TilingBounds(tiles, FIRST, limit);
    ListIncreasing(tiles, limit);
    FreesIndex(tiles, k, limit);
    forall j | 0 <= j < |tiles| && j != k
      ensures j < k <==> tiles[j].addr < tiles[k].addr
    {
      TilesOrdered(tiles, if j < k then j else k, if j < k then k else j, FIRST, limit);
    }
  }

  lemma {:induction false} TilesOrdered(tiles: seq<Tile>, i: nat, j: nat, lo: nat, hi: nat)
    requires Tiling(tiles, lo, hi) && lo % ALIGN == 0 && i < j < |tiles|
    ensures tiles[i].addr + tiles[i].size <= tiles[j].addr && tiles[i].addr < tiles[j].addr
    decreases |tiles|
  {
    if i > 0 {
      TilesOrdered(tiles[1..], i - 1, j - 1, lo + tiles[0].size, hi);
    } else {
      TilingBounds(tiles[1..], lo + tiles[0].size, hi);
      assert tiles[j] == tiles[1..][j - 1];
      assert tiles[j] in tiles[1..];
    }
  }

  /** A free tile's place in the free list is the number of free tiles before it. */
  lemma FreesIndex(tiles: seq<Tile>, k: nat, limit: nat)
    requires Tiling(tiles, FIRST, limit) && k < |tiles| && tiles[k].free
    ensures var i := |Frees(tiles[..k])|;
            i < |Frees(tiles)| && Frees(tiles)[i] == tiles[k].addr
            && Frees(tiles) == Frees(tiles[..k]) + [tiles[k].addr] + Frees(tiles[k + 1..])
            && forall j :: 0 <= j < |Frees(tiles)| && Frees(tiles)[j] == tiles[k].addr ==> j == i
  {
    hide Tiling;
    assert tiles == tiles[..k] + ([tiles[k]] + tiles[k + 1..]);
    FreesAppend(tiles[..k], [tiles[k]] + tiles[k + 1..]);
    FreesAppend([tiles[k]], tiles[k + 1..]);
    assert [tiles[k]][1..] == [] && Frees([tiles[k]]) == [tiles[k].addr] + [];
    FreesSorted(tiles, FIRST, limit);
  }

  lemma SmallerSoFar(tiles: seq<Tile>, limit: nat, k: nat, size: nat, i: nat)
    requires Tiling(tiles, FIRST, limit) && k < |tiles| && tiles[k].free && tiles[k].size < size
    requires i < |Frees(tiles)| && Frees(tiles)[i] == tiles[k].addr
    requires forall t <- tiles :: t.free && t.addr < tiles[k].addr ==> t.size < size
    ensures i + 1 < |Frees(tiles)| ==> Frees(tiles)[i + 1] != NULL
    ensures forall t <- tiles :: t.free && (i + 1 == |Frees(tiles)| || t.addr < Frees(tiles)[i + 1]) ==> t.size < size
  {
    hide Tiling;
    FreesSorted(tiles, FIRST, limit);
    forall t <- tiles | t.free && (i + 1 == |Frees(tiles)| || t.addr < Frees(tiles)[i + 1])
      ensures t.size < size
    {
      FreesMembers(tiles, t.addr);
      var j :| 0 <= j < |Frees(tiles)| && Frees(tiles)[j] == t.addr;
      if j == i {
        var m :| 0 <= m < |tiles| && tiles[m] == t;
        if m != k {
          TilesOrdered(tiles, if m < k then m else k, if m < k then k else m, FIRST, limit);
        }
      }
    }
  }

  /** The division after an allocation. */
  lemma Carved(tiles: seq<Tile>, k: nat, size: nat, limit: nat, ls1: nat, s0: seq<nat>, n0: seq<nat>, b0: seq<nat>,
               s1: seq<nat>, n1: seq<nat>, b1: seq<nat>)
    requires Divided(tiles, limit, s0, n0, b0) && k < |tiles| && tiles[k].free && tiles[k].size >= size >= ALIGN
    requires size % ALIGN == 0 && tiles[k].size % ALIGN == 0 && tiles[k].addr + tiles[k].size <= limit
    requires ls1 == ([HEAD] + Frees(tiles[..k]))[|Frees(tiles[..k])|] < limit
    requires var t := tiles[k]; b1 == b0[t.addr := size]
    requires var t := tiles[k]; s1 == if t.size > size then s0[t.addr + size := t.size - size] else s0
    requires var t := tiles[k];
             n1 == if t.size > size then n0[t.addr + size := n0[t.addr]][ls1 := t.addr + size] else n0[ls1 := n0[t.addr]]
    ensures Divided(Carve(tiles, k, size), limit, s1, n1, b1)
  {
    hide Frees;
    hide Tiling;
    hide Chain;
    hide NoAdjacentFree;
    hide Increasing;
    hide Fields;
    var before, t, after := tiles[..k], tiles[k], tiles[k + 1..];
    Parts(tiles, k, limit, s0, n0, b0);
    CarvedTiles(before, t, after, size, limit);
    CarvedFields(before, t, after, size, limit, s0, b0, s1, b1);
    CarvedChain(before, t, after, size, limit, ls1, n0, n1);
  }

  /** The tiles before and after a free one. */
  lemma Parts(tiles: seq<Tile>, k: nat, limit: nat, sizes: seq<nat>, nexts: seq<nat>, bytes: seq<nat>)
    requires Divided(tiles, limit, sizes, nexts, bytes) && k < |tiles| && tiles[k].free
    ensures var before, t, after := tiles[..k], tiles[k], tiles[k + 1..];
            && tiles == before + ([t] + after) && t.addr >= FIRST && t.addr + t.size <= limit
            && Tiling(before, FIRST, t.addr) && Tiling(after, t.addr + t.size, limit)
            && (forall u <- before :: u.addr < t.addr) && (forall u <- after :: u.addr >= t.addr + t.size)
            && Fields(before, sizes, bytes) && Fields(after, sizes, bytes)
            && NoAdjacentFree(before) && NoAdjacentFree(after) && (after != [] ==> !after[0].free)
            && Frees(tiles) == Frees(before) + [t.addr] + Frees(after)
  {
    hide Frees;
    hide Tiling;
    hide Chain;
    hide NoAdjacentFree;
    hide Fields;
    var before, t, after := tiles[..k], tiles[k], tiles[k + 1..];
    assert tiles == before + ([t] + after);
    TilingAt(tiles, k, FIRST, limit);
    TilingBounds(tiles, FIRST, limit);
    assert t in tiles;
    TilingBounds(before, FIRST, t.addr);
    TilingBounds(after, t.addr + t.size, limit);
    FieldsParts(before, [t] + after, sizes, bytes);
    FieldsParts([t], after, sizes, bytes);
    NoAdjacentJoin(before, [t] + after);
    NoAdjacentJoin([t], after);
    FreesIndex(tiles, k, limit);
  }

  lemma {:induction false} TilingAt(tiles: seq<Tile>, k: nat, lo: nat, hi: nat)
    requires Tiling(tiles, lo, hi) && k < |tiles|
    ensures Tiling(tiles[..k], lo, tiles[k].addr) && Tiling(tiles[k + 1..], tiles[k].addr + tiles[k].size, hi)
    decreases k
  {
    if k > 0 {
      TilingAt(tiles[1..], k - 1, lo + tiles[0].size, hi);
      assert tiles[1..][..k - 1] == tiles[..k][1..] && tiles[1..][k..] == tiles[k + 1..];
    }
  }

  lemma CarvedTiles(before: seq<Tile>, t: Tile, after: seq<Tile>, size: nat, limit: nat)
    requires Tiling(before, FIRST, t.addr) && Tiling(after, t.addr + t.size, limit)
    requires t.size >= size >= ALIGN && t.size % ALIGN == 0 && size % ALIGN == 0
    requires NoAdjacentFree(before) && NoAdjacentFree(after) && (after != [] ==> !after[0].free)
    ensures var tiles := before + ([Tile(t.addr, size, false)] + Left(t, size)) + after;
            && Tiling(tiles, FIRST, limit) && NoAdjacentFree(tiles)
            && Frees(tiles) == Frees(before) + (if t.size > size then [t.addr + size] else []) + Frees(after)
  {
    hide Frees;
    hide Tiling;
    hide NoAdjacentFree;
    var taken, left := [Tile(t.addr, size, false)], Left(t, size);
    var middle := taken + left;
    Single(taken[0]);
    NoAdjacentSingle(taken[0]);
    if left != [] {
      Single(left[0]);
      NoAdjacentSingle(left[0]);
      TilingAppend(taken, left, t.addr, t.addr + size, t.addr + t.size);
      NoAdjacentJoin(taken, left);
      FreesAppend(taken, left);
    } else {
      assert middle == taken;
    }
    assert Frees(middle) == if t.size > size then [t.addr + size] else [];
    TilingAppend(before, middle, FIRST, t.addr, t.addr + t.size);
    TilingAppend(before + middle, after, FIRST, t.addr + t.size, limit);
    NoAdjacentJoin(before, middle);
    NoAdjacentJoin(before + middle, after);
    FreesAppend(before, middle);
    FreesAppend(before + middle, after);
  }

  lemma CarvedFields(before: seq<Tile>, t: Tile, after: seq<Tile>, size: nat, limit: nat,
                     s0: seq<nat>, b0: seq<nat>, s1: seq<nat>, b1: seq<nat>)
    requires Fields(before, s0, b0) && Fields(after, s0, b0) && |s0| == |b0| == limit && t.addr + t.size <= limit
    requires (forall u <- before :: u.addr < t.addr) && (forall u <- after :: u.addr >= t.addr + t.size)
    requires t.size >= size >= ALIGN && size % ALIGN == 0
    requires b1 == b0[t.addr := size] && s1 == if t.size > size then s0[t.addr + size := t.size - size] else s0
    ensures Fields(before + ([Tile(t.addr, size, false)] + Left(t, size)) + after, s1, b1)
  {
    var tiles := before + ([Tile(t.addr, size, false)] + Left(t, size)) + after;
    assert Align(size) == size;
    forall u <- tiles
      ensures u in before || u == Tile(t.addr, size, false) || u in Left(t, size) || u in after
    {
    }
  }

  lemma CarvedChain(before: seq<Tile>, t: Tile, after: seq<Tile>, size: nat, limit: nat, ls1: nat, n0: seq<nat>, n1: seq<nat>)
    requires |n0| == limit && ls1 == ([HEAD] + Frees(before))[|Frees(before)|] < limit && size > 0
    requires t.size >= size && t.addr + t.size <= limit
    requires var tiles := before + ([t] + after);
             Tiling(tiles, FIRST, limit) && Frees(tiles) == Frees(before) + [t.addr] + Frees(after) && Chain(n0, [HEAD] + Frees(tiles))
    requires var tiles := before + ([Tile(t.addr, size, false)] + Left(t, size)) + after;
             Tiling(tiles, FIRST, limit)
             && Frees(tiles) == Frees(before) + (if t.size > size then [t.addr + size] else []) + Frees(after)
    requires n1 == if t.size > size then n0[t.addr + size := n0[t.addr]][ls1 := t.addr + size] else n0[ls1 := n0[t.addr]]
    ensures Chain(n1, [HEAD] + Frees(before + ([Tile(t.addr, size, false)] + Left(t, size)) + after))
  {
    hide Frees;
    hide Tiling;
    hide Chain;
    hide Increasing;
    var a, b := [HEAD] + Frees(before), Frees(after);
    ListIncreasing(before + ([t] + after), limit);
    ListIncreasing(before + ([Tile(t.addr, size, false)] + Left(t, size)) + after, limit);
    assert [HEAD] + (Frees(before) + [t.addr] + b) == a + [t.addr] + b;
    if t.size > size {
      assert [HEAD] + (Frees(before) + [t.addr + size] + b) == a + [t.addr + size] + b;
      ChainReplace(n0, a, t.addr, t.addr + size, b, n1);
    } else {
      assert [HEAD] + (Frees(before) + [] + b) == a + b;
      ChainRemove(n0, a, t.addr, b, n1);
    }
  }
}
