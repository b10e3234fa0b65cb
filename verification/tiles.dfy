/**
  How a heap chunk is divided: consecutive blocks, each free or allocated, and
  the address-ordered list of the free ones.
*/
module Tiles {
  const ALIGN: nat := 32

  /** The free-list head occupies the first unit; blocks start after it. */
  const HEAD: nat := 0
  const FIRST: nat := ALIGN
  const NULL: nat := 0

  datatype Tile = Tile(addr: nat, size: nat, free: bool)

  function Align(n: nat): (r: nat)
    ensures n <= r < n + 32 && r % 32 == 0
  {
    (n + ALIGN - 1) / ALIGN * ALIGN
  }

  /** The tiles cover lo..hi without gap or overlap, in aligned non-empty sizes. */
  predicate Tiling(tiles: seq<Tile>, lo: nat, hi: nat)
    decreases |tiles|
  {
    if tiles == [] then lo == hi
    else tiles[0].addr == lo && tiles[0].size >= ALIGN && tiles[0].size % ALIGN == 0
         && Tiling(tiles[1..], lo + tiles[0].size, hi)
  }

  predicate NoAdjacentFree(tiles: seq<Tile>) {
    forall i :: 0 <= i < |tiles| - 1 ==> !(tiles[i].free && tiles[i + 1].free)
  }

  /** Addresses of the free tiles, in order. */
  function Frees(tiles: seq<Tile>): seq<nat> {
    if tiles == [] then [] else (if tiles[0].free then [tiles[0].addr] else []) + Frees(tiles[1..])
  }

  /** The allocated tiles, in order. */
  function Allocated(tiles: seq<Tile>): seq<Tile> {
    if tiles == [] then [] else (if tiles[0].free then [] else [tiles[0]]) + Allocated(tiles[1..])
  }

  /** Total size of the allocated tiles at the given addresses. */
  function TotalAt(tiles: seq<Tile>, at: set<nat>): nat {
    if tiles == [] then 0
    else (if !tiles[0].free && tiles[0].addr in at then tiles[0].size else 0) + TotalAt(tiles[1..], at)
  }

  lemma {:induction false} TilingAppend(a: seq<Tile>, b: seq<Tile>, lo: nat, mid: nat, hi: nat)
    requires Tiling(a, lo, mid)
    ensures Tiling(a + b, lo, hi) <==> Tiling(b, mid, hi)
    decreases |a|
  {
    if a == [] {
      assert a + b == b;
    } else {
      assert (a + b)[1..] == a[1..] + b;
      TilingAppend(a[1..], b, lo + a[0].size, mid, hi);
    }
  }

  lemma {:induction false} TilingBounds(tiles: seq<Tile>, lo: nat, hi: nat)
    requires Tiling(tiles, lo, hi) && lo % ALIGN == 0
    ensures lo <= hi && hi % ALIGN == 0
    ensures forall t <- tiles :: lo <= t.addr && t.addr + t.size <= hi && t.size >= ALIGN && t.addr % ALIGN == 0 && t.size % ALIGN == 0
    decreases |tiles|
  {
    if tiles != [] {
      TilingBounds(tiles[1..], lo + tiles[0].size, hi);
      assert tiles == [tiles[0]] + tiles[1..];
    }
  }

  lemma Regroup<T>(a: seq<T>, b: seq<T>, c: seq<T>)
    ensures a + b + c == a + (b + c)
  {
  }

  lemma {:induction false} FreesAppend(a: seq<Tile>, b: seq<Tile>)
    ensures Frees(a + b) == Frees(a) + Frees(b)
    ensures Allocated(a + b) == Allocated(a) + Allocated(b)
  {
    if a == [] {
      assert a + b == b;
    } else {
      assert (a + b)[1..] == a[1..] + b;
      FreesAppend(a[1..], b);
      Regroup(if a[0].free then [a[0].addr] else [], Frees(a[1..]), Frees(b));
      Regroup(if a[0].free then [] else [a[0]], Allocated(a[1..]), Allocated(b));
    }
  }

  lemma {:induction false} TotalAppend(a: seq<Tile>, b: seq<Tile>, at: set<nat>)
    ensures TotalAt(a + b, at) == TotalAt(a, at) + TotalAt(b, at)
  {
    if a == [] {
      assert a + b == b;
    } else {
      assert (a + b)[1..] == a[1..] + b;
      TotalAppend(a[1..], b, at);
    }
  }

  /** The free addresses rise through the chunk. */
  lemma {:induction false} FreesSorted(tiles: seq<Tile>, lo: nat, hi: nat)
    requires Tiling(tiles, lo, hi) && lo % ALIGN == 0
    ensures forall i :: 0 <= i < |Frees(tiles)| ==> lo <= Frees(tiles)[i] < hi
    ensures forall i, j :: 0 <= i < j < |Frees(tiles)| ==> Frees(tiles)[i] < Frees(tiles)[j]
    decreases |tiles|
  {
    if tiles != [] {
      FreesSorted(tiles[1..], lo + tiles[0].size, hi);
      TilingBounds(tiles, lo, hi);
      assert tiles[0] in tiles;
    }
  }

  lemma {:induction false} FreesMembers(tiles: seq<Tile>, a: nat)
    ensures a in Frees(tiles) <==> exists t <- tiles :: t.free && t.addr == a
  {
    if tiles != [] {
      FreesMembers(tiles[1..], a);
      assert tiles == [tiles[0]] + tiles[1..];
    }
  }

  lemma {:induction false} AllocatedMembers(tiles: seq<Tile>, t: Tile)
    ensures t in Allocated(tiles) <==> t in tiles && !t.free
  {
    if tiles != [] {
      AllocatedMembers(tiles[1..], t);
      assert tiles == [tiles[0]] + tiles[1..];
    }
  }

  // -------------------------------------------------------------- linked list

  /** Following `next` from the first element visits exactly `l`, then null. */
  predicate Chain(next: seq<nat>, l: seq<nat>) {
    forall i :: 0 <= i < |l| ==> l[i] < |next| && next[l[i]] == (if i + 1 < |l| then l[i + 1] else NULL)
  }

  predicate Increasing(l: seq<nat>) {
    forall i, j :: 0 <= i < j < |l| ==> l[i] < l[j]
  }

  function FirstOf(l: seq<nat>): nat { if l == [] then NULL else l[0] }

  lemma JoinAt(a: seq<nat>, b: seq<nat>, i: nat)
    requires i < |a| + |b|
    ensures (a + b)[i] == if i < |a| then a[i] else b[i - |a|]
  {
  }

  lemma JoinAround(a: seq<nat>, p: nat, b: seq<nat>, i: nat)
    requires i < |a| + 1 + |b|
    ensures |a + [p] + b| == |a| + 1 + |b|
    ensures (a + [p] + b)[i] == if i < |a| then a[i] else if i == |a| then p else b[i - |a| - 1]
  {
  }

  predicate Linked(next: seq<nat>, l: seq<nat>, i: nat)
    requires i < |l|
  {
    l[i] < |next| && next[l[i]] == if i + 1 < |l| then l[i + 1] else NULL
  }

  /** Link `p` between two halves of the list. */
  lemma ChainInsert(next: seq<nat>, a: seq<nat>, p: nat, b: seq<nat>, n1: seq<nat>)
    requires a != [] && Chain(next, a + b) && Increasing(a + [p] + b) && p < |next| && a[|a| - 1] < |next|
    requires n1 == next[p := FirstOf(b)][a[|a| - 1] := p]
    ensures Chain(n1, a + [p] + b)
  {
    var m := a + [p] + b;
    forall i: nat | i < |m|
      ensures Linked(n1, m, i)
    {
      InsertedAt(next, a, p, b, n1, i);
    }
    AllLinked(n1, m);
  }

  lemma AllLinked(next: seq<nat>, l: seq<nat>)
    requires forall i: nat :: i < |l| ==> Linked(next, l, i)
    ensures Chain(next, l)
  {
    forall i | 0 <= i < |l|
      ensures l[i] < |next| && next[l[i]] == (if i + 1 < |l| then l[i + 1] else NULL)
    {
      assert Linked(next, l, i);
    }
  }

  lemma ChainLinks(next: seq<nat>, l: seq<nat>, i: nat)
    requires Chain(next, l) && i < |l|
    ensures Linked(next, l, i)
  {
  }

  lemma Before(l: seq<nat>, i: nat, j: nat)
    requires Increasing(l) && i < j < |l|
    ensures l[i] < l[j]
  {
  }

  lemma InsertedAt(next: seq<nat>, a: seq<nat>, p: nat, b: seq<nat>, n1: seq<nat>, i: nat)
    requires a != [] && Chain(next, a + b) && Increasing(a + [p] + b) && p < |next| && a[|a| - 1] < |next|
    requires n1 == next[p := FirstOf(b)][a[|a| - 1] := p] && i < |a + [p] + b|
    ensures Linked(n1, a + [p] + b, i)
  {
    hide Chain;
    hide Increasing;
    var l, m, k := a + b, a + [p] + b, |a|;
    JoinAround(a, p, b, i);
    JoinAround(a, p, b, k);
    JoinAround(a, p, b, k - 1);
    Before(m, k - 1, k);
    if i + 1 < |m| {
      JoinAround(a, p, b, i + 1);
    }
    if i < k - 1 {
      Before(m, i, k - 1);
      Before(m, i, k);
      JoinAt(a, b, i);
      JoinAt(a, b, i + 1);
      ChainLinks(next, l, i);
    } else if i > k {
      Before(m, k - 1, i);
      Before(m, k, i);
      JoinAt(a, b, i - 1);
      if i < |l| {
        JoinAt(a, b, i);
      }
      ChainLinks(next, l, i - 1);
    }
  }

  /** Unlink the element after the first half. */
  lemma ChainRemove(next: seq<nat>, a: seq<nat>, p: nat, b: seq<nat>, n1: seq<nat>)
    requires a != [] && Chain(next, a + [p] + b) && Increasing(a + [p] + b) && p < |next| && a[|a| - 1] < |next|
    requires n1 == next[a[|a| - 1] := next[p]]
    ensures Chain(n1, a + b)
  {
    var m := a + b;
    forall i: nat | i < |m|
      ensures Linked(n1, m, i)
    {
      RemovedAt(next, a, p, b, n1, i);
    }
    AllLinked(n1, m);
  }

  lemma RemovedAt(next: seq<nat>, a: seq<nat>, p: nat, b: seq<nat>, n1: seq<nat>, i: nat)
    requires a != [] && Chain(next, a + [p] + b) && Increasing(a + [p] + b) && p < |next| && a[|a| - 1] < |next|
    requires n1 == next[a[|a| - 1] := next[p]] && i < |a + b|
    ensures Linked(n1, a + b, i)
  {
    hide Chain;
    hide Increasing;
    var l, m, k := a + [p] + b, a + b, |a|;
    JoinAt(a, b, i);
    JoinAround(a, p, b, k - 1);
    JoinAround(a, p, b, k);
    if i + 1 < |m| {
      JoinAt(a, b, i + 1);
      JoinAround(a, p, b, i + 2);
    }
    JoinAround(a, p, b, i);
    JoinAround(a, p, b, i + 1);
    if i < k - 1 {
      Before(l, i, k - 1);
      ChainLinks(next, l, i);
    } else if i == k - 1 {
      ChainLinks(next, l, k);
    } else {
      Before(l, k - 1, i + 1);
      ChainLinks(next, l, i + 1);
    }
  }

  /** Put `p` in the place of the element after the first half. */
  lemma ChainReplace(next: seq<nat>, a: seq<nat>, r: nat, p: nat, b: seq<nat>, n1: seq<nat>)
    requires a != [] && Chain(next, a + [r] + b) && Increasing(a + [r] + b) && Increasing(a + [p] + b)
    requires p < |next| && r < |next| && a[|a| - 1] < |next|
    requires n1 == next[p := next[r]][a[|a| - 1] := p]
    ensures Chain(n1, a + [p] + b)
  {
    var m := a + [p] + b;
    forall i: nat | i < |m|
      ensures Linked(n1, m, i)
    {
      ReplacedAt(next, a, r, p, b, n1, i);
    }
    AllLinked(n1, m);
  }

  lemma ReplacedAt(next: seq<nat>, a: seq<nat>, r: nat, p: nat, b: seq<nat>, n1: seq<nat>, i: nat)
    requires a != [] && Chain(next, a + [r] + b) && Increasing(a + [r] + b) && Increasing(a + [p] + b)
    requires p < |next| && r < |next| && a[|a| - 1] < |next|
    requires n1 == next[p := next[r]][a[|a| - 1] := p] && i < |a + [p] + b|
    ensures Linked(n1, a + [p] + b, i)
  {
    hide Chain;
    hide Increasing;
    var l, m, k := a + [r] + b, a + [p] + b, |a|;
    JoinAround(a, p, b, i);
    JoinAround(a, r, b, i);
    JoinAround(a, p, b, k);
    JoinAround(a, r, b, k);
    JoinAround(a, p, b, k - 1);
    Before(m, k - 1, k);
    if i + 1 < |m| {
      JoinAround(a, p, b, i + 1);
      JoinAround(a, r, b, i + 1);
    }
    if i < k - 1 {
      Before(m, i, k - 1);
      Before(m, i, k);
      ChainLinks(next, l, i);
    } else if i == k {
      ChainLinks(next, l, k);
    } else if i > k {
      Before(m, k - 1, i);
      Before(m, k, i);
      ChainLinks(next, l, i);
    }
  }
}
