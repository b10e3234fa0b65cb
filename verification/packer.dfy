/**
  Packing the heap, and loading a packed heap at another address.
*/
module Packer {
  import opened Options
  import opened Tiles
  import opened Heaps
  import HeapWalk
  import opened HeapPacking
  import opened Relocation
  import opened HeapImages

  // -------------------------------------------------------- one object adjusted

  ghost predicate PartLands(p: Part, adj: Adjust) {
    p.Code? ==> WellFormed(p.cells, 0) && CodeLands(p.cells, adj)
  }

  ghost predicate BodyLands(b: Body, adj: Adjust) { AllLand(b.slots, adj) && PartLands(b.part, adj) }

  ghost predicate PartMoved(p: Part, p1: Part, adj: Adjust, home: int) {
    match p
    case Code(cells) => p1.Code? && WellFormed(cells, 0) && CodeMoved(cells, p1.cells, adj)
    case Context(_) => p1 == Context(home)
    case Nothing => p1 == Nothing
  }

  ghost predicate BodyMoved(b: Body, b1: Body, adj: Adjust, home: int) {
    && AllLand(b.slots, adj) && b1 == b.(slots := MoveWords(b.slots, adj), part := b1.part) && PartMoved(b.part, b1.part, adj, home)
  }

  /** Adjust the slots of a copied object, the heap of a context, and the operands of bytecode. */
  method AdjustObject(space: Space, dstp: int, adj: Adjust, home: int) returns (ok: bool)
    requires dstp in space.mem && Usable(adj)
    requires space.mem[dstp].part.Code? ==> WellFormed(space.mem[dstp].part.cells, 0)
    modifies space
    ensures space.OnlyAt(dstp)
    ensures ok <==> BodyLands(old(space.mem[dstp]), adj)
    ensures ok ==> BodyMoved(old(space.mem[dstp]), space.mem[dstp], adj, home)
  {
    hide WellFormed;
    hide CodeMoved;
    hide CodeLands;
    ghost var b := space.mem[dstp];
    ok := space.AdjustFields(dstp, adj);
    if ok {
      match space.mem[dstp].part
      case Context(_) =>
        space.mem := space.mem[dstp := space.mem[dstp].(part := Context(home))];
      case Code(_) =>
        ok := space.AdjustBytecode(dstp, adj);
      case Nothing =>
    }
  }

  /** The adjustment follows `to`. */
  ghost predicate Agrees(adj: Adjust, to: Places) {
    forall a :: Target(adj, a).Some? ==> a in to && to[a] == Target(adj, a).value
  }

  lemma MovedIsImage(b: Body, b1: Body, adj: Adjust, to: Places, home: int)
    requires BodyMoved(b, b1, adj, home)
    requires forall a :: a in to ==> Target(adj, a) == Some(to[a])
    requires PointsInto(b, to.Keys)
    ensures BodyImage(b, b1, to, home)
  {
    hide WellFormed;
    hide Spots;
    hide Target;
  }

  /** Every pointer of the object is to one of the given objects. */
  ghost predicate PointsInto(b: Body, objects: set<int>) {
    && (forall w <- b.slots :: w.Ptr? ==> w.addr in objects)
    && (b.part.Code? ==> WellFormed(b.part.cells, 0) && forall k <- Spots(b.part.cells, 0) ::
          k < |b.part.cells| && b.part.cells[k].WordC? && (b.part.cells[k].w.Ptr? ==> b.part.cells[k].w.addr in objects))
  }

  ghost predicate Closed(mem: map<int, Body>) { forall a <- mem :: PointsInto(mem[a], mem.Keys) }

  ghost predicate CodeOk(mem: map<int, Body>) { forall a <- mem :: mem[a].part.Code? ==> WellFormed(mem[a].part.cells, 0) }

  /** Of compiled code this is said without knowing where its pointers are. */
  lemma {:induction false} IntoIsWithin(b: Body, objects: set<int>)
    requires b.part.Code? ==> Compiled(b.part.cells, 0)
    ensures PointsInto(b, objects) <==> Within(b, objects)
  {
    hide Spots;
    hide Compiled;
    hide WellFormed;
    if b.part.Code? {
      var code := b.part.cells;
      CompiledWellFormed(code, 0);
      SpotsAhead(code, 0);
      forall k: nat | PointerAt(code, k)
        ensures k in Spots(code, 0)
      {
        PointersAreSpots(code, 0, k);
      }
      forall k | k in Spots(code, 0) && code[k].w.Ptr?
        ensures PointerAt(code, k)
      {
      }
    }
    if Within(b, objects) {
      forall w <- b.slots
        ensures w.Ptr? ==> w.addr in objects
      {
        var i :| 0 <= i < |b.slots| && b.slots[i] == w;
      }
    }
  }

  lemma ClosedIsSelfContained(mem: map<int, Body>)
    requires AllCompiled(mem)
    ensures Closed(mem) <==> SelfContained(mem)
  {
    hide PointsInto;
    hide Within;
    hide Compiled;
    forall a <- mem
      ensures PointsInto(mem[a], mem.Keys) <==> Within(mem[a], mem.Keys)
    {
      IntoIsWithin(mem[a], mem.Keys);
    }
  }

  /** An object can be adjusted exactly when all its pointers are to known objects. */
  lemma LandsWhenInto(b: Body, adj: Adjust, objects: set<int>)
    requires forall a :: Target(adj, a).Some? <==> a in objects
    requires b.part.Code? ==> WellFormed(b.part.cells, 0)
    ensures BodyLands(b, adj) <==> PointsInto(b, objects)
  {
    hide Target;
    hide WellFormed;
    hide Spots;
    if b.part.Code? {
      SpotsAhead(b.part.cells, 0);
    }
    if AllLand(b.slots, adj) {
      forall w <- b.slots
        ensures w.Ptr? ==> w.addr in objects
      {
        var i :| 0 <= i < |b.slots| && b.slots[i] == w;
        assert Lands(b.slots[i], adj);
      }
    }
  }

  // ---------------------------------------------------------- where things go

  /** The table of objects laid side by side from `start` on. */
  ghost predicate Placed(t: seq<Entry>, items: seq<Item>, start: int) {
    |t| == |items| && forall i :: 0 <= i < |t| ==> t[i] == Entry(items[i].addr, start + Total(items[..i]))
  }

  lemma {:induction false} TotalRises(items: seq<Item>, i: nat, j: nat)
    requires i < j <= |items|
    ensures Total(items[..i]) + items[i].size <= Total(items[..j]) <= Total(items)
    decreases |items|
  {
    if i > 0 {
      TotalRises(items[1..], i - 1, j - 1);
      assert items[..i][1..] == items[1..][..i - 1];
    }
    assert items[..j][1..] == items[1..][..j - 1];
    assert items == items[..j] + items[j..];
    TotalJoin(items[..j], items[j..]);
  }

  lemma PlacedRising(t: seq<Entry>, items: seq<Item>, start: int)
    requires Placed(t, items, start) && InOrder(items)
    ensures Rising(t)
  {
  }

  lemma PlacedSnoc(t: seq<Entry>, items: seq<Item>, start: int, x: Item)
    requires Placed(t, items, start)
    ensures Placed(t + [Entry(x.addr, start + Total(items))], items + [x], start) && Total(items + [x]) == Total(items) + x.size
  {
    var items1 := items + [x];
    TotalJoin(items, [x]);
    assert [x][1..] == [];
    forall i | 0 <= i < |t| + 1
      ensures items1[..i] == if i < |t| then items[..i] else items
    {
    }
  }

  /** The blocks of the objects laid side by side. */
  ghost function TilesOf(items: seq<Item>, at: nat): seq<Tile> {
    if items == [] then [] else [Tile(at, items[0].size, false)] + TilesOf(items[1..], at + items[0].size)
  }

  lemma TilesOfAt(items: seq<Item>, at: nat)
    requires AlignedSizes(items)
    ensures |TilesOf(items, at)| == |items|
    ensures forall i :: 0 <= i < |items| ==> TilesOf(items, at)[i] == Tile(at + Total(items[..i]), items[i].size, false)
    ensures Tiling(TilesOf(items, at), at, at + Total(items))
    ensures Frees(TilesOf(items, at)) == [] && NoAdjacentFree(TilesOf(items, at)) && Allocated(TilesOf(items, at)) == TilesOf(items, at)
  {
    hide Tiling;
    hide Total;
    TilesOfTile(items, at);
    TilesOfEach(items, at);
    assert forall u <- TilesOf(items, at) :: !u.free;
    AllAllocated(TilesOf(items, at));
  }

  lemma {:induction false} TilesOfTile(items: seq<Item>, at: nat)
    requires AlignedSizes(items)
    ensures Tiling(TilesOf(items, at), at, at + Total(items))
    decreases items
  {
    if items != [] {
      TilesOfTile(items[1..], at + items[0].size);
    }
  }

  lemma {:induction false} TilesOfEach(items: seq<Item>, at: nat)
    ensures |TilesOf(items, at)| == |items|
    ensures forall i :: 0 <= i < |items| ==> TilesOf(items, at)[i] == Tile(at + Total(items[..i]), items[i].size, false)
    decreases items
  {
    if items != [] {
      TilesOfEach(items[1..], at + items[0].size);
      forall i | 0 < i < |items|
        ensures items[..i][1..] == items[1..][..i - 1]
      {
      }
    }
  }

  lemma {:induction false} AllAllocated(tiles: seq<Tile>)
    requires forall u <- tiles :: !u.free
    ensures Allocated(tiles) == tiles && Frees(tiles) == [] && NoAdjacentFree(tiles)
  {
    if tiles != [] {
      AllAllocated(tiles[1..]);
    }
  }

  // ------------------------------------------------------------------- copying

  const FREE_CHUNK := 16

  /** The room asked for behind the objects, as it is given. */
  function FreeRoom(freeSize: nat): (r: nat)
    ensures r % 32 == 0 && (freeSize == 0 ==> r == 0)
    ensures freeSize > 0 ==> var least := if freeSize < 32 then 32 else freeSize; least <= r < least + 32
  {
    Align(if 0 < freeSize < 2 * FREE_CHUNK then 2 * FREE_CHUNK else freeSize)
  }

  /** A chunk of just the size for the objects and the free room, still empty. */
  method MakePackedHeap(packed: nat, freeSize: nat) returns (h: Heap)
    requires packed >= ALIGN && packed % ALIGN == 0
    ensures fresh(h) && h.limit == FIRST + packed + FreeRoom(freeSize)
    ensures |h.sizes| == |h.nexts| == |h.bytes| == |h.marks| == h.limit && h.sizes[HEAD] == 0
    ensures FreeRoom(freeSize) == 0 ==> h.nexts[HEAD] == NULL
    ensures FreeRoom(freeSize) > 0 ==> var f := FIRST + packed; h.nexts[HEAD] == f && h.nexts[f] == NULL && h.sizes[f] == FreeRoom(freeSize)
  {
    hide Divided;
    var free := FreeRoom(freeSize);
    h := new Heap(FIRST + packed + free);
    h.sizes := seq(h.limit, i => 0);
    h.nexts := seq(h.limit, i => NULL);
    if free > 0 {
      h.nexts := h.nexts[HEAD := FIRST + packed];
      h.sizes := h.sizes[FIRST + packed := free];
    }
  }

  /** The chunk has the size of each object that is laid in it. */
  ghost predicate SizesMatch(items: seq<Item>, bytes: seq<nat>) {
    forall i :: 0 <= i < |items| ==> FIRST + Total(items[..i]) < |bytes| && Align(bytes[FIRST + Total(items[..i])]) == items[i].size
  }

  /** The packed objects and the free room make a proper chunk. */
  lemma PackedDivided(items: seq<Item>, free: nat, limit: nat, sizes: seq<nat>, nexts: seq<nat>, bytes: seq<nat>)
    requires AlignedSizes(items)
    requires free % ALIGN == 0 && limit == FIRST + Total(items) + free && |sizes| == |nexts| == |bytes| == limit && sizes[HEAD] == 0
    requires nexts[HEAD] == if free > 0 then limit - free else NULL
    requires free > 0 ==> nexts[limit - free] == NULL && sizes[limit - free] == free
    requires SizesMatch(items, bytes)
    ensures Divided(PackedTiles(items, free), limit, sizes, nexts, bytes)
    ensures Allocated(PackedTiles(items, free)) == TilesOf(items, FIRST)
  {
    hide Tiling;
    hide SizesMatch;
    hide Total;
    hide AlignedSizes;
    hide Fields;
    hide Frees;
    hide Align;
    hide NoAdjacentFree;
    hide Allocated;
    hide TilesOf;
    TilesOfAt(items, FIRST);
    var tiles := TilesOf(items, FIRST);
    TilingBounds(tiles, FIRST, FIRST + Total(items));
    FieldsOfTiles(items, sizes, bytes);
    if free > 0 {
      var t := Tile(FIRST + Total(items), free, true);
      Passed(tiles, t, t.addr);
      NoneFreeBefore(tiles, t);
      FieldsSnoc(tiles, t, sizes, bytes);
      assert tiles + [t] == PackedTiles(items, free);
      assert Allocated(tiles) + [] == Allocated(tiles);
    } else {
      assert tiles + [] == tiles;
    }
  }

  lemma FieldsOfTiles(items: seq<Item>, sizes: seq<nat>, bytes: seq<nat>)
    requires AlignedSizes(items) && SizesMatch(items, bytes) && |sizes| == |bytes|
    ensures Fields(TilesOf(items, FIRST), sizes, bytes)
  {
    var tiles := TilesOf(items, FIRST);
    forall u <- tiles
      ensures u.addr < |sizes| && u.addr < |bytes| && !u.free && Align(bytes[u.addr]) == u.size
    {
      FieldOfTile(items, bytes, u);
    }
  }

  lemma FieldOfTile(items: seq<Item>, bytes: seq<nat>, u: Tile)
    requires AlignedSizes(items) && SizesMatch(items, bytes) && u in TilesOf(items, FIRST)
    ensures u.addr < |bytes| && !u.free && Align(bytes[u.addr]) == u.size
  {
    hide TilesOf;
    hide Tiling;
    hide Total;
    hide Align;
    TilesOfAt(items, FIRST);
    var i :| 0 <= i < |items| && TilesOf(items, FIRST)[i] == u;
    assert u.addr == FIRST + Total(items[..i]);
  }

  lemma FieldsSnoc(tiles: seq<Tile>, t: Tile, sizes: seq<nat>, bytes: seq<nat>)
    requires Fields(tiles, sizes, bytes) && t.free && t.addr < |sizes| == |bytes| && sizes[t.addr] == t.size
    ensures Fields(tiles + [t], sizes, bytes)
  {
  }

  lemma NoneFreeBefore(tiles: seq<Tile>, t: Tile)
    requires forall i :: 0 <= i < |tiles| ==> !tiles[i].free
    ensures NoAdjacentFree(tiles + [t])
  {
  }

  ghost function PackedTiles(items: seq<Item>, free: nat): seq<Tile> {
    TilesOf(items, FIRST) + if free > 0 then [Tile(FIRST + Total(items), free, true)] else []
  }

  /** Is `a` the address of one of the items? */
  ghost predicate IsItem(items: seq<Item>, a: int) { exists i :: 0 <= i < |items| && items[i].addr == a }

  /** What the source memory has to hold: the bodies of exactly the objects that the chunks are divided into. */
  ghost predicate Describes(src: map<int, Body>, items: seq<Item>) {
    && (forall a :: a in src <==> IsItem(items, a))
    && (forall i :: 0 <= i < |items| ==> items[i].addr in src && Align(src[items[i].addr].bytes) == items[i].size)
  }

  /** The state of the second pass. */
  class State {
    const src: map<int, Body>
    const ctx: int
    const start: int
    const end: int
    const space: Space
    const heap: Heap
    var p: int
    var remap: seq<Entry>
    var ctxDst: Option<int>
    ghost var items: seq<Item>

    constructor (src: map<int, Body>, ctx: int, start: int, heap: Heap)
      requires |heap.bytes| == heap.limit >= FIRST
      ensures Valid() && items == [] && this.src == src && this.ctx == ctx && this.start == start && this.heap == heap
      ensures fresh(space) && end == start - FIRST + heap.limit
    {
      this.src, this.ctx, this.start, this.heap := src, ctx, start, heap;
      end := start - FIRST + heap.limit;
      space := new Space();
      p, remap, ctxDst := start, [], None;
      items := [];
    }

    ghost predicate Valid()
      reads this, space, heap
    {
      && Placed(remap, items, start) && p == start + Total(items) && end == start - FIRST + heap.limit
      && |heap.bytes| == heap.limit && (forall x <- items :: x.size >= ALIGN)
      && Filled(remap, space.mem) && InPlace(src, remap, space.mem) && InChunk(src, remap, start, heap.bytes)
      && RootKnown(remap, ctx, ctxDst)
    }

    /** Copy one object to the next free place and enter it in the table. */
    method Remap(s: int, size: nat) returns (ok: bool)
      requires Valid() && s in src && size >= ALIGN && Align(src[s].bytes) == size && !IsItem(items, s)
      modifies this, space, heap`bytes
      ensures Valid()
      ensures ok <==> old(p) < end
      ensures ok ==> items == old(items) + [Item(s, size)]
    {
      hide Placed;
      hide Filled;
      hide InPlace;
      hide InChunk;
      hide RootKnown;
      hide IsItem;
      hide Total;
      if p >= end {
        return false;
      }
      NotInTable(remap, items, start, s);
      PlacedSnoc(remap, items, start, Item(s, size));
      PlacesApart(remap, items, start);
      CopyNext(src, remap, start, space.mem, heap.bytes, s, p);
      RootNext(remap, ctx, ctxDst, s, p);
      space.mem := space.mem[p := src[s]];
      heap.bytes := heap.bytes[p - start + FIRST := src[s].bytes];
      remap := remap + [Entry(s, p)];
      if s == ctx {
        ctxDst := Some(p);
      }
      p := p + size;
      items := items + [Item(s, size)];
      assert forall x <- items :: x.size >= ALIGN;
      return true;
    }
  }

  /** Memory holds something at the places of the table and nowhere else. */
  ghost predicate Filled(t: seq<Entry>, mem: map<int, Body>) {
    (forall i :: 0 <= i < |t| ==> t[i].dst in mem) && forall a <- mem :: exists i :: 0 <= i < |t| && t[i].dst == a
  }

  /** Each object is copied to its place. */
  ghost predicate InPlace(src: map<int, Body>, t: seq<Entry>, mem: map<int, Body>) {
    forall i :: 0 <= i < |t| ==> t[i].src in src && t[i].dst in mem && mem[t[i].dst] == src[t[i].src]
  }

  /** The chunk knows the size of each copy. */
  ghost predicate InChunk(src: map<int, Body>, t: seq<Entry>, start: int, bytes: seq<nat>) {
    forall i :: 0 <= i < |t| ==>
      t[i].src in src && 0 <= t[i].dst - start + FIRST < |bytes| && bytes[t[i].dst - start + FIRST] == src[t[i].src].bytes
  }

  ghost predicate RootKnown(t: seq<Entry>, ctx: int, ctxDst: Option<int>) {
    forall i :: 0 <= i < |t| && t[i].src == ctx ==> ctxDst == Some(t[i].dst)
  }

  lemma CopyNext(src: map<int, Body>, t: seq<Entry>, start: int, mem: map<int, Body>, bytes: seq<nat>, s: int, p: int)
    requires Filled(t, mem) && InPlace(src, t, mem) && InChunk(src, t, start, bytes)
    requires s in src && 0 <= p - start + FIRST < |bytes| && forall i :: 0 <= i < |t| ==> t[i].dst != p
    ensures Filled(t + [Entry(s, p)], mem[p := src[s]])
    ensures InPlace(src, t + [Entry(s, p)], mem[p := src[s]])
    ensures InChunk(src, t + [Entry(s, p)], start, bytes[p - start + FIRST := src[s].bytes])
  {
    var t1, mem1 := t + [Entry(s, p)], mem[p := src[s]];
    forall a <- mem1
      ensures exists i :: 0 <= i < |t1| && t1[i].dst == a
    {
      if a == p {
        assert t1[|t|].dst == p;
      } else {
        var i :| 0 <= i < |t| && t[i].dst == a;
        assert t1[i].dst == a;
      }
    }
  }

  lemma NotInTable(t: seq<Entry>, items: seq<Item>, start: int, s: int)
    requires Placed(t, items, start) && !IsItem(items, s)
    ensures forall i :: 0 <= i < |t| ==> t[i].src != s
  {
  }

  lemma RootNext(t: seq<Entry>, ctx: int, ctxDst: Option<int>, s: int, p: int)
    requires RootKnown(t, ctx, ctxDst) && forall i :: 0 <= i < |t| ==> t[i].src != s
    ensures RootKnown(t + [Entry(s, p)], ctx, if s == ctx then Some(p) else ctxDst)
  {
  }

  ghost predicate ApartAt(t: seq<Entry>) { forall i, j :: 0 <= i < j < |t| ==> t[i].dst < t[j].dst }

  lemma PlacesApart(t: seq<Entry>, items: seq<Item>, start: int)
    requires Placed(t, items, start) && forall x <- items :: x.size >= ALIGN
    ensures forall i :: 0 <= i < |t| ==> start <= t[i].dst < start + Total(items)
    ensures ApartAt(t)
  {
    forall i | 0 <= i < |t|
      ensures start <= t[i].dst < start + Total(items)
    {
      TotalRises(items, i, |items|);
      assert items[..|items|] == items;
    }
    forall i, j | 0 <= i < j < |t|
      ensures t[i].dst < t[j].dst
    {
      TotalRises(items, i, j);
    }
  }

  /** Copy the objects of one chunk; there is always room. */
  method CopyChunk(st: State, base: int, found: seq<Tile>, ghost all: seq<Item>, ghost k: nat) returns (ok: bool)
    requires st.Valid() && InOrder(all) && Describes(st.src, all) && AlignedSizes(all)
    requires k + |found| <= |all| && st.items == all[..k] && ItemsAt(base, found) == all[k..k + |found|]
    requires st.start + Total(all) <= st.end
    modifies st, st.space, st.heap`bytes
    ensures ok && st.Valid() && st.items == all[..k + |found|]
  {
    hide State.Valid;
    hide InOrder;
    hide Describes;
    hide IsItem;
    hide Total;
    var j := 0;
    while j < |found|
      invariant 0 <= j <= |found| && st.Valid() && st.items == all[..k + j]
    {
      assert all[k + j] == ItemsAt(base, found)[j];
      NextItem(st.src, all, k + j, st.start, st.end);
      NextPlace(st);
      ok := st.Remap(base + found[j].addr, found[j].size);
      if !ok {
        return;
      }
      assert all[..k + j + 1] == all[..k + j] + [all[k + j]];
      j := j + 1;
    }
    ok := true;
  }

  lemma NextItem(src: map<int, Body>, all: seq<Item>, k: nat, start: int, end: int)
    requires InOrder(all) && Describes(src, all) && AlignedSizes(all) && k < |all| && start + Total(all) <= end
    ensures all[k].addr in src && Align(src[all[k].addr].bytes) == all[k].size >= ALIGN && !IsItem(all[..k], all[k].addr)
    ensures start + Total(all[..k]) < end
  {
    TotalRises(all, k, |all|);
    assert all[..|all|] == all;
  }

  lemma NextPlace(st: State)
    requires st.Valid()
    ensures st.p == st.start + Total(st.items)
  {
  }

  /** The second pass over all chunks. */
  method CopyAll(st: State, sorted: seq<Chunk>, ghost all: seq<Item>) returns (ok: bool)
    requires st.Valid() && st.items == [] && (forall c <- sorted :: c.heap.Valid() && c.heap != st.heap) && all == Items(sorted)
    requires InOrder(all) && Describes(st.src, all) && AlignedSizes(all)
    requires st.start + Total(all) <= st.end
    modifies st, st.space, st.heap`bytes
    ensures ok && st.Valid() && st.items == all
  {
    hide State.Valid;
    hide Heap.Valid;
    hide InOrder;
    hide Describes;
    hide Items;
    var i := 0;
    NoItems();
    while i < |sorted|
      invariant 0 <= i <= |sorted| && st.Valid() && |Items(sorted[..i])| <= |all| && st.items == Items(sorted[..i]) == all[..|Items(sorted[..i])|]
      invariant forall c <- sorted :: c.heap.Valid()
      invariant all == Items(sorted)
    {
      var found := HeapWalk.Walk(sorted[i].heap);
      ItemsStep(sorted, i);
      ok := CopyChunk(st, sorted[i].base, found, all, |Items(sorted[..i])|);
      if !ok {
        return;
      }
      i := i + 1;
    }
    assert sorted[..i] == sorted;
    ok := true;
  }

  lemma ItemsStep(chunks: seq<Chunk>, i: nat)
    requires i < |chunks|
    ensures var all, done, more := Items(chunks), Items(chunks[..i]), ItemsAt(chunks[i].base, Allocated(chunks[i].heap.tiles));
            && |done| + |more| <= |all| && all[|done|..|done| + |more|] == more && done == all[..|done|]
            && Items(chunks[..i + 1]) == all[..|done| + |more|]
  {
    hide Items;
    ItemsJoin(chunks[..i], [chunks[i]]);
    ItemsOne(chunks[i]);
    assert chunks[..i] + [chunks[i]] == chunks[..i + 1];
    ItemsJoin(chunks[..i + 1], chunks[i + 1..]);
    assert chunks[..i + 1] + chunks[i + 1..] == chunks;
  }

  ghost predicate AllMoved(t: seq<Entry>, src: map<int, Body>, mem: map<int, Body>, home: int) {
    forall i :: 0 <= i < |t| ==> t[i].src in src && t[i].dst in mem && BodyMoved(src[t[i].src], mem[t[i].dst], Table(t), home)
  }

  ghost predicate AllBodiesLand(t: seq<Entry>, src: map<int, Body>) {
    forall i :: 0 <= i < |t| ==> t[i].src in src && BodyLands(src[t[i].src], Table(t))
  }

  /** The last pass: all pointers follow their objects, or one of them leads nowhere. */
  method AdjustAll(space: Space, t: seq<Entry>, home: int, ghost src: map<int, Body>) returns (ok: bool)
    requires Rising(t) && InPlace(src, t, space.mem) && CodeOk(src) && Filled(t, space.mem)
    requires ApartAt(t)
    modifies space
    ensures space.mem.Keys == old(space.mem.Keys)
    ensures ok <==> AllBodiesLand(t, src)
    ensures ok ==> AllMoved(t, src, space.mem, home)
  {
    hide BodyMoved;
    hide BodyLands;
    hide WellFormed;
    hide Rising;
    hide Filled;
    var i := 0;
    while i < |t|
      invariant 0 <= i <= |t| && space.mem.Keys == old(space.mem.Keys)
      invariant forall k :: i <= k < |t| ==> t[k].src in src && t[k].dst in space.mem && space.mem[t[k].dst] == src[t[k].src]
      invariant forall k :: 0 <= k < i ==> t[k].src in src && t[k].dst in space.mem && BodyLands(src[t[k].src], Table(t))
      invariant forall k :: 0 <= k < i ==> BodyMoved(src[t[k].src], space.mem[t[k].dst], Table(t), home)
    {
      ok := AdjustObject(space, t[i].dst, Table(t), home);
      if !ok {
        return;
      }
      i := i + 1;
    }
    ok := true;
  }

  // ------------------------------------------------------------------- packing

  datatype Packed = Packed(ctx: int, space: Space, heap: Heap)

  /** The places that a table gives. */
  ghost function PlacesOf(t: seq<Entry>, src: map<int, Body>): Places
    requires forall a <- src :: Target(Table(t), a).Some?
  {
    map a | a in src :: Target(Table(t), a).value
  }

  /** The table knows exactly the objects. */
  ghost predicate Knows(t: seq<Entry>, src: map<int, Body>) {
    forall a :: a in src <==> exists i :: 0 <= i < |t| && t[i].src == a
  }

  lemma TargetsKnown(t: seq<Entry>, src: map<int, Body>)
    requires Rising(t) && Knows(t, src)
    ensures forall a :: Target(Table(t), a).Some? <==> a in src.Keys
    ensures forall i :: 0 <= i < |t| ==> t[i].src in src && PlacesOf(t, src)[t[i].src] == t[i].dst
  {
    forall i | 0 <= i < |t|
      ensures t[i].src in src && Target(Table(t), t[i].src) == Some(t[i].dst)
    {
      TargetAt(t, i);
    }
  }

  lemma SourcesClosed(t: seq<Entry>, src: map<int, Body>)
    requires Rising(t) && Knows(t, src) && CodeOk(src)
    ensures Closed(src) <==> AllBodiesLand(t, src)
  {
    hide BodyLands;
    hide PointsInto;
    hide WellFormed;
    TargetsKnown(t, src);
    forall a <- src
      ensures BodyLands(src[a], Table(t)) <==> PointsInto(src[a], src.Keys)
    {
      LandsWhenInto(src[a], Table(t), src.Keys);
    }
  }

  lemma OneIsImage(t: seq<Entry>, src: map<int, Body>, mem: map<int, Body>, home: int, a: int)
    requires Rising(t) && Knows(t, src) && Closed(src) && AllMoved(t, src, mem, home) && a in src
    requires forall b <- src :: Target(Table(t), b).Some?
    ensures var to := PlacesOf(t, src); to[a] in mem && BodyImage(src[a], mem[to[a]], to, home)
  {
    hide BodyMoved;
    hide PointsInto;
    hide BodyImage;
    hide Target;
    hide Rising;
    TargetsKnown(t, src);
    var to := PlacesOf(t, src);
    var i :| 0 <= i < |t| && t[i].src == a;
    forall b | b in to
      ensures Target(Table(t), b) == Some(to[b])
    {
    }
    assert to.Keys == src.Keys;
    MovedIsImage(src[a], mem[t[i].dst], Table(t), to, home);
  }

  /** The places are all of the new memory. */
  lemma PlacesFill(t: seq<Entry>, src: map<int, Body>, mem: map<int, Body>)
    requires Rising(t) && Knows(t, src) && Filled(t, mem) && forall a <- src :: Target(Table(t), a).Some?
    ensures Onto(PlacesOf(t, src), mem.Keys)
  {
    hide Target;
    hide Rising;
    TargetsKnown(t, src);
    var to := PlacesOf(t, src);
    forall y <- mem
      ensures PlaceOf(to, y)
    {
      var i :| 0 <= i < |t| && t[i].dst == y;
      assert to[t[i].src] == y;
    }
    forall a <- to
      ensures to[a] in mem
    {
      var i :| 0 <= i < |t| && t[i].src == a;
    }
  }

  /** Different objects have different places. */
  lemma PlacesOneToOne(t: seq<Entry>, src: map<int, Body>, a: int, b: int)
    requires Rising(t) && Knows(t, src) && forall x <- src :: Target(Table(t), x).Some?
    requires ApartAt(t)
    requires a in src && b in src && PlacesOf(t, src)[a] == PlacesOf(t, src)[b]
    ensures a == b
  {
    hide Target;
    hide Rising;
    TargetsKnown(t, src);
    var i :| 0 <= i < |t| && t[i].src == a;
    var j :| 0 <= j < |t| && t[j].src == b;
    assert !(i < j) && !(j < i);
  }

  /** After adjustment the copy is the original up to the places. */
  lemma PackedIsImage(t: seq<Entry>, src: map<int, Body>, mem: map<int, Body>, home: int)
    requires Rising(t) && Knows(t, src) && Closed(src) && Filled(t, mem) && AllMoved(t, src, mem, home)
    requires ApartAt(t)
    ensures (forall a <- src :: Target(Table(t), a).Some?) && Isomorphic(src, mem, PlacesOf(t, src), home)
  {
    hide Rising;
    hide Knows;
    hide Filled;
    hide AllMoved;
    hide Closed;
    hide Target;
    hide BodyImage;
    TargetsKnown(t, src);
    PlacesFill(t, src, mem);
    forall a, b | a in src && b in src && PlacesOf(t, src)[a] == PlacesOf(t, src)[b]
      ensures a == b
    {
      PlacesOneToOne(t, src, a, b);
    }
    forall a <- src
      ensures PlacesOf(t, src)[a] in mem && BodyImage(src[a], mem[PlacesOf(t, src)[a]], PlacesOf(t, src), home)
    {
      OneIsImage(t, src, mem, home, a);
    }
  }

  lemma PlacedKnows(t: seq<Entry>, items: seq<Item>, start: int, src: map<int, Body>)
    requires Placed(t, items, start) && Describes(src, items)
    ensures Knows(t, src)
  {
    forall a
      ensures a in src <==> exists i :: 0 <= i < |t| && t[i].src == a
    {
      if a in src {
        var i :| 0 <= i < |items| && items[i].addr == a;
        assert t[i].src == a;
      }
    }
  }

  lemma DescribesAny(src: map<int, Body>, items: seq<Item>, items1: seq<Item>)
    requires Describes(src, items) && multiset(items) == multiset(items1)
    ensures Describes(src, items1)
  {
    forall x
      ensures x in items <==> x in items1
    {
      assert x in multiset(items) <==> x in multiset(items1);
    }
    forall a
      ensures IsItem(items1, a) <==> IsItem(items, a)
    {
      if IsItem(items, a) {
        var i :| 0 <= i < |items| && items[i].addr == a;
        assert items[i] in items;
      }
      if IsItem(items1, a) {
        var i :| 0 <= i < |items1| && items1[i].addr == a;
        assert items1[i] in items1;
      }
    }
    forall i | 0 <= i < |items1|
      ensures items1[i].addr in src && Align(src[items1[i].addr].bytes) == items1[i].size
    {
      assert items1[i] in items1;
    }
  }

  /** The fields of the new chunk before anything is copied into it. */
  ghost predicate Empty(h: Heap, packed: nat, free: nat)
    reads h
  {
    EmptyFields(h.limit, h.sizes, h.nexts, h.bytes, h.marks, packed, free)
  }

  ghost predicate EmptyFields(limit: nat, sizes: seq<nat>, nexts: seq<nat>, bytes: seq<nat>, marks: seq<bool>, packed: nat, free: nat) {
    && free % ALIGN == 0 && limit == FIRST + packed + free
    && |sizes| == |nexts| == |bytes| == |marks| == limit && sizes[HEAD] == 0
    && nexts[HEAD] == (if free > 0 then limit - free else NULL)
    && (free > 0 ==> nexts[limit - free] == NULL && sizes[limit - free] == free)
  }

  lemma ChunkDivided(t: seq<Entry>, items: seq<Item>, base: int, src: map<int, Body>, h: Heap, free: nat)
    requires Placed(t, items, base + FIRST) && InChunk(src, t, base + FIRST, h.bytes) && Describes(src, items)
    requires AlignedSizes(items) && Empty(h, Total(items), free)
    ensures Divided(PackedTiles(items, free), h.limit, h.sizes, h.nexts, h.bytes)
  {
    hide Divided;
    hide Total;
    forall i | 0 <= i < |items|
      ensures FIRST + Total(items[..i]) < h.limit && Align(h.bytes[FIRST + Total(items[..i])]) == items[i].size
    {
      assert t[i] == Entry(items[i].addr, base + FIRST + Total(items[..i]));
    }
    PackedDivided(items, free, h.limit, h.sizes, h.nexts, h.bytes);
  }

  lemma TilePlace(t: seq<Entry>, items: seq<Item>, base: int, src: map<int, Body>, mem: map<int, Body>, home: int, i: nat)
    requires Placed(t, items, base + FIRST) && AllMoved(t, src, mem, home) && i < |items|
    requires AlignedSizes(items) && Describes(src, items)
    ensures i < |TilesOf(items, FIRST)| == |items|
    ensures t[i].dst == base + TilesOf(items, FIRST)[i].addr && HoldsTile(base, TilesOf(items, FIRST)[i], mem)
  {
    hide BodyMoved;
    hide Total;
    hide TilesOf;
    hide Tiling;
    TilesOfAt(items, FIRST);
    MovedBytes(src[t[i].src], mem[t[i].dst], Table(t), home);
  }

  /** The memory holds an object of the right size in each block, and nothing else. */
  ghost predicate HoldsTiles(base: int, tiles: seq<Tile>, mem: map<int, Body>) {
    Held(base, tiles, mem) && OnlyHeld(base, tiles, mem)
  }

  ghost predicate Held(base: int, tiles: seq<Tile>, mem: map<int, Body>) {
    forall u <- tiles :: HoldsTile(base, u, mem)
  }

  ghost predicate HoldsTile(base: int, u: Tile, mem: map<int, Body>) {
    base + u.addr in mem && Align(mem[base + u.addr].bytes) == u.size
  }

  ghost predicate OnlyHeld(base: int, tiles: seq<Tile>, mem: map<int, Body>) {
    forall a <- mem :: exists u <- tiles :: base + u.addr == a
  }

  lemma ChunkHolds(t: seq<Entry>, items: seq<Item>, base: int, src: map<int, Body>, mem: map<int, Body>, home: int)
    requires Placed(t, items, base + FIRST) && Filled(t, mem) && AllMoved(t, src, mem, home)
    requires AlignedSizes(items) && Describes(src, items)
    ensures HoldsTiles(base, TilesOf(items, FIRST), mem)
  {
    var tiles := TilesOf(items, FIRST);
    forall u <- tiles
      ensures HoldsTile(base, u, mem)
    {
      TileHeld(t, items, base, src, mem, home, u);
    }
    forall a <- mem
      ensures exists u <- tiles :: base + u.addr == a
    {
      ObjectHeld(t, items, base, src, mem, home, a);
    }
  }

  lemma TilesCount(items: seq<Item>, at: nat)
    requires AlignedSizes(items)
    ensures |TilesOf(items, at)| == |items|
  {
    TilesOfAt(items, at);
  }

  lemma TileHeld(t: seq<Entry>, items: seq<Item>, base: int, src: map<int, Body>, mem: map<int, Body>, home: int, u: Tile)
    requires Placed(t, items, base + FIRST) && AllMoved(t, src, mem, home)
    requires AlignedSizes(items) && Describes(src, items) && u in TilesOf(items, FIRST)
    ensures HoldsTile(base, u, mem)
  {
    hide *;
    TilesCount(items, FIRST);
    var i: nat :| i < |TilesOf(items, FIRST)| && TilesOf(items, FIRST)[i] == u;
    TilePlace(t, items, base, src, mem, home, i);
  }

  lemma ObjectHeld(t: seq<Entry>, items: seq<Item>, base: int, src: map<int, Body>, mem: map<int, Body>, home: int, a: int)
    requires Placed(t, items, base + FIRST) && Filled(t, mem) && AllMoved(t, src, mem, home)
    requires AlignedSizes(items) && Describes(src, items) && a in mem
    ensures exists u <- TilesOf(items, FIRST) :: base + u.addr == a
  {
    hide AllMoved;
    hide TilesOf;
    hide Total;
    var i: nat :| i < |t| && t[i].dst == a;
    TilePlace(t, items, base, src, mem, home, i);
    assert TilesOf(items, FIRST)[i] in TilesOf(items, FIRST);
  }

  lemma MovedBytes(b: Body, b1: Body, adj: Adjust, home: int)
    requires BodyMoved(b, b1, adj, home)
    ensures b1.bytes == b.bytes
  {
  }

  /** All passes after the chunks are sorted and the new chunk is there. */
  method CopyAndAdjust(ctx: int, sorted: seq<Chunk>, src: map<int, Body>, heap: Heap, ghost free: nat, base: int, home: int, count: nat)
    returns (r: Option<Packed>, ghost to: Places)
    requires (forall c <- sorted :: c.heap.Valid() && c.heap != heap) && Separate(sorted) && Ascending(sorted)
    requires Describes(src, Items(sorted)) && CodeOk(src) && ctx in src && count == |Items(sorted)|
    requires Empty(heap, Total(Items(sorted)), free)
    modifies heap
    ensures r.Some? <==> Closed(src)
    ensures r.Some? ==> fresh(r.value.space) && r.value.heap == heap && heap.Valid()
    ensures r.Some? ==> Isomorphic(src, r.value.space.mem, to, home) && ctx in to && r.value.ctx == to[ctx]
    ensures r.Some? ==> HoldsTiles(base, Allocated(heap.tiles), r.value.space.mem) && (free == 0 ==> forall u <- heap.tiles :: !u.free)
  {
    hide Heap.Valid;
    hide Separate;
    hide Ascending;
    hide Items;
    hide Total;
    hide Describes;
    hide InOrder;
    hide Isomorphic;
    hide Rising;
    hide Closed;
    hide AllMoved;
    hide BodyLands;
    hide BodyMoved;
    hide Divided;
    hide State.Valid;
    hide Empty;
    hide EmptyFields;
    hide HoldsTiles;
    hide CodeOk;
    hide AlignedSizes;
    hide Frees;
    hide Allocated;
    to := map[];
    ghost var all := Items(sorted);
    ItemsInOrder(sorted);
    ItemSizes(sorted);
    EmptyRoom(heap, Total(all), free);
    ghost var sizes, nexts, bytes, marks := heap.sizes, heap.nexts, heap.bytes, heap.marks;
    var st := new State(src, ctx, base + FIRST, heap);
    var ok := CopyAll(st, sorted, all);
    if !ok {
      return None, to;
    }
    StateFacts(st, all);
    assert |st.remap| == count;
    StillEmpty(heap, sizes, nexts, bytes, marks, Total(all), free);
    r, to := AdjustCopies(st, all, free, base, home);
  }

  lemma EmptyRoom(h: Heap, packed: nat, free: nat)
    requires Empty(h, packed, free)
    ensures EmptyFields(h.limit, h.sizes, h.nexts, h.bytes, h.marks, packed, free)
    ensures |h.bytes| == h.limit >= FIRST + packed
  {
  }

  lemma StillEmpty(h: Heap, sizes: seq<nat>, nexts: seq<nat>, bytes: seq<nat>, marks: seq<bool>, packed: nat, free: nat)
    requires EmptyFields(h.limit, sizes, nexts, bytes, marks, packed, free) && |h.bytes| == h.limit
    requires h.sizes == sizes && h.nexts == nexts && h.marks == marks
    ensures Empty(h, packed, free)
  {
  }

  /** The last pass, after everything is copied. */
  method AdjustCopies(st: State, ghost all: seq<Item>, ghost free: nat, base: int, home: int)
    returns (r: Option<Packed>, ghost to: Places)
    requires st.Valid() && st.items == all && st.start == base + FIRST && InOrder(all) && AlignedSizes(all)
    requires Describes(st.src, all) && CodeOk(st.src) && st.ctx in st.src && Empty(st.heap, Total(all), free)
    modifies st.space, st.heap`tiles
    ensures r.Some? <==> Closed(st.src)
    ensures r.Some? ==> r.value.space == st.space && r.value.heap == st.heap && st.heap.Valid()
    ensures r.Some? ==> Isomorphic(st.src, st.space.mem, to, home) && st.ctx in to && r.value.ctx == to[st.ctx]
    ensures r.Some? ==> HoldsTiles(base, Allocated(st.heap.tiles), st.space.mem) && (free == 0 ==> forall u <- st.heap.tiles :: !u.free)
  {
    hide Heap.Valid;
    hide Describes;
    hide InOrder;
    hide AlignedSizes;
    hide Isomorphic;
    hide Rising;
    hide Knows;
    hide Closed;
    hide AllMoved;
    hide AllBodiesLand;
    hide ApartAt;
    hide Divided;
    hide State.Valid;
    hide Placed;
    hide Filled;
    hide InPlace;
    hide InChunk;
    hide RootKnown;
    hide PlacesOf;
    hide PackedTiles;
    hide TilesOf;
    hide Frees;
    hide Allocated;
    hide CodeOk;
    hide HoldsTiles;
    hide Empty;
    hide Total;
    hide Target;
    var t, src, space, heap, root := st.remap, st.src, st.space, st.heap, st.ctxDst;
    StateFacts(st, all);
    TableFacts(t, all, st.start, src);
    SourcesClosed(t, src);
    Partition(t, all, base, src, heap, free);
    to := map[];
    ghost var mem0 := space.mem;
    var ok := AdjustAll(space, t, home, src);
    assert heap.Valid() && heap.tiles == PackedTiles(all, free);
    if !ok {
      return None, to;
    }
    to := CopyDone(t, all, base, src, space.mem, mem0, home, free, st.ctx, root);
    r := Some(Packed(root.value, space, heap));
  }

  /** The new chunk is divided into the copied objects and the free room. */
  ghost method Partition(t: seq<Entry>, all: seq<Item>, base: int, src: map<int, Body>, heap: Heap, free: nat)
    requires Placed(t, all, base + FIRST) && InChunk(src, t, base + FIRST, heap.bytes) && Describes(src, all)
    requires AlignedSizes(all) && Empty(heap, Total(all), free)
    modifies heap`tiles
    ensures heap.Valid() && heap.tiles == PackedTiles(all, free)
  {
    hide Divided;
    hide Placed;
    hide InChunk;
    hide Describes;
    hide AlignedSizes;
    hide PackedTiles;
    hide Total;
    ChunkDivided(t, all, base, src, heap, free);
    MarksFitChunk(heap, Total(all), free);
    heap.tiles := PackedTiles(all, free);
    NowValid(heap);
  }

  lemma CopyDone(t: seq<Entry>, items: seq<Item>, base: int, src: map<int, Body>, mem: map<int, Body>, mem0: map<int, Body>,
                 home: int, free: nat, ctx: int, root: Option<int>) returns (to: Places)
    requires Placed(t, items, base + FIRST) && InOrder(items) && AlignedSizes(items) && Describes(src, items)
    requires Filled(t, mem0) && mem.Keys == mem0.Keys && AllMoved(t, src, mem, home)
    requires Closed(src) && RootKnown(t, ctx, root) && ctx in src
    ensures Isomorphic(src, mem, to, home) && ctx in to && root == Some(to[ctx])
    ensures HoldsTiles(base, Allocated(PackedTiles(items, free)), mem)
    ensures free == 0 ==> forall u <- PackedTiles(items, free) :: !u.free
  {
    hide *;
    TableFacts(t, items, base + FIRST, src);
    FilledStill(t, mem, mem0);
    to := CopyIsImage(t, src, mem, home, ctx, root);
    ChunkHolds(t, items, base, src, mem, home);
    AllTaken(items, free);
  }

  lemma CopyIsImage(t: seq<Entry>, src: map<int, Body>, mem: map<int, Body>, home: int, ctx: int, ctxDst: Option<int>) returns (to: Places)
    requires Rising(t) && Knows(t, src) && Closed(src) && Filled(t, mem) && AllMoved(t, src, mem, home) && ApartAt(t)
    requires RootKnown(t, ctx, ctxDst) && ctx in src
    ensures Isomorphic(src, mem, to, home) && ctx in to && ctxDst == Some(to[ctx])
  {
    hide *;
    PackedIsImage(t, src, mem, home);
    to := PlacesOf(t, src);
    RootPlace(t, src, ctx, ctxDst);
    RootHasPlace(src, mem, to, home, ctx);
  }

  lemma RootHasPlace(mem: map<int, Body>, mem1: map<int, Body>, to: Places, home: int, a: int)
    requires Isomorphic(mem, mem1, to, home) && a in mem
    ensures a in to
  {
  }

  lemma TableFacts(t: seq<Entry>, items: seq<Item>, start: int, src: map<int, Body>)
    requires Placed(t, items, start) && InOrder(items) && AlignedSizes(items) && Describes(src, items)
    ensures Rising(t) && Knows(t, src) && ApartAt(t)
  {
    PlacedRising(t, items, start);
    PlacedKnows(t, items, start, src);
    PlacesApart(t, items, start);
  }

  lemma MarksFitChunk(h: Heap, packed: nat, free: nat)
    requires Empty(h, packed, free)
    ensures |h.marks| == h.limit
  {
  }

  lemma NowValid(h: Heap)
    requires Divided(h.tiles, h.limit, h.sizes, h.nexts, h.bytes) && |h.marks| == h.limit
    ensures h.Valid()
  {
  }

  lemma StateFacts(st: State, all: seq<Item>)
    requires st.Valid() && st.items == all
    ensures Placed(st.remap, all, st.start) && Filled(st.remap, st.space.mem) && InPlace(st.src, st.remap, st.space.mem)
    ensures InChunk(st.src, st.remap, st.start, st.heap.bytes) && RootKnown(st.remap, st.ctx, st.ctxDst)
    ensures |st.remap| == |all| && |st.heap.bytes| == st.heap.limit
  {
  }

  lemma FilledStill(t: seq<Entry>, mem: map<int, Body>, mem0: map<int, Body>)
    requires Filled(t, mem0) && mem.Keys == mem0.Keys
    ensures Filled(t, mem)
  {
    forall a <- mem
      ensures exists i :: 0 <= i < |t| && t[i].dst == a
    {
      assert a in mem0;
    }
  }

  lemma RootPlace(t: seq<Entry>, src: map<int, Body>, ctx: int, ctxDst: Option<int>)
    requires Rising(t) && Knows(t, src) && RootKnown(t, ctx, ctxDst) && ctx in src && forall a <- src :: Target(Table(t), a).Some?
    ensures ctxDst == Some(PlacesOf(t, src)[ctx])
  {
    TargetsKnown(t, src);
    var i :| 0 <= i < |t| && t[i].src == ctx;
  }

  lemma AllTaken(items: seq<Item>, free: nat)
    requires AlignedSizes(items)
    ensures Allocated(PackedTiles(items, free)) == TilesOf(items, FIRST)
    ensures free == 0 ==> forall u <- PackedTiles(items, free) :: !u.free
  {
    hide Tiling;
    hide Total;
    TilesOfAt(items, FIRST);
    var tiles := TilesOf(items, FIRST);
    if free > 0 {
      var t := Tile(FIRST + Total(items), free, true);
      FreesAppend(tiles, [t]);
      assert Allocated([t]) == [] && Allocated(tiles) + [] == Allocated(tiles);
    } else {
      assert tiles + [] == tiles;
    }
  }

  /**
    Pack the heap.  The outcome is a chunk that the allocator can go on with,
    holding a copy of every object, and the copy is isomorphic to the original;
    there is none exactly when memory is short or a pointer leads nowhere.
    Of compiled code this holds of every pointer in whatever operand it is.
  */
  method Pack(ctx: int, chunks: seq<Chunk>, src: map<int, Body>, freeSize: nat, base: int, home: int, available: bool)
    returns (r: Option<Packed>, ghost to: Places)
    requires (forall c <- chunks :: c.heap.Valid()) && Separate(chunks)
    requires Describes(src, Items(chunks)) && CodeOk(src) && ctx in src
    ensures r.Some? <==> available && Closed(src)
    ensures r.Some? ==> fresh(r.value.space) && fresh(r.value.heap) && r.value.heap.Valid()
    ensures r.Some? ==> Isomorphic(src, r.value.space.mem, to, home) && ctx in to && r.value.ctx == to[ctx]
    ensures r.Some? ==> HoldsTiles(base, Allocated(r.value.heap.tiles), r.value.space.mem)
    ensures r.Some? && freeSize == 0 ==> forall u <- r.value.heap.tiles :: !u.free
    ensures AllCompiled(src) ==> (r.Some? <==> available && SelfContained(src))
    ensures AllCompiled(src) && r.Some? ==> AllOver(src, r.value.space.mem, to) && SelfContained(r.value.space.mem)
  {
    hide AllCompiled;
    hide SelfContained;
    hide AllOver;
    hide Heap.Valid;
    hide Items;
    hide Total;
    hide Separate;
    hide Ascending;
    hide Isomorphic;
    hide Closed;
    hide Describes;
    if AllCompiled(src) {
      ClosedIsSelfContained(src);
    }
    var count, size := Count(chunks);
    if !available {
      return None, map[];
    }
    ItemSizes(chunks);
    SomeItem(src, Items(chunks), ctx);
    var heap := MakePackedHeap(size, freeSize);
    var sorted := SortChunks(chunks);
    SameItems(sorted, chunks);
    Limits(chunks);
    StillSeparate(chunks, sorted);
    DescribesAny(src, Items(chunks), Items(sorted));
    r, to := CopyAndAdjust(ctx, sorted, src, heap, FreeRoom(freeSize), base, home, count);
    if AllCompiled(src) && r.Some? {
      AllGoOver(src, r.value.space.mem, to, home);
    }
  }

  lemma SomeItem(src: map<int, Body>, items: seq<Item>, a: int)
    requires Describes(src, items) && a in src
    ensures items != []
  {
  }

  lemma Limits(chunks: seq<Chunk>)
    requires forall c <- chunks :: c.heap.Valid()
    ensures forall c <- chunks :: c.heap.limit > 0
  {
  }
}
