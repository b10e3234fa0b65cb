/**
  Heap images: a packed heap written to a file and loaded at another address.
*/
module ImageLoading {
  import opened Options
  import opened Tiles
  import opened Heaps
  import HeapWalk
  import opened HeapPacking
  import opened Relocation
  import opened HeapImages
  import opened Packer

  /** A saved heap: where its first block was, its size, its context, and the objects at their old addresses. */
  datatype Image = Image(base: int, size: nat, context: int, bodies: map<int, Body>)

  // ------------------------------------------------------ a copy has no loose ends

  lemma {:induction false} StaysWellFormed(code: seq<Cell>, code1: seq<Cell>, i: nat, to: Places)
    requires CodeImage(code, code1, to) && WellFormed(code, i)
    ensures WellFormed(code1, i)
    decreases |code| - i
  {
    hide CodeImage;
    hide Spots;
    SameSize(code, code1, to);
    if i < |code| {
      CellStays(code, code1, i, to);
      var n := Operands(code[i].op);
      forall k | 0 <= k < n
        ensures code1[i + 1 + WORD * k].WordC?
      {
        CellStays(code, code1, i + 1 + WORD * k, to);
      }
      StaysWellFormed(code, code1, i + 1 + WORD * n, to);
    }
  }

  lemma SameSize(code: seq<Cell>, code1: seq<Cell>, to: Places)
    requires CodeImage(code, code1, to)
    ensures |code1| == |code|
  {
  }

  lemma CellStays(code: seq<Cell>, code1: seq<Cell>, k: nat, to: Places)
    requires CodeImage(code, code1, to) && k < |code|
    ensures |code1| == |code| && (code[k].OpC? ==> code1[k] == code[k]) && (code[k].WordC? ==> code1[k].WordC?)
  {
    SpotsAhead(code, 0);
  }

  lemma ImagePointsInto(b: Body, b1: Body, to: Places, home: int, objects: set<int>)
    requires BodyImage(b, b1, to, home) && forall a <- to :: to[a] in objects
    ensures PointsInto(b1, objects)
  {
    forall w <- b1.slots
      ensures w.Ptr? ==> w.addr in objects
    {
      var i :| 0 <= i < |b1.slots| && b1.slots[i] == w;
      assert WordImage(b.slots[i], w, to);
    }
    if b.part.Code? {
      var code, code1 := b.part.cells, b1.part.cells;
      SpotsAhead(code, 0);
      StaysWellFormed(code, code1, 0, to);
      SameSpots(code, code1, 0, to);
      forall k <- Spots(code1, 0)
        ensures k < |code1| && code1[k].WordC? && (code1[k].w.Ptr? ==> code1[k].w.addr in objects)
      {
        assert WordImage(code[k].w, code1[k].w, to);
      }
    }
  }

  /** A packed heap refers to nothing outside itself. */
  lemma CopyIsClosed(mem: map<int, Body>, mem1: map<int, Body>, to: Places, home: int)
    requires Isomorphic(mem, mem1, to, home)
    ensures Closed(mem1)
  {
    hide BodyImage;
    hide PointsInto;
    forall y <- mem1
      ensures PointsInto(mem1[y], mem1.Keys)
    {
      assert PlaceOf(to, y);
      var a :| a in to && to[a] == y;
      ImagePointsInto(mem[a], mem1[y], to, home, mem1.Keys);
    }
  }

  // ------------------------------------------------------------------- loading

  /** The same addresses, `delta` further on. */
  function Shift(mem: map<int, Body>, delta: int): Places { map a | a in mem :: a + delta }

  lemma MovedBy(mem: map<int, Body>, delta: int)
    ensures forall a :: a in Shift(mem, delta) ==> Target(Offset(delta), a) == Some(Shift(mem, delta)[a])
    ensures Shift(mem, delta).Keys == mem.Keys
  {
  }

  /** What reading the file puts in memory. */
  function ReadIn(bodies: map<int, Body>, delta: int): map<int, Body> {
    map p | p in Shift(bodies, delta).Values :: bodies[p - delta]
  }

  /** The chunk that the image says it is. */
  ghost predicate Saved(image: Image, tiles: seq<Tile>) {
    && image.size >= ALIGN && image.size % ALIGN == 0 && Tiling(tiles, FIRST, FIRST + image.size)
    && (forall u <- tiles :: !u.free) && HoldsTiles(image.base - FIRST, tiles, image.bodies) && Closed(image.bodies)
  }

  ghost predicate AsRead(bodies: map<int, Body>, mem: map<int, Body>, p: int, delta: int) {
    p in mem && p - delta in bodies && mem[p] == bodies[p - delta]
  }

  ghost predicate AsMoved(bodies: map<int, Body>, mem: map<int, Body>, p: int, delta: int, home: int) {
    p in mem && p - delta in bodies && BodyMoved(bodies[p - delta], mem[p], Offset(delta), home)
  }

  /** The objects from the `i`th on are as they were read, those before it are adjusted. */
  ghost predicate LoadedUpTo(bodies: map<int, Body>, mem: map<int, Body>, base: int, found: seq<Tile>, i: nat, delta: int, home: int) {
    && (forall k :: i <= k < |found| ==> AsRead(bodies, mem, base + found[k].addr, delta))
    && (forall k :: 0 <= k < i && k < |found| ==> AsMoved(bodies, mem, base + found[k].addr, delta, home))
  }

  lemma LoadedNext(bodies: map<int, Body>, mem: map<int, Body>, mem1: map<int, Body>, base: int, found: seq<Tile>, i: nat, delta: int, home: int)
    requires LoadedUpTo(bodies, mem, base, found, i, delta, home) && i < |found|
    requires forall j, k :: 0 <= j < k < |found| ==> found[j].addr < found[k].addr
    requires var p := base + found[i].addr; p in mem && p in mem1 && mem1 == mem[p := mem1[p]] && AsMoved(bodies, mem1, p, delta, home)
    ensures LoadedUpTo(bodies, mem1, base, found, i + 1, delta, home)
  {
    hide BodyMoved;
  }

  /** The objects of a loaded image, each adjusted where it lies. */
  method AdjustLoaded(space: Space, base: int, found: seq<Tile>, delta: int, home: int, ghost bodies: map<int, Body>) returns (ok: bool)
    requires LoadedUpTo(bodies, space.mem, base, found, 0, delta, home) && Closed(bodies)
    requires forall i, j :: 0 <= i < j < |found| ==> found[i].addr < found[j].addr
    modifies space
    ensures ok && space.mem.Keys == old(space.mem.Keys)
    ensures LoadedUpTo(bodies, space.mem, base, found, |found|, delta, home)
  {
    hide BodyMoved;
    hide PointsInto;
    hide BodyLands;
    hide WellFormed;
    hide Target;
    hide LoadedUpTo;
    var i := 0;
    while i < |found|
      invariant 0 <= i <= |found| && space.mem.Keys == old(space.mem.Keys)
      invariant LoadedUpTo(bodies, space.mem, base, found, i, delta, home)
    {
      var p := base + found[i].addr;
      ghost var mem := space.mem;
      NextRead(bodies, mem, base, found, i, delta, home);
      OffsetLands(bodies[p - delta], delta, bodies.Keys);
      ok := AdjustObject(space, p, Offset(delta), home);
      if !ok {
        return;
      }
      LoadedNext(bodies, mem, space.mem, base, found, i, delta, home);
      i := i + 1;
    }
    ok := true;
  }

  lemma NextRead(bodies: map<int, Body>, mem: map<int, Body>, base: int, found: seq<Tile>, i: nat, delta: int, home: int)
    requires LoadedUpTo(bodies, mem, base, found, i, delta, home) && i < |found|
    ensures AsRead(bodies, mem, base + found[i].addr, delta)
  {
  }

  lemma OffsetLands(b: Body, delta: int, objects: set<int>)
    requires PointsInto(b, objects)
    ensures b.part.Code? ==> WellFormed(b.part.cells, 0)
    ensures BodyLands(b, Offset(delta))
  {
  }

  lemma HeldAt(base: int, tiles: seq<Tile>, mem: map<int, Body>, k: nat)
    requires HoldsTiles(base, tiles, mem) && k < |tiles|
    ensures HoldsTile(base, tiles[k], mem)
  {
    hide OnlyHeld;
    assert tiles[k] in tiles;
  }

  lemma HolderOf(base: int, tiles: seq<Tile>, mem: map<int, Body>, a: int) returns (k: nat)
    requires HoldsTiles(base, tiles, mem) && a in mem
    ensures k < |tiles| && base + tiles[k].addr == a
  {
    hide Held;
    var u :| u in tiles && base + u.addr == a;
    k :| k < |tiles| && tiles[k] == u;
  }

  lemma ReadKeys(bodies: map<int, Body>, delta: int, a: int)
    ensures a + delta in ReadIn(bodies, delta) <==> a in bodies
    ensures a in bodies ==> ReadIn(bodies, delta)[a + delta] == bodies[a]
  {
    if a + delta in ReadIn(bodies, delta) {
      var b :| b in bodies && b + delta == a + delta;
    }
    if a in bodies {
      assert Shift(bodies, delta)[a] == a + delta;
    }
  }

  lemma MovedAt(bodies: map<int, Body>, mem: map<int, Body>, base: int, tiles: seq<Tile>, delta: int, home: int, k: nat)
    requires LoadedUpTo(bodies, mem, base, tiles, |tiles|, delta, home) && k < |tiles|
    ensures AsMoved(bodies, mem, base + tiles[k].addr, delta, home)
  {
  }

  lemma ClosedAt(mem: map<int, Body>, a: int)
    requires Closed(mem) && a in mem
    ensures PointsInto(mem[a], mem.Keys)
  {
  }

  lemma ObjectLoaded(bodies: map<int, Body>, mem: map<int, Body>, base: int, tiles: seq<Tile>, delta: int, home: int, a: int)
    requires LoadedUpTo(bodies, mem, base, tiles, |tiles|, delta, home) && Closed(bodies) && HoldsTiles(base - delta, tiles, bodies) && a in bodies
    ensures a + delta in mem && BodyImage(bodies[a], mem[a + delta], Shift(bodies, delta), home)
  {
    hide BodyMoved;
    hide BodyImage;
    hide PointsInto;
    hide Target;
    hide HoldsTiles;
    hide LoadedUpTo;
    hide Closed;
    hide Shift;
    var k := HolderOf(base - delta, tiles, bodies, a);
    MovedAt(bodies, mem, base, tiles, delta, home, k);
    MovedBy(bodies, delta);
    ClosedAt(bodies, a);
    MovedIsImage(bodies[a], mem[a + delta], Offset(delta), Shift(bodies, delta), home);
  }

  lemma BlocksLoaded(bodies: map<int, Body>, mem: map<int, Body>, base: int, tiles: seq<Tile>, delta: int, home: int)
    requires LoadedUpTo(bodies, mem, base, tiles, |tiles|, delta, home) && HoldsTiles(base - delta, tiles, bodies)
    requires mem.Keys == ReadIn(bodies, delta).Keys
    ensures HoldsTiles(base, tiles, mem)
  {
    hide LoadedUpTo;
    hide ReadIn;
    hide Held;
    hide OnlyHeld;
    AllLoaded(bodies, mem, base, tiles, delta, home);
    OnlyLoaded(bodies, mem, base, tiles, delta);
  }

  lemma AllLoaded(bodies: map<int, Body>, mem: map<int, Body>, base: int, tiles: seq<Tile>, delta: int, home: int)
    requires LoadedUpTo(bodies, mem, base, tiles, |tiles|, delta, home) && HoldsTiles(base - delta, tiles, bodies)
    ensures Held(base, tiles, mem)
  {
    hide LoadedUpTo;
    hide HoldsTiles;
    forall u <- tiles
      ensures HoldsTile(base, u, mem)
    {
      BlockLoaded(bodies, mem, base, tiles, delta, home, u);
    }
  }

  lemma OnlyLoaded(bodies: map<int, Body>, mem: map<int, Body>, base: int, tiles: seq<Tile>, delta: int)
    requires HoldsTiles(base - delta, tiles, bodies) && mem.Keys == ReadIn(bodies, delta).Keys
    ensures OnlyHeld(base, tiles, mem)
  {
    hide ReadIn;
    hide HoldsTiles;
    forall a <- mem
      ensures exists u <- tiles :: base + u.addr == a
    {
      HolderLoaded(bodies, mem, base, tiles, delta, a);
    }
  }

  lemma BlockLoaded(bodies: map<int, Body>, mem: map<int, Body>, base: int, tiles: seq<Tile>, delta: int, home: int, u: Tile)
    requires LoadedUpTo(bodies, mem, base, tiles, |tiles|, delta, home) && HoldsTiles(base - delta, tiles, bodies) && u in tiles
    ensures HoldsTile(base, u, mem)
  {
    hide *;
    var k: nat :| k < |tiles| && tiles[k] == u;
    HeldAt(base - delta, tiles, bodies, k);
    MovedAt(bodies, mem, base, tiles, delta, home, k);
    StillHeld(bodies, mem, base, u, delta, home);
  }

  lemma StillHeld(bodies: map<int, Body>, mem: map<int, Body>, base: int, u: Tile, delta: int, home: int)
    requires HoldsTile(base - delta, u, bodies) && AsMoved(bodies, mem, base + u.addr, delta, home)
    ensures HoldsTile(base, u, mem)
  {
    hide AsMoved;
    hide Align;
    BytesStay(bodies, mem, base + u.addr, delta, home);
  }

  lemma BytesStay(bodies: map<int, Body>, mem: map<int, Body>, p: int, delta: int, home: int)
    requires AsMoved(bodies, mem, p, delta, home)
    ensures p in mem && p - delta in bodies && mem[p].bytes == bodies[p - delta].bytes
  {
    hide BodyMoved;
    MovedBytes(bodies[p - delta], mem[p], Offset(delta), home);
  }

  lemma HolderLoaded(bodies: map<int, Body>, mem: map<int, Body>, base: int, tiles: seq<Tile>, delta: int, a: int)
    requires HoldsTiles(base - delta, tiles, bodies) && mem.Keys == ReadIn(bodies, delta).Keys && a in mem
    ensures exists u <- tiles :: base + u.addr == a
  {
    hide HoldsTiles;
    hide ReadIn;
    ReadKeys(bodies, delta, a - delta);
    var k := HolderOf(base - delta, tiles, bodies, a - delta);
    assert tiles[k] in tiles;
  }

  lemma LoadedIsImage(bodies: map<int, Body>, mem: map<int, Body>, base: int, tiles: seq<Tile>, delta: int, home: int)
    requires LoadedUpTo(bodies, mem, base, tiles, |tiles|, delta, home) && Closed(bodies) && HoldsTiles(base - delta, tiles, bodies)
    requires mem.Keys == ReadIn(bodies, delta).Keys
    ensures Isomorphic(bodies, mem, Shift(bodies, delta), home) && HoldsTiles(base, tiles, mem)
  {
    hide BodyImage;
    hide Closed;
    hide HoldsTiles;
    hide LoadedUpTo;
    hide ReadIn;
    hide Onto;
    var to := Shift(bodies, delta);
    forall a <- bodies
      ensures to[a] in mem && BodyImage(bodies[a], mem[to[a]], to, home)
    {
      ObjectLoaded(bodies, mem, base, tiles, delta, home, a);
    }
    ShiftFills(bodies, delta);
    BlocksLoaded(bodies, mem, base, tiles, delta, home);
  }

  lemma ShiftFills(bodies: map<int, Body>, delta: int)
    ensures Onto(Shift(bodies, delta), ReadIn(bodies, delta).Keys)
  {
    var to := Shift(bodies, delta);
    forall y <- ReadIn(bodies, delta).Keys
      ensures PlaceOf(to, y)
    {
      ReadKeys(bodies, delta, y - delta);
      assert to[y - delta] == y;
    }
    forall a <- to
      ensures to[a] in ReadIn(bodies, delta)
    {
      ReadKeys(bodies, delta, a);
    }
  }

  // ------------------------------------------------------------- the loaded chunk

  lemma {:induction false} TilesAgain(tiles: seq<Tile>, lo: nat, hi: nat)
    requires Tiling(tiles, lo, hi) && (forall u <- tiles :: !u.free) && lo % ALIGN == 0
    ensures TilesOf(ItemsAt(0, tiles), lo) == tiles && Total(ItemsAt(0, tiles)) == hi - lo && AlignedSizes(ItemsAt(0, tiles))
    decreases |tiles|
  {
    if tiles != [] {
      TilesAgain(tiles[1..], lo + tiles[0].size, hi);
      assert ItemsAt(0, tiles)[1..] == ItemsAt(0, tiles[1..]);
      assert forall x <- ItemsAt(0, tiles) :: x == ItemsAt(0, tiles)[0] || x in ItemsAt(0, tiles[1..]);
    }
  }

  /** What the chunk can tell of the sizes of its objects. */
  function SizesIn(image: Image, limit: nat): (sizes: seq<nat>)
    ensures |sizes| == limit
  {
    seq(limit, (i: nat) => SizeAt(image, i))
  }

  function SizeAt(image: Image, i: nat): nat {
    var a := image.base - FIRST + i;
    if a in image.bodies then image.bodies[a].bytes else 0
  }

  /** Read the sizes of the objects into the chunk: it is then divided as the saved one was. */
  method Fill(heap: Heap, image: Image, free: nat, ghost tiles: seq<Tile>)
    requires Saved(image, tiles) && Empty(heap, image.size, free)
    modifies heap
    ensures heap.Valid() && Allocated(heap.tiles) == tiles
  {
    hide Divided;
    hide Tiling;
    hide Closed;
    hide HoldsTiles;
    hide Total;
    hide TilesOf;
    hide SizesMatch;
    hide PackedTiles;
    ghost var items := ItemsAt(0, tiles);
    TilesAgain(tiles, FIRST, FIRST + image.size);
    heap.bytes := SizesIn(image, heap.limit);
    TilingBounds(tiles, FIRST, FIRST + image.size);
    SizesRead(heap, image, tiles);
    PackedDivided(items, free, heap.limit, heap.sizes, heap.nexts, heap.bytes);
    heap.tiles := PackedTiles(items, free);
    NowValid(heap);
  }

  lemma SizesRead(heap: Heap, image: Image, tiles: seq<Tile>)
    requires HoldsTiles(image.base - FIRST, tiles, image.bodies) && TilesOf(ItemsAt(0, tiles), FIRST) == tiles && AlignedSizes(ItemsAt(0, tiles))
    requires heap.bytes == SizesIn(image, heap.limit) && forall u <- tiles :: u.addr < heap.limit
    ensures SizesMatch(ItemsAt(0, tiles), heap.bytes)
  {
    hide Total;
    hide TilesOf;
    hide HoldsTiles;
    hide AlignedSizes;
    hide Align;
    var items := ItemsAt(0, tiles);
    forall i | 0 <= i < |items|
      ensures FIRST + Total(items[..i]) < |heap.bytes| && Align(heap.bytes[FIRST + Total(items[..i])]) == items[i].size
    {
      SizeRead(heap, image, tiles, i);
    }
  }

  lemma SizeRead(heap: Heap, image: Image, tiles: seq<Tile>, i: nat)
    requires HoldsTiles(image.base - FIRST, tiles, image.bodies) && TilesOf(ItemsAt(0, tiles), FIRST) == tiles && AlignedSizes(ItemsAt(0, tiles))
    requires heap.bytes == SizesIn(image, heap.limit) && (forall u <- tiles :: u.addr < heap.limit) && i < |tiles|
    ensures FIRST + Total(ItemsAt(0, tiles)[..i]) < heap.limit
    ensures Align(heap.bytes[FIRST + Total(ItemsAt(0, tiles)[..i])]) == ItemsAt(0, tiles)[i].size
  {
    hide Total;
    hide TilesOf;
    hide Tiling;
    hide HoldsTiles;
    hide Align;
    TilesOfAt(ItemsAt(0, tiles), FIRST);
    HeldAt(image.base - FIRST, tiles, image.bodies, i);
    assert tiles[i] in tiles;
  }

  /**
    Load an image: the chunk is one that the allocator can go on with, and its
    objects are those of the image, every pointer changed by the same amount.
  */
  method Load(image: Image, freeSize: nat, base: int, home: int, available: bool, ghost tiles: seq<Tile>) returns (r: Option<Packed>)
    requires Saved(image, tiles)
    ensures r.Some? <==> available
    ensures r.Some? ==> fresh(r.value.space) && fresh(r.value.heap) && r.value.heap.Valid()
    ensures r.Some? ==> var delta := base + FIRST - image.base;
              && Isomorphic(image.bodies, r.value.space.mem, Shift(image.bodies, delta), home)
              && r.value.ctx == image.context + delta && HoldsTiles(base, Allocated(r.value.heap.tiles), r.value.space.mem)
    ensures r.Some? && AllCompiled(image.bodies) ==>
              && AllOver(image.bodies, r.value.space.mem, Shift(image.bodies, base + FIRST - image.base))
              && SelfContained(r.value.space.mem)
  {
    hide AllCompiled;
    hide SelfContained;
    hide AllOver;
    hide Heap.Valid;
    hide Closed;
    hide Tiling;
    hide Allocated;
    hide HoldsTiles;
    hide Isomorphic;
    hide LoadedUpTo;
    hide ReadIn;
    hide Shift;
    if !available {
      return None;
    }
    var heap := MakePackedHeap(image.size, freeSize);
    Fill(heap, image, FreeRoom(freeSize), tiles);
    var delta := base + FIRST - image.base;
    var space := new Space();
    space.mem := ReadIn(image.bodies, delta);
    var found := HeapWalk.Walk(heap);
    JustRead(image, tiles, base, delta, home);
    SavedTiles(image, tiles);
    assert image.base - FIRST == base - delta;
    var ok := AdjustLoaded(space, base, found, delta, home, image.bodies);
    if !ok {
      return None;
    }
    LoadedIsImage(image.bodies, space.mem, base, tiles, delta, home);
    if AllCompiled(image.bodies) {
      AllGoOver(image.bodies, space.mem, Shift(image.bodies, delta), home);
    }
    r := Some(Packed(image.context + delta, space, heap));
  }

  lemma JustRead(image: Image, tiles: seq<Tile>, base: int, delta: int, home: int)
    requires Saved(image, tiles) && delta == base + FIRST - image.base
    ensures LoadedUpTo(image.bodies, ReadIn(image.bodies, delta), base, tiles, 0, delta, home)
  {
    hide Tiling;
    hide Closed;
    hide HoldsTiles;
    hide ReadIn;
    hide AsRead;
    assert image.base - FIRST == base - delta;
    forall k: nat | k < |tiles|
      ensures AsRead(image.bodies, ReadIn(image.bodies, delta), base + tiles[k].addr, delta)
    {
      OneRead(image.bodies, tiles, base, delta, k);
    }
  }

  lemma SavedTiles(image: Image, tiles: seq<Tile>)
    requires Saved(image, tiles)
    ensures forall i, j :: 0 <= i < j < |tiles| ==> tiles[i].addr < tiles[j].addr
    ensures HoldsTiles(image.base - FIRST, tiles, image.bodies) && Closed(image.bodies)
  {
    hide Tiling;
    hide Closed;
    hide HoldsTiles;
    AllocatedInOrder(tiles, FIRST, FIRST + image.size);
    AllAllocated(tiles);
  }

  lemma OneRead(bodies: map<int, Body>, tiles: seq<Tile>, base: int, delta: int, k: nat)
    requires HoldsTiles(base - delta, tiles, bodies) && k < |tiles|
    ensures AsRead(bodies, ReadIn(bodies, delta), base + tiles[k].addr, delta)
  {
    hide HoldsTiles;
    hide ReadIn;
    HeldAt(base - delta, tiles, bodies, k);
    ReadKeys(bodies, delta, base - delta + tiles[k].addr);
  }

  // --------------------------------------------------------- saving and loading

  lemma {:induction false} HasImage(src: map<int, Body>, mem: map<int, Body>, to: Places, home: int, a: int)
    requires Isomorphic(src, mem, to, home) && a in src
    ensures a in to && to[a] in mem
  {
    hide BodyImage;
  }

  lemma {:induction false} SavedHeap(src: map<int, Body>, r: Packed, to: Places, home: int, base: int, a: int)
    requires r.heap.Valid() && Isomorphic(src, r.space.mem, to, home) && a in src
    requires HoldsTiles(base, Allocated(r.heap.tiles), r.space.mem) && forall u <- r.heap.tiles :: !u.free
    ensures Saved(Image(base + FIRST, r.heap.limit - FIRST, r.ctx, r.space.mem), r.heap.tiles)
  {
    hide HoldsTiles;
    hide Closed;
    hide Isomorphic;
    var tiles := r.heap.tiles;
    HasImage(src, r.space.mem, to, home, a);
    AllAllocated(tiles);
    CopyIsClosed(src, r.space.mem, to, home);
    TilingBounds(tiles, FIRST, r.heap.limit);
    var k := HolderOf(base, tiles, r.space.mem, to[a]);
    assert tiles[k] in tiles;
  }

  /**
    Save the heap as an image and load it anywhere: what comes back is
    isomorphic to the heap that was saved, and its context is the context.
  */
  method SaveAndLoad(ctx: int, chunks: seq<Chunk>, src: map<int, Body>, base: int, home: int,
                     freeSize: nat, base1: int, home1: int) returns (r: Option<Packed>, ghost to: Places)
    requires (forall c <- chunks :: c.heap.Valid()) && Separate(chunks)
    requires Describes(src, Items(chunks)) && CodeOk(src) && ctx in src
    ensures r.Some? <==> Closed(src)
    ensures r.Some? ==> r.value.heap.Valid() && HoldsTiles(base1, Allocated(r.value.heap.tiles), r.value.space.mem)
    ensures r.Some? ==> Isomorphic(src, r.value.space.mem, to, home1) && ctx in to && r.value.ctx == to[ctx]
    ensures AllCompiled(src) ==> (r.Some? <==> SelfContained(src))
    ensures AllCompiled(src) && r.Some? ==> AllOver(src, r.value.space.mem, to) && SelfContained(r.value.space.mem)
  {
    hide AllCompiled;
    hide SelfContained;
    hide AllOver;
    hide Heap.Valid;
    hide Closed;
    hide HoldsTiles;
    hide Isomorphic;
    hide Separate;
    hide Describes;
    hide CodeOk;
    hide Saved;
    hide Allocated;
    hide Items;
    var packed, places := Pack(ctx, chunks, src, 0, base, home, true);
    to := map[];
    if packed.None? {
      return None, to;
    }
    var heap, mem := packed.value.heap, packed.value.space.mem;
    SavedHeap(src, packed.value, places, home, base, ctx);
    var image := Image(base + FIRST, SizeOf(heap), packed.value.ctx, mem);
    r := Load(image, freeSize, base1, home1, true, heap.tiles);
    to := Composed(src, mem, r.value.space.mem, places, base1 + FIRST - image.base, home, home1, ctx);
    if AllCompiled(src) {
      AllGoOver(src, r.value.space.mem, to, home1);
    }
  }

  function SizeOf(heap: Heap): (size: nat)
    requires heap.Valid()
    reads heap
    ensures size == heap.limit - FIRST
  {
    heap.limit - FIRST
  }

  lemma Composed(src: map<int, Body>, mem: map<int, Body>, mem1: map<int, Body>, to: Places, delta: int, home: int, home1: int, a: int)
    returns (on: Places)
    requires Isomorphic(src, mem, to, home) && Isomorphic(mem, mem1, Shift(mem, delta), home1) && a in src
    ensures Isomorphic(src, mem1, on, home1) && a in on && on[a] == to[a] + delta
  {
    hide BodyImage;
    IsomorphicThrough(src, mem, mem1, to, Shift(mem, delta), home, home1);
    on := Through(to, Shift(mem, delta));
  }
}
