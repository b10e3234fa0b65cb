/**
  Allocation with the collector's own idea of what is live.

  The mark bit of an object is in its header.  Here it appears twice: as the
  object's field, where marking sets it, and as the entry of its chunk's mark
  table, where sweeping reads it.
*/
module Collection {
  import opened Options
  import opened Tiles
  import Heaps
  import opened Memory
  import opened Marking

  /** Every object has a block of its own, and every allocated block is an object's. */
  ghost predicate Placed(place: map<Object, Block>, tiles: seq<seq<Tile>>) {
    && (forall o <- place :: HasBlock(tiles, place[o]))
    && (forall o <- place, p <- place :: place[o] == place[p] ==> o == p)
    && (forall i :: 0 <= i < |tiles| ==> forall t <- tiles[i] :: !t.free ==> exists o :: o in place && place[o] == Block(i, t.addr))
  }

  ghost predicate HasBlock(tiles: seq<seq<Tile>>, b: Block) {
    b.chunk < |tiles| && exists t <- tiles[b.chunk] :: !t.free && t.addr == b.addr
  }

  ghost predicate NoneMarked(heap: set<Object>)
    reads heap
  {
    forall o <- heap :: !o.marked
  }

  ghost predicate FromRoot(heap: set<Object>, root: Value, o: Object) {
    root.Pointer? && Reachable(heap, root.o, o)
  }

  /** The block at `b` is what it was, and apart from the one taken. */
  ghost predicate Stays(before: seq<seq<Tile>>, now: seq<seq<Tile>>, b: Block, r: Option<Block>, size: nat) {
    && b.chunk < |before| && b.chunk < |now|
    && exists t <- before[b.chunk] :: !t.free && t.addr == b.addr && t in now[b.chunk] && Apart(t, NewTile(r, b.chunk, size))
  }

  /** Only the block just taken can be at `b`. */
  ghost predicate Gone(now: seq<seq<Tile>>, b: Block, r: Option<Block>, size: nat) {
    b.chunk < |now| && forall t <- now[b.chunk] :: !t.free && t.addr == b.addr ==> NewTile(r, b.chunk, size) == Some(t)
  }

  ghost predicate Full(tiles: seq<seq<Tile>>, size: nat) {
    forall i :: 0 <= i < |tiles| ==> forall t <- tiles[i] :: t.free ==> t.size < size
  }

  /** What is reachable from the root keeps its block. */
  ghost predicate KeepsRooted(place: map<Object, Block>, root: Value, before: seq<seq<Tile>>, now: seq<seq<Tile>>,
                              r: Option<Block>, size: nat) {
    forall o <- place :: FromRoot(place.Keys, root, o) ==> Stays(before, now, place[o], r, size)
  }

  /** What is not reachable from the root has lost its block. */
  ghost predicate DropsOthers(place: map<Object, Block>, root: Value, now: seq<seq<Tile>>, r: Option<Block>, size: nat) {
    forall o <- place :: !FromRoot(place.Keys, root, o) ==> Gone(now, place[o], r, size)
  }

  /** The addresses of the marked objects, chunk by chunk. */
  function LiveBlocks(place: map<Object, Block>, n: nat): (live: Live)
    reads place.Keys
    ensures |live| == n
  {
    seq(n, i requires 0 <= i < n reads place.Keys => set o | o in place && o.marked && place[o].chunk == i :: place[o].addr)
  }

  lemma LiveIsMarked(place: map<Object, Block>, tiles: seq<seq<Tile>>, o: Object)
    requires Placed(place, tiles) && o in place
    ensures place[o].chunk < |tiles|
    ensures place[o].addr in LiveBlocks(place, |tiles|)[place[o].chunk] <==> o.marked
  {
    assert HasBlock(tiles, place[o]);
  }

  /** The blocks of what is reachable from the root, chunk by chunk. */
  ghost function LiveFrom(place: map<Object, Block>, root: Value, n: nat): (live: Live)
    ensures |live| == n
  {
    seq(n, i requires 0 <= i < n => set o | o in place && FromRoot(place.Keys, root, o) && place[o].chunk == i :: place[o].addr)
  }

  lemma LiveAgrees(place: map<Object, Block>, root: Value, tiles: seq<seq<Tile>>, live: Live, i: nat)
    requires Placed(place, tiles) && i < |live| == |tiles|
    requires forall o <- place :: place[o].chunk < |live| && (place[o].addr in live[place[o].chunk] <==> FromRoot(place.Keys, root, o))
    ensures AgreeOn(tiles[i], live[i], LiveFrom(place, root, |tiles|)[i])
  {
    hide FromRoot;
    forall t <- tiles[i] | !t.free
      ensures t.addr in live[i] <==> t.addr in LiveFrom(place, root, |tiles|)[i]
    {
      var o :| o in place && place[o] == Block(i, t.addr);
      if t.addr in LiveFrom(place, root, |tiles|)[i] {
        var o1 :| o1 in place && FromRoot(place.Keys, root, o1) && place[o1].chunk == i && place[o1].addr == t.addr;
        assert place[o1] == place[o];
      }
    }
  }

  /** Is a chunk to be added when what is not reachable from the root is freed? */
  ghost predicate Crowded(place: map<Object, Block>, root: Value, tiles: seq<seq<Tile>>, total: nat, maxSize: nat, size: nat) {
    GrowthAfter(tiles, LiveFrom(place, root, |tiles|), total, maxSize, size)
  }

  /** The collector's live set says as much about growing as reachability does. */
  lemma SameGrowth(place: map<Object, Block>, root: Value, tiles: seq<seq<Tile>>, live: Live, total: nat, maxSize: nat, size: nat)
    requires Placed(place, tiles) && |live| == |tiles|
    requires forall o <- place :: place[o].chunk < |live| && (place[o].addr in live[place[o].chunk] <==> FromRoot(place.Keys, root, o))
    ensures GrowthAfter(tiles, live, total, maxSize, size) <==> Crowded(place, root, tiles, total, maxSize, size)
  {
    hide Placed;
    hide AgreeOn;
    hide LiveFrom;
    hide FromRoot;
    hide TotalGarbage;
    hide LargestGarbage;
    forall i | 0 <= i < |tiles|
      ensures AgreeOn(tiles[i], live[i], LiveFrom(place, root, |tiles|)[i])
    {
      LiveAgrees(place, root, tiles, live, i);
    }
    GarbageAgrees(tiles, live, LiveFrom(place, root, |tiles|));
  }

  lemma KeptStays(before: seq<seq<Tile>>, now: seq<seq<Tile>>, b: Block, r: Option<Block>, size: nat)
    requires HasBlock(before, b) && |before| <= |now|
    requires Kept(before[b.chunk], now[b.chunk], NewTile(r, b.chunk, size))
    ensures Stays(before, now, b, r, size)
  {
    hide NewTile;
    hide Apart;
    var t :| t in before[b.chunk] && !t.free && t.addr == b.addr;
    assert t in now[b.chunk];
  }

  lemma LiveStays(before: seq<seq<Tile>>, now: seq<seq<Tile>>, b: Block, live: set<nat>, r: Option<Block>, size: nat)
    requires HasBlock(before, b) && |before| <= |now| && b.addr in live
    requires LiveKept(before[b.chunk], now[b.chunk], live, NewTile(r, b.chunk, size))
    ensures Stays(before, now, b, r, size)
  {
    hide NewTile;
    hide Apart;
    var t :| t in before[b.chunk] && !t.free && t.addr == b.addr;
    assert t in now[b.chunk];
  }

  /**
    Allocate, collecting from `root` when there is no room.  What is reachable
    from the root keeps its block, apart from the new one.  When a collection
    was needed, what is not reachable has lost its block.
  */
  method AllocRooted(chain: Memory.Chain, collector: Collector, root: Value, place: map<Object, Block>,
                     request: nat, available: bool) returns (r: Option<Block>)
    requires chain.Valid() && Placed(place, TilesIn(chain.heaps)) && request >= 1
    requires Closed(place.Keys) && InHeap(root, place.Keys) && NoneMarked(place.Keys) && collector.stack == []
    modifies chain, chain.heaps, collector, place.Keys`marked
    ensures chain.Valid() && old(chain.heaps) <= chain.heaps && NoneMarked(place.Keys) && collector.stack == []
    ensures r.None? ==> !available || (chain.maxSize != 0 && TotalSize(old(chain.heaps)) >= chain.maxSize)
    ensures r.None? ==> Full(TilesIn(chain.heaps), Align(request))
    ensures r.Some? ==> r.value.chunk < |chain.heaps|
                        && Tile(r.value.addr, Align(request), false) in chain.heaps[r.value.chunk].tiles
    ensures KeepsRooted(place, root, old(TilesIn(chain.heaps)), TilesIn(chain.heaps), r, Align(request))
    ensures old(Full(TilesIn(chain.heaps), Align(request))) ==>
              DropsOthers(place, root, TilesIn(chain.heaps), r, Align(request))
    ensures |chain.heaps| > |old(chain.heaps)| <==>
              && available && old(Full(TilesIn(chain.heaps), Align(request)))
              && Crowded(place, root, old(TilesIn(chain.heaps)), TotalSize(old(chain.heaps)), chain.maxSize, Align(request))
  {
    hide Crowded;
    hide GrowthAfter;
    hide TotalSize;
    hide Heaps.Heap.Valid;
    hide Kept;
    hide Stays;
    hide Gone;
    hide Full;
    hide Heaps.HasFree;
    hide NoRoom;
    hide Heaps.TakenFrom;
    hide Placed;
    hide HasBlock;
    hide NewTile;
    hide FromRoot;
    var size := Align(request);
    ghost var before := TilesIn(chain.heaps);
    r := chain.TryAlloc(size);
    if r.Some? {
      ghost var now := TilesIn(chain.heaps);
      NotFull(before, r.value.chunk, size);
      PlacedBlocks(place, before);
      forall o <- place
        ensures Stays(before, now, place[o], r, size)
      {
        KeptStays(before, now, place[o], r, size);
      }
    } else {
      assert TilesIn(chain.heaps) == before;
      AllFull(chain.heaps, size);
      r := CollectRooted(chain, collector, root, place, size, available);
    }
  }

  lemma NotFull(tiles: seq<seq<Tile>>, i: nat, size: nat)
    requires i < |tiles| && Heaps.HasFree(tiles[i], size)
    ensures !Full(tiles, size)
  {
  }

  lemma AllFull(heaps: seq<Heaps.Heap>, size: nat)
    requires forall i :: 0 <= i < |heaps| ==> NoRoom(heaps[i], size)
    ensures Full(TilesIn(heaps), size)
  {
  }

  lemma PlacedBlocks(place: map<Object, Block>, tiles: seq<seq<Tile>>)
    requires Placed(place, tiles)
    ensures forall o <- place :: place[o].chunk < |tiles| && HasBlock(tiles, place[o])
  {
  }

  /** Mark from the root, sweep, grow when too little was freed, and try once more. */
  method CollectRooted(chain: Memory.Chain, collector: Collector, root: Value, place: map<Object, Block>,
                       size: nat, available: bool) returns (r: Option<Block>)
    requires chain.Valid() && Placed(place, TilesIn(chain.heaps)) && size % ALIGN == 0 && size >= ALIGN
    requires Closed(place.Keys) && InHeap(root, place.Keys) && NoneMarked(place.Keys) && collector.stack == []
    modifies chain, chain.heaps, collector, place.Keys`marked
    ensures chain.Valid() && old(chain.heaps) <= chain.heaps && NoneMarked(place.Keys) && collector.stack == []
    ensures r.None? ==> !available || (chain.maxSize != 0 && TotalSize(old(chain.heaps)) >= chain.maxSize)
    ensures r.None? ==> Full(TilesIn(chain.heaps), size)
    ensures r.Some? ==> r.value.chunk < |chain.heaps| && Tile(r.value.addr, size, false) in chain.heaps[r.value.chunk].tiles
    ensures KeepsRooted(place, root, old(TilesIn(chain.heaps)), TilesIn(chain.heaps), r, size)
    ensures DropsOthers(place, root, TilesIn(chain.heaps), r, size)
    ensures |chain.heaps| == |old(chain.heaps)| + if available && Crowded(place, root, old(TilesIn(chain.heaps)), TotalSize(old(chain.heaps)), chain.maxSize, size) then 1 else 0
  {
    hide Heaps.Heap.Valid;
    hide Crowded;
    hide GrowthAfter;
    hide TotalSize;
    hide Stays;
    hide Gone;
    hide LiveKept;
    hide OnlyLive;
    hide Full;
    hide NoRoom;
    hide Placed;
    hide HasBlock;
    hide NewTile;
    hide FromRoot;
    ghost var before := TilesIn(chain.heaps);
    PlacedBlocks(place, before);
    var live := FindLive(collector, root, place, |chain.heaps|, before);
    SameGrowth(place, root, before, live, TotalSize(chain.heaps), chain.maxSize, size);
    r := chain.CollectAndRetry(size, live, available);
    if r.None? {
      AllFull(chain.heaps, size);
    }
    ghost var now := TilesIn(chain.heaps);
    forall o <- place
      ensures if FromRoot(place.Keys, root, o) then Stays(before, now, place[o], r, size) else Gone(now, place[o], r, size)
    {
      Outcome(before, now, place[o], live[place[o].chunk], r, size);
    }
    ClearMarks(place);
  }

  /** Mark from the root: the live blocks are those of the objects reachable from it. */
  method FindLive(collector: Collector, root: Value, place: map<Object, Block>, n: nat, ghost tiles: seq<seq<Tile>>)
      returns (live: Live)
    requires Placed(place, tiles) && n == |tiles|
    requires Closed(place.Keys) && InHeap(root, place.Keys) && NoneMarked(place.Keys) && collector.stack == []
    modifies collector, place.Keys`marked
    ensures |live| == n && collector.stack == []
    ensures forall o <- place ::
              place[o].chunk < n && (place[o].addr in live[place[o].chunk] <==> FromRoot(place.Keys, root, o))
  {
    hide Placed;
    hide LiveBlocks;
    Mark(collector, root, place.Keys);
    live := LiveBlocks(place, n);
    forall o <- place
      ensures place[o].chunk < n && (place[o].addr in live[place[o].chunk] <==> FromRoot(place.Keys, root, o))
    {
      LiveIsMarked(place, tiles, o);
    }
  }

  lemma Outcome(before: seq<seq<Tile>>, now: seq<seq<Tile>>, b: Block, live: set<nat>, r: Option<Block>, size: nat)
    requires HasBlock(before, b) && |before| <= |now|
    requires LiveKept(before[b.chunk], now[b.chunk], live, NewTile(r, b.chunk, size))
    requires OnlyLive(before[b.chunk], now[b.chunk], live, NewTile(r, b.chunk, size))
    ensures if b.addr in live then Stays(before, now, b, r, size) else Gone(now, b, r, size)
  {
    if b.addr in live {
      LiveStays(before, now, b, live, r, size);
    }
  }

  /** Sweeping clears the mark of every object it keeps. */
  method ClearMarks(place: map<Object, Block>)
    modifies place.Keys`marked
    ensures NoneMarked(place.Keys)
  {
    forall o | o in place {
      o.marked := false;
    }
  }
}
