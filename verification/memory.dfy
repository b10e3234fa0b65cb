/**
  The chain of heap chunks: allocation that collects and grows when it has to.
*/
module Memory {
  import opened Options
  import opened Tiles
  import opened Runs
  import opened Heaps

  ghost predicate Distinct(heaps: seq<Heap>) {
    forall i, j :: 0 <= i < j < |heaps| ==> heaps[i] != heaps[j]
  }

  function TotalSize(heaps: seq<Heap>): nat {
    if heaps == [] then 0 else TotalSize(heaps[..|heaps| - 1]) + heaps[|heaps| - 1].limit
  }

  /** A block of memory: a chunk and an address in it. */
  datatype Block = Block(chunk: nat, addr: nat)

  /** Which objects the marking phase found to be live, as addresses in each chunk. */
  type Live = seq<set<nat>>

  /** Total size of the allocated blocks in all chunks that are not live. */
  function TotalGarbage(tiles: seq<seq<Tile>>, live: Live): nat
    requires |live| == |tiles|
  {
    if tiles == [] then 0
    else
      var n := |tiles| - 1;
      TotalGarbage(tiles[..n], live[..n]) + Garbage(tiles[n], live[n])
  }

  /** The largest block that collecting all chunks frees. */
  function LargestGarbage(tiles: seq<seq<Tile>>, live: Live): nat
    requires |live| == |tiles|
  {
    if tiles == [] then 0
    else
      var n := |tiles| - 1;
      LargestRun(tiles[n], live[n], 0, false, LargestGarbage(tiles[..n], live[..n]))
  }

  lemma DoubledFits(last: nat, size: nat)
    requires size >= ALIGN
    ensures var n := Align(if last > size then last else size);
            2 * n == Doubled(last, size) && (2 * n) % ALIGN == 0 && 2 * n >= 2 * ALIGN && 2 * n - ALIGN >= size
  {
  }

  ghost function MarkedIn(heaps: seq<Heap>): (live: Live)
    reads heaps
    ensures |live| == |heaps| && forall j :: 0 <= j < |heaps| ==> live[j] == Marked(heaps[j].marks)
  {
    seq(|heaps|, j requires 0 <= j < |heaps| reads heaps => Marked(heaps[j].marks))
  }

  /** The chunks before the `i`th, and the `i`th. */
  lemma NextGarbage(tiles: seq<seq<Tile>>, live: Live, i: nat)
    requires |live| == |tiles| && i < |tiles|
    ensures TotalGarbage(tiles[..i + 1], live[..i + 1]) == TotalGarbage(tiles[..i], live[..i]) + Garbage(tiles[i], live[i])
    ensures LargestGarbage(tiles[..i + 1], live[..i + 1]) == LargestRun(tiles[i], live[i], 0, false, LargestGarbage(tiles[..i], live[..i]))
  {
    assert tiles[..i + 1][..i] == tiles[..i] && live[..i + 1][..i] == live[..i];
  }

  lemma NoGarbage(tiles: seq<seq<Tile>>, live: Live)
    requires tiles == [] && live == []
    ensures TotalGarbage(tiles, live) == 0 && LargestGarbage(tiles, live) == 0
  {
  }

  /** Only what is live among the allocated blocks matters. */
  lemma {:induction false} GarbageAgrees(tiles: seq<seq<Tile>>, live: Live, live1: Live)
    requires |live| == |live1| == |tiles|
    requires forall i :: 0 <= i < |tiles| ==> AgreeOn(tiles[i], live[i], live1[i])
    ensures TotalGarbage(tiles, live) == TotalGarbage(tiles, live1)
    ensures LargestGarbage(tiles, live) == LargestGarbage(tiles, live1)
    decreases |tiles|
  {
    if tiles != [] {
      var n := |tiles| - 1;
      GarbageAgrees(tiles[..n], live[..n], live1[..n]);
      Agree(tiles[n], live[n], live1[n], 0, false, LargestGarbage(tiles[..n], live[..n]));
    }
  }

  ghost predicate AgreeOn(tiles: seq<Tile>, live: set<nat>, live1: set<nat>) {
    forall t <- tiles :: !t.free ==> (t.addr in live <==> t.addr in live1)
  }

  /**
    Is a chunk to be added?  When no block as large as the request was freed,
    or more than three quarters of the memory are in use, and the limit is not reached.
  */
  predicate GrowthDue(largest: nat, freed: nat, total: nat, maxSize: nat, size: nat) {
    && (largest < size || (total > freed && total - freed > total * 3 / 4))
    && (maxSize == 0 || total < maxSize)
  }

  /** The size of a chunk added after one of the given size. */
  function Doubled(last: nat, size: nat): nat {
    if last > size then 2 * Align(last) else 2 * Align(size)
  }

  class Chain {
    var heaps: seq<Heap>
    const maxSize: nat

    ghost predicate Valid()
      reads this, heaps
    {
      heaps != [] && Distinct(heaps) && forall i :: 0 <= i < |heaps| ==> heaps[i].Valid()
    }

    constructor (first: Heap, maxSize: nat)
      requires first.Valid()
      ensures Valid() && heaps == [first] && this.maxSize == maxSize
    {
      heaps := [first];
      this.maxSize := maxSize;
    }

    /** First fit in the first chunk that has room. */
    method TryAlloc(size: nat) returns (r: Option<Block>)
      requires Valid() && size % ALIGN == 0 && size >= ALIGN
      modifies heaps
      ensures Valid()
      ensures forall i :: 0 <= i < |heaps| && (r.None? || i != r.value.chunk) ==> Same(heaps[i])
      ensures forall i :: 0 <= i < |heaps| && (r.None? || i < r.value.chunk) ==> NoRoom(heaps[i], size)
      ensures r.Some? ==> r.value.chunk < |heaps| && TakenFrom(heaps[r.value.chunk], r.value.addr, size)
                          && HasFree(old(heaps[r.value.chunk].tiles), size)
      ensures forall i :: 0 <= i < |heaps| ==> Kept(old(heaps[i].tiles), heaps[i].tiles, NewTile(r, i, size))
      ensures r.Some? ==> Tile(r.value.addr, size, false) in heaps[r.value.chunk].tiles
    {
      hide Heap.Valid;
      hide NoRoom;
      hide FirstFit;
      hide Carve;
      hide Kept;
      hide HasFree;
      var i := 0;
      while i < |heaps|
        invariant 0 <= i <= |heaps| && Valid()
        invariant forall j :: 0 <= j < |heaps| ==> Same(heaps[j])
        invariant forall j :: 0 <= j < i ==> NoRoom(heaps[j], size)
      {
        var a := AllocIn(i, size);
        if a.Some? {
          AllKept(old(TilesIn(heaps)), TilesIn(heaps), i);
          return Some(Block(i, a.value));
        }
        i := i + 1;
      }
      AllKept(old(TilesIn(heaps)), TilesIn(heaps), |heaps|);
      return None;
    }

    method AllocIn(i: nat, size: nat) returns (r: Option<nat>)
      requires Valid() && i < |heaps| && size % ALIGN == 0 && size >= ALIGN
      modifies heaps[i]
      ensures Valid() && forall j :: 0 <= j < |heaps| && j != i ==> Same(heaps[j])
      ensures r.None? ==> Same(heaps[i]) && NoRoom(heaps[i], size)
      ensures r.Some? ==> TakenFrom(heaps[i], r.value, size) && HasFree(old(heaps[i].tiles), size)
                          && Tile(r.value, size, false) in heaps[i].tiles
                          && Kept(old(heaps[i].tiles), heaps[i].tiles, Some(Tile(r.value, size, false)))
    {
      Parted(heaps[i]);
      hide Heap.Valid;
      hide FirstFit;
      hide Carve;
      ghost var t0 := heaps[i].tiles;
      r := heaps[i].TryAlloc(size);
      if r.Some? {
        ghost var k: nat :| FirstFit(t0, k, size) && r.value == t0[k].addr && heaps[i].tiles == Carve(t0, k, size);
        CarveKeeps(t0, k, size, heaps[i].limit);
      }
    }

    /** Sweep every chunk: the largest block freed, and the total freed. */
    method SweepAll() returns (maxFreed: nat, sumFreed: nat)
      requires Valid()
      modifies heaps
      ensures Valid() && forall i :: 0 <= i < |heaps| ==> Swept(heaps[i])
      ensures sumFreed == TotalGarbage(old(TilesIn(heaps)), old(MarkedIn(heaps)))
      ensures maxFreed == LargestGarbage(old(TilesIn(heaps)), old(MarkedIn(heaps)))
      ensures maxFreed == 0 || exists i :: 0 <= i < |heaps| && HasFree(heaps[i].tiles, maxFreed)
    {
      hide Heap.Valid;
      hide HasFree;
      hide Cleared;
      hide Survivors;
      hide Allocated;
      hide Garbage;
      hide LargestRun;
      hide IsRun;
      hide Marked;
      hide TotalGarbage;
      hide LargestGarbage;
      hide TilesIn;
      hide MarkedIn;
      maxFreed, sumFreed := 0, 0;
      ghost var tiles, live := TilesIn(heaps), MarkedIn(heaps);
      NoGarbage(tiles[..0], live[..0]);
      var i := 0;
      while i < |heaps|
        invariant 0 <= i <= |heaps| && Valid()
        invariant forall j :: 0 <= j < i ==> Swept(heaps[j])
        invariant forall j :: i <= j < |heaps| ==> Same(heaps[j])
        invariant sumFreed == TotalGarbage(tiles[..i], live[..i]) && maxFreed == LargestGarbage(tiles[..i], live[..i])
        invariant maxFreed == 0 || exists j :: 0 <= j < i && HasFree(heaps[j].tiles, maxFreed)
      {
        NextGarbage(tiles, live, i);
        maxFreed, sumFreed := heaps[i].Sweep(maxFreed, sumFreed);
        i := i + 1;
      }
      assert tiles[..i] == tiles && live[..i] == live;
    }

    /** The outcome of the marking phase: the live objects are marked. */
    method MarkLive(live: Live)
      requires Valid() && |live| == |heaps|
      modifies heaps
      ensures Valid()
      ensures forall i :: 0 <= i < |heaps| ==> MarkedExactly(heaps[i], live[i])
    {
      hide Divided;
      var i := 0;
      while i < |heaps|
        invariant 0 <= i <= |heaps| && Valid()
        invariant forall j :: 0 <= j < i ==> MarkedExactly(heaps[j], live[j])
        invariant forall j :: i <= j < |heaps| ==> Same(heaps[j])
      {
        var h := heaps[i];
        h.marks := seq(h.limit, a => a in live[i]);
        i := i + 1;
      }
    }

    /** Append a chunk of twice the larger of the last chunk and the request, if memory is available. */
    method Grow(size: nat, available: bool)
      requires Valid() && size % ALIGN == 0 && size >= ALIGN
      modifies this
      ensures Valid() && old(heaps) <= heaps
      ensures available ==> |heaps| == |old(heaps)| + 1 && HasFree(heaps[|heaps| - 1].tiles, size)
      ensures !available ==> heaps == old(heaps)
      ensures forall i :: |old(heaps)| <= i < |heaps| ==> heaps[i].limit == Doubled(old(heaps)[|old(heaps)| - 1].limit, size)
      ensures forall i :: |old(heaps)| <= i < |heaps| ==> fresh(heaps[i]) && Allocated(heaps[i].tiles) == []
    {
      hide Heap.Valid;
      hide HasFree;
      var last := heaps[|heaps| - 1];
      var newSize := 2 * Align(if last.limit > size then last.limit else size);
      DoubledFits(last.limit, size);
      hide Align;
      hide Doubled;
      if available {
        var h := new Heap(newSize);
        OneFree(h.tiles, size);
        heaps := heaps + [h];
      }
    }

    /**
      Allocate, collecting and growing when there is no room.  Failure means
      that no memory was to be had or that the limit was reached: with a large
      enough block freed or a chunk added the second attempt cannot fail.
      Live objects stay where they are, and apart from the new block.
    */
    method Alloc(request: nat, live: Live, available: bool) returns (r: Option<Block>)
      requires Valid() && request >= 1 && |live| == |heaps|
      modifies this, heaps
      ensures Valid() && old(heaps) <= heaps
      ensures r.None? ==> !available || (maxSize != 0 && TotalSize(old(heaps)) >= maxSize)
      ensures r.None? ==> forall i :: 0 <= i < |heaps| ==> NoRoom(heaps[i], Align(request))
      ensures r.Some? ==> r.value.chunk < |heaps| && Tile(r.value.addr, Align(request), false) in heaps[r.value.chunk].tiles
      ensures forall i :: 0 <= i < |live| ==>
                LiveKept(old(heaps[i].tiles), heaps[i].tiles, live[i], NewTile(r, i, Align(request)))
    {
      hide Heap.Valid;
      hide TakenFrom;
      hide NoRoom;
      hide HasFree;
      var size := Align(request);
      r := TryAlloc(size);
      if r.None? {
        r := CollectAndRetry(size, live, available);
      }
    }

    /** Collect, grow when too little was freed, and try once more. */
    method CollectAndRetry(size: nat, live: Live, available: bool) returns (r: Option<Block>)
      requires Valid() && size % ALIGN == 0 && size >= ALIGN && |live| == |heaps|
      modifies this, heaps
      ensures Valid() && old(heaps) <= heaps
      ensures r.None? ==> !available || (maxSize != 0 && TotalSize(old(heaps)) >= maxSize)
      ensures r.None? ==> forall i :: 0 <= i < |heaps| ==> NoRoom(heaps[i], size)
      ensures r.Some? ==> r.value.chunk < |heaps| && Tile(r.value.addr, size, false) in heaps[r.value.chunk].tiles
      ensures forall i :: 0 <= i < |live| ==>
                LiveKept(old(heaps[i].tiles), heaps[i].tiles, live[i], NewTile(r, i, size))
      ensures forall i :: 0 <= i < |live| ==>
                OnlyLive(old(heaps[i].tiles), heaps[i].tiles, live[i], NewTile(r, i, size))
      ensures forall i :: |live| <= i < |heaps| ==> OnlyLive([], heaps[i].tiles, {}, NewTile(r, i, size))
      ensures |heaps| == |old(heaps)| + if available && GrowthAfter(old(TilesIn(heaps)), live, TotalSize(old(heaps)), maxSize, size) then 1 else 0
      ensures forall i :: |live| <= i < |heaps| ==> heaps[i].limit == Doubled(old(heaps)[|live| - 1].limit, size)
    {
      hide Heap.Valid;
      hide HasFree;
      hide TakenFrom;
      hide NoRoom;
      hide Kept;
      hide LiveKept;
      hide OnlyLive;
      hide Allocated;
      hide GrowthAfter;
      CollectAndGrow(size, live, available);
      label Grown:
      r := TryAlloc(size);
      forall i | 0 <= i < |live|
        ensures LiveKept(old(heaps[i].tiles), heaps[i].tiles, live[i], NewTile(r, i, size))
        ensures OnlyLive(old(heaps[i].tiles), heaps[i].tiles, live[i], NewTile(r, i, size))
      {
        KeptAfterwards(old(heaps[i].tiles), old@Grown(heaps[i].tiles), heaps[i].tiles, live[i], NewTile(r, i, size));
      }
      forall i | |live| <= i < |heaps|
        ensures OnlyLive([], heaps[i].tiles, {}, NewTile(r, i, size))
      {
        NewChunk(old@Grown(heaps[i].tiles), heaps[i].tiles, NewTile(r, i, size));
      }
      if r.None? {
        forall i | 0 <= i < |heaps|
          ensures !HasFree(old@Grown(heaps[i].tiles), size)
        {
          FullHeap(heaps[i], size);
        }
      }
    }

    /** Collect, and add a chunk when too little was freed; then there is room, unless memory or the limit forbids it. */
    method CollectAndGrow(size: nat, live: Live, available: bool)
      requires Valid() && size % ALIGN == 0 && size >= ALIGN && |live| == |heaps|
      modifies this, heaps
      ensures Valid() && old(heaps) <= heaps
      ensures forall i :: 0 <= i < |live| ==> LiveKept(old(heaps[i].tiles), heaps[i].tiles, live[i], None)
      ensures forall i :: 0 <= i < |live| ==> OnlyLive(old(heaps[i].tiles), heaps[i].tiles, live[i], None)
      ensures forall i :: |live| <= i < |heaps| ==> fresh(heaps[i]) && Allocated(heaps[i].tiles) == []
      ensures |heaps| == |old(heaps)| + if available && GrowthAfter(old(TilesIn(heaps)), live, TotalSize(old(heaps)), maxSize, size) then 1 else 0
      ensures forall i :: |live| <= i < |heaps| ==> heaps[i].limit == Doubled(old(heaps)[|live| - 1].limit, size)
      ensures !available || (maxSize != 0 && TotalSize(old(heaps)) >= maxSize)
              || exists i :: 0 <= i < |heaps| && HasFree(heaps[i].tiles, size)
    {
      hide Heap.Valid;
      hide HasFree;
      hide LiveKept;
      hide OnlyLive;
      hide Allocated;
      hide TotalGarbage;
      hide LargestGarbage;
      var maxFreed, sumFreed := Collect(live);
      var total := TotalSize(heaps);
      if (maxFreed < size || (total > sumFreed && 4 * (total - sumFreed) > 3 * total))
         && (maxSize == 0 || total < maxSize) {
        Grow(size, available);
      } else if maxFreed >= size {
        ghost var i :| 0 <= i < |heaps| && HasFree(heaps[i].tiles, maxFreed);
        StillRoom(heaps[i].tiles, maxFreed, size);
      }
    }

    /** Mark and sweep: the live objects stay. */
    method Collect(live: Live) returns (maxFreed: nat, sumFreed: nat)
      requires Valid() && |live| == |heaps|
      modifies heaps
      ensures Valid() && forall i :: 0 <= i < |heaps| ==> LiveKept(old(heaps[i].tiles), heaps[i].tiles, live[i], None)
      ensures forall i :: 0 <= i < |heaps| ==> OnlyLive(old(heaps[i].tiles), heaps[i].tiles, live[i], None)
      ensures maxFreed == 0 || exists i :: 0 <= i < |heaps| && HasFree(heaps[i].tiles, maxFreed)
      ensures sumFreed == TotalGarbage(old(TilesIn(heaps)), live) && maxFreed == LargestGarbage(old(TilesIn(heaps)), live)
    {
      hide Heap.Valid;
      hide HasFree;
      hide LiveKept;
      hide OnlyLive;
      hide Cleared;
      hide TotalGarbage;
      hide LargestGarbage;
      hide AgreeOn;
      hide Marked;
      MarkLive(live);
      label Marked:
      forall i | 0 <= i < |heaps|
        ensures AgreeOn(heaps[i].tiles, Heaps.Marked(heaps[i].marks), live[i])
      {
        MarksAgree(heaps[i], live[i]);
      }
      GarbageAgrees(TilesIn(heaps), MarkedIn(heaps), live);
      assert TilesIn(heaps) == old(TilesIn(heaps));
      maxFreed, sumFreed := SweepAll();
      forall i | 0 <= i < |heaps|
        ensures LiveKept(old(heaps[i].tiles), heaps[i].tiles, live[i], None)
        ensures OnlyLive(old(heaps[i].tiles), heaps[i].tiles, live[i], None)
      {
        SurvivorsKept(old(heaps[i].tiles), old@Marked(heaps[i].marks), heaps[i].tiles, live[i]);
      }
    }
  }

  /** Is a chunk to be added when what is live is collected around? */
  ghost predicate GrowthAfter(tiles: seq<seq<Tile>>, live: Live, total: nat, maxSize: nat, size: nat)
    requires |live| == |tiles|
  {
    GrowthDue(LargestGarbage(tiles, live), TotalGarbage(tiles, live), total, maxSize, size)
  }

  lemma MarksAgree(h: Heap, live: set<nat>)
    requires h.Valid() && forall a :: 0 <= a < h.limit ==> (h.marks[a] <==> a in live)
    ensures AgreeOn(h.tiles, Marked(h.marks), live)
  {
    AllFit(h.tiles, h.limit, h.sizes, h.nexts, h.bytes, h.marks);
  }

  /** The tile that an allocation made in chunk `i`, if any. */
  function NewTile(r: Option<Block>, i: nat, size: nat): Option<Tile> {
    if r.Some? && r.value.chunk == i then Some(Tile(r.value.addr, size, false)) else None
  }

  ghost predicate Apart(t: Tile, taken: Option<Tile>) {
    taken.Some? ==> t.addr + t.size <= taken.value.addr || taken.value.addr + taken.value.size <= t.addr
  }

  /** Allocated tiles are still there, and apart from the block that was taken; nothing else is allocated. */
  ghost predicate Kept(before: seq<Tile>, now: seq<Tile>, taken: Option<Tile>) {
    && (forall t <- before :: !t.free ==> t in now && Apart(t, taken))
    && (forall t <- now :: !t.free ==> t in before || taken == Some(t))
  }

  ghost predicate LiveKept(before: seq<Tile>, now: seq<Tile>, live: set<nat>, taken: Option<Tile>) {
    forall t <- before :: !t.free && t.addr in live ==> t in now && Apart(t, taken)
  }

  /** What is allocated was allocated and live before, or is the block that was taken. */
  ghost predicate OnlyLive(before: seq<Tile>, now: seq<Tile>, live: set<nat>, taken: Option<Tile>) {
    forall t <- now :: !t.free ==> (t in before && t.addr in live) || taken == Some(t)
  }

  /** Nothing is taken from tiles that stay as they are. */
  lemma AllKept(before: seq<seq<Tile>>, now: seq<seq<Tile>>, except: nat)
    requires |before| == |now| && (forall j :: 0 <= j < |now| && j != except ==> now[j] == before[j])
    ensures forall j :: 0 <= j < |now| && j != except ==> Kept(before[j], now[j], None)
  {
  }

  ghost function TilesIn(heaps: seq<Heap>): (tiles: seq<seq<Tile>>)
    reads heaps
    ensures |tiles| == |heaps| && forall j :: 0 <= j < |heaps| ==> tiles[j] == heaps[j].tiles
  {
    seq(|heaps|, j requires 0 <= j < |heaps| reads heaps => heaps[j].tiles)
  }

  lemma Parted(h: Heap)
    requires h.Valid()
    ensures Tiling(h.tiles, FIRST, h.limit)
  {
  }

  /** Taking a free block leaves the allocated ones where they are. */
  lemma CarveKeeps(tiles: seq<Tile>, k: nat, size: nat, limit: nat)
    requires Tiling(tiles, FIRST, limit) && FirstFit(tiles, k, size)
    ensures Tile(tiles[k].addr, size, false) in Carve(tiles, k, size)
    ensures Kept(tiles, Carve(tiles, k, size), Some(Tile(tiles[k].addr, size, false)))
  {
    hide Tiling;
    forall t <- tiles | !t.free
      ensures t in Carve(tiles, k, size) && Apart(t, Some(Tile(tiles[k].addr, size, false)))
    {
      var j :| 0 <= j < |tiles| && tiles[j] == t;
      TilesOrdered(tiles, if j < k then j else k, if j < k then k else j, FIRST, limit);
      assert if j < k then t in tiles[..k] else t == tiles[k + 1..][j - k - 1];
    }
    forall t <- Carve(tiles, k, size) | !t.free && t != Tile(tiles[k].addr, size, false)
      ensures t in tiles
    {
      assert t in tiles[..k] || t in tiles[k + 1..];
    }
  }

  lemma {:induction false} SurvivorsMembers(tiles: seq<Tile>, marks: seq<bool>, t: Tile)
    requires MarksFit(tiles, marks)
    ensures t in Survivors(tiles, marks) <==> t in tiles && !t.free && marks[t.addr]
  {
    if tiles != [] {
      SurvivorsMembers(tiles[1..], marks, t);
      assert tiles == [tiles[0]] + tiles[1..];
    }
  }

  lemma SurvivorsKept(before: seq<Tile>, marks: seq<bool>, now: seq<Tile>, live: set<nat>)
    requires MarksFit(before, marks) && Allocated(now) == Survivors(before, marks)
    requires forall a :: 0 <= a < |marks| ==> (marks[a] <==> a in live)
    ensures LiveKept(before, now, live, None) && OnlyLive(before, now, live, None)
  {
    forall t: Tile
      ensures t in now && !t.free <==> t in before && !t.free && t.addr in live
    {
      SurvivorsMembers(before, marks, t);
      AllocatedMembers(now, t);
    }
  }

  lemma KeptAfterwards(t0: seq<Tile>, t1: seq<Tile>, t2: seq<Tile>, live: set<nat>, taken: Option<Tile>)
    requires LiveKept(t0, t1, live, None) && OnlyLive(t0, t1, live, None) && Kept(t1, t2, taken)
    ensures LiveKept(t0, t2, live, taken) && OnlyLive(t0, t2, live, taken)
  {
  }

  /** A new chunk holds nothing but the block taken from it. */
  lemma NewChunk(tiles: seq<Tile>, now: seq<Tile>, taken: Option<Tile>)
    requires Allocated(tiles) == [] && Kept(tiles, now, taken)
    ensures OnlyLive([], now, {}, taken)
  {
    forall t <- now | !t.free
      ensures taken == Some(t)
    {
      AllocatedMembers(tiles, t);
    }
  }

  lemma OneFree(tiles: seq<Tile>, size: nat)
    requires tiles != [] && tiles[0].free && tiles[0].size >= size
    ensures HasFree(tiles, size)
  {
    assert tiles[0] in tiles;
  }

  lemma FullHeap(h: Heap, size: nat)
    requires NoRoom(h, size)
    ensures !HasFree(h.tiles, size)
  {
  }

  lemma StillRoom(tiles: seq<Tile>, larger: nat, size: nat)
    requires HasFree(tiles, larger) && size <= larger
    ensures HasFree(tiles, size)
  {
  }

  twostate predicate Same(h: Heap)
    reads h
  {
    h.tiles == old(h.tiles) && h.marks == old(h.marks)
  }

  ghost predicate NoRoom(h: Heap, size: nat)
    reads h
  {
    forall t <- h.tiles :: t.free ==> t.size < size
  }

  /** What is left allocated is what was marked, and the marks are clear. */
  twostate predicate Swept(h: Heap)
    reads h
  {
    && MarksFit(old(h.tiles), old(h.marks)) && Allocated(h.tiles) == Survivors(old(h.tiles), old(h.marks))
    && Cleared(h.tiles, h.marks)
  }

  twostate predicate MarkedExactly(h: Heap, live: set<nat>)
    reads h
  {
    h.tiles == old(h.tiles) && |h.marks| == h.limit && forall a :: 0 <= a < h.limit ==> (h.marks[a] <==> a in live)
  }
}
