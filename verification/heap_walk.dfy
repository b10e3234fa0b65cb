/**
  Walking a heap chunk block by block, telling objects from free blocks by the
  free list alone.
*/
module HeapWalk {
  import opened Tiles
  import Heaps

  /** The objects of a chunk in the order of their addresses, each with its size. */
  method Walk(h: Heaps.Heap) returns (found: seq<Tile>)
    requires h.Valid()
    ensures found == Allocated(h.tiles)
  {
    hide Frees;
    hide Allocated;
    hide Tiling;
    hide Heaps.Divided;
    ghost var done: seq<Tile>, rest: seq<Tile>, j: nat := [], h.tiles, 0;
    Heaps.AllFit(h.tiles, h.limit, h.sizes, h.nexts, h.bytes, h.marks);
    NothingFound();
    var p, q := FIRST, HEAD;
    found := [];
    while p < h.limit
      invariant h.tiles == done + rest && Tiling(done, FIRST, p) && Tiling(rest, p, h.limit) && p <= h.limit
      invariant j <= |Frees(done)| && q == ([HEAD] + Frees(done))[j]
      invariant found == Allocated(done)
      decreases h.limit - p
    {
      var r;
      q, r := h.Neighbours(q, p, j, done, rest);
      Heaps.BlockFacts(done, rest, p, h.limit, r, h.sizes, h.nexts, h.bytes);
      Heaps.Passed(done, rest[0], p);
      var size;
      if r == p {
        size := h.sizes[r];
      } else {
        size := Align(h.bytes[p]);
        found := found + [Tile(p, size, false)];
      }
      j := |Frees(done)|;
      StillThere(done, rest[0]);
      done, rest := done + [rest[0]], rest[1..];
      p := p + size;
    }
    Heaps.SweepEnds(rest, h.limit);
    assert done + [] == done;
  }

  lemma NothingFound()
    ensures Tiling([], FIRST, FIRST) && Frees([]) == [] && Allocated([]) == []
  {
  }

  /** What was the last free block before the next one is visited keeps its place in the list. */
  lemma StillThere(done: seq<Tile>, t: Tile)
    ensures |Frees(done)| <= |Frees(done + [t])|
    ensures ([HEAD] + Frees(done))[|Frees(done)|] == ([HEAD] + Frees(done + [t]))[|Frees(done)|]
  {
    FreesAppend(done, [t]);
  }
}
