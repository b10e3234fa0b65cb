/**
  Packing: the live objects of all chunks are copied into one new chunk, side
  by side in address order, and their pointers follow them.
*/
module HeapPacking {
  import opened Tiles
  import Heaps
  import HeapWalk
  import R = Relocation

  /** A chunk of the heap and the address of its memory. */
  datatype Chunk = Chunk(base: int, heap: Heaps.Heap)

  /** An object as the walk reports it. */
  datatype Item = Item(addr: int, size: nat)

  function Total(items: seq<Item>): nat { if items == [] then 0 else items[0].size + Total(items[1..]) }

  lemma {:induction false} TotalJoin(a: seq<Item>, b: seq<Item>)
    ensures Total(a + b) == Total(a) + Total(b)
  {
    if a == [] {
      assert a + b == b;
    } else {
      assert (a + b)[1..] == a[1..] + b;
      TotalJoin(a[1..], b);
    }
  }

  /** The objects of one chunk, at their addresses. */
  function ItemsAt(base: int, tiles: seq<Tile>): (items: seq<Item>)
    ensures |items| == |tiles|
  {
    seq(|tiles|, i requires 0 <= i < |tiles| => Item(base + tiles[i].addr, tiles[i].size))
  }

  /** The objects of all chunks, chunk by chunk. */
  ghost function Items(chunks: seq<Chunk>): seq<Item>
    reads set c <- chunks :: c.heap
  {
    if chunks == [] then [] else ItemsAt(chunks[0].base, Allocated(chunks[0].heap.tiles)) + Items(chunks[1..])
  }

  lemma {:induction false} ItemsJoin(a: seq<Chunk>, b: seq<Chunk>)
    ensures Items(a + b) == Items(a) + Items(b)
  {
    if a == [] {
      assert a + b == b;
    } else {
      assert (a + b)[1..] == a[1..] + b;
      ItemsJoin(a[1..], b);
    }
  }

  lemma ItemsOne(c: Chunk)
    ensures Items([c]) == ItemsAt(c.base, Allocated(c.heap.tiles))
  {
    assert [c][1..] == [];
  }

  // ---------------------------------------------------------------- counting

  /** First pass: how many objects there are, and their total size. */
  method Count(chunks: seq<Chunk>) returns (count: nat, size: nat)
    requires forall c <- chunks :: c.heap.Valid()
    ensures count == |Items(chunks)| && size == Total(Items(chunks))
  {
    hide Items;
    hide Total;
    hide Heaps.Heap.Valid;
    count, size := 0, 0;
    var i := 0;
    NoItems();
    while i < |chunks|
      invariant 0 <= i <= |chunks| && count == |Items(chunks[..i])| && size == Total(Items(chunks[..i]))
    {
      var found := HeapWalk.Walk(chunks[i].heap);
      var n := CountChunk(chunks[i].base, found);
      count, size := count + |found|, size + n;
      assert chunks[..i + 1] == chunks[..i] + [chunks[i]];
      ItemsJoin(chunks[..i], [chunks[i]]);
      ItemsOne(chunks[i]);
      TotalJoin(Items(chunks[..i]), Items([chunks[i]]));
      i := i + 1;
    }
    assert chunks[..i] == chunks;
  }

  lemma NoItems()
    ensures Items([]) == [] && Total([]) == 0
  {
  }

  method CountChunk(base: int, found: seq<Tile>) returns (size: nat)
    ensures size == Total(ItemsAt(base, found))
  {
    size := 0;
    var items := ItemsAt(base, found);
    var j := 0;
    while j < |found|
      invariant 0 <= j <= |found| && size == Total(items[..j])
    {
      size := size + found[j].size;
      assert items[..j + 1] == items[..j] + [items[j]];
      TotalJoin(items[..j], [items[j]]);
      assert [items[j]][1..] == [];
      j := j + 1;
    }
    assert items[..j] == items;
  }

  // ------------------------------------------------------------------ sorting

  ghost predicate Ascending(chunks: seq<Chunk>) {
    forall i, j :: 0 <= i < j < |chunks| ==> chunks[i].base <= chunks[j].base
  }

  lemma NoneAscending()
    ensures Ascending([])
  {
  }

  lemma InsertAt(a: seq<Chunk>, c: Chunk, b: seq<Chunk>)
    requires Ascending(a + b) && (a != [] ==> a[|a| - 1].base <= c.base)
    requires forall j :: 0 <= j < |b| ==> b[j].base >= c.base
    ensures Ascending(a + [c] + b)
  {
    var s, r := a + b, a + [c] + b;
    forall i, j | 0 <= i < j < |r|
      ensures r[i].base <= r[j].base
    {
      if i < |a| {
        assert r[i] == s[i] == a[i] && s[|a| - 1] == a[|a| - 1];
        assert s[i].base <= s[|a| - 1].base;
        assert j < |a| ==> r[j] == s[j];
      }
      if j > |a| {
        assert r[j] == s[j - 1] == b[j - 1 - |a|];
        if i > |a| {
          assert r[i] == s[i - 1];
        }
      }
    }
  }

  lemma SameContents(a: seq<Chunk>, c: Chunk, b: seq<Chunk>)
    ensures multiset(a + [c] + b) == multiset(a + b) + multiset([c])
  {
  }

  /** The chunks in the order of their addresses. */
  method SortChunks(chunks: seq<Chunk>) returns (sorted: seq<Chunk>)
    ensures multiset(sorted) == multiset(chunks) && Ascending(sorted)
  {
    hide Ascending;
    sorted := [];
    NoneAscending();
    var i := 0;
    while i < |chunks|
      invariant 0 <= i <= |chunks| && multiset(sorted) == multiset(chunks[..i]) && Ascending(sorted)
    {
      sorted := Insert(sorted, chunks[i]);
      assert chunks[..i + 1] == chunks[..i] + [chunks[i]];
      i := i + 1;
    }
    assert chunks[..i] == chunks;
  }

  method Insert(sorted: seq<Chunk>, c: Chunk) returns (r: seq<Chunk>)
    requires Ascending(sorted)
    ensures Ascending(r) && multiset(r) == multiset(sorted) + multiset([c])
  {
    hide Ascending;
    var k := |sorted|;
    while k > 0 && sorted[k - 1].base > c.base
      invariant 0 <= k <= |sorted| && forall j :: k <= j < |sorted| ==> sorted[j].base >= c.base
    {
      k := k - 1;
    }
    assert sorted[..k] + sorted[k..] == sorted;
    InsertAt(sorted[..k], c, sorted[k..]);
    SameContents(sorted[..k], c, sorted[k..]);
    r := sorted[..k] + [c] + sorted[k..];
  }

  lemma OthersMatch(a: seq<Chunk>, b: seq<Chunk>, k: nat)
    requires multiset(a) == multiset(b) && a != [] && k < |b| && b[k] == a[0]
    ensures multiset(a[1..]) == multiset(b[..k] + b[k + 1..])
  {
    var rest := b[..k] + b[k + 1..];
    TakenOut(a, 0);
    assert a[..0] + a[1..] == a[1..];
    TakenOut(b, k);
    Cancel(multiset(a[1..]), multiset(rest), multiset([a[0]]));
  }

  lemma TakenOut(s: seq<Chunk>, k: nat)
    requires k < |s|
    ensures multiset(s) == multiset(s[..k] + s[k + 1..]) + multiset([s[k]])
  {
    SameContents(s[..k], s[k], s[k + 1..]);
    assert s[..k] + [s[k]] + s[k + 1..] == s;
  }

  lemma Cancel<T>(a: multiset<T>, b: multiset<T>, c: multiset<T>)
    requires a + c == b + c
    ensures a == b
  {
    forall x
      ensures a[x] == b[x]
    {
      assert (a + c)[x] == (b + c)[x];
    }
  }

  /** Neither the number of objects nor their total size depends on the order of the chunks. */
  lemma {:induction false} SameItems(a: seq<Chunk>, b: seq<Chunk>)
    requires multiset(a) == multiset(b)
    ensures |Items(a)| == |Items(b)| && Total(Items(a)) == Total(Items(b)) && multiset(Items(a)) == multiset(Items(b))
    decreases |a|
  {
    hide Items;
    hide Total;
    if a == [] {
      assert |multiset(b)| == |b|;
    } else {
      var x := a[0];
      assert x in multiset(a);
      var k :| 0 <= k < |b| && b[k] == x;
      var rest := b[..k] + b[k + 1..];
      assert a == [x] + a[1..] && b == b[..k] + [x] + b[k + 1..];
      OthersMatch(a, b, k);
      SameItems(a[1..], rest);
      ItemsJoin([x], a[1..]);
      ItemsJoin(b[..k] + [x], b[k + 1..]);
      ItemsJoin(b[..k], [x]);
      ItemsJoin(b[..k], b[k + 1..]);
      TotalJoin(Items([x]), Items(a[1..]));
      TotalJoin(Items(b[..k]) + Items([x]), Items(b[k + 1..]));
      TotalJoin(Items(b[..k]), Items([x]));
      TotalJoin(Items(b[..k]), Items(b[k + 1..]));
    }
  }

  // ------------------------------------------------------- the table is sorted

  /** The chunks occupy different stretches of memory. */
  ghost predicate Separate(chunks: seq<Chunk>) {
    forall i, j :: 0 <= i < |chunks| && 0 <= j < |chunks| && i != j ==>
      chunks[i].base + chunks[i].heap.limit <= chunks[j].base || chunks[j].base + chunks[j].heap.limit <= chunks[i].base
  }

  lemma {:induction false} TwoPlaces<T>(s: seq<T>, x: T) returns (k: nat, l: nat)
    requires multiset(s)[x] >= 2
    ensures k < l < |s| && s[k] == s[l] == x
  {
    assert s == [s[0]] + s[1..];
    if s[0] == x {
      assert x in multiset(s[1..]);
      var j :| 0 <= j < |s[1..]| && s[1..][j] == x;
      k, l := 0, j + 1;
    } else {
      k, l := TwoPlaces(s[1..], x);
      k, l := k + 1, l + 1;
    }
  }

  lemma CountedTwice<T>(s: seq<T>, i: nat, j: nat)
    requires i < j < |s| && s[i] == s[j]
    ensures multiset(s)[s[i]] >= 2
  {
    assert s == s[..j] + [s[j]] + s[j + 1..];
    assert s[..j][i] == s[i] && s[i] in multiset(s[..j]);
  }

  /** Being separate does not depend on the order. */
  lemma StillSeparate(chunks: seq<Chunk>, sorted: seq<Chunk>)
    requires Separate(chunks) && multiset(sorted) == multiset(chunks) && forall c <- chunks :: c.heap.limit > 0
    ensures Separate(sorted) && forall c :: c in sorted <==> c in chunks
  {
    forall c
      ensures c in sorted <==> c in chunks
    {
      assert c in multiset(sorted) <==> c in multiset(chunks);
    }
    forall i, j | 0 <= i < |sorted| && 0 <= j < |sorted| && i != j
      ensures sorted[i].base + sorted[i].heap.limit <= sorted[j].base || sorted[j].base + sorted[j].heap.limit <= sorted[i].base
    {
      if sorted[i] == sorted[j] {
        CountedTwice(sorted, if i < j then i else j, if i < j then j else i);
        var k, l := TwoPlaces(chunks, sorted[i]);
      } else {
        assert sorted[i] in sorted && sorted[j] in sorted;
        assert sorted[i] in chunks && sorted[j] in chunks;
        var k :| 0 <= k < |chunks| && chunks[k] == sorted[i];
        var l :| 0 <= l < |chunks| && chunks[l] == sorted[j];
      }
    }
  }

  ghost predicate InOrder(items: seq<Item>) {
    forall i, j :: 0 <= i < j < |items| ==> items[i].addr < items[j].addr
  }

  lemma {:induction false} AllocatedInOrder(tiles: seq<Tile>, lo: nat, hi: nat)
    requires Tiling(tiles, lo, hi) && lo % ALIGN == 0
    ensures forall t <- Allocated(tiles) :: lo <= t.addr < hi && t.size >= ALIGN
    ensures forall i, j :: 0 <= i < j < |Allocated(tiles)| ==> Allocated(tiles)[i].addr < Allocated(tiles)[j].addr
    decreases |tiles|
  {
    if tiles != [] {
      AllocatedInOrder(tiles[1..], lo + tiles[0].size, hi);
      TilingBounds(tiles, lo, hi);
      assert tiles[0] in tiles;
    }
  }

  /** Chunk by chunk in address order, the objects come in address order. */
  lemma {:induction false} ItemsInOrder(chunks: seq<Chunk>)
    requires (forall c <- chunks :: c.heap.Valid()) && Ascending(chunks) && Separate(chunks)
    ensures InOrder(Items(chunks)) && forall x <- Items(chunks) :: InSome(chunks, x)
    decreases |chunks|
  {
    hide InOrder;
    hide InSome;
    hide Allocated;
    hide Heaps.Heap.Valid;
    if chunks == [] {
      NothingInOrder();
    } else {
      var c, rest := chunks[0], chunks[1..];
      ItemsInOrder(rest);
      ChunkFacts(c);
      var a, b := ItemsAt(c.base, Allocated(c.heap.tiles)), Items(rest);
      forall x <- b
        ensures x.addr > c.base + c.heap.limit && InSome(chunks, x)
      {
        Beyond(chunks, x);
      }
      forall x <- a
        ensures InSome(chunks, x)
      {
        InFirst(chunks, x);
      }
      InOrderJoin(a, b, c.base + c.heap.limit);
    }
  }

  /** The item lies within one of the chunks. */
  ghost predicate InSome(chunks: seq<Chunk>, x: Item) {
    exists c <- chunks :: c.base < x.addr < c.base + c.heap.limit
  }

  lemma NothingInOrder()
    ensures InOrder([])
  {
  }

  lemma InFirst(chunks: seq<Chunk>, x: Item)
    requires chunks != [] && chunks[0].base < x.addr < chunks[0].base + chunks[0].heap.limit
    ensures InSome(chunks, x)
  {
    assert chunks[0] in chunks;
  }

  lemma Beyond(chunks: seq<Chunk>, x: Item)
    requires chunks != [] && Ascending(chunks) && Separate(chunks) && InSome(chunks[1..], x)
    ensures x.addr > chunks[0].base + chunks[0].heap.limit && InSome(chunks, x)
  {
    var d :| d in chunks[1..] && d.base < x.addr < d.base + d.heap.limit;
    var k :| 0 <= k < |chunks[1..]| && chunks[1..][k] == d;
    assert chunks[k + 1] == d;
  }

  lemma InOrderJoin(a: seq<Item>, b: seq<Item>, mid: int)
    requires InOrder(a) && InOrder(b) && (forall x <- a :: x.addr < mid) && forall x <- b :: x.addr > mid
    ensures InOrder(a + b)
  {
  }

  lemma ChunkFacts(c: Chunk)
    requires c.heap.Valid()
    ensures var a := ItemsAt(c.base, Allocated(c.heap.tiles));
            InOrder(a) && forall x <- a :: c.base < x.addr < c.base + c.heap.limit && x.size >= ALIGN
  {
    AllocatedInOrder(c.heap.tiles, FIRST, c.heap.limit);
  }

  ghost predicate AlignedSizes(items: seq<Item>) { forall x <- items :: x.size >= ALIGN && x.size % ALIGN == 0 }

  /** Objects come in aligned sizes. */
  lemma {:induction false} ItemSizes(chunks: seq<Chunk>)
    requires forall c <- chunks :: c.heap.Valid()
    ensures AlignedSizes(Items(chunks))
    ensures Total(Items(chunks)) % ALIGN == 0 && (Items(chunks) != [] ==> Total(Items(chunks)) >= ALIGN)
    decreases |chunks|
  {
    hide Tiling;
    hide Total;
    NoItems();
    if chunks != [] {
      var c := chunks[0];
      ItemSizes(chunks[1..]);
      TilingBounds(c.heap.tiles, FIRST, c.heap.limit);
      forall t <- Allocated(c.heap.tiles)
        ensures t.size >= ALIGN && t.size % ALIGN == 0
      {
        AllocatedMembers(c.heap.tiles, t);
      }
      var a := ItemsAt(c.base, Allocated(c.heap.tiles));
      TotalAligned(a);
      TotalJoin(a, Items(chunks[1..]));
    }
  }

  lemma {:induction false} TotalAligned(items: seq<Item>)
    requires AlignedSizes(items)
    ensures Total(items) % ALIGN == 0 && (items != [] ==> Total(items) >= ALIGN)
  {
    if items != [] {
      TotalAligned(items[1..]);
    }
  }
}
