/**
  What a sweep frees, told from the tiles before it: the garbage, and the
  largest run of neighbouring tiles that it turns into one block.
*/
module Runs {
  import opened Tiles

  /** Total size of the allocated tiles that are not live. */
  function Garbage(tiles: seq<Tile>, live: set<nat>): nat {
    if tiles == [] then 0
    else (if !tiles[0].free && tiles[0].addr !in live then tiles[0].size else 0) + Garbage(tiles[1..], live)
  }

  function SizeOf(tiles: seq<Tile>): nat {
    if tiles == [] then 0 else tiles[0].size + SizeOf(tiles[1..])
  }

  predicate Survives(t: Tile, live: set<nat>) { !t.free && t.addr in live }

  predicate Dies(t: Tile, live: set<nat>) { !t.free && t.addr !in live }

  /** Neighbouring tiles with nothing live among them and something to free. */
  ghost predicate IsRun(tiles: seq<Tile>, live: set<nat>, i: nat, j: nat) {
    && i < j <= |tiles| && (forall t <- tiles[i..j] :: !Survives(t, live))
    && exists t <- tiles[i..j] :: Dies(t, live)
  }

  function Counted(run: nat, dead: bool, max: nat): nat { if dead && run > max then run else max }

  /** The size of the largest run, after a run of size `run` so far and `max` before it. */
  function LargestRun(tiles: seq<Tile>, live: set<nat>, run: nat, dead: bool, max: nat): nat {
    if tiles == [] then Counted(run, dead, max)
    else if Survives(tiles[0], live) then LargestRun(tiles[1..], live, 0, false, Counted(run, dead, max))
    else LargestRun(tiles[1..], live, run + tiles[0].size, dead || !tiles[0].free, max)
  }

  /** Only what lives among the tiles matters. */
  lemma {:induction false} Agree(tiles: seq<Tile>, live: set<nat>, live1: set<nat>, run: nat, dead: bool, max: nat)
    requires forall t <- tiles :: !t.free ==> (t.addr in live <==> t.addr in live1)
    ensures Garbage(tiles, live) == Garbage(tiles, live1)
    ensures LargestRun(tiles, live, run, dead, max) == LargestRun(tiles, live1, run, dead, max)
    decreases |tiles|
  {
    if tiles != [] {
      var t := tiles[0];
      assert t in tiles;
      if Survives(t, live) {
        Agree(tiles[1..], live, live1, 0, false, Counted(run, dead, max));
      } else {
        Agree(tiles[1..], live, live1, run + t.size, dead || !t.free, max);
      }
    }
  }

  lemma {:induction false} GarbageAppend(a: seq<Tile>, t: Tile, live: set<nat>)
    ensures Garbage(a + [t], live) == Garbage(a, live) + if Dies(t, live) then t.size else 0
    decreases |a|
  {
    if a == [] {
      assert [t][1..] == [];
    } else {
      assert (a + [t])[1..] == a[1..] + [t];
      GarbageAppend(a[1..], t, live);
    }
  }

  /** A run that something has died in counts already. */
  lemma {:induction false} RunCounts(tiles: seq<Tile>, live: set<nat>, run: nat, max: nat, max1: nat)
    requires max <= max1 && (max1 == max || max1 <= run)
    ensures LargestRun(tiles, live, run, true, max) == LargestRun(tiles, live, run, true, max1)
    decreases |tiles|
  {
    if tiles != [] && !Survives(tiles[0], live) {
      RunCounts(tiles[1..], live, run + tiles[0].size, max, max1);
    }
  }

  lemma {:induction false} More(tiles: seq<Tile>, live: set<nat>, run: nat, dead: bool, max: nat, run1: nat, dead1: bool, max1: nat)
    requires run <= run1 && (dead ==> dead1) && max <= max1
    ensures LargestRun(tiles, live, run, dead, max) <= LargestRun(tiles, live, run1, dead1, max1)
    ensures Counted(run, dead, max) <= LargestRun(tiles, live, run, dead, max)
    decreases |tiles|
  {
    if tiles != [] {
      var t := tiles[0];
      if Survives(t, live) {
        More(tiles[1..], live, 0, false, Counted(run, dead, max), 0, false, Counted(run1, dead1, max1));
      } else {
        More(tiles[1..], live, run + t.size, dead || !t.free, max, run1 + t.size, dead1 || !t.free, max1);
      }
    }
  }

  /** At least the size of a run at the front. */
  lemma {:induction false} FrontRun(tiles: seq<Tile>, live: set<nat>, j: nat, run: nat, dead: bool, max: nat)
    requires j <= |tiles| && (forall t <- tiles[..j] :: !Survives(t, live))
    requires dead || exists t <- tiles[..j] :: Dies(t, live)
    ensures LargestRun(tiles, live, run, dead, max) >= run + SizeOf(tiles[..j])
    decreases j
  {
    if j == 0 {
      assert tiles[..0] == [];
      More(tiles, live, run, dead, max, run, dead, max);
    } else {
      var t := tiles[0];
      assert t in tiles[..j] && tiles[..j][1..] == tiles[1..][..j - 1] && tiles[..j] == [t] + tiles[1..][..j - 1];
      FrontRun(tiles[1..], live, j - 1, run + t.size, dead || !t.free, max);
    }
  }

  /** At least the size of every run. */
  lemma {:induction false} AtLeastRun(tiles: seq<Tile>, live: set<nat>, i: nat, j: nat, run: nat, dead: bool, max: nat)
    requires IsRun(tiles, live, i, j)
    ensures LargestRun(tiles, live, run, dead, max) >= SizeOf(tiles[i..j])
    decreases i
  {
    if i == 0 {
      FrontRun(tiles, live, j, run, dead, max);
    } else {
      assert tiles[1..][i - 1..j - 1] == tiles[i..j];
      if Survives(tiles[0], live) {
        AtLeastRun(tiles[1..], live, i - 1, j - 1, 0, false, Counted(run, dead, max));
      } else {
        AtLeastRun(tiles[1..], live, i - 1, j - 1, run + tiles[0].size, dead || !tiles[0].free, max);
      }
    }
  }

  /** Hence at least the size of everything that dies. */
  lemma AtLeastDead(tiles: seq<Tile>, live: set<nat>, t: Tile, max: nat)
    requires t in tiles && Dies(t, live)
    ensures LargestRun(tiles, live, 0, false, max) >= t.size
  {
    var i: nat :| i < |tiles| && tiles[i] == t;
    assert tiles[i..i + 1] == [t];
    assert t in tiles[i..i + 1] && [t][1..] == [];
    AtLeastRun(tiles, live, i, i + 1, 0, false, max);
  }

  /** The first `j` tiles go on with a run. */
  ghost predicate AtFront(tiles: seq<Tile>, live: set<nat>, j: nat, dead: bool) {
    && j <= |tiles| && (forall t <- tiles[..j] :: !Survives(t, live))
    && (dead || exists t <- tiles[..j] :: Dies(t, live))
  }

  /** How the largest run came about: it is not larger than `max`, or a run within, or what goes on at the front. */
  ghost predicate Comes(tiles: seq<Tile>, live: set<nat>, run: nat, dead: bool, max: nat, r: nat, i: nat, j: nat) {
    && i <= j <= |tiles|
    && (|| r == max
        || (IsRun(tiles, live, i, j) && r == SizeOf(tiles[i..j]))
        || (AtFront(tiles, live, j, dead) && r == run + SizeOf(tiles[..j])))
  }

  lemma AfterSurvivor(tiles: seq<Tile>, live: set<nat>, run: nat, dead: bool, max: nat, r: nat, i: nat, j: nat)
    requires tiles != [] && Survives(tiles[0], live) && Comes(tiles[1..], live, 0, false, Counted(run, dead, max), r, i, j)
    ensures Comes(tiles, live, run, dead, max, r, i + 1, j + 1) || Comes(tiles, live, run, dead, max, r, 1, j + 1)
            || Comes(tiles, live, run, dead, max, r, 0, 0)
  {
    assert tiles[1..][i..j] == tiles[i + 1..j + 1] && tiles[1..][..j] == tiles[1..j + 1] && tiles[..0] == [];
  }

  lemma AfterOther(tiles: seq<Tile>, live: set<nat>, run: nat, dead: bool, max: nat, r: nat, i: nat, j: nat)
    requires tiles != [] && !Survives(tiles[0], live)
    requires Comes(tiles[1..], live, run + tiles[0].size, dead || !tiles[0].free, max, r, i, j)
    ensures Comes(tiles, live, run, dead, max, r, i + 1, j + 1) || Comes(tiles, live, run, dead, max, r, 0, j + 1)
  {
    var t, rest := tiles[0], tiles[1..];
    assert rest[i..j] == tiles[i + 1..j + 1];
    assert tiles[..j + 1] == [t] + rest[..j] && tiles[..j + 1][1..] == rest[..j] && t in tiles[..j + 1];
    if r != max && !IsRun(rest, live, i, j) {
      assert AtFront(rest, live, j, dead || !t.free);
      assert AtFront(tiles, live, j + 1, dead);
    }
  }

  /** And the size of some run, unless nothing was larger than before. */
  lemma {:induction false} SomeRun(tiles: seq<Tile>, live: set<nat>, run: nat, dead: bool, max: nat) returns (i: nat, j: nat)
    ensures Comes(tiles, live, run, dead, max, LargestRun(tiles, live, run, dead, max), i, j)
    decreases |tiles|
  {
    i, j := 0, 0;
    if tiles == [] {
      assert tiles[..0] == [];
    } else {
      var r := LargestRun(tiles, live, run, dead, max);
      hide Comes;
      if Survives(tiles[0], live) {
        var i1, j1 := SomeRun(tiles[1..], live, 0, false, Counted(run, dead, max));
        AfterSurvivor(tiles, live, run, dead, max, r, i1, j1);
        i := if Comes(tiles, live, run, dead, max, r, i1 + 1, j1 + 1) then i1 + 1 else if Comes(tiles, live, run, dead, max, r, 1, j1 + 1) then 1 else 0;
        j := if i == 0 then 0 else j1 + 1;
      } else {
        var i1, j1 := SomeRun(tiles[1..], live, run + tiles[0].size, dead || !tiles[0].free, max);
        AfterOther(tiles, live, run, dead, max, r, i1, j1);
        i, j := if Comes(tiles, live, run, dead, max, r, i1 + 1, j1 + 1) then i1 + 1 else 0, j1 + 1;
      }
    }
  }

  /** The largest run: no run is larger, and it is the size of one unless there is none larger than `max`. */
  lemma LargestIsLargest(tiles: seq<Tile>, live: set<nat>, max: nat)
    ensures var r := LargestRun(tiles, live, 0, false, max);
            && r >= max
            && (forall i: nat, j: nat :: IsRun(tiles, live, i, j) ==> SizeOf(tiles[i..j]) <= r)
            && (r == max || exists i: nat, j: nat :: IsRun(tiles, live, i, j) && SizeOf(tiles[i..j]) == r)
  {
    More(tiles, live, 0, false, max, 0, false, max);
    forall i: nat, j: nat | IsRun(tiles, live, i, j)
      ensures SizeOf(tiles[i..j]) <= LargestRun(tiles, live, 0, false, max)
    {
      AtLeastRun(tiles, live, i, j, 0, false, max);
    }
    var i, j := SomeRun(tiles, live, 0, false, max);
    if AtFront(tiles, live, j, false) {
      assert tiles[0..j] == tiles[..j];
      assert IsRun(tiles, live, 0, j);
    }
  }
}
