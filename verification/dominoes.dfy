/**
  `canDominoesMakeRow` with its helpers `sumNearest` and `sumNeighbour`.

  The function does not search for a chain of tiles. It marks cell [x][y] of
  a square grid for every tile [x, y] (only in that orientation), then
  rejects the set as soon as one tile has no marked cell among its eight
  surrounding cells, or more than three marked cells among its four
  orthogonal ones. The model follows that heuristic exactly; `CanMakeRow`
  restates it without the grid, in terms of which tiles are present.
 */
module Dominoes {

  /** A domino [x, y]; pips are non-negative. */
  datatype Tile = Tile(x: nat, y: nat)

  /** The reduce of `canDominoesMakeRow`: the largest pip of all tiles, starting from 0. */
  function MaxPip(tiles: seq<Tile>): (r: nat)
    ensures forall k :: 0 <= k < |tiles| ==> tiles[k].x <= r && tiles[k].y <= r
    ensures r == 0 || exists k :: 0 <= k < |tiles| && (r == tiles[k].x || r == tiles[k].y)
  {
    if |tiles| == 0 then 0
    else
      var rez := MaxPip(tiles[..|tiles| - 1]);
      var t := tiles[|tiles| - 1];
      Max(t.x, Max(rez, t.y))
  }

  function Max(a: nat, b: nat): nat
  {
    if a < b then b else a
  }

  /** The grid is side×side and its cell [a][b] is 1 exactly when tile [a, b] is in the list, and 0 otherwise. */
  predicate Marks(grid: seq<seq<int>>, tiles: seq<Tile>, side: nat)
  {
    && |grid| == side
    && (forall a :: 0 <= a < side ==> |grid[a]| == side)
    && forall a, b :: 0 <= a < side && 0 <= b < side ==> grid[a][b] == (if Tile(a, b) in tiles then 1 else 0)
  }

  /** The zero-filled grid and the `forEach` that sets `rez[x][y] = 1` for every tile. */
  method MarkGrid(tiles: seq<Tile>, side: nat) returns (grid: seq<seq<int>>)
    requires forall k :: 0 <= k < |tiles| ==> tiles[k].x < side && tiles[k].y < side
    ensures Marks(grid, tiles, side)
  {
    grid := seq(side, _ => seq(side, _ => 0));
    var k := 0;
    while k < |tiles|
      invariant 0 <= k <= |tiles|
      invariant Marks(grid, tiles[..k], side)
    {
      var t := tiles[k];
      grid := grid[t.x := grid[t.x][t.y := 1]];
      assert tiles[..k + 1] == tiles[..k] + [t];
      k := k + 1;
    }
    assert tiles[..k] == tiles;
  }

  /** The value of the cell [a][b] when it exists, as `sumNearest` and `sumNeighbour` read it. */
  function Cell(grid: seq<seq<int>>, a: int, b: int): int
    requires 0 <= a < |grid| && 0 <= b < |grid[a]|
  {
    grid[a][b]
  }

  /** A square grid, as `canDominoesMakeRow` builds. */
  predicate IsSquareGrid(grid: seq<seq<int>>)
  {
    forall a :: 0 <= a < |grid| ==> |grid[a]| == |grid|
  }

  /**
    `sumNearest(arr, x, y)`: the sum of the up to eight cells around [x][y],
    each taken only when the bounds checks against n = arr.length − 1 let it
    be pushed.
   */
  function SumNearest(grid: seq<seq<int>>, x: nat, y: nat): int
    requires IsSquareGrid(grid) && x < |grid| && y < |grid|
  {
    var n := |grid| - 1;
    (if x > 0 && y > 0 then Cell(grid, x - 1, y - 1) else 0)
    + (if y > 0 then Cell(grid, x, y - 1) else 0)
    + (if x < n && y > 0 then Cell(grid, x + 1, y - 1) else 0)
    + (if x > 0 then Cell(grid, x - 1, y) else 0)
    + (if x < n then Cell(grid, x + 1, y) else 0)
    + (if x > 0 && y < n then Cell(grid, x - 1, y + 1) else 0)
    + (if y < n then Cell(grid, x, y + 1) else 0)
    + (if x < n && y < n then Cell(grid, x + 1, y + 1) else 0)
  }

  /** `sumNeighbour(arr, x, y)`: the same for the four orthogonal cells. */
  function SumNeighbour(grid: seq<seq<int>>, x: nat, y: nat): int
    requires IsSquareGrid(grid) && x < |grid| && y < |grid|
  {
    var n := |grid| - 1;
    (if y > 0 then Cell(grid, x, y - 1) else 0)
    + (if x > 0 then Cell(grid, x - 1, y) else 0)
    + (if x < n then Cell(grid, x + 1, y) else 0)
    + (if y < n then Cell(grid, x, y + 1) else 0)
  }

  /** 1 when tile [a, b] is in the list, 0 otherwise (also for negative coordinates). */
  function Present(tiles: seq<Tile>, a: int, b: int): nat
  {
    if a >= 0 && b >= 0 && Tile(a, b) in tiles then 1 else 0
  }

  /** How many of the eight cells around [x, y] are tiles of the list. */
  function NearestCount(tiles: seq<Tile>, x: int, y: int): nat
  {
    Present(tiles, x - 1, y - 1) + Present(tiles, x, y - 1) + Present(tiles, x + 1, y - 1)
    + Present(tiles, x - 1, y) + Present(tiles, x + 1, y)
    + Present(tiles, x - 1, y + 1) + Present(tiles, x, y + 1) + Present(tiles, x + 1, y + 1)
  }

  /** How many of the four orthogonal cells around [x, y] are tiles of the list. */
  function NeighbourCount(tiles: seq<Tile>, x: int, y: int): nat
  {
    Present(tiles, x, y - 1) + Present(tiles, x - 1, y) + Present(tiles, x + 1, y) + Present(tiles, x, y + 1)
  }

  /** The test every tile must pass: at least one tile around it, at most three beside it. */
  predicate Fits(tiles: seq<Tile>, t: Tile)
  {
    NearestCount(tiles, t.x, t.y) >= 1 && NeighbourCount(tiles, t.x, t.y) <= 3
  }

  /** The tile at position k passes the test. */
  predicate FitsAt(tiles: seq<Tile>, k: nat)
    requires k < |tiles|
  {
    Fits(tiles, tiles[k])
  }

  /** The grid-free statement of what `canDominoesMakeRow` accepts: every tile of the list passes. */
  predicate CanMakeRow(tiles: seq<Tile>)
  {
    forall k :: 0 <= k < |tiles| ==> FitsAt(tiles, k)
  }

  /** Tiles lie within the grid of side max pip + 1, so a cell beyond its last row or column holds no tile. */
  lemma NoTileBeyond(tiles: seq<Tile>, a: nat, b: nat)
    requires a > MaxPip(tiles) || b > MaxPip(tiles)
    ensures Present(tiles, a, b) == 0
  {
    forall k | 0 <= k < |tiles|
      ensures tiles[k] != Tile(a, b)
    {
    }
  }

  /** A cell read by the sums, or skipped by their bounds checks, agrees with the presence of its tile. */
  lemma CellIsPresence(grid: seq<seq<int>>, tiles: seq<Tile>, a: int, b: int)
    requires Marks(grid, tiles, MaxPip(tiles) + 1) && -1 <= a <= |grid| && -1 <= b <= |grid|
    ensures 0 <= a < |grid| && 0 <= b < |grid| ==> Cell(grid, a, b) == Present(tiles, a, b)
    ensures a == |grid| || b == |grid| ==> Present(tiles, a, b) == 0
  {
    if (a == |grid| || b == |grid|) && a >= 0 && b >= 0 {
      NoTileBeyond(tiles, a, b);
    }
  }

  /**
    On the grid of side max pip + 1, the bounds checks of `sumNearest` only
    skip cells that cannot hold a tile, so it counts exactly the tiles around [x, y].
   */
  lemma SumNearestCountsTiles(grid: seq<seq<int>>, tiles: seq<Tile>, x: nat, y: nat)
    requires Marks(grid, tiles, MaxPip(tiles) + 1) && x < |grid| && y < |grid|
    ensures IsSquareGrid(grid) && SumNearest(grid, x, y) == NearestCount(tiles, x, y)
  {
    var n := |grid| - 1;
    assert (if x > 0 && y > 0 then Cell(grid, x - 1, y - 1) else 0) == Present(tiles, x - 1, y - 1) by {
      CellIsPresence(grid, tiles, x - 1, y - 1);
    }
    assert (if y > 0 then Cell(grid, x, y - 1) else 0) == Present(tiles, x, y - 1) by {
      CellIsPresence(grid, tiles, x, y - 1);
    }
    assert (if x < n && y > 0 then Cell(grid, x + 1, y - 1) else 0) == Present(tiles, x + 1, y - 1) by {
      CellIsPresence(grid, tiles, x + 1, y - 1);
    }
    assert (if x > 0 then Cell(grid, x - 1, y) else 0) == Present(tiles, x - 1, y) by {
      CellIsPresence(grid, tiles, x - 1, y);
    }
    assert (if x < n then Cell(grid, x + 1, y) else 0) == Present(tiles, x + 1, y) by {
      CellIsPresence(grid, tiles, x + 1, y);
    }
    assert (if x > 0 && y < n then Cell(grid, x - 1, y + 1) else 0) == Present(tiles, x - 1, y + 1) by {
      CellIsPresence(grid, tiles, x - 1, y + 1);
    }
    assert (if y < n then Cell(grid, x, y + 1) else 0) == Present(tiles, x, y + 1) by {
      CellIsPresence(grid, tiles, x, y + 1);
    }
    assert (if x < n && y < n then Cell(grid, x + 1, y + 1) else 0) == Present(tiles, x + 1, y + 1) by {
      CellIsPresence(grid, tiles, x + 1, y + 1);
    }
  }

  /** The same for `sumNeighbour` and the four orthogonal cells. */
  lemma SumNeighbourCountsTiles(grid: seq<seq<int>>, tiles: seq<Tile>, x: nat, y: nat)
    requires Marks(grid, tiles, MaxPip(tiles) + 1) && x < |grid| && y < |grid|
    ensures IsSquareGrid(grid) && SumNeighbour(grid, x, y) == NeighbourCount(tiles, x, y)
  {
    CellIsPresence(grid, tiles, x, y - 1);
    CellIsPresence(grid, tiles, x - 1, y);
    CellIsPresence(grid, tiles, x + 1, y);
    CellIsPresence(grid, tiles, x, y + 1);
  }

  /** On the grid `canDominoesMakeRow` builds, its rejection test for tile t fails exactly when t fits. */
  lemma GridTestIsFits(grid: seq<seq<int>>, tiles: seq<Tile>, t: Tile)
    requires Marks(grid, tiles, MaxPip(tiles) + 1) && t.x < |grid| && t.y < |grid|
    ensures IsSquareGrid(grid)
    ensures (SumNearest(grid, t.x, t.y) < 1 || SumNeighbour(grid, t.x, t.y) > 3) <==> !Fits(tiles, t)
  {
    SumNearestCountsTiles(grid, tiles, t.x, t.y);
    SumNeighbourCountsTiles(grid, tiles, t.x, t.y);
  }

  /** `canDominoesMakeRow`: the grid is built, then the first tile failing either test makes the answer false. */
  method CanDominoesMakeRow(tiles: seq<Tile>) returns (ok: bool)
    ensures ok == CanMakeRow(tiles)
  {
    var side := MaxPip(tiles) + 1;
    var grid := MarkGrid(tiles, side);
    var k := 0;
    while k < |tiles|
      invariant 0 <= k <= |tiles|
      invariant forall m :: 0 <= m < k ==> FitsAt(tiles, m)
    {
      var t := tiles[k];
      GridTestIsFits(grid, tiles, t);
      if SumNearest(grid, t.x, t.y) < 1 || SumNeighbour(grid, t.x, t.y) > 3 {
        RejectedAt(tiles, k);
        return false;
      }
      assert FitsAt(tiles, k);
      k := k + 1;
    }
    return true;
  }

  /** An empty list passes vacuously. */
  lemma EmptyMakesRow()
    ensures CanMakeRow([])
  {
  }

  /** A lone tile has no tile around it, so every one-tile list is rejected, `[[0,1]]` among them. */
  lemma SingleTileRejected(t: Tile)
    ensures !CanMakeRow([t])
  {
    assert NearestCount([t], t.x, t.y) == 0;
    RejectedAt([t], 0);
  }

  /** The four orthogonal cells are among the eight surrounding ones, so `sumNeighbour` never exceeds `sumNearest`. */
  lemma NeighbourAtMostNearest(tiles: seq<Tile>, x: int, y: int)
    ensures NeighbourCount(tiles, x, y) <= NearestCount(tiles, x, y)
  {
  }

  /** Only [x][y] is marked: the same two dominoes pass or fail depending on how one of them is written. */
  lemma OrientationMatters()
    ensures CanMakeRow([Tile(0, 1), Tile(0, 2)])
    ensures !CanMakeRow([Tile(0, 1), Tile(2, 0)])
  {
    var straight := [Tile(0, 1), Tile(0, 2)];
    forall k | 0 <= k < |straight|
      ensures FitsAt(straight, k)
    {
      if k == 0 { FitsBy(straight, 0, 0, 2, 1, 1); }
      else { FitsBy(straight, 1, 0, 1, 1, 2); }
    }
    var turned := [Tile(0, 1), Tile(2, 0)];
    assert NearestCount(turned, 0, 1) == 0;
    RejectedAt(turned, 0);
  }

  /** One tile that fails its test is enough to reject the whole list. */
  lemma RejectedAt(tiles: seq<Tile>, k: nat)
    requires k < |tiles| && !Fits(tiles, tiles[k])
    ensures !CanMakeRow(tiles)
  {
    assert !FitsAt(tiles, k);
  }

  /**
    Tile k fits as soon as some tile [a, b] lies around it and one of its
    four orthogonal cells, [c, d], holds no tile.
   */
  lemma FitsBy(tiles: seq<Tile>, k: nat, a: nat, b: nat, c: nat, d: nat)
    requires k < |tiles| && Tile(a, b) in tiles && Tile(c, d) !in tiles
    requires a != tiles[k].x || b != tiles[k].y
    requires tiles[k].x - 1 <= a <= tiles[k].x + 1 && tiles[k].y - 1 <= b <= tiles[k].y + 1
    requires || (c == tiles[k].x && (d == tiles[k].y - 1 || d == tiles[k].y + 1))
             || (d == tiles[k].y && (c == tiles[k].x - 1 || c == tiles[k].x + 1))
    ensures Fits(tiles, tiles[k])
  {
  }

  /** The examples of the documentation. */
  lemma ExampleTwoTiles()
    ensures CanMakeRow([Tile(0, 1), Tile(1, 1)])
  {
    var tiles := [Tile(0, 1), Tile(1, 1)];
    forall k | 0 <= k < |tiles|
      ensures FitsAt(tiles, k)
    {
      if k == 0 { FitsBy(tiles, 0, 1, 1, 0, 0); }
      else { FitsBy(tiles, 1, 0, 1, 1, 0); }
    }
  }

  lemma ExampleFiveTiles()
    ensures !CanMakeRow([Tile(1, 1), Tile(2, 2), Tile(1, 5), Tile(5, 6), Tile(6, 3)])
  {
    var tiles := [Tile(1, 1), Tile(2, 2), Tile(1, 5), Tile(5, 6), Tile(6, 3)];
    assert !Fits(tiles, tiles[2]) by {
      assert tiles[2] == Tile(1, 5);
      forall a, b | 0 <= a <= 2 && 4 <= b <= 6 && Tile(a, b) != Tile(1, 5)
        ensures Tile(a, b) !in tiles
      {
      }
    }
    RejectedAt(tiles, 2);
  }

  lemma ExampleSixTiles()
    ensures CanMakeRow([Tile(1, 3), Tile(2, 3), Tile(1, 4), Tile(2, 4), Tile(1, 5), Tile(2, 5)])
  {
    var tiles := [Tile(1, 3), Tile(2, 3), Tile(1, 4), Tile(2, 4), Tile(1, 5), Tile(2, 5)];
    forall k | 0 <= k < |tiles|
      ensures FitsAt(tiles, k)
    {
      if k == 0 { FitsBy(tiles, 0, 2, 3, 1, 2); }
      else if k == 1 { FitsBy(tiles, 1, 1, 3, 2, 2); }
      else if k == 2 { FitsBy(tiles, 2, 2, 4, 0, 4); }
      else if k == 3 { FitsBy(tiles, 3, 1, 4, 3, 4); }
      else if k == 4 { FitsBy(tiles, 4, 2, 5, 1, 6); }
      else { FitsBy(tiles, 5, 1, 5, 2, 6); }
    }
  }

  lemma ExampleUpperTriangle()
    ensures !CanMakeRow([Tile(0, 0), Tile(0, 1), Tile(1, 1), Tile(0, 2), Tile(1, 2), Tile(2, 2),
                         Tile(0, 3), Tile(1, 3), Tile(2, 3), Tile(3, 3)])
  {
    var tiles := [Tile(0, 0), Tile(0, 1), Tile(1, 1), Tile(0, 2), Tile(1, 2), Tile(2, 2),
                  Tile(0, 3), Tile(1, 3), Tile(2, 3), Tile(3, 3)];
    assert !Fits(tiles, tiles[4]) by {
      assert tiles[4] == Tile(1, 2);
      assert NeighbourCount(tiles, 1, 2) == 4;
    }
    RejectedAt(tiles, 4);
  }
}
