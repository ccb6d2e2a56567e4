/**
  `getZigZagMatrix`: the n×n matrix whose cell (i, j) holds the position of
  that cell in the zig-zag scan (the order of section A.3.6 of ITU-T T.81:
  from the top-left corner one step right, then down-left along the next
  diagonal, and so on, alternating direction). The algorithm walks the
  upper-left triangle from both ends at once: each step writes the next
  index at the walk position and the matching index from the far end at the
  point-mirrored cell, until the two counters meet.

  The model's reference is the closed form `ZigZagIndex`, with its mirror
  law, its injectivity and an inverse `Position`; the method is proved to
  fill every cell with it.
 */
module ZigZag {

  /** The triangular number 0 + 1 + … + s: the number of cells on the diagonals before diagonal s. */
  function Triangle(s: nat): nat
  {
    if s == 0 then 0 else Triangle(s - 1) + s
  }

  /** Parity by alternation, so that moving to the next diagonal flips it without any division. */
  predicate Even(s: nat)
  {
    if s == 0 then true else !Even(s - 1)
  }

  lemma {:induction false} EvenIsModulo(s: nat)
    ensures Even(s) <==> s % 2 == 0
  {
    if s > 0 {
      EvenIsModulo(s - 1);
    }
  }

  /**
    The position of cell (i, j) of the upper-left triangle in the scan: the
    cells of earlier diagonals, then the offset along diagonal i + j, which
    runs upwards (by column) on even diagonals and downwards (by row) on odd ones.
   */
  function ScanIndex(i: nat, j: nat): nat
  {
    Triangle(i + j) + (if Even(i + j) then j else i)
  }

  /** n², as the sum of the first n odd numbers, so that the proofs below stay within linear arithmetic. */
  function Square(n: nat): nat
  {
    if n == 0 then 0 else Square(n - 1) + 2 * n - 1
  }

  lemma {:induction false} SquareIsProduct(n: nat)
    ensures Square(n) == n * n
  {
    if n > 0 {
      SquareIsProduct(n - 1);
      assert n * n == (n - 1) * (n - 1) + 2 * n - 1;
    }
  }

  /** The value of cell (i, j) in the n×n zig-zag matrix; cells below the anti-diagonal mirror the upper ones. */
  function ZigZagIndex(n: nat, i: nat, j: nat): int
    requires i < n && j < n
  {
    if i + j < n then ScanIndex(i, j) else Square(n) - 1 - ScanIndex(n - 1 - i, n - 1 - j)
  }

  lemma {:induction false} TriangleMonotone(s: nat, t: nat)
    requires s <= t
    ensures Triangle(s) <= Triangle(t)
    decreases t - s
  {
    if s < t {
      TriangleMonotone(s, t - 1);
    }
  }

  /** The n² cells split into the Triangle(n) cells on or above the anti-diagonal and the Triangle(n − 1) below it. */
  lemma {:induction false} TriangleSplit(n: nat)
    requires n >= 1
    ensures Triangle(n) + Triangle(n - 1) == Square(n)
  {
    if n > 1 {
      TriangleSplit(n - 1);
    }
  }

  /** A cell's scan index lies within the range of its diagonal. */
  lemma ScanIndexBounds(i: nat, j: nat)
    ensures Triangle(i + j) <= ScanIndex(i, j) < Triangle(i + j + 1)
  {
  }

  /** Cells before diagonal m hold scan indices below Triangle(m). */
  lemma ScanIndexBelow(i: nat, j: nat, m: nat)
    requires i + j < m
    ensures ScanIndex(i, j) < Triangle(m)
  {
    ScanIndexBounds(i, j);
    TriangleMonotone(i + j + 1, m);
  }

  lemma ScanIndexInjective(a: nat, b: nat, c: nat, d: nat)
    requires ScanIndex(a, b) == ScanIndex(c, d)
    ensures a == c && b == d
  {
    ScanIndexBounds(a, b);
    ScanIndexBounds(c, d);
    var s, t := a + b, c + d;
    if s < t {
      TriangleMonotone(s + 1, t);
    } else if t < s {
      TriangleMonotone(t + 1, s);
    } else if Even(s) {
      assert b == d;
    } else {
      assert a == c;
    }
  }

  /** Point symmetry: a cell and its mirror through the centre add up to n² − 1. */
  lemma ZigZagMirror(n: nat, i: nat, j: nat)
    requires i < n && j < n
    ensures ZigZagIndex(n, i, j) + ZigZagIndex(n, n - 1 - i, n - 1 - j) == Square(n) - 1
  {
    if i + j == n - 1 {
      TriangleSplit(n);
    }
  }

  /** Every cell's value lies in 0 .. n² − 1. */
  lemma ZigZagBounds(n: nat, i: nat, j: nat)
    requires i < n && j < n
    ensures 0 <= ZigZagIndex(n, i, j) < Square(n)
  {
    TriangleSplit(n);
    if i + j < n {
      ScanIndexBelow(i, j, n);
    } else {
      ScanIndexBelow(n - 1 - i, n - 1 - j, n - 1);
    }
  }

  /** The same bounds, with n² as a product. */
  lemma ZigZagRange(n: nat, i: nat, j: nat)
    requires i < n && j < n
    ensures 0 <= ZigZagIndex(n, i, j) < n * n
  {
    ZigZagBounds(n, i, j);
    SquareIsProduct(n);
  }

  /** Cells strictly below the anti-diagonal, which mirror cells before diagonal n − 1, hold values of at least Triangle(n). */
  lemma LowerAboveTriangle(n: nat, i: nat, j: nat)
    requires n >= 1 && i + j < n - 1
    ensures Triangle(n) <= Square(n) - 1 - ScanIndex(i, j)
  {
    ScanIndexBelow(i, j, n - 1);
    TriangleSplit(n);
  }

  /** No two cells share a value. */
  lemma ZigZagInjective(n: nat, a: nat, b: nat, c: nat, d: nat)
    requires a < n && b < n && c < n && d < n
    requires ZigZagIndex(n, a, b) == ZigZagIndex(n, c, d)
    ensures a == c && b == d
  {
    if a + b < n && c + d < n {
      ScanIndexInjective(a, b, c, d);
    } else if n <= a + b && n <= c + d {
      ScanIndexInjective(n - 1 - a, n - 1 - b, n - 1 - c, n - 1 - d);
    } else if a + b < n {
      ScanIndexBelow(a, b, n);
      LowerAboveTriangle(n, n - 1 - c, n - 1 - d);
    } else {
      ScanIndexBelow(c, d, n);
      LowerAboveTriangle(n, n - 1 - a, n - 1 - b);
    }
  }

  /** The diagonal holding scan index v, searched upwards from diagonal s. */
  function DiagonalOf(v: nat, s: nat): (r: nat)
    requires Triangle(s) <= v
    ensures Triangle(r) <= v < Triangle(r + 1)
    decreases v - Triangle(s)
  {
    if v < Triangle(s + 1) then s else DiagonalOf(v, s + 1)
  }

  /** The cell of the upper-left triangle with scan index v. */
  function ScanCell(v: nat): (r: (nat, nat))
    ensures ScanIndex(r.0, r.1) == v
  {
    var s := DiagonalOf(v, 0);
    var k := v - Triangle(s);
    if Even(s) then (s - k, k) else (k, s - k)
  }

  /** A scan index below Triangle(m) belongs to a cell on one of the first m diagonals. */
  lemma ScanCellBelow(v: nat, m: nat)
    requires v < Triangle(m)
    ensures ScanCell(v).0 + ScanCell(v).1 < m
  {
    var c := ScanCell(v);
    ScanIndexBounds(c.0, c.1);
    if m <= c.0 + c.1 {
      TriangleMonotone(m, c.0 + c.1);
    }
  }

  /** The cell of the n×n matrix holding value v: the inverse of `ZigZagIndex`. */
  function Position(n: nat, v: int): (r: (nat, nat))
    requires 0 <= v < n * n
    ensures r.0 < n && r.1 < n && ZigZagIndex(n, r.0, r.1) == v
  {
    SquareIsProduct(n);
    TriangleSplit(n);
    if v < Triangle(n) then
      ScanCellBelow(v, n);
      ScanCell(v)
    else
      var w := Square(n) - 1 - v;
      ScanCellBelow(w, n - 1);
      var c := ScanCell(w);
      (n - 1 - c.0, n - 1 - c.1)
  }

  /** `Position` and `ZigZagIndex` are mutually inverse, so the matrix is a permutation of 0 .. n² − 1. */
  lemma PositionOfIndex(n: nat, i: nat, j: nat)
    requires i < n && j < n
    ensures 0 <= ZigZagIndex(n, i, j) < n * n
    ensures Position(n, ZigZagIndex(n, i, j)) == (i, j)
  {
    ZigZagRange(n, i, j);
    var p := Position(n, ZigZagIndex(n, i, j));
    ZigZagInjective(n, p.0, p.1, i, j);
  }

  /**
    One move of the walk: `i += d; j -= d`, then a step back inside and a
    reversal of direction when the row or the column became negative.
   */
  function Advance(i: int, j: int, d: int): (int, int, int)
  {
    var i' := i + d;
    var j' := j - d;
    if i' < 0 then (i' + 1, j', -d)
    else if j' < 0 then (i', j' + 1, -d)
    else (i', j', d)
  }

  /** The direction the walk has on a diagonal: up (−1) on even diagonals, down (+1) on odd ones. */
  function Direction(s: nat): int
  {
    if Even(s) then -1 else 1
  }

  /** Within the triangle, `Advance` moves to the cell with the next scan index and keeps the direction of its diagonal. */
  lemma AdvanceScans(n: nat, i: nat, j: nat, d: int)
    requires i + j < n && 2 * (ScanIndex(i, j) + 1) <= Square(n) - 1 && d == Direction(i + j)
    ensures 0 <= Advance(i, j, d).0 && 0 <= Advance(i, j, d).1 && Advance(i, j, d).0 + Advance(i, j, d).1 < n
    ensures ScanIndex(Advance(i, j, d).0, Advance(i, j, d).1) == ScanIndex(i, j) + 1
    ensures Advance(i, j, d).2 == Direction(Advance(i, j, d).0 + Advance(i, j, d).1)
  {
    var s := i + j;
    TriangleSplit(n);
    assert ScanIndex(i, j) + 1 < Triangle(n);
    if Even(s) {
      if i == 0 {
        assert Advance(i, j, d) == (0, s + 1, 1);
        assert ScanIndex(0, s + 1) == Triangle(s + 1) == ScanIndex(i, j) + 1;
      } else {
        assert Advance(i, j, d) == (i - 1, j + 1, -1);
      }
    } else {
      if j == 0 {
        assert Advance(i, j, d) == (s + 1, 0, -1);
        assert ScanIndex(s + 1, 0) == Triangle(s + 1) == ScanIndex(i, j) + 1;
      } else {
        assert Advance(i, j, d) == (i + 1, j - 1, 1);
      }
    }
  }

  /** An n×n grid in which every cell whose value lies below `lo` or above `hi` already holds it. */
  predicate Settled(grid: seq<seq<int>>, n: nat, lo: int, hi: int)
  {
    && |grid| == n
    && (forall a :: 0 <= a < n ==> |grid[a]| == n)
    && forall a, b :: 0 <= a < n && 0 <= b < n ==>
         (ZigZagIndex(n, a, b) < lo || hi < ZigZagIndex(n, a, b)) ==> grid[a][b] == ZigZagIndex(n, a, b)
  }

  /** Writing the value `lo` into the one cell that holds it settles `lo` as well. */
  lemma WriteLow(grid: seq<seq<int>>, n: nat, i: nat, j: nat, lo: int, hi: int)
    requires Settled(grid, n, lo, hi) && i < n && j < n && ZigZagIndex(n, i, j) == lo
    ensures Settled(grid[i := grid[i][j := lo]], n, lo + 1, hi)
  {
    var g := grid[i := grid[i][j := lo]];
    forall a, b | 0 <= a < n && 0 <= b < n && ZigZagIndex(n, a, b) == lo
      ensures g[a][b] == lo
    {
      ZigZagInjective(n, a, b, i, j);
    }
  }

  /** Writing the value `hi` into the one cell that holds it settles `hi` as well. */
  lemma WriteHigh(grid: seq<seq<int>>, n: nat, i: nat, j: nat, lo: int, hi: int)
    requires Settled(grid, n, lo, hi) && i < n && j < n && ZigZagIndex(n, i, j) == hi
    ensures Settled(grid[i := grid[i][j := hi]], n, lo, hi - 1)
  {
    var g := grid[i := grid[i][j := hi]];
    forall a, b | 0 <= a < n && 0 <= b < n && ZigZagIndex(n, a, b) == hi
      ensures g[a][b] == hi
    {
      ZigZagInjective(n, a, b, i, j);
    }
  }

  /** Before the loop no value is settled yet, and none needs to be. */
  lemma SettledInitially(n: nat)
    ensures Settled(seq(n, _ => seq(n, _ => -1)), n, 0, Square(n) - 1)
  {
    forall a, b | 0 <= a < n && 0 <= b < n
      ensures 0 <= ZigZagIndex(n, a, b) <= Square(n) - 1
    {
      ZigZagBounds(n, a, b);
    }
  }

  /** Once the bounds have crossed, every cell is settled. */
  lemma SettledFinally(grid: seq<seq<int>>, n: nat, lo: int, hi: int)
    requires Settled(grid, n, lo, hi) && hi < lo
    ensures forall a, b :: 0 <= a < n && 0 <= b < n ==> grid[a][b] == ZigZagIndex(n, a, b)
  {
  }

  /** The walk is at cell (i, j), whose scan index is `start`, heading in the direction of its diagonal. */
  predicate AtScan(n: nat, i: int, j: int, d: int, start: int)
  {
    0 <= i && 0 <= j && i + j < n && start == ScanIndex(i, j) && d == Direction(i + j)
  }

  /** Writing `start` at the walk cell and `end` at the cell point-mirrored through the centre settles both values. */
  method WriteEnds(grid: seq<seq<int>>, n: nat, i: nat, j: nat, start: int, end: int) returns (grid': seq<seq<int>>)
    requires i + j < n && start == ScanIndex(i, j) && start + end == Square(n) - 1
    requires Settled(grid, n, start, end)
    ensures Settled(grid', n, start + 1, end - 1)
  {
    var mi, mj := n - i - 1, n - j - 1;
    assert ZigZagIndex(n, i, j) == start;
    ZigZagMirror(n, i, j);
    assert ZigZagIndex(n, mi, mj) == end;
    WriteLow(grid, n, i, j, start, end);
    grid' := grid[i := grid[i][j := start]];
    WriteHigh(grid', n, mi, mj, start + 1, end);
    grid' := grid'[mi := grid'[mi][mj := end]];
  }

  /**
    The body of the do-while loop of `getZigZagMatrix`: write `start` at the
    walk cell and `end` at its mirror, count both towards each other, and
    advance the walk.
   */
  method ScanStep(grid: seq<seq<int>>, n: nat, i: int, j: int, d: int, start: int, end: int)
    returns (grid': seq<seq<int>>, i': int, j': int, d': int, start': int, end': int)
    requires AtScan(n, i, j, d, start) && start <= end && start + end == Square(n) - 1
    requires Settled(grid, n, start, end)
    ensures start' == start + 1 && end' == end - 1
    ensures Settled(grid', n, start', end')
    ensures start' <= end' ==> AtScan(n, i', j', d', start')
  {
    grid' := WriteEnds(grid, n, i, j, start, end);
    start', end' := start + 1, end - 1;
    if start' <= end' {
      AdvanceScans(n, i, j, d);
    }
    var next := Advance(i, j, d);
    i', j', d' := next.0, next.1, next.2;
  }

  /**
    `getZigZagMatrix(n)`: the do-while loop, unrolled once, writes `start`
    at the walk position and `end` at its mirror and advances until `start`
    is no longer below `end`; for odd n the centre is written afterwards.
    Cells start as −1, standing for the `undefined` the JavaScript array holds.
   */
  method GetZigZagMatrix(n: nat) returns (grid: seq<seq<int>>)
    requires n >= 1
    ensures |grid| == n
    ensures forall a :: 0 <= a < n ==> |grid[a]| == n
    ensures forall a, b :: 0 <= a < n && 0 <= b < n ==> grid[a][b] == ZigZagIndex(n, a, b)
  {
    grid := seq(n, _ => seq(n, _ => -1));
    var i: int, j: int, d := 0, 0, -1;
    var start, end := 0, n * n - 1;
    SquareIsProduct(n);
    SettledInitially(n);
    grid, i, j, d, start, end := ScanStep(grid, n, i, j, d, start, end);
    while start < end
      invariant start <= end + 2 && start + end == Square(n) - 1
      invariant start <= end ==> AtScan(n, i, j, d, start)
      invariant Settled(grid, n, start, end)
      decreases end - start
    {
      grid, i, j, d, start, end := ScanStep(grid, n, i, j, d, start, end);
    }
    if start == end {
      WriteLow(grid, n, i, j, start, end);
      grid := grid[i := grid[i][j := start]];
      start := start + 1;
    }
    SettledFinally(grid, n, start, end);
  }

  /** The matrices of the documentation for n = 1 to 4. */
  lemma ZigZagExamplesSmall()
    ensures ZigZagIndex(1, 0, 0) == 0
    ensures forall a, b :: 0 <= a < 2 && 0 <= b < 2 ==> ZigZagIndex(2, a, b) == [[0, 1], [2, 3]][a][b]
    ensures forall a, b :: 0 <= a < 3 && 0 <= b < 3 ==>
      ZigZagIndex(3, a, b) == [[0, 1, 5], [2, 4, 6], [3, 7, 8]][a][b]
  {
  }

  lemma ZigZagExampleFour()
    ensures forall a, b :: 0 <= a < 4 && 0 <= b < 4 ==>
      ZigZagIndex(4, a, b) == [[0, 1, 5, 6], [2, 4, 7, 12], [3, 8, 11, 13], [9, 10, 14, 15]][a][b]
  {
    assert Triangle(3) == 6;
  }
}
