/** One generation of the Game of Life on the bounded 25x25 board (rule B3/S23, no wraparound). */
module StepEngine {
  import opened Grids

  /** (dx, dy) points from a cell into the 3x3 square around it, not at the cell itself. */
  predicate IsNeighbourOffset(dx: int, dy: int)
  {
    -1 <= dx <= 1 && -1 <= dy <= 1 && (dx, dy) != (0, 0)
  }

  /** The offsets of the eight neighbours, in the order the step visits them. */
  function Operations(): (ops: seq<(int, int)>)
    ensures |ops| == 8
    ensures forall j :: 0 <= j < |ops| ==> IsNeighbourOffset(ops[j].0, ops[j].1)
  {
    [(0, 1), (0, -1), (1, -1), (-1, 1), (1, 1), (-1, -1), (1, 0), (-1, 0)]
  }

  /** The offset table lists every neighbour offset, and none twice. */
  lemma OperationsAreTheNeighbourhood()
    ensures forall dx, dy :: IsNeighbourOffset(dx, dy) ==> (dx, dy) in Operations()
    ensures forall j, j' :: 0 <= j < j' < |Operations()| ==> Operations()[j] != Operations()[j']
  {
  }

  /** The live cells found among the first n entries of the offset table around (i, k). */
  function CountUpTo(g: Grid, i: int, k: int, n: nat): (count: int)
    requires HasShape(g) && n <= |Operations()|
    ensures IsGrid(g) ==> 0 <= count <= n
  {
    if n == 0 then 0
    else CountUpTo(g, i, k, n - 1) + Live(g, i + Operations()[n - 1].0, k + Operations()[n - 1].1)
  }

  /** The neighbour count the step computes for cell (i, k); on a 0/1 board it lies in 0..8. */
  function Neighbors(g: Grid, i: int, k: int): (count: int)
    requires HasShape(g)
    ensures IsGrid(g) ==> 0 <= count <= 8
  {
    CountUpTo(g, i, k, |Operations()|)
  }

  /** Reference count: the eight cells around (i, k), row by row, out-of-board cells counting 0. */
  function MooreCount(g: Grid, i: int, k: int): int
    requires HasShape(g)
  {
    Live(g, i - 1, k - 1) + Live(g, i - 1, k) + Live(g, i - 1, k + 1) +
    Live(g, i, k - 1) + Live(g, i, k + 1) +
    Live(g, i + 1, k - 1) + Live(g, i + 1, k) + Live(g, i + 1, k + 1)
  }

  /** Counting over the table in its own order gives the row-by-row count of the eight neighbours. */
  lemma NeighborsAreMooreCount(g: Grid, i: int, k: int)
    requires HasShape(g)
    ensures Neighbors(g, i, k) == MooreCount(g, i, k)
  {
    assert CountUpTo(g, i, k, 1) == Live(g, i, k + 1);
    assert CountUpTo(g, i, k, 2) == CountUpTo(g, i, k, 1) + Live(g, i, k - 1);
    assert CountUpTo(g, i, k, 3) == CountUpTo(g, i, k, 2) + Live(g, i + 1, k - 1);
    assert CountUpTo(g, i, k, 4) == CountUpTo(g, i, k, 3) + Live(g, i - 1, k + 1);
    assert CountUpTo(g, i, k, 5) == CountUpTo(g, i, k, 4) + Live(g, i + 1, k + 1);
    assert CountUpTo(g, i, k, 6) == CountUpTo(g, i, k, 5) + Live(g, i - 1, k - 1);
    assert CountUpTo(g, i, k, 7) == CountUpTo(g, i, k, 6) + Live(g, i + 1, k);
    assert CountUpTo(g, i, k, 8) == CountUpTo(g, i, k, 7) + Live(g, i - 1, k);
  }

  /** The decision for one cell, given its state and its neighbour count (B3/S23). */
  function NextState(cell: int, neighbors: int): (next: int)
    ensures neighbors < 2 || neighbors > 3 ==> next == 0
    ensures IsCell(cell) ==> IsCell(next)
    ensures IsCell(cell) ==> (next == 1 <==> neighbors == 3 || (cell == 1 && neighbors == 2))
  {
    if neighbors < 2 || neighbors > 3 then 0
    else if cell == 0 && neighbors == 3 then 1
    else cell
  }

  /** The next generation: every cell decided from the old board alone. */
  function Step(g: Grid): (next: Grid)
    requires HasShape(g)
    ensures HasShape(next)
    ensures IsGrid(g) ==> IsGrid(next)
  {
    seq(Rows, i requires 0 <= i < Rows =>
      seq(Cols, k requires 0 <= k < Cols => NextState(g[i][k], Neighbors(g, i, k))))
  }

  /** The rule table for cell (i, k), stated with the row-by-row neighbour count. */
  lemma StepRule(g: Grid, i: int, k: int)
    requires IsGrid(g) && InBounds(i, k)
    ensures 0 <= MooreCount(g, i, k) <= 8
    ensures MooreCount(g, i, k) < 2 ==> Step(g)[i][k] == 0
    ensures MooreCount(g, i, k) > 3 ==> Step(g)[i][k] == 0
    ensures g[i][k] == 0 && MooreCount(g, i, k) == 3 ==> Step(g)[i][k] == 1
    ensures g[i][k] == 0 && MooreCount(g, i, k) != 3 ==> Step(g)[i][k] == 0
    ensures g[i][k] == 1 ==> (Step(g)[i][k] == 1 <==> 2 <= MooreCount(g, i, k) <= 3)
  {
    NeighborsAreMooreCount(g, i, k);
  }

  /** A cell's next state depends only on its own 3x3 square of the old board. */
  lemma StepIsLocal(g: Grid, h: Grid, i: int, k: int)
    requires HasShape(g) && HasShape(h) && InBounds(i, k)
    requires forall r, c :: i - 1 <= r <= i + 1 && k - 1 <= c <= k + 1 ==> Live(g, r, c) == Live(h, r, c)
    ensures Step(g)[i][k] == Step(h)[i][k]
  {
    NeighborsAreMooreCount(g, i, k);
    NeighborsAreMooreCount(h, i, k);
    assert g[i][k] == Live(g, i, k) == Live(h, i, k) == h[i][k];
  }

  /** Nothing is born on the empty board. */
  lemma StepOfEmpty()
    ensures Step(EmptyGrid()) == EmptyGrid()
  {
    forall i, k | InBounds(i, k)
      ensures Step(EmptyGrid())[i][k] == EmptyGrid()[i][k]
    {
      NeighborsAreMooreCount(EmptyGrid(), i, k);
    }
    CellwiseEqual(Step(EmptyGrid()), EmptyGrid());
  }

  /** The `operations.forEach` loop: add up the old board's in-bounds cells around (i, k). */
  method CountNeighbors(g: array2<int>, i: int, k: int) returns (neighbors: int)
    requires Dimensions(g)
    ensures neighbors == Neighbors(Snapshot(g), i, k)
  {
    neighbors := 0;
    for j := 0 to |Operations()|
      invariant neighbors == CountUpTo(Snapshot(g), i, k, j)
    {
      var (x, y) := Operations()[j];
      var newI, newK := i + x, k + y;
      if 0 <= newI < Rows && 0 <= newK < Cols {
        neighbors := neighbors + g[newI, newK];
      }
    }
  }

  /**
   * One cell of the step: the rule applied to cell (i, k) of the copy, the neighbour count
   * and the "was dead" test read from the old board `g`, whose value is `before`.
   */
  method UpdateCell(g: array2<int>, ghost before: Grid, gridCopy: array2<int>, i: int, k: int)
    requires Dimensions(g) && Dimensions(gridCopy) && InBounds(i, k) && g != gridCopy
    requires HasShape(before) && forall r, c :: InBounds(r, c) ==> before[r][c] == g[r, c]
    requires gridCopy[i, k] == g[i, k]
    modifies gridCopy
    ensures gridCopy[i, k] == Step(before)[i][k]
    ensures forall r, c :: InBounds(r, c) && (r, c) != (i, k) ==> gridCopy[r, c] == old(gridCopy[r, c])
  {
    CellwiseEqual(before, Snapshot(g));
    var neighbors := CountNeighbors(g, i, k);
    if neighbors < 2 || neighbors > 3 {
      gridCopy[i, k] := 0;
    } else if g[i, k] == 0 && neighbors == 3 {
      gridCopy[i, k] := 1;
    }
    assert gridCopy[i, k] == NextState(g[i, k], neighbors);
  }

  /** Row i of the step, cell by cell, into the copy; the other rows are left alone. */
  method NextRow(g: array2<int>, ghost before: Grid, gridCopy: array2<int>, i: int)
    requires Dimensions(g) && Dimensions(gridCopy) && 0 <= i < Rows && g != gridCopy
    requires HasShape(before) && forall r, c :: InBounds(r, c) ==> before[r][c] == g[r, c]
    requires forall c :: 0 <= c < Cols ==> gridCopy[i, c] == g[i, c]
    modifies gridCopy
    ensures forall c :: 0 <= c < Cols ==> gridCopy[i, c] == Step(before)[i][c]
    ensures forall r, c :: InBounds(r, c) && r != i ==> gridCopy[r, c] == old(gridCopy[r, c])
  {
    ghost var row := Step(before)[i];
    for k := 0 to Cols
      invariant forall c :: 0 <= c < k ==> gridCopy[i, c] == row[c]
      invariant forall c :: k <= c < Cols ==> gridCopy[i, c] == g[i, c]
      invariant forall r, c :: InBounds(r, c) && r != i ==> gridCopy[r, c] == old(gridCopy[r, c])
    {
      UpdateCell(g, before, gridCopy, i, k);
    }
  }

  /**
   * The step as the simulation runs it: a copy of the board is updated cell by cell, while
   * every neighbour count and every "was dead" test reads the old board `g`.
   */
  method NextGeneration(g: array2<int>) returns (gridCopy: array2<int>)
    requires Dimensions(g)
    ensures Dimensions(gridCopy)
    ensures Snapshot(gridCopy) == Step(Snapshot(g))
  {
    ghost var before := Snapshot(g);
    gridCopy := CopyOf(g);
    for i := 0 to Rows
      invariant before == Snapshot(g)
      invariant forall r, c :: 0 <= r < i && 0 <= c < Cols ==> gridCopy[r, c] == Step(before)[r][c]
      invariant forall r, c :: i <= r < Rows && 0 <= c < Cols ==> gridCopy[r, c] == g[r, c]
    {
      NextRow(g, before, gridCopy, i);
    }
    CellwiseEqual(Snapshot(gridCopy), Step(before));
  }
}
