/** The 25x25 board of the Game of Life, its cells stored as 0 (dead) and 1 (alive). */
module Grids {

  const Rows: int := 25
  const Cols: int := 25

  /** Midpoints of the board, the anchor of every preset. */
  const VerticalMid: int := Rows / 2
  const HorizontalMid: int := Cols / 2

  /** The value view of a board: a list of rows, each a list of cells. */
  type Grid = seq<seq<int>>

  predicate InBounds(r: int, c: int)
  {
    0 <= r < Rows && 0 <= c < Cols
  }

  predicate IsCell(v: int)
  {
    v == 0 || v == 1
  }

  /** Rows x Cols, whatever the cells hold. */
  predicate HasShape(g: Grid)
  {
    |g| == Rows && forall r :: 0 <= r < Rows ==> |g[r]| == Cols
  }

  /** A well-formed board: right shape and every cell 0 or 1. */
  ghost predicate IsGrid(g: Grid)
  {
    HasShape(g) && forall r, c :: InBounds(r, c) ==> IsCell(g[r][c])
  }

  /** Two boards of the right shape are equal when they agree cell by cell. */
  lemma CellwiseEqual(g: Grid, h: Grid)
    requires HasShape(g) && HasShape(h)
    requires forall r, c :: InBounds(r, c) ==> g[r][c] == h[r][c]
    ensures g == h
  {
    forall r | 0 <= r < Rows
      ensures g[r] == h[r]
    {
      assert forall c :: 0 <= c < Cols ==> g[r][c] == h[r][c];
    }
  }

  /** Cell (r, c) as the neighbour count sees it: 0 outside the board, no wraparound. */
  function Live(g: Grid, r: int, c: int): (v: int)
    requires HasShape(g)
    ensures !InBounds(r, c) ==> v == 0
    ensures IsGrid(g) ==> IsCell(v)
  {
    if InBounds(r, c) then g[r][c] else 0
  }

  /** The value held by a board array. */
  ghost function Snapshot(a: array2<int>): (g: Grid)
    reads a
    ensures |g| == a.Length0
    ensures forall r :: 0 <= r < a.Length0 ==> |g[r]| == a.Length1
    ensures forall r, c :: 0 <= r < a.Length0 && 0 <= c < a.Length1 ==> g[r][c] == a[r, c]
  {
    seq(a.Length0, r requires 0 <= r < a.Length0 reads a =>
      seq(a.Length1, c requires 0 <= c < a.Length1 reads a => a[r, c]))
  }

  /** A board array of the fixed dimensions. */
  predicate Dimensions(a: array2<int>)
  {
    a.Length0 == Rows && a.Length1 == Cols
  }

  /** The all-dead board. */
  function EmptyGrid(): (g: Grid)
    ensures IsGrid(g)
    ensures forall r, c :: InBounds(r, c) ==> g[r][c] == 0
  {
    seq(Rows, r => seq(Cols, c => 0))
  }

  /** Flip the one cell (r, c) between dead and alive (a non-zero cell counts as alive). */
  function Toggle(g: Grid, r: int, c: int): (h: Grid)
    requires HasShape(g) && InBounds(r, c)
    ensures HasShape(h)
    ensures h[r][c] == (if g[r][c] != 0 then 0 else 1)
    ensures forall r', c' :: InBounds(r', c') && (r', c') != (r, c) ==> h[r'][c'] == g[r'][c']
    ensures IsGrid(g) ==> IsGrid(h)
  {
    g[r := g[r][c := if g[r][c] != 0 then 0 else 1]]
  }

  /** Toggling the same cell twice gives back the board. */
  lemma ToggleTwice(g: Grid, r: int, c: int)
    requires IsGrid(g) && InBounds(r, c)
    ensures Toggle(Toggle(g, r, c), r, c) == g
  {
    CellwiseEqual(Toggle(Toggle(g, r, c), r, c), g);
  }

  /** Toggling changes the board: a click is never lost. */
  lemma ToggleChanges(g: Grid, r: int, c: int)
    requires IsGrid(g) && InBounds(r, c)
    ensures Toggle(g, r, c) != g
    ensures Toggle(g, r, c)[r][c] == 1 - g[r][c]
  {
  }

  /** Toggles at different cells commute. */
  lemma ToggleCommutes(g: Grid, r1: int, c1: int, r2: int, c2: int)
    requires HasShape(g) && InBounds(r1, c1) && InBounds(r2, c2)
    ensures Toggle(Toggle(g, r1, c1), r2, c2) == Toggle(Toggle(g, r2, c2), r1, c1)
  {
    CellwiseEqual(Toggle(Toggle(g, r1, c1), r2, c2), Toggle(Toggle(g, r2, c2), r1, c1));
  }

  /** `generateEmptyGrid`: a 25x25 board with every cell dead, built row by row. */
  method GenerateEmptyGrid() returns (rows: array2<int>)
    ensures Dimensions(rows)
    ensures Snapshot(rows) == EmptyGrid()
  {
    rows := new int[Rows, Cols];
    for i := 0 to Rows
      invariant forall r, c :: 0 <= r < i && 0 <= c < Cols ==> rows[r, c] == 0
    {
      for k := 0 to Cols
        invariant forall r, c :: 0 <= r < i && 0 <= c < Cols ==> rows[r, c] == 0
        invariant forall c :: 0 <= c < k ==> rows[i, c] == 0
      {
        rows[i, k] := 0;
      }
    }
    CellwiseEqual(Snapshot(rows), EmptyGrid());
  }

  /** The draft that `produce` hands to a recipe: a fresh array holding the same cells. */
  method CopyOf(g: array2<int>) returns (gridCopy: array2<int>)
    requires Dimensions(g)
    ensures fresh(gridCopy) && Dimensions(gridCopy)
    ensures Snapshot(gridCopy) == Snapshot(g)
  {
    gridCopy := new int[Rows, Cols];
    for i := 0 to Rows
      invariant forall r, c :: 0 <= r < i && 0 <= c < Cols ==> gridCopy[r, c] == g[r, c]
    {
      for k := 0 to Cols
        invariant forall r, c :: 0 <= r < i && 0 <= c < Cols ==> gridCopy[r, c] == g[r, c]
        invariant forall c :: 0 <= c < k ==> gridCopy[i, c] == g[i, c]
      {
        gridCopy[i, k] := g[i, k];
      }
    }
    CellwiseEqual(Snapshot(gridCopy), Snapshot(g));
  }

  /** The cell click handler's recipe: a copy of the board with cell (r, c) flipped. */
  method ToggledCopy(g: array2<int>, r: int, c: int) returns (gridCopy: array2<int>)
    requires Dimensions(g) && InBounds(r, c)
    ensures Dimensions(gridCopy)
    ensures Snapshot(gridCopy) == Toggle(Snapshot(g), r, c)
  {
    gridCopy := CopyOf(g);
    gridCopy[r, c] := if g[r, c] != 0 then 0 else 1;
    CellwiseEqual(Snapshot(gridCopy), Toggle(Snapshot(g), r, c));
  }
}
