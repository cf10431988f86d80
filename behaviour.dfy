/** What the Blinker and Glider presets do once the simulation runs. */
module PresetBehaviour {
  import opened Grids
  import opened StepEngine
  import opened Presets

  /** The board whose live cells are exactly those where `alive` holds. */
  function Board(alive: (int, int) -> bool): (g: Grid)
    ensures IsGrid(g)
    ensures forall r, c :: InBounds(r, c) ==> (g[r][c] == 1 <==> alive(r, c))
  {
    seq(Rows, r requires 0 <= r < Rows =>
      seq(Cols, c requires 0 <= c < Cols => if alive(r, c) then 1 else 0))
  }

  /** Every live cell lies on the board. */
  ghost predicate OnBoard(alive: (int, int) -> bool)
  {
    forall r, c :: alive(r, c) ==> InBounds(r, c)
  }

  function Bit(b: bool): int
  {
    if b then 1 else 0
  }

  /** How many of the eight neighbours of (i, k) are alive: `MooreCount` for a pattern given as a predicate (see `BoardCount`). */
  function CountIn(alive: (int, int) -> bool, i: int, k: int): int
  {
    Bit(alive(i - 1, k - 1)) + Bit(alive(i - 1, k)) + Bit(alive(i - 1, k + 1)) +
    Bit(alive(i, k - 1)) + Bit(alive(i, k + 1)) +
    Bit(alive(i + 1, k - 1)) + Bit(alive(i + 1, k)) + Bit(alive(i + 1, k + 1))
  }

  /** Cell (i, k) of `next` is what rule B3/S23 makes of cell (i, k) of `alive`. */
  predicate SucceedsAt(alive: (int, int) -> bool, next: (int, int) -> bool, i: int, k: int)
  {
    next(i, k) <==> CountIn(alive, i, k) == 3 || (alive(i, k) && CountIn(alive, i, k) == 2)
  }

  /** `next` is the B3/S23 successor of `alive` at every cell of the board. */
  ghost predicate Succeeds(alive: (int, int) -> bool, next: (int, int) -> bool)
  {
    forall i, k :: InBounds(i, k) ==> SucceedsAt(alive, next, i, k)
  }

  /** Every live cell lies in rows r0..r1 and columns c0..c1. */
  ghost predicate Within(alive: (int, int) -> bool, r0: int, r1: int, c0: int, c1: int)
  {
    forall r, c :: alive(r, c) ==> r0 <= r <= r1 && c0 <= c <= c1
  }

  /**
   * Away from a pattern nothing happens: a successor that holds on the pattern's box
   * widened by one cell holds on the whole board.
   */
  lemma QuietOutside(alive: (int, int) -> bool, next: (int, int) -> bool, r0: int, r1: int, c0: int, c1: int)
    requires Within(alive, r0, r1, c0, c1) && Within(next, r0 - 1, r1 + 1, c0 - 1, c1 + 1)
    requires forall i, k :: r0 - 1 <= i <= r1 + 1 && c0 - 1 <= k <= c1 + 1 ==> SucceedsAt(alive, next, i, k)
    ensures Succeeds(alive, next)
  {
    forall i, k | InBounds(i, k)
      ensures SucceedsAt(alive, next, i, k)
    {
      if !(r0 - 1 <= i <= r1 + 1 && c0 - 1 <= k <= c1 + 1) {
        assert CountIn(alive, i, k) == 0;
      }
    }
  }

  /** On the board of `alive`, the neighbour count is the number of live neighbours. */
  lemma BoardCount(alive: (int, int) -> bool, i: int, k: int)
    requires OnBoard(alive)
    ensures MooreCount(Board(alive), i, k) == CountIn(alive, i, k)
  {
    var g := Board(alive);
    forall r, c
      ensures Live(g, r, c) == Bit(alive(r, c))
    {
      if !InBounds(r, c) {
        assert !alive(r, c);
      }
    }
  }

  /** A successor worked out on live cells is the step of the board. */
  lemma StepOfBoard(alive: (int, int) -> bool, next: (int, int) -> bool)
    requires OnBoard(alive) && OnBoard(next) && Succeeds(alive, next)
    ensures Step(Board(alive)) == Board(next)
  {
    var g := Board(alive);
    forall i, k | InBounds(i, k)
      ensures Step(g)[i][k] == Board(next)[i][k]
    {
      StepRule(g, i, k);
      BoardCount(alive, i, k);
    }
    CellwiseEqual(Step(g), Board(next));
  }

  /** The Blinker's two phases: upright in column 12, and lying in row 12. */
  predicate VerticalBlinker(r: int, c: int)
  {
    c == 12 && 11 <= r <= 13
  }
  predicate HorizontalBlinker(r: int, c: int)
  {
    r == 12 && 11 <= c <= 13
  }

  /** The Blinker preset, stamped on an empty board, is three cells in column 12, rows 11..13. */
  lemma BlinkerPresetIsVertical()
    ensures Stamp(EmptyGrid(), Offsets(Blinker)) == Board(VerticalBlinker)
  {
    forall r, c | InBounds(r, c)
      ensures Stamp(EmptyGrid(), Offsets(Blinker))[r][c] == Board(VerticalBlinker)[r][c]
    {
    }
    CellwiseEqual(Stamp(EmptyGrid(), Offsets(Blinker)), Board(VerticalBlinker));
  }

  lemma BlinkerOnBoard()
    ensures OnBoard(VerticalBlinker) && OnBoard(HorizontalBlinker)
  {
  }

  /** The Blinker's two phases succeed each other, checked at every cell of the board. */
  lemma BlinkerTurns()
    ensures Succeeds(VerticalBlinker, HorizontalBlinker)
  {
    forall i, k | 10 <= i <= 14 && 11 <= k <= 13
      ensures SucceedsAt(VerticalBlinker, HorizontalBlinker, i, k)
    {
    }
    QuietOutside(VerticalBlinker, HorizontalBlinker, 11, 13, 12, 12);
  }

  lemma BlinkerTurnsBack()
    ensures Succeeds(HorizontalBlinker, VerticalBlinker)
  {
    forall i, k | 11 <= i <= 13 && 10 <= k <= 14
      ensures SucceedsAt(HorizontalBlinker, VerticalBlinker, i, k)
    {
    }
    QuietOutside(HorizontalBlinker, VerticalBlinker, 12, 12, 11, 13);
  }

  /** The Blinker turns on its side in one generation and back in the next: period 2. */
  lemma BlinkerOscillates()
    ensures Step(Board(VerticalBlinker)) == Board(HorizontalBlinker)
    ensures Step(Board(HorizontalBlinker)) == Board(VerticalBlinker)
    ensures Board(HorizontalBlinker) != Board(VerticalBlinker)
  {
    BlinkerOnBoard();
    BlinkerTurns();
    BlinkerTurnsBack();
    StepOfBoard(VerticalBlinker, HorizontalBlinker);
    StepOfBoard(HorizontalBlinker, VerticalBlinker);
    assert Board(HorizontalBlinker)[12][11] != Board(VerticalBlinker)[12][11];
  }

  /** The Glider's five phases; phase 4 is phase 0 moved one row up and one column right. */
  predicate Glider0(r: int, c: int)
  {
    (r == 10 && c == 11) || (r == 10 && c == 12) || (r == 11 && c == 10) || (r == 11 && c == 12) || (r == 12 && c == 12)
  }
  predicate Glider1(r: int, c: int)
  {
    (r == 10 && c == 11) || (r == 10 && c == 12) || (r == 11 && c == 12) || (r == 11 && c == 13) || (r == 12 && c == 11)
  }
  predicate Glider2(r: int, c: int)
  {
    (r == 10 && c == 11) || (r == 10 && c == 12) || (r == 10 && c == 13) || (r == 11 && c == 13) || (r == 12 && c == 12)
  }
  predicate Glider3(r: int, c: int)
  {
    (r == 9 && c == 12) || (r == 10 && c == 12) || (r == 10 && c == 13) || (r == 11 && c == 11) || (r == 11 && c == 13)
  }
  predicate Glider4(r: int, c: int)
  {
    Glider0(r + 1, c - 1)
  }

  /** The Glider preset, stamped on an empty board, is phase 0. */
  lemma GliderPresetIsPhase0()
    ensures Stamp(EmptyGrid(), Offsets(Glider)) == Board(Glider0)
  {
    forall r, c | InBounds(r, c)
      ensures Stamp(EmptyGrid(), Offsets(Glider))[r][c] == Board(Glider0)[r][c]
    {
    }
    CellwiseEqual(Stamp(EmptyGrid(), Offsets(Glider)), Board(Glider0));
  }

  lemma GliderOnBoard()
    ensures OnBoard(Glider0) && OnBoard(Glider1) && OnBoard(Glider2)
    ensures OnBoard(Glider3) && OnBoard(Glider4)
  {
  }

  /** Each phase of the Glider is followed by the next, checked at every cell of the board. */
  lemma GliderSucceeds01()
    ensures Succeeds(Glider0, Glider1)
  {
    forall i, k | 9 <= i <= 13 && 9 <= k <= 13
      ensures SucceedsAt(Glider0, Glider1, i, k)
    {
    }
    QuietOutside(Glider0, Glider1, 10, 12, 10, 12);
  }

  lemma GliderSucceeds12()
    ensures Succeeds(Glider1, Glider2)
  {
    forall i, k | 9 <= i <= 13 && 10 <= k <= 14
      ensures SucceedsAt(Glider1, Glider2, i, k)
    {
    }
    QuietOutside(Glider1, Glider2, 10, 12, 11, 13);
  }

  lemma GliderSucceeds23()
    ensures Succeeds(Glider2, Glider3)
  {
    forall i, k | 9 <= i <= 13 && 10 <= k <= 14
      ensures SucceedsAt(Glider2, Glider3, i, k)
    {
    }
    QuietOutside(Glider2, Glider3, 10, 12, 11, 13);
  }

  lemma GliderSucceeds34()
    ensures Succeeds(Glider3, Glider4)
  {
    forall i, k | 8 <= i <= 12 && 10 <= k <= 14
      ensures SucceedsAt(Glider3, Glider4, i, k)
    {
    }
    QuietOutside(Glider3, Glider4, 9, 11, 11, 13);
  }

  /** Four generations move the Glider one row up and one column right, its shape unchanged. */
  lemma GliderMoves()
    ensures Step(Step(Step(Step(Board(Glider0))))) == Board(Glider4)
  {
    GliderOnBoard();
    GliderSucceeds01();
    GliderSucceeds12();
    GliderSucceeds23();
    GliderSucceeds34();
    StepOfBoard(Glider0, Glider1);
    StepOfBoard(Glider1, Glider2);
    StepOfBoard(Glider2, Glider3);
    StepOfBoard(Glider3, Glider4);
  }
}
