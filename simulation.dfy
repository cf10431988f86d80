/**
 * The state the App component keeps for the simulation, and the handlers that change it.
 * Timers are not real here: `pending` counts the `runSimulation` callbacks that have been
 * scheduled and have not fired yet, and `Fire` is one of them firing.
 */
module Simulation {
  import opened Grids
  import opened StepEngine
  import opened Presets

  datatype Option<T> = None | Some(value: T)

  /** The Random button's board: a cell is alive where its draw came out true. */
  function RandomGrid(draws: seq<seq<bool>>): (g: Grid)
    requires |draws| == Rows && forall r :: 0 <= r < Rows ==> |draws[r]| == Cols
    ensures IsGrid(g)
    ensures forall r, c :: InBounds(r, c) ==> (g[r][c] == 1 <==> draws[r][c])
  {
    seq(Rows, r requires 0 <= r < Rows => seq(Cols, c requires 0 <= c < Cols => if draws[r][c] then 1 else 0))
  }

  /**
   * The Random button's loop: row by row, a cell is 1 when its draw (which stands for
   * `Math.random() > 0.7`) is true.
   */
  method GenerateRandomGrid(draws: seq<seq<bool>>) returns (rows: array2<int>)
    requires |draws| == Rows && forall r :: 0 <= r < Rows ==> |draws[r]| == Cols
    ensures Dimensions(rows)
    ensures Snapshot(rows) == RandomGrid(draws)
  {
    rows := new int[Rows, Cols];
    for i := 0 to Rows
      invariant forall r, c :: 0 <= r < i && 0 <= c < Cols ==> rows[r, c] == (if draws[r][c] then 1 else 0)
    {
      for k := 0 to Cols
        invariant forall r, c :: 0 <= r < i && 0 <= c < Cols ==> rows[r, c] == (if draws[r][c] then 1 else 0)
        invariant forall c :: 0 <= c < k ==> rows[i, c] == (if draws[i][c] then 1 else 0)
      {
        rows[i, k] := if draws[i][k] then 1 else 0;
      }
    }
    CellwiseEqual(Snapshot(rows), RandomGrid(draws));
  }

  class Game {
    /** The board on display; every handler replaces it by a fresh array. */
    var grid: array2<int>
    var generation: nat
    var running: bool
    /** Milliseconds between generations, kept as given. */
    var speed: int
    /** Scheduled `runSimulation` callbacks that have not fired yet. */
    var pending: nat

    /** The board is 25x25 of 0/1 cells. */
    ghost predicate BoardValid()
      reads this, grid
    {
      Dimensions(grid) && IsGrid(Snapshot(grid))
    }

    /** ... and a running simulation always has a step scheduled. */
    ghost predicate Valid()
      reads this, grid
    {
      BoardValid() && (running ==> pending > 0)
    }

    /** The initial state: an empty board, generation 0, stopped, 200 ms, no timer. */
    constructor ()
      ensures Valid()
      ensures Snapshot(grid) == EmptyGrid()
      ensures generation == 0 && !running && speed == 200 && pending == 0
    {
      var rows := GenerateEmptyGrid();
      grid, generation, running, speed, pending := rows, 0, false, 200, 0;
    }

    /**
     * `runSimulation`: when stopped, nothing happens; otherwise the board advances one
     * generation, the counter goes up by one, and the next call is scheduled after the
     * speed current now, which is returned.
     */
    method RunSimulation() returns (rescheduled: Option<int>)
      requires BoardValid()
      modifies this
      ensures Valid()
      ensures running == old(running) && speed == old(speed)
      ensures !old(running) ==>
        grid == old(grid) && generation == old(generation) && pending == old(pending) && rescheduled == None
      ensures old(running) ==>
        Snapshot(grid) == Step(old(Snapshot(grid))) && generation == old(generation) + 1 &&
        pending == old(pending) + 1 && rescheduled == Some(speed)
    {
      if !running {
        return None;
      }
      grid := NextGeneration(grid);
      generation := generation + 1;
      pending := pending + 1;
      rescheduled := Some(speed);
    }

    /** A scheduled callback fires: it is used up, and `runSimulation` runs. */
    method Fire() returns (rescheduled: Option<int>)
      requires Valid() && pending > 0
      modifies this
      ensures Valid()
      ensures running == old(running) && speed == old(speed)
      ensures !old(running) ==>
        grid == old(grid) && generation == old(generation) && pending == old(pending) - 1 && rescheduled == None
      ensures old(running) ==>
        Snapshot(grid) == Step(old(Snapshot(grid))) && generation == old(generation) + 1 &&
        pending == old(pending) && rescheduled == Some(speed)
    {
      pending := pending - 1;
      rescheduled := RunSimulation();
    }

    /**
     * The Start/Stop button. Stopping only clears the flag: a scheduled callback stays
     * scheduled and later fires as a no-op. Starting sets the flag and calls
     * `runSimulation` at once, so the first generation is computed immediately.
     */
    method StartStop() returns (rescheduled: Option<int>)
      requires Valid()
      modifies this
      ensures Valid()
      ensures running == !old(running) && speed == old(speed)
      ensures old(running) ==>
        grid == old(grid) && generation == old(generation) && pending == old(pending) && rescheduled == None
      ensures !old(running) ==>
        Snapshot(grid) == Step(old(Snapshot(grid))) && generation == old(generation) + 1 &&
        pending == old(pending) + 1 && rescheduled == Some(speed)
    {
      var wasRunning := running;
      running := !running;
      rescheduled := None;
      if !wasRunning {
        rescheduled := RunSimulation();
      }
    }

    /** The Set Speed button: the interval becomes `v`, read from the speed input; nothing else changes. */
    method SetSpeed(v: int)
      requires Valid()
      modifies this
      ensures Valid()
      ensures speed == v && grid == old(grid) && generation == old(generation)
      ensures running == old(running) && pending == old(pending)
    {
      speed := v;
    }

    /** A click on cell (r, c) flips it, but only while the simulation is stopped. */
    method ClickCell(r: int, c: int)
      requires Valid() && InBounds(r, c)
      modifies this
      ensures Valid()
      ensures Snapshot(grid) == if old(running) then old(Snapshot(grid)) else Toggle(old(Snapshot(grid)), r, c)
      ensures generation == old(generation) && running == old(running)
      ensures speed == old(speed) && pending == old(pending)
    {
      if !running {
        grid := ToggledCopy(grid, r, c);
      }
    }

    /** The Clear button: an empty board and generation 0; running or not, as before. */
    method Clear()
      requires Valid()
      modifies this
      ensures Valid()
      ensures Snapshot(grid) == EmptyGrid() && generation == 0
      ensures running == old(running) && speed == old(speed) && pending == old(pending)
    {
      grid := GenerateEmptyGrid();
      generation := 0;
    }

    /** A preset button: the preset stamped at the midpoint, whether running or not. */
    method ApplyPreset(p: Preset)
      requires Valid()
      modifies this
      ensures Valid()
      ensures Snapshot(grid) == Stamp(old(Snapshot(grid)), Offsets(p))
      ensures generation == old(generation) && running == old(running)
      ensures speed == old(speed) && pending == old(pending)
    {
      grid := StampedCopy(grid, p);
    }

    /** The Random button: the board is replaced outright; nothing else changes. */
    method Randomize(draws: seq<seq<bool>>)
      requires Valid()
      requires |draws| == Rows && forall r :: 0 <= r < Rows ==> |draws[r]| == Cols
      modifies this
      ensures Valid()
      ensures Snapshot(grid) == RandomGrid(draws)
      ensures generation == old(generation) && running == old(running)
      ensures speed == old(speed) && pending == old(pending)
    {
      grid := GenerateRandomGrid(draws);
    }
  }

  /** Start then Stop before any callback fires: one generation has already been computed. */
  method StartThenStop(game: Game)
    requires game.Valid() && !game.running
    modifies game
    ensures game.Valid() && !game.running
    ensures game.generation == old(game.generation) + 1
    ensures Snapshot(game.grid) == Step(old(Snapshot(game.grid)))
    ensures game.pending == old(game.pending) + 1
  {
    var _ := game.StartStop();
    var _ := game.StartStop();
  }

  /**
   * Stop then Start while a callback is still scheduled: the old callback is not cancelled.
   * Restarting schedules a second one, and when the old one fires it finds the simulation
   * running, steps the board and reschedules itself: two callbacks keep stepping the board.
   */
  method RestartWhileScheduled(game: Game)
    requires game.Valid() && game.running && game.pending == 1
    modifies game
    ensures game.Valid() && game.running && game.pending == 2
    ensures game.generation == old(game.generation) + 2
    ensures Snapshot(game.grid) == Step(Step(old(Snapshot(game.grid))))
  {
    var _ := game.StartStop();
    var _ := game.StartStop();
    var _ := game.Fire();
  }

  /**
   * Start, then Set Speed to `v` before the callback fires: the callback reschedules itself
   * with `v`, the speed current when it fires, not the one in force at Start.
   */
  method SpeedChangeWhileRunning(game: Game, v: int) returns (delay: Option<int>)
    requires game.Valid() && !game.running
    modifies game
    ensures delay == Some(v)
    ensures game.Valid() && game.running && game.speed == v
    ensures game.generation == old(game.generation) + 2
    ensures Snapshot(game.grid) == Step(Step(old(Snapshot(game.grid))))
  {
    var _ := game.StartStop();
    game.SetSpeed(v);
    delay := game.Fire();
  }
}
