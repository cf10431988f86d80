# Conway's Game of Life on a 25x25 board, in Dafny

This project models the simulation logic of a small React Game of Life app (`src/App.js`).

The board is 25 rows by 25 columns of cells. Each cell holds 0 (dead) or 1 (alive). There is no wraparound: cells off the board count as dead.

The model covers:

- **Grids** (`grids.dfy`). The board as a 2-D array, and its value view `Snapshot` (a sequence of rows). It holds:
  - the all-dead board (`generateEmptyGrid`);
  - the copy that `produce` hands to a recipe;
  - the cell-click toggle.
- **StepEngine** (`step.dfy`). One generation (rule B3/S23):
  - the eight-entry `operations` offset table;
  - the in-bounds neighbour count over the *old* board;
  - the per-cell rule;
  - the nested loop that writes a copy cell by cell.

  `NextGeneration` is proved equal to the pure specification `Step`. `Step` is tied to a row-by-row count of the eight neighbours (`MooreCount`) by `StepRule`.
- **Presets** (`presets.dfy`). The Blinker, Glider and Pulsar offset tables, stamped at the fixed midpoint (12, 12):
  - the double loop with its `forEach` is proved to compute `Stamp`;
  - every offset is proved to land on the board;
  - `Stamp` is proved to set exactly the listed cells and keep the rest;
  - stamping is proved idempotent.
- **Simulation** (`simulation.dfy`). The state the component keeps (`grid`, `generation`, `running`, `speed`) as a class `Game`, with the handlers: `runSimulation`, Start/Stop, Set Speed, a cell click, Clear, the preset buttons and Random.
  - The `setTimeout` reschedule is a counter `pending` of scheduled callbacks.
  - `Fire` is one of those callbacks running.
- **PresetBehaviour** (`behaviour.dfy`). What the Blinker and Glider presets do under the step, proved on the whole board:
  - the Blinker has period 2;
  - after four generations the Glider is its own shape moved one row up and one column right.

Behaviour of the code worth knowing:

- Start runs the first generation at once, since it calls `runSimulation` synchronously (src/App.js:420).
- Stamping has no bounds guard (src/App.js:315, 333, 351). It is anchored only at (12, 12). The model proves that every offset of every preset lands on the board.
- The Glider travels one row up and one column right every four generations.
- Stop only clears the `running` flag. A callback that is already scheduled stays scheduled. After Stop then Start, before the old callback fires, two callback chains step the board (`Simulation.RestartWhileScheduled`).

## Model

| member | source | states |
|---|---|---|
| Grids.Live | src/App.js:276-283 | A cell off the board reads as 0 (no wraparound); on a 0/1 board every read is 0 or 1 |
| Grids.EmptyGrid | src/App.js:109-120 | The empty board is a well-formed 25x25 board with every cell 0 |
| Grids.GenerateEmptyGrid | src/App.js:109-120 | The row-by-row loop returns a 25x25 array whose contents are the empty board |
| Grids.CopyOf | src/App.js:258 | The draft handed to a recipe is a fresh array holding exactly the old board |
| Grids.Toggle | src/App.js:389-393 | The clicked cell flips (non-zero becomes 0, 0 becomes 1), every other cell keeps its value, and a 0/1 board stays 0/1 |
| Grids.ToggleTwice | src/App.js:381-398 | Clicking the same cell twice restores the board |
| Grids.ToggleChanges | src/App.js:389-393 | A click always changes the board: on a 0/1 board the cell becomes 1 minus its old value |
| Grids.ToggleCommutes | src/App.js:381-398 | Clicks on two cells give the same board in either order |
| Grids.ToggledCopy | src/App.js:386-395 | The click recipe's copy is the toggled board |
| StepEngine.Operations | src/App.js:25-34 | The offset table has 8 entries, each a non-zero offset in {-1,0,1}x{-1,0,1} |
| StepEngine.OperationsAreTheNeighbourhood | src/App.js:25-34 | The offset table lists every non-zero offset in {-1,0,1}x{-1,0,1}, and none twice |
| StepEngine.CountUpTo | src/App.js:272-284 | After visiting the first n table entries on a 0/1 board, the running count is between 0 and n |
| StepEngine.Neighbors | src/App.js:272-284 | The count the `forEach` adds up; on a 0/1 board it lies in 0..8 |
| StepEngine.NeighborsAreMooreCount | src/App.js:272-284 | Counting in the table's order gives the count of the eight surrounding cells, off-board cells counting 0 |
| StepEngine.NextState | src/App.js:291-295 | A count below 2 or above 3 kills the cell; for a 0/1 cell the result is 0/1, and alive exactly when the count is 3, or the cell was alive and the count is 2 |
| StepEngine.Step | src/App.js:257-298 | The next generation keeps the 25x25 shape and maps a 0/1 board to a 0/1 board |
| StepEngine.StepRule | src/App.js:291-295 | The rule table per cell, stated with the eight-neighbour count: under 2 or over 3 dies, a dead cell with 3 is born, other dead cells stay dead, a live cell survives exactly with 2 or 3 |
| StepEngine.StepIsLocal | src/App.js:272-295 | A cell's next state depends only on its 3x3 square of the old board, never on cells already updated |
| StepEngine.StepOfEmpty | src/App.js:257-298 | The empty board steps to the empty board |
| StepEngine.CountNeighbors | src/App.js:262-284 | The `forEach` over the table returns the neighbour count of the old board |
| StepEngine.UpdateCell | src/App.js:286-295 | The if/else-if writes the copy's cell to the next generation's value and touches no other cell |
| StepEngine.NextRow | src/App.js:261-296 | The inner loop sets one row of the copy to the next generation and leaves the other rows alone |
| StepEngine.NextGeneration | src/App.js:257-298 | The whole nested loop over a copy yields exactly the next generation of the old board |
| Presets.Offsets | src/App.js:37-106 | Each preset table lists between 3 and 48 cells and includes the anchor cell itself, offset (0, 0) |
| Presets.Stamp | src/App.js:307-358 | The board a preset recipe produces keeps the 25x25 shape and maps a 0/1 board to a 0/1 board; which cells it sets is stated by `StampCells` |
| Presets.PresetsFit | src/App.js:313-317 | The anchor is (12, 12) and every offset of every preset, added to it, names a cell of the board |
| Presets.BlinkerFits | src/App.js:37-41 | Every Blinker offset lands on the board |
| Presets.GliderFits | src/App.js:44-50 | Every Glider offset lands on the board |
| Presets.PulsarFits | src/App.js:53-106 | Every Pulsar offset lands on the board, within rows 7..19 and columns 10..22 |
| Presets.PresetSizes | src/App.js:37-106 | The tables list 3, 5 and 48 cells, and no table lists a cell twice |
| Presets.StampCells | src/App.js:343-358 | After stamping, every listed cell is 1 and every other cell keeps its old value |
| Presets.StampIdempotent | src/App.js:307-322 | Pressing a preset twice gives the same board as pressing it once |
| Presets.StampKeepsLiveCells | src/App.js:313-317 | Stamping never kills a cell |
| Presets.StampOneMore | src/App.js:313-317 | Each further offset the `forEach` visits sets exactly one more cell alive |
| Presets.SetAlive | src/App.js:315 | One write sets exactly that cell to 1 |
| Presets.VisitCell | src/App.js:313-317 | The `forEach` at cell (i, k) stamps the whole table when (i, k) is the midpoint and changes nothing otherwise |
| Presets.StampedCopy | src/App.js:307-358 | The preset recipe's double loop yields the old board with the preset stamped at the midpoint |
| Simulation.RandomGrid | src/App.js:522-536 | The random board is 0/1 and a cell is alive exactly where its draw is true |
| Simulation.GenerateRandomGrid | src/App.js:522-534 | The row-by-row loop builds exactly the random board of the given draws |
| Simulation.Game.constructor | src/App.js:223-246 | Initial state: empty board, generation 0, stopped, speed 200, nothing scheduled |
| Simulation.Game.RunSimulation | src/App.js:248-304 | When stopped: nothing changes and nothing is rescheduled. When running: the board becomes its step, generation goes up by exactly 1, and one callback is scheduled with the current speed |
| Simulation.Game.Fire | src/App.js:303 | A scheduled callback is used up and `runSimulation` runs; while running, the number of scheduled callbacks stays the same, and the callback reschedules with the speed current when it fires |
| Simulation.Game.StartStop | src/App.js:414-422 | The flag flips. Stopping changes nothing else. Starting steps the board at once, adds 1 to generation and schedules a callback |
| Simulation.Game.SetSpeed | src/App.js:445-452 | Set Speed replaces the interval and changes nothing else |
| Simulation.Game.ClickCell | src/App.js:381-398 | While stopped the clicked cell toggles; while running the board is untouched; nothing else changes |
| Simulation.Game.Clear | src/App.js:454-458 | The board becomes empty and generation 0; running, speed and the scheduled callbacks are unchanged |
| Simulation.Game.ApplyPreset | src/App.js:490-517 | A preset button stamps the preset onto the current board, running or not, and changes nothing else |
| Simulation.Game.Randomize | src/App.js:520-537 | The Random button replaces the board by the random board of the draws and changes nothing else |
| Simulation.StartThenStop | src/App.js:414-422 | Start then Stop has already computed one generation and left one callback scheduled |
| Simulation.RestartWhileScheduled | src/App.js:414-422 | Stop then Start with a callback still scheduled leaves two callbacks stepping the board |
| Simulation.SpeedChangeWhileRunning | src/App.js:301-303 | Start, then Set Speed to v before the callback fires: the callback reschedules with v, the speed current when it fires |
| PresetBehaviour.StepOfBoard | src/App.js:257-298 | A successor worked out cell by cell from live neighbours is the step of the whole board |
| PresetBehaviour.BlinkerPresetIsVertical | src/App.js:307-322 | The Blinker stamped on an empty board is the three cells of column 12, rows 11..13 |
| PresetBehaviour.BlinkerOscillates | src/App.js:37-41 | The Blinker turns on its side in one generation and back in the next; the two phases differ (period 2) |
| PresetBehaviour.GliderPresetIsPhase0 | src/App.js:325-340 | The Glider stamped on an empty board is the Glider's phase 0 |
| PresetBehaviour.GliderMoves | src/App.js:44-50 | Four generations turn the Glider into its own shape moved one row up and one column right |

## Left out

- Rendering, styling, images and the slider (JSX, styled-components): user interface only.
- Real timers: `setTimeout` is the counter `pending` plus `Game.Fire`, and `useRef`/`useCallback` are not modelled. The model does not capture when callbacks fire or in which order relative to clicks. A caller decides when `Fire` runs.
- The speed text input (src/App.js:436-444). The field's text is stored unchecked and coerced to a number where it is used (the `setTimeout` delay at src/App.js:303, the display `speed / 1000` at src/App.js:433). `Game.SetSpeed` takes the value already as an integer, and the `console.log` calls are output. `speed` is otherwise opaque, 200 at start.
- `Math.random() > 0.7` in the Random button: the caller supplies the 25x25 matrix of draws.
- The internals of the `produce` helper: each recipe is modelled as a fresh array copy that the recipe then mutates. Structural sharing between old and new boards is not modelled.
- React's batching of state updates: each handler's updates are applied together, in source order.
- The Pulsar's period-3 behaviour under the step is not proved; only its placement and its table are.
