# r2048 board engine in Dafny

This project models the board engine of `r2048`, a 2048 clone for the terminal
written in Rust (`src/main.rs`). It proves properties of that model.

- The board is a square grid of `Option<u16>` cells: `None` is an empty
  cell, `Some(v)` a tile of value `v`. The score is a counter.
- `adj_indices` is the bounds-checked neighbour lookup. For a cell `(i, j)`,
  `Left`/`Right` step `i` by -1/+1 and `Up`/`Down` step `j` by -1/+1.
- `shift` is one in-place pass over the board in row-major order. At each
  cell `(i, j)` it looks at the neighbour in direction `d`:
  - a tile with an equal tile there absorbs it: the neighbour empties, the
    tile doubles and the score grows by twice the value;
  - an empty cell pulls in the neighbour's tile.
  Later cells of the pass see what earlier cells did. Tiles therefore travel
  away from the side `d` names: engine `Right` pulls tiles towards row 0.
- `add_random` collects the empty cells in row-major order. If there is one,
  it writes a 2 or a 4 on one of them and adds that value to the score.
- A move maps a key to an engine direction. The mapping is transposed because
  the first index is the screen row: Up/`k` gives `Right`, Down/`j` gives
  `Left`, Left/`h` gives `Down`, Right/`l` gives `Up`. The move then runs
  `bx - 1` passes of `shift` and one `add_random`.
- `main` starts a game with an empty board and one `add_random`.

Modules, one file each:

- `Tiles` (`tiles.dfy`): cells, boards, directions, the measures the engine
  keeps (tile sum, tile count, power-of-two values) and `adj_indices`.
- `Shifting` (`shifting.dfy`): `shift`.
  - `Step` is the loop body and `Scan` the row-major fold of it; `Pass` is a
    whole pass.
  - The method `Shift` updates an `array2` in place and is proved equal to
    `Pass`.
  - Lemmas cover the score and tile accounting, tile values, the empty and
    settled boards, and overflow.
- `Spawning` (`spawning.dfy`): `add_random`.
  - `EmptyCells` is the row-major list of empty cells and `Spawned` the
    result.
  - The methods `CollectEmpty` and `AddRandom` work on the array.
  - The random generator is replaced by two oracle parameters:
    - `choice` is the index `choose` picks in the list of empty cells;
    - `coin` is the outcome of `gen_bool(0.75)`, and `true` gives 2.
- `Moves` (`moves.dfy`): the key mapping, the move (`Passes`,
  `MoveResult`, `Move`, `HandleKey`) and the start of a game (`NewGame`,
  `NewBoard`).

The tile doubling `n * 2` at `src/main.rs:103` is on `u16`. `Double` models it
as a build without overflow checks computes it: 32768 doubles to 0. Lemmas
that need real doubling take the hypothesis that every merge fits in 16 bits
(`Fits`, `MergesFit`). `PassFitsBelowHalf` shows that this holds whenever
every tile is below 32768.

The score is a `usize` in the source and an unbounded `nat` here.

## Model

| member | source | states |
|---|---|---|
| Tiles.AdjIndices | src/main.rs:77-92 | The result is on the board, at distance exactly 1 from `(x, y)`, on the side `d` names. For a cell on the board it is `None` exactly when the step would leave the board through the edge `d` points at. |
| Tiles.AdjIndicesInverse | src/main.rs:77-92 | Stepping back in the opposite direction from the neighbour returns to the starting cell. |
| Tiles.EmptyBoard | src/main.rs:136 | `vec![vec![None; bx]; bx]` is an `n` by `n` board whose cells are all empty. |
| Shifting.Double | src/main.rs:103 | `n * 2` on `u16`: twice the value below 32768, twice the value minus 65536 from 32768 on (wrap-around). |
| Shifting.Step | src/main.rs:97-117 | The loop body at cell `(i, j)` keeps the board `n` by `n`. What it does to score, tiles and values is stated by the lemmas below. |
| Shifting.StepIsLocal | src/main.rs:97-117 | A step writes only the cell it visits and that cell's neighbour in direction `d`. Every other cell keeps its content. |
| Shifting.Scan | src/main.rs:95-119 | The state when the loops reach `(i, j)` keeps the board `n` by `n` and never lowers the score. |
| Shifting.Pass | src/main.rs:94-120 | A pass keeps the board's dimensions and never lowers the score. |
| Shifting.StepAccounting | src/main.rs:97-117 | One loop body: the score grows by the doubled value of its merge, if any; a merge removes one tile; when the merge fits in `u16` the tile sum is unchanged. |
| Shifting.ScanAccounting | src/main.rs:95-119 | The same identity for every prefix of the row-major scan, with the merges listed in order. |
| Shifting.PassAccounting | src/main.rs:94-120 | A pass raises the score by exactly the sum of the doubled values its merges create. The tile count falls by exactly the number of merges. When no merge overflows, the tile sum is unchanged. |
| Shifting.PassKeepsTileValues | src/main.rs:101-113 | If every tile is a power of two of at least 2 and no merge overflows, every tile after the pass is one too. |
| Shifting.PassFitsBelowHalf | src/main.rs:103 | If every tile is below 32768, no merge of the pass overflows `u16`. |
| Shifting.PassValuesFromBefore | src/main.rs:97-117 | Every tile after a pass holds the value of some tile from before the pass, or that value doubled. |
| Shifting.StepOnSettled | src/main.rs:97-117 | When every tile lies against the edge the pass pulls towards, the step at any cell changes nothing. |
| Shifting.PassOnSettled | src/main.rs:94-120 | A pass over such a settled board changes neither board nor score. |
| Shifting.PassOnEmpty | src/main.rs:94-120 | A pass over an all-empty board changes neither board nor score. |
| Shifting.ShiftCell | src/main.rs:97-117 | The in-place loop body on the array leaves the array and score equal to `Step` of the old state. |
| Shifting.Shift | src/main.rs:94-120 | `shift` on the array: its nested loops leave the array and score equal to `Pass` of the old state. |
| Spawning.EmptyBefore | src/main.rs:29-35 | The list the collecting loops hold on reaching `(i, j)`: every entry is on the board and comes before `(i, j)` in row-major order. |
| Spawning.EmptyCells | src/main.rs:27-35 | Every collected index lies on the board. |
| Spawning.EmptyCellsExact | src/main.rs:27-35 | A cell is in `empty_indices` exactly when it is on the board and empty. |
| Spawning.EmptyCellsRowMajor | src/main.rs:29-35 | `empty_indices` is strictly in row-major order, so each cell occurs once. |
| Spawning.CollectEmpty | src/main.rs:27-35 | The two loops build exactly `EmptyCells` of the array's board. |
| Spawning.Spawned | src/main.rs:37-41 | `add_random` keeps the board `n` by `n`. |
| Spawning.SpawnValue | src/main.rs:38 | The value written is 2 or 4. It is 2 exactly when the coin (the outcome of `gen_bool(0.75)`) is true, and it is a power of two of at least 2. |
| Spawning.SpawnOnFull | src/main.rs:37-41 | With no empty cell the list is empty and board and score stay as they were, whatever the oracle says. |
| Spawning.SpawnFillsChosen | src/main.rs:37-41 | With an empty cell, the chosen entry of the list was empty and now holds 2 or 4. Every other cell is unchanged. Score and tile sum rise by that value and the tile count by one. |
| Spawning.SpawnAccounting | src/main.rs:37-41 | Score and tile sum rise by the placed value (0 on a full board), and the tile count by one exactly when a tile was placed. |
| Spawning.SpawnKeepsTileValues | src/main.rs:38-39 | The placed tile is a power of two of at least 2, so a board of such tiles stays one. |
| Spawning.SpawnOnSingleEmpty | src/main.rs:27-41 | With exactly one empty cell, that cell is filled and the score rises by the placed value. |
| Spawning.AddRandom | src/main.rs:26-42 | `add_random` on the array leaves the array and score equal to `Spawned` of the old state. |
| Moves.KeyDirection | src/main.rs:159-165 | Exactly the eight move keys give a direction. Up/down keys (arrows, `k`, `j`) give `Left` or `Right`, which step the row index. Left/right keys (arrows, `h`, `l`) give `Up` or `Down`, which step the column index. The key-by-key pairing follows from `KeyMovesTilesOnScreen`. |
| Moves.KeyMovesTilesOnScreen | src/main.rs:159-165 | Under a move key every cell pulls from the neighbour on the side the key points away from, in screen coordinates, so tiles travel the way the key points. |
| Moves.Passes | src/main.rs:167-169 | `p` passes keep the board square and never lower the score. |
| Moves.PassesAccounting | src/main.rs:167-169 | The pass accounting identity composes over the `bx - 1` passes of a move. |
| Moves.MoveResult | src/main.rs:167-170 | A move keeps the board `n` by `n`. |
| Moves.MoveAccounting | src/main.rs:167-170 | A move raises the score by the doubled values of its merges plus the new tile, so never lowers it. The tile count falls by one per merge and rises by one for the new tile. Without overflow the tile sum grows by exactly the new tile. |
| Moves.MoveKeepsTileValues | src/main.rs:167-170 | If every tile is a power of two of at least 2 and no merge of the move overflows, so is every tile after the move. |
| Moves.PassesOnSettled | src/main.rs:167-169 | The passes of a move leave a settled board and its score alone. |
| Moves.UpKeyKeepsTopRowTile | src/main.rs:159-169 | With a single tile in the top screen row, the up key's passes change nothing. |
| Moves.MoveOnEmpty | src/main.rs:167-170 | A move on an empty board with oracle index 0 places the new tile at `(0, 0)`. The score grows by its value and the board holds one tile. |
| Moves.NewGame | src/main.rs:136-137 | The starting game has an `n` by `n` board. |
| Moves.NewGameHasOneTile | src/main.rs:136-137 | The starting board holds exactly one tile, a 2 or a 4, at the chosen cell. Score and tile sum both equal its value. |
| Moves.NewBoard | src/main.rs:136-137 | The allocated board is fresh and `n` by `n`, and with its score it equals `NewGame`. |
| Moves.Move | src/main.rs:167-170 | On the array, `bx - 1` calls of `Shift` and one `AddRandom` give `MoveResult` of the old state. |
| Moves.HandleKey | src/main.rs:145-173 | A move key performs the move in its direction. Any other key leaves board and score alone. |

## Left out

- Terminal set-up and tear-down (src/main.rs:139-141, 177-179) and `render` (src/main.rs:44-75): pure terminal output.
- The event loop (src/main.rs:143-175): blocking input, quitting on `q`, and re-rendering after a move. `HandleKey` models the handling of one key. `q`, every other character and every other key (`Other`) give `None`.
- The random generator (`thread_rng`, `choose`, `gen_bool(0.75)`): a foreign call. It is replaced by the oracle parameters `choice` and `coin`. The probabilities are not modelled.
- Parsing the board size from the command line (src/main.rs:128-134): a library call. The size `n` is a parameter.
- Shifting.Double: the debug-build panic on `u16` overflow at src/main.rs:103 is not modelled. The model computes the release-build wrap-around. The value lemmas assume no merge overflows (`Fits`, `MergesFit`).
- Moves.Move: requires `n >= 1`. With `bx == 0`, `bx - 1` at src/main.rs:167 underflows `usize`. A debug build panics there, and a release build would loop over an empty board.
- Moves.MoveResult: requires `n >= 1`, for the same reason.
- The score's `usize` overflow: the score is an unbounded natural number.
- Non-square boards: `shift` and `add_random` take `bx` and `by` but are only called with `bx == by`. The model uses one size `n`. `AdjIndices` keeps both bounds.
- The `isize` conversions in `adj_indices` (src/main.rs:78-79): indices are unbounded integers here, so an index beyond `isize::MAX` is not modelled.
- The `_ => panic!()` arm at src/main.rs:164 cannot be reached from the keys matched at src/main.rs:150-157, and it has no counterpart.
