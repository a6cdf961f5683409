# go-gym `GoEnv`, modelled in Dafny

go-gym is a Rust extension that gives Python a Go environment (`GoEnv`). It has
an N-by-N board of `i32` cells (0 = EMPTY, 1 = BLACK, 2 = WHITE), an action
space and an observation space of N·N, and the player to move. This project
models `GoEnv` as the code implements it, in one module `GoGym` (`go_gym.dfy`):

- `Board` (the Rust struct, held by value inside `GoEnv`) is a datatype.
  `GoEnv` is a class. Its fields are `actionSpace`, `observationSpace`,
  `board` and `currentPlayer`. `State()` gives them as one `EnvState` value.
- `py_new` is the class constructor. `step`, `change_turn`, `reset` and
  `is_valid_move` are the methods `Step`, `ChangeTurn`, `Reset` and
  `IsValidMove`.
- `Step` is proved against the pure function `StepSpec`. The lemmas about
  `StepSpec`, `Decode` and `Run` state what the code promises.
- Rust's `i32` is the newtype `i32`. The grid is a `seq<seq<i32>>` that
  `Step` reassigns with one cell changed.
- `step`'s `ValueError` is `Err(ActionOutOfBounds)`. The panic that Rust
  raises when an index is past the end of a `Vec` is `Err(IndexOutOfBounds)`;
  the Python binding turns that panic into an exception. In both cases the
  state is unchanged, because the panic happens before the write.

The model follows the code as written:

- `step` always writes 1 (the BLACK value), whoever is to move.
- `step` never checks whether the cell is occupied.
- `is_valid_move` accepts everything.
- The range guard `action > action_space || action < 0` lets
  `action == action_space` through. That action decodes to row N, and the
  write then panics.

A full Go engine would also find groups, count liberties, capture stones and
forbid suicide. The code has none of these, so the model has none either.
One consequence: no WHITE stone ever appears on the board.
`GameFromEmptyBoard` proves this after any sequence of accepted moves.
`GoEnv.Step`'s error clause adds that a failed step changes nothing.

## Model

| member | source | states |
|---|---|---|
| `GoGym.GoEnv.constructor` | src/lib.rs:31-42 | The new environment is well formed, and its state is exactly `NewEnv(board_size)`. |
| `GoGym.NewEnvShape` | src/lib.rs:32-41 | After construction: action and observation spaces are both N·N; the grid has N rows of N cells, all EMPTY; BLACK is to move. |
| `GoGym.GoEnv.Reset` | src/lib.rs:44-46 | `reset` returns Ok and changes nothing (it has no modifies clause). |
| `GoGym.GoEnv.Step` | src/lib.rs:49-67 | New state and outcome equal `StepSpec` of the old state. On every error the state is unchanged. The environment stays well formed. |
| `GoGym.StepOutcome` | src/lib.rs:51-61 | `step` succeeds iff 0 ≤ action < action_space. The guard's ValueError happens iff action < 0 or action > action_space. The index panic happens iff action == action_space. |
| `GoGym.StepAccepted` | src/lib.rs:57-66 | An accepted step sets the decoded cell to 1 (BLACK), whoever is to move and whatever the cell held. Every other cell is unchanged. The player is toggled, the spaces and size stay the same, and the result is (0, false, 0). |
| `GoGym.StepPanicsAtActionSpace` | src/lib.rs:51-61 | As written: action_space passes the guard and decodes to (N, 0), one row past the grid, so `step` panics. |
| `GoGym.CheckedStep` | src/lib.rs:51-55 | With the intended guard `action >= action_space`, the only error is the out-of-bounds ValueError, and success happens iff 0 ≤ action < action_space. |
| `GoGym.CheckedStepAgrees` | src/lib.rs:51-61 | The corrected guard changes the outcome only at action == action_space: it rejects that action where the code as written panics. |
| `GoGym.DecodeInRange` | src/lib.rs:57-58 | For 0 ≤ action < N·N, row = action / N and col = action % N both lie in [0, N), and row·N + col == action. |
| `GoGym.EncodeDecode` | src/lib.rs:57-58 | Every cell (row, col) of the grid is the decoding of exactly one action, row·N + col, which lies in [0, N·N). |
| `GoGym.DecodeInjective` | src/lib.rs:57-58 | Two in-range actions that decode to the same cell are equal. |
| `GoGym.DecodeCentreOfNine` | python/tests/test_go_env.py:6-14 | On the 9×9 test board, action 40 decodes to (4, 4). |
| `GoGym.NextPlayer` | src/lib.rs:69-75 | The new player is always BLACK or WHITE. It is WHITE iff the old player was BLACK. |
| `GoGym.NextPlayerTwice` | src/lib.rs:69-75 | Toggling twice restores the player iff the player is BLACK or WHITE. |
| `GoGym.GoEnv.ChangeTurn` | src/lib.rs:69-76 | Returns Ok. `current_player` becomes its toggle; the board and both spaces are unchanged. |
| `GoGym.GoEnv.IsValidMove` | src/lib.rs:79-81 | `is_valid_move` returns Ok(true) for every action. |
| `GoGym.PaintCells` | src/lib.rs:61 | Writing 1 into a list of cells of an N-by-N grid keeps it N-by-N. Afterwards a cell holds 1 iff it is in the list; every other cell keeps its old value. |
| `GoGym.TogglesAlternate` | src/lib.rs:69-75 | From BLACK or WHITE, k calls of `change_turn` give the same player back when k is even and the other player when k is odd. |
| `GoGym.RunInRange` | src/lib.rs:49-75 | Any sequence of actions in [0, action_space) succeeds. The final grid is the starting grid with 1 written at each cell the actions decode to, in order. The player has been toggled once per action. The sizes and spaces are unchanged. |
| `GoGym.RunFailure` | src/lib.rs:51-61 | A sequence of steps fails iff some action lies outside [0, action_space). |
| `GoGym.GameFromEmptyBoard` | src/lib.rs:32-75 | From a new board, after in-range moves: a cell is BLACK iff some move landed there, and EMPTY otherwise (so never WHITE). BLACK is to move after an even number of moves, WHITE after an odd number. |
| `GoGym.SmokeTest` | python/tests/test_go_env.py:6-15 | Creating a 9×9 environment, resetting it and stepping 40 puts BLACK at (4, 4) and leaves WHITE to move. |

## Findings

| source | as written | input that shows it | evidently intended | confidence | as-written member | corrected member |
|---|---|---|---|---|---|---|
| src/lib.rs:51 | the upper bound test `action > self.action_space` admits `action == action_space` | board_size 9, action 81: row 81 / 9 = 9, and `board[9]` panics | upper bound test `action >= self.action_space` | high; proved, not executed | `GoGym.StepPanicsAtActionSpace` | `GoGym.CheckedStep` |

`GoEnv.Step` and `Run` keep the guard as written, because that is how the
system behaves. `CheckedStepAgrees` shows that the corrected guard differs
from it only at `action == action_space`.

## Left out

- GoGym.GoEnv.constructor: requires 0 < board_size and board_size² ≤ 2³¹−1, which the source does not check. With board_size ≤ 0, `step` divides by zero, or `vec!` is asked for a huge length when a negative size is cast to `usize`. With board_size > 46340, `board_size * board_size` overflows `i32`: it panics in debug builds and wraps in release builds to a value that is not N·N: a negative one makes every `step` fail with ValueError, while 0 or a positive one lets `step` accept actions up to it (for board_size 65536 it wraps to 0, and `step(0)` writes cell (0, 0)). None of these paths is modelled.
- GoGym.GoEnv.ChangeTurn: its `PyResult` is always `Ok`, so the `?` in `step` never propagates an error; the model calls it without a branch.
- `render` (src/lib.rs:83-122): console printing only.
- The `#[pymodule]` registration and the `#[pyclass]`/`#[pymethods]` glue: Python bindings. `PyResult` errors become the `Result` datatype.
- The `f32` reward in `step`'s result: a floating-point constant with no logic. `StepInfo` holds only the observation, done flag and info.
- The Python test's `render` call and its commented-out `step(-1)`: printing and dead code.
