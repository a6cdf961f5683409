/** A model of the `GoEnv` environment of go-gym (src/lib.rs): an N-by-N board
    of `i32` cells, flat action indices decoded to (row, col), and a turn field
    that alternates between BLACK and WHITE.  The model follows the code as
    written: `step` places the value 1 whatever the player, never checks
    occupancy, and its range guard admits `action == N*N`. */
module GoGym {

  /** Rust's `i32`. */
  newtype i32 = x: int | -0x8000_0000 <= x < 0x8000_0000

  const I32_MAX: int := 0x7fff_ffff

  const EMPTY: i32 := 0
  const BLACK: i32 := 1
  const WHITE: i32 := 2

  /** The two ways `step` can fail.  `ActionOutOfBounds` is the `ValueError`
      raised by the range guard; `IndexOutOfBounds` is Rust's panic when the
      decoded row or column is past the end of the `Vec`, which the Python
      binding surfaces as an exception.  Both leave the environment as it was. */
  datatype Error = ActionOutOfBounds | IndexOutOfBounds

  datatype Result<T> = Ok(value: T) | Err(error: Error)

  /** The `(observation, done, info)` part of `step`'s return tuple; the
      floating-point reward is not modelled. */
  datatype StepInfo = StepInfo(observation: i32, done: bool, info: i32)

  /** The `Board` struct: its size and the grid of rows, each a list of cells. */
  datatype Board = Board(boardSize: i32, board: seq<seq<i32>>)

  /** The fields of a `GoEnv`, as one value. */
  datatype EnvState = EnvState(actionSpace: i32, observationSpace: i32, board: Board, currentPlayer: i32)

  predicate IsPlayer(p: i32) {
    p == BLACK || p == WHITE
  }

  /** Board sizes whose square fits in an `i32`, so that the constructor's
      `board_size * board_size` neither overflows nor is non-positive. */
  predicate ValidBoardSize(n: i32) {
    0 < n && n as int * n as int <= I32_MAX
  }

  /** The grid has `n` rows of `n` cells. */
  predicate IsGrid(grid: seq<seq<i32>>, n: int) {
    && |grid| == n
    && forall r :: 0 <= r < |grid| ==> |grid[r]| == n
  }

  predicate IsSquare(b: Board) {
    IsGrid(b.board, b.boardSize as int)
  }

  /** What every environment built by the constructor keeps. */
  predicate WellFormed(s: EnvState) {
    && ValidBoardSize(s.board.boardSize)
    && IsSquare(s.board)
    && s.actionSpace as int == s.board.boardSize as int * s.board.boardSize as int
    && s.observationSpace == s.actionSpace
  }

  /** Cell (row, col) of an environment's grid. */
  function Cell(s: EnvState, row: int, col: int): i32
    requires IsSquare(s.board)
    requires 0 <= row < s.board.boardSize as int && 0 <= col < s.board.boardSize as int
  {
    s.board.board[row][col]
  }

  // ---------------------------------------------------------------------------
  // Construction

  /** The state `py_new` builds. */
  function NewEnv(boardSize: i32): EnvState
    requires ValidBoardSize(boardSize)
  {
    var n := boardSize as int;
    EnvState(boardSize * boardSize, boardSize * boardSize,
             Board(boardSize, seq(n, _ => seq(n, _ => EMPTY))),
             BLACK)
  }

  /** A fresh environment is well formed, both spaces are N*N, every cell of
      the N-by-N grid is EMPTY, and BLACK is to move. */
  lemma NewEnvShape(boardSize: i32)
    requires ValidBoardSize(boardSize)
    ensures var s := NewEnv(boardSize);
      && WellFormed(s)
      && s.board.boardSize == boardSize
      && |s.board.board| == boardSize as int
      && s.actionSpace as int == boardSize as int * boardSize as int
      && s.observationSpace as int == boardSize as int * boardSize as int
      && (forall r, c :: 0 <= r < boardSize as int && 0 <= c < boardSize as int ==> Cell(s, r, c) == EMPTY)
      && s.currentPlayer == BLACK
  {
  }

  // ---------------------------------------------------------------------------
  // The turn toggle

  /** `change_turn`'s new player: WHITE after BLACK, BLACK after anything else. */
  function NextPlayer(p: i32): (q: i32)
    ensures IsPlayer(q)
    ensures q == WHITE <==> p == BLACK
  {
    if p == BLACK then WHITE else BLACK
  }

  /** Toggling twice restores BLACK and WHITE; a player value outside those
      two is not restored (it comes back as WHITE). */
  lemma NextPlayerTwice(p: i32)
    ensures IsPlayer(p) <==> NextPlayer(NextPlayer(p)) == p
  {
  }

  // ---------------------------------------------------------------------------
  // Index decoding

  /** How `step` turns a flat action into a (row, col) pair:
      `(action / n, action % n)`.  For the non-negative actions that reach it,
      Rust's truncating division agrees with Dafny's Euclidean one. */
  function Decode(action: int, n: int): (int, int)
    requires n > 0
  {
    (action / n, action % n)
  }

  /** The inverse of `Decode` on the board: row-major flattening. */
  function Encode(row: int, col: int, n: int): int {
    row * n + col
  }

  /** Every action in `[0, n*n)` decodes to a cell of the board, and encoding
      that cell gives the action back. */
  lemma DecodeInRange(action: int, n: int)
    requires n > 0 && 0 <= action < n * n
    ensures 0 <= Decode(action, n).0 < n
    ensures 0 <= Decode(action, n).1 < n
    ensures Encode(Decode(action, n).0, Decode(action, n).1, n) == action
  {
  }

  /** Multiplying by a positive number preserves strict order, read backwards. */
  lemma MulCancelLess(a: int, b: int, n: int)
    requires 0 < n && a * n < b * n
    ensures a < b
  {
  }

  /** The only multiple of a positive `n` strictly between `-n` and `n` is 0. */
  lemma SmallMultiple(k: int, n: int)
    requires 0 < n && -n < k * n < n
    ensures k == 0
  {
  }

  /** Every cell of the board encodes to an action in `[0, n*n)` that decodes
      back to it. */
  lemma EncodeDecode(row: int, col: int, n: int)
    requires 0 <= row < n && 0 <= col < n
    ensures 0 <= Encode(row, col, n) < n * n
    ensures Decode(Encode(row, col, n), n) == (row, col)
  {
    var a := Encode(row, col, n);
    assert (row + 1) * n <= n * n by {
      MulMonotone(row + 1, n, n);
    }
    var q, m := a / n, a % n;
    assert q * n + m == row * n + col;
    assert (q - row) * n == col - m;
    SmallMultiple(q - row, n);
  }

  /** Division and remainder of a non-negative action by a positive size. */
  lemma DivModBounds(a: int, n: int)
    requires 0 <= a && 0 < n
    ensures 0 <= a / n <= a && 0 <= a % n < n
  {
    var q, m := a / n, a % n;
    assert q * n == a - m;
    MulCancelLess(-1, q, n);
    MulMonotone(1, n, q);
  }

  lemma MulMonotone(a: int, b: int, n: int)
    requires 0 <= a <= b && 0 <= n
    ensures a * n <= b * n
  {
  }

  /** Two actions in range that decode to the same cell are the same action. */
  lemma DecodeInjective(a: int, b: int, n: int)
    requires n > 0 && 0 <= a < n * n && 0 <= b < n * n
    requires Decode(a, n) == Decode(b, n)
    ensures a == b
  {
  }

  /** The 9-by-9 smoke test's action 40 is the centre point (4, 4). */
  lemma DecodeCentreOfNine()
    ensures Decode(40, 9) == (4, 4)
  {
  }

  // ---------------------------------------------------------------------------
  // The move transition

  /** Writes the literal 1 (the BLACK value) at (row, col), then toggles the
      turn: the accepted half of `step`. */
  function Commit(s: EnvState, row: int, col: int): EnvState
    requires 0 <= row < |s.board.board| && 0 <= col < |s.board.board[row]|
  {
    var grid := s.board.board;
    s.(board := s.board.(board := grid[row := grid[row][col := 1]]),
       currentPlayer := NextPlayer(s.currentPlayer))
  }

  /** `step` as written: the range guard `action > action_space || action < 0`,
      the decoding, Rust's bounds check on both indices, then the write and
      the turn change. */
  function StepSpec(s: EnvState, action: i32): Result<(EnvState, StepInfo)>
    requires s.board.boardSize > 0
  {
    if action > s.actionSpace || action < 0 then
      Err(ActionOutOfBounds)
    else
      var (row, col) := Decode(action as int, s.board.boardSize as int);
      if row >= |s.board.board| || col >= |s.board.board[row]| then
        Err(IndexOutOfBounds)
      else
        Ok((Commit(s, row, col), StepInfo(0, false, 0)))
  }

  /** `step` succeeds exactly on `[0, action_space)`; the guard rejects the
      actions below 0 and above `action_space`; the one action it admits
      beyond the board, `action_space` itself, panics on the index. */
  lemma StepOutcome(s: EnvState, action: i32)
    requires WellFormed(s)
    ensures StepSpec(s, action).Ok? <==> 0 <= action < s.actionSpace
    ensures StepSpec(s, action) == Err(ActionOutOfBounds) <==> action < 0 || action > s.actionSpace
    ensures StepSpec(s, action) == Err(IndexOutOfBounds) <==> action == s.actionSpace
  {
    var n := s.board.boardSize as int;
    if 0 <= action < s.actionSpace {
      DecodeInRange(action as int, n);
    } else if action == s.actionSpace {
      StepPanicsAtActionSpace(s);
    }
  }

  /** An accepted `step` keeps the environment well formed, sets the decoded
      cell to BLACK whoever is to move and whatever it held, leaves every
      other cell as it was, and toggles the player. */
  lemma StepAccepted(s: EnvState, action: i32)
    requires WellFormed(s) && 0 <= action < s.actionSpace
    ensures StepSpec(s, action).Ok?
    ensures var (t, info) := StepSpec(s, action).value;
      var n := s.board.boardSize as int;
      var (row, col) := Decode(action as int, n);
      && WellFormed(t)
      && t.actionSpace == s.actionSpace && t.observationSpace == s.observationSpace
      && t.board.boardSize == s.board.boardSize
      && 0 <= row < n && 0 <= col < n
      && Cell(t, row, col) == BLACK
      && (forall r, c :: 0 <= r < n && 0 <= c < n && (r, c) != (row, col) ==> Cell(t, r, c) == Cell(s, r, c))
      && t.currentPlayer == NextPlayer(s.currentPlayer)
      && info == StepInfo(0, false, 0)
  {
    DecodeInRange(action as int, s.board.boardSize as int);
  }

  /** The off-by-one as written: `action == action_space` passes the guard,
      decodes to row N (one past the last row), and the write panics. */
  lemma StepPanicsAtActionSpace(s: EnvState)
    requires WellFormed(s)
    ensures !(s.actionSpace > s.actionSpace || s.actionSpace < 0)
    ensures Decode(s.actionSpace as int, s.board.boardSize as int) == (s.board.boardSize as int, 0)
    ensures StepSpec(s, s.actionSpace) == Err(IndexOutOfBounds)
  {
    var n := s.board.boardSize as int;
    assert (n * n) / n == n && (n * n) % n == 0 by {
      var q, m := (n * n) / n, (n * n) % n;
      assert q * n + m == n * n;
      assert (q - n) * n == -m;
      SmallMultiple(q - n, n);
    }
  }

  /** `step` with the guard it evidently intends, `action >= action_space`:
      every action it admits lies on the board, so it never panics. */
  function CheckedStep(s: EnvState, action: i32): (r: Result<(EnvState, StepInfo)>)
    requires WellFormed(s)
    ensures r.Err? ==> r.error == ActionOutOfBounds
    ensures r.Ok? <==> 0 <= action < s.actionSpace
  {
    if action >= s.actionSpace || action < 0 then
      Err(ActionOutOfBounds)
    else
      var (row, col) := Decode(action as int, s.board.boardSize as int);
      DecodeInRange(action as int, s.board.boardSize as int);
      Ok((Commit(s, row, col), StepInfo(0, false, 0)))
  }

  /** The corrected `step` differs from the one as written only at
      `action == action_space`, which it rejects instead of panicking. */
  lemma CheckedStepAgrees(s: EnvState, action: i32)
    requires WellFormed(s)
    ensures action != s.actionSpace ==> CheckedStep(s, action) == StepSpec(s, action)
    ensures action == s.actionSpace ==> CheckedStep(s, action) == Err(ActionOutOfBounds) != StepSpec(s, action)
  {
    if 0 <= action < s.actionSpace {
      DecodeInRange(action as int, s.board.boardSize as int);
    } else if action == s.actionSpace {
      StepPanicsAtActionSpace(s);
    }
  }

  // ---------------------------------------------------------------------------
  // Sequences of moves

  /** A caller driving `step` with a list of actions; the first error stops
      the run (the exception reaches the caller). */
  function Run(s: EnvState, actions: seq<i32>): Result<EnvState>
    requires s.board.boardSize > 0
    decreases |actions|
  {
    if actions == [] then Ok(s)
    else match StepSpec(s, actions[0])
      case Err(e) => Err(e)
      case Ok((t, _)) => Run(t, actions[1..])
  }

  /** The cells a list of actions decodes to, in order. */
  function Landings(actions: seq<i32>, n: int): seq<(int, int)>
    requires n > 0
  {
    seq(|actions|, i requires 0 <= i < |actions| => Decode(actions[i] as int, n))
  }

  /** Writes 1 into each listed cell in turn, as successive accepted steps
      do to the grid. */
  function Paint(grid: seq<seq<i32>>, cells: seq<(int, int)>): seq<seq<i32>>
    requires forall i :: 0 <= i < |cells| ==> 0 <= cells[i].0 < |grid| && 0 <= cells[i].1 < |grid[cells[i].0]|
    decreases |cells|
  {
    if cells == [] then grid
    else
      var (r, c) := cells[0];
      Paint(grid[r := grid[r][c := 1]], cells[1..])
  }

  /** Painting keeps an n-by-n grid n-by-n; a cell holds 1 afterwards iff it
      is listed, and keeps its old value otherwise. */
  lemma {:induction false} PaintCells(grid: seq<seq<i32>>, cells: seq<(int, int)>, n: int)
    requires IsGrid(grid, n)
    requires forall i :: 0 <= i < |cells| ==> 0 <= cells[i].0 < n && 0 <= cells[i].1 < n
    ensures IsGrid(Paint(grid, cells), n)
    ensures forall r, c :: 0 <= r < n && 0 <= c < n ==>
      Paint(grid, cells)[r][c] == if (r, c) in cells then 1 else grid[r][c]
    decreases |cells|
  {
    if cells != [] {
      var (r0, c0) := cells[0];
      var painted := grid[r0 := grid[r0][c0 := 1]];
      PaintCells(painted, cells[1..], n);
      assert cells == [cells[0]] + cells[1..];
    }
  }

  /** `change_turn` applied `k` times to player `p`. */
  function Toggles(p: i32, k: nat): i32
    decreases k
  {
    if k == 0 then p else Toggles(NextPlayer(p), k - 1)
  }

  /** From BLACK or WHITE, an even number of toggles gives the same player
      back and an odd number gives the other one. */
  lemma {:induction false} TogglesAlternate(p: i32, k: nat)
    requires IsPlayer(p)
    ensures Toggles(p, k) == if k % 2 == 0 then p else NextPlayer(p)
    decreases k
  {
    if k > 0 {
      TogglesAlternate(NextPlayer(p), k - 1);
      NextPlayerTwice(p);
    }
  }

  /** A run of actions all in `[0, action_space)` succeeds; its grid is the
      starting grid with 1 painted at every cell the actions decode to, and
      the player has been toggled once per action. */
  lemma {:induction false} RunInRange(s: EnvState, actions: seq<i32>)
    requires WellFormed(s)
    requires forall i :: 0 <= i < |actions| ==> 0 <= actions[i] < s.actionSpace
    ensures Run(s, actions).Ok?
    ensures var t := Run(s, actions).value;
      var n := s.board.boardSize as int;
      && WellFormed(t)
      && t.board.boardSize == s.board.boardSize
      && t.actionSpace == s.actionSpace && t.observationSpace == s.observationSpace
      && (forall i :: 0 <= i < |actions| ==> 0 <= Landings(actions, n)[i].0 < n && 0 <= Landings(actions, n)[i].1 < n)
      && t.board.board == Paint(s.board.board, Landings(actions, n))
      && t.currentPlayer == Toggles(s.currentPlayer, |actions|)
    decreases |actions|
  {
    var n := s.board.boardSize as int;
    forall i | 0 <= i < |actions|
      ensures 0 <= Landings(actions, n)[i].0 < n && 0 <= Landings(actions, n)[i].1 < n
    {
      DecodeInRange(actions[i] as int, n);
    }
    if actions != [] {
      var a := actions[0];
      StepAccepted(s, a);
      var s1 := StepSpec(s, a).value.0;
      RunInRange(s1, actions[1..]);
      assert Landings(actions[1..], n) == Landings(actions, n)[1..];
    }
  }

  /** A run fails exactly when some action lies outside `[0, action_space)`. */
  lemma {:induction false} RunFailure(s: EnvState, actions: seq<i32>)
    requires WellFormed(s)
    ensures Run(s, actions).Err? <==> exists i :: 0 <= i < |actions| && !(0 <= actions[i] < s.actionSpace)
    decreases |actions|
  {
    if actions != [] {
      var a := actions[0];
      StepOutcome(s, a);
      if 0 <= a < s.actionSpace {
        StepAccepted(s, a);
        var s1 := StepSpec(s, a).value.0;
        RunFailure(s1, actions[1..]);
        if exists i :: 0 <= i < |actions| && !(0 <= actions[i] < s.actionSpace) {
          var i :| 0 <= i < |actions| && !(0 <= actions[i] < s.actionSpace);
          assert actions[1..][i - 1] == actions[i];
        }
        if exists j :: 0 <= j < |actions[1..]| && !(0 <= actions[1..][j] < s1.actionSpace) {
          var j :| 0 <= j < |actions[1..]| && !(0 <= actions[1..][j] < s1.actionSpace);
          assert actions[j + 1] == actions[1..][j];
        }
      } else {
        assert !(0 <= actions[0] < s.actionSpace);
      }
    }
  }

  /** From an empty board, any run of in-range actions leaves no WHITE stone
      anywhere: a cell is BLACK iff some action landed on it and EMPTY
      otherwise; BLACK is to move after an even number of moves, WHITE after
      an odd number. */
  lemma GameFromEmptyBoard(boardSize: i32, actions: seq<i32>)
    requires ValidBoardSize(boardSize)
    requires forall i :: 0 <= i < |actions| ==> 0 <= actions[i] as int < boardSize as int * boardSize as int
    ensures Run(NewEnv(boardSize), actions).Ok?
    ensures var t := Run(NewEnv(boardSize), actions).value;
      var n := boardSize as int;
      && WellFormed(t) && t.board.boardSize == boardSize
      && (forall r, c :: 0 <= r < n && 0 <= c < n ==>
            (Cell(t, r, c) == BLACK <==> (r, c) in Landings(actions, n))
            && (Cell(t, r, c) == EMPTY <==> (r, c) !in Landings(actions, n)))
      && t.currentPlayer == (if |actions| % 2 == 0 then BLACK else WHITE)
  {
    var s := NewEnv(boardSize);
    NewEnvShape(boardSize);
    RunInRange(s, actions);
    PaintCells(s.board.board, Landings(actions, boardSize as int), boardSize as int);
    TogglesAlternate(BLACK, |actions|);
  }

  // ---------------------------------------------------------------------------
  // The environment object

  class GoEnv {
    var actionSpace: i32
    var observationSpace: i32
    var board: Board
    var currentPlayer: i32

    /** The environment's fields as one value. */
    function State(): EnvState
      reads this
    {
      EnvState(actionSpace, observationSpace, board, currentPlayer)
    }

    ghost predicate Valid()
      reads this
    {
      WellFormed(State())
    }

    /** `py_new`: an N-by-N grid of EMPTY, both spaces N*N, BLACK to move. */
    constructor (boardSize: i32)
      requires ValidBoardSize(boardSize)
      ensures Valid()
      ensures State() == NewEnv(boardSize)
    {
      actionSpace := boardSize * boardSize;
      observationSpace := boardSize * boardSize;
      board := Board(boardSize, seq(boardSize as int, _ => seq(boardSize as int, _ => 0)));
      currentPlayer := BLACK;
      NewEnvShape(boardSize);
    }

    /** `reset`: succeeds and changes nothing. */
    method Reset() returns (r: Result<()>)
      ensures r == Ok(())
    {
      r := Ok(());
    }

    /** `step`: rejects actions outside `[0, action_space]`, decodes the
        action, writes 1 into that cell and toggles the turn.  The new state
        and the outcome are those of `StepSpec`; on any error nothing
        changes. */
    method Step(action: i32) returns (r: Result<StepInfo>)
      requires Valid()
      modifies this
      ensures Valid()
      ensures r.Ok? ==> StepSpec(old(State()), action) == Ok((State(), r.value))
      ensures r.Err? ==> StepSpec(old(State()), action) == Err(r.error) && State() == old(State())
    {
      ghost var s0 := State();
      if action > actionSpace || action < 0 {
        r := Err(ActionOutOfBounds);
        return;
      }
      DivModBounds(action as int, board.boardSize as int);
      var row := action / board.boardSize;
      var col := action % board.boardSize;
      // Indexing a Vec past its end panics before anything is written.
      if row as int >= |board.board| || col as int >= |board.board[row]| {
        r := Err(IndexOutOfBounds);
        return;
      }
      board := board.(board := board.board[row as int := board.board[row][col as int := 1]]);
      // change_turn always returns Ok, so its `?` never propagates.
      var turned := ChangeTurn();
      r := Ok(StepInfo(0, false, 0));
      assert State() == Commit(s0, row as int, col as int);
      StepOutcome(s0, action);
      StepAccepted(s0, action);
    }

    /** `change_turn`: BLACK becomes WHITE, anything else becomes BLACK; only
        the player field changes. */
    method ChangeTurn() returns (r: Result<()>)
      modifies this`currentPlayer
      ensures r == Ok(())
      ensures currentPlayer == NextPlayer(old(currentPlayer))
      ensures board == old(board) && actionSpace == old(actionSpace) && observationSpace == old(observationSpace)
    {
      if currentPlayer == BLACK {
        currentPlayer := WHITE;
      } else {
        currentPlayer := BLACK;
      }
      r := Ok(());
    }

    /** `is_valid_move`: a stub that accepts every action. */
    function IsValidMove(action: i32): (r: Result<bool>)
      ensures r == Ok(true)
    {
      Ok(true)
    }
  }

  /** The Python smoke test: a 9-by-9 environment, reset, then action 40,
      which lands BLACK on the centre point and hands the move to WHITE. */
  method SmokeTest() returns (centre: i32, player: i32)
    ensures centre == BLACK && player == WHITE
  {
    var env := new GoEnv(9);
    var reset := env.Reset();
    var stepped := env.Step(40);
    StepAccepted(NewEnv(9), 40);
    assert stepped.Ok?;
    centre := env.board.board[4][4];
    player := env.currentPlayer;
  }
}
