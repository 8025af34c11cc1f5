/** One player move (src/main.rs:150-172): a key is mapped to an engine
    direction, then `shift` runs `bx - 1` times and `add_random` once. The
    mapping looks swapped (the Up key gives engine `Right`) because the
    engine's first index is the on-screen row: `render` draws `board[r][c]`
    at terminal row `3r + 2` and column `3c + 1` (src/main.rs:68-72). */
module Moves {
  import opened Tiles
  import opened Shifting
  import opened Spawning

  /** The keys the event loop reacts to with a move, every other character,
      and every other key (Enter, Esc, Tab, function keys, ...). */
  datatype KeyCode = ArrowUp | ArrowDown | ArrowLeft | ArrowRight | Char(c: char) | Other

  predicate IsVerticalKey(k: KeyCode) {
    k == ArrowUp || k == ArrowDown || k == Char('k') || k == Char('j')
  }

  predicate IsHorizontalKey(k: KeyCode) {
    k == ArrowLeft || k == ArrowRight || k == Char('h') || k == Char('l')
  }

  /** The engine direction a key moves in, `None` for a key that is not a
      move (the event loop ignores it, or quits on `q`). Keys pointing up or
      down on screen step the first (row) index, keys pointing left or right
      the second. */
  function KeyDirection(k: KeyCode): (r: Option<Direction>)
    ensures r.Some? <==> IsVerticalKey(k) || IsHorizontalKey(k)
    ensures IsVerticalKey(k) ==> r.Some? && (r.value == Left || r.value == Right)
    ensures IsHorizontalKey(k) ==> r.Some? && (r.value == Up || r.value == Down)
  {
    match k
    case ArrowUp => Some(Right)
    case ArrowDown => Some(Left)
    case ArrowLeft => Some(Down)
    case ArrowRight => Some(Up)
    case Char(c) =>
      if c == 'k' then Some(Right)
      else if c == 'j' then Some(Left)
      else if c == 'h' then Some(Down)
      else if c == 'l' then Some(Up)
      else None
    case Other => None
  }

  /** Where a move key points on screen, as (row step, column step); rows
      grow downwards. */
  function ScreenOffset(k: KeyCode): (int, int) {
    if k == ArrowUp || k == Char('k') then (-1, 0)
    else if k == ArrowDown || k == Char('j') then (1, 0)
    else if k == ArrowLeft || k == Char('h') then (0, -1)
    else (0, 1)
  }

  /** Under a move key every cell pulls from (and merges with) its neighbour
      on the side the key points away from, so tiles travel on screen the way
      the key points. */
  lemma KeyMovesTilesOnScreen(k: KeyCode, n: nat, i: nat, j: nat)
    requires KeyDirection(k).Some? && i < n && j < n
    ensures var (dr, dc) := ScreenOffset(k);
            var (si, sj) := (i - dr, j - dc);
            AdjIndices(i, j, KeyDirection(k).value, n, n)
              == if 0 <= si < n && 0 <= sj < n then Some((si as nat, sj as nat)) else None
  {
  }

  /** The game after `p` calls of `shift` in direction `d`. */
  function Passes(g: Game, d: Direction, n: nat, p: nat): (r: Game)
    requires IsSquare(g.board, n)
    ensures IsSquare(r.board, n)
    ensures r.score >= g.score
  {
    if p == 0 then g else Pass(Passes(g, d, n, p - 1), d, n)
  }

  /** The merges of those `p` passes, in order. */
  function PassesLog(g: Game, d: Direction, n: nat, p: nat): seq<nat>
    requires IsSquare(g.board, n)
  {
    if p == 0 then [] else PassesLog(g, d, n, p - 1) + PassLog(Passes(g, d, n, p - 1), d, n)
  }

  /** The game after one move in direction `d` on an `n` by `n` board. */
  function MoveResult(g: Game, n: nat, d: Direction, choice: nat, coin: bool): (r: Game)
    requires n >= 1 && IsSquare(g.board, n)
    requires ValidChoice(Passes(g, d, n, n - 1).board, n, choice)
    ensures IsSquare(r.board, n)
  {
    Spawned(Passes(g, d, n, n - 1), n, choice, coin)
  }

  lemma {:induction false} PassesAccounting(g: Game, d: Direction, n: nat, p: nat)
    requires IsSquare(g.board, n)
    ensures Accounted(g, Passes(g, d, n, p), PassesLog(g, d, n, p))
  {
    if p > 0 {
      var mid := Passes(g, d, n, p - 1);
      PassesAccounting(g, d, n, p - 1);
      PassAccounting(mid, d, n);
      AccountedThen(g, mid, Pass(mid, d, n), PassesLog(g, d, n, p - 1), PassLog(mid, d, n));
    }
  }

  /** The accounting identity of a move from `g` to `r`, with merge log
      `log` and new tile `v` (0 when none was placed). */
  predicate MoveAccounted(g: Game, r: Game, log: seq<nat>, v: nat) {
    && r.score == g.score + SeqSum(log) + v
    && TileCount(r.board) + |log| == TileCount(g.board) + (if v == 0 then 0 else 1)
    && (Fits(log) ==> TileSum(r.board) == TileSum(g.board) + v)
  }

  /** A move raises the score by the doubled values of its merges plus the
      new tile, so never lowers it; each merge removes one tile and the spawn
      adds one; when no merge overflows, the tile sum grows by exactly the new
      tile. */
  lemma MoveAccounting(g: Game, n: nat, d: Direction, choice: nat, coin: bool)
    requires n >= 1 && IsSquare(g.board, n)
    requires ValidChoice(Passes(g, d, n, n - 1).board, n, choice)
    ensures MoveAccounted(g, MoveResult(g, n, d, choice, coin), PassesLog(g, d, n, n - 1),
                          SpawnedValue(Passes(g, d, n, n - 1).board, n, coin))
    ensures MoveResult(g, n, d, choice, coin).score >= g.score
  {
    var m := Passes(g, d, n, n - 1);
    PassesAccounting(g, d, n, n - 1);
    AccountedThenSpawned(g, m, n, choice, coin, PassesLog(g, d, n, n - 1));
  }

  lemma AccountedThenSpawned(g: Game, m: Game, n: nat, choice: nat, coin: bool, log: seq<nat>)
    requires IsSquare(m.board, n) && ValidChoice(m.board, n, choice)
    requires Accounted(g, m, log)
    ensures MoveAccounted(g, Spawned(m, n, choice, coin), log, SpawnedValue(m.board, n, coin))
  {
    SpawnAccounting(m, n, choice, coin);
  }

  lemma {:induction false} PassesKeepTileValues(g: Game, d: Direction, n: nat, p: nat)
    requires IsSquare(g.board, n) && AllTileValues(g.board) && Fits(PassesLog(g, d, n, p))
    ensures AllTileValues(Passes(g, d, n, p).board)
  {
    if p > 0 {
      var mid := Passes(g, d, n, p - 1);
      FitsAppend(PassesLog(g, d, n, p - 1), PassLog(mid, d, n));
      PassesKeepTileValues(g, d, n, p - 1);
      PassKeepsTileValues(mid, d, n);
    }
  }

  /** When every tile is a power of two of at least 2 and no merge of the
      move overflows, so is every tile after the move, the new one included. */
  lemma MoveKeepsTileValues(g: Game, n: nat, d: Direction, choice: nat, coin: bool)
    requires n >= 1 && IsSquare(g.board, n)
    requires ValidChoice(Passes(g, d, n, n - 1).board, n, choice)
    requires AllTileValues(g.board) && Fits(PassesLog(g, d, n, n - 1))
    ensures AllTileValues(MoveResult(g, n, d, choice, coin).board)
  {
    var p := n - 1;
    var m := Passes(g, d, n, p);
    PassesKeepTileValues(g, d, n, p);
    SpawnKeepsTileValues(m, n, choice, coin);
  }

  lemma {:induction false} PassesOnSettled(g: Game, d: Direction, n: nat, p: nat)
    requires IsSquare(g.board, n) && Settled(g, d, n)
    ensures Passes(g, d, n, p) == g
  {
    if p > 0 {
      PassesOnSettled(g, d, n, p - 1);
      PassOnSettled(g, d, n);
    }
  }

  /** When the only tile is in the top row of the screen, the up key (`k`
      or the arrow) moves nothing: after the `n - 1` passes board and score
      are as before, so only the new tile changes the game. */
  lemma UpKeyKeepsTopRowTile(g: Game, n: nat, j: nat, k: KeyCode)
    requires n >= 1 && IsSquare(g.board, n) && j < n
    requires k == ArrowUp || k == Char('k')
    requires forall r, c :: 0 <= r < n && 0 <= c < n && (r, c) != (0, j) ==> g.board[r][c].None?
    ensures KeyDirection(k).Some?
    ensures Passes(g, KeyDirection(k).value, n, n - 1) == g
  {
    PassesOnSettled(g, KeyDirection(k).value, n, n - 1);
  }

  /** A move on an empty board moves nothing and places exactly the chosen
      new tile: the board then holds one tile and the score grew by its value. */
  lemma MoveOnEmpty(g: Game, n: nat, d: Direction, coin: bool)
    requires n >= 1 && IsSquare(g.board, n) && AllEmpty(g.board)
    ensures ValidChoice(Passes(g, d, n, n - 1).board, n, 0)
    ensures var r := MoveResult(g, n, d, 0, coin);
            && r.board == Update(g.board, 0, 0, Some(SpawnValue(coin)))
            && r.score == g.score + SpawnValue(coin) as nat
            && TileCount(r.board) == 1
  {
    PassesOnSettled(g, d, n, n - 1);
    EmptyCellsExact(g.board, n, (0, 0));
    EmptyCellsRowMajor(g.board, n);
    var e := EmptyCells(g.board, n);
    var k :| 0 <= k < |e| && e[k] == (0, 0);
    assert k > 0 ==> RowMajorBefore(e[0], e[k]);
    assert k == 0;
    SpawnFillsChosen(g, n, 0, coin);
    EmptyTotals(g.board);
  }

  /** The game `main` starts: an empty `n` by `n` board, score 0, and one
      `add_random`. */
  function NewGame(n: nat, choice: nat, coin: bool): (r: Game)
    requires ValidChoice(EmptyBoard(n), n, choice)
    ensures IsSquare(r.board, n)
  {
    Spawned(Game(EmptyBoard(n), 0), n, choice, coin)
  }

  /** A new game on a board of at least one cell holds exactly one tile, a 2
      or a 4, at the chosen cell, and the score is that tile's value. */
  lemma NewGameHasOneTile(n: nat, choice: nat, coin: bool)
    requires n >= 1 && ValidChoice(EmptyBoard(n), n, choice)
    ensures var r := NewGame(n, choice, coin);
            var e := EmptyCells(EmptyBoard(n), n);
            && choice < |e|
            && r.board[e[choice].0][e[choice].1] == Some(SpawnValue(coin))
            && TileCount(r.board) == 1
            && TileSum(r.board) == r.score == SpawnValue(coin) as nat
            && AllTileValues(r.board)
  {
    var g := Game(EmptyBoard(n), 0);
    assert g.board[0][0].None?;
    SpawnFillsChosen(g, n, choice, coin);
    EmptyTotals(g.board);
    SpawnKeepsTileValues(g, n, choice, coin);
  }

  /** `main`'s set-up: allocate the empty board, then `add_random`. */
  method NewBoard(n: nat, choice: nat, coin: bool) returns (board: array2<Cell>, score: nat)
    requires ValidChoice(EmptyBoard(n), n, choice)
    ensures fresh(board) && board.Length0 == n && board.Length1 == n
    ensures Game(Cells(board), score) == NewGame(n, choice, coin)
  {
    board := new Cell[n, n]((i, j) => None);
    BoardsEqual(Cells(board), EmptyBoard(n), n);
    score := AddRandom(board, 0, choice, coin);
  }

  /** One move: `bx - 1` passes of `shift` in place, then `add_random`. */
  method Move(board: array2<Cell>, score: nat, d: Direction, choice: nat, coin: bool) returns (newScore: nat)
    requires board.Length0 == board.Length1 && board.Length0 >= 1
    requires ValidChoice(Passes(Game(Cells(board), score), d, board.Length0, board.Length0 - 1).board, board.Length0, choice)
    modifies board
    ensures Game(Cells(board), newScore) == MoveResult(Game(old(Cells(board)), score), board.Length0, d, choice, coin)
  {
    var n := board.Length0;
    ghost var g0 := Game(Cells(board), score);
    newScore := score;
    for p := 0 to n - 1
      invariant Game(Cells(board), newScore) == Passes(g0, d, n, p)
    {
      newScore := Shift(board, newScore, d);
    }
    newScore := AddRandom(board, newScore, choice, coin);
  }

  /** The event loop's handling of one key press: a move key moves, any
      other key leaves board and score alone. */
  method HandleKey(board: array2<Cell>, score: nat, key: KeyCode, choice: nat, coin: bool) returns (newScore: nat)
    requires board.Length0 == board.Length1
    requires KeyDirection(key).Some? ==>
      board.Length0 >= 1 &&
      ValidChoice(Passes(Game(Cells(board), score), KeyDirection(key).value, board.Length0, board.Length0 - 1).board,
                  board.Length0, choice)
    modifies board
    ensures KeyDirection(key).None? ==> Cells(board) == old(Cells(board)) && newScore == score
    ensures KeyDirection(key).Some? ==>
      Game(Cells(board), newScore) == MoveResult(Game(old(Cells(board)), score), board.Length0, KeyDirection(key).value, choice, coin)
  {
    var d := KeyDirection(key);
    newScore := score;
    if d.Some? {
      newScore := Move(board, score, d.value, choice, coin);
    }
  }
}
