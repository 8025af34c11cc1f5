/** `add_random` (src/main.rs:26-42): collect the empty cells in row-major
    order and, if there is one, put a 2 or a 4 on one of them and add that
    value to the score. The random choices are oracle parameters: `choice`
    is the index picked from the list of empty cells, and `coin` is the
    outcome of `gen_bool(0.75)` (true gives 2). */
module Spawning {
  import opened Tiles

  predicate RowMajorBefore(p: (nat, nat), q: (nat, nat)) {
    p.0 < q.0 || (p.0 == q.0 && p.1 < q.1)
  }

  predicate StrictlyRowMajor(s: seq<(nat, nat)>) {
    forall k, l :: 0 <= k < l < |s| ==> RowMajorBefore(s[k], s[l])
  }

  /** The empty cells the loops of `add_random` have collected on arriving
      at `(i, j)`: those before it in row-major order, in that order. */
  function EmptyBefore(b: Board, n: nat, i: nat, j: nat): (r: seq<(nat, nat)>)
    requires IsSquare(b, n) && ScanPos(n, i, j)
    ensures forall k :: 0 <= k < |r| ==> r[k].0 < n && r[k].1 < n && RowMajorBefore(r[k], (i, j))
    decreases i, j
  {
    if j > 0 then EmptyBefore(b, n, i, j - 1) + (if b[i][j - 1].None? then [(i, j - 1)] else [])
    else if i > 0 then EmptyBefore(b, n, i - 1, n)
    else []
  }

  /** `empty_indices` once both loops have run. */
  function EmptyCells(b: Board, n: nat): (r: seq<(nat, nat)>)
    requires IsSquare(b, n)
    ensures forall k :: 0 <= k < |r| ==> r[k].0 < n && r[k].1 < n
  {
    EmptyBefore(b, n, n, 0)
  }

  lemma {:induction false} EmptyBeforeExact(b: Board, n: nat, i: nat, j: nat, p: (nat, nat))
    requires IsSquare(b, n) && ScanPos(n, i, j)
    ensures p in EmptyBefore(b, n, i, j) <==> p.0 < n && p.1 < n && RowMajorBefore(p, (i, j)) && b[p.0][p.1].None?
    decreases i, j
  {
    if j > 0 {
      EmptyBeforeExact(b, n, i, j - 1, p);
    } else if i > 0 {
      EmptyBeforeExact(b, n, i - 1, n, p);
    }
  }

  /** The list holds exactly the empty cells of the board. */
  lemma EmptyCellsExact(b: Board, n: nat, p: (nat, nat))
    requires IsSquare(b, n)
    ensures p in EmptyCells(b, n) <==> p.0 < n && p.1 < n && b[p.0][p.1].None?
  {
    EmptyBeforeExact(b, n, n, 0, p);
  }

  lemma {:induction false} EmptyBeforeSorted(b: Board, n: nat, i: nat, j: nat)
    requires IsSquare(b, n) && ScanPos(n, i, j)
    ensures StrictlyRowMajor(EmptyBefore(b, n, i, j))
    decreases i, j
  {
    if j > 0 {
      EmptyBeforeSorted(b, n, i, j - 1);
    } else if i > 0 {
      EmptyBeforeSorted(b, n, i - 1, n);
    }
  }

  /** The list is in row-major order, each cell once. */
  lemma EmptyCellsRowMajor(b: Board, n: nat)
    requires IsSquare(b, n)
    ensures StrictlyRowMajor(EmptyCells(b, n))
  {
    EmptyBeforeSorted(b, n, n, 0);
  }

  /** The oracle's index is valid for board `b`: below the number of empty
      cells when there is one. */
  predicate ValidChoice(b: Board, n: nat, choice: nat)
    requires IsSquare(b, n)
  {
    |EmptyCells(b, n)| > 0 ==> choice < |EmptyCells(b, n)|
  }

  /** The value `add_random` writes: 2 when `gen_bool(0.75)` comes out
      true, 4 otherwise; either way a tile value. */
  function SpawnValue(coin: bool): (r: u16)
    ensures r == 2 || r == 4
    ensures coin <==> r == 2
    ensures IsTileValue(r as nat)
  {
    assert IsPowerOfTwo(2) by { assert IsPowerOfTwo(1); }
    assert IsPowerOfTwo(4) by { assert IsPowerOfTwo(2) by { assert IsPowerOfTwo(1); } }
    if coin then 2 else 4
  }

  /** The game after `add_random`. */
  function Spawned(g: Game, n: nat, choice: nat, coin: bool): (r: Game)
    requires IsSquare(g.board, n) && ValidChoice(g.board, n, choice)
    ensures IsSquare(r.board, n)
  {
    var e := EmptyCells(g.board, n);
    if |e| == 0 then g
    else
      var (i, j) := e[choice];
      Game(Update(g.board, i, j, Some(SpawnValue(coin))), g.score + SpawnValue(coin) as nat)
  }

  /** On a board without an empty cell `add_random` changes neither the
      board nor the score, whatever the oracle says. */
  lemma SpawnOnFull(g: Game, n: nat, choice: nat, coin: bool)
    requires IsSquare(g.board, n)
    requires forall i, j :: 0 <= i < n && 0 <= j < n ==> g.board[i][j].Some?
    ensures EmptyCells(g.board, n) == [] && Spawned(g, n, choice, coin) == g
  {
    var e := EmptyCells(g.board, n);
    if e != [] {
      EmptyCellsExact(g.board, n, e[0]);
      assert false;
    }
  }

  /** On a board with an empty cell, `add_random` turns exactly the chosen
      entry of the row-major list of empty cells, which was empty, into a 2 or
      a 4, leaves every other cell alone, raises the score by that value, and
      adds one tile of that value to the board. */
  lemma SpawnFillsChosen(g: Game, n: nat, choice: nat, coin: bool)
    requires IsSquare(g.board, n) && ValidChoice(g.board, n, choice)
    requires exists i, j :: 0 <= i < n && 0 <= j < n && g.board[i][j].None?
    ensures var e := EmptyCells(g.board, n);
            var r := Spawned(g, n, choice, coin);
            var v := if coin then 2 else 4;
            && choice < |e|
            && g.board[e[choice].0][e[choice].1].None?
            && r.board[e[choice].0][e[choice].1] == Some(v as u16)
            && (forall i, j :: 0 <= i < n && 0 <= j < n && (i, j) != e[choice] ==> r.board[i][j] == g.board[i][j])
            && r.score == g.score + v
            && TileSum(r.board) == TileSum(g.board) + v
            && TileCount(r.board) == TileCount(g.board) + 1
  {
    var i, j :| 0 <= i < n && 0 <= j < n && g.board[i][j].None?;
    EmptyCellsExact(g.board, n, (i, j));
    var e := EmptyCells(g.board, n);
    var p := e[choice];
    EmptyCellsExact(g.board, n, p);
    var c := Some(SpawnValue(coin));
    TotalUpdate(g.board, p.0, p.1, c, Value);
    TotalUpdate(g.board, p.0, p.1, c, Occupied);
  }

  /** The value `add_random` places: 0 when the board is full. */
  function SpawnedValue(b: Board, n: nat, coin: bool): nat
    requires IsSquare(b, n)
  {
    if EmptyCells(b, n) == [] then 0 else SpawnValue(coin) as nat
  }

  /** `add_random` raises the score and the tile sum by the value it places,
      and the tile count by one when it places one. */
  lemma SpawnAccounting(g: Game, n: nat, choice: nat, coin: bool)
    requires IsSquare(g.board, n) && ValidChoice(g.board, n, choice)
    ensures var r := Spawned(g, n, choice, coin);
            var v := SpawnedValue(g.board, n, coin);
            && r.score == g.score + v
            && TileSum(r.board) == TileSum(g.board) + v
            && TileCount(r.board) == TileCount(g.board) + (if v == 0 then 0 else 1)
  {
    var e := EmptyCells(g.board, n);
    if e != [] {
      EmptyCellsExact(g.board, n, e[0]);
      SpawnFillsChosen(g, n, choice, coin);
    }
  }

  /** The tile `add_random` places, 2 or 4, is a power of two of at least 2. */
  lemma SpawnKeepsTileValues(g: Game, n: nat, choice: nat, coin: bool)
    requires IsSquare(g.board, n) && ValidChoice(g.board, n, choice)
    requires AllTileValues(g.board)
    ensures AllTileValues(Spawned(g, n, choice, coin).board)
  {
  }

  /** With exactly one empty cell, `add_random` fills that cell whatever the
      oracle says. */
  lemma SpawnOnSingleEmpty(g: Game, n: nat, i: nat, j: nat, coin: bool)
    requires IsSquare(g.board, n) && i < n && j < n && g.board[i][j].None?
    requires forall k, l :: 0 <= k < n && 0 <= l < n && (k, l) != (i, j) ==> g.board[k][l].Some?
    ensures EmptyCells(g.board, n) == [(i, j)]
    ensures Spawned(g, n, 0, coin).board[i][j] == Some(SpawnValue(coin))
    ensures Spawned(g, n, 0, coin).score == g.score + SpawnValue(coin) as nat
  {
    var e := EmptyCells(g.board, n);
    EmptyCellsExact(g.board, n, (i, j));
    EmptyCellsRowMajor(g.board, n);
    forall k | 0 <= k < |e|
      ensures e[k] == (i, j)
    {
      EmptyCellsExact(g.board, n, e[k]);
    }
    assert |e| > 1 ==> RowMajorBefore(e[0], e[1]);
    assert e == [(i, j)];
  }

  /** The two loops of `add_random` that collect `empty_indices`. */
  method CollectEmpty(board: array2<Cell>) returns (emptyIndices: seq<(nat, nat)>)
    requires board.Length0 == board.Length1
    ensures emptyIndices == EmptyCells(Cells(board), board.Length0)
  {
    var n := board.Length0;
    ghost var b := Cells(board);
    emptyIndices := [];
    for i := 0 to n
      invariant emptyIndices == EmptyBefore(b, n, i, 0)
    {
      for j := 0 to n
        invariant emptyIndices == EmptyBefore(b, n, i, j)
      {
        if board[i, j].None? {
          emptyIndices := emptyIndices + [(i, j)];
        }
      }
    }
  }

  /** `add_random`: the two loops collecting `empty_indices`, then the write
      of the new tile. */
  method AddRandom(board: array2<Cell>, score: nat, choice: nat, coin: bool) returns (newScore: nat)
    requires board.Length0 == board.Length1
    requires ValidChoice(Cells(board), board.Length0, choice)
    modifies board
    ensures Game(Cells(board), newScore) == Spawned(Game(old(Cells(board)), score), board.Length0, choice, coin)
  {
    var n := board.Length0;
    ghost var g0 := Game(Cells(board), score);
    var emptyIndices := CollectEmpty(board);
    newScore := score;
    if |emptyIndices| > 0 {
      var (i, j) := emptyIndices[choice];
      var v := SpawnValue(coin);
      board[i, j] := Some(v);
      newScore := score + v as nat;
      BoardsEqual(Cells(board), Spawned(g0, n, choice, coin).board, n);
    }
  }
}
