/** The board of the 2048 clone: cells, directions, the measures the engine
    keeps (tile sum, tile count, power-of-two values) and the bounds-checked
    neighbour lookup `adj_indices` (src/main.rs:14-24, 77-92). */
module Tiles {

  datatype Option<T> = None | Some(value: T)

  /** Rust's `u16`, the type of a tile's value. */
  newtype u16 = x: int | 0 <= x < 0x1_0000

  /** `None` is an empty cell, `Some(v)` a tile of value `v`. */
  type Cell = Option<u16>

  /** `Vec<Vec<Option<u16>>>`, indexed `b[i][j]`. */
  type Board = seq<seq<Cell>>

  datatype Direction = Up | Down | Left | Right

  /** The board together with the score counter that `main` hands to the
      engine by `&mut`. */
  datatype Game = Game(board: Board, score: nat)

  predicate IsSquare(b: Board, n: nat) {
    |b| == n && forall i :: 0 <= i < n ==> |b[i]| == n
  }

  /** A position `(i, j)` a row-major double loop over an `n` by `n` board
      can be at: a cell, the end `(i, n)` of row `i`, or `(n, 0)` once every
      row is done. */
  predicate ScanPos(n: nat, i: nat, j: nat) {
    (i < n && j <= n) || (i == n && j == 0)
  }

  /** `board[i][j] = c`. */
  function Update(b: Board, i: nat, j: nat, c: Cell): (r: Board)
    requires i < |b| && j < |b[i]|
    ensures |r| == |b|
  {
    b[i := b[i][j := c]]
  }

  /** Two square boards with the same cells are the same board. */
  lemma BoardsEqual(a: Board, b: Board, n: nat)
    requires IsSquare(a, n) && IsSquare(b, n)
    requires forall i, j :: 0 <= i < n && 0 <= j < n ==> a[i][j] == b[i][j]
    ensures a == b
  {
    forall i | 0 <= i < n
      ensures a[i] == b[i]
    {
      assert forall j :: 0 <= j < n ==> a[i][j] == b[i][j];
    }
  }

  /** The board held by a two-dimensional array. */
  ghost function Cells(a: array2<Cell>): (b: Board)
    reads a
    ensures |b| == a.Length0
    ensures forall i :: 0 <= i < a.Length0 ==> |b[i]| == a.Length1
    ensures forall i, j :: 0 <= i < a.Length0 && 0 <= j < a.Length1 ==> b[i][j] == a[i, j]
  {
    seq(a.Length0, i reads a requires 0 <= i < a.Length0 =>
      seq(a.Length1, j reads a requires 0 <= j < a.Length1 => a[i, j]))
  }

  // Measures of a board

  function Value(c: Cell): nat {
    if c.Some? then c.value as nat else 0
  }

  function Occupied(c: Cell): nat {
    if c.Some? then 1 else 0
  }

  function RowTotal(row: seq<Cell>, w: Cell -> nat): nat {
    if row == [] then 0 else w(row[0]) + RowTotal(row[1..], w)
  }

  function Total(b: Board, w: Cell -> nat): nat {
    if b == [] then 0 else RowTotal(b[0], w) + Total(b[1..], w)
  }

  /** The sum of all tile values on the board. */
  function TileSum(b: Board): nat {
    Total(b, Value)
  }

  /** The number of non-empty cells. */
  function TileCount(b: Board): nat {
    Total(b, Occupied)
  }

  /** Writing one cell changes a total by exactly the weight of the old and the new cell. */
  lemma {:induction false} RowTotalUpdate(row: seq<Cell>, j: nat, c: Cell, w: Cell -> nat)
    requires j < |row|
    ensures RowTotal(row[j := c], w) + w(row[j]) == RowTotal(row, w) + w(c)
  {
    if j > 0 {
      assert row[j := c][1..] == row[1..][j - 1 := c];
      RowTotalUpdate(row[1..], j - 1, c, w);
    }
  }

  lemma {:induction false} TotalUpdate(b: Board, i: nat, j: nat, c: Cell, w: Cell -> nat)
    requires i < |b| && j < |b[i]|
    ensures Total(Update(b, i, j, c), w) + w(b[i][j]) == Total(b, w) + w(c)
  {
    if i == 0 {
      assert Update(b, i, j, c)[1..] == b[1..];
      RowTotalUpdate(b[0], j, c, w);
    } else {
      assert Update(b, i, j, c)[1..] == Update(b[1..], i - 1, j, c);
      TotalUpdate(b[1..], i - 1, j, c, w);
    }
  }

  predicate AllEmpty(b: Board) {
    forall i, j :: 0 <= i < |b| && 0 <= j < |b[i]| ==> b[i][j].None?
  }

  /** An `n` by `n` board with every cell empty: `vec![vec![None; bx]; bx]`. */
  function EmptyBoard(n: nat): (b: Board)
    ensures IsSquare(b, n) && AllEmpty(b)
  {
    seq(n, i => seq(n, j => None))
  }

  lemma {:induction false} EmptyRowTotals(row: seq<Cell>)
    requires forall j :: 0 <= j < |row| ==> row[j].None?
    ensures RowTotal(row, Value) == 0 && RowTotal(row, Occupied) == 0
  {
    if row != [] {
      EmptyRowTotals(row[1..]);
    }
  }

  /** A board without tiles has tile sum 0 and tile count 0. */
  lemma {:induction false} EmptyTotals(b: Board)
    requires AllEmpty(b)
    ensures TileSum(b) == 0 && TileCount(b) == 0
  {
    if b != [] {
      EmptyRowTotals(b[0]);
      EmptyTotals(b[1..]);
    }
  }

  // Tile values

  predicate IsPowerOfTwo(v: nat)
    decreases v
  {
    v == 1 || (v >= 2 && v % 2 == 0 && IsPowerOfTwo(v / 2))
  }

  /** A value a tile may hold: a power of two, at least 2. */
  predicate IsTileValue(v: nat) {
    v >= 2 && IsPowerOfTwo(v)
  }

  predicate AllTileValues(b: Board) {
    forall i, j :: 0 <= i < |b| && 0 <= j < |b[i]| && b[i][j].Some? ==> IsTileValue(b[i][j].value as nat)
  }

  predicate AllBelow(b: Board, bound: nat) {
    forall i, j :: 0 <= i < |b| && 0 <= j < |b[i]| && b[i][j].Some? ==> b[i][j].value as nat < bound
  }

  /** Doubling keeps a tile value a tile value. */
  lemma DoubleIsTileValue(v: nat)
    requires IsTileValue(v)
    ensures IsTileValue(2 * v)
  {
  }

  // Neighbour lookup

  function AbsDiff(a: int, b: int): nat {
    if a < b then b - a else a - b
  }

  function Opposite(d: Direction): Direction {
    match d
    case Up => Down
    case Down => Up
    case Left => Right
    case Right => Left
  }

  /** `adj_indices`: the cell one step from `(x, y)` in direction `d` on a
      `xBound` by `yBound` board (`bx` and `by` in the source), if that step stays on the board. Left and Right move
      the first coordinate, Up and Down the second. */
  function AdjIndices(x: nat, y: nat, d: Direction, xBound: nat, yBound: nat): (r: Option<(nat, nat)>)
    ensures r.Some? ==> r.value.0 < xBound && r.value.1 < yBound
    ensures r.Some? ==> AbsDiff(r.value.0, x) + AbsDiff(r.value.1, y) == 1
    ensures r.Some? ==> (d == Up ==> r.value.1 < y) && (d == Down ==> r.value.1 > y)
    ensures r.Some? ==> (d == Left ==> r.value.0 < x) && (d == Right ==> r.value.0 > x)
    ensures x < xBound && y < yBound ==>
      (r.None? <==> ((d == Up && y == 0) || (d == Down && y + 1 == yBound) ||
                     (d == Left && x == 0) || (d == Right && x + 1 == xBound)))
  {
    var (x', y') := match d
      case Up => (x as int, y as int - 1)
      case Down => (x as int, y as int + 1)
      case Left => (x as int - 1, y as int)
      case Right => (x as int + 1, y as int);
    if x' >= 0 && y' >= 0 && x' < xBound && y' < yBound then Some((x', y')) else None
  }

  /** Stepping back in the opposite direction returns to the starting cell. */
  lemma AdjIndicesInverse(x: nat, y: nat, d: Direction, xBound: nat, yBound: nat)
    requires x < xBound && y < yBound && AdjIndices(x, y, d, xBound, yBound).Some?
    ensures var (x', y') := AdjIndices(x, y, d, xBound, yBound).value;
            AdjIndices(x', y', Opposite(d), xBound, yBound) == Some((x, y))
  {
  }
}
