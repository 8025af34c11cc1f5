/** `shift` (src/main.rs:94-120): one pass over the board in row-major order.
    At each cell, a tile absorbs an equal neighbour in direction `d` (the
    neighbour empties, the tile doubles, the score grows by twice the value),
    and an empty cell pulls in its neighbour's tile. The board is updated in
    place, so later cells of the pass see what earlier cells did. */
module Shifting {
  import opened Tiles

  /** `n * 2` on a `u16`, as a build without overflow checks computes it:
      doubling 32768 wraps to 0. A build with overflow checks panics there
      instead; the lemmas below exclude that case by the hypothesis that every
      merge of the pass fits (`Fits`). */
  function Double(v: u16): (r: u16)
    ensures v < 0x8000 ==> r as nat == 2 * v as nat
    ensures v >= 0x8000 ==> r as nat == 2 * v as nat - 0x1_0000
  {
    ((2 * v as int) % 0x1_0000) as u16
  }

  /** The step at cell `(i, j)` merges: it holds a tile and its neighbour in
      direction `d` holds one of the same value. */
  predicate Merges(g: Game, d: Direction, n: nat, i: nat, j: nat)
    requires IsSquare(g.board, n) && i < n && j < n
  {
    var adj := AdjIndices(i, j, d, n, n);
    adj.Some? && g.board[i][j].Some? && g.board[adj.value.0][adj.value.1] == g.board[i][j]
  }

  /** The body of the inner loop of `shift` for cell `(i, j)`. */
  function Step(g: Game, d: Direction, n: nat, i: nat, j: nat): (r: Game)
    requires IsSquare(g.board, n) && i < n && j < n
    ensures IsSquare(r.board, n)
  {
    match g.board[i][j]
    case Some(v) =>
      (match AdjIndices(i, j, d, n, n)
       case Some((x, y)) =>
         (match g.board[x][y]
          case Some(w) =>
            if w == v then Game(Update(Update(g.board, x, y, None), i, j, Some(Double(w))), g.score + 2 * w as nat)
            else g
          case None => g)
       case None => g)
    case None =>
      (match AdjIndices(i, j, d, n, n)
       case Some((x, y)) =>
         (match g.board[x][y]
          case Some(w) => Game(Update(Update(g.board, x, y, None), i, j, Some(w)), g.score)
          case None => g)
       case None => g)
  }

  /** A step writes only the cell it visits and that cell's neighbour in
      direction `d`; every other cell keeps its content. */
  lemma StepIsLocal(g: Game, d: Direction, n: nat, i: nat, j: nat)
    requires IsSquare(g.board, n) && i < n && j < n
    ensures forall k, l :: 0 <= k < n && 0 <= l < n && (k, l) != (i, j) && AdjIndices(i, j, d, n, n) != Some((k, l)) ==>
      Step(g, d, n, i, j).board[k][l] == g.board[k][l]
  {
  }

  /** The state of `shift` when its loops arrive at `(i, j)`: the step has
      run, in row-major order, at every cell before it. Arriving at the start
      `(i, 0)` of a row is arriving at the end `(i - 1, n)` of the row above. */
  function Scan(g: Game, d: Direction, n: nat, i: nat, j: nat): (r: Game)
    requires IsSquare(g.board, n) && ScanPos(n, i, j)
    ensures IsSquare(r.board, n)
    ensures r.score >= g.score
    decreases i, j
  {
    if j > 0 then Step(Scan(g, d, n, i, j - 1), d, n, i, j - 1)
    else if i > 0 then Scan(g, d, n, i - 1, n)
    else g
  }

  /** One whole `shift` of an `n` by `n` board: it keeps the board's
      dimensions and never lowers the score. */
  function Pass(g: Game, d: Direction, n: nat): (r: Game)
    requires IsSquare(g.board, n)
    ensures IsSquare(r.board, n)
    ensures r.score >= g.score
  {
    Scan(g, d, n, n, 0)
  }

  // The merges of a pass, in the order they happen: each entry is the value
  // of the doubled tile a merge creates (computed without wrap-around).

  function StepLog(g: Game, d: Direction, n: nat, i: nat, j: nat): seq<nat>
    requires IsSquare(g.board, n) && i < n && j < n
  {
    if Merges(g, d, n, i, j) then [2 * g.board[i][j].value as nat] else []
  }

  function ScanLog(g: Game, d: Direction, n: nat, i: nat, j: nat): seq<nat>
    requires IsSquare(g.board, n) && ScanPos(n, i, j)
    decreases i, j
  {
    if j > 0 then ScanLog(g, d, n, i, j - 1) + StepLog(Scan(g, d, n, i, j - 1), d, n, i, j - 1)
    else if i > 0 then ScanLog(g, d, n, i - 1, n)
    else []
  }

  function PassLog(g: Game, d: Direction, n: nat): seq<nat>
    requires IsSquare(g.board, n)
  {
    ScanLog(g, d, n, n, 0)
  }

  /** Every merge in `log` creates a value that fits a `u16`. */
  predicate Fits(log: seq<nat>) {
    forall v :: v in log ==> v < 0x1_0000
  }

  /** No merge of the pass overflows `u16` (no two 32768 tiles meet). */
  predicate MergesFit(g: Game, d: Direction, n: nat)
    requires IsSquare(g.board, n)
  {
    Fits(PassLog(g, d, n))
  }

  function SeqSum(s: seq<nat>): nat {
    if s == [] then 0 else SeqSum(s[..|s| - 1]) + s[|s| - 1]
  }

  lemma {:induction false} SeqSumAppend(a: seq<nat>, b: seq<nat>)
    ensures SeqSum(a + b) == SeqSum(a) + SeqSum(b)
  {
    if b != [] {
      assert (a + b)[..|a + b| - 1] == a + b[..|b| - 1];
      SeqSumAppend(a, b[..|b| - 1]);
    } else {
      assert a + b == a;
    }
  }

  // Accounting: score, tile count and tile sum

  /** The accounting identity of a pass, as a predicate of its start `g`, its
      end `r` and its merge log. */
  predicate Accounted(g: Game, r: Game, log: seq<nat>) {
    && r.score == g.score + SeqSum(log)
    && TileCount(r.board) + |log| == TileCount(g.board)
    && (Fits(log) ==> TileSum(r.board) == TileSum(g.board))
  }

  lemma StepAccounting(g: Game, d: Direction, n: nat, i: nat, j: nat)
    requires IsSquare(g.board, n) && i < n && j < n
    ensures Accounted(g, Step(g, d, n, i, j), StepLog(g, d, n, i, j))
  {
    var b: Board := g.board;
    var log := StepLog(g, d, n, i, j);
    var adj := AdjIndices(i, j, d, n, n);
    if adj.Some? && b[adj.value.0][adj.value.1].Some? {
      var (x, y) := adj.value;
      var w := b[x][y].value;
      var b1 := Update(b, x, y, None);
      if b[i][j].None? {
        var b2 := Update(b1, i, j, Some(w));
        TotalUpdate(b, x, y, None, Value);
        TotalUpdate(b1, i, j, Some(w), Value);
        TotalUpdate(b, x, y, None, Occupied);
        TotalUpdate(b1, i, j, Some(w), Occupied);
        assert Step(g, d, n, i, j) == Game(b2, g.score);
      } else if b[i][j].value == w {
        var b2 := Update(b1, i, j, Some(Double(w)));
        TotalUpdate(b, x, y, None, Value);
        TotalUpdate(b1, i, j, Some(Double(w)), Value);
        TotalUpdate(b, x, y, None, Occupied);
        TotalUpdate(b1, i, j, Some(Double(w)), Occupied);
        assert log == [2 * w as nat];
        assert SeqSum(log) == 2 * w as nat by {
          assert log[..0] == [];
        }
        assert Step(g, d, n, i, j) == Game(b2, g.score + 2 * w as nat);
        assert b1[i][j] == Some(w);
        if Fits(log) {
          assert 2 * w as nat in log;
          assert Value(Some(Double(w))) == 2 * w as nat;
        }
      } else {
        assert !Merges(g, d, n, i, j);
        assert Step(g, d, n, i, j) == g;
      }
    }
  }

  /** Accounting composes: a run from `g` to `m` followed by one from `m` to `r`. */
  lemma AccountedThen(g: Game, m: Game, r: Game, log1: seq<nat>, log2: seq<nat>)
    requires Accounted(g, m, log1) && Accounted(m, r, log2)
    ensures Accounted(g, r, log1 + log2)
  {
    SeqSumAppend(log1, log2);
    FitsAppend(log1, log2);
  }

  lemma FitsAppend(a: seq<nat>, b: seq<nat>)
    ensures Fits(a + b) <==> Fits(a) && Fits(b)
  {
    assert forall v :: v in a + b <==> v in a || v in b;
  }

  lemma {:induction false} ScanAccounting(g: Game, d: Direction, n: nat, i: nat, j: nat)
    requires IsSquare(g.board, n) && ScanPos(n, i, j)
    ensures Accounted(g, Scan(g, d, n, i, j), ScanLog(g, d, n, i, j))
    decreases i, j
  {
    if j > 0 {
      ScanAccounting(g, d, n, i, j - 1);
      AccountedThenStep(g, Scan(g, d, n, i, j - 1), d, n, i, j - 1, ScanLog(g, d, n, i, j - 1));
    } else if i > 0 {
      ScanAccounting(g, d, n, i - 1, n);
    }
  }

  lemma AccountedThenStep(g: Game, m: Game, d: Direction, n: nat, i: nat, j: nat, log: seq<nat>)
    requires IsSquare(m.board, n) && i < n && j < n && Accounted(g, m, log)
    ensures Accounted(g, Step(m, d, n, i, j), log + StepLog(m, d, n, i, j))
  {
    StepAccounting(m, d, n, i, j);
    AccountedThen(g, m, Step(m, d, n, i, j), log, StepLog(m, d, n, i, j));
  }

  /** A pass raises the score by exactly the sum of the doubled values its
      merges create, each merge removes exactly one tile, and when no merge
      overflows (`MergesFit`) the sum of the tile values is unchanged. */
  lemma PassAccounting(g: Game, d: Direction, n: nat)
    requires IsSquare(g.board, n)
    ensures Accounted(g, Pass(g, d, n), PassLog(g, d, n))
  {
    ScanAccounting(g, d, n, n, 0);
  }

  // Tile values stay powers of two

  lemma StepKeepsTileValues(g: Game, d: Direction, n: nat, i: nat, j: nat)
    requires IsSquare(g.board, n) && i < n && j < n
    requires AllTileValues(g.board) && Fits(StepLog(g, d, n, i, j))
    ensures AllTileValues(Step(g, d, n, i, j).board)
  {
    var b: Board := g.board;
    var adj := AdjIndices(i, j, d, n, n);
    if adj.Some? && b[adj.value.0][adj.value.1].Some? && b[i][j].Some? {
      var (x, y) := adj.value;
      var w := b[x][y].value;
      if b[i][j].value == w {
        assert 2 * w as nat in StepLog(g, d, n, i, j);
        DoubleIsTileValue(w as nat);
      }
    }
  }

  lemma {:induction false} ScanKeepsTileValues(g: Game, d: Direction, n: nat, i: nat, j: nat)
    requires IsSquare(g.board, n) && ScanPos(n, i, j)
    requires AllTileValues(g.board) && Fits(ScanLog(g, d, n, i, j))
    ensures AllTileValues(Scan(g, d, n, i, j).board)
    decreases i, j
  {
    if j > 0 {
      var mid := Scan(g, d, n, i, j - 1);
      FitsAppend(ScanLog(g, d, n, i, j - 1), StepLog(mid, d, n, i, j - 1));
      ScanKeepsTileValues(g, d, n, i, j - 1);
      StepKeepsTileValues(mid, d, n, i, j - 1);
      assert Scan(g, d, n, i, j) == Step(mid, d, n, i, j - 1);
    } else if i > 0 {
      ScanKeepsTileValues(g, d, n, i - 1, n);
    }
  }

  /** When every tile is a power of two of at least 2 and no merge overflows,
      every tile after the pass is one too. */
  lemma PassKeepsTileValues(g: Game, d: Direction, n: nat)
    requires IsSquare(g.board, n)
    requires AllTileValues(g.board) && MergesFit(g, d, n)
    ensures AllTileValues(Pass(g, d, n).board)
  {
    ScanKeepsTileValues(g, d, n, n, 0);
  }

  // Boards a pass leaves alone

  /** Every tile lies against the edge that direction `d` pulls tiles
      towards: it has no cell behind it in direction `Opposite(d)`. */
  predicate Settled(g: Game, d: Direction, n: nat)
    requires IsSquare(g.board, n)
  {
    forall i, j :: 0 <= i < n && 0 <= j < n && g.board[i][j].Some? ==>
      AdjIndices(i, j, Opposite(d), n, n).None?
  }

  /** The neighbour a step looks at never lies against that edge, so on a
      settled board it is empty and the step does nothing. */
  lemma StepOnSettled(g: Game, d: Direction, n: nat, i: nat, j: nat)
    requires IsSquare(g.board, n) && i < n && j < n && Settled(g, d, n)
    ensures Step(g, d, n, i, j) == g
  {
  }

  lemma {:induction false} ScanOnSettled(g: Game, d: Direction, n: nat, i: nat, j: nat)
    requires IsSquare(g.board, n) && ScanPos(n, i, j) && Settled(g, d, n)
    ensures Scan(g, d, n, i, j) == g
    decreases i, j
  {
    if j > 0 {
      ScanOnSettled(g, d, n, i, j - 1);
      StepOnSettled(g, d, n, i, j - 1);
    } else if i > 0 {
      ScanOnSettled(g, d, n, i - 1, n);
    }
  }

  /** A pass over a settled board changes neither the board nor the score. */
  lemma PassOnSettled(g: Game, d: Direction, n: nat)
    requires IsSquare(g.board, n) && Settled(g, d, n)
    ensures Pass(g, d, n) == g
  {
    ScanOnSettled(g, d, n, n, 0);
  }

  /** A pass over an all-empty board changes neither the board nor the score. */
  lemma PassOnEmpty(g: Game, d: Direction, n: nat)
    requires IsSquare(g.board, n) && AllEmpty(g.board)
    ensures Pass(g, d, n) == g
  {
    PassOnSettled(g, d, n);
  }

  // What a step leaves alone

  /** Cell `(k, l)` comes at or after cell `(i, j)` in row-major order. */
  predicate NotBefore(k: nat, l: nat, i: nat, j: nat) {
    k > i || (k == i && l >= j)
  }

  /** Every cell the scan has not reached yet still holds its tile from `g0`
      or has been emptied: a step writes only its own cell and empties the
      neighbour. */
  predicate Unreached(g0: Game, g: Game, n: nat, i: nat, j: nat)
    requires IsSquare(g0.board, n) && IsSquare(g.board, n)
  {
    forall k, l :: 0 <= k < n && 0 <= l < n && NotBefore(k, l, i, j) ==>
      g.board[k][l] == g0.board[k][l] || g.board[k][l].None?
  }

  lemma StepUnreached(g0: Game, g: Game, d: Direction, n: nat, i: nat, j: nat)
    requires IsSquare(g0.board, n) && IsSquare(g.board, n) && i < n && j < n
    requires Unreached(g0, g, n, i, j)
    ensures Unreached(g0, Step(g, d, n, i, j), n, i, j + 1)
  {
  }

  lemma {:induction false} ScanUnreached(g: Game, d: Direction, n: nat, i: nat, j: nat)
    requires IsSquare(g.board, n) && ScanPos(n, i, j)
    ensures Unreached(g, Scan(g, d, n, i, j), n, i, j)
    decreases i, j
  {
    if j > 0 {
      var mid := Scan(g, d, n, i, j - 1);
      ScanUnreached(g, d, n, i, j - 1);
      StepUnreached(g, mid, d, n, i, j - 1);
      assert Scan(g, d, n, i, j) == Step(mid, d, n, i, j - 1);
    } else if i > 0 {
      ScanUnreached(g, d, n, i - 1, n);
    }
  }

  // Tiles below 32768 never overflow in one pass

  lemma StepBelowHalf(g0: Game, g: Game, d: Direction, n: nat, i: nat, j: nat, log: seq<nat>)
    requires IsSquare(g0.board, n) && IsSquare(g.board, n) && i < n && j < n
    requires AllBelow(g0.board, 0x8000) && Unreached(g0, g, n, i, j) && Fits(log)
    ensures Fits(log + StepLog(g, d, n, i, j))
  {
  }

  lemma {:induction false} ScanBelowHalf(g: Game, d: Direction, n: nat, i: nat, j: nat)
    requires IsSquare(g.board, n) && ScanPos(n, i, j) && AllBelow(g.board, 0x8000)
    ensures Fits(ScanLog(g, d, n, i, j))
    decreases i, j
  {
    if j > 0 {
      ScanBelowHalf(g, d, n, i, j - 1);
      ScanUnreached(g, d, n, i, j - 1);
      StepBelowHalf(g, Scan(g, d, n, i, j - 1), d, n, i, j - 1, ScanLog(g, d, n, i, j - 1));
    } else if i > 0 {
      ScanBelowHalf(g, d, n, i - 1, n);
    }
  }

  /** If every tile is below 32768 no merge of the pass overflows: the cell a
      step stands on still holds its value from before the pass (or nothing),
      so a merge doubles a value below 32768. */
  lemma PassFitsBelowHalf(g: Game, d: Direction, n: nat)
    requires IsSquare(g.board, n) && AllBelow(g.board, 0x8000)
    ensures MergesFit(g, d, n)
  {
    ScanBelowHalf(g, d, n, n, 0);
  }

  // A pass creates no value but the tiles' own and their doubles

  /** Cell `c` is empty, or holds the value of some tile of `b0`, or that
      value doubled (as `u16`). */
  predicate Derived(b0: Board, n: nat, c: Cell)
    requires IsSquare(b0, n)
  {
    c.None? ||
    exists k, l :: 0 <= k < n && 0 <= l < n && b0[k][l].Some? &&
      (c.value == b0[k][l].value || c.value == Double(b0[k][l].value))
  }

  predicate AllDerived(b0: Board, b: Board, n: nat)
    requires IsSquare(b0, n) && IsSquare(b, n)
  {
    forall i, j :: 0 <= i < n && 0 <= j < n ==> Derived(b0, n, b[i][j])
  }

  lemma StepDerived(g0: Game, g: Game, d: Direction, n: nat, i: nat, j: nat)
    requires IsSquare(g0.board, n) && IsSquare(g.board, n) && i < n && j < n
    requires Unreached(g0, g, n, i, j) && AllDerived(g0.board, g.board, n)
    ensures AllDerived(g0.board, Step(g, d, n, i, j).board, n)
  {
  }

  lemma {:induction false} ScanDerived(g: Game, d: Direction, n: nat, i: nat, j: nat)
    requires IsSquare(g.board, n) && ScanPos(n, i, j)
    ensures AllDerived(g.board, Scan(g, d, n, i, j).board, n)
    decreases i, j
  {
    if j > 0 {
      var mid := Scan(g, d, n, i, j - 1);
      ScanDerived(g, d, n, i, j - 1);
      ScanUnreached(g, d, n, i, j - 1);
      StepDerived(g, mid, d, n, i, j - 1);
      assert Scan(g, d, n, i, j) == Step(mid, d, n, i, j - 1);
    } else if i > 0 {
      ScanDerived(g, d, n, i - 1, n);
    } else {
      forall k, l | 0 <= k < n && 0 <= l < n
        ensures Derived(g.board, n, g.board[k][l])
      {
      }
    }
  }

  /** Every tile after a pass holds the value of some tile from before the
      pass, or that value doubled: a merge doubles the value still standing
      on the cell it visits, and a pull only moves a value. */
  lemma PassValuesFromBefore(g: Game, d: Direction, n: nat)
    requires IsSquare(g.board, n)
    ensures AllDerived(g.board, Pass(g, d, n).board, n)
  {
    ScanDerived(g, d, n, n, 0);
  }

  // The in-place pass

  /** The body of the inner loop of `shift`: the step at cell `(i, j)`, in place. */
  method ShiftCell(board: array2<Cell>, score: nat, d: Direction, i: nat, j: nat) returns (newScore: nat)
    requires board.Length0 == board.Length1 && i < board.Length0 && j < board.Length0
    modifies board
    ensures Game(Cells(board), newScore) == Step(Game(old(Cells(board)), score), d, board.Length0, i, j)
  {
    var n := board.Length0;
    ghost var before := Game(Cells(board), score);
    newScore := score;
    match board[i, j] {
      case Some(v) =>
        var adj := AdjIndices(i, j, d, n, n);
        if adj.Some? {
          var (x, y) := adj.value;
          if board[x, y].Some? && board[x, y].value == v {
            var w := board[x, y].value;
            board[x, y] := None;
            board[i, j] := Some(Double(w));
            newScore := newScore + 2 * w as nat;
          }
        }
      case None =>
        var adj := AdjIndices(i, j, d, n, n);
        if adj.Some? {
          var (x, y) := adj.value;
          if board[x, y].Some? {
            var w := board[x, y].value;
            board[x, y] := None;
            board[i, j] := Some(w);
          }
        }
    }
    BoardsEqual(Cells(board), Step(before, d, n, i, j).board, n);
  }

  /** `shift`: the nested row-major loop, updating `board` in place and
      returning the new score. */
  method Shift(board: array2<Cell>, score: nat, d: Direction) returns (newScore: nat)
    requires board.Length0 == board.Length1
    modifies board
    ensures Game(Cells(board), newScore) == Pass(Game(old(Cells(board)), score), d, board.Length0)
  {
    var n := board.Length0;
    ghost var g0 := Game(Cells(board), score);
    newScore := score;
    for i := 0 to n
      invariant Game(Cells(board), newScore) == Scan(g0, d, n, i, 0)
    {
      for j := 0 to n
        invariant Game(Cells(board), newScore) == Scan(g0, d, n, i, j)
      {
        newScore := ShiftCell(board, newScore, d, i, j);
      }
    }
  }
}
