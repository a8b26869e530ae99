/**
 * Custodian capture along one axis: after a move, capture_check walks out
 * from the destination in one of four directions collecting opponent
 * stones, keeps them if the walk ends on a stone of the mover, and drops
 * them if it runs off the board or onto an empty cell. Everything here
 * reads a board `b` (the flat list of 81 pieces, after the moving stone
 * has been placed) and returns board positions.
 */
module Scans {
  import opened Board
  /** The four scan directions: 'right' (column + 1), 'left', 'bottom' (row + 1), 'top'. */
  datatype Direction = Right | Left | Bottom | Top

  /** The cell `j` steps from `c` in direction `d`. */
  function Offset(c: Cell, d: Direction, j: int): Cell
  {
    match d
    case Right => Cell(c.row, c.col + j)
    case Left => Cell(c.row, c.col - j)
    case Bottom => Cell(c.row + j, c.col)
    case Top => Cell(c.row - j, c.col)
  }

  /** Steps a scan from `c` can take in direction `d` before leaving the board. */
  function Reach(c: Cell, d: Direction): int
  {
    match d
    case Right => 8 - c.col
    case Left => c.col
    case Bottom => 8 - c.row
    case Top => c.row
  }

  /**
   * One step of the custodian scan, as the recursion of capture_check runs
   * it: look at the next cell; off the board or empty discards the run
   * collected so far, a stone of the mover commits it, and any other stone
   * (necessarily the opponent's) joins the run and the scan goes on.
   */
  function Scan(b: seq<Piece>, c: Cell, d: Direction, mover: Player, sequence: seq<Pos>): seq<Pos>
    requires |b| == 81 && c.OnBoard()
    decreases Reach(c, d)
  {
    var n := Offset(c, d, 1);
    if !n.OnBoard() then []
    else if b[Index(n)] == Stone(mover) then sequence
    else if b[Index(n)] == Empty then []
    else Scan(b, n, d, mover, sequence + [Index(n)])
  }

  /** The positions captured in direction `d` from `dest`: the scan started with an empty run. */
  function LineCapture(b: seq<Piece>, dest: Cell, d: Direction, mover: Player): seq<Pos>
    requires |b| == 81 && dest.OnBoard()
  {
    Scan(b, dest, d, mover, [])
  }

  /**
   * Custodian capture, stated on its own: the `k >= 1` cells next to `dest`
   * in direction `d` all hold opponent stones, and the cell right after
   * them is on the board and holds a stone of the mover.
   */
  predicate Custodian(b: seq<Piece>, dest: Cell, d: Direction, mover: Player, k: int)
    requires |b| == 81
  {
    && k >= 1
    && Offset(dest, d, k + 1).OnBoard()
    && b[Index(Offset(dest, d, k + 1))] == Stone(mover)
    && forall j :: 1 <= j <= k ==>
         Offset(dest, d, j).OnBoard() && b[Index(Offset(dest, d, j))] == Stone(Opponent(mover))
  }

  /** The `i`-th cell of a run from `dest` in direction `d`, counting from 0 next to `dest`. */
  function RunCell(dest: Cell, d: Direction, i: int): Cell
  {
    Offset(dest, d, i + 1)
  }

  /** `r` lists the positions of the first `k` cells from `dest` in direction `d`, nearest first. */
  predicate RunAt(r: seq<Pos>, dest: Cell, d: Direction, k: nat)
  {
    && |r| == k
    && forall i :: 0 <= i < k ==> RunCell(dest, d, i).OnBoard() && r[i] == Index(RunCell(dest, d, i))
  }

  /** What a scan started at `c` has collected so far: the opponent stones between `dest` and `c`. */
  predicate Collected(b: seq<Piece>, dest: Cell, d: Direction, mover: Player, c: Cell, sequence: seq<Pos>)
    requires |b| == 81
  {
    && c == Offset(dest, d, |sequence|)
    && forall i :: 0 <= i < |sequence| ==>
         && RunCell(dest, d, i).OnBoard()
         && sequence[i] == Index(RunCell(dest, d, i))
         && b[sequence[i]] == Stone(Opponent(mover))
  }

  /** Stepping over one more opponent stone extends what has been collected. */
  lemma CollectedStep(b: seq<Piece>, dest: Cell, d: Direction, mover: Player, c: Cell, sequence: seq<Pos>)
    requires |b| == 81
    requires Collected(b, dest, d, mover, c, sequence)
    requires Offset(c, d, 1).OnBoard() && b[Index(Offset(c, d, 1))] == Stone(Opponent(mover))
    ensures Collected(b, dest, d, mover, Offset(c, d, 1), sequence + [Index(Offset(c, d, 1))])
  {
    var longer := sequence + [Index(Offset(c, d, 1))];
    forall i | 0 <= i < |longer|
      ensures RunCell(dest, d, i).OnBoard() && longer[i] == Index(RunCell(dest, d, i))
              && b[longer[i]] == Stone(Opponent(mover))
    {
      if i < |sequence| {
        assert longer[i] == sequence[i];
      }
    }
  }

  /** A scan that commits anything has walked over a custodian run and returns its cells. */
  lemma {:induction false} ScanSound(b: seq<Piece>, dest: Cell, d: Direction, mover: Player,
                                     c: Cell, sequence: seq<Pos>)
    requires |b| == 81 && dest.OnBoard() && c.OnBoard()
    requires Collected(b, dest, d, mover, c, sequence)
    ensures var r := Scan(b, c, d, mover, sequence);
            r != [] ==> Custodian(b, dest, d, mover, |r|) && RunAt(r, dest, d, |r|)
    decreases Reach(c, d)
  {
    var n := Offset(c, d, 1);
    if n.OnBoard() && b[Index(n)] == Stone(mover) {
      forall j | 1 <= j <= |sequence|
        ensures Offset(dest, d, j).OnBoard() && b[Index(Offset(dest, d, j))] == Stone(Opponent(mover))
      {
        assert RunCell(dest, d, j - 1) == Offset(dest, d, j);
      }
    } else if n.OnBoard() && b[Index(n)] != Empty {
      CollectedStep(b, dest, d, mover, c, sequence);
      ScanSound(b, dest, d, mover, n, sequence + [Index(n)]);
    }
  }

  /** A custodian run of length `k` that the scan has not yet passed is what the scan returns. */
  lemma {:induction false} ScanComplete(b: seq<Piece>, dest: Cell, d: Direction, mover: Player,
                                        c: Cell, sequence: seq<Pos>, k: nat)
    requires |b| == 81 && dest.OnBoard() && c.OnBoard()
    requires Collected(b, dest, d, mover, c, sequence)
    requires Custodian(b, dest, d, mover, k) && |sequence| <= k
    ensures RunAt(Scan(b, c, d, mover, sequence), dest, d, k)
    decreases Reach(c, d)
  {
    var n := Offset(c, d, 1);
    assert n == Offset(dest, d, |sequence| + 1);
    if |sequence| < k {
      assert b[Index(n)] == Stone(Opponent(mover));
      CollectedStep(b, dest, d, mover, c, sequence);
      ScanComplete(b, dest, d, mover, n, sequence + [Index(n)], k);
    } else {
      assert b[Index(n)] == Stone(mover);
    }
  }

  /**
   * The scan captures exactly the custodian run: a non-empty result is a
   * run of opponent stones closed by a stone of the mover, and whenever
   * such a run exists the scan returns precisely its cells.
   */
  lemma LineCaptureIsCustodian(b: seq<Piece>, dest: Cell, d: Direction, mover: Player)
    requires |b| == 81 && dest.OnBoard()
    ensures var r := LineCapture(b, dest, d, mover);
            && (r != [] ==> Custodian(b, dest, d, mover, |r|) && RunAt(r, dest, d, |r|))
            && (forall k :: Custodian(b, dest, d, mover, k) ==> RunAt(r, dest, d, k))
  {
    assert Offset(dest, d, 0) == dest;
    ScanSound(b, dest, d, mover, dest, []);
    forall k | Custodian(b, dest, d, mover, k)
      ensures RunAt(LineCapture(b, dest, d, mover), dest, d, k)
    {
      ScanComplete(b, dest, d, mover, dest, [], k);
    }
  }

  /**
   * The cells a capture in direction `d` can ever take: on the line from
   * `dest`, past it, and short of the board's edge (the closing stone must
   * still be on the board).
   */
  predicate InRun(dest: Cell, d: Direction, c: Cell)
  {
    match d
    case Right => c.row == dest.row && dest.col < c.col < 8
    case Left => c.row == dest.row && 0 < c.col < dest.col
    case Bottom => c.col == dest.col && dest.row < c.row < 8
    case Top => c.col == dest.col && 0 < c.row < dest.row
  }

  /** Every position a line capture takes holds an opponent stone, lies in that direction's run, and occurs once. */
  lemma LineCaptureCells(b: seq<Piece>, dest: Cell, d: Direction, mover: Player)
    requires |b| == 81 && dest.OnBoard()
    ensures Distinct(LineCapture(b, dest, d, mover))
    ensures forall x :: x in LineCapture(b, dest, d, mover) ==>
              b[x] == Stone(Opponent(mover)) && InRun(dest, d, CellAt(x))
  {
    var r := LineCapture(b, dest, d, mover);
    LineCaptureIsCustodian(b, dest, d, mover);
    if r != [] {
      var k := |r|;
      forall i, j | 0 <= i < j < k
        ensures r[i] != r[j]
      {
        if r[i] == r[j] {
          IndexInjective(RunCell(dest, d, i), RunCell(dest, d, j));
        }
      }
      forall x | x in r
        ensures b[x] == Stone(Opponent(mover)) && InRun(dest, d, CellAt(x))
      {
        var i :| 0 <= i < k && r[i] == x;
        var c := RunCell(dest, d, i);
        CellAtIndex(c);
        assert Offset(dest, d, k + 1).OnBoard();
        assert b[Index(c)] == Stone(Opponent(mover));
      }
    }
  }
}
