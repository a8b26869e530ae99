/**
 * Corner capture: a stone alone in a corner is taken when the mover
 * holds both cells next to it, checked by corner_check when the move
 * ends on one of those two cells.
 */
module Corners {
  import opened Board

  /** Corner cells a1, a9, i1 and i9. */
  predicate IsCorner(c: Cell)
  {
    (c.row == 0 || c.row == 8) && (c.col == 0 || c.col == 8)
  }

  /** Orthogonal neighbours. */
  predicate Adjacent(x: Cell, y: Cell)
  {
    || (x.row == y.row && (x.col == y.col + 1 || y.col == x.col + 1))
    || (x.col == y.col && (x.row == y.row + 1 || y.row == x.row + 1))
  }

  /**
   * The corner whose capture a move to `dest` triggers: a1 for a2/b1, a9
   * for a8/b9, i1 for h1/i2, i9 for h9/i8; none elsewhere.
   */
  function CornerOf(dest: Cell): (k: Option<Cell>)
    requires dest.OnBoard()
    ensures k.Some? ==> IsCorner(k.value) && k.value.OnBoard() && Adjacent(dest, k.value)
  {
    if dest in {Cell(0, 1), Cell(1, 0)} then Some(Cell(0, 0))
    else if dest in {Cell(0, 7), Cell(1, 8)} then Some(Cell(0, 8))
    else if dest in {Cell(7, 0), Cell(8, 1)} then Some(Cell(8, 0))
    else if dest in {Cell(7, 8), Cell(8, 7)} then Some(Cell(8, 8))
    else None
  }

  /** CornerOf names the corner next to `dest`, if there is one, and no other cell. */
  lemma CornerOfSpec(dest: Cell, c: Cell)
    requires dest.OnBoard() && IsCorner(c)
    ensures Adjacent(dest, c) <==> CornerOf(dest) == Some(c)
  {
  }

  /** The corner's neighbour in its own row (b1's counterpart a2 for a1). */
  function RowNeighbour(k: Cell): Cell
  {
    Cell(k.row, if k.col == 0 then 1 else 7)
  }

  /** The corner's neighbour in its own column (b1 for a1). */
  function ColNeighbour(k: Cell): Cell
  {
    Cell(if k.row == 0 then 1 else 7, k.col)
  }

  /**
   * Corner capture as intended: the triggered corner is taken when it
   * holds an OPPONENT stone and both its neighbours hold the mover's
   * stones. (corner_check as written takes any occupied corner; see
   * CornerCaptureAsWritten.)
   */
  function CornerCapture(b: seq<Piece>, dest: Cell, mover: Player): seq<Pos>
    requires |b| == 81 && dest.OnBoard()
  {
    match CornerOf(dest)
    case None => []
    case Some(k) => CornerTest(b, k, mover)
  }

  /** The test corner_check applies to corner `k`, as intended. */
  function CornerTest(b: seq<Piece>, k: Cell, mover: Player): seq<Pos>
    requires |b| == 81 && k.OnBoard()
  {
    if b[Index(k)] == Stone(Opponent(mover))
       && b[Index(RowNeighbour(k))] == Stone(mover)
       && b[Index(ColNeighbour(k))] == Stone(mover)
    then [Index(k)]
    else []
  }

  /** Corner capture, stated on its own. */
  ghost predicate CornerCaptured(b: seq<Piece>, dest: Cell, mover: Player, k: Cell)
    requires |b| == 81
  {
    && IsCorner(k)
    && Adjacent(dest, k)
    && b[Index(k)] == Stone(Opponent(mover))
    && forall n: Cell :: n.OnBoard() && Adjacent(n, k) ==> b[Index(n)] == Stone(mover)
  }

  /** A corner has exactly two neighbours on the board: the ones corner_check inspects. */
  lemma CornerNeighbours(k: Cell, n: Cell)
    requires IsCorner(k) && n.OnBoard()
    ensures Adjacent(RowNeighbour(k), k) && RowNeighbour(k).OnBoard()
    ensures Adjacent(ColNeighbour(k), k) && ColNeighbour(k).OnBoard()
    ensures Adjacent(n, k) ==> n == RowNeighbour(k) || n == ColNeighbour(k)
  {
  }

  /** What the corner check takes is a single corner stone of the opponent. */
  lemma CornerCaptureCells(b: seq<Piece>, dest: Cell, mover: Player)
    requires |b| == 81 && dest.OnBoard()
    ensures |CornerCapture(b, dest, mover)| <= 1
    ensures forall x :: x in CornerCapture(b, dest, mover) ==>
              IsCorner(CellAt(x)) && b[x] == Stone(Opponent(mover))
  {
    var r := CornerCapture(b, dest, mover);
    if r != [] {
      var k := CornerOf(dest).value;
      assert r == [Index(k)] && b[Index(k)] == Stone(Opponent(mover));
      CellAtIndex(k);
    }
  }

  /** Whatever the corner check takes is captured by the corner rule. */
  lemma CornerCaptureSound(b: seq<Piece>, dest: Cell, mover: Player)
    requires |b| == 81 && dest.OnBoard()
    ensures forall x :: x in CornerCapture(b, dest, mover) ==> CornerCaptured(b, dest, mover, CellAt(x))
  {
    if CornerCapture(b, dest, mover) != [] {
      var k := CornerOf(dest).value;
      CellAtIndex(k);
      forall n: Cell | n.OnBoard() && Adjacent(n, k)
        ensures b[Index(n)] == Stone(mover)
      {
        CornerNeighbours(k, n);
      }
    }
  }

  /** Every corner the corner rule captures is taken by the corner check. */
  lemma CornerCaptureComplete(b: seq<Piece>, dest: Cell, mover: Player, k: Cell)
    requires |b| == 81 && dest.OnBoard()
    requires CornerCaptured(b, dest, mover, k)
    ensures CornerCapture(b, dest, mover) == [Index(k)]
  {
    CornerOfSpec(dest, k);
    CornerNeighbours(k, k);
  }

  /**
   * corner_check as written: its "not the mover's" test compares 'RED' or
   * 'BLACK' with the single letter 'R' or 'B' and is always true, so any
   * occupied corner is taken, the mover's own stone included.
   */
  function CornerCaptureAsWritten(b: seq<Piece>, dest: Cell, mover: Player): seq<Pos>
    requires |b| == 81 && dest.OnBoard()
  {
    match CornerOf(dest)
    case None => []
    case Some(k) => CornerTestAsWritten(b, k, mover)
  }

  /** The test corner_check applies to corner `k`, as written: any occupied corner qualifies. */
  function CornerTestAsWritten(b: seq<Piece>, k: Cell, mover: Player): seq<Pos>
    requires |b| == 81 && k.OnBoard()
  {
    if b[Index(k)] != Empty
       && b[Index(RowNeighbour(k))] == Stone(mover)
       && b[Index(ColNeighbour(k))] == Stone(mover)
    then [Index(k)]
    else []
  }

  /**
   * The literal corner check removes the mover's own corner stone: with a1,
   * a2 and b1 all held by the mover, a move to a2 takes a1, where the
   * intended rule takes nothing.
   */
  lemma CornerCaptureAsWrittenTakesOwnStone(b: seq<Piece>, mover: Player)
    requires |b| == 81
    requires b[0] == Stone(mover) && b[1] == Stone(mover) && b[9] == Stone(mover)
    ensures CornerCaptureAsWritten(b, Cell(0, 1), mover) == [0]
    ensures b[0] != Stone(Opponent(mover))
    ensures CornerCapture(b, Cell(0, 1), mover) == []
  {
  }

  /** Outside that case the two readings agree. */
  lemma CornerCaptureAsWrittenAgrees(b: seq<Piece>, dest: Cell, mover: Player)
    requires |b| == 81 && dest.OnBoard()
    requires forall k :: IsCorner(k) ==> b[Index(k)] != Stone(mover)
    ensures CornerCaptureAsWritten(b, dest, mover) == CornerCapture(b, dest, mover)
  {
  }
}
