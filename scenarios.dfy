/**
 * Concrete games from the repository's unit tests, replayed on the rules.
 */
module Scenarios {
  import opened Board
  import opened Scans
  import opened Corners
  import opened Resolver
  import opened Rules

  /** Black's opening i2 to h2 is accepted, captures nothing and hands the turn to Red. */
  lemma OpeningPassesTurn()
    ensures Accepts(Initial(), Cell(8, 1), Cell(7, 1))
    ensures AfterMove(Initial(), Cell(8, 1), Cell(7, 1)).turn == Red
  {
    InitialLayout();
    var g, s, e := Initial(), Cell(8, 1), Cell(7, 1);
    var m := Moved(g, s, e);
    forall n: Cell | n.OnBoard() && Adjacent(n, e)
      ensures m[Index(n)] != Stone(Red)
    {
      assert n.row >= 6;
    }
    CaptureNeedsAdjacentOpponent(m, e, Black);
  }

  /** Black may not move Red's a1, and a1 to b2 is diagonal anyway. */
  lemma WrongStoneRejected()
    ensures !Accepts(Initial(), Cell(0, 0), Cell(1, 1))
  {
    InitialLayout();
  }

  /** i4 to a4 ends on Red's stone and is rejected. */
  lemma OccupiedEndRejected()
    ensures !Accepts(Initial(), Cell(8, 3), Cell(0, 3))
  {
    InitialLayout();
  }

  /**
   * The closing position of the right-capture test: Black arrives on d3
   * with Red on d4 and d5 and Black on d6, and the scan to the right takes
   * d4 and d5.
   */
  lemma RightScanTakesTwo(b: seq<Piece>)
    requires |b| == 81
    requires b[30] == Stone(Red) && b[31] == Stone(Red) && b[32] == Stone(Black)
    ensures LineCapture(b, Cell(3, 2), Right, Black) == [30, 31]
  {
    var dest := Cell(3, 2);
    assert Custodian(b, dest, Right, Black, 2) by {
      assert Offset(dest, Right, 1) == Cell(3, 3) && Offset(dest, Right, 2) == Cell(3, 4);
    }
    LineCaptureIsCustodian(b, dest, Right, Black);
    var r := LineCapture(b, dest, Right, Black);
    assert RunAt(r, dest, Right, 2);
    assert r[0] == Index(RunCell(dest, Right, 0)) && r[1] == Index(RunCell(dest, Right, 1));
  }
}
