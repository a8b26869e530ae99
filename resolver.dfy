/**
 * The capture resolver: everything one move captures, as make_move
 * gathers it, and the facts that make the captured count honest.
 */
module Resolver {
  import opened Board
  import opened Scans
  import opened Corners

  /**
   * Everything one move captures: the four scans in the order make_move
   * runs them (right, left, bottom, top), then the corner check, all read
   * from the same board before any stone is removed.
   */
  function Captures(b: seq<Piece>, dest: Cell, mover: Player): seq<Pos>
    requires |b| == 81 && dest.OnBoard()
  {
    LineCapture(b, dest, Right, mover) + LineCapture(b, dest, Left, mover)
    + LineCapture(b, dest, Bottom, mover) + LineCapture(b, dest, Top, mover)
    + CornerCapture(b, dest, mover)
  }
  /** Runs in two different directions from the same destination never share a cell. */
  lemma RunsDisjoint(s: seq<Pos>, t: seq<Pos>, dest: Cell, d: Direction, e: Direction)
    requires d != e
    requires forall x :: x in s ==> InRun(dest, d, CellAt(x))
    requires forall x :: x in t ==> InRun(dest, e, CellAt(x))
    ensures forall x :: x in s ==> x !in t
  {
  }

  /**
   * The captures of one move never list a position twice, and each holds
   * an opponent stone: so the count the move adds equals the stones it
   * removes.
   */
  lemma CapturesSound(b: seq<Piece>, dest: Cell, mover: Player)
    requires |b| == 81 && dest.OnBoard()
    ensures Distinct(Captures(b, dest, mover))
    ensures forall x :: x in Captures(b, dest, mover) ==> b[x] == Stone(Opponent(mover))
  {
    var r, l, bo, t, c :=
      LineCapture(b, dest, Right, mover), LineCapture(b, dest, Left, mover),
      LineCapture(b, dest, Bottom, mover), LineCapture(b, dest, Top, mover),
      CornerCapture(b, dest, mover);
    LineCaptureCells(b, dest, Right, mover);
    LineCaptureCells(b, dest, Left, mover);
    LineCaptureCells(b, dest, Bottom, mover);
    LineCaptureCells(b, dest, Top, mover);
    CornerCaptureCells(b, dest, mover);
    RunsDisjoint(r, l, dest, Right, Left);
    RunsDisjoint(r, bo, dest, Right, Bottom);
    RunsDisjoint(l, bo, dest, Left, Bottom);
    RunsDisjoint(r, t, dest, Right, Top);
    RunsDisjoint(l, t, dest, Left, Top);
    RunsDisjoint(bo, t, dest, Bottom, Top);
    DistinctConcat(r, l);
    DistinctConcat(r + l, bo);
    DistinctConcat(r + l + bo, t);
    forall x | x in r + l + bo + t
      ensures x !in c
    {
      assert x in r || x in l || x in bo || x in t;
    }
    DistinctConcat(r + l + bo + t, c);
  }

  /** The first cell of any run is a neighbour of the destination holding an opponent stone. */
  lemma LineCaptureNeedsNeighbour(b: seq<Piece>, dest: Cell, d: Direction, mover: Player)
    requires |b| == 81 && dest.OnBoard()
    requires LineCapture(b, dest, d, mover) != []
    ensures Offset(dest, d, 1).OnBoard() && Adjacent(Offset(dest, d, 1), dest)
    ensures b[Index(Offset(dest, d, 1))] == Stone(Opponent(mover))
  {
    LineCaptureIsCustodian(b, dest, d, mover);
  }

  /**
   * A move captures nothing unless a neighbour of its destination holds an
   * opponent stone.
   */
  lemma CaptureNeedsAdjacentOpponent(b: seq<Piece>, dest: Cell, mover: Player)
    requires |b| == 81 && dest.OnBoard()
    requires forall n: Cell :: n.OnBoard() && Adjacent(n, dest) ==> b[Index(n)] != Stone(Opponent(mover))
    ensures Captures(b, dest, mover) == []
  {
    if LineCapture(b, dest, Right, mover) != [] {
      LineCaptureNeedsNeighbour(b, dest, Right, mover);
    }
    if LineCapture(b, dest, Left, mover) != [] {
      LineCaptureNeedsNeighbour(b, dest, Left, mover);
    }
    if LineCapture(b, dest, Bottom, mover) != [] {
      LineCaptureNeedsNeighbour(b, dest, Bottom, mover);
    }
    if LineCapture(b, dest, Top, mover) != [] {
      LineCaptureNeedsNeighbour(b, dest, Top, mover);
    }
  }
}
