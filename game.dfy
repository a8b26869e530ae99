/**
 * The game object: the board as a fixed array of 81 cells stored a1..a9,
 * b1..b9, ..., i1..i9, the two captured counts, the player to move and the
 * list of positions a move has captured so far. Every method is proved
 * against the value-level rules in Rules.
 */
module ShogiGame {
  import opened Board
  import opened Scans
  import opened Corners
  import opened Resolver
  import opened Rules

  class HasamiShogiGame {
    var board: array<Piece>
    var blackCaptured: nat
    var redCaptured: nat
    var turn: Player
    /** Positions collected by the capture checks of the move in progress; empty between moves. */
    var capturedCells: seq<Pos>

    /** The game as a value. */
    ghost function Abs(): Game
      reads this, board
    {
      Game(board[..], blackCaptured, redCaptured, turn)
    }

    /** Between moves: a full board, no captures pending, and every stone accounted for. */
    ghost predicate Valid()
      reads this, board
    {
      && board.Length == 81
      && capturedCells == []
      && Conserved(Abs())
    }

    /** A new game: Red's stones on row a, Black's on row i, Black to move, nothing captured. */
    constructor ()
      ensures Valid() && Abs() == Initial() && fresh(board)
    {
      var cells := new Piece[81];
      for column := 0 to 9
        invariant forall k :: 0 <= k < column ==> cells[k] == Stone(Red)
      {
        cells[column] := Stone(Red);
      }
      for i := 9 to 72
        invariant forall k :: 0 <= k < 9 ==> cells[k] == Stone(Red)
        invariant forall k :: 9 <= k < i ==> cells[k] == Empty
      {
        cells[i] := Empty;
      }
      for column := 0 to 9
        invariant forall k :: 0 <= k < 9 ==> cells[k] == Stone(Red)
        invariant forall k :: 9 <= k < 72 ==> cells[k] == Empty
        invariant forall k :: 72 <= k < 72 + column ==> cells[k] == Stone(Black)
      {
        cells[72 + column] := Stone(Black);
      }
      assert cells[..] == InitialBoard();
      board := cells;
      blackCaptured, redCaptured := 0, 0;
      turn := Black;
      capturedCells := [];
      InitialConserved();
    }

    /**
     * get_game_state, read from the counts; under the invariant it says
     * how many stones each side still has on the board.
     */
    function GetGameState(): (s: GameState)
      reads this, board
      requires Valid()
      ensures s == Unfinished <==> Stones(board[..], Black) >= 2 && Stones(board[..], Red) >= 2
      ensures s == RedWon <==> Stones(board[..], Black) <= 1
      ensures s == BlackWon <==> Stones(board[..], Red) <= 1 && Stones(board[..], Black) >= 2
    {
      StateByStonesLeft(Abs());
      StateOf(blackCaptured, redCaptured)
    }

    /** get_active_player. */
    function GetActivePlayer(): (p: Player)
      reads this
      ensures p == turn
    {
      turn
    }

    /** get_num_captured_pieces: the stones of `p` no longer on the board. */
    function GetNumCapturedPieces(p: Player): (n: nat)
      reads this, board
      requires Valid()
      ensures n + Stones(board[..], p) == StartingStones
      ensures n <= StartingStones
    {
      match p
      case Black => blackCaptured
      case Red => redCaptured
    }

    /**
     * search_board, index mode: binary search of the name-sorted board for
     * `cell`; no result when no cell has that name.
     */
    method SearchBoard(cell: string) returns (index: Option<Pos>)
      requires board.Length == 81
      ensures index.Some? ==> NameAt(index.value) == cell
      ensures forall i: Pos :: NameAt(i) == cell ==> index == Some(i)
    {
      var first, last := 0, board.Length - 1;
      while first <= last
        invariant 0 <= first <= last + 1 <= 81
        invariant forall i: Pos :: i < first ==> StrLess(NameAt(i), cell)
        invariant forall i: Pos :: last < i ==> StrLess(cell, NameAt(i))
        decreases last - first
      {
        var middle := (first + last) / 2;
        if NameAt(middle) == cell {
          NameUnique(middle);
          return Some(middle);
        }
        if StrLess(cell, NameAt(middle)) {
          NamesAfter(middle, cell);
          last := middle - 1;
        } else {
          StrLessTotal(NameAt(middle), cell);
          NamesBefore(middle, cell);
          first := middle + 1;
        }
      }
      forall i: Pos
        ensures NameAt(i) != cell
      {
        StrLessIrreflexive(cell);
      }
      return None;
    }

    /**
     * get_square_occupant: the piece on the cell named `cell`, or nothing
     * when no cell has that name.
     */
    method GetSquareOccupant(cell: string) returns (occupant: Option<Piece>)
      requires board.Length == 81
      ensures occupant.Some? <==> exists i: Pos :: NameAt(i) == cell
      ensures forall i: Pos :: NameAt(i) == cell ==> occupant == Some(board[i])
    {
      var index := SearchBoard(cell);
      if index.None? {
        return None;
      }
      return Some(board[index.value]);
    }

    /** search_board's index for an on-board cell, looked up by the cell's name. */
    method IndexOf(c: Cell) returns (i: Pos)
      requires board.Length == 81 && c.OnBoard()
      ensures i == Index(c)
    {
      NameOfIndex(c);
      var index := SearchBoard(Name(c));
      i := index.value;
    }

    /** The piece on an on-board cell, looked up by the cell's name. */
    method Occupant(c: Cell) returns (p: Piece)
      requires board.Length == 81 && c.OnBoard()
      ensures p == board[Index(c)]
    {
      NameOfIndex(c);
      var occupant := GetSquareOccupant(Name(c));
      p := occupant.value;
    }

    /**
     * move_check: walks the cells strictly between start and end (down the
     * column when the columns agree, along the start's row otherwise) and
     * fails on the first occupied one.
     */
    method MoveCheck(s: Cell, e: Cell) returns (clear: bool)
      requires board.Length == 81 && s.OnBoard() && e.OnBoard()
      ensures clear == PathClear(board[..], s, e)
    {
      if s.col == e.col {
        var lo, hi := Min(s.row, e.row), Max(s.row, e.row);
        var r := lo + 1;
        while r < hi
          invariant lo < r <= Max(lo + 1, hi)
          invariant forall x :: lo < x < r ==> board[Index(Cell(x, s.col))] == Empty
        {
          var occupant := Occupant(Cell(r, s.col));
          if occupant != Empty {
            return false;
          }
          r := r + 1;
        }
      } else {
        var lo, hi := Min(s.col, e.col), Max(s.col, e.col);
        var c := lo + 1;
        while c < hi
          invariant lo < c <= Max(lo + 1, hi)
          invariant forall x :: lo < x < c ==> board[Index(Cell(s.row, x))] == Empty
        {
          var occupant := Occupant(Cell(s.row, c));
          if occupant != Empty {
            return false;
          }
          c := c + 1;
        }
      }
      return true;
    }

    /**
     * capture_check: one recursive step of the custodian scan from `cell`
     * in direction `line`, carrying the opponent stones passed so far in
     * `sequence`; a closing stone of the mover appends them to the
     * captured list.
     */
    method CaptureCheck(cell: Cell, line: Direction, sequence: seq<Pos>)
      requires board.Length == 81 && cell.OnBoard()
      modifies this`capturedCells
      ensures capturedCells == old(capturedCells) + Scan(board[..], cell, line, turn, sequence)
      decreases Reach(cell, line)
    {
      var next := Offset(cell, line, 1);
      if !next.OnBoard() {
        return;
      }
      var occupant := Occupant(next);
      if occupant == Stone(turn) {
        capturedCells := capturedCells + sequence;
        return;
      } else if occupant == Empty {
        return;
      }
      var index := IndexOf(next);
      var piece := board[index];
      if piece != Empty || piece != Stone(turn) {
        CaptureCheck(next, line, sequence + [index]);
      }
    }

    /**
     * The corner test for corner `k`, as intended: the corner holds an
     * opponent stone and both its neighbours hold the mover's. The literal
     * test at hasamishogigame.py:323 lets the mover's own stone through;
     * see Corners.CornerCaptureAsWritten.
     */
    method TakeCorner(k: Cell)
      requires board.Length == 81 && k.OnBoard()
      modifies this`capturedCells
      ensures capturedCells == old(capturedCells) + CornerTest(board[..], k, turn)
    {
      var corner := Occupant(k);
      if corner != Stone(turn) && corner != Empty {
        var row := Occupant(RowNeighbour(k));
        var col := Occupant(ColNeighbour(k));
        if row == Stone(turn) && col == Stone(turn) {
          capturedCells := capturedCells + [Index(k)];
        }
      }
    }

    /**
     * corner_check: a move ending next to a corner (a2 or b1 for a1, a8 or
     * b9 for a9, h1 or i2 for i1, h9 or i8 for i9) tests that corner.
     */
    method CornerCheck(cell: Cell)
      requires board.Length == 81 && cell.OnBoard()
      modifies this`capturedCells
      ensures capturedCells == old(capturedCells) + CornerCapture(board[..], cell, turn)
    {
      if cell == Cell(0, 1) || cell == Cell(1, 0) {
        TakeCorner(Cell(0, 0));
      } else if cell == Cell(0, 7) || cell == Cell(1, 8) {
        TakeCorner(Cell(0, 8));
      } else if cell == Cell(7, 0) || cell == Cell(8, 1) {
        TakeCorner(Cell(8, 0));
      } else if cell == Cell(7, 8) || cell == Cell(8, 7) {
        TakeCorner(Cell(8, 8));
      }
    }

    /** make_move's capture phase: the four scans from `e`, then the corner check. */
    method CollectCaptures(e: Cell)
      requires board.Length == 81 && e.OnBoard()
      requires capturedCells == []
      modifies this`capturedCells
      ensures capturedCells == Captures(board[..], e, turn)
      ensures board[..] == old(board[..])
    {
      ghost var b := board[..];
      CaptureCheck(e, Right, []);
      assert capturedCells == LineCapture(b, e, Right, turn);
      CaptureCheck(e, Left, []);
      CaptureCheck(e, Bottom, []);
      CaptureCheck(e, Top, []);
      CornerCheck(e);
    }

    /** make_move's removal loop: every captured position, first to last, becomes empty. */
    method RemoveCaptured()
      requires board.Length == 81
      modifies board
      ensures board[..] == ClearAll(old(board[..]), capturedCells)
    {
      var k := 0;
      while k < |capturedCells|
        invariant 0 <= k <= |capturedCells|
        invariant ClearAll(board[..], capturedCells[k..]) == ClearAll(old(board[..]), capturedCells)
      {
        assert capturedCells[k..][0] == capturedCells[k];
        assert capturedCells[k..][1..] == capturedCells[k + 1..];
        board[capturedCells[k]] := Empty;
        k := k + 1;
      }
      assert capturedCells[k..] == [];
    }

    /** set_board: writes `piece` at position `index`. */
    method SetBoard(index: Pos, piece: Piece)
      requires board.Length == 81
      modifies board
      ensures board[..] == old(board[..])[index := piece]
    {
      board[index] := piece;
    }

    /**
     * make_move's guards, in order: the start holds a stone of the player
     * to move, the end is empty, the move is straight, move_check finds the
     * way clear, and the game is not over.
     */
    method MoveAllowed(s: Cell, e: Cell) returns (ok: bool)
      requires Valid() && s.OnBoard() && e.OnBoard()
      ensures ok == Accepts(Abs(), s, e)
    {
      var start := Occupant(s);
      if start != Stone(turn) {
        return false;
      }
      var end := Occupant(e);
      if end != Empty {
        return false;
      }
      if s.row != e.row && s.col != e.col {
        return false;
      }
      var clear := MoveCheck(s, e);
      if !clear {
        return false;
      }
      return GetGameState() == Unfinished;
    }

    /**
     * make_move's update after the guards pass: the stone moves, the
     * captures are gathered and removed, the opponent's count grows, and
     * the turn passes unless the game is over.
     */
    method ApplyMove(s: Cell, e: Cell)
      requires board.Length == 81 && capturedCells == [] && s.OnBoard() && e.OnBoard()
      modifies this, board
      ensures board == old(board) && capturedCells == []
      ensures Abs() == AfterMove(old(Abs()), s, e)
    {
      ghost var g := Abs();
      var startIndex := IndexOf(s);
      SetBoard(startIndex, Empty);
      var endIndex := IndexOf(e);
      SetBoard(endIndex, Stone(turn));
      assert board[..] == Moved(g, s, e);

      CollectCaptures(e);
      if turn == Black {
        redCaptured := redCaptured + |capturedCells|;
      } else {
        blackCaptured := blackCaptured + |capturedCells|;
      }
      RemoveCaptured();
      capturedCells := [];

      if StateOf(blackCaptured, redCaptured) == Unfinished {
        turn := Opponent(turn);
      }
    }

    /**
     * make_move: rejects the move unless the rules accept it; otherwise
     * applies it and reports success.
     */
    method MakeMove(s: Cell, e: Cell) returns (ok: bool)
      requires Valid() && s.OnBoard() && e.OnBoard()
      modifies this, board
      ensures Valid()
      ensures ok == Accepts(old(Abs()), s, e)
      ensures Abs() == if ok then AfterMove(old(Abs()), s, e) else old(Abs())
    {
      ok := MoveAllowed(s, e);
      if ok {
        ghost var g := Abs();
        ApplyMove(s, e);
        AfterMoveConserved(g, s, e);
      }
    }
  }
}
