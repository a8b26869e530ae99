/**
 * The rules of a whole move, on values: which moves make_move accepts,
 * what board, captured counts and turn it leaves behind, and the facts
 * that hold across moves (every stone is on the board or counted as
 * captured, a finished game accepts nothing).
 */
module Rules {
  import opened Board
  import opened Scans
  import opened Corners
  import opened Resolver

  /** What a game shows from outside: the board, both captured counts and whose turn it is. */
  datatype Game = Game(board: seq<Piece>, blackCaptured: nat, redCaptured: nat, turn: Player)
  {
    predicate WellFormed()
    {
      |board| == 81
    }

    /** get_num_captured_pieces: how many of `p`'s stones have been taken. */
    function Captured(p: Player): nat
    {
      if p == Black then blackCaptured else redCaptured
    }

    /** get_game_state. */
    function State(): GameState
    {
      StateOf(blackCaptured, redCaptured)
    }
  }

  /** Row a holds Red's nine stones, row i Black's, the seven rows between are empty. */
  function InitialBoard(): seq<Piece>
  {
    seq(9, _ => Stone(Red)) + seq(63, _ => Empty) + seq(9, _ => Stone(Black))
  }

  /** A new game: the starting board, nothing captured, Black to move. */
  function Initial(): Game
  {
    Game(InitialBoard(), 0, 0, Black)
  }

  lemma InitialLayout()
    ensures Initial().WellFormed()
    ensures forall c: Cell :: c.OnBoard() ==>
              InitialBoard()[Index(c)] ==
                if c.row == 0 then Stone(Red) else if c.row == 8 then Stone(Black) else Empty
    ensures Initial().turn == Black && Initial().State() == Unfinished
  {
  }

  /** Number of `p`'s stones on a board. */
  function Stones(b: seq<Piece>, p: Player): nat
  {
    multiset(b)[Stone(p)]
  }

  /**
   * Every stone of either side is on the board or counted as captured,
   * so each side accounts for exactly its starting nine.
   */
  ghost predicate Conserved(g: Game)
  {
    && g.WellFormed()
    && Stones(g.board, Red) + g.redCaptured == StartingStones
    && Stones(g.board, Black) + g.blackCaptured == StartingStones
  }

  lemma {:induction false} ConstantCount(n: nat, p: Piece, q: Piece)
    ensures multiset(seq(n, _ => p))[q] == if p == q then n else 0
  {
    if n > 0 {
      assert seq(n, _ => p) == seq(n - 1, _ => p) + [p];
      ConstantCount(n - 1, p, q);
    }
  }

  /** A new game starts with nine stones per side on the board and none captured. */
  lemma InitialConserved()
    ensures Conserved(Initial())
    ensures Stones(InitialBoard(), Red) == 9 && Stones(InitialBoard(), Black) == 9
  {
    var p := Stone(Red);
    var q := Stone(Black);
    ConstantCount(9, p, p);
    ConstantCount(63, Empty, p);
    ConstantCount(9, q, p);
    ConstantCount(9, p, q);
    ConstantCount(63, Empty, q);
    ConstantCount(9, q, q);
  }

  /** Under conservation the counts never exceed nine. */
  lemma ConservedBounds(g: Game)
    requires Conserved(g)
    ensures g.blackCaptured <= StartingStones && g.redCaptured <= StartingStones
  {
  }

  /**
   * A side has lost exactly when at most one of its stones is left on the
   * board; Red's win is reported when both sides qualify.
   */
  lemma StateByStonesLeft(g: Game)
    requires Conserved(g)
    ensures g.State() == RedWon <==> Stones(g.board, Black) <= 1
    ensures g.State() == BlackWon <==> Stones(g.board, Red) <= 1 && Stones(g.board, Black) >= 2
    ensures g.State() == Unfinished <==> Stones(g.board, Black) >= 2 && Stones(g.board, Red) >= 2
  {
  }

  function Min(x: int, y: int): int { if x < y then x else y }
  function Max(x: int, y: int): int { if x < y then y else x }

  /**
   * move_check: with equal columns, every row strictly between the two
   * rows is empty in that column; otherwise every column strictly between
   * the two columns is empty in the start's row.
   */
  predicate PathClear(b: seq<Piece>, s: Cell, e: Cell)
    requires |b| == 81 && s.OnBoard() && e.OnBoard()
  {
    if s.col == e.col then
      forall r :: Min(s.row, e.row) < r < Max(s.row, e.row) ==> b[Index(Cell(r, s.col))] == Empty
    else
      forall c :: Min(s.col, e.col) < c < Max(s.col, e.col) ==> b[Index(Cell(s.row, c))] == Empty
  }

  /** `x` lies on the straight segment from `s` to `e`, excluding both ends. */
  predicate StrictlyBetween(x: Cell, s: Cell, e: Cell)
  {
    || (x.col == s.col == e.col && (s.row < x.row < e.row || e.row < x.row < s.row))
    || (x.row == s.row == e.row && (s.col < x.col < e.col || e.col < x.col < s.col))
  }

  /** For a straight move, move_check's loop means: every cell strictly between the ends is empty. */
  lemma PathClearIsGeometric(b: seq<Piece>, s: Cell, e: Cell)
    requires |b| == 81 && s.OnBoard() && e.OnBoard()
    requires s.row == e.row || s.col == e.col
    ensures PathClear(b, s, e) <==>
              forall x: Cell :: x.OnBoard() && StrictlyBetween(x, s, e) ==> b[Index(x)] == Empty
  {
    if PathClear(b, s, e) {
      forall x: Cell | x.OnBoard() && StrictlyBetween(x, s, e)
        ensures b[Index(x)] == Empty
      {
        if s.col == e.col {
          assert x == Cell(x.row, s.col);
        } else {
          assert x == Cell(s.row, x.col);
        }
      }
    }
    if forall x: Cell :: x.OnBoard() && StrictlyBetween(x, s, e) ==> b[Index(x)] == Empty {
      if s.col == e.col {
        forall r | Min(s.row, e.row) < r < Max(s.row, e.row)
          ensures b[Index(Cell(r, s.col))] == Empty
        {
          assert StrictlyBetween(Cell(r, s.col), s, e);
        }
      } else {
        forall c | Min(s.col, e.col) < c < Max(s.col, e.col)
          ensures b[Index(Cell(s.row, c))] == Empty
        {
          assert StrictlyBetween(Cell(s.row, c), s, e);
        }
      }
    }
  }

  /**
   * make_move's guards, in the source's order: the start holds a stone of
   * the player to move, the end is empty, the move is along a row or a
   * column, nothing stands in between, and the game is not over.
   */
  predicate Accepts(g: Game, s: Cell, e: Cell)
    requires g.WellFormed() && s.OnBoard() && e.OnBoard()
  {
    && g.board[Index(s)] == Stone(g.turn)
    && g.board[Index(e)] == Empty
    && (s.row == e.row || s.col == e.col)
    && PathClear(g.board, s, e)
    && g.State() == Unfinished
  }

  /** An accepted move goes somewhere else, in a straight line over empty cells. */
  lemma AcceptedMoveShape(g: Game, s: Cell, e: Cell)
    requires g.WellFormed() && s.OnBoard() && e.OnBoard()
    requires Accepts(g, s, e)
    ensures s != e
    ensures forall x: Cell :: x.OnBoard() && StrictlyBetween(x, s, e) ==> g.board[Index(x)] == Empty
  {
    PathClearIsGeometric(g.board, s, e);
  }

  /** Once the game is won, no move is accepted. */
  lemma FinishedRejectsAll(g: Game, s: Cell, e: Cell)
    requires g.WellFormed() && s.OnBoard() && e.OnBoard()
    requires g.State() != Unfinished
    ensures !Accepts(g, s, e)
  {
  }

  /** The board right after the stone is lifted from `s` and put down on `e`, before captures. */
  function Moved(g: Game, s: Cell, e: Cell): (b: seq<Piece>)
    requires g.WellFormed() && s.OnBoard() && e.OnBoard()
  {
    g.board[Index(s) := Empty][Index(e) := Stone(g.turn)]
  }

  /** The positions a move takes: the captures triggered at `e` on the board after the move. */
  function Taken(g: Game, s: Cell, e: Cell): seq<Pos>
    requires g.WellFormed() && s.OnBoard() && e.OnBoard()
  {
    Captures(Moved(g, s, e), e, g.turn)
  }

  /** Empties every listed position, first to last, as make_move's removal loop does. */
  function ClearAll(b: seq<Piece>, cells: seq<Pos>): (r: seq<Piece>)
    requires |b| == 81
    ensures |r| == 81
    decreases |cells|
  {
    if cells == [] then b else ClearAll(b[cells[0] := Empty], cells[1..])
  }

  /** Exactly the listed positions end up empty; every other position keeps its piece. */
  lemma {:induction false} ClearAllAt(b: seq<Piece>, cells: seq<Pos>, i: Pos)
    requires |b| == 81
    ensures ClearAll(b, cells)[i] == if i in cells then Empty else b[i]
    decreases |cells|
  {
    if cells != [] {
      ClearAllAt(b[cells[0] := Empty], cells[1..], i);
      assert i in cells <==> i == cells[0] || i in cells[1..];
    }
  }

  /**
   * Emptying distinct positions that all hold `p`'s stones removes that
   * many of `p`'s stones and none of the other side's.
   */
  lemma {:induction false} ClearAllCounts(b: seq<Piece>, cells: seq<Pos>, p: Player)
    requires |b| == 81 && Distinct(cells)
    requires forall x :: x in cells ==> b[x] == Stone(p)
    ensures Stones(ClearAll(b, cells), p) + |cells| == Stones(b, p)
    ensures Stones(ClearAll(b, cells), Opponent(p)) == Stones(b, Opponent(p))
    decreases |cells|
  {
    if cells != [] {
      var x := cells[0];
      var b' := b[x := Empty];
      assert multiset(b') == multiset(b) - multiset{Stone(p)} + multiset{Empty} by {
        assert b[x] == Stone(p);
      }
      forall y | y in cells[1..]
        ensures b'[y] == Stone(p)
      {
        assert y != x by {
          var j :| 0 <= j < |cells[1..]| && cells[1..][j] == y;
          assert cells[j + 1] == y;
        }
      }
      assert Distinct(cells[1..]) by {
        forall i, j | 0 <= i < j < |cells[1..]|
          ensures cells[1..][i] != cells[1..][j]
        {
          assert cells[i + 1] != cells[j + 1];
        }
      }
      ClearAllCounts(b', cells[1..], p);
    }
  }

  /**
   * The game after an accepted move: the stone moves, every capture it
   * triggers is removed and added to the opponent's captured count, and
   * the turn passes to the opponent unless the game has just been won.
   */
  function AfterMove(g: Game, s: Cell, e: Cell): Game
    requires g.WellFormed() && s.OnBoard() && e.OnBoard()
  {
    var taken := Taken(g, s, e);
    var board := ClearAll(Moved(g, s, e), taken);
    var bc := if g.turn == Red then g.blackCaptured + |taken| else g.blackCaptured;
    var rc := if g.turn == Black then g.redCaptured + |taken| else g.redCaptured;
    Game(board, bc, rc, if StateOf(bc, rc) == Unfinished then Opponent(g.turn) else g.turn)
  }

  /** What a move takes are distinct opponent stones, never the stone just moved. */
  lemma TakenCells(g: Game, s: Cell, e: Cell)
    requires g.WellFormed() && s.OnBoard() && e.OnBoard()
    requires Accepts(g, s, e)
    ensures Distinct(Taken(g, s, e))
    ensures forall x :: x in Taken(g, s, e) ==>
              x != Index(e) && x != Index(s) && g.board[x] == Stone(Opponent(g.turn))
  {
    var m := Moved(g, s, e);
    CapturesSound(m, e, g.turn);
    assert Index(s) != Index(e);
    assert m[Index(s)] == Empty && m[Index(e)] == Stone(g.turn);
  }

  /**
   * The board after a move: the end holds the mover's stone, the start and
   * every taken position are empty, and nothing else changes.
   */
  lemma AfterMoveBoard(g: Game, s: Cell, e: Cell)
    requires g.WellFormed() && s.OnBoard() && e.OnBoard()
    requires Accepts(g, s, e)
    ensures var b := AfterMove(g, s, e).board;
            forall i: Pos :: b[i] ==
              if i == Index(e) then Stone(g.turn)
              else if i == Index(s) || i in Taken(g, s, e) then Empty
              else g.board[i]
  {
    TakenCells(g, s, e);
    forall i: Pos
      ensures AfterMove(g, s, e).board[i] ==
              if i == Index(e) then Stone(g.turn)
              else if i == Index(s) || i in Taken(g, s, e) then Empty
              else g.board[i]
    {
      ClearAllAt(Moved(g, s, e), Taken(g, s, e), i);
    }
  }

  /** Moving a stone keeps the number of stones of each side on the board. */
  lemma MovedKeepsStones(g: Game, s: Cell, e: Cell)
    requires g.WellFormed() && s.OnBoard() && e.OnBoard()
    requires Accepts(g, s, e)
    ensures multiset(Moved(g, s, e)) == multiset(g.board)
  {
    var m1 := g.board[Index(s) := Empty];
    assert Index(s) != Index(e);
    assert multiset(m1) == multiset(g.board) - multiset{Stone(g.turn)} + multiset{Empty};
    assert multiset(Moved(g, s, e)) == multiset(m1) - multiset{Empty} + multiset{Stone(g.turn)};
  }

  /**
   * The counts after a move: the opponent's grows by the number of stones
   * taken, which is the number of the opponent's stones that left the
   * board; the mover's count and stones are unchanged.
   */
  lemma AfterMoveCounts(g: Game, s: Cell, e: Cell)
    requires g.WellFormed() && s.OnBoard() && e.OnBoard()
    requires Accepts(g, s, e)
    ensures var h := AfterMove(g, s, e);
            var o := Opponent(g.turn);
            && h.Captured(o) == g.Captured(o) + |Taken(g, s, e)|
            && h.Captured(g.turn) == g.Captured(g.turn)
            && Stones(h.board, o) + |Taken(g, s, e)| == Stones(g.board, o)
            && Stones(h.board, g.turn) == Stones(g.board, g.turn)
  {
    var m := Moved(g, s, e);
    var o := Opponent(g.turn);
    TakenCells(g, s, e);
    MovedKeepsStones(g, s, e);
    ClearAllCounts(m, Taken(g, s, e), o);
    assert Opponent(o) == g.turn;
  }

  /** Every accepted move keeps each side's stones, on the board or captured, at nine. */
  lemma AfterMoveConserved(g: Game, s: Cell, e: Cell)
    requires Conserved(g) && s.OnBoard() && e.OnBoard()
    requires Accepts(g, s, e)
    ensures Conserved(AfterMove(g, s, e))
  {
    AfterMoveCounts(g, s, e);
  }

  /**
   * The turn after a move passes to the opponent exactly when the game is
   * still unfinished; the winner keeps the turn.
   */
  lemma AfterMoveTurn(g: Game, s: Cell, e: Cell)
    requires g.WellFormed() && s.OnBoard() && e.OnBoard()
    ensures var h := AfterMove(g, s, e);
            && (h.State() == Unfinished ==> h.turn == Opponent(g.turn))
            && (h.State() != Unfinished ==> h.turn == g.turn)
  {
  }

  /**
   * A move can only end the game in the mover's favour: the mover's count
   * does not change, so a game left unfinished before is won by the mover
   * if it is won at all.
   */
  lemma OnlyMoverCanWin(g: Game, s: Cell, e: Cell)
    requires g.WellFormed() && s.OnBoard() && e.OnBoard()
    requires Accepts(g, s, e)
    ensures AfterMove(g, s, e).State() == RedWon ==> g.turn == Red
    ensures AfterMove(g, s, e).State() == BlackWon ==> g.turn == Black
  {
  }
}
