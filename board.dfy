/**
 * Hasami Shogi board vocabulary: players, pieces, the 9x9 grid of cells,
 * the flat storage order a1..a9, b1..b9, ..., i1..i9 and the cell names
 * ("a1" .. "i9") the game uses to address cells, compared as Python
 * compares strings.
 */
module Board {

  datatype Option<T> = None | Some(value: T)

  /** The two sides. Black moves first. */
  datatype Player = Black | Red

  function Opponent(p: Player): Player
  {
    if p == Black then Red else Black
  }

  /** What a cell holds: '.' (Empty), 'R' (Stone(Red)) or 'B' (Stone(Black)). */
  datatype Piece = Empty | Stone(owner: Player)

  datatype GameState = Unfinished | RedWon | BlackWon

  /** Number of stones each side starts with (one full row). */
  const StartingStones: nat := 9

  /** A side whose captured count reaches this many has lost. */
  const LosingCount: nat := 8

  /** A cell: row 0..8 stands for 'a'..'i', column 0..8 for '1'..'9'. */
  datatype Cell = Cell(row: int, col: int)
  {
    predicate OnBoard()
    {
      0 <= row < 9 && 0 <= col < 9
    }
  }

  /** A position in the flat board list of 81 cells. */
  type Pos = i: int | 0 <= i < 81

  /** Position of a cell in the flat board list. */
  function Index(c: Cell): Pos
    requires c.OnBoard()
  {
    c.row * 9 + c.col
  }

  /** The cell stored at position `i` of the flat board list. */
  function CellAt(i: Pos): (c: Cell)
    ensures c.OnBoard() && Index(c) == i
  {
    Cell(i / 9, i % 9)
  }

  lemma IndexInjective(c: Cell, d: Cell)
    requires c.OnBoard() && d.OnBoard()
    requires Index(c) == Index(d)
    ensures c == d
  {
  }

  lemma CellAtIndex(c: Cell)
    requires c.OnBoard()
    ensures CellAt(Index(c)) == c
  {
    IndexInjective(CellAt(Index(c)), c);
  }

  /** The two-character name of a cell, e.g. Cell(1, 0) is "b1". */
  function Name(c: Cell): (s: string)
    requires c.OnBoard()
    ensures |s| == 2
  {
    [(97 + c.row) as char, (49 + c.col) as char]
  }

  /** The name stored beside position `i` of the flat board list. */
  function NameAt(i: Pos): string
  {
    Name(CellAt(i))
  }

  /** The name stored beside a cell's position is that cell's name. */
  lemma NameOfIndex(c: Cell)
    requires c.OnBoard()
    ensures NameAt(Index(c)) == Name(c)
  {
    CellAtIndex(c);
  }

  /** The name stored at position 0 is a1, so search_board finds a1 there. */
  lemma NameAtA1()
    ensures NameAt(0) == "a1"
  {
    calc {
      NameAt(0);
      Name(Cell(0, 0));
      [97 as char, 49 as char];
      "a1";
    }
  }

  /** The name stored at position 9 is b1, so search_board finds b1 there. */
  lemma NameAtB1()
    ensures NameAt(9) == "b1"
  {
    calc {
      NameAt(9);
      Name(Cell(1, 0));
      [98 as char, 49 as char];
      "b1";
    }
  }

  /** Python's `a < b` on strings: lexicographic by code point, a proper prefix is smaller. */
  predicate StrLess(a: string, b: string)
  {
    if |b| == 0 then false
    else if |a| == 0 then true
    else if a[0] != b[0] then a[0] < b[0]
    else StrLess(a[1..], b[1..])
  }

  lemma {:induction false} StrLessIrreflexive(a: string)
    ensures !StrLess(a, a)
  {
    if |a| > 0 {
      StrLessIrreflexive(a[1..]);
    }
  }

  lemma {:induction false} StrLessTransitive(a: string, b: string, c: string)
    requires StrLess(a, b) && StrLess(b, c)
    ensures StrLess(a, c)
  {
    if |a| > 0 && a[0] == b[0] && b[0] == c[0] {
      StrLessTransitive(a[1..], b[1..], c[1..]);
    }
  }

  lemma {:induction false} StrLessTotal(a: string, b: string)
    requires a != b
    ensures StrLess(a, b) || StrLess(b, a)
  {
    if |a| > 0 && |b| > 0 && a[0] == b[0] {
      assert a[1..] != b[1..] by {
        assert a == [a[0]] + a[1..] && b == [b[0]] + b[1..];
      }
      StrLessTotal(a[1..], b[1..]);
    }
  }

  /** The flat board list is sorted by name, strictly: binary search on it is sound. */
  lemma NamesSorted(i: Pos, j: Pos)
    requires i < j
    ensures StrLess(NameAt(i), NameAt(j))
  {
    var a, b := NameAt(i), NameAt(j);
    assert a[0] as int == 97 + i / 9 && b[0] as int == 97 + j / 9;
    assert a[1] as int == 49 + i % 9 && b[1] as int == 49 + j % 9;
    if i / 9 == j / 9 {
      assert a[1..][0] < b[1..][0];
    }
  }

  /** Different positions carry different names. */
  lemma NamesDistinct(i: Pos, j: Pos)
    requires i != j
    ensures NameAt(i) != NameAt(j)
  {
    if i < j {
      NamesSorted(i, j);
      StrLessIrreflexive(NameAt(i));
    } else {
      NamesSorted(j, i);
      StrLessIrreflexive(NameAt(j));
    }
  }

  /** A name below the one at `m` is below every name from `m` on. */
  lemma NamesAfter(m: Pos, cell: string)
    requires StrLess(cell, NameAt(m))
    ensures forall i: Pos :: m <= i ==> StrLess(cell, NameAt(i))
  {
    forall i: Pos | m < i
      ensures StrLess(cell, NameAt(i))
    {
      NamesSorted(m, i);
      StrLessTransitive(cell, NameAt(m), NameAt(i));
    }
  }

  /** A name above the one at `m` is above every name up to `m`. */
  lemma NamesBefore(m: Pos, cell: string)
    requires StrLess(NameAt(m), cell)
    ensures forall i: Pos :: i <= m ==> StrLess(NameAt(i), cell)
  {
    forall i: Pos | i < m
      ensures StrLess(NameAt(i), cell)
    {
      NamesSorted(i, m);
      StrLessTransitive(NameAt(i), NameAt(m), cell);
    }
  }

  /** Only position `m` carries the name at `m`. */
  lemma NameUnique(m: Pos)
    ensures forall i: Pos :: NameAt(i) == NameAt(m) ==> i == m
  {
    forall i: Pos | i != m
      ensures NameAt(i) != NameAt(m)
    {
      NamesDistinct(i, m);
    }
  }

  /**
   * The game state is derived from the two captured counts: a side that
   * has lost `LosingCount` stones (so has at most one left) has lost.
   * When both would qualify, RED_WON is reported, as the source's
   * if/elif chain checks Black's count first.
   */
  function StateOf(blackCaptured: nat, redCaptured: nat): (s: GameState)
    ensures s == Unfinished <==> blackCaptured < LosingCount && redCaptured < LosingCount
    ensures s == RedWon <==> blackCaptured >= LosingCount
    ensures s == BlackWon <==> redCaptured >= LosingCount && blackCaptured < LosingCount
  {
    if blackCaptured < LosingCount && redCaptured < LosingCount then Unfinished
    else if blackCaptured >= LosingCount then RedWon
    else BlackWon
  }

  /** No element occurs twice. */
  predicate Distinct<T(==)>(s: seq<T>)
  {
    forall i, j :: 0 <= i < j < |s| ==> s[i] != s[j]
  }

  lemma DistinctConcat<T>(s: seq<T>, t: seq<T>)
    requires Distinct(s) && Distinct(t)
    requires forall x :: x in s ==> x !in t
    ensures Distinct(s + t)
  {
    forall i, j | 0 <= i < j < |s + t|
      ensures (s + t)[i] != (s + t)[j]
    {
      if i < |s| && j >= |s| {
        assert (s + t)[i] in s && (s + t)[j] in t;
      }
    }
  }
}
