/** The board of an Othello game: a 10x10 grid of characters whose rows and
    columns 1..8 are the playing area and whose outer ring is a permanent
    border of '*' sentinels. Playing cells hold '.' (empty), 'O' (white) or
    'X' (black). */
module Board {

  /** A (row, column) coordinate into the grid. */
  datatype Pos = Pos(row: int, col: int)

  /** The grid as the engine keeps it: a list of ten rows of ten cells. */
  type Grid = seq<seq<char>>

  const BorderCell := '*'
  const EmptyCell := '.'
  const WhitePiece := 'O'
  const BlackPiece := 'X'

  datatype Color = White | Black

  /** The character a colour's pieces are drawn with. */
  function Piece(c: Color): char {
    if c == White then WhitePiece else BlackPiece
  }

  function Opponent(c: Color): Color {
    if c == White then Black else White
  }

  /** The engine turns a colour name into a piece by testing for "white" only:
      every other name, "black" or not, plays the 'X' pieces. */
  function ParseColor(name: string): Color {
    if name == "white" then White else Black
  }

  predicate InGrid(q: Pos) {
    0 <= q.row < 10 && 0 <= q.col < 10
  }

  /** The 8x8 playing area inside the sentinel border. */
  predicate Interior(q: Pos) {
    1 <= q.row <= 8 && 1 <= q.col <= 8
  }

  predicate WellFormed(g: Grid) {
    |g| == 10 && forall r :: 0 <= r < 10 ==> |g[r]| == 10
  }

  function At(g: Grid, q: Pos): char
    requires WellFormed(g) && InGrid(q)
  {
    g[q.row][q.col]
  }

  /** What the cell at q may hold: the sentinel on the border, a piece or an
      empty mark inside. */
  predicate CellFits(q: Pos, ch: char) {
    if Interior(q) then ch == EmptyCell || ch == WhitePiece || ch == BlackPiece
    else ch == BorderCell
  }

  /** The board invariant every operation keeps. */
  ghost predicate ValidGrid(g: Grid) {
    WellFormed(g) && forall q :: InGrid(q) ==> CellFits(q, At(g, q))
  }

  /** One cell write, `board[row][column] = ch`. */
  function Set(g: Grid, q: Pos, ch: char): (h: Grid)
    requires WellFormed(g) && InGrid(q)
    ensures WellFormed(h)
    ensures forall x :: InGrid(x) ==> At(h, x) == if x == q then ch else At(g, x)
    ensures ValidGrid(g) && CellFits(q, ch) ==> ValidGrid(h)
  {
    g[q.row := g[q.row][q.col := ch]]
  }

  /** The standard opening, cell by cell. */
  function OpeningCell(q: Pos): char {
    if !Interior(q) then BorderCell
    else if q == Pos(4, 4) || q == Pos(5, 5) then WhitePiece
    else if q == Pos(4, 5) || q == Pos(5, 4) then BlackPiece
    else EmptyCell
  }

  function Opening(): (g: Grid)
    ensures ValidGrid(g)
    ensures forall q :: InGrid(q) ==> At(g, q) == OpeningCell(q)
  {
    seq(10, r => seq(10, c => OpeningCell(Pos(r, c))))
  }

  /** The row-major index of a cell. */
  function Rank(q: Pos): int {
    10 * q.row + q.col
  }

  /** The cell after q in row-major order. */
  function NextCell(q: Pos): Pos {
    if q.col < 9 then Pos(q.row, q.col + 1) else Pos(q.row + 1, 0)
  }

  /** Strictly increasing in row-major order: hence duplicate-free. */
  predicate RowMajor(s: seq<Pos>) {
    forall i, j :: 0 <= i < j < |s| ==> Rank(s[i]) < Rank(s[j])
  }

  /** The cells holding ch, row by row, from cell q on (Pos(10, 0) is the
      end of the grid). */
  function Occupants(g: Grid, ch: char, q: Pos): seq<Pos>
    requires WellFormed(g) && (InGrid(q) || q == Pos(10, 0))
    decreases 100 - Rank(q)
  {
    if q.row == 10 then []
    else
      var rest := Occupants(g, ch, NextCell(q));
      if At(g, q) == ch then [q] + rest else rest
  }

  /** The walk from q keeps exactly the cells at or after q holding ch. */
  lemma {:induction false} OccupantsMember(g: Grid, ch: char, q: Pos, x: Pos)
    requires WellFormed(g) && (InGrid(q) || q == Pos(10, 0))
    decreases 100 - Rank(q)
    ensures x in Occupants(g, ch, q) <==> InGrid(x) && Rank(q) <= Rank(x) && At(g, x) == ch
  {
    if q.row != 10 {
      var rest := Occupants(g, ch, NextCell(q));
      OccupantsMember(g, ch, NextCell(q), x);
      assert x in Occupants(g, ch, q) <==> (x == q && At(g, q) == ch) || x in rest;
      assert Rank(NextCell(q)) == Rank(q) + 1;
      if x == q {
        assert x !in rest;
      }
    }
  }

  /** The walk lists its cells in row-major order. */
  lemma {:induction false} OccupantsRowMajor(g: Grid, ch: char, q: Pos)
    requires WellFormed(g) && (InGrid(q) || q == Pos(10, 0))
    decreases 100 - Rank(q)
    ensures RowMajor(Occupants(g, ch, q))
  {
    if q.row != 10 {
      var rest := Occupants(g, ch, NextCell(q));
      OccupantsRowMajor(g, ch, NextCell(q));
      forall i | 0 <= i < |rest| ensures Rank(q) < Rank(rest[i]) {
        OccupantsMember(g, ch, NextCell(q), rest[i]);
      }
    }
  }

  /** The walk from the first cell finds exactly the cells holding ch. */
  lemma {:induction false} OccupantsWhole(g: Grid, ch: char)
    requires WellFormed(g)
    ensures forall x :: x in Occupants(g, ch, Pos(0, 0)) ==> InGrid(x) && At(g, x) == ch
    ensures forall x :: InGrid(x) && At(g, x) == ch ==> x in Occupants(g, ch, Pos(0, 0))
    ensures RowMajor(Occupants(g, ch, Pos(0, 0)))
  {
    forall x | x in Occupants(g, ch, Pos(0, 0)) ensures InGrid(x) && At(g, x) == ch {
      OccupantsMember(g, ch, Pos(0, 0), x);
    }
    forall x | InGrid(x) && At(g, x) == ch ensures x in Occupants(g, ch, Pos(0, 0)) {
      OccupantsMember(g, ch, Pos(0, 0), x);
    }
    OccupantsRowMajor(g, ch, Pos(0, 0));
  }

  /** current_positions: every cell holding c's piece, in row-major order. */
  function CurrentPositions(g: Grid, c: Color): (r: seq<Pos>)
    requires WellFormed(g)
    ensures forall x :: x in r <==> InGrid(x) && At(g, x) == Piece(c)
    ensures RowMajor(r)
  {
    OccupantsWhole(g, Piece(c));
    Occupants(g, Piece(c), Pos(0, 0))
  }

  /** The number of c's pieces on the board. */
  function Count(g: Grid, c: Color): nat
    requires WellFormed(g)
  {
    |Occupants(g, Piece(c), Pos(0, 0))|
  }

  /** A write before q leaves the cells from q on as they were. */
  lemma {:induction false} OccupantsPastSet(g: Grid, x: Pos, v: char, ch: char, q: Pos)
    requires WellFormed(g) && InGrid(x) && (InGrid(q) || q == Pos(10, 0)) && Rank(x) < Rank(q)
    decreases 100 - Rank(q)
    ensures Occupants(Set(g, x, v), ch, q) == Occupants(g, ch, q)
  {
    if q.row != 10 {
      OccupantsPastSet(g, x, v, ch, NextCell(q));
    }
  }

  /** Writing v at x, at or after q, changes the number of ch cells from q on
      by one for each of the old and new values that is ch. */
  lemma {:induction false} OccupantsAfterSet(g: Grid, x: Pos, v: char, ch: char, q: Pos)
    requires WellFormed(g) && InGrid(x) && InGrid(q) && Rank(q) <= Rank(x)
    decreases 100 - Rank(q)
    ensures |Occupants(Set(g, x, v), ch, q)| ==
            |Occupants(g, ch, q)| + (if v == ch then 1 else 0) - (if At(g, x) == ch then 1 else 0)
  {
    if q == x {
      OccupantsPastSet(g, x, v, ch, NextCell(q));
    } else {
      OccupantsAfterSet(g, x, v, ch, NextCell(q));
    }
  }

  /** One cell write moves each colour's count by one for each of the old and
      new values that is its piece. */
  lemma {:induction false} CountAfterSet(g: Grid, x: Pos, v: char, c: Color)
    requires WellFormed(g) && InGrid(x)
    ensures Count(Set(g, x, v), c) ==
            Count(g, c) + (if v == Piece(c) then 1 else 0) - (if At(g, x) == Piece(c) then 1 else 0)
  {
    OccupantsAfterSetFromStart(g, x, v, Piece(c));
  }

  /** OccupantsAfterSet for the walk over the whole grid. */
  lemma OccupantsAfterSetFromStart(g: Grid, x: Pos, v: char, ch: char)
    requires WellFormed(g) && InGrid(x)
    ensures |Occupants(Set(g, x, v), ch, Pos(0, 0))| ==
            |Occupants(g, ch, Pos(0, 0))| + (if v == ch then 1 else 0) - (if At(g, x) == ch then 1 else 0)
  {
    OccupantsAfterSet(g, x, v, ch, Pos(0, 0));
  }

  /** Two row-major lists holding the same cells are the same list. */
  lemma {:induction false} RowMajorUnique(a: seq<Pos>, b: seq<Pos>)
    requires RowMajor(a) && RowMajor(b)
    requires forall x :: x in a <==> x in b
    ensures a == b
  {
    assert a != [] ==> a[0] in b;
    assert b != [] ==> b[0] in a;
    if a != [] && b != [] {
      assert a[0] == b[0];
      forall x | x in a[1..] ensures x in b[1..] {
        assert x in b && x != b[0];
      }
      forall x | x in b[1..] ensures x in a[1..] {
        assert x in a && x != a[0];
      }
      RowMajorUnique(a[1..], b[1..]);
    }
  }
}
