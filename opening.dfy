/** Facts about the standard opening the engine starts from: where the four
    pieces stand and which four moves each colour has. */
module Openings {
  import opened Board
  import opened Rules
  import opened Flip

  /** The two pieces each colour starts with, row by row. */
  function OpeningPieces(c: Color): (m: seq<Pos>)
    ensures RowMajor(m)
  {
    if c == White then [Pos(4, 4), Pos(5, 5)] else [Pos(4, 5), Pos(5, 4)]
  }

  /** The four cells each colour may open with, row by row. */
  function OpeningMoves(c: Color): (m: seq<Pos>)
    ensures RowMajor(m)
  {
    if c == White then [Pos(3, 5), Pos(4, 6), Pos(5, 3), Pos(6, 4)]
    else [Pos(3, 4), Pos(4, 3), Pos(5, 6), Pos(6, 5)]
  }

  /** A grid laid out as the opening, cell by cell. */
  ghost predicate IsOpening(g: Grid) {
    ValidGrid(g) && forall q :: InGrid(q) ==> At(g, q) == OpeningCell(q)
  }

  /** current_positions on an opening board lists each colour's two centre
      pieces. */
  lemma {:induction false} OpeningPositionsOn(g: Grid, c: Color)
    requires IsOpening(g)
    ensures CurrentPositions(g, c) == OpeningPieces(c)
  {
    var r := CurrentPositions(g, c);
    var m := OpeningPieces(c);
    forall x | x in r ensures x in m {
      assert OpeningCell(x) == Piece(c);
    }
    assert At(g, m[0]) == Piece(c) && At(g, m[1]) == Piece(c);
    RowMajorUnique(r, m);
  }

  /** current_positions on the board the engine starts from lists each
      colour's two centre pieces, so both colours start with two. */
  lemma OpeningPositions(c: Color)
    ensures CurrentPositions(Opening(), c) == OpeningPieces(c)
    ensures Count(Opening(), c) == 2
  {
    OpeningPositionsOn(Opening(), c);
  }

  /** The opponent's two opening pieces touch only diagonally, and the next
      cell past both along that diagonal is empty. */
  lemma OpeningPairThenEmpty(y: Pos, d: Dir, c: Color)
    requires IsDirection(d)
    requires OpeningCell(y) == Piece(Opponent(c)) && OpeningCell(Step(y, d)) == Piece(Opponent(c))
    ensures OpeningCell(Step(Step(y, d), d)) == EmptyCell
  {
    if c == White {
      assert y == Pos(4, 5) || y == Pos(5, 4);
    } else {
      assert y == Pos(4, 4) || y == Pos(5, 5);
    }
  }

  /** On the opening board a line from an opponent's piece captures exactly
      when the very next cell is one of c's: two of the opponent's pieces in
      a row are followed by an empty cell. */
  lemma {:induction false} OpeningScan(g: Grid, y: Pos, d: Dir, c: Color)
    requires IsOpening(g) && Interior(y) && IsDirection(d) && At(g, y) == Piece(Opponent(c))
    ensures ScanFrom(g, y, d, c) <==> At(g, Step(y, d)) == Piece(c)
  {
    var z := Step(y, d);
    assert InGrid(z);
    assert ScanFrom(g, y, d, c) == ScanFrom(g, z, d, c);
    var cz := OpeningCell(z);
    assert At(g, z) == cz;
    if cz == Piece(Opponent(c)) {
      OpeningPairThenEmpty(y, d, c);
      var w := Step(z, d);
      assert Interior(z) && InGrid(w) && At(g, w) == EmptyCell;
      assert ScanFrom(g, z, d, c) == ScanFrom(g, w, d, c);
    } else if cz == Piece(c) {
      assert Interior(z);
    }
  }

  /** A move check_if_valid accepts on the opening board is one of the four
      of OpeningMoves. */
  lemma {:induction false} OpeningMoveSound(g: Grid, x: Pos, c: Color)
    requires IsOpening(g) && InGrid(x) && ValidMove(g, x, c)
    ensures x in OpeningMoves(c)
  {
    ValidMoveSome(g, x, c);
    var d :| IsDirection(d) && DirectionValid(g, x, d, c);
    var y := Step(x, d);
    var z := Step(y, d);
    assert OpeningCell(y) == Piece(Opponent(c)) && Interior(y);
    OpeningScan(g, y, d, c);
    assert OpeningCell(z) == Piece(c);
    assert x == Pos(2 * y.row - z.row, 2 * y.col - z.col);
    if c == White {
      assert y == Pos(4, 5) || y == Pos(5, 4);
      assert z == Pos(4, 4) || z == Pos(5, 5);
    } else {
      assert y == Pos(4, 4) || y == Pos(5, 5);
      assert z == Pos(4, 5) || z == Pos(5, 4);
    }
  }

  /** An empty cell of the opening next to an opponent's piece that is
      backed by one of c's is a valid move. */
  lemma {:induction false} OpeningCapture(g: Grid, x: Pos, d: Dir, c: Color)
    requires IsOpening(g) && InGrid(x) && IsDirection(d) && OpeningCell(x) == EmptyCell
    requires OpeningCell(Step(x, d)) == Piece(Opponent(c))
    requires OpeningCell(Step(Step(x, d), d)) == Piece(c)
    ensures ValidMove(g, x, c)
  {
    var y := Step(x, d);
    assert Interior(x) && Interior(y);
    OpeningScan(g, y, d, c);
    assert DirectionValid(g, x, d, c);
    ValidMoveSome(g, x, c);
  }

  /** Each of the four cells of OpeningMoves is accepted: one step towards
      the centre reaches an opponent's piece backed by one of c's. */
  lemma {:induction false} OpeningMovesWhite(g: Grid)
    requires IsOpening(g)
    ensures ValidMove(g, Pos(3, 5), White) && ValidMove(g, Pos(4, 6), White)
    ensures ValidMove(g, Pos(5, 3), White) && ValidMove(g, Pos(6, 4), White)
  {
    OpeningCapture(g, Pos(3, 5), Dir(1, 0), White);
    OpeningCapture(g, Pos(4, 6), Dir(0, -1), White);
    OpeningCapture(g, Pos(5, 3), Dir(0, 1), White);
    OpeningCapture(g, Pos(6, 4), Dir(-1, 0), White);
  }

  lemma {:induction false} OpeningMovesBlack(g: Grid)
    requires IsOpening(g)
    ensures ValidMove(g, Pos(3, 4), Black) && ValidMove(g, Pos(4, 3), Black)
    ensures ValidMove(g, Pos(5, 6), Black) && ValidMove(g, Pos(6, 5), Black)
  {
    OpeningCapture(g, Pos(3, 4), Dir(1, 0), Black);
    OpeningCapture(g, Pos(4, 3), Dir(0, 1), Black);
    OpeningCapture(g, Pos(5, 6), Dir(0, -1), Black);
    OpeningCapture(g, Pos(6, 5), Dir(-1, 0), Black);
  }

  /** The four cells of OpeningMoves are all among the available positions. */
  lemma {:induction false} OpeningMovesAvailable(g: Grid, c: Color)
    requires IsOpening(g)
    ensures forall i :: 0 <= i < |OpeningMoves(c)| ==> OpeningMoves(c)[i] in AvailablePositions(g, c)
  {
    if c == White {
      OpeningMovesWhite(g);
    } else {
      OpeningMovesBlack(g);
    }
  }

  /** return_available_positions on an opening board: each colour has the
      four moves of OpeningMoves, row by row. */
  lemma {:induction false} OpeningAvailableOn(g: Grid, c: Color)
    requires IsOpening(g)
    ensures AvailablePositions(g, c) == OpeningMoves(c)
  {
    var r := AvailablePositions(g, c);
    var m := OpeningMoves(c);
    OpeningMovesAvailable(g, c);
    forall x ensures x in r <==> x in m {
      if x in r {
        OpeningMoveSound(g, x, c);
      }
      if x in m {
        assert x == m[0] || x == m[1] || x == m[2] || x == m[3];
      }
    }
    RowMajorUnique(r, m);
  }

  /** return_available_positions on the board the engine starts from: each
      colour has the same four moves a standard Othello opening allows. */
  lemma OpeningAvailable(c: Color)
    ensures AvailablePositions(Opening(), c) == OpeningMoves(c)
  {
    OpeningAvailableOn(Opening(), c);
  }

  /** The only line a black piece at (3,4) captures on an opening board is
      the one straight down, through the white piece at (4,4). */
  lemma {:induction false} FirstMoveDirections(g: Grid)
    requires IsOpening(g)
    ensures LegalDirections(g, Pos(3, 4), Black) == [Dir(1, 0)]
  {
    var p := Pos(3, 4);
    var r := LegalDirections(g, p, Black);
    OpeningScan(g, Pos(4, 4), Dir(1, 0), Black);
    assert DirectionValid(g, p, Dir(1, 0), Black);
    assert Dir(1, 0) in r;
    forall i | 0 <= i < |r| ensures r[i] == Dir(1, 0) {
      var d := r[i];
      assert d in r;
      assert IsDirection(d) && At(g, Step(p, d)) == WhitePiece;
      assert OpeningCell(Step(p, d)) == WhitePiece;
    }
    OnlyDirection(r, Dir(1, 0));
  }

  /** A list in the engine's direction order whose entries are all d, and
      which holds d, is [d]. */
  lemma OnlyDirection(r: seq<Dir>, d: Dir)
    requires InOrder(r) && d in r
    requires forall i :: 0 <= i < |r| ==> r[i] == d
    ensures r == [d]
  {
    forall i | 0 <= i < |r| ensures r[i] == r[0] && i == 0 {
      assert Order(r[0]) <= Order(r[i]);
    }
    assert r[|r| - 1] == r[0];
  }

  /** The worked example of an opening move: black plays (3,4) next to the
      white centre piece at (4,4), flips exactly that piece, and leaves four
      black pieces against one white. */
  lemma {:induction false} FirstMoveOn(g: Grid)
    requires IsOpening(g)
    ensures At(AfterMove(g, Pos(3, 4), Black), Pos(3, 4)) == BlackPiece
    ensures At(AfterMove(g, Pos(3, 4), Black), Pos(4, 4)) == BlackPiece
    ensures At(AfterMove(g, Pos(3, 4), Black), Pos(5, 5)) == WhitePiece
    ensures Count(AfterMove(g, Pos(3, 4), Black), Black) == 4
    ensures Count(AfterMove(g, Pos(3, 4), Black), White) == 1
  {
    var p := Pos(3, 4);
    var ds := LegalDirections(g, p, Black);
    FirstMoveDirections(g);
    OpeningPositionsOn(g, Black);
    OpeningPositionsOn(g, White);
    assert RunLength(g, Pos(5, 4), Dir(1, 0), Black) == 0;
    assert RunLength(g, Pos(4, 4), Dir(1, 0), Black) == 1;
    assert ds[..0] == [];
    assert FlipTotal(g, p, Black, ds) == 1;
    AfterMoveCounts(g, p, Black);
    AfterMoveCells(g, p, Black, p);
    AfterMoveCells(g, p, Black, Pos(4, 4));
    AfterMoveCells(g, p, Black, Pos(5, 5));
    assert InRun(g, Pos(4, 4), Dir(1, 0), Black, Pos(4, 4));
    assert Flipped(g, p, Black, ds, Pos(4, 4));
    assert RayOf(p, Pos(5, 5)) == Dir(1, 1);
  }

  /** From the constructor's board, black's move at (3,4) flips one piece and
      leaves four black pieces against one white. */
  lemma FirstMove()
    ensures At(AfterMove(Opening(), Pos(3, 4), Black), Pos(4, 4)) == BlackPiece
    ensures Count(AfterMove(Opening(), Pos(3, 4), Black), Black) == 4
    ensures Count(AfterMove(Opening(), Pos(3, 4), Black), White) == 1
  {
    FirstMoveOn(Opening());
  }
}
