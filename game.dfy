/** A game of Othello: the board and the registered players, and the
    operations the engine offers on them. */
module Game {
  import opened Board
  import opened Rules
  import opened Flip
  import opened Scoring

  /** What play_game reports for one turn: the move was refused (the engine
      shows the valid moves), the game goes on, or neither colour can move
      any more and the final counts and verdict are reported. */
  datatype TurnOutcome =
    | InvalidMove(available: seq<Pos>)
    | Ongoing
    | GameOver(white: nat, black: nat, verdict: Verdict)

  /** The colour name of the other side, as play_game derives it. */
  function OpponentName(color: string): (o: string)
    ensures ParseColor(o) == Opponent(ParseColor(color))
  {
    if color == "white" then "black" else "white"
  }

  class Othello {
    var board: Grid
    var players: seq<Player>

    ghost predicate Valid()
      reads this
    {
      ValidGrid(board)
    }

    /** The standard opening and no players. */
    constructor ()
      ensures Valid() && board == Opening() && players == []
    {
      board := Opening();
      players := [];
    }

    /** create_player: record one more player, after the existing ones. */
    method CreatePlayer(name: string, color: string)
      requires Valid()
      modifies this
      ensures Valid() && board == old(board)
      ensures players == old(players) + [Player(name, color)]
    {
      players := players + [Player(name, color)];
    }

    /** return_winner: tally both colours and name the winner. */
    function ReturnWinner(): (v: Verdict)
      reads this
      requires Valid()
      ensures v == Decide(Count(board, White), Count(board, Black), players)
    {
      Decide(|CurrentPositions("white")|, |CurrentPositions("black")|, players)
    }

    /** current_positions: the cells holding the named colour's pieces, row
        by row. */
    function CurrentPositions(color: string): (r: seq<Pos>)
      reads this
      requires Valid()
      ensures forall x :: x in r <==> InGrid(x) && At(board, x) == Piece(ParseColor(color))
      ensures RowMajor(r)
      ensures |r| == Count(board, ParseColor(color))
    {
      Board.CurrentPositions(board, ParseColor(color))
    }

    /** check_if_valid: refuse an occupied cell, then try each direction:
        skip it unless the neighbour is the opponent's, else walk while inside
        the playing area, giving up on an empty cell and accepting on one of
        c's pieces. */
    method CheckIfValid(p: Pos, c: Color) returns (valid: bool)
      requires Valid() && InGrid(p)
      ensures valid == ValidMove(board, p, c)
    {
      if At(board, p) != EmptyCell {
        return false;
      }
      assert CellFits(p, At(board, p));
      var opponent := Piece(Opponent(c));
      var i := 0;
      while i < |Directions|
        invariant 0 <= i <= |Directions|
        invariant CapturesFrom(board, p, c, i) == CapturesFrom(board, p, c, 0)
      {
        var d := Directions[i];
        DirectionsExact(i);
        var q := Step(p, d);
        if At(board, q) == opponent {
          var found := ScanLine(q, d, c);
          if found {
            return true;
          }
        }
        i := i + 1;
      }
      return false;
    }

    /** The while loop shared by check_if_valid and flip_pieces: walk along d
        while inside the playing area, failing on an empty cell and succeeding
        on one of c's pieces. */
    method ScanLine(q0: Pos, d: Dir, c: Color) returns (found: bool)
      requires Valid() && InGrid(q0) && IsDirection(d)
      ensures found == ScanFrom(board, q0, d, c)
    {
      var q := q0;
      while 1 <= q.row <= |board| - 2 && 1 <= q.col <= |board| - 2
        invariant InGrid(q)
        invariant ScanFrom(board, q, d, c) == ScanFrom(board, q0, d, c)
        decreases 20 - Progress(q, d)
      {
        if At(board, q) == EmptyCell {
          return false;
        } else if At(board, q) == Piece(c) {
          return true;
        }
        q := Step(q, d);
      }
      return false;
    }

    /** return_available_positions: every cell of the grid, row by row, kept
        when check_if_valid accepts it. */
    method ReturnAvailablePositions(color: string) returns (r: seq<Pos>)
      requires Valid()
      ensures r == AvailablePositions(board, ParseColor(color))
    {
      var c := ParseColor(color);
      ghost var g := board;
      r := [];
      var row := 0;
      while row < |board|
        invariant board == g && 0 <= row <= 10
        invariant r + AvailableFrom(g, c, Pos(row, 0)) == AvailablePositions(g, c)
      {
        var col := 0;
        while col < |board[row]|
          invariant 0 <= col <= 10
          invariant r + AvailableFrom(g, c, if col < 10 then Pos(row, col) else Pos(row + 1, 0)) ==
                    AvailablePositions(g, c)
        {
          var q := Pos(row, col);
          var ok := CheckIfValid(q, c);
          AvailableFromNext(g, c, q);
          if ok {
            r := r + [q];
          }
          col := col + 1;
        }
        row := row + 1;
      }
    }

    /** flip_pieces: the directions in which a piece of c at p captures, in
        the engine's order. */
    method FlipPieces(c: Color, p: Pos) returns (legal: seq<Dir>)
      requires Valid() && Interior(p)
      ensures legal == LegalDirections(board, p, c)
    {
      var opponent := Piece(Opponent(c));
      legal := [];
      var i := 0;
      while i < |Directions|
        invariant 0 <= i <= |Directions|
        invariant legal == CapturingAmong(board, p, c, i)
      {
        var d := Directions[i];
        DirectionsExact(i);
        var q := Step(p, d);
        if At(board, q) == opponent {
          var found := ScanLine(q, d, c);
          if found {
            legal := legal + [d];
          }
        }
        i := i + 1;
      }
    }

    /** make_move: place the piece, ask flip_pieces for the capturing
        directions on the new board, and flip each line in turn. Reached only
        through play_game, after the move was found valid. */
    method MakeMove(color: string, p: Pos) returns (result: Grid)
      requires Valid() && InGrid(p) && ValidMove(board, p, ParseColor(color))
      modifies this
      ensures Valid() && players == old(players)
      ensures board == AfterMove(old(board), p, ParseColor(color))
      ensures result == board
    {
      var c := ParseColor(color);
      board := Set(board, p, Piece(c));
      var directions := FlipPieces(c, p);
      ghost var placed := board;
      var j := 0;
      while j < |directions|
        invariant 0 <= j <= |directions|
        invariant ValidGrid(board) && players == old(players)
        invariant board == FlipDirs(placed, p, c, directions[..j])
      {
        FlipLine(Step(p, directions[j]), directions[j], c);
        FlipDirsNext(placed, p, c, directions, j);
        j := j + 1;
      }
      assert directions[..|directions|] == directions;
      result := board;
    }

    /** The inner while loop of make_move: from q on along d, turn the
        opponent's pieces into c's until a cell that is not the opponent's;
        the sentinel border stops the walk. */
    method FlipLine(q0: Pos, d: Dir, c: Color)
      requires Valid() && InGrid(q0) && IsDirection(d)
      modifies this
      ensures Valid() && players == old(players)
      ensures board == FlipRay(old(board), q0, d, c)
    {
      var opponent := Piece(Opponent(c));
      var q := q0;
      while At(board, q) == opponent
        invariant InGrid(q) && ValidGrid(board) && players == old(players)
        invariant FlipRay(board, q, d, c) == FlipRay(old(board), q0, d, c)
        decreases 20 - Progress(q, d)
      {
        PieceIsInterior(board, q, Opponent(c));
        board := Set(board, q, Piece(c));
        q := Step(q, d);
      }
    }

    /** play_game: refuse a move that is not among the colour's available
        positions and leave the board alone; otherwise make it, and end the
        game when neither this colour nor its opponent can move any more. */
    method PlayGame(color: string, p: Pos) returns (outcome: TurnOutcome)
      requires Valid()
      modifies this
      ensures Valid() && players == old(players)
      ensures outcome.InvalidMove? <==> p !in AvailablePositions(old(board), ParseColor(color))
      ensures outcome.InvalidMove? ==>
                board == old(board) && outcome.available == AvailablePositions(old(board), ParseColor(color))
      ensures !outcome.InvalidMove? ==> board == AfterMove(old(board), p, ParseColor(color))
      ensures outcome.GameOver? <==>
                !outcome.InvalidMove? &&
                AvailablePositions(board, ParseColor(color)) == [] &&
                AvailablePositions(board, Opponent(ParseColor(color))) == []
      ensures outcome.GameOver? ==>
                outcome.white == Count(board, White) && outcome.black == Count(board, Black) &&
                outcome.verdict == Decide(Count(board, White), Count(board, Black), players)
      ensures outcome.GameOver? ==>
                forall x :: InGrid(x) ==> !ValidMove(board, x, White) && !ValidMove(board, x, Black)
    {
      var opponent := OpponentName(color);
      var available := ReturnAvailablePositions(color);
      if p !in available {
        return InvalidMove(available);
      }
      var _ := MakeMove(color, p);
      available := ReturnAvailablePositions(color);
      var others := ReturnAvailablePositions(opponent);
      if available == [] && others == [] {
        var white := |CurrentPositions("white")|;
        var black := |CurrentPositions("black")|;
        var verdict := ReturnWinner();
        return GameOver(white, black, verdict);
      }
      return Ongoing;
    }
  }
}
