/** What make_move does to the board: place the piece, then along every
    capturing direction turn the opponent's unbroken line into c's pieces. */
module Flip {
  import opened Board
  import opened Rules

  /** The while loop of make_move along one direction: from q, turn each of
      the opponent's pieces into c's until a cell that is not the
      opponent's. The loop has no bounds test; the sentinel border stops it. */
  function FlipRay(g: Grid, q: Pos, d: Dir, c: Color): (h: Grid)
    requires ValidGrid(g) && IsDirection(d) && InGrid(q)
    decreases 20 - Progress(q, d)
    ensures ValidGrid(h)
  {
    if At(g, q) != Piece(Opponent(c)) then g
    else
      PieceIsInterior(g, q, Opponent(c));
      FlipRay(Set(g, q, Piece(c)), Step(q, d), d, c)
  }

  /** Flipping one line turns exactly the cells of the opponent's run into
      c's pieces and leaves every other cell as it was. */
  lemma {:induction false} FlipRayCells(g: Grid, q: Pos, d: Dir, c: Color, x: Pos)
    requires ValidGrid(g) && IsDirection(d) && InGrid(q) && InGrid(x)
    decreases 20 - Progress(q, d)
    ensures At(FlipRay(g, q, d, c), x) == if InRun(g, q, d, c, x) then Piece(c) else At(g, x)
  {
    if At(g, q) == Piece(Opponent(c)) {
      PieceIsInterior(g, q, Opponent(c));
      var h := Set(g, q, Piece(c));
      SameFromPastSet(g, q, Piece(c), Step(q, d), d);
      RunFrame(g, h, Step(q, d), d, c, x);
      FlipRayCells(h, Step(q, d), d, c, x);
    }
  }

  /** Flipping one line moves its run from the opponent's count to c's. */
  lemma {:induction false} FlipRayCount(g: Grid, q: Pos, d: Dir, c: Color, e: Color)
    requires ValidGrid(g) && IsDirection(d) && InGrid(q)
    decreases 20 - Progress(q, d)
    ensures Count(FlipRay(g, q, d, c), e) + (if e == c then 0 else RunLength(g, q, d, c)) ==
            Count(g, e) + (if e == c then RunLength(g, q, d, c) else 0)
  {
    if At(g, q) == Piece(Opponent(c)) {
      PieceIsInterior(g, q, Opponent(c));
      var h := Set(g, q, Piece(c));
      var n := RunLength(g, Step(q, d), d, c);
      assert RunLength(g, q, d, c) == 1 + n;
      assert FlipRay(g, q, d, c) == FlipRay(h, Step(q, d), d, c);
      CountAfterSet(g, q, Piece(c), e);
      SameFromPastSet(g, q, Piece(c), Step(q, d), d);
      RunFrame(g, h, Step(q, d), d, c, q);
      FlipRayCount(h, Step(q, d), d, c, e);
    }
  }

  predicate AllDirections(ds: seq<Dir>) {
    forall i :: 0 <= i < |ds| ==> IsDirection(ds[i])
  }

  /** The for loop of make_move: flip the lines of ds from p, one direction
      after the other. */
  function FlipDirs(g: Grid, p: Pos, c: Color, ds: seq<Dir>): (h: Grid)
    requires ValidGrid(g) && Interior(p) && AllDirections(ds)
    ensures ValidGrid(h)
  {
    if ds == [] then g
    else
      var d := ds[|ds| - 1];
      FlipRay(FlipDirs(g, p, c, ds[..|ds| - 1]), Step(p, d), d, c)
  }

  /** Flipping one more line extends the fold by one step. */
  lemma FlipDirsNext(g: Grid, p: Pos, c: Color, ds: seq<Dir>, j: nat)
    requires ValidGrid(g) && Interior(p) && AllDirections(ds) && j < |ds|
    ensures FlipDirs(g, p, c, ds[..j + 1]) == FlipRay(FlipDirs(g, p, c, ds[..j]), Step(p, ds[j]), ds[j], c)
  {
    assert ds[..j + 1][..j] == ds[..j];
  }

  /** x is turned by flipping the lines of ds from p: it lies in one of those
      directions from p, on the opponent's run next to p. */
  predicate Flipped(g: Grid, p: Pos, c: Color, ds: seq<Dir>, x: Pos)
    requires ValidGrid(g) && Interior(p)
  {
    x != p &&
    var d := RayOf(p, x);
    d in ds && InRun(g, Step(p, d), d, c, x)
  }

  /** The number of pieces the lines of ds from p hold. */
  function FlipTotal(g: Grid, p: Pos, c: Color, ds: seq<Dir>): nat
    requires ValidGrid(g) && Interior(p) && AllDirections(ds)
  {
    if ds == [] then 0
    else
      var d := ds[|ds| - 1];
      FlipTotal(g, p, c, ds[..|ds| - 1]) + RunLength(g, Step(p, d), d, c)
  }

  /** A line not yet flipped still reads as it did on the original board. */
  lemma {:induction false} FlipDirsRayUntouched(g: Grid, p: Pos, c: Color, ds: seq<Dir>, d: Dir)
    requires ValidGrid(g) && Interior(p) && InOrder(ds) && IsDirection(d) && d !in ds
    requires forall x :: InGrid(x) ==>
               At(FlipDirs(g, p, c, ds), x) == if Flipped(g, p, c, ds, x) then Piece(c) else At(g, x)
    ensures SameFrom(g, FlipDirs(g, p, c, ds), Step(p, d), d)
  {
    var h := FlipDirs(g, p, c, ds);
    forall x | InGrid(x) && RayOf(p, x) == d ensures At(g, x) == At(h, x) {
      assert !Flipped(g, p, c, ds, x);
    }
    SameFromRay(g, h, p, Step(p, d), d);
  }

  /** Flipping the capturing lines in order turns exactly the cells of their
      runs, each independently of the others, and nothing else. */
  lemma {:induction false} FlipDirsCells(g: Grid, p: Pos, c: Color, ds: seq<Dir>)
    requires ValidGrid(g) && Interior(p) && InOrder(ds)
    ensures forall x :: InGrid(x) ==>
              At(FlipDirs(g, p, c, ds), x) == if Flipped(g, p, c, ds, x) then Piece(c) else At(g, x)
  {
    if ds != [] {
      var d := ds[|ds| - 1];
      var e := ds[..|ds| - 1];
      assert ds == e + [d];
      assert d !in e;
      FlipDirsCells(g, p, c, e);
      var h := FlipDirs(g, p, c, e);
      FlipDirsRayUntouched(g, p, c, e, d);
      forall x | InGrid(x)
        ensures At(FlipDirs(g, p, c, ds), x) == if Flipped(g, p, c, ds, x) then Piece(c) else At(g, x)
      {
        FlipRayCells(h, Step(p, d), d, c, x);
        RunFrame(g, h, Step(p, d), d, c, x);
        if InRun(g, Step(p, d), d, c, x) {
          InRunRay(g, p, Step(p, d), d, c, x);
        }
      }
    }
  }

  /** Flipping the lines of ds moves all their pieces from the opponent's
      count to c's. */
  lemma {:induction false} FlipDirsCount(g: Grid, p: Pos, c: Color, ds: seq<Dir>, e: Color)
    requires ValidGrid(g) && Interior(p) && InOrder(ds)
    ensures Count(FlipDirs(g, p, c, ds), e) + (if e == c then 0 else FlipTotal(g, p, c, ds)) ==
            Count(g, e) + (if e == c then FlipTotal(g, p, c, ds) else 0)
  {
    if ds != [] {
      var d := ds[|ds| - 1];
      var f := ds[..|ds| - 1];
      assert d !in f;
      FlipDirsCount(g, p, c, f, e);
      FlipDirsCells(g, p, c, f);
      var h := FlipDirs(g, p, c, f);
      FlipDirsRayUntouched(g, p, c, f, d);
      RunFrame(g, h, Step(p, d), d, c, p);
      FlipRayCount(h, Step(p, d), d, c, e);
    }
  }

  /** Every direction of ds captures, so each line holds at least one piece. */
  lemma {:induction false} FlipTotalAtLeast(g: Grid, p: Pos, c: Color, ds: seq<Dir>)
    requires ValidGrid(g) && Interior(p) && AllDirections(ds)
    requires forall i :: 0 <= i < |ds| ==> DirectionValid(g, p, ds[i], c)
    ensures FlipTotal(g, p, c, ds) >= |ds|
  {
    if ds != [] {
      var d := ds[|ds| - 1];
      FlipTotalAtLeast(g, p, c, ds[..|ds| - 1]);
      CaptureRule(g, p, d, c);
    }
  }

  /** The write at p itself does not change what the lines from p hold. */
  lemma {:induction false} FlipTotalAfterSet(g: Grid, p: Pos, c: Color, ds: seq<Dir>)
    requires ValidGrid(g) && Interior(p) && AllDirections(ds)
    ensures FlipTotal(Set(g, p, Piece(c)), p, c, ds) == FlipTotal(g, p, c, ds)
  {
    if ds != [] {
      var d := ds[|ds| - 1];
      FlipTotalAfterSet(g, p, c, ds[..|ds| - 1]);
      SameFromPastSet(g, p, Piece(c), Step(p, d), d);
      RunFrame(g, Set(g, p, Piece(c)), Step(p, d), d, c, p);
    }
  }

  /** The write at p itself does not change which directions capture. */
  lemma DirectionValidAfterSet(g: Grid, p: Pos, v: char, d: Dir, c: Color)
    requires WellFormed(g) && Interior(p) && IsDirection(d)
    ensures DirectionValid(Set(g, p, v), p, d, c) == DirectionValid(g, p, d, c)
  {
    SameFromPastSet(g, p, v, Step(p, d), d);
    ScanFromFrame(g, Set(g, p, v), Step(p, d), d, c);
  }

  /** The write at p itself does not change the capturing directions among
      the first n. */
  lemma {:induction false} CapturingAmongAfterSet(g: Grid, p: Pos, v: char, c: Color, n: nat)
    requires WellFormed(g) && Interior(p) && n <= |Directions|
    ensures CapturingAmong(Set(g, p, v), p, c, n) == CapturingAmong(g, p, c, n)
  {
    if n > 0 {
      DirectionsExact(n - 1);
      DirectionValidAfterSet(g, p, v, Directions[n - 1], c);
      CapturingAmongAfterSet(g, p, v, c, n - 1);
    }
  }

  /** flip_pieces runs after make_move has placed the piece; the directions
      it finds are those of the board before the write. */
  lemma LegalDirectionsAfterSet(g: Grid, p: Pos, v: char, c: Color)
    requires WellFormed(g) && Interior(p)
    ensures LegalDirections(Set(g, p, v), p, c) == LegalDirections(g, p, c)
  {
    CapturingAmongAfterSet(g, p, v, c, |Directions|);
  }

  /** make_move on the board: write c's piece at p, then flip every line
      flip_pieces finds on the new board, in its order. */
  function AfterMove(g: Grid, p: Pos, c: Color): (h: Grid)
    requires ValidGrid(g) && Interior(p)
    ensures ValidGrid(h)
  {
    var g1 := Set(g, p, Piece(c));
    FlipDirs(g1, p, c, LegalDirections(g1, p, c))
  }

  /** After a move, p and exactly the cells of the opponent's runs along the
      capturing directions hold c's pieces; every other cell is unchanged. */
  lemma AfterMoveCells(g: Grid, p: Pos, c: Color, x: Pos)
    requires ValidGrid(g) && Interior(p) && InGrid(x)
    ensures At(AfterMove(g, p, c), x) ==
            if x == p || Flipped(g, p, c, LegalDirections(g, p, c), x) then Piece(c) else At(g, x)
  {
    var g1 := Set(g, p, Piece(c));
    LegalDirectionsAfterSet(g, p, Piece(c), c);
    FlipDirsCells(g1, p, c, LegalDirections(g, p, c));
    if x != p {
      var d := RayOf(p, x);
      SameFromPastSet(g, p, Piece(c), Step(p, d), d);
      RunFrame(g, g1, Step(p, d), d, c, x);
    }
  }

  /** Each flipped cell held an opponent's piece outflanked by the move: the
      line it lies on ends on one of c's pieces inside the playing area. */
  lemma AfterMoveOutflanked(g: Grid, p: Pos, c: Color, x: Pos)
    requires ValidGrid(g) && Interior(p) && InGrid(x)
    requires Flipped(g, p, c, LegalDirections(g, p, c), x)
    ensures At(g, x) == Piece(Opponent(c))
    ensures var d := RayOf(p, x);
            Interior(RunEnd(g, Step(p, d), d, c)) && At(g, RunEnd(g, Step(p, d), d, c)) == Piece(c)
  {
    var d := RayOf(p, x);
    InRunOpponent(g, Step(p, d), d, c, x);
    CaptureRule(g, p, d, c);
  }

  /** A move adds the placed piece and the flipped ones to c's count and takes
      the flipped ones from the opponent's. */
  lemma AfterMoveCounts(g: Grid, p: Pos, c: Color)
    requires ValidGrid(g) && Interior(p) && At(g, p) == EmptyCell
    ensures Count(AfterMove(g, p, c), c) ==
            Count(g, c) + 1 + FlipTotal(g, p, c, LegalDirections(g, p, c))
    ensures Count(AfterMove(g, p, c), Opponent(c)) + FlipTotal(g, p, c, LegalDirections(g, p, c)) ==
            Count(g, Opponent(c))
  {
    var g1 := Set(g, p, Piece(c));
    var ds := LegalDirections(g, p, c);
    LegalDirectionsAfterSet(g, p, Piece(c), c);
    CountAfterSet(g, p, Piece(c), c);
    CountAfterSet(g, p, Piece(c), Opponent(c));
    FlipDirsCount(g1, p, c, ds, c);
    FlipDirsCount(g1, p, c, ds, Opponent(c));
    FlipTotalAfterSet(g, p, c, ds);
  }

  /** On an empty cell a move is valid exactly when it flips at least one
      piece. */
  lemma ValidMoveFlips(g: Grid, p: Pos, c: Color)
    requires ValidGrid(g) && Interior(p) && At(g, p) == EmptyCell
    ensures ValidMove(g, p, c) <==> FlipTotal(g, p, c, LegalDirections(g, p, c)) >= 1
  {
    var ds := LegalDirections(g, p, c);
    LegalDirectionsIffValid(g, p, c);
    FlipTotalAtLeast(g, p, c, ds);
  }
}
