/** The rules of the engine: the eight-direction scan that decides whether a
    move is legal and which directions it captures in, and the positions a
    colour may play. */
module Rules {
  import opened Board

  /** A direction as the engine writes it: a (row, column) step. */
  datatype Dir = Dir(dr: int, dc: int)

  /** The directions the engine tries, in its order. */
  const Directions: seq<Dir> :=
    [Dir(1, 0), Dir(-1, 0), Dir(0, 1), Dir(0, -1), Dir(1, 1), Dir(1, -1), Dir(-1, 1), Dir(-1, -1)]

  /** One of the eight unit steps: each coordinate moves by at most one, and
      not both by zero. */
  predicate IsDirection(d: Dir) {
    -1 <= d.dr <= 1 && -1 <= d.dc <= 1 && d != Dir(0, 0)
  }

  /** The place of a direction in Directions, and 8 for anything else. */
  function Order(d: Dir): (i: nat)
    ensures i < |Directions| <==> IsDirection(d)
    ensures i < |Directions| ==> Directions[i] == d
    ensures i <= |Directions|
  {
    if d == Dir(1, 0) then 0
    else if d == Dir(-1, 0) then 1
    else if d == Dir(0, 1) then 2
    else if d == Dir(0, -1) then 3
    else if d == Dir(1, 1) then 4
    else if d == Dir(1, -1) then 5
    else if d == Dir(-1, 1) then 6
    else if d == Dir(-1, -1) then 7
    else 8
  }

  /** Directions lists exactly the unit steps, each in its own place. */
  lemma DirectionsExact(j: int)
    requires 0 <= j < |Directions|
    ensures IsDirection(Directions[j]) && Order(Directions[j]) == j
  {
  }

  /** One step from q along d: `new_row += coord_row; new_col += coord_col`. */
  function Step(q: Pos, d: Dir): Pos {
    Pos(q.row + d.dr, q.col + d.dc)
  }

  /** v signed by the unit s: v, -v or 0. */
  function Signed(s: int, v: int): int {
    if s == 1 then v else if s == -1 then -v else 0
  }

  /** How far along d the cell q lies; every step adds one or two. It bounds
      every walk across the grid. */
  function Progress(q: Pos, d: Dir): int {
    Signed(d.dr, q.row) + Signed(d.dc, q.col)
  }

  function Sign(x: int): int {
    if x > 0 then 1 else if x < 0 then -1 else 0
  }

  /** The direction in which x lies as seen from p (each coordinate's sign). */
  function RayOf(p: Pos, x: Pos): Dir {
    Dir(Sign(x.row - p.row), Sign(x.col - p.col))
  }

  /** Walking along d from a cell that lies in direction d from p stays in
      direction d from p, and moves forward. */
  lemma StepKeepsRay(p: Pos, q: Pos, d: Dir)
    requires IsDirection(d) && RayOf(p, q) == d
    ensures RayOf(p, Step(q, d)) == d
    ensures Progress(q, d) < Progress(Step(q, d), d)
  {
  }

  /** The while loop of check_if_valid and flip_pieces from cell q: while the
      cell is inside the playing area, stop with false on an empty cell, with
      true on one of c's pieces, and step over anything else. */
  function ScanFrom(g: Grid, q: Pos, d: Dir, c: Color): bool
    requires WellFormed(g) && IsDirection(d) && InGrid(q)
    decreases 20 - Progress(q, d)
  {
    if !Interior(q) then false
    else if At(g, q) == EmptyCell then false
    else if At(g, q) == Piece(c) then true
    else ScanFrom(g, Step(q, d), d, c)
  }

  /** One direction of check_if_valid: the neighbour must be the opponent's,
      and the scan from it must reach one of c's pieces. */
  function DirectionValid(g: Grid, p: Pos, d: Dir, c: Color): bool
    requires WellFormed(g) && Interior(p) && IsDirection(d)
  {
    At(g, Step(p, d)) == Piece(Opponent(c)) && ScanFrom(g, Step(p, d), d, c)
  }

  /** The for loop of check_if_valid from the i-th direction on: does some
      remaining direction capture? */
  function CapturesFrom(g: Grid, p: Pos, c: Color, i: nat): bool
    requires WellFormed(g) && Interior(p) && i <= |Directions|
    decreases |Directions| - i
  {
    i < |Directions| &&
    (DirectionsExact(i); DirectionValid(g, p, Directions[i], c) || CapturesFrom(g, p, c, i + 1))
  }

  /** check_if_valid: p must be empty, and some direction must capture. An
      occupied cell, and in particular every border cell, is refused before
      any neighbour is read; that is what keeps the unguarded neighbour
      reads inside the grid. */
  function ValidMove(g: Grid, p: Pos, c: Color): (v: bool)
    requires ValidGrid(g) && InGrid(p)
    ensures v ==> Interior(p) && At(g, p) == EmptyCell
  {
    At(g, p) == EmptyCell && (assert CellFits(p, At(g, p)); CapturesFrom(g, p, c, 0))
  }

  /** The directions from the i-th on capture exactly when one of them does. */
  lemma {:induction false} CapturesFromSome(g: Grid, p: Pos, c: Color, i: nat)
    requires WellFormed(g) && Interior(p) && i <= |Directions|
    decreases |Directions| - i
    ensures CapturesFrom(g, p, c, i) <==>
              exists d :: IsDirection(d) && i <= Order(d) && DirectionValid(g, p, d, c)
  {
    if i < |Directions| {
      CapturesFromSome(g, p, c, i + 1);
      DirectionsExact(i);
      if CapturesFrom(g, p, c, i) {
        if DirectionValid(g, p, Directions[i], c) {
          assert i <= Order(Directions[i]);
        }
      }
    }
  }

  /** A move is valid exactly on an empty cell from which some direction
      captures. */
  lemma ValidMoveSome(g: Grid, p: Pos, c: Color)
    requires ValidGrid(g) && Interior(p)
    ensures ValidMove(g, p, c) <==>
              At(g, p) == EmptyCell && exists d :: IsDirection(d) && DirectionValid(g, p, d, c)
  {
    CapturesFromSome(g, p, c, 0);
  }

  /** Unit steps only, strictly increasing in the engine's direction order. */
  predicate InOrder(ds: seq<Dir>) {
    (forall i :: 0 <= i < |ds| ==> IsDirection(ds[i])) &&
    forall i, j :: 0 <= i < j < |ds| ==> Order(ds[i]) < Order(ds[j])
  }

  /** The directions among the engine's first n in which a move at p
      captures, in the engine's order. */
  function CapturingAmong(g: Grid, p: Pos, c: Color, n: nat): (r: seq<Dir>)
    requires WellFormed(g) && Interior(p) && n <= |Directions|
    ensures forall d :: d in r <==> IsDirection(d) && Order(d) < n && DirectionValid(g, p, d, c)
    ensures InOrder(r)
    ensures forall i :: 0 <= i < |r| ==> Order(r[i]) < n
  {
    if n == 0 then []
    else
      var d := Directions[n - 1];
      DirectionsExact(n - 1);
      var r := CapturingAmong(g, p, c, n - 1);
      if DirectionValid(g, p, d, c) then r + [d] else r
  }

  /** flip_pieces: the capturing directions, a duplicate-free subsequence of
      the engine's directions. */
  function LegalDirections(g: Grid, p: Pos, c: Color): (r: seq<Dir>)
    requires WellFormed(g) && Interior(p)
    ensures forall d :: d in r <==> IsDirection(d) && DirectionValid(g, p, d, c)
    ensures InOrder(r)
  {
    CapturingAmong(g, p, c, |Directions|)
  }

  /** On an empty cell, flip_pieces finds a direction exactly when
      check_if_valid accepts the move. */
  lemma LegalDirectionsIffValid(g: Grid, p: Pos, c: Color)
    requires ValidGrid(g) && Interior(p) && At(g, p) == EmptyCell
    ensures LegalDirections(g, p, c) != [] <==> ValidMove(g, p, c)
  {
    var r := LegalDirections(g, p, c);
    ValidMoveSome(g, p, c);
    if r != [] {
      assert r[0] in r;
    }
  }

  /** Under the board invariant only the playing area holds pieces. */
  lemma PieceIsInterior(g: Grid, q: Pos, c: Color)
    requires ValidGrid(g) && InGrid(q) && At(g, q) == Piece(c)
    ensures Interior(q)
  {
    assert CellFits(q, At(g, q));
  }

  /** The number of the opponent's pieces in an unbroken line from q along
      d: how far the flipping loop of make_move runs. */
  function RunLength(g: Grid, q: Pos, d: Dir, c: Color): nat
    requires ValidGrid(g) && IsDirection(d) && InGrid(q)
    decreases 20 - Progress(q, d)
  {
    if At(g, q) != Piece(Opponent(c)) then 0
    else PieceIsInterior(g, q, Opponent(c)); 1 + RunLength(g, Step(q, d), d, c)
  }

  /** The first cell from q along d that is not the opponent's: where the
      flipping loop of make_move stops. The line always ends, at the latest
      on the border. */
  function RunEnd(g: Grid, q: Pos, d: Dir, c: Color): (e: Pos)
    requires ValidGrid(g) && IsDirection(d) && InGrid(q)
    decreases 20 - Progress(q, d)
    ensures InGrid(e) && At(g, e) != Piece(Opponent(c))
  {
    if At(g, q) != Piece(Opponent(c)) then q
    else PieceIsInterior(g, q, Opponent(c)); RunEnd(g, Step(q, d), d, c)
  }

  /** x is one of the cells of the opponent's run from q along d. */
  predicate InRun(g: Grid, q: Pos, d: Dir, c: Color, x: Pos)
    requires ValidGrid(g) && IsDirection(d) && InGrid(q)
    decreases 20 - Progress(q, d)
  {
    At(g, q) == Piece(Opponent(c)) &&
    (PieceIsInterior(g, q, Opponent(c)); x == q || InRun(g, Step(q, d), d, c, x))
  }

  /** Every cell of a run is one of the opponent's pieces. */
  lemma {:induction false} InRunOpponent(g: Grid, q: Pos, d: Dir, c: Color, x: Pos)
    requires ValidGrid(g) && IsDirection(d) && InGrid(q) && InRun(g, q, d, c, x)
    decreases 20 - Progress(q, d)
    ensures InGrid(x) && At(g, x) == Piece(Opponent(c))
  {
    if x != q {
      PieceIsInterior(g, q, Opponent(c));
      InRunOpponent(g, Step(q, d), d, c, x);
    }
  }

  /** A run starting in direction d from p lies wholly in direction d from p. */
  lemma {:induction false} InRunRay(g: Grid, p: Pos, q: Pos, d: Dir, c: Color, x: Pos)
    requires ValidGrid(g) && IsDirection(d) && InGrid(q) && RayOf(p, q) == d
    requires InRun(g, q, d, c, x)
    decreases 20 - Progress(q, d)
    ensures RayOf(p, x) == d
  {
    if x != q {
      PieceIsInterior(g, q, Opponent(c));
      StepKeepsRay(p, q, d);
      InRunRay(g, p, Step(q, d), d, c, x);
    }
  }

  /** The scan succeeds exactly when the run of opponent pieces it walks over
      ends on one of c's pieces inside the playing area. */
  lemma {:induction false} ScanFromRun(g: Grid, q: Pos, d: Dir, c: Color)
    requires ValidGrid(g) && IsDirection(d) && InGrid(q)
    decreases 20 - Progress(q, d)
    ensures ScanFrom(g, q, d, c) <==> Interior(RunEnd(g, q, d, c)) && At(g, RunEnd(g, q, d, c)) == Piece(c)
  {
    assert CellFits(q, At(g, q));
    if At(g, q) == Piece(Opponent(c)) {
      ScanFromRun(g, Step(q, d), d, c);
    }
  }

  /** The capture rule: check_if_valid accepts direction d exactly when the
      run of the opponent's pieces next to p, the run make_move flips, is not
      empty and ends on one of c's pieces inside the playing area. */
  lemma CaptureRule(g: Grid, p: Pos, d: Dir, c: Color)
    requires ValidGrid(g) && Interior(p) && IsDirection(d)
    ensures DirectionValid(g, p, d, c) <==>
              RunLength(g, Step(p, d), d, c) >= 1 &&
              Interior(RunEnd(g, Step(p, d), d, c)) && At(g, RunEnd(g, Step(p, d), d, c)) == Piece(c)
  {
    ScanFromRun(g, Step(p, d), d, c);
  }

  /** return_available_positions from cell q on: every cell, row by row,
      at which check_if_valid accepts a move by c (Pos(10, 0) is the end of
      the grid). */
  function AvailableFrom(g: Grid, c: Color, q: Pos): seq<Pos>
    requires ValidGrid(g) && (InGrid(q) || q == Pos(10, 0))
    decreases 100 - Rank(q)
  {
    if q.row == 10 then []
    else
      var rest := AvailableFrom(g, c, NextCell(q));
      if ValidMove(g, q, c) then [q] + rest else rest
  }

  /** One step of the walk: q is kept exactly when the move there is valid. */
  lemma AvailableFromNext(g: Grid, c: Color, q: Pos)
    requires ValidGrid(g) && InGrid(q)
    ensures AvailableFrom(g, c, q) == (if ValidMove(g, q, c) then [q] else []) + AvailableFrom(g, c, NextCell(q))
  {
  }

  /** The walk from q keeps exactly the cells at or after q where a move by c
      is valid. */
  lemma {:induction false} AvailableFromMember(g: Grid, c: Color, q: Pos, x: Pos)
    requires ValidGrid(g) && (InGrid(q) || q == Pos(10, 0))
    decreases 100 - Rank(q)
    ensures x in AvailableFrom(g, c, q) <==> InGrid(x) && Rank(q) <= Rank(x) && ValidMove(g, x, c)
  {
    if q.row != 10 {
      var rest := AvailableFrom(g, c, NextCell(q));
      AvailableFromNext(g, c, q);
      AvailableFromMember(g, c, NextCell(q), x);
      assert x in AvailableFrom(g, c, q) <==> (x == q && ValidMove(g, q, c)) || x in rest;
      assert Rank(NextCell(q)) == Rank(q) + 1;
      if x == q {
        assert x !in rest;
      }
    }
  }

  /** The walk lists its cells in row-major order. */
  lemma {:induction false} AvailableFromRowMajor(g: Grid, c: Color, q: Pos)
    requires ValidGrid(g) && (InGrid(q) || q == Pos(10, 0))
    decreases 100 - Rank(q)
    ensures RowMajor(AvailableFrom(g, c, q))
  {
    if q.row != 10 {
      var rest := AvailableFrom(g, c, NextCell(q));
      AvailableFromRowMajor(g, c, NextCell(q));
      forall i | 0 <= i < |rest| ensures Rank(q) < Rank(rest[i]) {
        AvailableFromMember(g, c, NextCell(q), rest[i]);
      }
    }
  }

  /** The walk from the first cell finds exactly the cells where a move by c
      is valid. */
  lemma {:induction false} AvailableWhole(g: Grid, c: Color)
    requires ValidGrid(g)
    ensures forall x :: x in AvailableFrom(g, c, Pos(0, 0)) ==> InGrid(x) && ValidMove(g, x, c)
    ensures forall x :: InGrid(x) && ValidMove(g, x, c) ==> x in AvailableFrom(g, c, Pos(0, 0))
    ensures RowMajor(AvailableFrom(g, c, Pos(0, 0)))
  {
    forall x | x in AvailableFrom(g, c, Pos(0, 0)) ensures InGrid(x) && ValidMove(g, x, c) {
      AvailableFromMember(g, c, Pos(0, 0), x);
    }
    forall x | InGrid(x) && ValidMove(g, x, c) ensures x in AvailableFrom(g, c, Pos(0, 0)) {
      AvailableFromMember(g, c, Pos(0, 0), x);
    }
    AvailableFromRowMajor(g, c, Pos(0, 0));
  }

  /** return_available_positions: the cells where c may play, in row-major
      order and without repetition; all of them are empty cells of the
      playing area. */
  function AvailablePositions(g: Grid, c: Color): (r: seq<Pos>)
    requires ValidGrid(g)
    ensures forall x :: x in r <==> InGrid(x) && ValidMove(g, x, c)
    ensures forall x :: x in r ==> Interior(x) && At(g, x) == EmptyCell
    ensures RowMajor(r)
  {
    AvailableWhole(g, c);
    AvailableFrom(g, c, Pos(0, 0))
  }

  /** g and h agree on every cell the walk from q along d visits. */
  predicate SameFrom(g: Grid, h: Grid, q: Pos, d: Dir)
    requires WellFormed(g) && WellFormed(h) && IsDirection(d) && InGrid(q)
    decreases 20 - Progress(q, d)
  {
    At(g, q) == At(h, q) && (Interior(q) ==> SameFrom(g, h, Step(q, d), d))
  }

  /** A write behind q does not touch the walk from q. */
  lemma {:induction false} SameFromPastSet(g: Grid, y: Pos, v: char, q: Pos, d: Dir)
    requires WellFormed(g) && InGrid(y) && IsDirection(d) && InGrid(q)
    requires Progress(y, d) < Progress(q, d)
    decreases 20 - Progress(q, d)
    ensures SameFrom(g, Set(g, y, v), q, d)
  {
    if Interior(q) {
      SameFromPastSet(g, y, v, Step(q, d), d);
    }
  }

  /** Boards that agree on the cells lying in direction d from p agree on
      every walk along d that starts in that direction. */
  lemma {:induction false} SameFromRay(g: Grid, h: Grid, p: Pos, q: Pos, d: Dir)
    requires WellFormed(g) && WellFormed(h) && IsDirection(d) && InGrid(q) && RayOf(p, q) == d
    requires forall x :: InGrid(x) && RayOf(p, x) == d ==> At(g, x) == At(h, x)
    decreases 20 - Progress(q, d)
    ensures SameFrom(g, h, q, d)
  {
    if Interior(q) {
      StepKeepsRay(p, q, d);
      SameFromRay(g, h, p, Step(q, d), d);
    }
  }

  lemma {:induction false} ScanFromFrame(g: Grid, h: Grid, q: Pos, d: Dir, c: Color)
    requires WellFormed(g) && WellFormed(h) && IsDirection(d) && InGrid(q) && SameFrom(g, h, q, d)
    decreases 20 - Progress(q, d)
    ensures ScanFrom(g, q, d, c) == ScanFrom(h, q, d, c)
  {
    if Interior(q) {
      ScanFromFrame(g, h, Step(q, d), d, c);
    }
  }

  lemma {:induction false} RunFrame(g: Grid, h: Grid, q: Pos, d: Dir, c: Color, x: Pos)
    requires ValidGrid(g) && ValidGrid(h) && IsDirection(d) && InGrid(q) && SameFrom(g, h, q, d)
    decreases 20 - Progress(q, d)
    ensures RunLength(g, q, d, c) == RunLength(h, q, d, c)
    ensures RunEnd(g, q, d, c) == RunEnd(h, q, d, c)
    ensures InRun(g, q, d, c, x) == InRun(h, q, d, c, x)
  {
    if At(g, q) == Piece(Opponent(c)) {
      PieceIsInterior(g, q, Opponent(c));
      RunFrame(g, h, Step(q, d), d, c, x);
    }
  }
}
