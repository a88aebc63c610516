/** The players of a game and how the engine names the winner. */
module Scoring {
  import opened Board

  /** A player: a name and the colour name they play, kept as given. */
  datatype Player = Player(name: string, pieceColor: string)

  /** What return_winner reports. Looking up the winner's name fails with an
      error when no player was created with the winning colour name; that
      failure is the MissingPlayer outcome. */
  datatype Verdict = Winner(color: Color, name: string) | Tie | MissingPlayer(color: Color)

  /** The colour name return_winner looks players up by. */
  function ColorName(c: Color): string {
    if c == White then "white" else "black"
  }

  /** The names of the players whose colour name is exactly col, in the order
      they were created. */
  function NamesOf(players: seq<Player>, col: string): (r: seq<string>)
    ensures forall n :: n in r <==> exists i :: 0 <= i < |players| && players[i].pieceColor == col && players[i].name == n
    ensures r == [] <==> forall i :: 0 <= i < |players| ==> players[i].pieceColor != col
    ensures r != [] ==>
              (exists i :: 0 <= i < |players| && players[i].pieceColor == col && players[i].name == r[0] &&
                 forall j :: 0 <= j < i ==> players[j].pieceColor != col)
  {
    if players == [] then []
    else
      var rest := NamesOf(players[1..], col);
      assert forall i :: 0 < i < |players| ==> players[i] == players[1..][i - 1];
      if players[0].pieceColor == col then [players[0].name] + rest else rest
  }

  /** return_winner given the two piece counts: the colour with more pieces
      wins, and its first registered player is named; equal counts tie. */
  function Decide(white: nat, black: nat, players: seq<Player>): (v: Verdict)
    ensures v == Tie <==> white == black
    ensures v.Winner? || v.MissingPlayer? ==> (v.color == White <==> white > black)
    ensures v.Winner? ==>
              (exists i :: 0 <= i < |players| &&
                 players[i].pieceColor == ColorName(v.color) && players[i].name == v.name &&
                 forall j :: 0 <= j < i ==> players[j].pieceColor != ColorName(v.color))
    ensures v.MissingPlayer? <==>
              (white != black &&
               var c := if white > black then White else Black;
               forall i :: 0 <= i < |players| ==> players[i].pieceColor != ColorName(c))
  {
    if white > black then
      var winner := NamesOf(players, "white");
      if winner == [] then MissingPlayer(White) else Winner(White, winner[0])
    else if white < black then
      var winner := NamesOf(players, "black");
      if winner == [] then MissingPlayer(Black) else Winner(Black, winner[0])
    else Tie
  }
}
