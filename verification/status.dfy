/** The status line above the board: the winner, a draw, or whose turn it is. */
module Status {
  import opened Board
  import opened History

  /** The outcome the status line reports, with the player's display name. */
  datatype StatusLine = Won(name: string) | Drawn | Next(name: string) {

    /** The highlighted text of the line (`status`). */
    function Text(): string {
      match this
      case Won(n) => n
      case Drawn => "Draw"
      case Next(n) => n
    }

    /** The words before it, chosen from the outcome itself. */
    function Heading(): string {
      match this
      case Won(_) => "Winner: "
      case Drawn => "Result is: "
      case Next(_) => "Next player: "
    }
  }

  /** The name shown for the X player (`isX`) or the O player; an empty name
      falls back to "Player 1" or "Player 2". */
  function PlayerName(isX: bool, player1: string, player2: string): (name: string)
    ensures name != ""
    ensures var given := if isX then player1 else player2;
            name == (if given != "" then given else if isX then "Player 1" else "Player 2")
  {
    if isX then (if player1 != "" then player1 else "Player 1")
    else (if player2 != "" then player2 else "Player 2")
  }

  /** The status of a board: the player owning the first complete line, else
      a draw on a full board, else the player to move. */
  function StatusOf(squares: Board, xIsNext: bool, player1: string, player2: string): (s: StatusLine)
    ensures s.Won? <==> exists j :: 0 <= j < |Lines| && Completes(squares, Lines[j])
    ensures s.Drawn? <==> (forall j :: 0 <= j < |Lines| ==> !Completes(squares, Lines[j])) &&
                          Full(squares)
    ensures s.Won? ==> exists j: nat :: FirstCompleteFrom(squares, j, 0) &&
                         s.name == PlayerName(squares[Lines[j].a] == X, player1, player2)
    ensures s.Next? ==> s.name == PlayerName(xIsNext, player1, player2)
  {
    var w := Winner(squares);
    if w.Some? then Won(PlayerName(w.value.winner == X, player1, player2))
    else if Full(squares) then Drawn
    else Next(PlayerName(xIsNext, player1, player2))
  }

  /** The heading as `App.js` picks it: "Winner: " when there is a winner,
      else "Result is: " whenever the status text equals "Draw". */
  function HeadingAsWritten(hasWinner: bool, status: string): (h: string)
    ensures h == "Winner: " <==> hasWinner
    ensures h == "Result is: " <==> !hasWinner && status == "Draw"
    ensures h == "Next player: " <==> !hasWinner && status != "Draw"
  {
    if hasWinner then "Winner: "
    else if status == "Draw" then "Result is: "
    else "Next player: "
  }

  /** A player named "Draw" whose turn it is on an empty board is announced
      as "Result is: Draw" by `App.js`, though the game has not ended. */
  lemma PlayerNamedDrawMislabelled()
    ensures var s := StatusOf(EmptyBoard, true, "Draw", "");
            s == Next("Draw") && s.Heading() == "Next player: " &&
            HeadingAsWritten(Winner(EmptyBoard).Some?, s.Text()) == "Result is: "
  {
  }

  /** The heading chosen from the outcome names the outcome: "Result is: "
      exactly for a full board without a complete line. When neither player
      is named "Draw" the heading `App.js` picks agrees with it. */
  lemma HeadingMatchesOutcome(squares: Board, xIsNext: bool, player1: string, player2: string)
    ensures var s := StatusOf(squares, xIsNext, player1, player2);
            (s.Heading() == "Winner: " <==> Winner(squares).Some?) &&
            (s.Heading() == "Result is: " <==> Winner(squares).None? && Full(squares)) &&
            (player1 != "Draw" && player2 != "Draw" ==>
               HeadingAsWritten(Winner(squares).Some?, s.Text()) == s.Heading())
  {
  }

  /** Along a game's history a draw can only be reported at entry 9, once all
      nine squares are marked. */
  lemma DrawOnlyAtNine(h: seq<Entry>, k: nat, xIsNext: bool, player1: string, player2: string)
    requires Consistent(h) && k < |h|
    requires StatusOf(h[k].squares, xIsNext, player1, player2).Drawn?
    ensures k == 9
  {
    FullOnlyAtNine(h, k);
  }
}
