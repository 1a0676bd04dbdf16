/** The game component: the history of snapshots, the pointer to the current
    one and the order of the move log, updated by the players' clicks. */
module App {
  import opened Board
  import opened History
  import opened MoveLog
  import opened Status

  class Game {
    var history: seq<Entry>
    var currentMove: nat
    var isAscending: bool

    /** The history is consistent (so never empty) and the pointer is in it. */
    ghost predicate Valid()
      reads this
    {
      Consistent(history) && currentMove < |history|
    }

    /** A new game: one empty entry, at the start, log ascending. */
    constructor ()
      ensures Valid()
      ensures history == [InitialEntry] && currentMove == 0 && isAscending
    {
      history := [InitialEntry];
      currentMove := 0;
      isAscending := true;
    }

    /** The board shown (`currentSquares`). No move follows a won board,
        so a board with a winner is always the last entry. */
    function CurrentSquares(): (b: Board)
      reads this
      requires Valid()
      ensures Winner(b).Some? ==> currentMove == |history| - 1
    {
      assert currentMove < |history| - 1 ==> IsStep(history[currentMove], history[currentMove + 1], currentMove);
      history[currentMove].squares
    }

    /** Whether X moves next (`xIsNext`). */
    function XIsNext(): (r: bool)
      reads this
      ensures r <==> MarkFor(currentMove) == X
    {
      currentMove % 2 == 0
    }

    /** The rows of the move log as shown (`displayedMoves`): one per entry,
        each naming an existing entry. */
    function DisplayedMoves(): (r: seq<LogRow>)
      reads this
      ensures |r| == |history|
      ensures forall k :: 0 <= k < |r| ==> r[k].move < |history|
    {
      Displayed(history, currentMove, isAscending)
    }

    /** The status line of the current board: a draw only once nine moves
        are made, otherwise the winner or the player whose mark is next. */
    function CurrentStatus(player1: string, player2: string): (s: StatusLine)
      reads this
      requires Valid()
      ensures s.Drawn? ==> currentMove == 9
      ensures s.Next? ==> s.name == PlayerName(MarkFor(currentMove) == X, player1, player2)
    {
      FullOnlyAtNine(history, currentMove);
      StatusOf(CurrentSquares(), XIsNext(), player1, player2)
    }

    /** Whether the reset button is disabled. In a valid state that is
        exactly when the game is already at its start, so that a reset could
        only have changed the order of the log. */
    function ResetDisabled(): (r: bool)
      reads this
      ensures Valid() ==> (r <==> history == [InitialEntry] && currentMove == 0)
    {
      if currentMove == 0 && |history| == 1 then
        assert Valid() ==> history == [history[0]];
        true
      else false
    }

    /** Keep entries `0..currentMove`, append the new snapshot and point at it. */
    method HandlePlay(nextSquares: Board, i: nat)
      requires Valid()
      requires IsStep(history[currentMove], Entry(nextSquares, Some(i)), currentMove)
      modifies this
      ensures Valid()
      ensures history == old(history[..currentMove + 1]) + [Entry(nextSquares, Some(i))]
      ensures |history| == old(currentMove) + 2
      ensures currentMove == |history| - 1
      ensures isAscending == old(isAscending)
    {
      TruncateAndAppend(history, currentMove, Entry(nextSquares, Some(i)));
      var nextHistory := history[..currentMove + 1] + [Entry(nextSquares, Some(i))];
      history := nextHistory;
      currentMove := |nextHistory| - 1;
    }

    /** A click on square `i`: ignored when the square is taken or the board
        already has a winner; otherwise the board with `i` marked for the
        player to move becomes the new last entry. */
    method HandleClick(i: nat)
      requires Valid() && i < 9
      modifies this
      ensures Valid()
      ensures isAscending == old(isAscending)
      ensures old(CurrentSquares()[i] != Empty || Winner(CurrentSquares()).Some?) ==>
                history == old(history) && currentMove == old(currentMove)
      ensures old(CurrentSquares()[i] == Empty && Winner(CurrentSquares()).None?) ==>
                history == old(history[..currentMove + 1]) +
                           [Entry(old(CurrentSquares()[i := MarkFor(currentMove)]), Some(i))] &&
                currentMove == old(currentMove) + 1
    {
      var squares := history[currentMove].squares;
      var winner := CalculateWinner(squares);
      if squares[i] != Empty || winner.Some? {
        return;
      }
      var nextSquares := squares[i := if currentMove % 2 == 0 then X else O];
      HandlePlay(nextSquares, i);
    }

    /** Move the pointer to entry `nextMove`; the history is untouched.
        Only rendered rows call this, so `nextMove` names an entry. */
    method JumpTo(nextMove: nat)
      requires Valid() && nextMove < |history|
      modifies this
      ensures Valid()
      ensures history == old(history) && currentMove == nextMove
      ensures isAscending == old(isAscending)
    {
      currentMove := nextMove;
    }

    /** Flip the order of the move log. */
    method HandleSorting()
      requires Valid()
      modifies this
      ensures Valid()
      ensures isAscending == !old(isAscending)
      ensures history == old(history) && currentMove == old(currentMove)
      ensures DisplayedMoves() == Reversed(old(DisplayedMoves()))
    {
      DescendingMirrorsAscending(history, currentMove);
      isAscending := !isAscending;
    }

    /** Back to a new game, whatever the state. */
    method ResetGame()
      modifies this
      ensures Valid()
      ensures history == [InitialEntry] && currentMove == 0 && isAscending
    {
      history := [InitialEntry];
      currentMove := 0;
      isAscending := true;
    }
  }
}
