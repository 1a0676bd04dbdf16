/** Short games played against the specifications of the game component. */
module Scenarios {
  import opened Board
  import opened History
  import opened MoveLog
  import opened App
  import Status

  /** An accepted click on square `i` of the board `before`. */
  method Click(g: Game, i: nat, ghost before: Board)
    requires g.Valid() && i < 9 && g.CurrentSquares() == before
    requires before[i] == Empty && Winner(before).None?
    modifies g
    ensures g.Valid() && g.isAscending == old(g.isAscending)
    ensures g.currentMove == old(g.currentMove) + 1 && |g.history| == g.currentMove + 1
    ensures g.history[..g.currentMove] == old(g.history[..g.currentMove + 1])
    ensures g.CurrentSquares() == before[i := MarkFor(old(g.currentMove))]
    ensures g.history[g.currentMove].lastMove == Some(i)
  {
    g.HandleClick(i);
  }

  /** One move in the centre: X is placed there and the pointer moves to 1. */
  method CentreOpening() {
    var g := new Game();
    Click(g, 4, EmptyBoard);
    assert g.currentMove == 1 && |g.history| == 2;
    assert g.CurrentSquares() == [Empty, Empty, Empty, Empty, X, Empty, Empty, Empty, Empty];
  }

  /** X on 0, O on 4. */
  method CornerAndCentre() returns (g: Game)
    ensures fresh(g) && g.Valid() && g.currentMove == 2 && |g.history| == 3
    ensures g.history[1].squares == [X, Empty, Empty, Empty, Empty, Empty, Empty, Empty, Empty]
    ensures g.CurrentSquares() == [X, Empty, Empty, Empty, O, Empty, Empty, Empty, Empty]
  {
    g := new Game();
    Click(g, 0, EmptyBoard);
    Click(g, 4, [X, Empty, Empty, Empty, Empty, Empty, Empty, Empty, Empty]);
  }

  /** Then X on 8. */
  method ThreeMoves() returns (g: Game)
    ensures fresh(g) && g.Valid() && g.currentMove == 3 && |g.history| == 4
    ensures g.history[1].squares == [X, Empty, Empty, Empty, Empty, Empty, Empty, Empty, Empty]
  {
    g := CornerAndCentre();
    Click(g, 8, [X, Empty, Empty, Empty, O, Empty, Empty, Empty, Empty]);
  }

  /** After three moves, a jump back to entry 1 and a new move: the old
      entries 2 and 3 are dropped and the new move becomes entry 2. */
  method BranchTruncation() {
    var g := ThreeMoves();
    g.JumpTo(1);
    Click(g, 5, [X, Empty, Empty, Empty, Empty, Empty, Empty, Empty, Empty]);
    assert |g.history| == 3 && g.currentMove == 2;
    assert g.CurrentSquares() == [X, Empty, Empty, Empty, Empty, O, Empty, Empty, Empty];
  }

  /** X on 0, O on 1. */
  method TopCorners() returns (g: Game)
    ensures fresh(g) && g.Valid() && g.currentMove == 2
    ensures g.CurrentSquares() == [X, O, Empty, Empty, Empty, Empty, Empty, Empty, Empty]
  {
    g := new Game();
    Click(g, 0, EmptyBoard);
    Click(g, 1, [X, Empty, Empty, Empty, Empty, Empty, Empty, Empty, Empty]);
  }

  /** Then X on 3 and O on 4, X to move. */
  method ColumnOpening() returns (g: Game)
    ensures fresh(g) && g.Valid() && g.currentMove == 4
    ensures g.CurrentSquares() == [X, O, Empty, X, O, Empty, Empty, Empty, Empty]
  {
    g := TopCorners();
    Click(g, 3, [X, O, Empty, Empty, Empty, Empty, Empty, Empty, Empty]);
    Click(g, 4, [X, O, Empty, X, Empty, Empty, Empty, Empty, Empty]);
  }

  /** X completes the left column and wins; a further click changes nothing. */
  method ColumnWin() {
    var g := ColumnOpening();
    Click(g, 6, [X, O, Empty, X, O, Empty, Empty, Empty, Empty]);
    var won := [X, O, Empty, X, O, Empty, X, Empty, Empty];
    assert g.CurrentSquares() == won;
    WinnerIsFirstComplete(won, 3);
    assert g.CurrentStatus("", "") == Status.StatusLine.Won("Player 1");
    var before := g.history;
    g.HandleClick(8);
    assert g.history == before && g.currentMove == 5;
  }

  /** Moves on 4 and 0, then back to entry 1. */
  method CentreCornerBack() returns (g: Game)
    ensures fresh(g) && g.Valid() && g.currentMove == 1 && g.isAscending
    ensures |g.history| == 3 && g.history[1].lastMove == Some(4) && g.history[2].lastMove == Some(0)
  {
    g := new Game();
    Click(g, 4, EmptyBoard);
    Click(g, 0, [Empty, Empty, Empty, Empty, X, Empty, Empty, Empty, Empty]);
    g.JumpTo(1);
  }

  /** The same game with the log descending: the newest row comes first and
      only the row of entry 1 is inert. */
  method DescendingLog() {
    var g := CentreCornerBack();
    g.HandleSorting();
    var rows := g.DisplayedMoves();
    assert rows[0] == LogRow(2, AtMove(2, 1, 1), false);
    assert rows[1] == LogRow(1, AtMove(1, 2, 2), true);
    assert rows[2] == LogRow(0, GameStart, false);
  }

  /** X on 0, O on 2. */
  method DrawOpening() returns (g: Game)
    ensures fresh(g) && g.Valid() && g.currentMove == 2
    ensures g.CurrentSquares() == [X, Empty, O, Empty, Empty, Empty, Empty, Empty, Empty]
  {
    g := new Game();
    Click(g, 0, EmptyBoard);
    Click(g, 2, [X, Empty, Empty, Empty, Empty, Empty, Empty, Empty, Empty]);
  }

  /** Then X on 1, O on 4. */
  method DrawMiddle() returns (g: Game)
    ensures fresh(g) && g.Valid() && g.currentMove == 4
    ensures g.CurrentSquares() == [X, X, O, Empty, O, Empty, Empty, Empty, Empty]
  {
    g := DrawOpening();
    Click(g, 1, [X, Empty, O, Empty, Empty, Empty, Empty, Empty, Empty]);
    Click(g, 4, [X, X, O, Empty, Empty, Empty, Empty, Empty, Empty]);
  }

  /** Then X on 6, O on 3. */
  method DrawLate() returns (g: Game)
    ensures fresh(g) && g.Valid() && g.currentMove == 6
    ensures g.CurrentSquares() == [X, X, O, O, O, Empty, X, Empty, Empty]
  {
    g := DrawMiddle();
    Click(g, 6, [X, X, O, Empty, O, Empty, Empty, Empty, Empty]);
    Click(g, 3, [X, X, O, Empty, O, Empty, X, Empty, Empty]);
  }

  /** Then X on 5, O on 7. */
  method DrawEnd() returns (g: Game)
    ensures fresh(g) && g.Valid() && g.currentMove == 8
    ensures g.CurrentSquares() == [X, X, O, O, O, X, X, O, Empty]
  {
    g := DrawLate();
    Click(g, 5, [X, X, O, O, O, Empty, X, Empty, Empty]);
    Click(g, 7, [X, X, O, O, O, X, X, Empty, Empty]);
  }

  /** X fills the last square, 8: no line is complete and every square is
      marked, so the game is drawn, and a further click changes nothing. */
  method DrawnBoard() {
    var g := DrawEnd();
    Click(g, 8, [X, X, O, O, O, X, X, O, Empty]);
    var drawn := [X, X, O, O, O, X, X, O, X];
    assert g.CurrentSquares() == drawn;
    assert Winner(drawn).None?;
    assert g.CurrentStatus("", "") == Status.StatusLine.Drawn;
    var before := g.history;
    g.HandleClick(4);
    assert g.history == before && g.currentMove == 9;
  }
}
