/** The move log: one row per history entry, in ascending or descending order. */
module MoveLog {
  import opened Board
  import opened History

  /** What a row names: the start of the game, or move number `move` with the
      1-based row and column of the square it filled. */
  datatype Label = GameStart | AtMove(move: nat, row: nat, col: nat)

  /** One row of the log. A current row is shown as inert text ("You are at
      ..."); every other row is a button ("Go to ...") that jumps to `move`. */
  datatype LogRow = LogRow(move: nat, caption: Label, isCurrent: bool)

  /** The square recorded in an entry; `null` counts as 0 in the arithmetic
      the log does on it. */
  function SquareOf(lastMove: Option<nat>): nat {
    match lastMove
    case Some(i) => i
    case None => 0
  }

  /** The row for entry number `move`. */
  function RowFor(e: Entry, move: nat, currentMove: nat): (r: LogRow)
    ensures r.move == move && (r.isCurrent <==> move == currentMove)
    ensures r.caption.GameStart? <==> move == 0
    ensures move > 0 && e.lastMove.Some? && e.lastMove.value < 9 ==>
              r.caption.move == move && 1 <= r.caption.row <= 3 && 1 <= r.caption.col <= 3 &&
              3 * (r.caption.row - 1) + (r.caption.col - 1) == e.lastMove.value
  {
    var caption :=
      if move > 0 then
        var lm := SquareOf(e.lastMove);
        AtMove(move, lm / 3 + 1, lm % 3 + 1)
      else GameStart;
    LogRow(move, caption, move == currentMove)
  }

  /** The log in history order (`moves`). Row `m` names entry `m`; only the
      row of the current entry is inert; the coordinates of a move decode back
      to the square it filled. */
  function Moves(h: seq<Entry>, currentMove: nat): (r: seq<LogRow>)
    ensures |r| == |h|
    ensures forall m :: 0 <= m < |r| ==>
              r[m].move == m && (r[m].isCurrent <==> m == currentMove) &&
              (r[m].caption.GameStart? <==> m == 0)
    ensures forall m :: 0 < m < |r| && h[m].lastMove.Some? && h[m].lastMove.value < 9 ==>
              var l := r[m].caption;
              l.move == m && 1 <= l.row <= 3 && 1 <= l.col <= 3 &&
              3 * (l.row - 1) + (l.col - 1) == h[m].lastMove.value
  {
    seq(|h|, m requires 0 <= m < |h| => RowFor(h[m], m, currentMove))
  }

  /** `s` back to front. */
  function Reversed<T>(s: seq<T>): (r: seq<T>)
    ensures |r| == |s|
    ensures forall k :: 0 <= k < |s| ==> r[k] == s[|s| - 1 - k]
  {
    if |s| == 0 then [] else [s[|s| - 1]] + Reversed(s[..|s| - 1])
  }

  /** Reversing twice gives back the original order. */
  lemma ReversedTwice<T>(s: seq<T>)
    ensures Reversed(Reversed(s)) == s
  {
  }

  /** The log as displayed (`displayedMoves`): history order when ascending,
      its reverse otherwise. */
  function Displayed(h: seq<Entry>, currentMove: nat, isAscending: bool): (r: seq<LogRow>)
    ensures |r| == |h|
    ensures forall k :: 0 <= k < |r| ==>
              r[k].move == (if isAscending then k else |h| - 1 - k) &&
              r[k] == Moves(h, currentMove)[r[k].move]
  {
    var moves := Moves(h, currentMove);
    if isAscending then moves else Reversed(moves)
  }

  /** The descending log is the ascending one read backwards, and toggling
      the order twice shows the ascending log again. */
  lemma DescendingMirrorsAscending(h: seq<Entry>, currentMove: nat)
    ensures Displayed(h, currentMove, false) == Reversed(Displayed(h, currentMove, true))
    ensures Reversed(Displayed(h, currentMove, false)) == Displayed(h, currentMove, true)
  {
  }

  /** With the pointer in range, exactly one displayed row is inert: the
      current entry's, at position `currentMove` ascending and at the mirrored
      position descending. Every other row jumps to an existing entry. */
  lemma OneInertRow(h: seq<Entry>, currentMove: nat, isAscending: bool)
    requires currentMove < |h|
    ensures var r := Displayed(h, currentMove, isAscending);
            var at := if isAscending then currentMove else |h| - 1 - currentMove;
            at < |r| && r[at].isCurrent && r[at].move == currentMove &&
            forall k :: 0 <= k < |r| && k != at ==> !r[k].isCurrent && r[k].move < |h|
  {
  }

  /** In a consistent history every move row carries a row and a column in
      1..3, and the start row is the first entry. */
  lemma RowsOfConsistentHistory(h: seq<Entry>, currentMove: nat)
    requires Consistent(h)
    ensures var r := Moves(h, currentMove);
            r[0].caption == GameStart &&
            forall m :: 0 < m < |r| ==>
              r[m].caption.AtMove? && 1 <= r[m].caption.row <= 3 && 1 <= r[m].caption.col <= 3 &&
              h[m].lastMove == Some(3 * (r[m].caption.row - 1) + (r[m].caption.col - 1))
  {
    var r := Moves(h, currentMove);
    forall m | 0 < m < |r|
      ensures h[m].lastMove.Some? && h[m].lastMove.value < 9
    {
      assert IsStep(h[m - 1], h[m], m - 1);
    }
  }
}
