/** Cells, boards and the winner test of the tic-tac-toe game.
    A board is the nine squares in row-major order: square `3 * row + col`. */
module Board {

  datatype Option<T> = None | Some(value: T)

  /** One square: `null`, "X" or "O" in `App.js`. */
  datatype Cell = Empty | X | O

  /** A square index, 0 to 8. */
  type Square = i: nat | i < 9

  /** Nine cells; no other length is ever built. */
  type Board = b: seq<Cell> | |b| == 9
    witness [Empty, Empty, Empty, Empty, Empty, Empty, Empty, Empty, Empty]

  const EmptyBoard: Board := [Empty, Empty, Empty, Empty, Empty, Empty, Empty, Empty, Empty]

  /** Three squares that win when they carry the same mark. */
  datatype Line = Line(a: Square, b: Square, c: Square)

  /** The eight lines, in the order in which they are searched:
      three rows, three columns, then the two diagonals. */
  const Lines: seq<Line> := [
    Line(0, 1, 2), Line(3, 4, 5), Line(6, 7, 8),
    Line(0, 3, 6), Line(1, 4, 7), Line(2, 5, 8),
    Line(0, 4, 8), Line(2, 4, 6)
  ]

  /** The three squares of `l` are all marked, with the same mark. */
  predicate Completes(b: Board, l: Line) {
    b[l.a] != Empty && b[l.a] == b[l.b] && b[l.a] == b[l.c]
  }

  /** Line `j` is complete and no line before it, from position `k` on, is. */
  predicate FirstCompleteFrom(b: Board, j: nat, k: nat) {
    k <= j < |Lines| && Completes(b, Lines[j]) &&
    forall i :: k <= i < j ==> !Completes(b, Lines[i])
  }

  /** The position of the first complete line in `Lines[k..]`, or `|Lines|`
      when there is none. */
  function FirstComplete(b: Board, k: nat): (j: nat)
    requires k <= |Lines|
    decreases |Lines| - k
    ensures k <= j <= |Lines|
    ensures j < |Lines| ==> Completes(b, Lines[j])
    ensures forall i :: k <= i < j ==> !Completes(b, Lines[i])
  {
    if k == |Lines| || Completes(b, Lines[k]) then k else FirstComplete(b, k + 1)
  }

  /** The mark that won and the line it won on. */
  datatype Win = Win(winner: Cell, line: Line)

  /** `calculateWinner` as a value: the first complete line and its mark, if any. */
  function Winner(b: Board): (r: Option<Win>)
    ensures r.Some? ==> Completes(b, r.value.line) &&
                        r.value.winner == b[r.value.line.a] && r.value.winner != Empty
  {
    var j := FirstComplete(b, 0);
    if j < |Lines| then Some(Win(b[Lines[j].a], Lines[j])) else None
  }

  /** There is a winner exactly when one of the eight lines is complete, and
      the line reported is one of them. */
  lemma WinnerIffSomeLineComplete(b: Board)
    ensures Winner(b).Some? <==> exists j :: 0 <= j < |Lines| && Completes(b, Lines[j])
    ensures Winner(b).Some? ==> Winner(b).value.line in Lines
  {
  }

  /** The line reported is the first complete one: if line `j` is complete and
      no earlier line is, the winner is the mark on line `j`. */
  lemma WinnerIsFirstComplete(b: Board, j: nat)
    requires FirstCompleteFrom(b, j, 0)
    ensures Winner(b) == Some(Win(b[Lines[j].a], Lines[j]))
  {
  }

  /** Any position satisfying the description of `FirstComplete` is its result. */
  lemma FirstCompleteIsFirst(b: Board, j: nat, k: nat)
    requires FirstCompleteFrom(b, j, k)
    ensures FirstComplete(b, k) == j
  {
  }

  /** The search loop of `calculateWinner`, with its early return. */
  method CalculateWinner(squares: Board) returns (r: Option<Win>)
    ensures r == Winner(squares)
  {
    var i := 0;
    while i < |Lines|
      invariant 0 <= i <= |Lines|
      invariant FirstComplete(squares, i) == FirstComplete(squares, 0)
    {
      var l := Lines[i];
      if squares[l.a] != Empty && squares[l.a] == squares[l.b] && squares[l.a] == squares[l.c] {
        return Some(Win(squares[l.a], l));
      }
      i := i + 1;
    }
    return None;
  }

  /** Every square is marked (`squares.every(sq => sq !== null)`). */
  predicate Full(b: Board): (r: bool)
    ensures r <==> Empty !in b
  {
    forall i :: 0 <= i < 9 ==> b[i] != Empty
  }

  /** The number of marked squares in `s`. */
  function Filled(s: seq<Cell>): (n: nat)
    ensures n <= |s|
  {
    if s == [] then 0
    else Filled(s[..|s| - 1]) + (if s[|s| - 1] != Empty then 1 else 0)
  }

  /** Marking an empty square raises the count by exactly one. */
  lemma {:induction false} FilledAfterMark(s: seq<Cell>, i: nat, m: Cell)
    requires i < |s| && s[i] == Empty && m != Empty
    ensures Filled(s[i := m]) == Filled(s) + 1
    decreases |s|
  {
    var n := |s| - 1;
    assert s[i := m][..n] == if i < n then s[..n][i := m] else s[..n];
    if i < n {
      FilledAfterMark(s[..n], i, m);
    }
  }

  /** The count reaches the length exactly when no square is empty. */
  lemma {:induction false} FilledAllIffNoEmpty(s: seq<Cell>)
    ensures Filled(s) == |s| <==> forall i :: 0 <= i < |s| ==> s[i] != Empty
    decreases |s|
  {
    if s != [] {
      var n := |s| - 1;
      FilledAllIffNoEmpty(s[..n]);
      assert forall i :: 0 <= i < n ==> s[..n][i] == s[i];
    }
  }

  /** A board is full exactly when all nine squares are counted. */
  lemma FullIffNineFilled(b: Board)
    ensures Full(b) <==> Filled(b) == 9
  {
    FilledAllIffNoEmpty(b);
  }
}
