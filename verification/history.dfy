/** The history of a game: one snapshot per move, entry 0 being the empty board. */
module History {
  import opened Board

  /** A snapshot: the board and the square the move that produced it filled
      (`lastMove`, `null` for the starting entry). */
  datatype Entry = Entry(squares: Board, lastMove: Option<nat>)

  const InitialEntry: Entry := Entry(EmptyBoard, None)

  /** The mark placed by a move made while entry `turn` is current:
      X when `turn` is even (`xIsNext`), O otherwise. */
  function MarkFor(turn: nat): (c: Cell)
    ensures c != Empty
    ensures c == X <==> turn % 2 == 0
  {
    if turn % 2 == 0 then X else O
  }

  /** `next` follows `prev` by one accepted click made while entry `turn` was
      current: `prev` had no winner, the clicked square was empty, and only
      that square changed, to the mark of the turn. */
  predicate IsStep(prev: Entry, next: Entry, turn: nat) {
    next.lastMove.Some? && next.lastMove.value < 9 &&
    prev.squares[next.lastMove.value] == Empty &&
    Winner(prev.squares).None? &&
    next.squares == prev.squares[next.lastMove.value := MarkFor(turn)]
  }

  /** The invariant of every history the game builds. */
  predicate Consistent(h: seq<Entry>) {
    |h| >= 1 && h[0] == InitialEntry &&
    forall k :: 0 <= k < |h| - 1 ==> IsStep(h[k], h[k + 1], k)
  }

  /** Keeping entries `0..c` and appending a step from entry `c` gives a
      consistent history again (the branch after `c` is dropped). */
  lemma TruncateAndAppend(h: seq<Entry>, c: nat, e: Entry)
    requires Consistent(h) && c < |h| && IsStep(h[c], e, c)
    ensures Consistent(h[..c + 1] + [e])
    ensures |h[..c + 1] + [e]| == c + 2
  {
  }

  /** Each entry after the first differs from its predecessor in exactly one
      square, the one it records, which went from empty to the turn's mark. */
  lemma OneSquarePerEntry(h: seq<Entry>, k: nat)
    requires Consistent(h) && 0 < k < |h|
    ensures h[k].lastMove.Some? && h[k].lastMove.value < 9
    ensures h[k - 1].squares[h[k].lastMove.value] == Empty
    ensures h[k].squares[h[k].lastMove.value] == MarkFor(k - 1)
    ensures forall j :: 0 <= j < 9 ==>
              (h[k].squares[j] != h[k - 1].squares[j] <==> Some(j) == h[k].lastMove)
  {
    assert IsStep(h[k - 1], h[k], k - 1);
  }

  /** Entry `k` of a consistent history has exactly `k` marked squares. */
  lemma {:induction false} FilledIsIndex(h: seq<Entry>, k: nat)
    requires Consistent(h) && k < |h|
    ensures Filled(h[k].squares) == k
  {
    if k == 0 {
      assert Filled(EmptyBoard) == 0 by { FilledAllEmpty(EmptyBoard); }
    } else {
      FilledIsIndex(h, k - 1);
      assert IsStep(h[k - 1], h[k], k - 1);
      FilledAfterMark(h[k - 1].squares, h[k].lastMove.value, MarkFor(k - 1));
    }
  }

  lemma {:induction false} FilledAllEmpty(s: seq<Cell>)
    requires forall i :: 0 <= i < |s| ==> s[i] == Empty
    ensures Filled(s) == 0
    decreases |s|
  {
    if s != [] {
      FilledAllEmpty(s[..|s| - 1]);
    }
  }

  /** A game holds at most nine moves: the history never exceeds ten entries. */
  lemma AtMostTenEntries(h: seq<Entry>)
    requires Consistent(h)
    ensures |h| <= 10
  {
    FilledIsIndex(h, |h| - 1);
  }

  /** A board in the history is full exactly at entry 9. */
  lemma FullOnlyAtNine(h: seq<Entry>, k: nat)
    requires Consistent(h) && k < |h|
    ensures Full(h[k].squares) <==> k == 9
  {
    FilledIsIndex(h, k);
    FullIffNineFilled(h[k].squares);
  }

  /** Replaying the same squares gives the same boards: two consistent
      histories that record the same moves up to entry `k` agree on entry `k`.
      So jumping back and repeating a move rebuilds the board it built before. */
  lemma {:induction false} SameMovesSameBoards(h1: seq<Entry>, h2: seq<Entry>, k: nat)
    requires Consistent(h1) && Consistent(h2) && k < |h1| && k < |h2|
    requires forall j :: 0 < j <= k ==> h1[j].lastMove == h2[j].lastMove
    ensures h1[k] == h2[k]
  {
    if k > 0 {
      SameMovesSameBoards(h1, h2, k - 1);
      assert IsStep(h1[k - 1], h1[k], k - 1);
      assert IsStep(h2[k - 1], h2[k], k - 1);
    }
  }
}
