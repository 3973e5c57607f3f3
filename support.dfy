/** Types shared by the whole model, and the collaborators a1.py imports from
    its support module. That module's source is not part of this model, so its
    piece constants and its three oracles are not given definitions here: every
    operation that needs them takes a `Support` value, which fixes one
    arbitrary choice of them. Only BOARD_SIZE is fixed, at 8. */
module ChessSupport {

  /** A square as (row, column); row 0 is the rank printed as "8". */
  type Position = (int, int)

  /** A move is the pair (from, to). */
  type Move = (Position, Position)

  /** The board is a tuple of rows, each row a string of one-character pieces. */
  type Board = seq<string>

  /** BOARD_SIZE */
  const BoardSize: int := 8

  datatype Option<T> = None | Some(value: T)

  /** The piece constants and oracles of the support module. */
  datatype Support = Support(
    empty: char,                                   // EMPTY
    whitePawn: char,                               // WHITE_PAWN
    blackPawn: char,                               // BLACK_PAWN
    whitePieces: seq<char>,                        // WHITE_PIECES
    blackPieces: seq<char>,                        // BLACK_PIECES
    outOfBounds: Position -> bool,                 // out_of_bounds(position)
    possibleMoves: (Position, Board) -> seq<Position>, // get_possible_moves(position, board)
    isInCheck: (Board, bool) -> bool               // is_in_check(board, whites_turn)
  )

  /** get_possible_moves(position, board) */
  function PossibleMoves(s: Support, p: Position, b: Board): seq<Position>
  {
    s.possibleMoves(p, b)
  }

  /** A board of BOARD_SIZE rows of BOARD_SIZE squares each. */
  predicate ValidBoard(b: Board)
  {
    |b| == BoardSize && forall i :: 0 <= i < |b| ==> |b[i]| == BoardSize
  }

  /** `p` can be used as an index pair into `b` without Python's negative
      wrap-around and without an IndexError. */
  predicate InRange(b: Board, p: Position)
  {
    0 <= p.0 < |b| && 0 <= p.1 < |b[p.0]|
  }

  /** Both coordinates in [0, BOARD_SIZE). */
  predicate OnBoard(p: Position)
  {
    0 <= p.0 < BoardSize && 0 <= p.1 < BoardSize
  }

  /** `after` has as many rows as `b`, each as long as the row of `b` it replaces. */
  predicate SameShape(b: Board, after: Board)
  {
    |after| == |b| && forall i :: 0 <= i < |b| ==> |after[i]| == |b[i]|
  }

  /** Two boards of the same shape that agree on every square are equal. */
  lemma {:induction false} BoardExtensionality(a: Board, c: Board)
    requires SameShape(a, c)
    requires forall i, j :: 0 <= i < |a| && 0 <= j < |a[i]| ==> a[i][j] == c[i][j]
    ensures a == c
  {
    forall i | 0 <= i < |a|
      ensures a[i] == c[i]
    {
      assert |a[i]| == |c[i]|;
      assert forall j :: 0 <= j < |a[i]| ==> a[i][j] == c[i][j];
    }
  }
}
