/** Ownership, move legality and the end-of-game test of a1.py. Legality
    composes the board store with the support module's move generator and
    check detector, which stay uninterpreted (fields of `Support`). */
module Rules {
  import opened ChessSupport
  import opened BoardStore

  /** is_current_players_piece: the piece is in the piece list of the side to move. */
  function IsCurrentPlayersPiece(s: Support, piece: char, whitesTurn: bool): (r: bool)
    ensures r <==> piece in (if whitesTurn then s.whitePieces else s.blackPieces)
  {
    (whitesTurn && piece in s.whitePieces) || (!whitesTurn && piece in s.blackPieces)
  }

  /** When no character is in both piece lists, a piece that belongs to the
      side to move does not belong to the other side. */
  lemma OwnershipExclusive(s: Support, piece: char, whitesTurn: bool)
    requires forall c :: c in s.whitePieces ==> c !in s.blackPieces
    requires IsCurrentPlayersPiece(s, piece, whitesTurn)
    ensures !IsCurrentPlayersPiece(s, piece, !whitesTurn)
  {
  }

  /** is_move_valid. Both squares are read before `out_of_bounds` is asked
      about them, so the move must index the board. */
  predicate IsMoveValid(s: Support, move: Move, board: Board, whitesTurn: bool)
    requires InRange(board, move.0) && InRange(board, move.1)
  {
    var currentPiece := board[move.0.0][move.0.1];
    var nextPiece := board[move.1.0][move.1.1];
    && !s.outOfBounds(move.0) && !s.outOfBounds(move.1)
    && move.0 != move.1
    && IsCurrentPlayersPiece(s, currentPiece, whitesTurn)
    && (nextPiece == s.empty || !IsCurrentPlayersPiece(s, nextPiece, whitesTurn))
    && move.1 in PossibleMoves(s, move.0, board)
    && !s.isInCheck(Moved(s, board, move), whitesTurn)
  }

  /** A move is valid exactly when the six conditions of a1.py hold, the last
      read as: on every board that results from making the move, the mover
      is not in check. */
  lemma {:induction false} IsMoveValidIff(s: Support, m: Move, b: Board, w: bool)
    requires InRange(b, m.0) && InRange(b, m.1)
    ensures IsMoveValid(s, m, b, w) <==>
      && !s.outOfBounds(m.0) && !s.outOfBounds(m.1)
      && m.0 != m.1
      && IsCurrentPlayersPiece(s, b[m.0.0][m.0.1], w)
      && (b[m.1.0][m.1.1] == s.empty || !IsCurrentPlayersPiece(s, b[m.1.0][m.1.1], w))
      && m.1 in PossibleMoves(s, m.0, b)
      && (forall after :: IsMoveResult(s, b, m, after) ==> !s.isInCheck(after, w))
  {
    forall after | IsMoveResult(s, b, m, after)
      ensures after == Moved(s, b, m)
    {
      MoveResultUnique(s, b, m, after);
    }
  }

  /** Every destination the move generator offers for a piece of the side to
      move lies on the board, so that can_move never indexes off it. */
  ghost predicate OwnMovesOnBoard(s: Support, b: Board, w: bool)
    requires ValidBoard(b)
  {
    forall r, c, q :: 0 <= r < BoardSize && 0 <= c < BoardSize
      && IsCurrentPlayersPiece(s, b[r][c], w) && q in PossibleMoves(s, (r, c), b)
      ==> 0 <= q.0 < BoardSize && 0 <= q.1 < BoardSize
  }

  /** What can_move searches for: a square holding a piece of the side to
      move and a generated destination for it that makes a valid move. */
  predicate HasLegalMove(s: Support, b: Board, w: bool)
    requires ValidBoard(b) && OwnMovesOnBoard(s, b, w)
  {
    exists r, c, q :: 0 <= r < BoardSize && 0 <= c < BoardSize
      && IsCurrentPlayersPiece(s, b[r][c], w)
      && q in PossibleMoves(s, (r, c), b)
      && IsMoveValid(s, ((r, c), q), b, w)
  }

  /** Some move between two squares of the board is valid. */
  ghost predicate ExistsValidMove(s: Support, b: Board, w: bool)
    requires ValidBoard(b)
  {
    exists from: Position, to: Position :: OnBoard(from) && OnBoard(to) && IsMoveValid(s, (from, to), b, w)
  }

  /** A move found by the search of can_move is a valid move on the board. */
  lemma FoundMoveIsValid(s: Support, b: Board, w: bool)
    requires ValidBoard(b) && OwnMovesOnBoard(s, b, w)
    requires HasLegalMove(s, b, w)
    ensures ExistsValidMove(s, b, w)
  {
  }

  /** Every valid move on the board is among those the search of can_move
      tries: its origin holds a piece of the mover and its destination is
      generated for that piece. */
  lemma ValidMoveIsFound(s: Support, b: Board, w: bool, m: Move)
    requires ValidBoard(b) && OwnMovesOnBoard(s, b, w)
    requires OnBoard(m.0) && OnBoard(m.1) && IsMoveValid(s, m, b, w)
    ensures HasLegalMove(s, b, w)
  {
  }

  /** The search of can_move misses nothing: it succeeds exactly when some
      move on the board is valid. */
  lemma HasLegalMoveIff(s: Support, b: Board, w: bool)
    requires ValidBoard(b) && OwnMovesOnBoard(s, b, w)
    ensures HasLegalMove(s, b, w) <==> ExistsValidMove(s, b, w)
  {
    if HasLegalMove(s, b, w) {
      FoundMoveIsValid(s, b, w);
    }
    if ExistsValidMove(s, b, w) {
      var from: Position, to: Position :| OnBoard(from) && OnBoard(to) && IsMoveValid(s, (from, to), b, w);
      ValidMoveIsFound(s, b, w, (from, to));
    }
  }

  /** The square `p` is on the board and holds a piece of the side to move. */
  predicate IsOwnSquare(s: Support, board: Board, whitesTurn: bool, p: Position)
    requires ValidBoard(board)
  {
    OnBoard(p) && IsCurrentPlayersPiece(s, board[p.0][p.1], whitesTurn)
  }

  /** The first half of can_move: the positions of the mover's pieces, in
      row-major order. */
  method CollectPieces(s: Support, board: Board, whitesTurn: bool) returns (pieces: seq<Position>)
    requires ValidBoard(board)
    ensures forall k :: 0 <= k < |pieces| ==> IsOwnSquare(s, board, whitesTurn, pieces[k])
    ensures forall i, j :: IsOwnSquare(s, board, whitesTurn, (i, j)) ==> (i, j) in pieces
  {
    pieces := [];
    for row := 0 to BoardSize
      invariant forall k :: 0 <= k < |pieces| ==> IsOwnSquare(s, board, whitesTurn, pieces[k])
      invariant forall i, j :: i < row && IsOwnSquare(s, board, whitesTurn, (i, j)) ==> (i, j) in pieces
    {
      for column := 0 to BoardSize
        invariant forall k :: 0 <= k < |pieces| ==> IsOwnSquare(s, board, whitesTurn, pieces[k])
        invariant forall i, j ::
          (i < row || (i == row && j < column)) && IsOwnSquare(s, board, whitesTurn, (i, j)) ==> (i, j) in pieces
      {
        // The source writes this test as a `while` whose body always breaks.
        if IsCurrentPlayersPiece(s, board[row][column], whitesTurn) {
          pieces := pieces + [(row, column)];
        }
      }
    }
  }

  /** Some generated destination for the piece at `p` makes a valid move. */
  ghost predicate HasValidMoveFrom(s: Support, board: Board, whitesTurn: bool, p: Position)
    requires ValidBoard(board) && OwnMovesOnBoard(s, board, whitesTurn)
    requires IsOwnSquare(s, board, whitesTurn, p)
  {
    exists q :: q in PossibleMoves(s, p, board) && IsMoveValid(s, (p, q), board, whitesTurn)
  }

  /** The inner loop of can_move: try the generated destinations of the piece
      at `currentPos` in order, stopping at the first valid one. */
  method TryMovesFrom(s: Support, board: Board, whitesTurn: bool, currentPos: Position) returns (found: bool)
    requires ValidBoard(board) && OwnMovesOnBoard(s, board, whitesTurn)
    requires IsOwnSquare(s, board, whitesTurn, currentPos)
    ensures found == HasValidMoveFrom(s, board, whitesTurn, currentPos)
  {
    var nextPositions := PossibleMoves(s, currentPos, board);
    assert (currentPos.0, currentPos.1) == currentPos;
    assert forall q :: q in nextPositions ==> OnBoard(q);
    for j := 0 to |nextPositions|
      invariant forall j' :: 0 <= j' < j ==> !IsMoveValid(s, (currentPos, nextPositions[j']), board, whitesTurn)
    {
      var move := (currentPos, nextPositions[j]);
      if IsMoveValid(s, move, board, whitesTurn) {
        return true;
      }
    }
    return false;
  }

  /** can_move: collect the squares holding the mover's pieces, then try every
      generated destination of each, returning at the first valid move. */
  method CanMove(s: Support, board: Board, whitesTurn: bool) returns (r: bool)
    requires ValidBoard(board) && OwnMovesOnBoard(s, board, whitesTurn)
    ensures r == HasLegalMove(s, board, whitesTurn)
  {
    var piecePossiblePos := CollectPieces(s, board, whitesTurn);
    for k := 0 to |piecePossiblePos|
      invariant forall k' :: 0 <= k' < k ==> !HasValidMoveFrom(s, board, whitesTurn, piecePossiblePos[k'])
    {
      var found := TryMovesFrom(s, board, whitesTurn, piecePossiblePos[k]);
      if found {
        var p := piecePossiblePos[k];
        assert (p.0, p.1) == p;
        return true;
      }
    }
    forall i, j, q | 0 <= i < BoardSize && 0 <= j < BoardSize
      && IsCurrentPlayersPiece(s, board[i][j], whitesTurn) && q in PossibleMoves(s, (i, j), board)
      ensures !IsMoveValid(s, ((i, j), q), board, whitesTurn)
    {
      assert IsOwnSquare(s, board, whitesTurn, (i, j));
      var k :| 0 <= k < |piecePossiblePos| && piecePossiblePos[k] == (i, j);
    }
    return false;
  }

  /** is_stalemate: not in check, and the search of can_move fails. */
  function IsStalemate(s: Support, board: Board, whitesTurn: bool): (r: bool)
    requires ValidBoard(board) && OwnMovesOnBoard(s, board, whitesTurn)
    ensures r <==> !s.isInCheck(board, whitesTurn) && !ExistsValidMove(s, board, whitesTurn)
  {
    HasLegalMoveIff(s, board, whitesTurn);
    !s.isInCheck(board, whitesTurn) && !HasLegalMove(s, board, whitesTurn)
  }

  /** The return value of check_game_over. In check, the game is over exactly
      when no move is possible (checkmate); otherwise exactly when it is
      stalemate. Either way: over exactly when no valid move exists. */
  function CheckGameOver(s: Support, board: Board, whitesTurn: bool): (r: bool)
    requires ValidBoard(board) && OwnMovesOnBoard(s, board, whitesTurn)
    ensures r <==> !ExistsValidMove(s, board, whitesTurn)
    ensures !s.isInCheck(board, whitesTurn) ==> (r <==> IsStalemate(s, board, whitesTurn))
  {
    HasLegalMoveIff(s, board, whitesTurn);
    if s.isInCheck(board, whitesTurn) then
      !HasLegalMove(s, board, whitesTurn)   // checkmate, or "<side> is in check"
    else if IsStalemate(s, board, whitesTurn) then
      true
    else
      false
  }

  /** Checkmate: the mover is in check and the search of can_move fails. */
  function Checkmate(s: Support, board: Board, whitesTurn: bool): (r: bool)
    requires ValidBoard(board) && OwnMovesOnBoard(s, board, whitesTurn)
    ensures r <==> s.isInCheck(board, whitesTurn) && !ExistsValidMove(s, board, whitesTurn)
  {
    HasLegalMoveIff(s, board, whitesTurn);
    s.isInCheck(board, whitesTurn) && !HasLegalMove(s, board, whitesTurn)
  }

  /** check_game_over is true for checkmate and for stalemate and false
      otherwise, and the two outcomes exclude each other. */
  lemma GameOverOutcomes(s: Support, board: Board, whitesTurn: bool)
    requires ValidBoard(board) && OwnMovesOnBoard(s, board, whitesTurn)
    ensures !(Checkmate(s, board, whitesTurn) && IsStalemate(s, board, whitesTurn))
    ensures CheckGameOver(s, board, whitesTurn) <==> Checkmate(s, board, whitesTurn) || IsStalemate(s, board, whitesTurn)
  {
  }

  /** A valid move witnesses that the game goes on: the search succeeds and
      it is neither checkmate nor stalemate. */
  lemma ValidMoveKeepsGameGoing(s: Support, board: Board, whitesTurn: bool, m: Move)
    requires ValidBoard(board) && OwnMovesOnBoard(s, board, whitesTurn)
    requires OnBoard(m.0) && OnBoard(m.1) && IsMoveValid(s, m, board, whitesTurn)
    ensures HasLegalMove(s, board, whitesTurn)
    ensures !CheckGameOver(s, board, whitesTurn)
    ensures !Checkmate(s, board, whitesTurn) && !IsStalemate(s, board, whitesTurn)
  {
  }
}
