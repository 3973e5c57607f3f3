/** The board store of a1.py: the start position and the copy-on-write edits
    `change_position`, `clear_position` and `update_board`. The methods follow
    the source's statements; the functions `Placed` and `Moved` say square by
    square what the resulting board is, and are what the legality rules use. */
module BoardStore {
  import opened ChessSupport

  /** The board that agrees with `b` except that square `p` holds `ch`. */
  function Placed(b: Board, p: Position, ch: char): (r: Board)
    requires InRange(b, p)
    ensures SameShape(b, r)
    ensures ValidBoard(b) ==> ValidBoard(r)
  {
    b[p.0 := b[p.0][p.1 := ch]]
  }

  /** change_position rewrites the target square and nothing else. */
  lemma PlacedSquares(b: Board, p: Position, ch: char)
    requires InRange(b, p)
    ensures Placed(b, p, ch)[p.0][p.1] == ch
    ensures forall i, j :: 0 <= i < |b| && 0 <= j < |b[i]| && (i, j) != p ==> Placed(b, p, ch)[i][j] == b[i][j]
  {
  }

  /** change_position: turn the tuple into a list, rebuild one row by slicing
      around the column, and turn the list back into a tuple. */
  method ChangePosition(board: Board, position: Position, character: char) returns (r: Board)
    requires InRange(board, position)
    ensures r == Placed(board, position, character)
  {
    var rows := board;
    var row := position.0;
    var column := position.1;
    var newRow := rows[row][..column] + [character] + rows[row][column + 1..];
    assert newRow == board[row][column := character] by {
      assert |newRow| == |board[row]|;
      forall j | 0 <= j < |newRow|
        ensures newRow[j] == board[row][column := character][j]
      {
        if j < column {
          assert newRow[j] == board[row][..column][j];
        } else if j > column {
          assert newRow[j] == board[row][column + 1..][j - column - 1];
        }
      }
    }
    rows := rows[row := newRow];
    r := rows;
  }

  /** clear_position: put EMPTY at `position`. */
  method ClearPosition(s: Support, board: Board, position: Position) returns (r: Board)
    requires InRange(board, position)
    ensures r == Placed(board, position, s.empty)
  {
    r := ChangePosition(board, position, s.empty);
  }

  /** Placing twice on one square keeps only the second piece; in particular
      clearing a square just written equals clearing it directly. */
  lemma {:induction false} PlaceThenPlace(b: Board, p: Position, x: char, y: char)
    requires InRange(b, p)
    ensures Placed(Placed(b, p, x), p, y) == Placed(b, p, y)
  {
    var once := Placed(Placed(b, p, x), p, y);
    var direct := Placed(b, p, y);
    PlacedSquares(b, p, x);
    PlacedSquares(Placed(b, p, x), p, y);
    PlacedSquares(b, p, y);
    BoardExtensionality(once, direct);
  }

  /** `after` is the board that `b` becomes when the piece at `m.0` is moved to
      `m.1`: the origin is EMPTY, the destination (when it is another square)
      holds the moved piece, and every other square is as it was. */
  predicate IsMoveResult(s: Support, b: Board, m: Move, after: Board)
    requires InRange(b, m.0) && InRange(b, m.1)
  {
    && SameShape(b, after)
    && after[m.0.0][m.0.1] == s.empty
    && (m.0 != m.1 ==> after[m.1.0][m.1.1] == b[m.0.0][m.0.1])
    && forall i, j :: 0 <= i < |b| && 0 <= j < |b[i]| && (i, j) != m.0 && (i, j) != m.1 ==> after[i][j] == b[i][j]
  }

  /** The board after update_board: place the moving piece, then clear the
      origin. When the two squares coincide the clear wins. */
  function Moved(s: Support, b: Board, m: Move): (r: Board)
    requires InRange(b, m.0) && InRange(b, m.1)
    ensures SameShape(b, r)
    ensures ValidBoard(b) ==> ValidBoard(r)
  {
    Placed(Placed(b, m.1, b[m.0.0][m.0.1]), m.0, s.empty)
  }

  /** update_board moves the piece: `Moved` meets the square-by-square
      description of a move. */
  lemma MovedIsMoveResult(s: Support, b: Board, m: Move)
    requires InRange(b, m.0) && InRange(b, m.1)
    ensures IsMoveResult(s, b, m, Moved(s, b, m))
  {
  }

  /** The square-by-square description determines the board: `Moved` is the
      only board that satisfies it. */
  lemma {:induction false} MoveResultUnique(s: Support, b: Board, m: Move, after: Board)
    requires InRange(b, m.0) && InRange(b, m.1)
    ensures IsMoveResult(s, b, m, after) <==> after == Moved(s, b, m)
  {
    MovedIsMoveResult(s, b, m);
    if IsMoveResult(s, b, m, after) {
      var moved := Moved(s, b, m);
      forall i, j | 0 <= i < |after| && 0 <= j < |after[i]|
        ensures after[i][j] == moved[i][j]
      {
        if (i, j) == m.0 {
        } else if (i, j) == m.1 {
        } else {
          assert after[i][j] == b[i][j];
        }
      }
      BoardExtensionality(after, moved);
    }
  }

  /** update_board: read the piece at the origin, write it at the
      destination, then clear the origin, reassigning the board each time. */
  method UpdateBoard(s: Support, board: Board, move: Move) returns (r: Board)
    requires InRange(board, move.0) && InRange(board, move.1)
    ensures r == Moved(s, board, move)
  {
    var (x1, y1) := move.0;
    var (x2, y2) := move.1;
    var piece := board[x1][y1];
    r := ChangePosition(board, (x2, y2), piece);
    r := ClearPosition(s, r, (x1, y1));
  }

  /** `"".join(pieces)[:-1]`: the pieces without the last one. */
  function DropLast(pieces: seq<char>): (r: string)
    ensures |pieces| > 0 ==> pieces == r + [pieces[|pieces| - 1]]
    ensures |pieces| == 0 ==> r == []
  {
    if |pieces| == 0 then [] else pieces[..|pieces| - 1]
  }

  /** `piece * 8` */
  function Repeat(piece: char, n: nat): (r: string)
    ensures |r| == n && forall j :: 0 <= j < n ==> r[j] == piece
  {
    seq(n, _ => piece)
  }

  /** initial_state: the back ranks come from the piece lists, then a rank of
      black pawns, four empty ranks and a rank of white pawns. */
  function InitialState(s: Support): (r: Board)
    ensures |r| == BoardSize
    ensures r[0] == DropLast(s.blackPieces) && r[7] == DropLast(s.whitePieces)
    ensures forall j :: 0 <= j < BoardSize ==> |r[1]| == |r[6]| == BoardSize && r[1][j] == s.blackPawn && r[6][j] == s.whitePawn
    ensures forall i, j :: 2 <= i < 6 && 0 <= j < BoardSize ==> |r[i]| == BoardSize && r[i][j] == s.empty
    ensures |s.blackPieces| == |s.whitePieces| == BoardSize + 1 <==> ValidBoard(r)
  {
    [DropLast(s.blackPieces), Repeat(s.blackPawn, 8), Repeat(s.empty, 8), Repeat(s.empty, 8),
     Repeat(s.empty, 8), Repeat(s.empty, 8), Repeat(s.whitePawn, 8), DropLast(s.whitePieces)]
  }
}
