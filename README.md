# Text chess: board store and move legality, in Dafny

This project models the rules engine in `a1.py` of a text-based chess game. The
board is a tuple of eight strings, one per row, and each square is a
one-character piece. The model covers:

- **Board store.** `initial_state`, `change_position`, `clear_position` and
  `update_board`. Each returns a new board with one or two squares rewritten.
  The methods `ChangePosition`, `ClearPosition` and `UpdateBoard` follow the
  source statement by statement (the slicing of one row; placing, then
  clearing). Each is proved equal to a reference function, `Placed` or
  `Moved`, and the rest of the model uses those functions.
- **Notation.** `square_to_position` and `process_move` decode input such as
  `"e2 e4"`. Whenever the Python code would raise, the decoder returns `None`.
  That covers an index off the end of the string, a file letter missing from
  `col_list`, and a rank that `int` rejects. `process_move` uses
  `str.partition`, modelled as `Partition`.
- **Ownership and legality.** `is_current_players_piece` and `is_move_valid`,
  with the six conditions of the source.
- **Outcome.** `can_move`, `is_stalemate` and the return value of
  `check_game_over`. `can_move` is a method with loops:
  - `CollectPieces` is its first nested loop, which lists the squares holding
    the mover's pieces;
  - `TryMovesFrom` is its inner search loop;
  - `CanMove` is the outer loop, which returns at the first valid move.

  `CanMove` is proved equal to the existential predicate `HasLegalMove`, and
  `HasLegalMoveIff` shows that this search finds a move exactly when some
  valid move exists on the board.

`a1.py` imports its piece constants and three oracles from a support
module. That module's source is not part of this model. The oracles are
`get_possible_moves`, `is_in_check` and `out_of_bounds`. The model passes all
of these in as one `Support` value (`ChessSupport.Support`), with
`BOARD_SIZE` fixed at 8. Apart from that, the model assumes two things about
them, and only where a contract says so:
- `can_move`, and everything built on it, requires that the destinations
  generated for the mover's pieces lie on the board (`OwnMovesOnBoard`);
- `OwnershipExclusive` requires that no character is in both piece lists.

Every other result holds for every move generator, check detector and set of
piece constants.

Where the rules of chess, or the comment at a1.py:153 ("empty or contains a
piece of the opposite colour"), differ from the code, the model follows the
code:
- the legality test has no castling or en-passant branch;
- a destination is acceptable when it is `EMPTY` or *not the mover's* piece,
  rather than only when it holds an opposing piece: a character in neither
  piece list is also accepted;
- "on the board" is whatever `out_of_bounds` says.

`Rules.IsMoveValid` is the predicate that models `is_move_valid`
(a1.py:140-149). Its body is the six-clause conjunction, and its contract is
stated by `Rules.IsMoveValidIff`, which is the row that cites those lines.

## Model

| member | source | states |
|---|---|---|
| `BoardStore.InitialState` | A-text-based-version-of-chess/a1.py:17-24 | 8 rows; row 0 and row 7 are the black and white piece lists without their last element; row 1 is 8 black pawns, rows 2-5 are 8 EMPTY squares each, row 6 is 8 white pawns; the board is 8×8 exactly when both piece lists have 9 entries |
| `BoardStore.DropLast` | A-text-based-version-of-chess/a1.py:23-24 | `"".join(pieces)[:-1]`: the result followed by the last piece is the whole list; an empty list gives the empty row |
| `BoardStore.Repeat` | A-text-based-version-of-chess/a1.py:23-24 | `piece * n`: n squares, every one holding the piece |
| `BoardStore.Placed` | A-text-based-version-of-chess/a1.py:79-83 | the new board has the same number of rows, each of the same length, and stays 8×8 if it was |
| `BoardStore.PlacedSquares` | A-text-based-version-of-chess/a1.py:79-83 | the target square holds the new character and every other square is unchanged |
| `BoardStore.ChangePosition` | A-text-based-version-of-chess/a1.py:79-83 | rebuilding the row as `row[:col] + ch + row[col+1:]` in a copied list gives exactly `Placed` |
| `BoardStore.ClearPosition` | A-text-based-version-of-chess/a1.py:96 | clearing is placing EMPTY |
| `BoardStore.PlaceThenPlace` | A-text-based-version-of-chess/a1.py:96 | a second write to the same square overrides the first, so clearing after placing equals clearing directly |
| `BoardStore.Moved` | A-text-based-version-of-chess/a1.py:109-113 | moving keeps the board's shape and 8×8-ness |
| `BoardStore.MovedIsMoveResult` | A-text-based-version-of-chess/a1.py:109-113 | after a move the origin is EMPTY; if the squares differ, the destination holds the old origin piece; all other squares are unchanged; if the squares are equal, the square ends EMPTY |
| `BoardStore.MoveResultUnique` | A-text-based-version-of-chess/a1.py:109-113 | the square-by-square description of a move is met by `Moved` and by no other board |
| `BoardStore.UpdateBoard` | A-text-based-version-of-chess/a1.py:109-113 | reading the origin piece, placing it, then clearing the origin gives exactly `Moved` |
| `Notation.DigitValue` | A-text-based-version-of-chess/a1.py:50 | `int` of one character succeeds exactly on '0'..'9', with the digit whose character it is |
| `Notation.SquareToPosition` | A-text-based-version-of-chess/a1.py:49-52 | decoding succeeds exactly when the string has two or more characters, a file a..h first and a digit second; the result is (8 − rank, file index) |
| `Notation.SquareRoundTrip` | A-text-based-version-of-chess/a1.py:49-52 | a square a1..h8 decodes to a position with both components in [0,7], and writing that position back gives the same square |
| `Notation.PositionRoundTrip` | A-text-based-version-of-chess/a1.py:49-52 | every position on the board is decoded from its own square name |
| `Notation.SquareToPositionInjective` | A-text-based-version-of-chess/a1.py:49-52 | two squares a1..h8 decoding to the same position are the same square |
| `Notation.FirstIndexOf` | A-text-based-version-of-chess/a1.py:64 | the result is absent exactly when the character does not occur; otherwise it is the index of its first occurrence |
| `Notation.Partition` | A-text-based-version-of-chess/a1.py:64 | with the separator present: the head, the separator and the tail concatenate to the input, and the head has no separator; without it: (input, "", "") |
| `Notation.PartitionAt` | A-text-based-version-of-chess/a1.py:64 | an input split at a separator that does not occur before it partitions into exactly those pieces |
| `Notation.ProcessMove` | A-text-based-version-of-chess/a1.py:64-65 | input without a space never decodes (its second half is empty) |
| `Notation.ProcessMoveSplits` | A-text-based-version-of-chess/a1.py:64-65 | "<a> <b>" with no space in a decodes as the pair of the decodings of a and b, and fails if either fails |
| `Notation.ProcessMoveRoundTrip` | A-text-based-version-of-chess/a1.py:64-65 | writing a move between two board squares as "<from> <to>" and processing it gives the move back |
| `Rules.IsCurrentPlayersPiece` | A-text-based-version-of-chess/a1.py:126 | a piece belongs to the mover exactly when it is in the mover's piece list |
| `Rules.OwnershipExclusive` | A-text-based-version-of-chess/a1.py:126 | with disjoint piece lists, a piece of the side to move is never also a piece of the other side |
| `Rules.IsMoveValidIff` | A-text-based-version-of-chess/a1.py:140-149 | a move is valid exactly when both ends are in bounds, they differ, the moving piece is the mover's, the destination is EMPTY or not the mover's, the destination is generated for the piece, and no board that results from the move leaves the mover in check |
| `Rules.CollectPieces` | A-text-based-version-of-chess/a1.py:170-175 | the list holds only on-board squares with the mover's pieces, and every such square |
| `Rules.TryMovesFrom` | A-text-based-version-of-chess/a1.py:177-181 | the scan of one piece's generated destinations succeeds exactly when one of them makes a valid move |
| `Rules.CanMove` | A-text-based-version-of-chess/a1.py:170-182 | the two-phase search returns true exactly when some own piece on the board has a generated destination that makes a valid move |
| `Rules.FoundMoveIsValid` | A-text-based-version-of-chess/a1.py:177-182 | a move found by the search is a valid move between two squares of the board |
| `Rules.ValidMoveIsFound` | A-text-based-version-of-chess/a1.py:170-182 | every valid move between two board squares makes the search succeed |
| `Rules.HasLegalMoveIff` | A-text-based-version-of-chess/a1.py:170-182 | can_move's search succeeds if and only if some valid move exists on the board |
| `Rules.IsStalemate` | A-text-based-version-of-chess/a1.py:195 | stalemate exactly when the mover is not in check and no valid move exists |
| `Rules.CheckGameOver` | A-text-based-version-of-chess/a1.py:209-223 | the game is over exactly when no valid move exists. Out of check, the result is the stalemate test |
| `Rules.Checkmate` | A-text-based-version-of-chess/a1.py:209-212 | checkmate exactly when the mover is in check and no valid move exists |
| `Rules.GameOverOutcomes` | A-text-based-version-of-chess/a1.py:209-223 | the game is over exactly in checkmate or stalemate, and the two never hold together |
| `Rules.ValidMoveKeepsGameGoing` | A-text-based-version-of-chess/a1.py:209-223 | if any valid move exists, the search succeeds, the game is not over, and it is neither checkmate nor stalemate |

## Left out

- `print_board` and `main` (a1.py:27-37, 352-384): console output and the interactive loop, with its help and quit commands and the call to `valid_move_format`.
- The `print` calls in `check_game_over`: only its boolean result is modelled.
- `attempt_promotion` (a1.py:226-261): it reads the player's choice in a loop and is outside the modelled core. As written, its black branch looks for the pawn on row 7 but writes the new piece to row 0.
- `is_valid_castle_attempt`, `perform_castling`, `is_valid_en_passant`, `perform_en_passant`, `update_castling_info`, `update_en_passant_position` (a1.py:264-349): their bodies are `pass` and return `None`, so there is no behaviour to model.
- The support module's internals: `get_possible_moves`, `is_in_check`, `out_of_bounds` and the piece constants are fields of `Support` with no definition. `BOARD_SIZE` is fixed at 8.
- Python's negative indexing and `IndexError`: `is_move_valid` indexes the board before it calls `out_of_bounds`. The model therefore requires both squares to index the board (`InRange`). `can_move` requires that the destinations generated for the mover's pieces lie on the board (`OwnMovesOnBoard`).
- Square contents are `char`. `change_position` accepts any string, but every caller passes a one-character piece. The piece lists are sequences of characters, so `piece in WHITE_PIECES` is membership.
- `DigitValue` accepts only the ASCII digits '0'..'9'. Python's `int` also accepts other Unicode decimal digits.
- `CanMove` states only its boolean result. Which valid move the search meets first is not observable from `can_move`, and the model does not state it.
