/** Decoding of the move notation typed by the players ("e2 e4"). Input that
    makes a1.py raise (a string too short to index, a file letter missing from
    its column table, a rank that `int` rejects) decodes to `None` here. */
module Notation {
  import opened ChessSupport

  /** The column table `col_list` of square_to_position. */
  const ColumnOf: map<char, int> := map['a' := 0, 'b' := 1, 'c' := 2, 'd' := 3,
                                        'e' := 4, 'f' := 5, 'g' := 6, 'h' := 7]

  /** `int(d)` for a single ASCII character: its digit value, or an error. */
  function DigitValue(d: char): (r: Option<int>)
    ensures r.Some? <==> '0' <= d <= '9'
    ensures r.Some? ==> 0 <= r.value <= 9 && ('0' as int + r.value) as char == d
  {
    if '0' <= d <= '9' then Some(d as int - '0' as int) else None
  }

  /** square_to_position: the rank digit gives row `8 - rank`, the file letter
      gives the column. Characters after the first two are not looked at. */
  function SquareToPosition(square: string): (r: Option<Position>)
    ensures r.Some? <==> |square| >= 2 && 'a' <= square[0] <= 'h' && '0' <= square[1] <= '9'
    ensures r.Some? ==> r.value == (8 - (square[1] as int - '0' as int), square[0] as int - 'a' as int)
  {
    if |square| < 2 then None
    else match DigitValue(square[1])
      case None => None
      case Some(rank) =>
        if square[0] in ColumnOf then Some((8 - rank, ColumnOf[square[0]])) else None
  }

  /** A two-character square in regular notation: a file a..h and a rank 1..8. */
  predicate IsSquare(square: string)
  {
    |square| == 2 && 'a' <= square[0] <= 'h' && '1' <= square[1] <= '8'
  }

  /** The notation of a square on the board: the inverse of square_to_position. */
  function PositionToSquare(p: Position): (r: string)
    requires OnBoard(p)
    ensures IsSquare(r)
  {
    [('a' as int + p.1) as char, ('0' as int + 8 - p.0) as char]
  }

  /** A square in regular notation decodes to a position on the board, and
      writing that position back gives the same two characters. */
  lemma SquareRoundTrip(square: string)
    requires IsSquare(square)
    ensures SquareToPosition(square).Some?
    ensures OnBoard(SquareToPosition(square).value)
    ensures PositionToSquare(SquareToPosition(square).value) == square
  {
  }

  /** Every position on the board is decoded from its own square name. */
  lemma PositionRoundTrip(p: Position)
    requires OnBoard(p)
    ensures SquareToPosition(PositionToSquare(p)) == Some(p)
  {
  }

  /** Two different squares never decode to the same position. */
  lemma SquareToPositionInjective(a: string, b: string)
    requires IsSquare(a) && IsSquare(b)
    requires SquareToPosition(a) == SquareToPosition(b)
    ensures a == b
  {
  }

  /** The index of the first `c` in `s`, if any. */
  function FirstIndexOf(s: string, c: char): (r: Option<nat>)
    ensures r.None? <==> c !in s
    ensures r.Some? ==> r.value < |s| && s[r.value] == c && forall k :: 0 <= k < r.value ==> s[k] != c
  {
    if |s| == 0 then None
    else if s[0] == c then Some(0)
    else match FirstIndexOf(s[1..], c)
      case None => None
      case Some(i) => Some(i + 1)
  }

  /** `str.partition(sep)`: the text before the first `sep`, the separator
      itself, and the rest; `(s, "", "")` when `sep` does not occur. */
  function Partition(s: string, sep: char): (r: (string, string, string))
    ensures sep in s ==> r.1 == [sep] && s == r.0 + r.1 + r.2 && sep !in r.0
    ensures sep !in s ==> r == (s, "", "")
  {
    match FirstIndexOf(s, sep)
    case None => (s, "", "")
    case Some(i) =>
      assert s == s[..i] + [sep] + s[i + 1..];
      assert forall k :: 0 <= k < i ==> s[..i][k] != sep;
      (s[..i], [sep], s[i + 1..])
  }

  /** Partitioning splits at the separator when none occurs before it. */
  lemma {:induction false} PartitionAt(a: string, sep: char, b: string)
    requires sep !in a
    ensures Partition(a + [sep] + b, sep) == (a, [sep], b)
  {
    var s := a + [sep] + b;
    assert s[|a|] == sep;
    var r := Partition(s, sep);
    assert forall k :: 0 <= k < |a| ==> s[k] == a[k];
    assert forall k :: 0 <= k < |r.0| ==> s[k] == r.0[k];
    assert s[|r.0|] == sep;
    assert |r.0| == |a|;
    assert r.0 == s[..|a|] == a;
    assert r.2 == s[|a| + 1..] == b;
  }

  /** process_move: split the input at its first space and decode both halves. */
  function ProcessMove(userInput: string): (r: Option<Move>)
    ensures ' ' !in userInput ==> r.None?
  {
    var parts := Partition(userInput, ' ');
    match (SquareToPosition(parts.0), SquareToPosition(parts.2))
    case (Some(from), Some(to)) => Some((from, to))
    case _ => None
  }

  /** Input of the form "<square> <rest>" decodes as its two halves. */
  lemma ProcessMoveSplits(current: string, next: string)
    requires ' ' !in current
    ensures ProcessMove(current + " " + next) ==
      match (SquareToPosition(current), SquareToPosition(next))
      case (Some(from), Some(to)) => Some((from, to))
      case _ => None
  {
    PartitionAt(current, ' ', next);
  }

  /** Writing a move on the board as "<from> <to>" and processing it gives
      the move back. */
  lemma ProcessMoveRoundTrip(m: Move)
    requires OnBoard(m.0) && OnBoard(m.1)
    ensures ProcessMove(PositionToSquare(m.0) + " " + PositionToSquare(m.1)) == Some(m)
  {
  }
}
