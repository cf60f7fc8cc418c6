/** Static evaluation (`evaluateBoard`, `getPositionalValue`,
    `getExpertStrategicBonus`, chess-engine.js:338-380 and 559-604). The
    engine's scores are decimal fractions of a pawn; here they are integer
    hundredths of a pawn, so 0.1 is 10 and a queen is 900. Scores are
    White minus Black. */
module Evaluation {
  import opened ChessTypes
  import opened Rules

  /** `pieceValues` (chess-engine.js:16-23), in hundredths. */
  function PieceValue(k: Kind): (v: nat)
    ensures 100 <= v <= 10000
  {
    match k
    case Pawn => 100
    case Knight => 300
    case Bishop => 300
    case Rook => 500
    case Queen => 900
    case King => 10000
  }

  /** `centerSquares` (chess-engine.js:72-74): d4, e4, d5, e5. */
  predicate IsCenter(row: int, col: int)
  {
    (row == 3 || row == 4) && (col == 3 || col == 4)
  }

  /** `getPositionalValue` (chess-engine.js:356-380): 0.5 on a centre
      square, 0.1 per rank a pawn has advanced from its start row, and
      minus 0.1 per unit of distance of a knight from the middle of the
      board (3.5, 3.5). */
  function PositionalValue(row: Coord, col: Coord, p: Piece): (v: int)
    ensures -70 <= v <= 110
    ensures p.kind !in {Pawn, Knight} ==> v == (if IsCenter(row, col) then 50 else 0)
  {
    (if IsCenter(row, col) then 50 else 0) +
    (if p.kind == Pawn then (if p.color == White then (6 - row) * 10 else (row - 1) * 10) else 0) +
    (if p.kind == Knight then -(Abs(35 - 10 * row) + Abs(35 - 10 * col)) else 0)
  }

  /** The positional table is the same for both sides, seen from each
      side's own end of the board. */
  lemma PositionalMirror(row: Coord, col: Coord, p: Piece)
    ensures PositionalValue(7 - row, col, Piece(p.kind, Opponent(p.color))) == PositionalValue(row, col, p)
  {
  }

  /** Knights are worth most on the four centre squares. */
  lemma KnightPrefersCenter(r1: Coord, c1: Coord, r2: Coord, c2: Coord, color: Color)
    requires IsCenter(r1, c1) && !IsCenter(r2, c2)
    ensures PositionalValue(r1, c1, Piece(Knight, color)) > PositionalValue(r2, c2, Piece(Knight, color))
  {
  }

  /** What one square adds to `evaluateBoard`: the value and positional
      value of its piece, positive for White and negative for Black. */
  function SquareScore(b: Board, row: Coord, col: Coord): int
  {
    match b[row][col]
    case None => 0
    case Some(p) => Sign(p.color) * (PieceValue(p.kind) + PositionalValue(row, col, p))
  }

  /** The sum of the squares (row, 0) .. (row, n - 1). */
  function RowScore(b: Board, row: Coord, n: nat): int
    requires n <= 8
  {
    if n == 0 then 0 else RowScore(b, row, n - 1) + SquareScore(b, row, n - 1)
  }

  /** The sum of the rows 0 .. n - 1. */
  function RowsScore(b: Board, n: nat): int
    requires n <= 8
  {
    if n == 0 then 0 else RowsScore(b, n - 1) + RowScore(b, n - 1, 8)
  }

  /** `evaluateBoard` (chess-engine.js:338-354). */
  function Evaluate(b: Board): int
  {
    RowsScore(b, 8)
  }

  /** The board seen from the other side: row r becomes row 7 - r and every
      piece changes colour. */
  function Mirror(b: Board): (m: Board)
    ensures forall r: Coord, c: Coord :: m[r][c] == FlipSquare(b[7 - r][c])
  {
    seq(8, r requires 0 <= r < 8 => seq(8, c requires 0 <= c < 8 => FlipSquare(b[7 - r][c])))
  }

  function FlipSquare(sq: Square): Square
  {
    match sq
    case None => None
    case Some(p) => Some(Piece(p.kind, Opponent(p.color)))
  }

  lemma {:induction false} RowScoreMirror(b: Board, row: Coord, n: nat)
    requires n <= 8
    ensures RowScore(Mirror(b), row, n) == -RowScore(b, 7 - row, n)
  {
    if n > 0 {
      RowScoreMirror(b, row, n - 1);
      SquareScoreMirror(b, row, n - 1);
    }
  }

  /** One square of the mirrored board is worth the negation of its
      mirror image. */
  lemma SquareScoreMirror(b: Board, row: Coord, col: Coord)
    ensures SquareScore(Mirror(b), row, col) == -SquareScore(b, 7 - row, col)
  {
    var sq := b[7 - row][col];
    assert Mirror(b)[row][col] == FlipSquare(sq);
    if sq.Some? {
      PositionalMirror(7 - row, col, sq.value);
    }
  }

  lemma {:induction false} RowsScoreMirror(b: Board, n: nat)
    requires n <= 8
    ensures RowsScore(Mirror(b), n) == RowsScore(b, 8 - n) - RowsScore(b, 8)
  {
    if n > 0 {
      RowsScoreMirror(b, n - 1);
      RowScoreMirror(b, n - 1, 8);
      RowsScoreSplit(b, 8 - n);
    }
  }

  lemma RowsScoreSplit(b: Board, n: nat)
    requires n < 8
    ensures RowsScore(b, n + 1) == RowsScore(b, n) + RowScore(b, n, 8)
  {
  }

  /** The evaluation is antisymmetric: the mirrored position, with colours
      exchanged, is worth exactly as much to Black as the original is to
      White. */
  lemma EvaluateMirror(b: Board)
    ensures Evaluate(Mirror(b)) == -Evaluate(b)
  {
    RowsScoreMirror(b, 8);
  }

  /** The starting position is its own mirror image, so it evaluates to 0. */
  lemma InitialBalanced()
    ensures Evaluate(InitialBoard()) == 0
  {
    var b := InitialBoard();
    assert Mirror(b) == b by {
      forall r: Coord
        ensures Mirror(b)[r] == b[r]
      {
        assert forall c: Coord :: Mirror(b)[r][c] == b[r][c];
      }
    }
    EvaluateMirror(b);
  }

  // ---------------------------------------------------------------------
  // Strategic bonus
  // ---------------------------------------------------------------------

  /** The last (at most) four history entries, `gameHistory.slice(-4)`. */
  function LastFour(h: seq<Entry>): (r: seq<Entry>)
    ensures |r| == (if |h| < 4 then |h| else 4)
    ensures r == h[|h| - |r|..]
  {
    if |h| < 4 then h else h[|h| - 4..]
  }

  /** How many of `es` moved a piece of the same kind and colour as `p`. */
  function SamePieceCount(es: seq<Entry>, p: Piece): (n: nat)
    ensures n <= |es|
  {
    if |es| == 0 then 0
    else SamePieceCount(es[..|es| - 1], p) + (if es[|es| - 1].piece == p then 1 else 0)
  }

  /** `getExpertStrategicBonus` (chess-engine.js:559-604), in tenths of a
      pawn, for White when `player` is White and negated for Black: 0.8 for
      a centre target, 0.6 for a knight or bishop leaving its back rank, 1.5
      for a king moving two files, -0.4 when more than one of the last four
      moves (early in the game) moved the same kind of piece, and a fifth of
      the value of whatever stands on the target square. `target` is that
      square, read before the move is made. Every term is a whole number of
      tenths, so the bonus scaled by a multiplier given in tenths (1.0, 1.5
      and 2.0 are 10, 15 and 20) is an exact number of hundredths. */
  function StrategicTenths(target: Square, h: seq<Entry>, player: Color, m: Move): int
  {
    Sign(player) * UnsignedTenths(target, h, m)
  }

  function UnsignedTenths(target: Square, h: seq<Entry>, m: Move): int
  {
    var p := m.piece;
    (if IsCenter(m.to.row, m.to.col) then 8 else 0) +
    (if (p.kind == Knight || p.kind == Bishop) &&
        ((p.color == White && m.from.row == 7) || (p.color == Black && m.from.row == 0))
     then 6 else 0) +
    (if p.kind == King && Abs(m.to.col - m.from.col) == 2 then 15 else 0) +
    (if |h| < 10 && SamePieceCount(LastFour(h), p) > 1 then -4 else 0) +
    (match target case Some(q) => PieceValue(q.kind) / 50 case None => 0)
  }

  /** The bonus is bounded (at most 0.8 + 0.6 + 1.5 + a fifth of a king,
      at least the -0.4 penalty) and changes sign with the side to move;
      a capture of a more valuable piece earns a larger bonus. */
  lemma BonusBounds(target: Square, h: seq<Entry>, player: Color, m: Move)
    ensures -229 <= StrategicTenths(target, h, player, m) <= 229
    ensures -4 <= UnsignedTenths(target, h, m) <= 229
    ensures StrategicTenths(target, h, Opponent(player), m) == -StrategicTenths(target, h, player, m)
  {
  }

  lemma BonusFavoursBiggerCaptures(q1: Piece, q2: Piece, h: seq<Entry>, m: Move)
    requires PieceValue(q1.kind) < PieceValue(q2.kind)
    ensures UnsignedTenths(Some(q1), h, m) < UnsignedTenths(Some(q2), h, m)
  {
  }
}
