/** Values shared by the rules engine and the search: sides, pieces, squares,
    the 8x8 board as a value, move records and search scores. */
module ChessTypes {

  datatype Option<+T> = None | Some(value: T)

  datatype Color = White | Black

  datatype Kind = Pawn | Knight | Bishop | Rook | Queen | King

  /** A piece is an immutable value; promotion replaces it with a new one. */
  datatype Piece = Piece(kind: Kind, color: Color)

  /** A square of the board: empty (`null` in the engine) or holding one piece. */
  type Square = Option<Piece>

  /** A row or column index on the board. */
  type Coord = x: int | 0 <= x < 8

  datatype Pos = Pos(row: Coord, col: Coord)

  /** The board as a value: 8 rows of 8 squares, row 0 being Black's back rank. */
  type Board = b: seq<seq<Square>> | |b| == 8 && forall r | 0 <= r < 8 :: |b[r]| == 8
    witness seq(8, _ => seq(8, _ => None))

  /** A candidate move as produced by the move generator (and, after
      `addPromotionToMove`, possibly carrying a promotion kind). */
  datatype Move = Move(from: Pos, to: Pos, piece: Piece, promotion: Option<Kind>)

  /** A record of the move history: the original piece (before any
      promotion), what stood on the target square, the side that moved and
      the promotion kind, if any. */
  datatype Entry = Entry(from: Pos, to: Pos, piece: Piece, captured: Square,
                         player: Color, promotion: Option<Kind>)

  function Opponent(c: Color): (o: Color)
    ensures o != c
  {
    if c == White then Black else White
  }

  /** +1 for White, -1 for Black: scores are White minus Black. */
  function Sign(c: Color): int
  {
    if c == White then 1 else -1
  }

  function Abs(x: int): nat
  {
    if x < 0 then -x else x
  }

  predicate InBounds(row: int, col: int)
  {
    0 <= row < 8 && 0 <= col < 8
  }

  /** Row-major order on squares, the order of every scan of the engine. */
  predicate SquareBefore(r1: int, c1: int, r2: int, c2: int)
  {
    r1 < r2 || (r1 == r2 && c1 < c2)
  }

  predicate PosBefore(p: Pos, q: Pos)
  {
    SquareBefore(p.row, p.col, q.row, q.col)
  }

  /** The order of `getAllValidMoves`: by source square, then by target square. */
  predicate MoveBefore(m1: Move, m2: Move)
  {
    PosBefore(m1.from, m2.from) || (m1.from == m2.from && PosBefore(m1.to, m2.to))
  }

  /** Search scores: the engine's floating-point scores in integer hundredths,
      together with the two infinities the search uses as sentinels. */
  datatype Score = NegInf | Fin(v: int) | PosInf {

    predicate Less(other: Score)
    {
      match (this, other)
      case (NegInf, NegInf) => false
      case (NegInf, _) => true
      case (Fin(a), Fin(b)) => a < b
      case (Fin(_), PosInf) => true
      case (_, _) => false
    }

    /** Adding a finite amount leaves an infinity unchanged. */
    function Plus(x: int): Score
    {
      match this
      case Fin(a) => Fin(a + x)
      case _ => this
    }
  }

  function MaxScore(a: Score, b: Score): (m: Score)
    ensures !m.Less(a) && !m.Less(b) && (m == a || m == b)
  {
    if a.Less(b) then b else a
  }

  function MinScore(a: Score, b: Score): (m: Score)
    ensures !a.Less(m) && !b.Less(m) && (m == a || m == b)
  {
    if b.Less(a) then b else a
  }
}
