/** The rules of the engine as functions of a board value: piece geometry,
    path clearance, check detection, move legality and the enumeration of
    legal moves. The engine's methods are proved to compute these. */
module Rules {
  import opened ChessTypes

  // ---------------------------------------------------------------------
  // Paths of sliding pieces
  // ---------------------------------------------------------------------

  /** `Math.sign` on integers. */
  function Sgn(d: int): int
  {
    if d > 0 then 1 else if d < 0 then -1 else 0
  }

  /** The coordinate reached after `k` steps of direction `d` from `x`. */
  function Step(x: int, d: int, k: int): int
  {
    if d > 0 then x + k else if d < 0 then x - k else x
  }

  /** Number of king steps along a line from one square to another. */
  function Distance(fr: int, fc: int, tr: int, tc: int): nat
  {
    if Abs(tr - fr) >= Abs(tc - fc) then Abs(tr - fr) else Abs(tc - fc)
  }

  /** On one rank, file or diagonal: what rook, bishop and queen moves
      check before the path is walked. */
  predicate Aligned(fr: int, fc: int, tr: int, tc: int)
  {
    fr == tr || fc == tc || Abs(tr - fr) == Abs(tc - fc)
  }

  lemma StepInside(fr: int, fc: int, tr: int, tc: int, k: int)
    requires InBounds(fr, fc) && InBounds(tr, tc) && Aligned(fr, fc, tr, tc)
    requires 0 <= k <= Distance(fr, fc, tr, tc)
    ensures InBounds(Step(fr, Sgn(tr - fr), k), Step(fc, Sgn(tc - fc), k))
    ensures k == Distance(fr, fc, tr, tc) ==>
              Step(fr, Sgn(tr - fr), k) == tr && Step(fc, Sgn(tc - fc), k) == tc
  {
  }

  /** Every square strictly between `from` and `to` along the line is empty
      (`isPathClear`, chess-engine.js:214-228). */
  predicate PathClear(b: Board, fr: Coord, fc: Coord, tr: Coord, tc: Coord)
    requires Aligned(fr, fc, tr, tc)
  {
    forall k | 0 < k < Distance(fr, fc, tr, tc) :: EmptyStep(b, fr, fc, tr, tc, k)
  }

  /** The square `k` steps from `from` towards `to` is empty. */
  predicate EmptyStep(b: Board, fr: Coord, fc: Coord, tr: Coord, tc: Coord, k: int)
    requires Aligned(fr, fc, tr, tc) && 0 <= k <= Distance(fr, fc, tr, tc)
  {
    StepInside(fr, fc, tr, tc, k);
    b[Step(fr, Sgn(tr - fr), k)][Step(fc, Sgn(tc - fc), k)].None?
  }

  // ---------------------------------------------------------------------
  // Piece geometry
  // ---------------------------------------------------------------------

  function Direction(c: Color): int
  {
    if c == White then -1 else 1
  }

  function StartRow(c: Color): Coord
  {
    if c == White then 6 else 1
  }

  /** `isValidPawnMove` (chess-engine.js:192-212): one step forward onto an
      empty square, two steps from the start row over two empty squares, or
      one step diagonally onto an enemy piece. */
  predicate PawnMoveOk(b: Board, p: Piece, fr: Coord, fc: Coord, tr: Coord, tc: Coord)
  {
    var dir := Direction(p.color);
    var rowDiff := tr - fr;
    var colDiff := Abs(tc - fc);
    if colDiff == 0 && rowDiff == dir && b[tr][tc].None? then true
    else if colDiff == 0 && rowDiff == 2 * dir && b[tr][tc].None? && b[fr + dir][fc].None? then
      fr == StartRow(p.color)
    else if colDiff == 1 && rowDiff == dir then
      b[tr][tc].Some? && b[tr][tc].value.color != p.color
    else false
  }

  /** What the pawn rule allows: a pawn only moves forward, one or two
      rows; two rows only from its start row over two empty squares;
      straight ahead only onto an empty square; and it changes file only by
      one diagonal step onto an enemy piece. Each of these moves is accepted. */
  lemma PawnRules(b: Board, p: Piece, fr: Coord, fc: Coord, tr: Coord, tc: Coord)
    ensures PawnMoveOk(b, p, fr, fc, tr, tc) ==>
      0 < (tr - fr) * Direction(p.color) <= 2 && Abs(tc - fc) <= 1
    ensures PawnMoveOk(b, p, fr, fc, tr, tc) && tr - fr == 2 * Direction(p.color) ==>
      fr == StartRow(p.color) && tc == fc && b[tr][tc].None? && b[fr + Direction(p.color)][fc].None?
    ensures PawnMoveOk(b, p, fr, fc, tr, tc) && tc == fc ==> b[tr][tc].None?
    ensures PawnMoveOk(b, p, fr, fc, tr, tc) && tc != fc ==>
      Abs(tc - fc) == 1 && tr - fr == Direction(p.color) &&
      b[tr][tc].Some? && b[tr][tc].value.color != p.color
    ensures tc == fc && tr - fr == Direction(p.color) && b[tr][tc].None? ==>
      PawnMoveOk(b, p, fr, fc, tr, tc)
    ensures (tc == fc && fr == StartRow(p.color) && tr - fr == 2 * Direction(p.color) &&
             b[tr][tc].None? && b[fr + Direction(p.color)][fc].None?) ==>
      PawnMoveOk(b, p, fr, fc, tr, tc)
    ensures (Abs(tc - fc) == 1 && tr - fr == Direction(p.color) &&
             b[tr][tc].Some? && b[tr][tc].value.color != p.color) ==>
      PawnMoveOk(b, p, fr, fc, tr, tc)
  {
  }

  /** `isValidPieceMove` (chess-engine.js:168-190): the geometric rule of
      each kind, with a clear path for the sliding kinds. */
  predicate PieceMoveOk(b: Board, p: Piece, fr: Coord, fc: Coord, tr: Coord, tc: Coord)
  {
    var rowDiff := tr - fr;
    var colDiff := tc - fc;
    match p.kind
    case Pawn => PawnMoveOk(b, p, fr, fc, tr, tc)
    case Rook => (rowDiff == 0 || colDiff == 0) && PathClear(b, fr, fc, tr, tc)
    case Bishop => Abs(rowDiff) == Abs(colDiff) && PathClear(b, fr, fc, tr, tc)
    case Queen =>
      (rowDiff == 0 || colDiff == 0 || Abs(rowDiff) == Abs(colDiff)) && PathClear(b, fr, fc, tr, tc)
    case King => Abs(rowDiff) <= 1 && Abs(colDiff) <= 1
    case Knight => (Abs(rowDiff) == 2 && Abs(colDiff) == 1) || (Abs(rowDiff) == 1 && Abs(colDiff) == 2)
  }

  /** Sliding pieces move only along a line whose intermediate squares are
      all empty. */
  lemma SlidingNeedsClearPath(b: Board, p: Piece, fr: Coord, fc: Coord, tr: Coord, tc: Coord, k: int)
    requires p.kind == Rook || p.kind == Bishop || p.kind == Queen
    requires PieceMoveOk(b, p, fr, fc, tr, tc)
    requires 0 < k < Distance(fr, fc, tr, tc)
    ensures Aligned(fr, fc, tr, tc)
    ensures p.kind == Rook ==> fr == tr || fc == tc
    ensures p.kind == Bishop ==> Abs(tr - fr) == Abs(tc - fc)
    ensures InBounds(Step(fr, Sgn(tr - fr), k), Step(fc, Sgn(tc - fc), k))
    ensures b[Step(fr, Sgn(tr - fr), k)][Step(fc, Sgn(tc - fc), k)].None?
  {
    StepInside(fr, fc, tr, tc, k);
    assert EmptyStep(b, fr, fc, tr, tc, k);
  }

  /** Knight and king moves do not look at the squares in between, nor at
      the target: the geometric rule is the same on every board. */
  lemma JumpsIgnoreBoard(b1: Board, b2: Board, p: Piece, fr: Coord, fc: Coord, tr: Coord, tc: Coord)
    requires p.kind == Knight || p.kind == King
    ensures PieceMoveOk(b1, p, fr, fc, tr, tc) == PieceMoveOk(b2, p, fr, fc, tr, tc)
    ensures p.kind == King && PieceMoveOk(b1, p, fr, fc, tr, tc) ==> Distance(fr, fc, tr, tc) <= 1
  {
  }

  // ---------------------------------------------------------------------
  // Moving a piece and finding pieces
  // ---------------------------------------------------------------------

  /** The board after the piece on `from` is put on `to` and `from` is
      emptied, in that order (the simulation of chess-engine.js:134-136). */
  function Relocate(b: Board, fr: Coord, fc: Coord, tr: Coord, tc: Coord): (r: Board)
    ensures r[tr][tc] == (if fr == tr && fc == tc then None else b[fr][fc])
    ensures r[fr][fc] == None
    ensures forall i, j | InBounds(i, j) && !(i == fr && j == fc) && !(i == tr && j == tc) ::
              r[i][j] == b[i][j]
  {
    var b1 := b[tr := b[tr][tc := b[fr][fc]]];
    b1[fr := b1[fr][fc := None]]
  }

  predicate HasPiece(b: Board, color: Color, kind: Kind, r: Coord, c: Coord)
  {
    b[r][c] == Some(Piece(kind, color))
  }

  /** The first square at or after (r, c) in row-major order holding the
      given piece (the scan of `findPiecePosition`, chess-engine.js:831-841). */
  function FindFrom(b: Board, color: Color, kind: Kind, r: int, c: int): Option<Pos>
    requires 0 <= r <= 8 && 0 <= c <= 8
    decreases |b| - r, |b| - c
  {
    if r == 8 then None
    else if c == 8 then FindFrom(b, color, kind, r + 1, 0)
    else if HasPiece(b, color, kind, r, c) then Some(Pos(r, c))
    else FindFrom(b, color, kind, r, c + 1)
  }

  lemma {:induction false} FindFromFirst(b: Board, color: Color, kind: Kind, r: int, c: int)
    requires 0 <= r <= 8 && 0 <= c <= 8
    decreases |b| - r, |b| - c
    ensures var res := FindFrom(b, color, kind, r, c);
      res.Some? ==>
        HasPiece(b, color, kind, res.value.row, res.value.col) &&
        !SquareBefore(res.value.row, res.value.col, r, c) &&
        forall i: Coord, j: Coord | !SquareBefore(i, j, r, c) && SquareBefore(i, j, res.value.row, res.value.col) ::
          !HasPiece(b, color, kind, i, j)
    ensures FindFrom(b, color, kind, r, c).None? ==>
      forall i: Coord, j: Coord | !SquareBefore(i, j, r, c) :: !HasPiece(b, color, kind, i, j)
  {
    if r == 8 {
    } else if c == 8 {
      FindFromFirst(b, color, kind, r + 1, 0);
    } else if !HasPiece(b, color, kind, r, c) {
      FindFromFirst(b, color, kind, r, c + 1);
    }
  }

  /** `findPiecePosition` (chess-engine.js:831-841). */
  function FindPiece(b: Board, color: Color, kind: Kind): Option<Pos>
  {
    FindFrom(b, color, kind, 0, 0)
  }

  /** `findPiecePosition` finds the first such piece in row-major order, and
      finds nothing only when there is none. */
  lemma FindPieceFirst(b: Board, color: Color, kind: Kind)
    ensures var res := FindPiece(b, color, kind);
      res.Some? ==>
        HasPiece(b, color, kind, res.value.row, res.value.col) &&
        forall i: Coord, j: Coord | SquareBefore(i, j, res.value.row, res.value.col) ::
          !HasPiece(b, color, kind, i, j)
    ensures FindPiece(b, color, kind).None? <==> forall i: Coord, j: Coord :: !HasPiece(b, color, kind, i, j)
  {
    FindFromFirst(b, color, kind, 0, 0);
  }

  /** `findKing` (chess-engine.js:301-311). */
  function FindKing(b: Board, color: Color): Option<Pos>
  {
    FindPiece(b, color, King)
  }

  // ---------------------------------------------------------------------
  // Check
  // ---------------------------------------------------------------------

  /** The piece on (r, c) is an enemy of `color` whose geometric rule
      reaches `k`. */
  predicate Attacks(b: Board, color: Color, r: Coord, c: Coord, k: Pos)
  {
    b[r][c].Some? && b[r][c].value.color != color &&
    PieceMoveOk(b, b[r][c].value, r, c, k.row, k.col)
  }

  /** Some square at or after (r, c) attacks `k`. */
  predicate AttackFrom(b: Board, color: Color, k: Pos, r: int, c: int)
    requires 0 <= r <= 8 && 0 <= c <= 8
    decreases |b| - r, |b| - c
  {
    if r == 8 then false
    else if c == 8 then AttackFrom(b, color, k, r + 1, 0)
    else Attacks(b, color, r, c, k) || AttackFrom(b, color, k, r, c + 1)
  }

  lemma {:induction false} AttackFromExists(b: Board, color: Color, k: Pos, r: int, c: int)
    requires 0 <= r <= 8 && 0 <= c <= 8
    decreases |b| - r, |b| - c
    ensures AttackFrom(b, color, k, r, c) <==>
      exists i: Coord, j: Coord :: !SquareBefore(i, j, r, c) && Attacks(b, color, i, j, k)
  {
    if r == 8 {
    } else if c == 8 {
      AttackFromExists(b, color, k, r + 1, 0);
    } else {
      AttackFromExists(b, color, k, r, c + 1);
      if Attacks(b, color, r, c, k) {
        assert !SquareBefore(r, c, r, c);
      }
    }
  }

  /** `isInCheck` (chess-engine.js:284-299): the king of `color` (the first
      one found) is reached by the geometric rule of an enemy piece; a side
      without a king is never in check. */
  predicate InCheck(b: Board, color: Color)
  {
    match FindKing(b, color)
    case None => false
    case Some(k) => AttackFrom(b, color, k, 0, 0)
  }

  /** A side is in check exactly when it has a king and some enemy piece
      reaches the first king found. */
  lemma InCheckMeaning(b: Board, color: Color)
    ensures InCheck(b, color) <==>
      FindKing(b, color).Some? &&
      exists i: Coord, j: Coord :: Attacks(b, color, i, j, FindKing(b, color).value)
  {
    if FindKing(b, color).Some? {
      AttackFromExists(b, color, FindKing(b, color).value, 0, 0);
    }
  }

  // ---------------------------------------------------------------------
  // Legality and move generation
  // ---------------------------------------------------------------------

  /** `isValidMove` (chess-engine.js:115-166), in the engine's order: bounds,
      occupancy, the king-takes-king ban, the king's pre-check, the
      geometric rule, and finally the self-check test on the relocated
      board. An off-board source square is refused as well. */
  predicate LegalMove(b: Board, fr: int, fc: int, tr: int, tc: int)
  {
    if !InBounds(tr, tc) || !InBounds(fr, fc) then false
    else match b[fr][fc]
      case None => false
      case Some(p) =>
        var target := b[tr][tc];
        if target.Some? && target.value.color == p.color then false
        else if p.kind == King && target.Some? && target.value.kind == King then false
        else if p.kind == King && InCheck(Relocate(b, fr, fc, tr, tc), p.color) then false
        else if !PieceMoveOk(b, p, fr, fc, tr, tc) then false
        else !InCheck(Relocate(b, fr, fc, tr, tc), p.color)
  }

  /** `isValidMove` fails closed, and accepts exactly the moves that obey
      the geometric rule and leave the mover's own king out of check. */
  lemma LegalMoveMeaning(b: Board, fr: int, fc: int, tr: int, tc: int)
    ensures !InBounds(tr, tc) ==> !LegalMove(b, fr, fc, tr, tc)
    ensures InBounds(fr, fc) && b[fr][fc].None? ==> !LegalMove(b, fr, fc, tr, tc)
    ensures (InBounds(fr, fc) && InBounds(tr, tc) && b[fr][fc].Some? && b[tr][tc].Some? &&
             b[tr][tc].value.color == b[fr][fc].value.color) ==> !LegalMove(b, fr, fc, tr, tc)
    ensures (InBounds(fr, fc) && InBounds(tr, tc) && b[fr][fc].Some? && b[tr][tc].Some? &&
             b[fr][fc].value.kind == King && b[tr][tc].value.kind == King) ==> !LegalMove(b, fr, fc, tr, tc)
    ensures LegalMove(b, fr, fc, tr, tc) <==>
      InBounds(tr, tc) && InBounds(fr, fc) && b[fr][fc].Some? &&
      (b[tr][tc].None? || b[tr][tc].value.color != b[fr][fc].value.color) &&
      !(b[fr][fc].value.kind == King && b[tr][tc].Some? && b[tr][tc].value.kind == King) &&
      PieceMoveOk(b, b[fr][fc].value, fr, fc, tr, tc) &&
      !InCheck(Relocate(b, fr, fc, tr, tc), b[fr][fc].value.color)
  {
  }

  /** A legal move never stays in place. */
  lemma LegalMoveMoves(b: Board, fr: int, fc: int, tr: int, tc: int)
    requires LegalMove(b, fr, fc, tr, tc)
    ensures fr != tr || fc != tc
  {
  }

  function MoveOf(b: Board, fr: Coord, fc: Coord, tr: Coord, tc: Coord): Move
    requires b[fr][fc].Some?
  {
    Move(Pos(fr, fc), Pos(tr, tc), b[fr][fc].value, None)
  }

  /** The legal moves from (fr, fc) to the targets at or after (tr, tc), in
      row-major order of the target (the two inner loops of
      `getAllValidMoves`). */
  function TargetsFrom(b: Board, fr: Coord, fc: Coord, tr: int, tc: int): seq<Move>
    requires b[fr][fc].Some?
    requires 0 <= tr <= 8 && 0 <= tc <= 8
    decreases |b| - tr, |b| - tc
  {
    if tr == 8 then []
    else if tc == 8 then TargetsFrom(b, fr, fc, tr + 1, 0)
    else
      (if LegalMove(b, fr, fc, tr, tc) then [MoveOf(b, fr, fc, tr, tc)] else []) +
      TargetsFrom(b, fr, fc, tr, tc + 1)
  }

  /** The moves listed from (fr, fc) to the targets at or after (tr, tc)
      are exactly the legal ones. */
  ghost predicate TargetsExact(b: Board, fr: Coord, fc: Coord, tr: int, tc: int)
    requires b[fr][fc].Some?
    requires 0 <= tr <= 8 && 0 <= tc <= 8
  {
    var ms := TargetsFrom(b, fr, fc, tr, tc);
    (forall m | m in ms ::
       m.from == Pos(fr, fc) && m == MoveOf(b, fr, fc, m.to.row, m.to.col) &&
       LegalMove(b, fr, fc, m.to.row, m.to.col) && !SquareBefore(m.to.row, m.to.col, tr, tc)) &&
    (forall i: Coord, j: Coord | !SquareBefore(i, j, tr, tc) && LegalMove(b, fr, fc, i, j) ::
       MoveOf(b, fr, fc, i, j) in ms)
  }

  lemma {:induction false} TargetsFromExact(b: Board, fr: Coord, fc: Coord, tr: int, tc: int)
    requires b[fr][fc].Some?
    requires 0 <= tr <= 8 && 0 <= tc <= 8
    decreases |b| - tr, |b| - tc
    ensures TargetsExact(b, fr, fc, tr, tc)
  {
    if tr == 8 {
    } else if tc == 8 {
      TargetsFromExact(b, fr, fc, tr + 1, 0);
      TargetsFromExactRow(b, fr, fc, tr);
    } else {
      TargetsFromExact(b, fr, fc, tr, tc + 1);
      TargetsFromExactStep(b, fr, fc, tr, tc);
    }
  }

  lemma TargetsFromExactRow(b: Board, fr: Coord, fc: Coord, tr: Coord)
    requires b[fr][fc].Some?
    requires TargetsExact(b, fr, fc, tr + 1, 0)
    ensures TargetsExact(b, fr, fc, tr, 8)
  {
    assert TargetsFrom(b, fr, fc, tr, 8) == TargetsFrom(b, fr, fc, tr + 1, 0);
  }

  lemma TargetsFromExactStep(b: Board, fr: Coord, fc: Coord, tr: Coord, tc: Coord)
    requires b[fr][fc].Some?
    requires TargetsExact(b, fr, fc, tr, tc + 1)
    ensures TargetsExact(b, fr, fc, tr, tc)
  {
    var rest := TargetsFrom(b, fr, fc, tr, tc + 1);
    if LegalMove(b, fr, fc, tr, tc) {
      assert TargetsFrom(b, fr, fc, tr, tc) == [MoveOf(b, fr, fc, tr, tc)] + rest;
    } else {
      assert TargetsFrom(b, fr, fc, tr, tc) == rest;
    }
  }

  /** The legal moves of the pieces of `color` standing at or after
      (fr, fc), in row-major order of source, then target (the two outer
      loops of `getAllValidMoves`). */
  function MovesFrom(b: Board, color: Color, fr: int, fc: int): seq<Move>
    requires 0 <= fr <= 8 && 0 <= fc <= 8
    decreases |b| - fr, |b| - fc
  {
    if fr == 8 then []
    else if fc == 8 then MovesFrom(b, color, fr + 1, 0)
    else
      (if b[fr][fc].Some? && b[fr][fc].value.color == color then TargetsFrom(b, fr, fc, 0, 0) else []) +
      MovesFrom(b, color, fr, fc + 1)
  }

  /** Every move listed from (fr, fc) on is a legal move of a piece of
      `color` standing at or after (fr, fc). */
  ghost predicate SoundFrom(b: Board, color: Color, fr: int, fc: int)
    requires 0 <= fr <= 8 && 0 <= fc <= 8
  {
    forall m | m in MovesFrom(b, color, fr, fc) ::
      b[m.from.row][m.from.col] == Some(m.piece) && m.piece.color == color &&
      m == MoveOf(b, m.from.row, m.from.col, m.to.row, m.to.col) &&
      LegalMove(b, m.from.row, m.from.col, m.to.row, m.to.col) &&
      !SquareBefore(m.from.row, m.from.col, fr, fc)
  }

  /** Every legal move of a piece of `color` standing at or after (fr, fc)
      is listed. */
  ghost predicate CompleteFrom(b: Board, color: Color, fr: int, fc: int)
    requires 0 <= fr <= 8 && 0 <= fc <= 8
  {
    forall i: Coord, j: Coord, k: Coord, l: Coord |
      !SquareBefore(i, j, fr, fc) && b[i][j].Some? && b[i][j].value.color == color &&
      LegalMove(b, i, j, k, l) ::
      MoveOf(b, i, j, k, l) in MovesFrom(b, color, fr, fc)
  }

  lemma {:induction false} MovesFromSound(b: Board, color: Color, fr: int, fc: int)
    requires 0 <= fr <= 8 && 0 <= fc <= 8
    decreases |b| - fr, |b| - fc
    ensures SoundFrom(b, color, fr, fc)
  {
    if fr == 8 {
    } else if fc == 8 {
      MovesFromSound(b, color, fr + 1, 0);
      assert MovesFrom(b, color, fr, fc) == MovesFrom(b, color, fr + 1, 0);
    } else {
      MovesFromSound(b, color, fr, fc + 1);
      MovesFromSoundStep(b, color, fr, fc);
    }
  }

  lemma MovesFromSoundStep(b: Board, color: Color, fr: Coord, fc: Coord)
    requires SoundFrom(b, color, fr, fc + 1)
    ensures SoundFrom(b, color, fr, fc)
  {
    var rest := MovesFrom(b, color, fr, fc + 1);
    if b[fr][fc].Some? && b[fr][fc].value.color == color {
      var here := TargetsFrom(b, fr, fc, 0, 0);
      assert MovesFrom(b, color, fr, fc) == here + rest;
      TargetsFromExact(b, fr, fc, 0, 0);
    } else {
      assert MovesFrom(b, color, fr, fc) == rest;
    }
  }

  lemma {:induction false} MovesFromComplete(b: Board, color: Color, fr: int, fc: int)
    requires 0 <= fr <= 8 && 0 <= fc <= 8
    decreases |b| - fr, |b| - fc
    ensures CompleteFrom(b, color, fr, fc)
  {
    if fr == 8 {
    } else if fc == 8 {
      MovesFromComplete(b, color, fr + 1, 0);
      MovesFromCompleteRow(b, color, fr);
    } else {
      MovesFromComplete(b, color, fr, fc + 1);
      MovesFromCompleteStep(b, color, fr, fc);
    }
  }

  lemma MovesFromCompleteRow(b: Board, color: Color, fr: Coord)
    requires CompleteFrom(b, color, fr + 1, 0)
    ensures CompleteFrom(b, color, fr, 8)
  {
    assert MovesFrom(b, color, fr, 8) == MovesFrom(b, color, fr + 1, 0);
  }

  lemma MovesFromCompleteStep(b: Board, color: Color, fr: Coord, fc: Coord)
    requires CompleteFrom(b, color, fr, fc + 1)
    ensures CompleteFrom(b, color, fr, fc)
  {
    var rest := MovesFrom(b, color, fr, fc + 1);
    if b[fr][fc].Some? && b[fr][fc].value.color == color {
      var here := TargetsFrom(b, fr, fc, 0, 0);
      assert MovesFrom(b, color, fr, fc) == here + rest;
      TargetsFromExact(b, fr, fc, 0, 0);
    } else {
      assert MovesFrom(b, color, fr, fc) == rest;
    }
  }

  /** Strictly increasing in the order of `getAllValidMoves`. */
  predicate InMoveOrder(ms: seq<Move>)
  {
    forall x, y | 0 <= x < y < |ms| :: MoveBefore(ms[x], ms[y])
  }

  /** The moves listed from (fr, fc) on start at or after (fr, fc). */
  lemma {:induction false} MovesFromAfter(b: Board, color: Color, fr: int, fc: int)
    requires 0 <= fr <= 8 && 0 <= fc <= 8
    decreases |b| - fr, |b| - fc
    ensures forall m | m in MovesFrom(b, color, fr, fc) :: !SquareBefore(m.from.row, m.from.col, fr, fc)
  {
    if fr == 8 {
    } else if fc == 8 {
      MovesFromAfter(b, color, fr + 1, 0);
    } else {
      MovesFromAfter(b, color, fr, fc + 1);
      if b[fr][fc].Some? && b[fr][fc].value.color == color {
        TargetsFromOrdered(b, fr, fc, 0, 0);
      }
    }
  }

  /** The targets from one square all move the piece on it, in increasing
      order of target square. */
  ghost predicate TargetsOrdered(b: Board, fr: Coord, fc: Coord, tr: int, tc: int)
    requires b[fr][fc].Some?
    requires 0 <= tr <= 8 && 0 <= tc <= 8
  {
    var ms := TargetsFrom(b, fr, fc, tr, tc);
    (forall m | m in ms :: m.from == Pos(fr, fc) && !SquareBefore(m.to.row, m.to.col, tr, tc)) &&
    InMoveOrder(ms)
  }

  lemma {:induction false} TargetsFromOrdered(b: Board, fr: Coord, fc: Coord, tr: int, tc: int)
    requires b[fr][fc].Some?
    requires 0 <= tr <= 8 && 0 <= tc <= 8
    decreases |b| - tr, |b| - tc
    ensures TargetsOrdered(b, fr, fc, tr, tc)
  {
    if tr == 8 {
    } else if tc == 8 {
      TargetsFromOrdered(b, fr, fc, tr + 1, 0);
      TargetsFromOrderedRow(b, fr, fc, tr);
    } else {
      TargetsFromOrdered(b, fr, fc, tr, tc + 1);
      TargetsFromOrderedStep(b, fr, fc, tr, tc);
    }
  }

  lemma TargetsFromOrderedRow(b: Board, fr: Coord, fc: Coord, tr: Coord)
    requires b[fr][fc].Some?
    requires TargetsOrdered(b, fr, fc, tr + 1, 0)
    ensures TargetsOrdered(b, fr, fc, tr, 8)
  {
    assert TargetsFrom(b, fr, fc, tr, 8) == TargetsFrom(b, fr, fc, tr + 1, 0);
  }

  lemma TargetsFromOrderedStep(b: Board, fr: Coord, fc: Coord, tr: Coord, tc: Coord)
    requires b[fr][fc].Some?
    requires TargetsOrdered(b, fr, fc, tr, tc + 1)
    ensures TargetsOrdered(b, fr, fc, tr, tc)
  {
    var rest := TargetsFrom(b, fr, fc, tr, tc + 1);
    if LegalMove(b, fr, fc, tr, tc) {
      var here := [MoveOf(b, fr, fc, tr, tc)];
      assert TargetsFrom(b, fr, fc, tr, tc) == here + rest;
      forall m1, m2 | m1 in here && m2 in rest
        ensures MoveBefore(m1, m2)
      {
      }
      OrderedConcat(here, rest);
    } else {
      assert TargetsFrom(b, fr, fc, tr, tc) == rest;
    }
  }

  /** The list is ordered by source square, then by target square. */
  lemma {:induction false} MovesFromOrdered(b: Board, color: Color, fr: int, fc: int)
    requires 0 <= fr <= 8 && 0 <= fc <= 8
    decreases |b| - fr, |b| - fc
    ensures InMoveOrder(MovesFrom(b, color, fr, fc))
  {
    if fr == 8 {
    } else if fc == 8 {
      MovesFromOrdered(b, color, fr + 1, 0);
      assert MovesFrom(b, color, fr, fc) == MovesFrom(b, color, fr + 1, 0);
    } else {
      MovesFromOrdered(b, color, fr, fc + 1);
      MovesFromOrderedStep(b, color, fr, fc);
    }
  }

  /** Adding the moves from (fr, fc) in front of the later ones keeps the
      order. */
  lemma MovesFromOrderedStep(b: Board, color: Color, fr: Coord, fc: Coord)
    requires InMoveOrder(MovesFrom(b, color, fr, fc + 1))
    ensures InMoveOrder(MovesFrom(b, color, fr, fc))
  {
    var rest := MovesFrom(b, color, fr, fc + 1);
    if b[fr][fc].Some? && b[fr][fc].value.color == color {
      var here := TargetsFrom(b, fr, fc, 0, 0);
      assert MovesFrom(b, color, fr, fc) == here + rest;
      TargetsFromOrdered(b, fr, fc, 0, 0);
      MovesFromAfter(b, color, fr, fc + 1);
      OrderedAcross(here, rest, fr, fc);
    } else {
      assert MovesFrom(b, color, fr, fc) == rest;
    }
  }

  /** The moves from one square, followed by moves from later squares. */
  lemma OrderedAcross(here: seq<Move>, rest: seq<Move>, fr: Coord, fc: Coord)
    requires InMoveOrder(here) && InMoveOrder(rest)
    requires forall m | m in here :: m.from == Pos(fr, fc)
    requires forall m | m in rest :: !SquareBefore(m.from.row, m.from.col, fr, fc + 1)
    ensures InMoveOrder(here + rest)
  {
    forall m1, m2 | m1 in here && m2 in rest
      ensures MoveBefore(m1, m2)
    {
    }
    OrderedConcat(here, rest);
  }

  lemma OrderedConcat(ms1: seq<Move>, ms2: seq<Move>)
    requires InMoveOrder(ms1) && InMoveOrder(ms2)
    requires forall m1, m2 | m1 in ms1 && m2 in ms2 :: MoveBefore(m1, m2)
    ensures InMoveOrder(ms1 + ms2)
  {
    var ms := ms1 + ms2;
    forall x, y | 0 <= x < y < |ms|
      ensures MoveBefore(ms[x], ms[y])
    {
      if y < |ms1| {
        assert ms[x] == ms1[x] && ms[y] == ms1[y];
      } else if x < |ms1| {
        assert ms[x] == ms1[x] && ms1[x] in ms1;
        assert ms[y] == ms2[y - |ms1|] && ms2[y - |ms1|] in ms2;
      } else {
        assert ms[x] == ms2[x - |ms1|] && ms[y] == ms2[y - |ms1|];
      }
    }
  }

  /** `getAllValidMoves` (chess-engine.js:313-336). */
  function AllValidMoves(b: Board, color: Color): seq<Move>
  {
    MovesFrom(b, color, 0, 0)
  }

  /** `getAllValidMoves` returns exactly the moves that pass `isValidMove`
      for the pieces of `color`, each once, in row-major order of source
      square and then target square. */
  lemma AllValidMovesExact(b: Board, color: Color)
    ensures var ms := AllValidMoves(b, color);
      forall m | m in ms ::
        b[m.from.row][m.from.col] == Some(m.piece) && m.piece.color == color &&
        m.promotion == None && LegalMove(b, m.from.row, m.from.col, m.to.row, m.to.col)
    ensures forall i: Coord, j: Coord, k: Coord, l: Coord |
              b[i][j].Some? && b[i][j].value.color == color && LegalMove(b, i, j, k, l) ::
      MoveOf(b, i, j, k, l) in AllValidMoves(b, color)
    ensures InMoveOrder(AllValidMoves(b, color))
  {
    MovesFromSound(b, color, 0, 0);
    MovesFromComplete(b, color, 0, 0);
    MovesFromOrdered(b, color, 0, 0);
  }

  // ---------------------------------------------------------------------
  // The starting position
  // ---------------------------------------------------------------------

  /** The back rank from file a to file h (chess-engine.js:81). */
  function BackRank(col: Coord): Kind
  {
    [Rook, Knight, Bishop, Queen, King, Bishop, Knight, Rook][col]
  }

  /** `initializeBoard` (chess-engine.js:77-96): Black on rows 0 and 1,
      White on rows 6 and 7, everything else empty. */
  function InitialSquare(row: Coord, col: Coord): Square
  {
    if row == 0 then Some(Piece(BackRank(col), Black))
    else if row == 1 then Some(Piece(Pawn, Black))
    else if row == 6 then Some(Piece(Pawn, White))
    else if row == 7 then Some(Piece(BackRank(col), White))
    else None
  }

  function InitialBoard(): (b: Board)
    ensures forall r: Coord, c: Coord :: b[r][c] == InitialSquare(r, c)
  {
    seq(8, r requires 0 <= r < 8 => seq(8, c requires 0 <= c < 8 => InitialSquare(r, c)))
  }

  /** In the starting position each king stands on file e of its back rank
      and is the only king of its colour. */
  lemma InitialKings()
    ensures FindKing(InitialBoard(), White) == Some(Pos(7, 4))
    ensures FindKing(InitialBoard(), Black) == Some(Pos(0, 4))
  {
    var b := InitialBoard();
    FindPieceFirst(b, White, King);
    FindPieceFirst(b, Black, King);
    assert HasPiece(b, White, King, 7, 4);
    assert HasPiece(b, Black, King, 0, 4);
  }
}
