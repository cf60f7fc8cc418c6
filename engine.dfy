/** The engine object: an 8x8 board updated in place, the side to move and
    the append-only move history (class `ChessEngine`, chess-engine.js). */
module Engine {
  import opened ChessTypes
  import opened Rules
  import opened History
  import opened Evaluation
  import opened Search
  import opened GameEnd

  lemma AppendEmpty<T>(a: seq<T>)
    ensures a + [] == a
  {
  }

  class ChessEngine {
    var board: array2<Square>
    var currentPlayer: Color
    var gameHistory: seq<Entry>
    var gameStatus: Status

    ghost predicate Valid()
      reads this`board
    {
      board.Length0 == 8 && board.Length1 == 8
    }

    /** The board as a value. */
    ghost function Cells(): Board
      reads this`board, board
      requires Valid()
    {
      var a := board;
      seq(8, r requires 0 <= r < 8 reads a => seq(8, c requires 0 <= c < 8 reads a => a[r, c]))
    }

    ghost predicate Holds(b: Board)
      reads this`board, board
      requires Valid()
    {
      forall r, c | InBounds(r, c) :: board[r, c] == b[r][c]
    }

    /** What `saveGameState` copies. */
    ghost function Snapshot(): State
      reads this`board, this`currentPlayer, this`gameHistory, board
      requires Valid()
    {
      State(Cells(), currentPlayer, gameHistory)
    }

    lemma CellsAre(b: Board)
      requires Valid() && Holds(b)
      ensures Cells() == b
    {
      assert forall r | 0 <= r < 8 :: Cells()[r] == b[r];
    }

    /** `isPathClear` (chess-engine.js:214-228): walk from the square after
        `from` towards `to`, failing at the first occupied square. */
    method IsPathClear(fr: Coord, fc: Coord, tr: Coord, tc: Coord) returns (clear: bool)
      requires Valid() && Aligned(fr, fc, tr, tc)
      ensures clear == PathClear(Cells(), fr, fc, tr, tc)
    {
      var rowStep := Sgn(tr - fr);
      var colStep := Sgn(tc - fc);
      var currentRow := fr + rowStep;
      var currentCol := fc + colStep;
      ghost var n := Distance(fr, fc, tr, tc);
      ghost var k := 1;
      while currentRow != tr || currentCol != tc
        invariant 0 < k
        invariant n == 0 ==> currentRow == tr && currentCol == tc
        invariant n > 0 ==> k <= n && currentRow == Step(fr, rowStep, k) && currentCol == Step(fc, colStep, k)
        invariant forall i | 0 < i < k && i < n :: EmptyStep(Cells(), fr, fc, tr, tc, i)
        decreases n - k
      {
        StepInside(fr, fc, tr, tc, k);
        if board[currentRow, currentCol].Some? {
          assert !EmptyStep(Cells(), fr, fc, tr, tc, k);
          return false;
        }
        currentRow := currentRow + rowStep;
        currentCol := currentCol + colStep;
        k := k + 1;
      }
      return true;
    }

    /** `isValidPawnMove` (chess-engine.js:192-212). */
    method IsValidPawnMove(p: Piece, fr: Coord, fc: Coord, tr: Coord, tc: Coord) returns (ok: bool)
      requires Valid()
      ensures ok == PawnMoveOk(Cells(), p, fr, fc, tr, tc)
    {
      var direction := if p.color == White then -1 else 1;
      var rowDiff := tr - fr;
      var colDiff := Abs(tc - fc);
      if colDiff == 0 {
        if rowDiff == direction && board[tr, tc].None? {
          return true;
        }
        if rowDiff == 2 * direction && board[tr, tc].None? && board[fr + direction, fc].None? {
          var startRow := if p.color == White then 6 else 1;
          return fr == startRow;
        }
      }
      if colDiff == 1 && rowDiff == direction {
        return board[tr, tc].Some? && board[tr, tc].value.color != p.color;
      }
      return false;
    }

    /** `isValidPieceMove` (chess-engine.js:168-190). */
    method IsValidPieceMove(p: Piece, fr: Coord, fc: Coord, tr: Coord, tc: Coord) returns (ok: bool)
      requires Valid()
      ensures ok == PieceMoveOk(Cells(), p, fr, fc, tr, tc)
    {
      var rowDiff := tr - fr;
      var colDiff := tc - fc;
      match p.kind {
        case Pawn =>
          ok := IsValidPawnMove(p, fr, fc, tr, tc);
        case Rook =>
          ok := false;
          if rowDiff == 0 || colDiff == 0 {
            ok := IsPathClear(fr, fc, tr, tc);
          }
        case Bishop =>
          ok := false;
          if Abs(rowDiff) == Abs(colDiff) {
            ok := IsPathClear(fr, fc, tr, tc);
          }
        case Queen =>
          ok := false;
          if rowDiff == 0 || colDiff == 0 || Abs(rowDiff) == Abs(colDiff) {
            ok := IsPathClear(fr, fc, tr, tc);
          }
        case King =>
          ok := Abs(rowDiff) <= 1 && Abs(colDiff) <= 1;
        case Knight =>
          ok := (Abs(rowDiff) == 2 && Abs(colDiff) == 1) || (Abs(rowDiff) == 1 && Abs(colDiff) == 2);
      }
    }

    /** `findPiecePosition` (chess-engine.js:831-841). */
    method FindPiecePosition(color: Color, kind: Kind) returns (pos: Option<Pos>)
      requires Valid()
      ensures pos == FindPiece(Cells(), color, kind)
    {
      ghost var b := Cells();
      var row := 0;
      while row < 8
        invariant 0 <= row <= 8
        invariant FindFrom(b, color, kind, row, 0) == FindPiece(b, color, kind)
      {
        var col := 0;
        while col < 8
          invariant 0 <= col <= 8
          invariant FindFrom(b, color, kind, row, col) == FindPiece(b, color, kind)
        {
          var piece := board[row, col];
          if piece.Some? && piece.value.color == color && piece.value.kind == kind {
            return Some(Pos(row, col));
          }
          col := col + 1;
        }
        row := row + 1;
      }
      return None;
    }

    /** `findKing` (chess-engine.js:301-311): the same scan for a king. */
    method FindKing(color: Color) returns (pos: Option<Pos>)
      requires Valid()
      ensures pos == Rules.FindKing(Cells(), color)
    {
      pos := FindPiecePosition(color, King);
    }

    /** `isInCheck` (chess-engine.js:284-299). */
    method IsInCheck(color: Color) returns (check: bool)
      requires Valid()
      ensures check == InCheck(Cells(), color)
    {
      var kingPos := FindKing(color);
      if kingPos.None? {
        return false;
      }
      var k := kingPos.value;
      ghost var b := Cells();
      var row := 0;
      while row < 8
        invariant 0 <= row <= 8
        invariant AttackFrom(b, color, k, row, 0) == AttackFrom(b, color, k, 0, 0)
      {
        var col := 0;
        while col < 8
          invariant 0 <= col <= 8
          invariant AttackFrom(b, color, k, row, col) == AttackFrom(b, color, k, 0, 0)
        {
          var piece := board[row, col];
          if piece.Some? && piece.value.color != color {
            var reaches := IsValidPieceMove(piece.value, row, col, k.row, k.col);
            if reaches {
              return true;
            }
          }
          col := col + 1;
        }
        row := row + 1;
      }
      return false;
    }

    /** The first half of every simulation in the engine: put the piece of
        `from` on `to` and empty `from`, keeping what both squares held. */
    method Displace(fr: Coord, fc: Coord, tr: Coord, tc: Coord)
      returns (piece: Square, originalTarget: Square)
      requires Valid()
      modifies board
      ensures piece == old(Cells())[fr][fc] && originalTarget == old(Cells())[tr][tc]
      ensures Cells() == Relocate(old(Cells()), fr, fc, tr, tc)
    {
      ghost var b0 := Cells();
      piece := board[fr, fc];
      originalTarget := board[tr, tc];
      board[tr, tc] := piece;
      board[fr, fc] := None;
      CellsAre(Relocate(b0, fr, fc, tr, tc));
    }

    /** The second half: put both squares back as they were. */
    method PutBack(fr: Coord, fc: Coord, tr: Coord, tc: Coord, piece: Square, originalTarget: Square,
                   ghost b0: Board)
      requires Valid() && Cells() == Relocate(b0, fr, fc, tr, tc)
      requires piece == b0[fr][fc] && originalTarget == b0[tr][tc]
      modifies board
      ensures Cells() == b0
    {
      board[fr, fc] := piece;
      board[tr, tc] := originalTarget;
      CellsAre(b0);
    }

    /** The simulate-test-restore step of `isValidMove` and `wouldCauseCheck`:
        put the piece of `from` on `to`, ask whether `color` is in check,
        and put both squares back. */
    method InCheckAfterRelocation(fr: Coord, fc: Coord, tr: Coord, tc: Coord, color: Color)
      returns (check: bool)
      requires Valid()
      modifies board
      ensures Cells() == old(Cells())
      ensures check == InCheck(Relocate(old(Cells()), fr, fc, tr, tc), color)
    {
      ghost var b0 := Cells();
      var piece, originalTarget := Displace(fr, fc, tr, tc);
      check := IsInCheck(color);
      PutBack(fr, fc, tr, tc, piece, originalTarget, b0);
    }

    /** `isValidMove` (chess-engine.js:115-166). The board is the same
        afterwards, whatever the answer. */
    method IsValidMove(fr: int, fc: int, tr: int, tc: int) returns (ok: bool)
      requires Valid()
      modifies board
      ensures Cells() == old(Cells())
      ensures ok == LegalMove(old(Cells()), fr, fc, tr, tc)
    {
      if tr < 0 || tr > 7 || tc < 0 || tc > 7 {
        return false;
      }
      if !InBounds(fr, fc) {
        return false;
      }
      var piece := board[fr, fc];
      if piece.None? {
        return false;
      }
      var targetPiece := board[tr, tc];
      if targetPiece.Some? && targetPiece.value.color == piece.value.color {
        return false;
      }
      if piece.value.kind == King && targetPiece.Some? && targetPiece.value.kind == King {
        return false;
      }
      if piece.value.kind == King {
        var wouldBeInCheck := InCheckAfterRelocation(fr, fc, tr, tc, piece.value.color);
        if wouldBeInCheck {
          return false;
        }
      }
      var geometryOk := IsValidPieceMove(piece.value, fr, fc, tr, tc);
      if !geometryOk {
        return false;
      }
      var isKingInCheck := InCheckAfterRelocation(fr, fc, tr, tc, piece.value.color);
      return !isKingInCheck;
    }

    /** The two inner loops of `getAllValidMoves`: every target square, in
        row-major order, for the piece standing on (fromRow, fromCol). */
    method ValidTargets(fromRow: Coord, fromCol: Coord, piece: Piece) returns (moves: seq<Move>)
      requires Valid() && board[fromRow, fromCol] == Some(piece)
      modifies board
      ensures Cells() == old(Cells())
      ensures old(Cells())[fromRow][fromCol] == Some(piece)
      ensures moves == TargetsFrom(old(Cells()), fromRow, fromCol, 0, 0)
    {
      ghost var b0 := Cells();
      assert b0[fromRow][fromCol] == Some(piece);
      moves := [];
      var toRow := 0;
      while toRow < 8
        invariant 0 <= toRow <= 8
        invariant Cells() == b0
        invariant moves + TargetsFrom(b0, fromRow, fromCol, toRow, 0) == TargetsFrom(b0, fromRow, fromCol, 0, 0)
      {
        var toCol := 0;
        while toCol < 8
          invariant 0 <= toCol <= 8
          invariant Cells() == b0
          invariant moves + TargetsFrom(b0, fromRow, fromCol, toRow, toCol) == TargetsFrom(b0, fromRow, fromCol, 0, 0)
        {
          var ok := IsValidMove(fromRow, fromCol, toRow, toCol);
          ghost var here := if ok then [MoveOf(b0, fromRow, fromCol, toRow, toCol)] else [];
          assert TargetsFrom(b0, fromRow, fromCol, toRow, toCol)
              == here + TargetsFrom(b0, fromRow, fromCol, toRow, toCol + 1);
          ConcatAssoc(moves, here, TargetsFrom(b0, fromRow, fromCol, toRow, toCol + 1));
          ghost var before := moves;
          if ok {
            moves := moves + [Move(Pos(fromRow, fromCol), Pos(toRow, toCol), piece, None)];
          }
          assert moves == before + here;
          toCol := toCol + 1;
        }
        toRow := toRow + 1;
      }
    }

    /** `getAllValidMoves` (chess-engine.js:313-336): every source square
        holding a piece of `color`, then every target square, both in
        row-major order, keeping the moves `isValidMove` accepts. */
    method GetAllValidMoves(color: Color) returns (moves: seq<Move>)
      requires Valid()
      modifies board
      ensures Cells() == old(Cells())
      ensures moves == AllValidMoves(old(Cells()), color)
    {
      ghost var b0 := Cells();
      moves := [];
      var fromRow := 0;
      while fromRow < 8
        invariant 0 <= fromRow <= 8
        invariant Cells() == b0
        invariant moves + MovesFrom(b0, color, fromRow, 0) == AllValidMoves(b0, color)
      {
        var fromCol := 0;
        while fromCol < 8
          invariant 0 <= fromCol <= 8
          invariant Cells() == b0
          invariant moves + MovesFrom(b0, color, fromRow, fromCol) == AllValidMoves(b0, color)
        {
          var piece := board[fromRow, fromCol];
          assert piece == b0[fromRow][fromCol];
          ghost var here := if piece.Some? && piece.value.color == color
            then TargetsFrom(b0, fromRow, fromCol, 0, 0) else [];
          ConcatAssoc(moves, here, MovesFrom(b0, color, fromRow, fromCol + 1));
          if piece.Some? && piece.value.color == color {
            var targets := ValidTargets(fromRow, fromCol, piece.value);
            moves := moves + targets;
          } else {
            AppendEmpty(moves);
          }
          fromCol := fromCol + 1;
        }
        fromRow := fromRow + 1;
      }
    }

    // -------------------------------------------------------------------
    // Construction, moves and saved states
    // -------------------------------------------------------------------

    /** `initializeBoard` (chess-engine.js:77-96): a new board with the
        black pieces on rows 0 and 1 and the white pieces on rows 6 and 7. */
    static method InitializeBoard() returns (a: array2<Square>)
      ensures fresh(a) && a.Length0 == 8 && a.Length1 == 8
      ensures forall r, c | InBounds(r, c) :: a[r, c] == InitialBoard()[r][c]
    {
      a := new Square[8, 8]((r, c) => None);
      var pieceOrder := [Rook, Knight, Bishop, Queen, King, Bishop, Knight, Rook];
      var i := 0;
      while i < 8
        invariant 0 <= i <= 8
        invariant forall r, c | InBounds(r, c) ::
          a[r, c] == (if (r == 0 || r == 1) && c < i then InitialSquare(r, c) else None)
      {
        a[0, i] := Some(Piece(pieceOrder[i], Black));
        a[1, i] := Some(Piece(Pawn, Black));
        i := i + 1;
      }
      i := 0;
      while i < 8
        invariant 0 <= i <= 8
        invariant forall r, c | InBounds(r, c) ::
          a[r, c] == (if r == 0 || r == 1 || ((r == 6 || r == 7) && c < i) then InitialSquare(r, c) else None)
      {
        a[6, i] := Some(Piece(Pawn, White));
        a[7, i] := Some(Piece(pieceOrder[i], White));
        i := i + 1;
      }
    }

    /** The constructor (chess-engine.js:2-13): the starting position, White
        to move, no history, the game in progress. */
    constructor()
      ensures Valid() && fresh(board)
      ensures Snapshot() == State(InitialBoard(), White, []) && gameStatus == Playing
    {
      var initial := ChessEngine.InitializeBoard();
      board := initial;
      currentPlayer := White;
      gameHistory := [];
      gameStatus := Playing;
      new;
      CellsAre(InitialBoard());
    }

    /** `resetGame` (chess-engine.js:984-992): back to the starting position
        on a new board. */
    method ResetGame()
      modifies this
      ensures Valid() && fresh(board)
      ensures Snapshot() == State(InitialBoard(), White, []) && gameStatus == Playing
    {
      board := InitializeBoard();
      currentPlayer := White;
      gameHistory := [];
      gameStatus := Playing;
      CellsAre(InitialBoard());
    }

    /** `makeMove` (chess-engine.js:230-267). The source square must hold a
        piece (the engine reads its type unguarded); nothing else is
        checked. */
    method MakeMove(fromRow: Coord, fromCol: Coord, toRow: Coord, toCol: Coord, promotionPiece: Kind := Queen)
      returns (move: Entry)
      requires Valid() && board[fromRow, fromCol].Some?
      modifies this, board
      ensures Valid() && board == old(board) && gameStatus == old(gameStatus)
      ensures Snapshot() == Make(old(Snapshot()), fromRow, fromCol, toRow, toCol, promotionPiece)
      ensures move == MakeEntry(old(Snapshot()), fromRow, fromCol, toRow, toCol, promotionPiece)
    {
      ghost var s0 := Snapshot();
      var piece := board[fromRow, fromCol].value;
      var capturedPiece := board[toRow, toCol];
      var finalPiece := piece;
      var isPromotion := false;
      if piece.kind == Pawn {
        if (piece.color == White && toRow == 0) || (piece.color == Black && toRow == 7) {
          finalPiece := Piece(promotionPiece, piece.color);
          isPromotion := true;
        }
      }
      move := Entry(Pos(fromRow, fromCol), Pos(toRow, toCol), piece, capturedPiece, currentPlayer,
                    if isPromotion then Some(promotionPiece) else None);
      gameHistory := gameHistory + [move];
      board[toRow, toCol] := Some(finalPiece);
      board[fromRow, fromCol] := None;
      currentPlayer := if currentPlayer == White then Black else White;
      CellsAre(Make(s0, fromRow, fromCol, toRow, toCol, promotionPiece).board);
    }

    /** `undoMove` (chess-engine.js:269-282): with an empty history nothing
        happens and nothing is returned. */
    method UndoMove() returns (lastMove: Option<Entry>)
      requires Valid()
      modifies this, board
      ensures Valid() && board == old(board) && gameStatus == old(gameStatus)
      ensures |old(gameHistory)| == 0 ==> lastMove.None? && Snapshot() == old(Snapshot())
      ensures |old(gameHistory)| > 0 ==>
        lastMove == Some(old(gameHistory)[|old(gameHistory)| - 1]) && Snapshot() == Undo(old(Snapshot()))
    {
      if |gameHistory| == 0 {
        return None;
      }
      ghost var s0 := Snapshot();
      var last := gameHistory[|gameHistory| - 1];
      gameHistory := gameHistory[..|gameHistory| - 1];
      board[last.from.row, last.from.col] := Some(last.piece);
      board[last.to.row, last.to.col] := last.captured;
      currentPlayer := if currentPlayer == White then Black else White;
      CellsAre(Undo(s0).board);
      return Some(last);
    }

    /** `saveGameState` (chess-engine.js:909-915): a copy of the board, the
        side to move and the history. */
    method SaveGameState() returns (state: State)
      requires Valid()
      ensures state == Snapshot()
    {
      var a := board;
      var copy := seq(8, r requires 0 <= r < 8 reads a => seq(8, c requires 0 <= c < 8 reads a => a[r, c]));
      state := State(copy, currentPlayer, gameHistory);
    }

    /** `restoreGameState` (chess-engine.js:918-922): a new board holding a
        copy of the saved one. */
    method RestoreGameState(state: State)
      modifies this
      ensures Valid() && fresh(board)
      ensures Snapshot() == state && gameStatus == old(gameStatus)
    {
      board := new Square[8, 8]((r, c) requires 0 <= r < 8 && 0 <= c < 8 => state.board[r][c]);
      currentPlayer := state.player;
      gameHistory := state.history;
      CellsAre(state.board);
    }

    // -------------------------------------------------------------------
    // End of the game
    // -------------------------------------------------------------------

    /** `getBoardHash` (chess-engine.js:892-906), with the corrected kind
        letters: the 64 square codes in row-major order, then the side to
        move. */
    method GetBoardHash() returns (hash: string)
      requires Valid()
      ensures hash == BoardHash(Cells(), currentPlayer)
    {
      ghost var b := Cells();
      hash := "";
      var row := 0;
      while row < 8
        invariant 0 <= row <= 8
        invariant hash == EncodeRows(b, row, Code)
      {
        ghost var done := hash;
        var col := 0;
        while col < 8
          invariant 0 <= col <= 8
          invariant hash == done + Encode(b[row][..col], Code)
        {
          var piece := board[row, col];
          assert piece == b[row][col];
          EncodeStep(b[row], Code, col, col + 1);
          hash := hash + Code(piece);
          col := col + 1;
        }
        assert b[row][..8] == b[row];
        EncodeRowsStep(b, row, row + 1, Code);
        row := row + 1;
      }
      EncodeRowsFlat(b, 8, Code);
      assert Flat(b)[..64] == Flat(b);
      hash := hash + [ColorChar(currentPlayer)];
    }

    /** `isFiftyMoveRule` (chess-engine.js:877-889). */
    method IsFiftyMoveRule() returns (fifty: bool)
      ensures fifty == Fifty(gameHistory)
    {
      if |gameHistory| < 100 {
        return false;
      }
      var i := |gameHistory| - 100;
      while i < |gameHistory|
        invariant |gameHistory| - 100 <= i <= |gameHistory|
        invariant forall j | |gameHistory| - 100 <= j < i :: Quiet(gameHistory[j])
      {
        var move := gameHistory[i];
        if move.piece.kind == Pawn || move.captured.Some? {
          return false;
        }
        i := i + 1;
      }
      return true;
    }

    /** The collecting loops of `isInsufficientMaterial`
        (chess-engine.js:779-789): the kinds of each side's pieces, in
        row-major order. */
    method CollectPieces() returns (white: seq<Kind>, black: seq<Kind>)
      requires Valid()
      ensures white == RowsKinds(Cells(), 8, White) && black == RowsKinds(Cells(), 8, Black)
    {
      ghost var b := Cells();
      white, black := [], [];
      var row := 0;
      while row < 8
        invariant 0 <= row <= 8
        invariant white == RowsKinds(b, row, White) && black == RowsKinds(b, row, Black)
      {
        ghost var white0, black0 := white, black;
        var col := 0;
        while col < 8
          invariant 0 <= col <= 8
          invariant white == white0 + KindsOf(b[row][..col], White)
          invariant black == black0 + KindsOf(b[row][..col], Black)
        {
          var piece := board[row, col];
          assert piece == b[row][col];
          KindsOfPrefix(b[row], col, col + 1, White);
          KindsOfPrefix(b[row], col, col + 1, Black);
          ConcatAssoc(white0, KindsOf(b[row][..col], White), KindIf(piece, White));
          ConcatAssoc(black0, KindsOf(b[row][..col], Black), KindIf(piece, Black));
          if piece.Some? {
            if piece.value.color == White {
              white := white + [piece.value.kind];
            } else {
              black := black + [piece.value.kind];
            }
          }
          col := col + 1;
        }
        assert b[row][..8] == b[row];
        RowsKindsStep(b, row, row + 1, White);
        RowsKindsStep(b, row, row + 1, Black);
        row := row + 1;
      }
    }

    /** `isInsufficientMaterial` (chess-engine.js:778-828). */
    method IsInsufficientMaterial() returns (insufficient: bool)
      requires Valid()
      ensures insufficient == InsufficientMaterial(Cells())
    {
      ghost var b := Cells();
      ghost var wb, kb := FindPiece(b, White, Bishop), FindPiece(b, Black, Bishop);
      var white, black := CollectPieces();
      InsufficientFromRows(b);
      white := WithoutKings(white);
      black := WithoutKings(black);
      if |white| == 0 && |black| == 0 {
        return true;
      }
      if (|white| == 1 && white[0] == Bishop && |black| == 0) ||
         (|black| == 1 && black[0] == Bishop && |white| == 0) {
        return true;
      }
      if (|white| == 1 && white[0] == Knight && |black| == 0) ||
         (|black| == 1 && black[0] == Knight && |white| == 0) {
        return true;
      }
      if |white| == 1 && |black| == 1 && white[0] == Bishop && black[0] == Bishop {
        var same := BishopsOnSameShade(b);
        VerdictBishops(white, black, wb, kb);
        if same {
          return true;
        }
      }
      assert !MaterialVerdict(white, black, wb, kb);
      return false;
    }

    /** The bishop test of `isInsufficientMaterial` (chess-engine.js:812-823):
        the first bishop of each side is found, and the two stand on
        squares of the same shade. */
    method BishopsOnSameShade(ghost b: Board) returns (same: bool)
      requires Valid() && Cells() == b
      ensures same == SameShade(FindPiece(b, White, Bishop), FindPiece(b, Black, Bishop))
    {
      var whiteBishopPos := FindPiecePosition(White, Bishop);
      var blackBishopPos := FindPiecePosition(Black, Bishop);
      if whiteBishopPos.Some? && blackBishopPos.Some? {
        var whiteSquareColor := (whiteBishopPos.value.row + whiteBishopPos.value.col) % 2;
        var blackSquareColor := (blackBishopPos.value.row + blackBishopPos.value.col) % 2;
        if whiteSquareColor == blackSquareColor {
          return true;
        }
      }
      return false;
    }

    /** `k` successive `undoMove` calls on a state with at least `k` moves. */
    method UndoTimes(k: nat)
      requires Valid() && k <= |gameHistory|
      modifies this, board
      ensures Valid() && board == old(board) && gameStatus == old(gameStatus)
      ensures Snapshot() == UndoN(old(Snapshot()), k)
    {
      ghost var s0 := Snapshot();
      var t := 0;
      while t < k
        invariant 0 <= t <= k && Valid() && board == old(board) && gameStatus == old(gameStatus)
        invariant Snapshot() == UndoN(s0, t)
      {
        UndoNSnoc(s0, t);
        var _ := UndoMove();
        t := t + 1;
      }
    }

    /** `isThreefoldRepetition` (chess-engine.js:844-874): for 4, 6, 8, ...
        moves back, save the state, undo that many moves, compare the hash
        with the current one and restore the state; report a repetition
        once two earlier positions have matched. The state is the same
        afterwards, on a new board. */
    method IsThreefoldRepetition() returns (repeated: bool)
      requires Valid()
      modifies this, board
      ensures Valid() && (board == old(board) || fresh(board))
      ensures Snapshot() == old(Snapshot()) && gameStatus == old(gameStatus)
      ensures repeated == Threefold(old(Snapshot()))
    {
      if |gameHistory| < 8 {
        return false;
      }
      ghost var s0 := Snapshot();
      var currentPosition := GetBoardHash();
      var repetitions := 1;
      var i := |gameHistory| - 4;
      ghost var bits: seq<bool> := [];
      while i >= 0
        invariant Valid() && (board == old(board) || fresh(board)) && gameStatus == old(gameStatus)
        invariant Snapshot() == s0 && |s0.history| >= 8
        invariant currentPosition == BoardHash(s0.board, s0.player)
        invariant i == |s0.history| - 4 - 2 * |bits| && i >= -2
        invariant Scanned(s0, bits) && repetitions == 1 + Count(bits) && repetitions < 3
        decreases i + 2
      {
        var k := |gameHistory| - i;
        assert k == 4 + 2 * |bits| && k <= |s0.history|;
        var same := SameAsEarlier(k, currentPosition, s0);
        ScannedSnoc(s0, bits, k, same);
        CountSnoc(bits, same);
        bits := bits + [same];
        if same {
          repetitions := repetitions + 1;
        }
        if repetitions >= 3 {
          ScannedThreefold(s0, bits);
          return true;
        }
        i := i - 2;
      }
      ScannedNoThreefold(s0, bits);
      return false;
    }

    /** One round of the loop of `isThreefoldRepetition`: save the state,
        undo `k` moves, compare the hash with `currentPosition` and restore
        the state, on a new board. */
    method SameAsEarlier(k: nat, currentPosition: string, ghost s0: State) returns (same: bool)
      requires Valid() && s0 == Snapshot() && k <= |s0.history|
      requires currentPosition == BoardHash(s0.board, s0.player)
      modifies this, board
      ensures Valid() && fresh(board)
      ensures Snapshot() == s0 && gameStatus == old(gameStatus)
      ensures same == Matches(s0, k)
    {
      var currentState := SaveGameState();
      UndoTimes(k);
      var hash := GetBoardHash();
      same := hash == currentPosition;
      RestoreGameState(currentState);
    }

    /** `checkGameEnd` (chess-engine.js:709-775): the outcome, with the new
        `gameStatus`; the position is the same afterwards. */
    method CheckGameEnd() returns (outcome: Option<Outcome>)
      requires Valid()
      modifies this, board
      ensures Valid() && (board == old(board) || fresh(board))
      ensures Snapshot() == old(Snapshot())
      ensures (outcome, gameStatus) == CheckEnd(old(Snapshot()), old(gameStatus))
    {
      ghost var s0, status0 := Snapshot(), gameStatus;
      var player := currentPlayer;
      var whiteKing := FindKing(White);
      var blackKing := FindKing(Black);
      if whiteKing.None? {
        gameStatus := BlackWins;
        return Some(KingCaptured);
      }
      if blackKing.None? {
        gameStatus := WhiteWins;
        return Some(KingCaptured);
      }
      var validMoves := GetAllValidMoves(player);
      assert Snapshot() == s0;
      if |validMoves| == 0 {
        var inCheck := IsInCheck(player);
        if inCheck {
          gameStatus := if player == White then BlackWins else WhiteWins;
          return Some(Checkmate);
        } else {
          gameStatus := Draw;
          return Some(Stalemate);
        }
      }
      assert CheckEnd(s0, status0) == CheckDraws(s0, status0);
      outcome := CheckDrawRules();
    }

    /** The draw checks at the end of `checkGameEnd`
        (chess-engine.js:752-774), in order. */
    method CheckDrawRules() returns (outcome: Option<Outcome>)
      requires Valid()
      modifies this, board
      ensures Valid() && (board == old(board) || fresh(board))
      ensures Snapshot() == old(Snapshot())
      ensures (outcome, gameStatus) == CheckDraws(old(Snapshot()), old(gameStatus))
    {
      ghost var s0 := Snapshot();
      var insufficient := IsInsufficientMaterial();
      if insufficient {
        gameStatus := Draw;
        return Some(DrawInsufficientMaterial);
      }
      outcome := CheckRepetitionRules();
      assert Snapshot() == s0;
      if outcome.Some? {
        gameStatus := Draw;
      }
    }

    /** The repetition and fifty-move checks (chess-engine.js:760-771), in
        order; the caller records the draw. */
    method CheckRepetitionRules() returns (outcome: Option<Outcome>)
      requires Valid()
      modifies this, board
      ensures Valid() && (board == old(board) || fresh(board))
      ensures Snapshot() == old(Snapshot()) && gameStatus == old(gameStatus)
      ensures outcome == if Threefold(old(Snapshot())) then Some(DrawRepetition)
                         else if Fifty(old(gameHistory)) then Some(DrawFiftyMoves)
                         else None
    {
      var repeated := IsThreefoldRepetition();
      if repeated {
        return Some(DrawRepetition);
      }
      var fifty := IsFiftyMoveRule();
      if fifty {
        return Some(DrawFiftyMoves);
      }
      return None;
    }

    /** `isGameOver` (chess-engine.js:974-982): an ended game stays over;
        otherwise `checkGameEnd` decides, and records its status. */
    method IsGameOver() returns (over: bool)
      requires Valid()
      modifies this, board
      ensures Valid() && (board == old(board) || fresh(board))
      ensures Snapshot() == old(Snapshot())
      ensures old(gameStatus) != Playing ==> over && gameStatus == old(gameStatus)
      ensures old(gameStatus) == Playing ==>
        over == CheckEnd(old(Snapshot()), Playing).0.Some? && gameStatus == CheckEnd(old(Snapshot()), Playing).1
    {
      if gameStatus != Playing {
        return true;
      }
      var gameEnd := CheckGameEnd();
      return gameEnd.Some?;
    }

    // -------------------------------------------------------------------
    // Evaluation and search
    // -------------------------------------------------------------------

    /** `evaluateBoard` (chess-engine.js:338-354). */
    method EvaluateBoard() returns (score: int)
      requires Valid()
      ensures score == Evaluate(Cells())
    {
      ghost var b := Cells();
      score := 0;
      var row := 0;
      while row < 8
        invariant 0 <= row <= 8
        invariant score == RowsScore(b, row)
      {
        var col := 0;
        while col < 8
          invariant 0 <= col <= 8
          invariant score == RowsScore(b, row) + RowScore(b, row, col)
        {
          var piece := board[row, col];
          if piece.Some? {
            var value := PieceValue(piece.value.kind);
            var positionalValue := PositionalValue(row, col, piece.value);
            var totalValue := value + positionalValue;
            score := score + (if piece.value.color == White then totalValue else -totalValue);
          }
          col := col + 1;
        }
        row := row + 1;
      }
    }

    /** `evaluateMove` (chess-engine.js:606-632): simulate the move, score
        it for the side to move, and put the board back. */
    method EvaluateMove(move: Move) returns (score: int)
      requires Valid()
      modifies board
      ensures Cells() == old(Cells())
      ensures score == EvalMove(old(Cells()), currentPlayer, move)
    {
      ghost var b0 := Cells();
      var movingPiece, originalPiece := Displace(move.from.row, move.from.col, move.to.row, move.to.col);
      score := EvaluateBoard();
      if originalPiece.Some? {
        score := score + PieceValue(originalPiece.value.kind) * (if currentPlayer == White then 1 else -1);
      }
      var opponentColor := if currentPlayer == White then Black else White;
      var check := IsInCheck(opponentColor);
      if check {
        score := score + 200 * (if currentPlayer == White then 1 else -1);
      }
      PutBack(move.from.row, move.from.col, move.to.row, move.to.col, movingPiece, originalPiece, b0);
    }

    /** `wouldCauseCheck` (chess-engine.js:691-706). The source square must
        hold a piece (the engine reads its colour unguarded). */
    method WouldCauseCheck(move: Move) returns (wouldCheck: bool)
      requires Valid() && board[move.from.row, move.from.col].Some?
      modifies board
      ensures Cells() == old(Cells())
      ensures old(Cells())[move.from.row][move.from.col].Some?
      ensures wouldCheck == WouldCheck(old(Cells()), move)
    {
      ghost var b0 := Cells();
      var movingPiece, originalPiece := Displace(move.from.row, move.from.col, move.to.row, move.to.col);
      var opponentColor := if movingPiece.value.color == White then Black else White;
      wouldCheck := IsInCheck(opponentColor);
      PutBack(move.from.row, move.from.col, move.to.row, move.to.col, movingPiece, originalPiece, b0);
    }

    /** `opponentMoves.filter(...)` in `evaluateMoveDeep`
        (chess-engine.js:665-668): the captures, and the moves that give
        check, in order. */
    method PriorityMoves(opponentMoves: seq<Move>) returns (priorityMoves: seq<Move>)
      requires Valid() && FromOccupied(Cells(), opponentMoves)
      modifies board
      ensures Cells() == old(Cells())
      ensures priorityMoves == Priority(old(Cells()), opponentMoves)
    {
      ghost var b0 := Cells();
      priorityMoves := [];
      var i := 0;
      while i < |opponentMoves|
        invariant 0 <= i <= |opponentMoves| && Cells() == b0
        invariant FromOccupied(b0, opponentMoves[..i])
        invariant priorityMoves == Priority(b0, opponentMoves[..i])
      {
        var m := opponentMoves[i];
        assert opponentMoves[..i + 1][..i] == opponentMoves[..i];
        assert FromOccupied(b0, opponentMoves[..i + 1]);
        var important := board[m.to.row, m.to.col].Some?;
        if !important {
          important := WouldCauseCheck(m);
        }
        if important {
          priorityMoves := priorityMoves + [m];
        }
        i := i + 1;
      }
      assert opponentMoves[..|opponentMoves|] == opponentMoves;
    }

    /** The reply selection of `evaluateMoveDeep` (chess-engine.js:652-672):
        the captures and checks among `opponentMoves`, or all of them if
        there are none, cut to the move limit of `depth`. */
    method MovesToEvaluate(opponentMoves: seq<Move>, depth: nat) returns (moves: seq<Move>)
      requires Valid() && FromOccupied(Cells(), opponentMoves)
      modifies board
      ensures Cells() == old(Cells())
      ensures moves == Candidates(old(Cells()), opponentMoves, depth)
    {
      var moveLimit;
      if depth >= 3 {
        moveLimit := Min(2, |opponentMoves|);
      } else if depth == 2 {
        moveLimit := Min(4, |opponentMoves|);
      } else {
        moveLimit := Min(6, |opponentMoves|);
      }
      var priorityMoves := PriorityMoves(opponentMoves);
      if |priorityMoves| > 0 {
        moves := priorityMoves[..Min(moveLimit, |priorityMoves|)];
      } else {
        moves := opponentMoves[..moveLimit];
      }
    }

    /** `evaluateMoveDeep` (chess-engine.js:634-688): make the move, switch
        sides, search the selected replies one level shallower keeping the
        best for the replying side, then switch back and unmake the move. */
    method EvaluateMoveDeep(move: Move, depth: nat) returns (score: Score)
      requires Valid()
      modifies this`currentPlayer, board
      decreases depth, 2
      ensures Cells() == old(Cells()) && currentPlayer == old(currentPlayer)
      ensures score == EvalDeep(old(Cells()), old(currentPlayer), move, depth)
    {
      if depth == 0 {
        var s := EvaluateMove(move);
        return Fin(s);
      }
      ghost var b0, p0 := Cells(), currentPlayer;
      var movingPiece, originalPiece := Displace(move.from.row, move.from.col, move.to.row, move.to.col);
      currentPlayer := if currentPlayer == White then Black else White;
      score := SearchReplies(depth);
      assert score == EvalDeep(b0, p0, move, depth);
      currentPlayer := if currentPlayer == White then Black else White;
      PutBack(move.from.row, move.from.col, move.to.row, move.to.col, movingPiece, originalPiece, b0);
    }

    /** The middle of `evaluateMoveDeep` (chess-engine.js:648-680), with the
        move made and the replying side to move: generate its replies,
        select some, and search each one level shallower. */
    method SearchReplies(depth: nat) returns (best: Score)
      requires Valid() && depth > 0
      modifies this`currentPlayer, board
      decreases depth, 1
      ensures Cells() == old(Cells()) && currentPlayer == old(currentPlayer)
      ensures best == BestReply(old(Cells()), old(currentPlayer), Examined(old(Cells()), old(currentPlayer), depth), depth - 1)
    {
      ghost var b, p := Cells(), currentPlayer;
      var opponentMoves := GetAllValidMoves(currentPlayer);
      AllValidMovesExact(b, p);
      assert opponentMoves == AllValidMoves(b, p);
      var movesToEvaluate := MovesToEvaluate(opponentMoves, depth);
      assert movesToEvaluate == Examined(b, p, depth) && Cells() == b && currentPlayer == p;
      var replyDepth := depth - 1;
      best := BestOpponentScore(movesToEvaluate, replyDepth, b, p);
      BestReplyOf(b, p, depth, movesToEvaluate);
      BestReplyBelow(b, p, depth, movesToEvaluate, replyDepth);
    }

    /** The reply loop of `evaluateMoveDeep`: the maximum (White to move) or
        minimum (Black) of the replies' scores, from the matching
        infinity. */
    method BestOpponentScore(moves: seq<Move>, depth: nat, ghost b0: Board, ghost p0: Color) returns (best: Score)
      requires Valid() && Cells() == b0 && currentPlayer == p0
      modifies this`currentPlayer, board
      decreases depth, 3
      ensures Cells() == b0 && currentPlayer == p0
      ensures best == BestReply(b0, p0, moves, depth)
    {
      best := if currentPlayer == White then NegInf else PosInf;
      var i := 0;
      while i < |moves|
        invariant 0 <= i <= |moves|
        invariant Cells() == b0 && currentPlayer == p0
        invariant best == BestReply(b0, p0, moves[..i], depth)
      {
        var score := EvaluateMoveDeep(moves[i], depth);
        assert moves[..i + 1][..i] == moves[..i];
        if currentPlayer == White {
          best := MaxScore(best, score);
        } else {
          best := MinScore(best, score);
        }
        i := i + 1;
      }
      assert moves[..|moves|] == moves;
    }

    /** The score of one move in the loop of `getBestMoveFromEvaluation`
        (chess-engine.js:538-546): the look-ahead score, plus the scaled
        strategic bonus when it is used. */
    method ScoreMove(moves: seq<Move>, i: nat, depth: nat, useStrategicBonus: bool, multiplierTenths: nat,
                     ghost b0: Board, ghost p0: Color, ghost h0: seq<Entry>, ghost scores: seq<Score>)
      returns (score: Score)
      requires Valid() && i < |moves| && Cells() == b0 && currentPlayer == p0 && gameHistory == h0
      requires scores == MoveScores(b0, h0, p0, moves, depth, useStrategicBonus, multiplierTenths)
      modifies this`currentPlayer, board
      ensures Cells() == b0 && currentPlayer == p0
      ensures score == scores[i]
    {
      var move := moves[i];
      score := EvaluateMoveDeep(move, depth);
      if useStrategicBonus {
        var bonus := StrategicTenths(board[move.to.row, move.to.col], gameHistory, currentPlayer, move);
        score := score.Plus(bonus * multiplierTenths);
      }
    }

    /** The loop of `getBestMoveFromEvaluation` (chess-engine.js:536-555):
        each move is scored in turn, and a move is kept when its score is
        strictly better for the side to move than the best so far. */
    method PickBest(moves: seq<Move>, depth: nat, useStrategicBonus: bool, multiplierTenths: nat,
                    ghost b0: Board, ghost p0: Color, ghost h0: seq<Entry>, ghost scores: seq<Score>)
      returns (kept: Option<Move>, bestScore: Score)
      requires Valid() && Cells() == b0 && currentPlayer == p0 && gameHistory == h0
      requires scores == MoveScores(b0, h0, p0, moves, depth, useStrategicBonus, multiplierTenths)
      modifies this`currentPlayer, board
      ensures Cells() == b0 && currentPlayer == p0
      ensures (kept, bestScore) == PickUpTo(p0, moves, scores, |moves|)
    {
      kept := None;
      bestScore := if currentPlayer == White then NegInf else PosInf;
      var i := 0;
      while i < |moves|
        invariant 0 <= i <= |moves|
        invariant Cells() == b0 && currentPlayer == p0 && gameHistory == h0
        invariant (kept, bestScore) == PickUpTo(p0, moves, scores, i)
      {
        var move := moves[i];
        var score := ScoreMove(moves, i, depth, useStrategicBonus, multiplierTenths, b0, p0, h0, scores);
        var better := Improves(currentPlayer, score, bestScore);
        ghost var kept0, best0 := kept, bestScore;
        if better {
          bestScore := score;
          kept := Some(move);
        }
        var next := i + 1;
        PickStep(p0, moves, scores, i, next, kept0, best0, kept, bestScore);
        i := next;
      }
    }

    /** `getBestMoveFromEvaluation` (chess-engine.js:532-557), with the
        multiplier in tenths: the first move with the strictly best score
        for the side to move, else the first move. */
    method GetBestMoveFromEvaluation(moves: seq<Move>, depth: nat, useStrategicBonus: bool := false,
                                     multiplierTenths: nat := 10) returns (bestMove: Option<Move>)
      requires Valid()
      modifies this`currentPlayer, board
      ensures Cells() == old(Cells()) && currentPlayer == old(currentPlayer)
      ensures bestMove == BestMove(old(Cells()), old(gameHistory), old(currentPlayer), moves, depth,
                                   useStrategicBonus, multiplierTenths)
    {
      ghost var b0, p0, h0 := Cells(), currentPlayer, gameHistory;
      ghost var scores := MoveScores(b0, h0, p0, moves, depth, useStrategicBonus, multiplierTenths);
      var kept, bestScore := PickBest(moves, depth, useStrategicBonus, multiplierTenths, b0, p0, h0, scores);
      PickUpToPrefix(p0, moves, scores, |moves|);
      assert moves[..|moves|] == moves && scores[..|scores|] == scores;
      if kept.Some? {
        return kept;
      }
      return if |moves| > 0 then Some(moves[0]) else None;
    }

    /** `getHardBotMove` (chess-engine.js:484-505): the same loop with a
        look-ahead of 2 and no strategic bonus. */
    method GetHardBotMove(moves: seq<Move>) returns (move: Option<Move>)
      requires Valid()
      modifies this`currentPlayer, board
      ensures Cells() == old(Cells()) && currentPlayer == old(currentPlayer)
      ensures move == BestMove(old(Cells()), old(gameHistory), old(currentPlayer), moves, 2)
    {
      move := GetBestMoveFromEvaluation(moves, 2);
    }

    /** `getMasterBotMove` (chess-engine.js:518-523): depth 5, with the
        strategic bonus scaled by 1.5. */
    method GetMasterBotMove(moves: seq<Move>) returns (move: Option<Move>)
      requires Valid()
      modifies this`currentPlayer, board
      ensures Cells() == old(Cells()) && currentPlayer == old(currentPlayer)
      ensures move == BestMove(old(Cells()), old(gameHistory), old(currentPlayer), moves, 5, true, 15)
    {
      move := GetBestMoveFromEvaluation(moves, 5, true, 15);
    }

    /** `getGrandmasterBotMove` (chess-engine.js:525-530): depth 6, with the
        strategic bonus doubled. */
    method GetGrandmasterBotMove(moves: seq<Move>) returns (move: Option<Move>)
      requires Valid()
      modifies this`currentPlayer, board
      ensures Cells() == old(Cells()) && currentPlayer == old(currentPlayer)
      ensures move == BestMove(old(Cells()), old(gameHistory), old(currentPlayer), moves, 6, true, 20)
    {
      move := GetBestMoveFromEvaluation(moves, 6, true, 20);
    }

    /** `addPromotionToMove` (chess-engine.js:430-445), returning the
        updated move. */
    method AddPromotionToMove(move: Option<Move>) returns (result: Option<Move>)
      requires Valid()
      ensures move.None? ==> result.None?
      ensures move.Some? ==>
        result == AddPromotion(Cells()[move.value.from.row][move.value.from.col], move)
    {
      if move.None? {
        return move;
      }
      var piece := board[move.value.from.row, move.value.from.col];
      result := move;
      if piece.Some? && piece.value.kind == Pawn {
        var toRow := move.value.to.row;
        if (piece.value.color == White && toRow == 0) || (piece.value.color == Black && toRow == 7) {
          result := Some(move.value.(promotion := Some(Queen)));
        }
      }
    }
  }
}
