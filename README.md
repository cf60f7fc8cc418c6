# Chess engine rules, draw detection and bot search in Dafny

This project models `ChessEngine` (chess-engine.js), the core of a browser
chess game. It covers three parts of the engine:

- **Rules.** The board, piece-move geometry, the legality check with its
  simulate-and-restore self-check test, and move generation in row-major
  order. It also covers making and undoing moves, including pawn promotion.
- **End of game.** `checkGameEnd` with its fixed order of tests: missing
  king, checkmate, stalemate, insufficient material, threefold repetition
  (found by undoing moves and rehashing) and the fifty-move rule.
- **Search.** The deterministic part of the bot: static evaluation,
  one-ply move evaluation, the depth-limited search with its truncated and
  prioritised reply lists, the strategic bonus, and best-move selection
  for the hard, master and grandmaster tiers.

The project is layered in two parts:

- **Value-level modules.** `ChessTypes`, `Rules`, `History`,
  `Evaluation`, `Search` and `GameEnd` define each operation as a function
  on an immutable 8×8 board (`seq<seq<Square>>`) and a `State` (board,
  side to move, move history). The lemmas about what the engine promises
  are stated and proved here.
- **The class.** `Engine.ChessEngine` holds the engine's mutable state:
  an `array2<Square>` board, `currentPlayer`, `gameHistory` and
  `gameStatus`. Its methods are the engine's methods, written as loops and
  in-place updates in the same order as the source:
  - moves on the board are simulated and then restored;
  - `undoMove` is called repeatedly, and save/restore is done in the
    repetition scan.

  Each method is proved to return the value-level function of the state
  it started in, and to leave the state the source leaves behind. Most
  often that is the same state: simulations restore the board, and the
  search restores the side to move.

Scores are exact integers. The engine's decimal scores become hundredths
of a pawn: a pawn is 100, a queen 900 and a king 10000. The strategic
bonus is kept in tenths, and the tier multipliers 1.0, 1.5 and 2.0 become
10, 15 and 20. `±Infinity`, the starting best score, is a `Score` value of
its own.

Behaviours of the code that the model keeps:

- **Repetition scan.** `isThreefoldRepetition` (chess-engine.js:844-874)
  returns false with fewer than 8 history entries (line 845) and compares
  only the positions 4, 6, 8, … half-moves back (lines 853-867).
- **Status values.** `checkGameEnd` (chess-engine.js:709-775) sets the
  status to `white_wins`, `black_wins` or `draw` and returns the outcome
  string; a running game has status `playing` (line 13).
- **Repeated-piece penalty.** `getExpertStrategicBonus`
  (chess-engine.js:584-593) applies it only while fewer than 10 half-moves
  have been played, and only when more than one of the last four history
  entries moved a piece of the same kind and colour.
- **Default arguments.** `makeMove` promotes to a queen unless told
  otherwise (chess-engine.js:230), and `getBestMoveFromEvaluation` runs
  without the strategic bonus and with multiplier 1.0 unless told otherwise
  (chess-engine.js:532); the model declares the same defaults.

One behaviour is not kept: the position hash of `getBoardHash`
(chess-engine.js:898) gives the king and the knight the same letter. The
model hashes with one letter per kind, and the repetition test is built on
that corrected hash (see Findings and Left out).

## Model

| member | source | states |
|---|---|---|
| ChessTypes.MaxScore | chess-engine.js:676 | `Math.max` over scores with ±Infinity: not below either argument and equal to one of them |
| ChessTypes.MinScore | chess-engine.js:678 | `Math.min`: not above either argument and equal to one of them |
| Rules.StepInside | chess-engine.js:214-228 | every square the path walk of `isPathClear` visits is on the board, and the walk ends exactly on the target |
| Rules.SlidingNeedsClearPath | chess-engine.js:175-181 | an accepted rook, bishop or queen move runs along a line (a rook straight, a bishop diagonally), and every square strictly between source and target is empty |
| Rules.JumpsIgnoreBoard | chess-engine.js:182-186 | knight and king moves depend only on the displacement, not on the board; a king moves at most one square |
| Rules.Relocate | chess-engine.js:153-162 | the simulated move puts the moving piece on the target, empties the source and leaves all other squares unchanged |
| Rules.FindPieceFirst | chess-engine.js:831-841 | the search finds the first square in row-major order holding the piece, and returns null exactly when no square holds it |
| Rules.InCheckMeaning | chess-engine.js:284-299 | a side is in check exactly when its king is found and some enemy piece's move rules reach the king's square |
| Rules.LegalMoveMeaning | chess-engine.js:115-166 | the check fails closed: an off-board target, an empty source, a target of the mover's own colour and a king taking a king are all refused. Otherwise a move is legal exactly when the piece's move rules allow it and the mover's king is not in check after the relocation |
| Rules.LegalMoveMoves | chess-engine.js:115-166 | a legal move always changes square |
| Rules.TargetsFromExact | chess-engine.js:320-330 | the targets collected for one piece are exactly the legal targets from the scan position on, each recorded with that piece and no promotion |
| Rules.TargetsFromOrdered | chess-engine.js:320-330 | the moves collected for one piece are in row-major order of target |
| Rules.MovesFromSound | chess-engine.js:316-333 | every collected move is legal and moves a piece of the requested colour from its own square |
| Rules.MovesFromComplete | chess-engine.js:316-333 | every legal move of a piece of the requested colour at or after the scan position is collected |
| Rules.MovesFromOrdered | chess-engine.js:316-333 | the collected moves are ordered by source square, then by target square, both row-major |
| Rules.AllValidMovesExact | chess-engine.js:313-336 | `getAllValidMoves` returns exactly the legal moves of the colour (sound and complete), in row-major order |
| Engine.ChessEngine.InitializeBoard | chess-engine.js:77-96 | the two loops give a fresh 8×8 board with the black back rank in the order rook, knight, bishop, queen, king, bishop, knight, rook on row 0, black pawns on row 1, white pawns on row 6, the white back rank on row 7 and every other square empty |
| Rules.InitialKings | chess-engine.js:77-96 | in the initial position the kings are found on e1 (row 7, col 4) and e8 (row 0, col 4) |
| History.Place | chess-engine.js:260-261 | the new piece lands on the target, the source empties, all other squares are unchanged |
| History.Make | chess-engine.js:230-267 | making a move appends exactly one history entry (the recorded move) and keeps the earlier ones; the side to move flips |
| History.MakeBoard | chess-engine.js:238-261 | after a move the target holds the piece, or the requested kind when a pawn reaches the far rank; the source is empty and no other square changes |
| History.Undo | chess-engine.js:269-282 | undoing drops exactly the last history entry and flips the side to move |
| History.MakeDefaultQueen | chess-engine.js:230-242 | with the default promotion argument a pawn reaching the far rank becomes a queen of its colour; any other piece lands as itself |
| History.UndoMake | chess-engine.js:230-282 | undo after make restores the state exactly, including the pawn of a promotion and the captured piece |
| History.UndoN | chess-engine.js:857-859 | `k` undos leave exactly the history without its last `k` entries |
| History.UndoNPlayer | chess-engine.js:279 | an even number of undos keeps the side to move, an odd number flips it |
| History.UndoReplay | chess-engine.js:269-282 | undoing the last `k` moves of a replayed game gives the state after its first moves only |
| Evaluation.PositionalValue | chess-engine.js:356-380 | the positional value lies in [-0.70, 1.10]; for pieces other than pawns and knights it is the centre bonus alone |
| Evaluation.PositionalMirror | chess-engine.js:356-380 | the positional value is the same for both sides, mirrored across the board |
| Evaluation.KnightPrefersCenter | chess-engine.js:359-377 | a knight on a centre square is worth more than on any other square |
| Evaluation.EvaluateMirror | chess-engine.js:338-354 | mirroring the board and swapping colours negates the evaluation |
| Evaluation.InitialBalanced | chess-engine.js:338-354 | the initial position evaluates to 0 |
| Evaluation.LastFour | chess-engine.js:587 | `slice(-4)` is the last four entries, or all of them when there are fewer |
| Evaluation.BonusBounds | chess-engine.js:559-604 | the strategic bonus lies within ±22.9 pawns, is at least -0.4 before the sign of the side, and changes sign with the side to move |
| Evaluation.BonusFavoursBiggerCaptures | chess-engine.js:597-601 | a target holding a more valuable piece earns a strictly larger bonus |
| Search.EvalMoveBonus | chess-engine.js:606-632 | `evaluateMove` is the evaluation after the move plus bonuses that never favour the opponent; it equals the plain evaluation exactly when the move neither captures nor gives check |
| Search.PriorityExact | chess-engine.js:663-666 | the priority list holds exactly the replies that capture or give check, and keeps their generation order |
| Search.CandidatesBound | chess-engine.js:652-670 | at most 2, 4 or 6 replies (depth ≥3, 2, else) are examined, all taken from the reply list and at least one when there are any. When some reply captures or checks, only such replies are examined, as many as the limit allows, and (for replies in generation order) a priority reply is examined whenever a later examined one is; otherwise the list's prefix is examined |
| Search.CandidatesPrefixClosed | chess-engine.js:663-670 | for replies in generation order, an examined reply is preceded only by examined priority replies: the truncation keeps the earliest captures and checks |
| Search.BestReplyExtreme | chess-engine.js:672-680 | the opponent's best score is the maximum (White) or minimum (Black) over the examined replies, attained by one of them, and ±Infinity when there are none |
| Search.MoveScores | chess-engine.js:537-541 | one score per move: its deep evaluation, plus the scaled strategic bonus when enabled |
| Search.PickUpToPrefix | chess-engine.js:536-555 | the loop after `n` rounds has picked from the first `n` moves |
| Search.PickFirstBest | chess-engine.js:532-557 | no move is picked exactly when no score beats ±Infinity; otherwise the pick is the first move with the strictly best score |
| Search.BestMoveIsCandidate | chess-engine.js:532-557 | the chosen move is one of the given moves, and there is one exactly when the list is non-empty, falling back to the first move |
| Search.AddPromotionMeaning | chess-engine.js:430-445 | the move keeps its squares and piece; a pawn reaching its far rank is promoted to a queen, any other move is unchanged |
| GameEnd.RowsMaterial | chess-engine.js:779-793 | the pieces collected row by row, kings removed, are the non-king material of the board in scan order |
| GameEnd.BareFlat | chess-engine.js:796 | a side has no piece but its king exactly when its collected list is empty |
| GameEnd.LoneFlat | chess-engine.js:800-810 | the collected list of a side is the one kind `k` exactly when its only non-king piece is a `k` on some square |
| GameEnd.LoneFound | chess-engine.js:816-817 | the only such piece is where `findPiecePosition` finds it |
| GameEnd.VerdictBishops | chess-engine.js:813-824 | with one bishop each, the verdict is the same-shade test |
| GameEnd.InsufficientFromRows | chess-engine.js:778-828 | the verdict from the collected lists is the verdict for the board |
| GameEnd.LoneMinor | chess-engine.js:800-810 | a side has a lone bishop or a lone knight exactly when its collected list is one of those |
| GameEnd.LoneBishops | chess-engine.js:812-824 | one bishop each on squares of the same shade exactly when both lists are one bishop and the bishops found stand on one shade |
| GameEnd.InsufficientMaterialMeaning | chess-engine.js:778-828 | the draw is declared exactly for king against king, a lone minor piece against a bare king, and one bishop each on squares of the same shade |
| GameEnd.FiftyExtends | chess-engine.js:877-889 | once the rule holds, a further quiet move keeps it holding |
| GameEnd.FiftyResets | chess-engine.js:883-884 | a pawn move or capture blocks the rule for the next 100 half-moves |
| GameEnd.CodeInjective | chess-engine.js:896-901 | with a letter per kind, different squares give different codes |
| GameEnd.BoardHashInjective | chess-engine.js:892-906 | two positions hash alike exactly when they have the same board and side to move |
| GameEnd.SourceHashCollision | chess-engine.js:898 | the hash as written gives a position with a king the same hash as the different position with kings and knights swapped |
| GameEnd.ScannedRepeats | chess-engine.js:852-871 | the matches counted by the loop are the matches among the positions scanned so far |
| GameEnd.ScannedThreefold | chess-engine.js:869-871 | two counted matches (three occurrences) mean repetition |
| GameEnd.ScannedNoThreefold | chess-engine.js:852-873 | a finished scan with fewer than two matches means no repetition |
| GameEnd.MatchesSource | chess-engine.js:862-864 | every match of the corrected hash test is a match of the test as written at chess-engine.js:898 |
| GameEnd.MatchesMeaning | chess-engine.js:862-864 | an even number of moves back, equal hashes mean an equal board |
| GameEnd.ThreefoldMeaning | chess-engine.js:844-874 | repetition is reported exactly when at least 8 half-moves were played and two earlier positions 4, 6, … half-moves back have the current board; never with fewer than 8 entries |
| GameEnd.NoMovesMeaning | chess-engine.js:735-738 | the move list is empty exactly when the side has no legal move from any of its pieces |
| GameEnd.CheckEndMeaning | chess-engine.js:709-775 | each outcome is reported exactly when its condition holds and the earlier ones do not (missing king, checkmate, stalemate, insufficient material, repetition, fifty moves), with the matching status; otherwise the status is unchanged |
| Engine.ChessEngine.IsPathClear | chess-engine.js:214-228 | the walk reports a clear path exactly when every square strictly between is empty |
| Rules.PawnRules | chess-engine.js:192-212 | a pawn moves only forward, one or two rows; two rows only from its start row with both squares ahead empty; straight ahead only onto an empty square; it changes file only by one diagonal step onto an enemy piece; and each of these moves is accepted |
| Engine.ChessEngine.IsValidPawnMove | chess-engine.js:192-212 | the result is the pawn rule on the current board, whose meaning `Rules.PawnRules` states |
| Engine.ChessEngine.IsValidPieceMove | chess-engine.js:168-190 | the move rules of each kind on the current board |
| Engine.ChessEngine.FindPiecePosition | chess-engine.js:831-841 | the first square in row-major order holding the piece, or null |
| Engine.ChessEngine.FindKing | chess-engine.js:301-311 | the first square holding the colour's king, or null |
| Engine.ChessEngine.IsInCheck | chess-engine.js:284-299 | the board-level in-check test on the current board |
| Engine.ChessEngine.Displace | chess-engine.js:153-156 | returns the moving piece and the old target, and the board becomes the relocated board |
| Engine.ChessEngine.PutBack | chess-engine.js:160-162 | writing back the two squares restores the board as it was before the relocation |
| Engine.ChessEngine.InCheckAfterRelocation | chess-engine.js:153-162 | reports check on the relocated board and leaves the board as it was |
| Engine.ChessEngine.IsValidMove | chess-engine.js:115-166 | the result is the legality of the move on the board as it was, and the board is restored afterwards |
| Engine.ChessEngine.ValidTargets | chess-engine.js:320-330 | the inner loops collect the legal targets of one piece in row-major order; the board is unchanged |
| Engine.ChessEngine.GetAllValidMoves | chess-engine.js:313-336 | the result is exactly the legal-move list, and the board is unchanged |
| Engine.ChessEngine.constructor | chess-engine.js:2-13 | a new engine has the initial board, White to move, an empty history and status `playing` |
| Engine.ChessEngine.ResetGame | chess-engine.js:984-992 | the same state as a new engine |
| Engine.ChessEngine.MakeMove | chess-engine.js:230-267 | the new state is the value-level move (one entry appended, player flipped, promotion applied, a queen by default) and the returned record is that entry |
| Engine.ChessEngine.UndoMove | chess-engine.js:269-282 | on an empty history: returns null and changes nothing; otherwise returns the last entry and the state becomes its undo |
| Engine.ChessEngine.SaveGameState | chess-engine.js:909-915 | returns a copy of board, side to move and history |
| Engine.ChessEngine.RestoreGameState | chess-engine.js:918-922 | the state becomes exactly the saved one, on a fresh board |
| Engine.ChessEngine.GetBoardHash | chess-engine.js:892-906 | the hash of the current board and side to move |
| Engine.ChessEngine.IsFiftyMoveRule | chess-engine.js:877-889 | true exactly when there are at least 100 entries and the last 100 move no pawn and capture nothing |
| Engine.ChessEngine.CollectPieces | chess-engine.js:779-789 | the kinds of each colour's pieces in row-major order |
| Engine.ChessEngine.IsInsufficientMaterial | chess-engine.js:778-828 | the insufficient-material verdict for the current board |
| Engine.ChessEngine.BishopsOnSameShade | chess-engine.js:813-824 | both bishops are found and stand on squares of the same shade |
| Engine.ChessEngine.UndoTimes | chess-engine.js:857-859 | `k` calls of `undoMove` give the `k`-fold undo of the state |
| Engine.ChessEngine.SameAsEarlier | chess-engine.js:854-867 | one round: saves, undoes `k` moves, compares hashes, restores; reports the match and leaves the state as it was |
| Engine.ChessEngine.IsThreefoldRepetition | chess-engine.js:844-874 | the repetition verdict for the state it started in, which it leaves unchanged |
| Engine.ChessEngine.CheckGameEnd | chess-engine.js:709-775 | returns the outcome and sets the status as the value-level `checkGameEnd` does; board, side and history unchanged |
| Engine.ChessEngine.CheckDrawRules | chess-engine.js:752-774 | the three draw rules in order, with status `draw` when one holds |
| Engine.ChessEngine.CheckRepetitionRules | chess-engine.js:760-771 | repetition before the fifty-move rule; the state unchanged |
| Engine.ChessEngine.IsGameOver | chess-engine.js:974-982 | an ended game stays over with its status; otherwise over exactly when `checkGameEnd` reports an outcome |
| Engine.ChessEngine.EvaluateBoard | chess-engine.js:338-354 | the static evaluation of the current board |
| Engine.ChessEngine.EvaluateMove | chess-engine.js:606-632 | the one-ply evaluation of the move; the board is restored |
| Engine.ChessEngine.WouldCauseCheck | chess-engine.js:691-706 | whether the move leaves the mover's opponent in check; the board is restored |
| Engine.ChessEngine.PriorityMoves | chess-engine.js:663-666 | the replies that capture or give check, in order; the board is unchanged |
| Engine.ChessEngine.MovesToEvaluate | chess-engine.js:653-670 | the truncated, prioritised reply list; the board is unchanged |
| Engine.ChessEngine.EvaluateMoveDeep | chess-engine.js:634-688 | the value-level deep evaluation; board and side to move restored on every path |
| Engine.ChessEngine.SearchReplies | chess-engine.js:646-687 | the opponent's best score over the examined replies; board and side restored |
| Engine.ChessEngine.BestOpponentScore | chess-engine.js:672-680 | the max/min fold over the replies' deep scores |
| Engine.ChessEngine.ScoreMove | chess-engine.js:537-541 | the score of move `i` as the selection loop computes it; board and side unchanged |
| Engine.ChessEngine.PickBest | chess-engine.js:536-555 | the loop keeps the first strictly best move among all moves |
| Engine.ChessEngine.GetBestMoveFromEvaluation | chess-engine.js:532-557 | the first strictly best move, else `moves[0]`, else null; board and side restored |
| Engine.ChessEngine.GetHardBotMove | chess-engine.js:484-505 | the same selection at depth 2 without bonus |
| Engine.ChessEngine.GetMasterBotMove | chess-engine.js:518-523 | the selection at depth 5 with the bonus times 1.5 |
| Engine.ChessEngine.GetGrandmasterBotMove | chess-engine.js:525-530 | the selection at depth 6 with the bonus times 2.0 |
| Engine.ChessEngine.AddPromotionToMove | chess-engine.js:430-445 | null stays null; a pawn move to the far rank gains a queen promotion, any other move is unchanged |

## Left out

- Floating point: scores are exact integers in hundredths of a pawn (bonus terms in tenths). The engine's binary floating-point rounding of sums such as `(6 - row) * 0.1` is not modelled.
- Randomness: `getBotMove` and the noob, easy, medium and expert tiers draw on `Math.random` and are not modelled. Their deterministic branches are the modelled `getBestMoveFromEvaluation`.
- `console.log` output, `getPieceSymbol` and the UI fields (`selectedSquare`, `gameEnded`, `gameMode`, the bot difficulties, `botSpeed`) are not modelled. The `difficultySettings` table is modelled only through the depths and multipliers of the hard, master and grandmaster tiers.
- `isKingSurrounded` is not part of this model. Nothing among the modelled operations calls it.
- Thrown errors: an off-board source row in `isValidMove` throws in the engine. The model answers false there, like an off-board column.
- Engine.ChessEngine.MakeMove: requires a piece on the source square. The engine throws a TypeError on an empty source.
- Engine.ChessEngine.WouldCauseCheck: requires a piece on the source square, for the same reason.
- Engine.ChessEngine.IsPathClear: requires source and target to be on one line. Its callers only call it then; on other squares the engine's walk leaves the board and throws.
- The promotion kind is any `Kind`, a queen by default as in the engine. The engine accepts any string, and a promotion to a non-piece string is not modelled.
- `addPromotionToMove` mutates the move object in place. The model returns the updated move instead, and aliasing of move objects is not captured.
- Move objects are values. The engine's move records share piece objects with the board; nothing in the engine mutates a piece, so this sharing is unobservable.
- Exceptions escaping in the middle of a simulation are not modelled.
- Engine.ChessEngine.GetBoardHash: computes the corrected hash (one letter per kind). The as-written hash is modelled separately as `GameEnd.SourceBoardHash`; see Findings.
- GameEnd.MatchesMeaning: holds for the corrected hash only. With the hash as written, an earlier position that differs from the current one by a king/knight exchange also matches (`GameEnd.SourceHashCollision`, `GameEnd.MatchesSource`).
- GameEnd.ThreefoldMeaning: states the verdict with the corrected hash. The engine as written also counts earlier positions that differ by a king/knight exchange, so it can report a repetition the model does not.
- GameEnd.CheckEndMeaning: its repetition outcome is the corrected-hash verdict, for the same reason.
- Engine.ChessEngine.SameAsEarlier: compares corrected hashes, so a king/knight-exchanged earlier position is not a match here, while the engine as written counts it.
- Engine.ChessEngine.IsThreefoldRepetition: returns the corrected-hash verdict, for the same reason.
- Engine.ChessEngine.CheckGameEnd: its repetition outcome is the corrected-hash verdict, for the same reason.
- Engine.ChessEngine.CheckDrawRules: its repetition draw is the corrected-hash verdict, for the same reason.
- Engine.ChessEngine.CheckRepetitionRules: uses the corrected-hash repetition verdict, for the same reason.
- Engine.ChessEngine.IsGameOver: through `checkGameEnd` it uses the corrected-hash repetition verdict, for the same reason.

## Findings

| source | as written | input that shows it | evidently intended | confidence | as-written member | corrected member |
|---|---|---|---|---|---|---|
| chess-engine.js:898 | `${piece.color[0]}${piece.type[0]}` gives "knight" and "king" the same letter `k` | any position with a king, compared with the same position with every king and knight of each colour exchanged: both hash to the same string | one letter per kind (e.g. `n` for the knight), so that equal hashes mean equal positions, as the repetition check assumes | not executed | GameEnd.SourceHashCollision | GameEnd.BoardHashInjective |
