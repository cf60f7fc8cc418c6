/** Making and taking back moves, as functions of the whole engine state:
    the board, the side to move and the move history (`makeMove`,
    `undoMove`, chess-engine.js:230-282). */
module History {
  import opened ChessTypes

  /** What `saveGameState` copies and `restoreGameState` puts back. */
  datatype State = State(board: Board, player: Color, history: seq<Entry>)

  /** A pawn of `p` reaching the far rank is promoted. */
  predicate Promotes(p: Piece, tr: int)
  {
    p.kind == Pawn && ((p.color == White && tr == 0) || (p.color == Black && tr == 7))
  }

  /** The board after `sq` is written on `to` and then `from` is emptied. */
  function Place(b: Board, fr: Coord, fc: Coord, tr: Coord, tc: Coord, sq: Square): (r: Board)
    ensures r[fr][fc] == None
    ensures !(fr == tr && fc == tc) ==> r[tr][tc] == sq
    ensures forall i, j | InBounds(i, j) && !(i == fr && j == fc) && !(i == tr && j == tc) ::
              r[i][j] == b[i][j]
  {
    var b1 := b[tr := b[tr][tc := sq]];
    b1[fr := b1[fr][fc := None]]
  }

  /** The record `makeMove` pushes: the piece as it was before any
      promotion, what stood on the target, the side to move and the
      promotion kind when the move promotes. */
  function MakeEntry(s: State, fr: Coord, fc: Coord, tr: Coord, tc: Coord, promotion: Kind): Entry
    requires s.board[fr][fc].Some?
  {
    var piece := s.board[fr][fc].value;
    Entry(Pos(fr, fc), Pos(tr, tc), piece, s.board[tr][tc], s.player,
          if Promotes(piece, tr) then Some(promotion) else None)
  }

  /** `makeMove` (chess-engine.js:230-267): no legality check; the mover is
      written on `to` (promoted when a pawn reaches the far rank), `from` is
      emptied, the record is appended and the side to move flips. */
  function Make(s: State, fr: Coord, fc: Coord, tr: Coord, tc: Coord, promotion: Kind := Queen): (r: State)
    requires s.board[fr][fc].Some?
    ensures |r.history| == |s.history| + 1 && r.history[..|s.history|] == s.history
    ensures r.history[|s.history|] == MakeEntry(s, fr, fc, tr, tc, promotion)
    ensures r.player == Opponent(s.player)
  {
    var piece := s.board[fr][fc].value;
    var finalPiece := if Promotes(piece, tr) then Piece(promotion, piece.color) else piece;
    State(Place(s.board, fr, fc, tr, tc, Some(finalPiece)), Opponent(s.player),
          s.history + [MakeEntry(s, fr, fc, tr, tc, promotion)])
  }

  /** Where the piece lands: a pawn reaching the far rank becomes the
      requested kind, of its own colour, and every other piece stays itself;
      the source square is empty and no other square changes. */
  lemma MakeBoard(s: State, fr: Coord, fc: Coord, tr: Coord, tc: Coord, promotion: Kind)
    requires s.board[fr][fc].Some? && !(fr == tr && fc == tc)
    ensures var p := s.board[fr][fc].value;
      Make(s, fr, fc, tr, tc, promotion).board[tr][tc] ==
        Some(if Promotes(p, tr) then Piece(promotion, p.color) else p)
    ensures Make(s, fr, fc, tr, tc, promotion).board[fr][fc] == None
    ensures forall i, j | InBounds(i, j) && !(i == fr && j == fc) && !(i == tr && j == tc) ::
              Make(s, fr, fc, tr, tc, promotion).board[i][j] == s.board[i][j]
  {
  }

  /** Without a requested kind a pawn reaching the far rank becomes a queen
      of its own colour; every other piece lands as itself. */
  lemma MakeDefaultQueen(s: State, fr: Coord, fc: Coord, tr: Coord, tc: Coord)
    requires s.board[fr][fc].Some? && !(fr == tr && fc == tc)
    ensures var p := s.board[fr][fc].value;
      Make(s, fr, fc, tr, tc).board[tr][tc] == Some(if Promotes(p, tr) then Piece(Queen, p.color) else p)
  {
    MakeBoard(s, fr, fc, tr, tc, Queen);
  }

  /** `undoMove` on a non-empty history (chess-engine.js:269-282): the
      recorded piece goes back on `from`, the recorded capture back on `to`,
      the record is dropped and the side to move flips. */
  function Undo(s: State): (r: State)
    requires |s.history| > 0
    ensures r.history == s.history[..|s.history| - 1]
    ensures r.player == Opponent(s.player)
  {
    var e := s.history[|s.history| - 1];
    var b1 := s.board[e.from.row := s.board[e.from.row][e.from.col := Some(e.piece)]];
    var b2 := b1[e.to.row := b1[e.to.row][e.to.col := e.captured]];
    State(b2, Opponent(s.player), s.history[..|s.history| - 1])
  }

  /** Taking back a move restores the state it was made in: board (with a
      promoted piece turned back into the pawn), side to move and history. */
  lemma UndoMake(s: State, fr: Coord, fc: Coord, tr: Coord, tc: Coord, promotion: Kind)
    requires s.board[fr][fc].Some?
    ensures Undo(Make(s, fr, fc, tr, tc, promotion)) == s
  {
    var u := Undo(Make(s, fr, fc, tr, tc, promotion));
    forall i | 0 <= i < 8
      ensures u.board[i] == s.board[i]
    {
      assert forall j | 0 <= j < 8 :: u.board[i][j] == s.board[i][j];
    }
  }

  /** `n` successive `undoMove` calls. */
  function UndoN(s: State, n: nat): (r: State)
    requires n <= |s.history|
    decreases n
    ensures r.history == s.history[..|s.history| - n]
  {
    if n == 0 then s else UndoN(Undo(s), n - 1)
  }

  /** The first of `n` take-backs. */
  lemma UndoNUnfold(s: State, n: nat, rest: nat)
    requires 0 < n <= |s.history| && rest == n - 1
    ensures UndoN(s, n) == UndoN(Undo(s), rest)
  {
  }

  lemma PrefixOfPrefix<T>(xs: seq<T>, n: nat, m: nat)
    requires m <= n <= |xs|
    ensures xs[..n][..m] == xs[..m]
  {
  }

  /** An even number of take-backs leaves the same side to move. */
  lemma {:induction false} UndoNPlayer(s: State, n: nat)
    requires n <= |s.history|
    decreases n
    ensures UndoN(s, n).player == (if n % 2 == 0 then s.player else Opponent(s.player))
  {
    if n > 0 {
      UndoNPlayer(Undo(s), n - 1);
    }
  }

  /** Taking back one more move after `n` take-backs. */
  lemma {:induction false} UndoNSnoc(s: State, n: nat)
    requires n < |s.history|
    decreases n
    ensures |UndoN(s, n).history| > 0
    ensures UndoN(s, n + 1) == Undo(UndoN(s, n))
  {
    if n > 0 {
      UndoNSnoc(Undo(s), n - 1);
    }
  }

  /** A move of a game: source square, target square, promotion kind. */
  datatype Ply = Ply(from: Pos, to: Pos, promotion: Kind)

  /** Every ply of `ps` starts from an occupied square when its turn comes. */
  predicate Playable(s: State, ps: seq<Ply>)
    decreases |ps|
  {
    |ps| == 0 ||
    (s.board[ps[0].from.row][ps[0].from.col].Some? &&
     Playable(Make(s, ps[0].from.row, ps[0].from.col, ps[0].to.row, ps[0].to.col, ps[0].promotion), ps[1..]))
  }

  /** The state after `makeMove` is called for each ply of `ps` in turn. */
  function Replay(s: State, ps: seq<Ply>): (r: State)
    requires Playable(s, ps)
    decreases |ps|
    ensures |r.history| == |s.history| + |ps|
  {
    if |ps| == 0 then s
    else Replay(Make(s, ps[0].from.row, ps[0].from.col, ps[0].to.row, ps[0].to.col, ps[0].promotion), ps[1..])
  }

  /** The plies of a game can be replayed one at a time: the last ply is
      made on the state the earlier ones lead to. */
  lemma {:induction false} ReplaySnoc(s: State, ps: seq<Ply>)
    requires |ps| > 0 && Playable(s, ps)
    decreases |ps|
    ensures Playable(s, ps[..|ps| - 1])
    ensures var q := Replay(s, ps[..|ps| - 1]);
      var p := ps[|ps| - 1];
      q.board[p.from.row][p.from.col].Some? &&
      Replay(s, ps) == Make(q, p.from.row, p.from.col, p.to.row, p.to.col, p.promotion)
  {
    var s1 := Make(s, ps[0].from.row, ps[0].from.col, ps[0].to.row, ps[0].to.col, ps[0].promotion);
    if |ps| > 1 {
      ReplaySnoc(s1, ps[1..]);
      assert ps[1..][..|ps[1..]| - 1] == ps[..|ps| - 1][1..];
    }
  }

  /** Taking back the last move of a replayed game gives the state the
      earlier moves lead to. */
  lemma UndoReplayLast(s: State, ps: seq<Ply>)
    requires |ps| > 0 && Playable(s, ps)
    ensures Playable(s, ps[..|ps| - 1])
    ensures Undo(Replay(s, ps)) == Replay(s, ps[..|ps| - 1])
  {
    ReplaySnoc(s, ps);
    var p := ps[|ps| - 1];
    UndoMake(Replay(s, ps[..|ps| - 1]), p.from.row, p.from.col, p.to.row, p.to.col, p.promotion);
  }

  /** Taking back `k` moves of a replayed game gives the state the game was
      in `k` moves earlier; taking back all of them gives the start. This is
      what the repetition check relies on when it undoes moves to look at
      earlier positions. */
  lemma {:induction false} UndoReplay(s: State, ps: seq<Ply>, k: nat)
    requires Playable(s, ps) && k <= |ps|
    decreases k
    ensures Playable(s, ps[..|ps| - k])
    ensures UndoN(Replay(s, ps), k) == Replay(s, ps[..|ps| - k])
  {
    if k > 0 {
      var init := ps[..|ps| - 1];
      var k' := k - 1;
      var r := Replay(s, ps);
      UndoReplayLast(s, ps);
      UndoNUnfold(r, k, k');
      UndoReplay(s, init, k');
      var m := |init| - k';
      PrefixOfPrefix(ps, |ps| - 1, m);
      assert m == |ps| - k;
    } else {
      assert ps[..|ps|] == ps;
    }
  }
}
