/** The bot's search (chess-engine.js:430-706): one-ply evaluation of a
    move, the "would it give check" test, the pruned look-ahead of
    `evaluateMoveDeep`, and the choice of the best-scoring move. Scores are
    hundredths of a pawn, with the two infinities the search starts from. */
module Search {
  import opened ChessTypes
  import opened Rules
  import opened Evaluation

  function Relocated(b: Board, m: Move): Board
  {
    Relocate(b, m.from.row, m.from.col, m.to.row, m.to.col)
  }

  /** `evaluateMove` (chess-engine.js:606-632), with `player` the side to
      move: the evaluation of the board after the move, plus the value of
      the captured piece and 2 pawns when the move gives check, both in
      favour of `player`. */
  function EvalMove(b: Board, player: Color, m: Move): int
  {
    var after := Relocated(b, m);
    Evaluate(after) +
    (match b[m.to.row][m.to.col] case Some(q) => PieceValue(q.kind) * Sign(player) case None => 0) +
    (if InCheck(after, Opponent(player)) then 200 * Sign(player) else 0)
  }

  /** The bonuses of `evaluateMove` always favour the side to move, and
      they are absent exactly for a quiet move that gives no check. */
  lemma EvalMoveBonus(b: Board, player: Color, m: Move)
    ensures Sign(player) * (EvalMove(b, player, m) - Evaluate(Relocated(b, m))) >= 0
    ensures EvalMove(b, player, m) == Evaluate(Relocated(b, m)) <==>
      b[m.to.row][m.to.col].None? && !InCheck(Relocated(b, m), Opponent(player))
  {
  }

  /** `wouldCauseCheck` (chess-engine.js:691-706): after the move, the
      opponent of the moving piece is in check. */
  predicate WouldCheck(b: Board, m: Move)
    requires b[m.from.row][m.from.col].Some?
  {
    InCheck(Relocated(b, m), Opponent(b[m.from.row][m.from.col].value.color))
  }

  /** All moves start from an occupied square. */
  predicate FromOccupied(b: Board, ms: seq<Move>)
  {
    forall i | 0 <= i < |ms| :: b[ms[i].from.row][ms[i].from.col].Some?
  }

  /** A reply `evaluateMoveDeep` looks at first: a capture or a check. */
  predicate IsPriority(b: Board, m: Move)
    requires b[m.from.row][m.from.col].Some?
  {
    b[m.to.row][m.to.col].Some? || WouldCheck(b, m)
  }

  /** `opponentMoves.filter(...)` (chess-engine.js:665-668), in order. */
  function Priority(b: Board, ms: seq<Move>): (r: seq<Move>)
    requires FromOccupied(b, ms)
    ensures |r| <= |ms|
  {
    if |ms| == 0 then []
    else Priority(b, ms[..|ms| - 1]) + (if IsPriority(b, ms[|ms| - 1]) then [ms[|ms| - 1]] else [])
  }

  /** The priority moves are exactly the captures and checks, and the
      filter keeps the generation order of the replies. */
  lemma PriorityExact(b: Board, ms: seq<Move>)
    requires FromOccupied(b, ms)
    ensures forall m | m in Priority(b, ms) :: m in ms && IsPriority(b, m)
    ensures forall i | 0 <= i < |ms| && IsPriority(b, ms[i]) :: ms[i] in Priority(b, ms)
    ensures InMoveOrder(ms) ==> InMoveOrder(Priority(b, ms))
  {
    PriorityMembers(b, ms);
    if InMoveOrder(ms) {
      PriorityOrdered(b, ms);
    }
  }

  lemma {:induction false} PriorityMembers(b: Board, ms: seq<Move>)
    requires FromOccupied(b, ms)
    ensures forall m | m in Priority(b, ms) :: m in ms && IsPriority(b, m)
    ensures forall i | 0 <= i < |ms| && IsPriority(b, ms[i]) :: ms[i] in Priority(b, ms)
  {
    if |ms| > 0 {
      var init := ms[..|ms| - 1];
      assert FromOccupied(b, init);
      PriorityMembers(b, init);
      forall i | 0 <= i < |ms| && IsPriority(b, ms[i])
        ensures ms[i] in Priority(b, ms)
      {
        if i < |ms| - 1 {
          assert ms[i] == init[i];
        }
      }
    }
  }

  lemma {:induction false} PriorityOrdered(b: Board, ms: seq<Move>)
    requires FromOccupied(b, ms) && InMoveOrder(ms)
    ensures InMoveOrder(Priority(b, ms))
  {
    if |ms| > 0 {
      var init := ms[..|ms| - 1];
      var last := ms[|ms| - 1];
      assert FromOccupied(b, init);
      assert InMoveOrder(init) by {
        forall x, y | 0 <= x < y < |init| ensures MoveBefore(init[x], init[y]) {
          assert init[x] == ms[x] && init[y] == ms[y];
        }
      }
      PriorityOrdered(b, init);
      if IsPriority(b, last) {
        var p := Priority(b, init);
        PriorityMembers(b, init);
        forall x | 0 <= x < |p| ensures MoveBefore(p[x], last) {
          assert p[x] in init;
          var k :| 0 <= k < |init| && init[k] == p[x];
          assert ms[k] == p[x];
        }
        OrderSnoc(p, last);
      }
    }
  }

  /** Appending a move that comes after every listed one keeps the order. */
  lemma OrderSnoc(p: seq<Move>, m: Move)
    requires InMoveOrder(p)
    requires forall x | 0 <= x < |p| :: MoveBefore(p[x], m)
    ensures InMoveOrder(p + [m])
  {
    var q := p + [m];
    forall x, y | 0 <= x < y < |q| ensures MoveBefore(q[x], q[y]) {
      if y < |p| {
        assert q[x] == p[x] && q[y] == p[y];
      } else {
        assert q[x] == p[x];
      }
    }
  }

  /** In an ordered list, a move that comes before a listed move at index
      `j` is listed before `j`, if it is listed at all. */
  lemma OrderedPrefix(p: seq<Move>, a: Move, j: nat)
    requires InMoveOrder(p) && j < |p| && a in p && MoveBefore(a, p[j])
    ensures a in p[..j]
  {
    var k :| 0 <= k < |p| && p[k] == a;
    assert k < j;
    assert p[..j][k] == a;
  }

  /** `moveLimit` (chess-engine.js:653-660). */
  function Limit(depth: nat): nat
  {
    if depth >= 3 then 2 else if depth == 2 then 4 else 6
  }

  function Min(a: nat, b: nat): nat
  {
    if a < b then a else b
  }

  /** `movesToEvaluate` (chess-engine.js:670-672): the first `moveLimit`
      captures and checks if there are any, else the first `moveLimit`
      replies. */
  function Candidates(b: Board, replies: seq<Move>, depth: nat): seq<Move>
    requires FromOccupied(b, replies)
  {
    var pri := Priority(b, replies);
    var pool := if |pri| > 0 then pri else replies;
    pool[..Min(Limit(depth), |pool|)]
  }

  /** The look-ahead examines at most 2, 4 or 6 replies, every one of them a
      reply; when some reply captures or gives check, only such replies are
      examined; otherwise the first replies in generation order are. */
  lemma CandidatesBound(b: Board, replies: seq<Move>, depth: nat)
    requires FromOccupied(b, replies)
    ensures var cs := Candidates(b, replies, depth);
      |cs| <= Limit(depth) && |cs| <= |replies| &&
      (forall m | m in cs :: m in replies) &&
      (|replies| > 0 ==> |cs| > 0)
    ensures (exists i | 0 <= i < |replies| :: IsPriority(b, replies[i])) ==>
      forall m | m in Candidates(b, replies, depth) :: IsPriority(b, m)
    ensures (forall i | 0 <= i < |replies| :: !IsPriority(b, replies[i])) ==>
      Candidates(b, replies, depth) == replies[..Min(Limit(depth), |replies|)]
    ensures (exists i | 0 <= i < |replies| :: IsPriority(b, replies[i])) ==>
      |Candidates(b, replies, depth)| == Min(Limit(depth), |Priority(b, replies)|)
    ensures InMoveOrder(replies) ==>
      forall i, j | 0 <= i < j < |replies| && IsPriority(b, replies[i]) && replies[j] in Candidates(b, replies, depth) ::
        replies[i] in Candidates(b, replies, depth)
  {
    PriorityNonEmpty(b, replies);
    var pri := Priority(b, replies);
    var cs := Candidates(b, replies, depth);
    if |pri| > 0 {
      CandidatesFromPriority(b, replies, depth);
    } else {
      CandidatesWithoutPriority(b, replies, depth);
    }
    if InMoveOrder(replies) {
      CandidatesPrefixClosed(b, replies, depth);
    }
  }

  /** Without captures and checks, the examined replies are the first ones. */
  lemma CandidatesWithoutPriority(b: Board, replies: seq<Move>, depth: nat)
    requires FromOccupied(b, replies) && |Priority(b, replies)| == 0
    ensures var cs := Candidates(b, replies, depth);
      cs == replies[..Min(Limit(depth), |replies|)] &&
      (|replies| > 0 ==> |cs| > 0) &&
      forall m | m in cs :: m in replies
  {
    var cs := Candidates(b, replies, depth);
    assert cs == replies[..Min(Limit(depth), |replies|)];
    forall m | m in cs ensures m in replies {
      var k :| 0 <= k < |cs| && cs[k] == m;
      assert replies[k] == m;
    }
  }

  /** Some reply captures or checks exactly when the priority list is not
      empty. */
  lemma PriorityNonEmpty(b: Board, replies: seq<Move>)
    requires FromOccupied(b, replies)
    ensures (exists i | 0 <= i < |replies| :: IsPriority(b, replies[i])) <==> |Priority(b, replies)| > 0
  {
    PriorityMembers(b, replies);
    var pri := Priority(b, replies);
    if |pri| > 0 {
      assert pri[0] in pri;
      var i :| 0 <= i < |replies| && replies[i] == pri[0];
      assert IsPriority(b, replies[i]);
    }
    if exists i | 0 <= i < |replies| :: IsPriority(b, replies[i]) {
      var i :| 0 <= i < |replies| && IsPriority(b, replies[i]);
      assert replies[i] in pri;
    }
  }

  /** With some capture or check, the examined replies are the first of
      them, as many as the limit allows. */
  lemma CandidatesFromPriority(b: Board, replies: seq<Move>, depth: nat)
    requires FromOccupied(b, replies) && |Priority(b, replies)| > 0
    ensures var cs := Candidates(b, replies, depth);
      cs == Priority(b, replies)[..|cs|] &&
      |cs| == Min(Limit(depth), |Priority(b, replies)|) && |cs| > 0 &&
      forall m | m in cs :: m in replies && IsPriority(b, m)
  {
    PriorityMembers(b, replies);
    var pri := Priority(b, replies);
    var cs := Candidates(b, replies, depth);
    assert cs == pri[..Min(Limit(depth), |pri|)];
    assert forall m | m in cs :: m in pri;
  }

  /** Truncation keeps earlier priority replies before later ones. */
  lemma CandidatesPrefixClosed(b: Board, replies: seq<Move>, depth: nat)
    requires FromOccupied(b, replies) && InMoveOrder(replies)
    ensures forall i, j | 0 <= i < j < |replies| && IsPriority(b, replies[i]) && replies[j] in Candidates(b, replies, depth) ::
      replies[i] in Candidates(b, replies, depth)
  {
    PriorityExact(b, replies);
    var pri := Priority(b, replies);
    var cs := Candidates(b, replies, depth);
    if |pri| > 0 {
      CandidatesFromPriority(b, replies, depth);
      forall i, j | 0 <= i < j < |replies| && IsPriority(b, replies[i]) && replies[j] in cs
        ensures replies[i] in cs
      {
        assert MoveBefore(replies[i], replies[j]);
        TruncatedOrder(pri, |cs|, replies[i], replies[j]);
      }
    } else {
      PriorityNonEmpty(b, replies);
    }
  }

  /** In an ordered list cut after `n` moves, a listed move that comes
      before a kept one is kept too. */
  lemma TruncatedOrder(p: seq<Move>, n: nat, a: Move, m: Move)
    requires InMoveOrder(p) && n <= |p| && a in p && m in p[..n] && MoveBefore(a, m)
    ensures a in p[..n]
  {
    var q :| 0 <= q < n && p[..n][q] == m;
    assert p[q] == m;
    OrderedPrefix(p, a, q);
    assert p[..q] <= p[..n];
  }

  /** The score `evaluateMoveDeep` starts from for the side `p` to move. */
  function Worst(p: Color): Score
  {
    if p == White then NegInf else PosInf
  }

  /** `Math.max` for White, `Math.min` for Black. */
  function Better(p: Color, best: Score, s: Score): Score
  {
    if p == White then MaxScore(best, s) else MinScore(best, s)
  }

  /** `evaluateMoveDeep` (chess-engine.js:634-688), with `player` the side
      to move: at depth 0 the one-ply evaluation; otherwise make the move,
      let the opponent answer with each examined reply searched one level
      shallower, and keep the best score for the opponent. */
  function EvalDeep(b: Board, player: Color, m: Move, depth: nat): Score
    decreases depth, 0, 0
  {
    if depth == 0 then Fin(EvalMove(b, player, m))
    else
      var after := Relocated(b, m);
      var opp := Opponent(player);
      BestReply(after, opp, Examined(after, opp, depth), depth - 1)
  }

  /** The replies of `p` that `evaluateMoveDeep` examines at `depth`. */
  function Examined(b: Board, p: Color, depth: nat): seq<Move>
  {
    AllValidMovesExact(b, p);
    Candidates(b, AllValidMoves(b, p), depth)
  }

  /** The score the loop of `evaluateMoveDeep` ends with after examining
      the replies `ms` for the side `p`. */
  function BestReply(b: Board, p: Color, ms: seq<Move>, depth: nat): Score
    decreases depth, 1, |ms|
  {
    if |ms| == 0 then Worst(p)
    else Better(p, BestReply(b, p, ms[..|ms| - 1], depth), EvalDeep(b, p, ms[|ms| - 1], depth))
  }

  /** The replies' score with the examined replies named. */
  lemma BestReplyOf(b: Board, p: Color, depth: nat, ms: seq<Move>)
    requires depth > 0 && ms == Examined(b, p, depth)
    ensures BestReply(b, p, Examined(b, p, depth), depth - 1) == BestReply(b, p, ms, depth - 1)
  {
  }

  /** The replies' score with the depth below named. */
  lemma BestReplyBelow(b: Board, p: Color, depth: nat, ms: seq<Move>, below: nat)
    requires depth > 0 && below == depth - 1
    ensures BestReply(b, p, ms, depth - 1) == BestReply(b, p, ms, below)
  {
  }

  /** The opponent picks its best examined reply: for White the maximum, for
      Black the minimum, of the replies' scores; with no reply to examine
      the score is the starting infinity. */
  lemma {:induction false} BestReplyExtreme(b: Board, p: Color, ms: seq<Move>, depth: nat)
    ensures |ms| == 0 ==> BestReply(b, p, ms, depth) == Worst(p)
    ensures |ms| > 0 ==> exists i | 0 <= i < |ms| :: BestReply(b, p, ms, depth) == EvalDeep(b, p, ms[i], depth)
    ensures forall i | 0 <= i < |ms| ::
      if p == White then !BestReply(b, p, ms, depth).Less(EvalDeep(b, p, ms[i], depth))
      else !EvalDeep(b, p, ms[i], depth).Less(BestReply(b, p, ms, depth))
  {
    if |ms| > 0 {
      var init := ms[..|ms| - 1];
      BestReplyExtreme(b, p, init, depth);
      var r0 := BestReply(b, p, init, depth);
      var last := EvalDeep(b, p, ms[|ms| - 1], depth);
      var r := BestReply(b, p, ms, depth);
      assert r == Better(p, r0, last);
      if |init| == 0 {
        assert r0 == Worst(p);
        assert r == last by {
          if p == White {
            assert !last.Less(NegInf);
          } else {
            assert !PosInf.Less(last);
          }
        }
      } else {
        var j :| 0 <= j < |init| && r0 == EvalDeep(b, p, init[j], depth);
        assert init[j] == ms[j];
      }
      forall i | 0 <= i < |ms|
        ensures if p == White then !r.Less(EvalDeep(b, p, ms[i], depth))
                else !EvalDeep(b, p, ms[i], depth).Less(r)
      {
        if i < |ms| - 1 {
          assert ms[i] == init[i];
          ScoreOrderTransitive(p, r0, r, EvalDeep(b, p, ms[i], depth));
        }
      }
    }
  }

  /** Improving on a score that already bounds `s` still bounds it. */
  lemma ScoreOrderTransitive(p: Color, r0: Score, r: Score, s: Score)
    requires r == Better(p, r0, r)
    requires if p == White then !r0.Less(s) else !s.Less(r0)
    ensures if p == White then !r.Less(s) else !s.Less(r)
  {
  }

  /** The score `getBestMoveFromEvaluation` gives a move: its look-ahead
      score plus, when asked for, the strategic bonus scaled by a
      multiplier given in tenths. An infinite score stays infinite. */
  function MoveScore(b: Board, h: seq<Entry>, player: Color, m: Move, depth: nat,
                     useBonus: bool, multTenths: nat): Score
  {
    var s := EvalDeep(b, player, m, depth);
    if useBonus then s.Plus(StrategicTenths(b[m.to.row][m.to.col], h, player, m) * multTenths)
    else s
  }

  /** `score > bestScore` for White, `score < bestScore` for Black. */
  predicate Improves(p: Color, s: Score, best: Score)
  {
    if p == White then best.Less(s) else s.Less(best)
  }

  /** The loop of `getBestMoveFromEvaluation` (chess-engine.js:532-557):
      after the moves `ms` with scores `scores`, the move kept so far (if
      any) and its score. */
  function Pick(p: Color, ms: seq<Move>, scores: seq<Score>): (Option<Move>, Score)
    requires |ms| == |scores|
  {
    if |ms| == 0 then (None, Worst(p))
    else
      var prev := Pick(p, ms[..|ms| - 1], scores[..|scores| - 1]);
      if Improves(p, scores[|ms| - 1], prev.1) then (Some(ms[|ms| - 1]), scores[|ms| - 1]) else prev
  }

  /** `Pick` over the first `n` moves, counted by index rather than by
      prefix: the state of the loop after `n` rounds. */
  function PickUpTo(p: Color, ms: seq<Move>, scores: seq<Score>, n: nat): (Option<Move>, Score)
    requires |ms| == |scores| && n <= |ms|
  {
    if n == 0 then (None, Worst(p))
    else
      var prev := PickUpTo(p, ms, scores, n - 1);
      if Improves(p, scores[n - 1], prev.1) then (Some(ms[n - 1]), scores[n - 1]) else prev
  }

  /** One more round of the loop: the kept move and best score are
      replaced exactly when the next score improves on the best so far. */
  lemma PickStep(p: Color, ms: seq<Move>, scores: seq<Score>, i: nat, next: nat,
                 kept: Option<Move>, best: Score, kept': Option<Move>, best': Score)
    requires |ms| == |scores| && i < |ms| && next == i + 1
    requires (kept, best) == PickUpTo(p, ms, scores, i)
    requires (kept', best') == if Improves(p, scores[i], best) then (Some(ms[i]), scores[i]) else (kept, best)
    ensures (kept', best') == PickUpTo(p, ms, scores, next)
  {
  }

  /** Counting rounds by index agrees with `Pick` on the prefixes. */
  lemma {:induction false} PickUpToPrefix(p: Color, ms: seq<Move>, scores: seq<Score>, n: nat)
    requires |ms| == |scores| && n <= |ms|
    ensures PickUpTo(p, ms, scores, n) == Pick(p, ms[..n], scores[..n])
  {
    if n > 0 {
      PickUpToPrefix(p, ms, scores, n - 1);
      assert ms[..n][..n - 1] == ms[..n - 1] && scores[..n][..n - 1] == scores[..n - 1];
    }
  }

  /** `bestMove || moves[0]`; `moves[0]` of an empty list is nothing. */
  function Choose(p: Color, ms: seq<Move>, scores: seq<Score>): Option<Move>
    requires |ms| == |scores|
  {
    match Pick(p, ms, scores).0
    case Some(m) => Some(m)
    case None => if |ms| > 0 then Some(ms[0]) else None
  }

  /** Score `i` is the first strictly best one: no score beats it and it
      beats every earlier one. */
  predicate FirstBest(p: Color, scores: seq<Score>, i: int)
    requires 0 <= i < |scores|
  {
    (forall j | 0 <= j < |scores| :: !Improves(p, scores[j], scores[i])) &&
    (forall j | 0 <= j < i :: Improves(p, scores[i], scores[j]))
  }

  /** The kept move is the first one whose score is strictly best; no move
      is kept only when no score beats the starting infinity. */
  lemma {:induction false} PickFirstBest(p: Color, ms: seq<Move>, scores: seq<Score>)
    requires |ms| == |scores|
    ensures var r := Pick(p, ms, scores);
      r.0.None? <==> forall j | 0 <= j < |scores| :: !Improves(p, scores[j], Worst(p))
    ensures var r := Pick(p, ms, scores);
      r.0.None? ==> r.1 == Worst(p)
    ensures var r := Pick(p, ms, scores);
      r.0.Some? ==> exists i | 0 <= i < |ms| ::
        r.0.value == ms[i] && r.1 == scores[i] && FirstBest(p, scores, i)
  {
    if |ms| > 0 {
      var n := |ms| - 1;
      var ms0, sc0 := ms[..n], scores[..n];
      PickFirstBest(p, ms0, sc0);
      var prev := Pick(p, ms0, sc0);
      assert forall k | 0 <= k < n :: scores[k] == sc0[k];
      if Improves(p, scores[n], prev.1) {
        if prev.0.None? {
          PickFromNothing(p, scores);
        } else {
          var i :| 0 <= i < n && prev.0.value == ms0[i] && prev.1 == sc0[i] && FirstBest(p, sc0, i);
          PickOvertakes(p, scores, i);
        }
      } else if prev.0.Some? {
        var i :| 0 <= i < n && prev.0.value == ms0[i] && prev.1 == sc0[i] && FirstBest(p, sc0, i);
        assert ms[i] == ms0[i];
        PickKeeps(p, scores, i);
      }
    }
  }

  /** The last score is the first to beat the starting infinity. */
  lemma PickFromNothing(p: Color, scores: seq<Score>)
    requires |scores| > 0
    requires forall j | 0 <= j < |scores| - 1 :: !Improves(p, scores[j], Worst(p))
    requires Improves(p, scores[|scores| - 1], Worst(p))
    ensures FirstBest(p, scores, |scores| - 1)
  {
    var n := |scores| - 1;
    forall j | 0 <= j < n
      ensures Improves(p, scores[n], scores[j])
    {
      ImprovesOnWorst(p, scores[j], scores[n]);
    }
  }

  /** The last score beats the best of the earlier ones. */
  lemma PickOvertakes(p: Color, scores: seq<Score>, i: int)
    requires 0 <= i < |scores| - 1
    requires FirstBest(p, scores[..|scores| - 1], i)
    requires Improves(p, scores[|scores| - 1], scores[i])
    ensures FirstBest(p, scores, |scores| - 1)
  {
    var n := |scores| - 1;
    forall j | 0 <= j < n
      ensures Improves(p, scores[n], scores[j])
    {
      assert scores[..n][j] == scores[j];
      ImprovesChain(p, scores[j], scores[i], scores[n]);
    }
  }

  /** The last score does not beat the best of the earlier ones. */
  lemma PickKeeps(p: Color, scores: seq<Score>, i: int)
    requires 0 <= i < |scores| - 1
    requires FirstBest(p, scores[..|scores| - 1], i)
    requires !Improves(p, scores[|scores| - 1], scores[i])
    ensures FirstBest(p, scores, i)
  {
    var n := |scores| - 1;
    assert forall j | 0 <= j < n :: scores[..n][j] == scores[j];
  }

  /** Scores are totally ordered: what does not beat the best so far is
      beaten by whatever beats the best so far. */
  lemma ImprovesChain(p: Color, s: Score, mid: Score, t: Score)
    requires !Improves(p, s, mid) && Improves(p, t, mid)
    ensures Improves(p, t, s)
  {
  }

  lemma ImprovesOnWorst(p: Color, s: Score, t: Score)
    requires !Improves(p, s, Worst(p)) && Improves(p, t, Worst(p))
    ensures Improves(p, t, s)
  {
  }

  /** The scores of `ms` as `getBestMoveFromEvaluation` computes them. */
  function MoveScores(b: Board, h: seq<Entry>, player: Color, ms: seq<Move>, depth: nat,
                      useBonus: bool, multTenths: nat): (r: seq<Score>)
    ensures |r| == |ms|
    ensures forall i {:trigger r[i]} | 0 <= i < |ms| :: r[i] == MoveScore(b, h, player, ms[i], depth, useBonus, multTenths)
  {
    if |ms| == 0 then []
    else MoveScores(b, h, player, ms[..|ms| - 1], depth, useBonus, multTenths)
         + [MoveScore(b, h, player, ms[|ms| - 1], depth, useBonus, multTenths)]
  }

  /** `getBestMoveFromEvaluation(moves, depth, useBonus, multiplier)`. */
  function BestMove(b: Board, h: seq<Entry>, player: Color, ms: seq<Move>, depth: nat,
                    useBonus: bool := false, multTenths: nat := 10): Option<Move>
  {
    Choose(player, ms, MoveScores(b, h, player, ms, depth, useBonus, multTenths))
  }

  /** The chosen move is one of the candidates, and there is one whenever
      there are candidates. */
  lemma BestMoveIsCandidate(b: Board, h: seq<Entry>, player: Color, ms: seq<Move>, depth: nat,
                            useBonus: bool, multTenths: nat)
    ensures var r := BestMove(b, h, player, ms, depth, useBonus, multTenths);
      (r.Some? <==> |ms| > 0) && (r.Some? ==> r.value in ms)
  {
    var scores := MoveScores(b, h, player, ms, depth, useBonus, multTenths);
    PickFirstBest(player, ms, scores);
  }

  /** `addPromotionToMove` (chess-engine.js:430-445): a pawn move to the far
      rank is marked as promoting to a queen; `mover` is the square the move
      starts from. */
  function AddPromotion(mover: Square, m: Option<Move>): (r: Option<Move>)
    ensures r.None? <==> m.None?
  {
    match m
    case None => None
    case Some(mv) =>
      if mover.Some? && mover.value.kind == Pawn &&
         ((mover.value.color == White && mv.to.row == 0) || (mover.value.color == Black && mv.to.row == 7))
      then Some(mv.(promotion := Some(Queen)))
      else m
  }

  /** Only the promotion field can change, and it becomes a queen exactly
      for a pawn reaching the far rank. */
  lemma AddPromotionMeaning(mover: Square, mv: Move)
    ensures var r := AddPromotion(mover, Some(mv)).value;
      r.from == mv.from && r.to == mv.to && r.piece == mv.piece
    ensures var r := AddPromotion(mover, Some(mv)).value;
      (mover.Some? && mover.value.kind == Pawn && mv.to.row == (if mover.value.color == White then 0 else 7))
      ==> r.promotion == Some(Queen)
    ensures var r := AddPromotion(mover, Some(mv)).value;
      !(mover.Some? && mover.value.kind == Pawn && mv.to.row == (if mover.value.color == White then 0 else 7))
      ==> r == mv
  {
  }
}
