/** The end of the game (chess-engine.js:708-906): insufficient material,
    the fifty-move rule, the position hash, threefold repetition and the
    order in which `checkGameEnd` tries them. */
module GameEnd {
  import opened ChessTypes
  import opened Rules
  import opened History

  /** The 64 squares in the order of the engine's row-major scans. */
  function Flat(b: Board): (r: seq<Square>)
    ensures |r| == 64
    ensures forall n | 0 <= n < 64 :: r[n] == b[n / 8][n % 8]
  {
    seq(64, n requires 0 <= n < 64 => b[n / 8][n % 8])
  }

  lemma FlatIndex(b: Board, r: Coord, c: Coord)
    ensures 0 <= 8 * r + c < 64 && (8 * r + c) / 8 == r && (8 * r + c) % 8 == c
    ensures Flat(b)[8 * r + c] == b[r][c]
  {
  }

  // ---------------------------------------------------------------------
  // Insufficient material (chess-engine.js:778-828)
  // ---------------------------------------------------------------------

  /** `pieces[color]` after the collecting loops: the kinds of the pieces
      of `color` among `sqs`, in scan order. */
  function KindsOf(sqs: seq<Square>, color: Color): (r: seq<Kind>)
    ensures |r| <= |sqs|
  {
    if |sqs| == 0 then [] else KindsOf(sqs[..|sqs| - 1], color) + KindIf(sqs[|sqs| - 1], color)
  }

  /** The kind of the piece on `sq` if it belongs to `color`. */
  function KindIf(sq: Square, color: Color): seq<Kind>
  {
    if sq.Some? && sq.value.color == color then [sq.value.kind] else []
  }

  /** Scanning one more square. */
  lemma KindsOfPrefix(sqs: seq<Square>, n: nat, next: nat, color: Color)
    requires next == n + 1 <= |sqs|
    ensures KindsOf(sqs[..next], color) == KindsOf(sqs[..n], color) + KindIf(sqs[n], color)
  {
    assert sqs[..next][..n] == sqs[..n];
  }

  lemma ConcatAssoc<T>(a: seq<T>, b: seq<T>, c: seq<T>)
    ensures a + b + c == a + (b + c)
  {
  }

  lemma {:induction false} KindsOfConcat(a: seq<Square>, b: seq<Square>, color: Color)
    decreases |b|
    ensures KindsOf(a + b, color) == KindsOf(a, color) + KindsOf(b, color)
  {
    if |b| > 0 {
      var b' := b[..|b| - 1];
      assert (a + b)[..|a + b| - 1] == a + b';
      assert (a + b)[|a + b| - 1] == b[|b| - 1];
      KindsOfConcat(a, b', color);
      ConcatAssoc(KindsOf(a, color), KindsOf(b', color), KindIf(b[|b| - 1], color));
    } else {
      assert a + b == a;
    }
  }

  /** The first `row + 1` rows of the flattened board are the first `row`
      rows followed by row `row`. */
  lemma FlatRow(b: Board, row: Coord)
    ensures Flat(b)[..8 * row + 8] == Flat(b)[..8 * row] + b[row]
  {
    var f := Flat(b);
    forall c | 0 <= c < 8
      ensures f[8 * row + c] == b[row][c]
    {
      FlatIndex(b, row, c);
    }
  }

  /** Scanning one more row of the board. */
  lemma KindsOfRow(b: Board, row: Coord, color: Color)
    ensures KindsOf(Flat(b)[..8 * row + 8], color) == KindsOf(Flat(b)[..8 * row], color) + KindsOf(b[row], color)
  {
    FlatRow(b, row);
    KindsOfConcat(Flat(b)[..8 * row], b[row], color);
  }

  /** The kinds of the pieces of `color` in the first `k` rows, row by row. */
  function RowsKinds(b: Board, k: nat, color: Color): seq<Kind>
    requires k <= 8
  {
    if k == 0 then [] else RowsKinds(b, k - 1, color) + KindsOf(b[k - 1], color)
  }

  lemma RowsKindsStep(b: Board, k: nat, next: nat, color: Color)
    requires next == k + 1 <= 8
    ensures RowsKinds(b, next, color) == RowsKinds(b, k, color) + KindsOf(b[k], color)
  {
  }

  /** The material collected row by row is the material of the board. */
  lemma RowsMaterial(b: Board, color: Color)
    ensures WithoutKings(RowsKinds(b, 8, color)) == Material(Flat(b), color)
  {
    RowsKindsFlat(b, 8, color);
    assert Flat(b)[..64] == Flat(b);
  }

  /** Scanning row by row is scanning the flattened board. */
  lemma {:induction false} RowsKindsFlat(b: Board, k: nat, color: Color)
    requires k <= 8
    ensures RowsKinds(b, k, color) == KindsOf(Flat(b)[..8 * k], color)
  {
    if k > 0 {
      RowsKindsFlat(b, k - 1, color);
      KindsOfRow(b, k - 1, color);
    }
  }

  /** `filter(p => p !== 'king')`. */
  function WithoutKings(ks: seq<Kind>): (r: seq<Kind>)
    ensures |r| <= |ks|
  {
    if |ks| == 0 then []
    else WithoutKings(ks[..|ks| - 1]) + (if ks[|ks| - 1] != King then [ks[|ks| - 1]] else [])
  }

  /** The kinds of the non-king pieces of `color`, in scan order. */
  function Material(sqs: seq<Square>, color: Color): seq<Kind>
  {
    WithoutKings(KindsOf(sqs, color))
  }

  /** A piece of `color` other than its king. */
  predicate IsMaterial(sq: Square, color: Color)
  {
    sq.Some? && sq.value.color == color && sq.value.kind != King
  }

  lemma MaterialSnoc(sqs: seq<Square>, sq: Square, color: Color)
    ensures Material(sqs + [sq], color) ==
      Material(sqs, color) + (if IsMaterial(sq, color) then [sq.value.kind] else [])
  {
    assert (sqs + [sq])[..|sqs|] == sqs;
    var ks := KindsOf(sqs, color);
    if sq.Some? && sq.value.color == color {
      assert KindsOf(sqs + [sq], color) == ks + [sq.value.kind];
      assert (ks + [sq.value.kind])[..|ks|] == ks;
    } else {
      assert KindsOf(sqs + [sq], color) == ks;
    }
  }

  /** No material is left exactly when no square holds a non-king piece. */
  lemma {:induction false} MaterialNone(sqs: seq<Square>, color: Color)
    ensures |Material(sqs, color)| == 0 <==> forall n | 0 <= n < |sqs| :: !IsMaterial(sqs[n], color)
  {
    if |sqs| > 0 {
      var init := sqs[..|sqs| - 1];
      MaterialNone(init, color);
      MaterialSnoc(init, sqs[|sqs| - 1], color);
      assert sqs == init + [sqs[|sqs| - 1]];
      assert forall n | 0 <= n < |init| :: init[n] == sqs[n];
    }
  }

  /** Square `n` holds a `k` of `color` and no other square holds a
      non-king piece of `color`. */
  predicate OnlyAt(sqs: seq<Square>, color: Color, k: Kind, n: int)
  {
    0 <= n < |sqs| && sqs[n] == Some(Piece(k, color)) &&
    forall m | 0 <= m < |sqs| && m != n :: !IsMaterial(sqs[m], color)
  }

  /** The material is a single `k` exactly when one square holds a `k` of
      `color` and no other square holds a non-king piece of `color`. */
  lemma {:induction false} MaterialOne(sqs: seq<Square>, color: Color, k: Kind)
    requires k != King
    ensures Material(sqs, color) == [k] <==> exists n :: OnlyAt(sqs, color, k, n)
  {
    if |sqs| > 0 {
      var last := |sqs| - 1;
      var init := sqs[..last];
      assert sqs == init + [sqs[last]];
      MaterialSnoc(init, sqs[last], color);
      if IsMaterial(sqs[last], color) {
        MaterialOneLast(init, sqs[last], color, k);
      } else {
        MaterialOne(init, color, k);
        MaterialOneSkip(init, sqs[last], color, k);
      }
    }
  }

  /** The added square holds material: it must be the single `k`. */
  lemma MaterialOneLast(init: seq<Square>, sq: Square, color: Color, k: Kind)
    requires k != King && IsMaterial(sq, color)
    requires Material(init + [sq], color) == Material(init, color) + [sq.value.kind]
    ensures Material(init + [sq], color) == [k] <==> exists n :: OnlyAt(init + [sq], color, k, n)
  {
    var sqs := init + [sq];
    var last := |init|;
    MaterialNone(init, color);
    assert forall n | 0 <= n < last :: init[n] == sqs[n];
    if Material(sqs, color) == [k] {
      assert |Material(init, color)| == 0;
      assert Material(init, color) == [];
      assert [k] == [sq.value.kind];
      assert sqs[last] == Some(Piece(k, color));
      assert OnlyAt(sqs, color, k, last);
    }
    if exists n :: OnlyAt(sqs, color, k, n) {
      var n :| OnlyAt(sqs, color, k, n);
      assert n == last;
      assert |Material(init, color)| == 0;
    }
  }

  /** The added square holds no material: the single `k` is among the
      others. */
  lemma MaterialOneSkip(init: seq<Square>, sq: Square, color: Color, k: Kind)
    requires k != King && !IsMaterial(sq, color)
    requires Material(init + [sq], color) == Material(init, color)
    requires Material(init, color) == [k] <==> exists n :: OnlyAt(init, color, k, n)
    ensures Material(init + [sq], color) == [k] <==> exists n :: OnlyAt(init + [sq], color, k, n)
  {
    var sqs := init + [sq];
    var last := |init|;
    assert forall n | 0 <= n < last :: init[n] == sqs[n];
    if exists n :: OnlyAt(init, color, k, n) {
      var n :| OnlyAt(init, color, k, n);
      assert OnlyAt(sqs, color, k, n);
    }
    if exists n :: OnlyAt(sqs, color, k, n) {
      var n :| OnlyAt(sqs, color, k, n);
      assert n != last;
      assert OnlyAt(init, color, k, n);
    }
  }

  /** `color` has nothing but (at most) its king. */
  predicate Bare(b: Board, color: Color)
  {
    forall r: Coord, c: Coord :: !IsMaterial(b[r][c], color)
  }

  /** Besides its king, `color` has exactly one piece: a `k` on `p`. */
  predicate Lone(b: Board, color: Color, k: Kind, p: Pos)
  {
    b[p.row][p.col] == Some(Piece(k, color)) &&
    forall r: Coord, c: Coord | !(r == p.row && c == p.col) :: !IsMaterial(b[r][c], color)
  }

  lemma BareFlat(b: Board, color: Color)
    ensures Bare(b, color) <==> |Material(Flat(b), color)| == 0
  {
    MaterialNone(Flat(b), color);
    if forall n | 0 <= n < 64 :: !IsMaterial(Flat(b)[n], color) {
      forall r: Coord, c: Coord
        ensures !IsMaterial(b[r][c], color)
      {
        FlatIndex(b, r, c);
      }
    }
  }

  lemma LoneFlat(b: Board, color: Color, k: Kind)
    requires k != King
    ensures Material(Flat(b), color) == [k] <==> exists p: Pos :: Lone(b, color, k, p)
  {
    var sqs := Flat(b);
    MaterialOne(sqs, color, k);
    if Material(sqs, color) == [k] {
      var n :| OnlyAt(sqs, color, k, n);
      var p := Pos(n / 8, n % 8);
      forall r: Coord, c: Coord | !(r == p.row && c == p.col)
        ensures !IsMaterial(b[r][c], color)
      {
        FlatIndex(b, r, c);
      }
      assert Lone(b, color, k, p);
    }
    if exists p: Pos :: Lone(b, color, k, p) {
      var p: Pos :| Lone(b, color, k, p);
      var n := 8 * p.row + p.col;
      FlatIndex(b, p.row, p.col);
      forall m | 0 <= m < 64 && m != n
        ensures !IsMaterial(sqs[m], color)
      {
        assert m == 8 * (m / 8) + m % 8;
      }
      assert OnlyAt(sqs, color, k, n);
    }
  }

  /** When `p` holds the only non-king piece of `color`, a `k`, the scan of
      `findPiecePosition` finds it there. */
  lemma LoneFound(b: Board, color: Color, k: Kind, p: Pos)
    requires k != King && Lone(b, color, k, p)
    ensures FindPiece(b, color, k) == Some(p)
  {
    FindPieceFirst(b, color, k);
    assert HasPiece(b, color, k, p.row, p.col);
  }

  /** With one bishop on each side and nothing else, the verdict is the
      shade test. */
  lemma VerdictBishops(w: seq<Kind>, k: seq<Kind>, wb: Option<Pos>, kb: Option<Pos>)
    requires |w| == 1 && |k| == 1 && w[0] == Bishop && k[0] == Bishop
    ensures MaterialVerdict(w, k, wb, kb) == SameShade(wb, kb)
  {
  }

  /** Both positions are found and stand on squares of the same shade. */
  predicate SameShade(p: Option<Pos>, q: Option<Pos>)
  {
    p.Some? && q.Some? && (p.value.row + p.value.col) % 2 == (q.value.row + q.value.col) % 2
  }

  /** `isInsufficientMaterial` (chess-engine.js:778-828). */
  predicate InsufficientMaterial(b: Board)
  {
    MaterialVerdict(Material(Flat(b), White), Material(Flat(b), Black),
                    FindPiece(b, White, Bishop), FindPiece(b, Black, Bishop))
  }

  /** The verdict of `isInsufficientMaterial` from the non-king material
      `w` and `k` of the two sides and the first bishop of each. */
  predicate MaterialVerdict(w: seq<Kind>, k: seq<Kind>, wb: Option<Pos>, kb: Option<Pos>)
  {
    (|w| == 0 && |k| == 0) ||
    (|w| == 1 && w[0] == Bishop && |k| == 0) || (|k| == 1 && k[0] == Bishop && |w| == 0) ||
    (|w| == 1 && w[0] == Knight && |k| == 0) || (|k| == 1 && k[0] == Knight && |w| == 0) ||
    (|w| == 1 && |k| == 1 && w[0] == Bishop && k[0] == Bishop && SameShade(wb, kb))
  }

  /** The verdict read off the row-by-row scan of the board. */
  lemma InsufficientFromRows(b: Board)
    ensures InsufficientMaterial(b) ==
      MaterialVerdict(WithoutKings(RowsKinds(b, 8, White)), WithoutKings(RowsKinds(b, 8, Black)),
                      FindPiece(b, White, Bishop), FindPiece(b, Black, Bishop))
  {
    RowsMaterial(b, White);
    RowsMaterial(b, Black);
  }

  /** Besides its king, `color` has exactly one piece, a bishop or a knight. */
  ghost predicate LoneMinorPiece(b: Board, color: Color)
  {
    exists p: Pos :: Lone(b, color, Bishop, p) || Lone(b, color, Knight, p)
  }

  /** Each side has one bishop besides its king, and the two stand on
      squares of the same shade. */
  ghost predicate SameShadeBishops(b: Board)
  {
    exists p: Pos, q: Pos :: Lone(b, White, Bishop, p) && Lone(b, Black, Bishop, q) &&
      (p.row + p.col) % 2 == (q.row + q.col) % 2
  }

  /** The draw is declared for exactly these material balances: king
      against king, king and one minor piece against a bare king, and king
      and bishop against king and bishop on squares of the same shade. */
  lemma InsufficientMaterialMeaning(b: Board)
    ensures InsufficientMaterial(b) <==>
      (Bare(b, White) && Bare(b, Black)) ||
      (Bare(b, Black) && LoneMinorPiece(b, White)) ||
      (Bare(b, White) && LoneMinorPiece(b, Black)) ||
      SameShadeBishops(b)
  {
    BareFlat(b, White);
    BareFlat(b, Black);
    LoneMinor(b, White);
    LoneMinor(b, Black);
    LoneBishops(b);
  }

  /** `color` has exactly one minor piece besides its king. */
  lemma LoneMinor(b: Board, color: Color)
    ensures LoneMinorPiece(b, color) <==>
      var w := Material(Flat(b), color);
      (|w| == 1 && w[0] == Bishop) || (|w| == 1 && w[0] == Knight)
  {
    LoneFlat(b, color, Bishop);
    LoneFlat(b, color, Knight);
    var w := Material(Flat(b), color);
    assert (|w| == 1 && w[0] == Bishop) <==> w == [Bishop];
    assert (|w| == 1 && w[0] == Knight) <==> w == [Knight];
  }

  /** One bishop on each side and nothing else, on squares of one shade. */
  lemma LoneBishops(b: Board)
    ensures SameShadeBishops(b) <==>
      var w, k := Material(Flat(b), White), Material(Flat(b), Black);
      |w| == 1 && |k| == 1 && w[0] == Bishop && k[0] == Bishop &&
      SameShade(FindPiece(b, White, Bishop), FindPiece(b, Black, Bishop))
  {
    var w, k := Material(Flat(b), White), Material(Flat(b), Black);
    assert (|w| == 1 && w[0] == Bishop) <==> w == [Bishop];
    assert (|k| == 1 && k[0] == Bishop) <==> k == [Bishop];
    if w == [Bishop] && k == [Bishop] && SameShade(FindPiece(b, White, Bishop), FindPiece(b, Black, Bishop)) {
      BishopsFromLists(b);
    }
    if SameShadeBishops(b) {
      ListsFromBishops(b);
    }
  }

  /** Lone bishops found on one shade are lone bishops on one shade. */
  lemma BishopsFromLists(b: Board)
    requires Material(Flat(b), White) == [Bishop] && Material(Flat(b), Black) == [Bishop]
    requires SameShade(FindPiece(b, White, Bishop), FindPiece(b, Black, Bishop))
    ensures SameShadeBishops(b)
  {
    LoneFlat(b, White, Bishop);
    LoneFlat(b, Black, Bishop);
    var p: Pos :| Lone(b, White, Bishop, p);
    var q: Pos :| Lone(b, Black, Bishop, q);
    LoneFound(b, White, Bishop, p);
    LoneFound(b, Black, Bishop, q);
  }

  /** Lone bishops on one shade are one-bishop lists, found on one shade. */
  lemma ListsFromBishops(b: Board)
    requires SameShadeBishops(b)
    ensures Material(Flat(b), White) == [Bishop] && Material(Flat(b), Black) == [Bishop]
    ensures SameShade(FindPiece(b, White, Bishop), FindPiece(b, Black, Bishop))
  {
    var p: Pos, q: Pos :| Lone(b, White, Bishop, p) && Lone(b, Black, Bishop, q) &&
      (p.row + p.col) % 2 == (q.row + q.col) % 2;
    LoneFlat(b, White, Bishop);
    LoneFlat(b, Black, Bishop);
    LoneFound(b, White, Bishop, p);
    LoneFound(b, Black, Bishop, q);
  }

  // ---------------------------------------------------------------------
  // Fifty-move rule (chess-engine.js:877-889)
  // ---------------------------------------------------------------------

  /** A half-move that neither moves a pawn nor captures. */
  predicate Quiet(e: Entry)
  {
    e.piece.kind != Pawn && e.captured.None?
  }

  /** `isFiftyMoveRule`: at least 100 half-moves were made and the last 100
      of them are all quiet. */
  predicate Fifty(h: seq<Entry>)
  {
    |h| >= 100 && forall i | |h| - 100 <= i < |h| :: Quiet(h[i])
  }

  /** Once reached, the rule keeps holding while the play stays quiet. */
  lemma FiftyExtends(h: seq<Entry>, e: Entry)
    requires Fifty(h) && Quiet(e)
    ensures Fifty(h + [e])
  {
    forall i | |h| + 1 - 100 <= i < |h| + 1
      ensures Quiet((h + [e])[i])
    {
      if i < |h| {
        assert (h + [e])[i] == h[i];
      }
    }
  }

  /** A pawn move or a capture resets the count: the rule cannot hold again
      until 100 more half-moves have been made. */
  lemma FiftyResets(h: seq<Entry>, e: Entry, rest: seq<Entry>)
    requires !Quiet(e) && |rest| < 100
    ensures !Fifty(h + [e] + rest)
  {
    var g := h + [e] + rest;
    if |g| >= 100 {
      assert g[|h|] == e;
    }
  }

  // ---------------------------------------------------------------------
  // Position hash (chess-engine.js:891-906)
  // ---------------------------------------------------------------------

  /** `color[0]`. */
  function ColorChar(c: Color): char
  {
    if c == White then 'w' else 'b'
  }

  /** One letter per kind, with 'n' for the knight so that every kind has
      its own letter. */
  function KindChar(k: Kind): char
  {
    match k
    case Pawn => 'p'
    case Knight => 'n'
    case Bishop => 'b'
    case Rook => 'r'
    case Queen => 'q'
    case King => 'k'
  }

  /** `type[0]`, as the engine writes it: "knight" and "king" both give
      'k'. */
  function SourceKindChar(k: Kind): char
  {
    match k
    case Pawn => 'p'
    case Knight => 'k'
    case Bishop => 'b'
    case Rook => 'r'
    case Queen => 'q'
    case King => 'k'
  }

  /** Two characters per square: colour and kind letter, or "--". */
  function Code(sq: Square): (s: string)
    ensures |s| == 2
  {
    match sq
    case None => "--"
    case Some(p) => [ColorChar(p.color), KindChar(p.kind)]
  }

  function SourceCode(sq: Square): (s: string)
    ensures |s| == 2
  {
    match sq
    case None => "--"
    case Some(p) => [ColorChar(p.color), SourceKindChar(p.kind)]
  }

  /** The codes of `sqs`, concatenated in order. */
  function Encode(sqs: seq<Square>, code: Square -> string): string
  {
    if |sqs| == 0 then "" else Encode(sqs[..|sqs| - 1], code) + code(sqs[|sqs| - 1])
  }

  /** Encoding one more square appends its code. */
  lemma EncodeStep(sqs: seq<Square>, code: Square -> string, k: nat, next: nat)
    requires next == k + 1 <= |sqs|
    ensures Encode(sqs[..next], code) == Encode(sqs[..k], code) + code(sqs[k])
  {
    assert sqs[..next][..k] == sqs[..k];
  }

  lemma {:induction false} EncodeConcat(a: seq<Square>, b: seq<Square>, code: Square -> string)
    decreases |b|
    ensures Encode(a + b, code) == Encode(a, code) + Encode(b, code)
  {
    if |b| > 0 {
      var b' := b[..|b| - 1];
      assert (a + b)[..|a + b| - 1] == a + b';
      assert (a + b)[|a + b| - 1] == b[|b| - 1];
      EncodeConcat(a, b', code);
      ConcatAssoc(Encode(a, code), Encode(b', code), code(b[|b| - 1]));
    } else {
      assert a + b == a;
    }
  }

  /** The codes of the first `k` rows, row by row. */
  function EncodeRows(b: Board, k: nat, code: Square -> string): string
    requires k <= 8
  {
    if k == 0 then "" else EncodeRows(b, k - 1, code) + Encode(b[k - 1], code)
  }

  lemma EncodeRowsStep(b: Board, k: nat, next: nat, code: Square -> string)
    requires next == k + 1 <= 8
    ensures EncodeRows(b, next, code) == EncodeRows(b, k, code) + Encode(b[k], code)
  {
  }

  /** Encoding row by row is encoding the flattened board. */
  lemma {:induction false} EncodeRowsFlat(b: Board, k: nat, code: Square -> string)
    requires k <= 8
    ensures EncodeRows(b, k, code) == Encode(Flat(b)[..8 * k], code)
  {
    if k > 0 {
      EncodeRowsFlat(b, k - 1, code);
      FlatRow(b, k - 1);
      EncodeConcat(Flat(b)[..8 * (k - 1)], b[k - 1], code);
    }
  }

  /** Every square has a distinct two-character code. */
  lemma CodeInjective(x: Square, y: Square)
    ensures Code(x) == Code(y) ==> x == y
  {
    if Code(x) == Code(y) {
      assert Code(x)[0] == Code(y)[0] && Code(x)[1] == Code(y)[1];
    }
  }

  lemma {:induction false} EncodeAt(sqs: seq<Square>, code: Square -> string)
    requires forall sq :: |code(sq)| == 2
    ensures |Encode(sqs, code)| == 2 * |sqs|
    ensures forall n | 0 <= n < |sqs| :: Encode(sqs, code)[2 * n..2 * n + 2] == code(sqs[n])
  {
    if |sqs| > 0 {
      var init := sqs[..|sqs| - 1];
      EncodeAt(init, code);
      var e := Encode(sqs, code);
      assert e == Encode(init, code) + code(sqs[|sqs| - 1]);
      forall n | 0 <= n < |sqs|
        ensures e[2 * n..2 * n + 2] == code(sqs[n])
      {
        if n < |init| {
          assert e[2 * n..2 * n + 2] == Encode(init, code)[2 * n..2 * n + 2];
          assert init[n] == sqs[n];
        } else {
          assert e[2 * n..2 * n + 2] == code(sqs[|sqs| - 1]);
        }
      }
    }
  }

  /** Squares with equal codes give equal encodings. */
  lemma {:induction false} EncodePointwise(a: seq<Square>, b: seq<Square>, code: Square -> string)
    requires |a| == |b| && forall n | 0 <= n < |a| :: code(a[n]) == code(b[n])
    ensures Encode(a, code) == Encode(b, code)
  {
    if |a| > 0 {
      var n := |a| - 1;
      assert forall i | 0 <= i < n :: a[..n][i] == a[i] && b[..n][i] == b[i];
      EncodePointwise(a[..n], b[..n], code);
    }
  }

  /** `getBoardHash` with a distinct letter for every kind: the 64 square
      codes followed by the side to move. */
  function BoardHash(b: Board, player: Color): string
  {
    Encode(Flat(b), Code) + [ColorChar(player)]
  }

  /** `getBoardHash` as written, with `type[0]` for the kind letter. */
  function SourceBoardHash(b: Board, player: Color): string
  {
    Encode(Flat(b), SourceCode) + [ColorChar(player)]
  }

  /** Two positions have the same hash exactly when they have the same
      board and the same side to move. */
  lemma BoardHashInjective(b1: Board, p1: Color, b2: Board, p2: Color)
    ensures BoardHash(b1, p1) == BoardHash(b2, p2) <==> b1 == b2 && p1 == p2
  {
    if BoardHash(b1, p1) == BoardHash(b2, p2) {
      var f1, f2 := Flat(b1), Flat(b2);
      EncodeAt(f1, Code);
      EncodeAt(f2, Code);
      var h := BoardHash(b1, p1);
      assert Encode(f1, Code) == h[..128] == Encode(f2, Code);
      assert h[128] == ColorChar(p1) == ColorChar(p2);
      forall n | 0 <= n < 64
        ensures f1[n] == f2[n]
      {
        assert Code(f1[n]) == Encode(f1, Code)[2 * n..2 * n + 2] == Code(f2[n]);
        CodeInjective(f1[n], f2[n]);
      }
      forall r: Coord
        ensures b1[r] == b2[r]
      {
        forall c: Coord
          ensures b1[r][c] == b2[r][c]
        {
          FlatIndex(b1, r, c);
          FlatIndex(b2, r, c);
        }
      }
    }
  }

  /** Every king turned into a knight of its colour and every knight into a
      king. */
  function SwapKingKnight(b: Board): (r: Board)
    ensures forall i: Coord, j: Coord :: r[i][j] == SwapSquare(b[i][j])
  {
    seq(8, i requires 0 <= i < 8 => seq(8, j requires 0 <= j < 8 => SwapSquare(b[i][j])))
  }

  function SwapSquare(sq: Square): Square
  {
    match sq
    case Some(Piece(King, c)) => Some(Piece(Knight, c))
    case Some(Piece(Knight, c)) => Some(Piece(King, c))
    case _ => sq
  }

  /** The hash as written cannot tell kings from knights: any position with
      a king hashes like a different position, the one with kings and
      knights exchanged, which the corrected hash tells apart. */
  lemma SourceHashCollision(b: Board, p: Color, r: Coord, c: Coord)
    requires b[r][c].Some? && b[r][c].value.kind == King
    ensures SwapKingKnight(b) != b
    ensures SourceBoardHash(SwapKingKnight(b), p) == SourceBoardHash(b, p)
    ensures BoardHash(SwapKingKnight(b), p) != BoardHash(b, p)
  {
    var s := SwapKingKnight(b);
    assert s[r][c] != b[r][c];
    forall n | 0 <= n < 64
      ensures SourceCode(Flat(s)[n]) == SourceCode(Flat(b)[n])
    {
    }
    EncodePointwise(Flat(s), Flat(b), SourceCode);
    BoardHashInjective(s, p, b, p);
  }

  // ---------------------------------------------------------------------
  // Threefold repetition (chess-engine.js:843-874)
  // ---------------------------------------------------------------------

  /** After `k` take-backs the position hashes like the current one. */
  predicate Matches(s: State, k: nat)
    requires k <= |s.history|
  {
    var e := UndoN(s, k);
    BoardHash(e.board, e.player) == BoardHash(s.board, s.player)
  }

  /** The same test with the hash as written (see `SourceBoardHash`). */
  predicate SourceMatches(s: State, k: nat)
    requires k <= |s.history|
  {
    var e := UndoN(s, k);
    SourceBoardHash(e.board, e.player) == SourceBoardHash(s.board, s.player)
  }

  /** Every match of the corrected test is a match of the test as written;
      the converse fails for positions that differ by a king/knight
      exchange (`SourceHashCollision`). */
  lemma MatchesSource(s: State, k: nat)
    requires k <= |s.history|
    ensures Matches(s, k) ==> SourceMatches(s, k)
  {
    var e := UndoN(s, k);
    BoardHashInjective(e.board, e.player, s.board, s.player);
  }

  /** How many of the positions `k`, `k + 2`, ... take-backs back (while
      there are that many moves) match the current one. */
  function Repeats(s: State, k: nat): nat
    decreases |s.history| + 2 - k
  {
    if k > |s.history| then 0
    else (if Matches(s, k) then 1 else 0) + Repeats(s, k + 2)
  }

  /** One round of the scan: position `k` counts if it matches, and the
      scan goes on at `next`, two moves further back. */
  lemma RepeatsStep(s: State, k: nat, next: nat, same: bool)
    requires k <= |s.history| && next == k + 2 && same == Matches(s, k)
    ensures Repeats(s, k) == (if same then 1 else 0) + Repeats(s, next)
  {
  }

  /** How many of `bits` are set. */
  function Count(bits: seq<bool>): (r: nat)
    ensures r <= |bits|
  {
    if |bits| == 0 then 0 else Count(bits[..|bits| - 1]) + (if bits[|bits| - 1] then 1 else 0)
  }

  /** `bits[j]` says whether the position `4 + 2 * j` moves back matches
      the current one: the comparisons made so far by the scan. */
  ghost predicate Scanned(s: State, bits: seq<bool>)
  {
    forall j | 0 <= j < |bits| :: 4 + 2 * j <= |s.history| && bits[j] == Matches(s, 4 + 2 * j)
  }

  lemma CountSnoc(bits: seq<bool>, b: bool)
    ensures Count(bits + [b]) == Count(bits) + (if b then 1 else 0)
  {
    assert (bits + [b])[..|bits|] == bits;
  }

  /** The scan after one more comparison. */
  lemma ScannedSnoc(s: State, bits: seq<bool>, k: nat, same: bool)
    requires Scanned(s, bits) && k == 4 + 2 * |bits| && k <= |s.history|
    requires same == Matches(s, k)
    ensures Scanned(s, bits + [same])
  {
    forall j | 0 <= j < |bits| + 1
      ensures 4 + 2 * j <= |s.history| && (bits + [same])[j] == Matches(s, 4 + 2 * j)
    {
      if j < |bits| {
        assert (bits + [same])[j] == bits[j];
      }
    }
  }

  lemma ScannedPrefix(s: State, bits: seq<bool>, n: nat)
    requires Scanned(s, bits) && n <= |bits|
    ensures Scanned(s, bits[..n])
  {
    forall j | 0 <= j < n
      ensures 4 + 2 * j <= |s.history| && bits[..n][j] == Matches(s, 4 + 2 * j)
    {
      assert bits[..n][j] == bits[j];
    }
  }

  lemma ScannedAt(s: State, bits: seq<bool>, j: nat, k: nat)
    requires Scanned(s, bits) && j < |bits| && k == 4 + 2 * j
    ensures k <= |s.history| && bits[j] == Matches(s, k)
  {
  }

  /** The comparisons made so far account for `Repeats` up to where the
      scan has got, `k` moves back. */
  lemma {:induction false} ScannedRepeats(s: State, bits: seq<bool>, k: nat)
    requires Scanned(s, bits) && k == 4 + 2 * |bits|
    decreases |bits|
    ensures Repeats(s, 4) == Count(bits) + Repeats(s, k)
  {
    if |bits| > 0 {
      var n := |bits| - 1;
      var k' := k - 2;
      ScannedPrefix(s, bits, n);
      ScannedRepeats(s, bits[..n], k');
      ScannedAt(s, bits, n, k');
      RepeatsStep(s, k', k, bits[n]);
    }
  }

  /** Two matches found: a threefold repetition. */
  lemma ScannedThreefold(s: State, bits: seq<bool>)
    requires Scanned(s, bits) && |s.history| >= 8 && Count(bits) >= 2
    ensures Threefold(s)
  {
    ScannedRepeats(s, bits, 4 + 2 * |bits|);
  }

  /** The whole history scanned with fewer than two matches: no
      repetition. */
  lemma ScannedNoThreefold(s: State, bits: seq<bool>)
    requires Scanned(s, bits) && 4 + 2 * |bits| > |s.history| && Count(bits) < 2
    ensures !Threefold(s)
  {
    ScannedRepeats(s, bits, 4 + 2 * |bits|);
  }

  /** `isThreefoldRepetition`: with at least 8 moves played, two of the
      positions 4, 6, 8, ... moves back match the current one, which then
      occurs for the third time. */
  predicate Threefold(s: State)
  {
    |s.history| >= 8 && Repeats(s, 4) >= 2
  }

  /** The position `k` moves back, `k` even and at least 4, has the same
      board as the current one. */
  predicate Earlier(s: State, k: nat)
  {
    4 <= k <= |s.history| && k % 2 == 0 && UndoN(s, k).board == s.board
  }

  /** An even number of take-backs leaves the same side to move, so a match
      is a repeated board. */
  lemma MatchesMeaning(s: State, k: nat)
    requires k <= |s.history| && k % 2 == 0
    ensures Matches(s, k) <==> UndoN(s, k).board == s.board
  {
    UndoNPlayer(s, k);
    var e := UndoN(s, k);
    BoardHashInjective(e.board, e.player, s.board, s.player);
  }

  /** At least one match from `k` on. */
  lemma {:induction false} RepeatsOne(s: State, k: nat)
    requires k % 2 == 0
    decreases |s.history| + 2 - k
    ensures Repeats(s, k) >= 1 <==> OneMatch(s, k)
  {
    if k <= |s.history| {
      RepeatsOne(s, k + 2);
      RepeatsStep(s, k, k + 2, Matches(s, k));
      if OneMatch(s, k) {
        var j :| k <= j <= |s.history| && j % 2 == 0 && Matches(s, j);
        if j != k {
          assert OneMatch(s, k + 2);
        }
      }
    }
  }

  /** Two of the positions `k`, `k + 2`, ... moves back match. */
  predicate TwoMatches(s: State, k: nat)
  {
    exists j1, j2 | k <= j1 < j2 <= |s.history| && j1 % 2 == 0 && j2 % 2 == 0 ::
      Matches(s, j1) && Matches(s, j2)
  }

  /** One of the positions `k`, `k + 2`, ... moves back matches. */
  predicate OneMatch(s: State, k: nat)
  {
    exists j | k <= j <= |s.history| && j % 2 == 0 :: Matches(s, j)
  }

  /** At least two matches from `k` on. */
  lemma {:induction false} RepeatsTwo(s: State, k: nat)
    requires k % 2 == 0
    decreases |s.history| + 2 - k
    ensures Repeats(s, k) >= 2 <==> TwoMatches(s, k)
  {
    if k <= |s.history| {
      RepeatsTwo(s, k + 2);
      RepeatsOne(s, k + 2);
      if Repeats(s, k) >= 2 {
        TwoFromRepeats(s, k);
      }
      if TwoMatches(s, k) {
        RepeatsFromTwo(s, k);
        assert Repeats(s, k) == (if Matches(s, k) then 1 else 0) + Repeats(s, k + 2);
      }
    }
  }

  lemma TwoFromRepeats(s: State, k: nat)
    requires k % 2 == 0 && k <= |s.history| && Repeats(s, k) >= 2
    requires Repeats(s, k + 2) >= 1 <==> OneMatch(s, k + 2)
    requires Repeats(s, k + 2) >= 2 <==> TwoMatches(s, k + 2)
    ensures TwoMatches(s, k)
  {
    if Matches(s, k) {
      var j :| k + 2 <= j <= |s.history| && j % 2 == 0 && Matches(s, j);
      assert k < j;
    } else {
      var j1, j2 :| k + 2 <= j1 < j2 <= |s.history| && j1 % 2 == 0 && j2 % 2 == 0 &&
        Matches(s, j1) && Matches(s, j2);
    }
  }

  /** Two matches from `k` on are the match at `k` and one further back,
      or two further back. */
  lemma RepeatsFromTwo(s: State, k: nat)
    requires k % 2 == 0 && k <= |s.history| && TwoMatches(s, k)
    ensures (Matches(s, k) && OneMatch(s, k + 2)) || TwoMatches(s, k + 2)
  {
    var j1, j2 :| k <= j1 < j2 <= |s.history| && j1 % 2 == 0 && j2 % 2 == 0 &&
      Matches(s, j1) && Matches(s, j2);
    if j1 == k {
      assert k + 2 <= j2;
      assert OneMatch(s, k + 2);
    } else {
      assert k + 2 <= j1;
      assert TwoMatches(s, k + 2);
    }
  }

  /** Repetition is declared exactly when at least 8 moves were played and
      two earlier positions, an even number (4 or more) of moves back, have
      the current board, so that it occurs for the third time. */
  lemma ThreefoldMeaning(s: State)
    ensures Threefold(s) <==>
      (|s.history| >= 8 && exists k1, k2 | k1 < k2 :: Earlier(s, k1) && Earlier(s, k2))
    ensures |s.history| < 8 ==> !Threefold(s)
  {
    RepeatsTwo(s, 4);
    if Threefold(s) {
      var j1, j2 :| 4 <= j1 < j2 <= |s.history| && j1 % 2 == 0 && j2 % 2 == 0 &&
        Matches(s, j1) && Matches(s, j2);
      MatchesMeaning(s, j1);
      MatchesMeaning(s, j2);
      assert Earlier(s, j1) && Earlier(s, j2);
    }
    if |s.history| >= 8 && exists k1, k2 | k1 < k2 :: Earlier(s, k1) && Earlier(s, k2) {
      var k1, k2 :| k1 < k2 && Earlier(s, k1) && Earlier(s, k2);
      MatchesMeaning(s, k1);
      MatchesMeaning(s, k2);
    }
  }

  // ---------------------------------------------------------------------
  // checkGameEnd (chess-engine.js:708-775)
  // ---------------------------------------------------------------------

  /** The strings `checkGameEnd` returns, `null` being `None`. */
  datatype Outcome = KingCaptured | Checkmate | Stalemate
                   | DrawInsufficientMaterial | DrawRepetition | DrawFiftyMoves

  /** `gameStatus`. */
  datatype Status = Playing | WhiteWins | BlackWins | Draw

  /** `checkGameEnd`: the outcome and the new `gameStatus`, trying a missing
      king, then no legal move (checkmate or stalemate), then insufficient
      material, repetition and the fifty-move rule, in that order. */
  function CheckEnd(s: State, status: Status): (Option<Outcome>, Status)
  {
    if FindKing(s.board, White).None? then (Some(KingCaptured), BlackWins)
    else if FindKing(s.board, Black).None? then (Some(KingCaptured), WhiteWins)
    else if |AllValidMoves(s.board, s.player)| == 0 then
      if InCheck(s.board, s.player) then (Some(Checkmate), if s.player == White then BlackWins else WhiteWins)
      else (Some(Stalemate), Draw)
    else CheckDraws(s, status)
  }

  /** The draw rules of `checkGameEnd`, once both kings are on the board
      and the side to move has a legal move. */
  function CheckDraws(s: State, status: Status): (Option<Outcome>, Status)
  {
    if InsufficientMaterial(s.board) then (Some(DrawInsufficientMaterial), Draw)
    else if Threefold(s) then (Some(DrawRepetition), Draw)
    else if Fifty(s.history) then (Some(DrawFiftyMoves), Draw)
    else (None, status)
  }

  /** The side `color` has no move `isValidMove` accepts. */
  predicate NoLegalMove(b: Board, color: Color)
  {
    forall i: Coord, j: Coord, k: Coord, l: Coord |
      b[i][j].Some? && b[i][j].value.color == color :: !LegalMove(b, i, j, k, l)
  }

  lemma NoMovesMeaning(b: Board, color: Color)
    ensures |AllValidMoves(b, color)| == 0 <==> NoLegalMove(b, color)
  {
    AllValidMovesExact(b, color);
    var ms := AllValidMoves(b, color);
    if |ms| > 0 {
      assert ms[0] in ms;
    }
  }

  /** Both kings are on the board. */
  predicate KingsPresent(b: Board)
  {
    FindKing(b, White).Some? && FindKing(b, Black).Some?
  }

  /** Each outcome is reported exactly when its condition holds and the
      conditions tried before it do not; the game goes on, with the status
      unchanged, only when none holds; a reported outcome always ends the
      game with the matching status. */
  lemma CheckEndMeaning(s: State, status: Status)
    ensures var (o, st) := CheckEnd(s, status);
      (o == Some(KingCaptured) <==> !KingsPresent(s.board)) &&
      (o == Some(KingCaptured) && FindKing(s.board, White).None? ==> st == BlackWins) &&
      (o == Some(KingCaptured) && FindKing(s.board, White).Some? ==> st == WhiteWins)
    ensures var (o, st) := CheckEnd(s, status);
      (o == Some(Checkmate) <==>
        KingsPresent(s.board) && NoLegalMove(s.board, s.player) && InCheck(s.board, s.player)) &&
      (o == Some(Checkmate) ==> st == (if s.player == White then BlackWins else WhiteWins))
    ensures CheckEnd(s, status).0 == Some(Stalemate) <==>
      KingsPresent(s.board) && NoLegalMove(s.board, s.player) && !InCheck(s.board, s.player)
    ensures CheckEnd(s, status).0 == Some(DrawInsufficientMaterial) <==>
      KingsPresent(s.board) && !NoLegalMove(s.board, s.player) && InsufficientMaterial(s.board)
    ensures CheckEnd(s, status).0 == Some(DrawRepetition) <==>
      KingsPresent(s.board) && !NoLegalMove(s.board, s.player) && !InsufficientMaterial(s.board) &&
      Threefold(s)
    ensures CheckEnd(s, status).0 == Some(DrawFiftyMoves) <==>
      KingsPresent(s.board) && !NoLegalMove(s.board, s.player) && !InsufficientMaterial(s.board) &&
      !Threefold(s) && Fifty(s.history)
    ensures CheckEnd(s, status).0.None? ==> CheckEnd(s, status).1 == status
    ensures CheckEnd(s, status).0.Some? ==> CheckEnd(s, status).1 != Playing
    ensures var o := CheckEnd(s, status).0;
      (o == Some(Stalemate) || o == Some(DrawInsufficientMaterial) || o == Some(DrawRepetition) ||
       o == Some(DrawFiftyMoves)) ==> CheckEnd(s, status).1 == Draw
  {
    NoMovesMeaning(s.board, s.player);
  }
}
