/**
 * The `Game` object of game.js: the board, the side to move, the state of the game, the move
 * history, the pieces each side has captured and the mode (normal play, or editing, where the
 * turn does not pass and the state is not re-evaluated). Its move generation is the game
 * engine's copy of the rules (see `Rules`): captures are searched on the live board, each jumped
 * piece being removed for the rest of the sequence and put back afterwards. Playing a move
 * records it, blanks the captured cells, crowns a man on the far row, passes the turn in normal
 * play and re-evaluates the state of the game.
 */
module GameLogic {
  import opened Wrappers
  import opened Constants
  import opened Board
  import opened Rules
  import opened Evaluation
  import opened Text
  import opened Fen

  /** What `makeMove` pushes onto `moveHistory`. */
  datatype MoveRecord = MoveRecord(from: Square, to: Square, piece: Piece, captures: seq<Square>,
                                   notation: string)

  /** `getPiece` on a grid: the piece on the cell, `NONE` off the board. */
  function PieceAt(g: Grid, sq: Square): Piece
  {
    if InBoard(sq) then At(g, sq) else NoPiece
  }

  /** `setPiece` on a grid: the cell replaced; off the board nothing changes. */
  function PutPiece(g: Grid, sq: Square, p: Piece): Grid
  {
    if InBoard(sq) then With(g, sq, p) else g
  }

  // ---------------------------------------------------------- the start

  /** The starting layout: black men on the dark cells of rows 0..3, white men on the dark cells
      of rows 6..9, nothing elsewhere. */
  function StartCell(sq: Square): Piece
  {
    if !IsDark(sq) then NoPiece
    else if sq.row < 4 then BlackMan
    else if sq.row >= 6 then WhiteMan
    else NoPiece
  }

  ghost predicate IsStartGrid(g: Grid)
  {
    forall s | InBoard(s) :: At(g, s) == StartCell(s)
  }

  // ------------------------------------------------------------ counting

  /** Cells holding `p` that the row-by-row scan has passed at point (i, j). */
  function CountBefore(g: Grid, p: Piece, i: int, j: int): nat
    requires ScanPoint(i, j)
    decreases i, j
  {
    if j == 0 then (if i == 0 then 0 else CountBefore(g, p, i - 1, BOARD_SIZE))
    else CountBefore(g, p, i, j - 1) + (if g[i][j - 1] == p then 1 else 0)
  }

  /** How many cells of the board hold `p`. */
  function Count(g: Grid, p: Piece): nat
  {
    CountBefore(g, p, BOARD_SIZE, 0)
  }

  /** The four piece counts add up to the material count the search uses. */
  lemma {:induction false} CountBeforeMaterial(g: Grid, i: int, j: int)
    requires ScanPoint(i, j)
    ensures CountBefore(g, WhiteMan, i, j) + CountBefore(g, BlackMan, i, j)
            + CountBefore(g, WhiteKing, i, j) + CountBefore(g, BlackKing, i, j) == MaterialBefore(g, i, j)
    decreases i, j
  {
    if j > 0 {
      CountBeforeMaterial(g, i, j - 1);
    } else if i > 0 {
      CountBeforeMaterial(g, i - 1, BOARD_SIZE);
    }
  }

  /** The number of dark cells in the first `j` columns of row `i`. */
  function DarkBefore(i: int, j: int): int
  {
    if i % 2 == 0 then j / 2 else (j + 1) / 2
  }

  /** Row `i` has one more dark cell among its first `j` than among its first `j - 1` exactly
      when cell (i, j - 1) is dark; none among none, five in the whole row. */
  lemma DarkBeforeStep(i: int, j: int)
    requires 0 <= i && 0 < j
    ensures DarkBefore(i, j) == DarkBefore(i, j - 1) + (if IsDark(Square(i, j - 1)) then 1 else 0)
    ensures DarkBefore(i, 0) == 0 && DarkBefore(i, BOARD_SIZE) == 5
  {
  }

  /** The scan of the starting layout meets five black men on each of rows 0..3 it has
      finished, and none after. */
  lemma {:induction false} StartBlackBefore(g: Grid, i: int, j: int)
    requires IsStartGrid(g) && ScanPoint(i, j)
    ensures CountBefore(g, BlackMan, i, j) == (if i < 4 then 5 * i + DarkBefore(i, j) else 20)
    decreases i, j
  {
    if j > 0 {
      StartBlackBefore(g, i, j - 1);
      DarkBeforeStep(i, j);
      assert At(g, Square(i, j - 1)) == StartCell(Square(i, j - 1));
    } else if i > 0 {
      StartBlackBefore(g, i - 1, BOARD_SIZE);
      DarkBeforeStep(i - 1, 1);
    }
  }

  /** The scan of the starting layout meets no white man before row 6, and five on each of
      rows 6..9 it has finished. */
  lemma {:induction false} StartWhiteBefore(g: Grid, i: int, j: int)
    requires IsStartGrid(g) && ScanPoint(i, j)
    ensures CountBefore(g, WhiteMan, i, j)
            == (if i < 6 then 0 else if i < BOARD_SIZE then 5 * (i - 6) + DarkBefore(i, j) else 20)
    decreases i, j
  {
    if j > 0 {
      StartWhiteBefore(g, i, j - 1);
      DarkBeforeStep(i, j);
      assert At(g, Square(i, j - 1)) == StartCell(Square(i, j - 1));
    } else if i > 0 {
      StartWhiteBefore(g, i - 1, BOARD_SIZE);
      DarkBeforeStep(i - 1, 1);
    }
  }

  /** The starting layout has no king anywhere. */
  lemma {:induction false} StartKingsBefore(g: Grid, i: int, j: int)
    requires IsStartGrid(g) && ScanPoint(i, j)
    ensures CountBefore(g, WhiteKing, i, j) == 0 && CountBefore(g, BlackKing, i, j) == 0
    decreases i, j
  {
    if j > 0 {
      StartKingsBefore(g, i, j - 1);
      assert At(g, Square(i, j - 1)) == StartCell(Square(i, j - 1));
    } else if i > 0 {
      StartKingsBefore(g, i - 1, BOARD_SIZE);
    }
  }

  /** The starting layout holds exactly twenty black men and twenty white men, and no king. */
  lemma StartCounts(g: Grid)
    requires IsStartGrid(g)
    ensures Count(g, BlackMan) == 20 && Count(g, WhiteMan) == 20
    ensures Count(g, WhiteKing) == 0 && Count(g, BlackKing) == 0
  {
    StartBlackBefore(g, BOARD_SIZE, 0);
    StartWhiteBefore(g, BOARD_SIZE, 0);
    StartKingsBefore(g, BOARD_SIZE, 0);
  }

  /** So the starting layout has forty pieces, as the search's material count sees it. */
  lemma StartMaterial(g: Grid)
    requires IsStartGrid(g)
    ensures Material(g) == 40
  {
    StartCounts(g);
    CountBeforeMaterial(g, BOARD_SIZE, 0);
    assert Material(g) == Count(g, WhiteMan) + Count(g, BlackMan) + Count(g, WhiteKing) + Count(g, BlackKing);
  }

  /** In the starting layout the black men are in rows 0..3, the white men in rows 6..9, and
      rows 4 and 5 are empty. */
  lemma StartRows(g: Grid)
    requires IsStartGrid(g)
    ensures forall s | InBoard(s) && At(g, s) == BlackMan :: s.row < 4
    ensures forall s | InBoard(s) && At(g, s) == WhiteMan :: s.row >= 6
    ensures forall s | InBoard(s) && 4 <= s.row <= 5 :: At(g, s) == NoPiece
  {
  }

  // --------------------------------------------------------- end of game

  /** `isDrawByMaterial`: no men left, and the kings are one against one, two against one or
      one against two. */
  predicate MaterialDraw(g: Grid)
  {
    var wk, bk := Count(g, WhiteKing), Count(g, BlackKing);
    Count(g, WhiteMan) == 0 && Count(g, BlackMan) == 0
    && ((wk == 1 && bk == 1) || (wk == 2 && bk == 1) || (wk == 1 && bk == 2))
  }

  /** A material draw leaves two or three pieces on the board, all of them kings; so the
      starting position is none. */
  lemma MaterialDrawFewPieces(g: Grid)
    ensures MaterialDraw(g) ==> 2 <= Material(g) <= 3
    ensures MaterialDraw(g) ==> Count(g, WhiteKing) >= 1 && Count(g, BlackKing) >= 1
    ensures IsStartGrid(g) ==> !MaterialDraw(g)
  {
    if MaterialDraw(g) {
      CountBeforeMaterial(g, BOARD_SIZE, 0);
      assert Material(g) == Count(g, WhiteMan) + Count(g, BlackMan) + Count(g, WhiteKing) + Count(g, BlackKing);
    }
    if IsStartGrid(g) {
      StartCounts(g);
    }
  }

  /** The state `updateGameState` sets in normal play, `moves` being the length of the history:
      the side to move loses when it has no legal move; otherwise the game is drawn once six
      moves have been played (the repetition check as it stands) or on material; otherwise it
      goes on. A win is recorded exactly when the side to move has no legal move, and it is
      never the side to move that wins. */
  function Outcome(g: Grid, side: Player, moves: nat): (s: GameState)
    ensures var legal := LegalMoves(GameEngine, Position(g, side));
            && (s == WhiteWin || s == BlackWin <==> legal == [])
            && s != (if side == White then WhiteWin else BlackWin)
            && (s == Draw <==> legal != [] && (moves >= 6 || MaterialDraw(g)))
            && (s == Ongoing <==> legal != [] && moves < 6 && !MaterialDraw(g))
  {
    if LegalMoves(GameEngine, Position(g, side)) == [] then (if side == White then BlackWin else WhiteWin)
    else if moves >= 6 || MaterialDraw(g) then Draw
    else Ongoing
  }

  // ------------------------------------------------------------ playing

  /** `legalMoves.some(...)`: a legal move with the same start and end cells. */
  predicate SameEnds(m: Move, legal: seq<Move>)
  {
    exists lm | lm in legal :: lm.from == m.from && lm.to == m.to
  }

  /** The first `k` cells of `caps` blanked one after the other with `setPiece` (skipping cells
      off the board). */
  function ClearedUpTo(g: Grid, caps: seq<Square>, k: int): Grid
    requires 0 <= k <= |caps|
  {
    if k == 0 then g else PutPiece(ClearedUpTo(g, caps, k - 1), caps[k - 1], NoPiece)
  }

  /** The pieces `makeMove` reads from the first `k` cells of `caps` as it blanks them, in
      order. */
  function TakenUpTo(g: Grid, caps: seq<Square>, k: int): (taken: seq<Piece>)
    requires 0 <= k <= |caps|
    ensures |taken| == k
  {
    if k == 0 then [] else TakenUpTo(g, caps, k - 1) + [PieceAt(ClearedUpTo(g, caps, k - 1), caps[k - 1])]
  }

  /** The grid `makeMove` leaves: the piece taken off `from` and put on `to`, the captured cells
      blanked, and a man reaching the far row crowned. */
  function PlayedGrid(g: Grid, m: Move): Grid
    requires InBoard(m.from) && InBoard(m.to)
  {
    var p := At(g, m.from);
    var placed := With(With(g, m.from, NoPiece), m.to, p);
    var cleared := ClearedUpTo(placed, m.captures, |m.captures|);
    if ShouldPromote(p, m.to.row) then With(cleared, m.to, Promoted(p)) else cleared
  }

  /** On board cells, blanking one after the other is the search's `ClearCells`. */
  lemma {:induction false} ClearedUpToInBoard(g: Grid, caps: seq<Square>, k: int)
    requires 0 <= k <= |caps| && forall c | c in caps :: InBoard(c)
    ensures forall c | c in caps[..k] :: InBoard(c)
    ensures ClearedUpTo(g, caps, k) == ClearCells(g, caps[..k])
  {
    assert forall c | c in caps[..k] :: c in caps;
    if k > 0 {
      ClearedUpToInBoard(g, caps, k - 1);
      assert caps[..k][..k - 1] == caps[..k - 1];
      GridExtensionality(ClearedUpTo(g, caps, k), ClearCells(g, caps[..k]));
    }
  }

  /** With distinct cells on the board, the pieces read are those the cells held at the start. */
  lemma {:induction false} TakenUpToDistinct(g: Grid, caps: seq<Square>, k: int)
    requires 0 <= k <= |caps| && forall c | c in caps :: InBoard(c)
    requires forall i, j | 0 <= i < j < |caps| :: caps[i] != caps[j]
    ensures forall i | 0 <= i < k :: TakenUpTo(g, caps, k)[i] == At(g, caps[i])
  {
    if k > 0 {
      TakenUpToDistinct(g, caps, k - 1);
      ClearedUpToInBoard(g, caps, k - 1);
      var front, last := caps[..k - 1], caps[k - 1];
      assert last !in front by {
        forall i | 0 <= i < |front|
          ensures front[i] != last
        {
          assert front[i] == caps[i];
        }
      }
      assert InBoard(last);
      assert PieceAt(ClearedUpTo(g, caps, k - 1), last) == At(g, last);
      var prev := TakenUpTo(g, caps, k - 1);
      assert TakenUpTo(g, caps, k) == prev + [At(g, last)];
      forall i | 0 <= i < k
        ensures TakenUpTo(g, caps, k)[i] == At(g, caps[i])
      {
        if i < k - 1 {
          assert TakenUpTo(g, caps, k)[i] == prev[i];
        }
      }
    }
  }

  /** The board `makeMove` produces from a legal move is the one the search's own `makeMove`
      builds: the piece moved (and crowned on the far row), `from` and the captured cells
      empty, every other cell unchanged. */
  lemma LegalMovePlayed(pos: Position, m: Move)
    requires m in LegalMoves(GameEngine, pos)
    ensures MoveInBoard(m) && m.from != m.to && m.to !in m.captures
    ensures PlayedGrid(pos.pieces, m) == ApplyMove(pos, m).pieces
    ensures var g, p := pos.pieces, At(pos.pieces, m.from);
            var played := PlayedGrid(g, m);
            && At(played, m.to) == (if ShouldPromote(p, m.to.row) then Promoted(p) else p)
            && At(played, m.from) == NoPiece
            && (forall c | c in m.captures :: At(played, c) == NoPiece)
            && (forall s | InBoard(s) && s != m.from && s != m.to && s !in m.captures :: At(played, s) == At(g, s))
  {
    var g := pos.pieces;
    LegalMovePlayable(GameEngine, pos, m);
    ClearedUpToInBoard(With(With(g, m.from, NoPiece), m.to, At(g, m.from)), m.captures, |m.captures|);
    assert m.captures[..|m.captures|] == m.captures;
    ApplyMoveEffect(pos, m);
  }

  /** The pieces `makeMove` records as captured for a legal move are exactly the opponent's
      pieces that stood on the captured cells, in the order of the sequence. */
  lemma LegalMoveTaken(pos: Position, m: Move)
    requires m in LegalMoves(GameEngine, pos)
    ensures MoveInBoard(m)
    ensures var g := pos.pieces;
            var taken := TakenUpTo(With(With(g, m.from, NoPiece), m.to, At(g, m.from)), m.captures, |m.captures|);
            forall k | 0 <= k < |m.captures|
              :: taken[k] == At(g, m.captures[k]) && IsOpponent(taken[k], pos.currentPlayer)
  {
    var g, side := pos.pieces, pos.currentPlayer;
    LegalGameTarget(pos, m);
    if m.captures != [] {
      LegalCaptureShape(GameEngine, pos, m);
      var placed := With(With(g, m.from, NoPiece), m.to, At(g, m.from));
      TakenUpToDistinct(placed, m.captures, |m.captures|);
      OwnershipShape(At(g, m.from), side);
      forall k | 0 <= k < |m.captures|
        ensures At(placed, m.captures[k]) == At(g, m.captures[k]) && IsOpponent(At(g, m.captures[k]), side)
      {
        var c := m.captures[k];
        assert c in m.captures;
        assert c != m.from && c != m.to;
      }
    }
  }

  /** The entry of `SQUARE_NUMBERS` a cell's row and column index is the cell's number. */
  lemma NumberTable(row: int, col: int)
    requires 0 <= row < BOARD_SIZE && 0 <= col < BOARD_SIZE
    ensures 0 <= row * BOARD_SIZE + col < |SQUARE_NUMBERS|
    ensures SQUARE_NUMBERS[row * BOARD_SIZE + col] == NumberOf(Square(row, col))
  {
    CellOfIndex(Square(row, col));
    SquareNumberFormulaAt(row * BOARD_SIZE + col);
  }

  /** No cell the row-by-row scan has passed at (i, j) carries the number `n`. */
  ghost predicate Unnumbered(n: int, i: int, j: int)
  {
    forall s | Before(s, i, j) :: NumberOf(s) != n
  }

  lemma UnnumberedStep(n: int, row: int, col: int)
    requires InBoard(Square(row, col)) && Unnumbered(n, row, col) && NumberOf(Square(row, col)) != n
    ensures Unnumbered(n, row, col + 1)
  {
    forall s | Before(s, row, col + 1)
      ensures NumberOf(s) != n
    {
      BeforeStep(s, row, col + 1);
    }
  }

  lemma UnnumberedRow(n: int, row: int)
    requires 0 <= row < BOARD_SIZE && Unnumbered(n, row, BOARD_SIZE)
    ensures Unnumbered(n, row + 1, 0)
  {
  }

  /** The first cell of the scan carrying `n` is the cell `getPositionFromNumber` returns. */
  lemma FirstNumbered(n: int, sq: Square)
    requires InBoard(sq) && NumberOf(sq) == n && Unnumbered(n, sq.row, sq.col)
    ensures PositionFromNumber(n) == Some(sq)
  {
    var v := PositionFromNumber(n).value;
    assert !Before(v, sq.row, sq.col);
  }

  /** When no cell carries `n`, there is no position for it. */
  lemma NoneNumbered(n: int)
    requires Unnumbered(n, BOARD_SIZE, 0)
    ensures PositionFromNumber(n) == None
  {
  }

  /** The tokens of the pieces of colour `c` the row-by-row scan has passed at (i, j): those of
      the first `i * BOARD_SIZE + j` cells. */
  function TokensBefore(g: Grid, c: Player, i: int, j: int): seq<string>
    requires ScanPoint(i, j)
  {
    ScanIndex(i, j);
    TokensUpTo(g, c, i * BOARD_SIZE + j)
  }

  /** One cell of the scan: the tokens at (row, col + 1) extend those at (row, col) by the
      token of the piece on it when the cell is dark and the piece is of colour `c`. */
  lemma FenStep(g: Grid, c: Player, row: int, col: int)
    requires 0 <= row < BOARD_SIZE && 0 <= col < BOARD_SIZE
    ensures var sq, piece := Square(row, col), At(g, Square(row, col));
      TokensBefore(g, c, row, col + 1) == TokensBefore(g, c, row, col) +
      (if IsDark(sq) && HasColour(piece, c)
       then [NatToString(NumberOf(sq)) + (if piece == (if c == White then WhiteKing else BlackKing) then "K" else "")]
       else [])
  {
    var sq := Square(row, col);
    TokensUpToCell(g, c, sq);
    if HasColour(At(g, sq), c) {
      TokenOfColour(At(g, sq), c, sq);
    }
  }

  /** The token the writer builds for a piece of colour `c`: the king test names the king of `c`. */
  lemma TokenOfColour(p: Piece, c: Player, sq: Square)
    requires InBoard(sq) && HasColour(p, c)
    ensures Token(p, sq) == NatToString(NumberOf(sq)) + (if p == (if c == White then WhiteKing else BlackKing) then "K" else "")
  { }

  /** The end of a row is the start of the next. */
  lemma RowDone(g: Grid, c: Player, row: int)
    requires 0 <= row < BOARD_SIZE
    ensures TokensBefore(g, c, row + 1, 0) == TokensBefore(g, c, row, BOARD_SIZE)
  {
  }

  // ------------------------------------------------------ the start in FEN

  /** The decimal texts of the numbers `a` up to `b - 1`, in increasing order. */
  function NumberTexts(a: nat, b: int): seq<string>
    decreases b - a
  {
    if b <= a then [] else NumberTexts(a, b - 1) + [NatToString(b - 1)]
  }

  /** One more number is one more text at the end. */
  lemma NumberTextsSnoc(a: nat, b: nat)
    requires a <= b
    ensures NumberTexts(a, b + 1) == NumberTexts(a, b) + [NatToString(b)]
  {
  }

  /** The texts of a..b-1 are those of a..m-1 followed by those of m..b-1. */
  lemma {:induction false} NumberTextsSplit(a: nat, m: nat, b: nat)
    requires a <= m <= b
    ensures NumberTexts(a, b) == NumberTexts(a, m) + NumberTexts(m, b)
    decreases b
  {
    if b > m {
      NumberTextsSplit(a, m, b - 1);
      ConcatAssoc(NumberTexts(a, m), NumberTexts(m, b - 1), [NatToString(b - 1)]);
    } else {
      assert NumberTexts(m, b) == [];
    }
  }

  /** The joined texts of a..b-1 are those of a..m-1, a comma, and those of m..b-1. */
  lemma JoinNumberTexts(a: nat, m: nat, b: nat)
    requires a < m < b
    ensures Join(NumberTexts(a, b), ',') == Join(NumberTexts(a, m), ',') + "," + Join(NumberTexts(m, b), ',')
  {
    NumberTextsSplit(a, m, b);
    JoinAppend(NumberTexts(a, m), NumberTexts(m, b), ',');
  }

  /** A dark cell of row `i` carries the number after the five of each earlier row and the
      dark cells before it in its own row. */
  lemma NumberOfDark(i: int, j: int)
    requires 0 <= i < BOARD_SIZE && 0 <= j < BOARD_SIZE && IsDark(Square(i, j))
    ensures NumberOf(Square(i, j)) == 5 * i + DarkBefore(i, j) + 1
  {
  }

  /** The rows the men of colour `c` start on. */
  predicate StartRow(c: Player, i: int)
  {
    if c == White then 6 <= i else i < 4
  }

  /** The first number of the men of colour `c`. */
  function StartNumber(c: Player): nat
  {
    if c == White then 31 else 1
  }

  /** How many men of colour `c` the scan of the starting layout has met at point (i, j):
      five for each finished row of that colour's four rows, then the dark cells before (i, j). */
  function StartSeen(c: Player, i: int, j: int): int
  {
    var first := if c == White then 6 else 0;
    if i < first then 0 else if i < first + 4 then 5 * (i - first) + DarkBefore(i, j) else 20
  }

  /** The count at the start of a row is the count at the end of the one before. */
  lemma StartSeenRow(c: Player, i: int)
    requires 0 < i <= BOARD_SIZE
    ensures StartSeen(c, i, 0) == StartSeen(c, i - 1, BOARD_SIZE)
  {
    DarkBeforeStep(i - 1, 1);
    DarkBeforeStep(i, 1);
  }

  /** The scan of the starting layout has listed, at point (i, j), the numbers of the men of
      colour `c` it has met. */
  predicate StartScanned(g: Grid, c: Player, i: int, j: int)
    requires ScanPoint(i, j)
  {
    TokensBefore(g, c, i, j) == NumberTexts(StartNumber(c), StartNumber(c) + StartSeen(c, i, j))
  }

  /** One cell of the scan of the starting layout: a dark cell of a starting row adds the text
      of its number, the next of the colour's numbers. */
  lemma StartTokenCell(g: Grid, c: Player, i: int, j: int)
    requires IsStartGrid(g) && 0 <= i < BOARD_SIZE && 0 <= j < BOARD_SIZE
    requires StartScanned(g, c, i, j)
    ensures StartScanned(g, c, i, j + 1)
  {
    var sq, a := Square(i, j), StartNumber(c);
    var b := a + StartSeen(c, i, j);
    FenStep(g, c, i, j);
    DarkBeforeStep(i, j + 1);
    assert At(g, sq) == StartCell(sq);
    if IsDark(sq) && StartRow(c, i) {
      NumberOfDark(i, j);
      assert NatToString(NumberOf(sq)) + "" == NatToString(b);
      NumberTextsSnoc(a, b);
    } else {
      assert NumberTexts(a, b) + [] == NumberTexts(a, b);
    }
  }

  /** The writer's scan of the starting layout lists the numbers of the men of colour `c`, in
      increasing order, from the colour's first number on. */
  lemma StartTokens(g: Grid, c: Player, i: int, j: int)
    requires IsStartGrid(g) && ScanPoint(i, j)
    ensures StartScanned(g, c, i, j)
  {
    StartTokensRows(g, c, i);
    if j > 0 {
      StartTokensAlong(g, c, i, j);
    }
  }

  /** `StartTokens` at the start of every row. */
  lemma {:induction false} StartTokensRows(g: Grid, c: Player, i: int)
    requires IsStartGrid(g) && 0 <= i <= BOARD_SIZE
    ensures StartScanned(g, c, i, 0)
  {
    if i > 0 {
      StartTokensRows(g, c, i - 1);
      StartTokensAlong(g, c, i - 1, BOARD_SIZE);
      RowDone(g, c, i - 1);
      StartSeenRow(c, i);
    } else {
      assert StartSeen(c, 0, 0) == 0;
    }
  }

  /** From the start of row `i`, `StartTokens` holds along the row. */
  lemma {:induction false} StartTokensAlong(g: Grid, c: Player, i: int, j: int)
    requires IsStartGrid(g) && 0 <= i < BOARD_SIZE && 0 <= j <= BOARD_SIZE
    requires StartScanned(g, c, i, 0)
    ensures StartScanned(g, c, i, j)
  {
    if j > 0 {
      var k := j - 1;
      StartTokensAlong(g, c, i, k);
      StartTokenCell(g, c, i, k);
    }
  }

  /** From the starting layout with white to move, `getFEN` writes `FEN.START_POSITION`, and so
      does the notation's writer. */
  lemma StartFen(g: Grid)
    requires IsStartGrid(g)
    ensures GetFen(g, White) == START_POSITION && GetFenAsWritten(g, White) == START_POSITION
  {
    StartTokens(g, White, BOARD_SIZE, 0);
    StartTokens(g, Black, BOARD_SIZE, 0);
    WhiteStartText();
    BlackStartText();
    FenText('W', Join(NumberTexts(31, 51), ','), Join(NumberTexts(1, 21), ','));
  }

  /** The white section of the start: the numbers 31..50. */
  lemma WhiteStartText()
    ensures Join(NumberTexts(31, 51), ',')
         == "31,32,33,34,35" + "," + "36,37,38,39,40" + "," + ("41,42,43,44,45" + "," + "46,47,48,49,50")
  {
    JoinNumberTexts(31, 41, 51);
    WhiteStartLow();
    WhiteStartHigh();
  }

  lemma WhiteStartLow()
    ensures Join(NumberTexts(31, 41), ',') == "31,32,33,34,35" + "," + "36,37,38,39,40"
  {
    JoinNumberTexts(31, 36, 41);
    FiveTexts31();
    FiveTexts36();
  }

  lemma WhiteStartHigh()
    ensures Join(NumberTexts(41, 51), ',') == "41,42,43,44,45" + "," + "46,47,48,49,50"
  {
    JoinNumberTexts(41, 46, 51);
    FiveTexts41();
    FiveTexts46();
  }

  /** The black section of the start: the numbers 1..20. */
  lemma BlackStartText()
    ensures Join(NumberTexts(1, 21), ',')
         == "1,2,3,4,5" + "," + "6,7,8,9,10" + "," + ("11,12,13,14,15" + "," + "16,17,18,19,20")
  {
    JoinNumberTexts(1, 11, 21);
    BlackStartLow();
    BlackStartHigh();
  }

  lemma BlackStartLow()
    ensures Join(NumberTexts(1, 11), ',') == "1,2,3,4,5" + "," + "6,7,8,9,10"
  {
    JoinNumberTexts(1, 6, 11);
    FiveTexts1();
    FiveTexts6();
  }

  lemma BlackStartHigh()
    ensures Join(NumberTexts(11, 21), ',') == "11,12,13,14,15" + "," + "16,17,18,19,20"
  {
    JoinNumberTexts(11, 16, 21);
    FiveTexts11();
    FiveTexts16();
  }

  lemma FiveTexts1() ensures Join(NumberTexts(1, 6), ',') == "1,2,3,4,5"
  {
    assert NumberTexts(1, 6) == ["1", "2", "3", "4", "5"];
  }
  lemma FiveTexts6() ensures Join(NumberTexts(6, 11), ',') == "6,7,8,9,10" { }
  lemma FiveTexts11() ensures Join(NumberTexts(11, 16), ',') == "11,12,13,14,15" { }
  lemma FiveTexts16() ensures Join(NumberTexts(16, 21), ',') == "16,17,18,19,20" { }
  lemma FiveTexts31() ensures Join(NumberTexts(31, 36), ',') == "31,32,33,34,35" { }
  lemma FiveTexts36() ensures Join(NumberTexts(36, 41), ',') == "36,37,38,39,40" { }
  lemma FiveTexts41() ensures Join(NumberTexts(41, 46), ',') == "41,42,43,44,45" { }
  lemma FiveTexts46() ensures Join(NumberTexts(46, 51), ',') == "46,47,48,49,50" { }

  /** The three sections joined with `:`, the first two tagged `tag`, are the text `getFEN`
      assembles. */
  lemma FenText(tag: char, w: string, b: string)
    ensures Join([[tag], [tag] + w, "B" + b], ':') == [tag, ':', tag] + w + ":B" + b
  {
    var parts := [[tag], [tag] + w, "B" + b];
    assert parts[1..] == [[tag] + w, "B" + b];
    assert parts[1..][1..] == ["B" + b];
    calc {
      Join(parts, ':');
      [tag] + [':'] + Join([[tag] + w, "B" + b], ':');
      [tag] + [':'] + ([tag] + w + [':'] + Join(["B" + b], ':'));
      [tag] + [':'] + ([tag] + w + [':'] + ("B" + b));
    }
    assert [tag] + [':'] + ([tag] + w + [':'] + ("B" + b)) == [tag, ':', tag] + w + ":B" + b;
  }

  /** The test `findNormalMoves` makes on the cell one step away is the rules' step test. */
  lemma StepTest(g: Grid, at: Square, d: Dir, newRow: int, newCol: int, target: Piece)
    requires newRow == at.row + d.dy && newCol == at.col + d.dx
    requires target == PieceAt(g, Square(newRow, newCol))
    ensures Square(newRow, newCol) == Step(at, d, 1)
    ensures CanStep(GameEngine, g, at, d)
            <==> 0 <= newRow < BOARD_SIZE && 0 <= newCol < BOARD_SIZE && target == NoPiece && IsDark(Square(newRow, newCol))
  {
  }

  /** `capturedPieces`: the pieces each side has captured, in the order taken. */
  datatype Captures = Captures(white: seq<Piece>, black: seq<Piece>)
  {
    /** `capturedPieces[side]`. */
    function Of(side: Player): seq<Piece>
    {
      if side == White then white else black
    }

    /** `capturedPieces[side].push(p)`: one more piece at the end of `side`'s list, the other
        list as it was. */
    function Push(side: Player, p: Piece): (c: Captures)
      ensures c.Of(side) == Of(side) + [p]
      ensures c.Of(Opponent(side)) == Of(Opponent(side))
    {
      if side == White then Captures(white + [p], black) else Captures(white, black + [p])
    }
  }

  /** Nothing captured by either side. */
  const NO_CAPTURES := Captures([], [])

  class Game {
    var pieces: Grid
    var currentPlayer: Player
    var gameState: GameState
    var moveHistory: seq<MoveRecord>
    var capturedPieces: Captures
    var gameMode: GameMode

    /** The position the rules see: the board and the side to move. */
    function Pos(): Position
      reads this`pieces, this`currentPlayer
    {
      Position(pieces, currentPlayer)
    }

    /** `new Game()`: a reset game. */
    constructor ()
      ensures IsStartGrid(pieces) && currentPlayer == White && gameState == Ongoing
      ensures moveHistory == [] && capturedPieces == NO_CAPTURES && gameMode == Normal
    {
      pieces := EMPTY_GRID;
      currentPlayer := White;
      gameState := Ongoing;
      moveHistory := [];
      capturedPieces := NO_CAPTURES;
      gameMode := Normal;
      new;
      Reset();
    }

    /** `reset`: a cleared board set up in the starting layout, white to move, the game going on,
        nothing played or captured, normal play. */
    method Reset()
      modifies this
      ensures IsStartGrid(pieces) && currentPlayer == White && gameState == Ongoing
      ensures moveHistory == [] && capturedPieces == NO_CAPTURES && gameMode == Normal
    {
      pieces := EMPTY_GRID;
      currentPlayer := White;
      gameState := Ongoing;
      moveHistory := [];
      capturedPieces := NO_CAPTURES;
      gameMode := Normal;
      SetupInitialPosition();
    }

    /** `setupInitialPosition`: every cell cleared, then black men on the dark cells of rows
        0..3 and white men on those of rows 6..9; nothing else changes. */
    method SetupInitialPosition()
      modifies this`pieces
      ensures IsStartGrid(pieces)
    {
      var board := pieces;
      for row := 0 to BOARD_SIZE
        invariant forall s | InBoard(s) :: At(board, s) == (if s.row < row then NoPiece else At(pieces, s))
      {
        for col := 0 to BOARD_SIZE
          invariant forall s | InBoard(s)
                      :: At(board, s) == (if Before(s, row, col) then NoPiece else At(pieces, s))
        {
          board := With(board, Square(row, col), NoPiece);
        }
      }
      for row := 0 to 4
        invariant forall s | InBoard(s)
                    :: At(board, s) == (if s.row < row && IsDark(s) then BlackMan else NoPiece)
      {
        for col := 0 to BOARD_SIZE
          invariant forall s | InBoard(s)
                      :: At(board, s) == (if Before(s, row, col) && IsDark(s) then BlackMan else NoPiece)
        {
          if IsDark(Square(row, col)) {
            board := With(board, Square(row, col), BlackMan);
          }
        }
      }
      for row := 6 to BOARD_SIZE
        invariant forall s | InBoard(s)
                    :: At(board, s) == (if s.row < 4 && IsDark(s) then BlackMan
                                         else if 6 <= s.row < row && IsDark(s) then WhiteMan
                                         else NoPiece)
      {
        for col := 0 to BOARD_SIZE
          invariant forall s | InBoard(s)
                      :: At(board, s) == (if s.row < 4 && IsDark(s) then BlackMan
                                           else if 6 <= s.row && Before(s, row, col) && IsDark(s) then WhiteMan
                                           else NoPiece)
        {
          if IsDark(Square(row, col)) {
            board := With(board, Square(row, col), WhiteMan);
          }
        }
      }
      pieces := board;
    }

    /** `getPiece`: the piece on the cell, `NONE` for coordinates off the board. */
    method GetPiece(row: int, col: int) returns (piece: Piece)
      ensures InBoard(Square(row, col)) ==> piece == At(pieces, Square(row, col))
      ensures !InBoard(Square(row, col)) ==> piece == NoPiece
    {
      if 0 <= row < BOARD_SIZE && 0 <= col < BOARD_SIZE {
        return pieces[row][col];
      }
      return NoPiece;
    }

    /** `setPiece`: the one cell replaced, every other cell and field unchanged; for coordinates
        off the board nothing changes. */
    method SetPiece(row: int, col: int, piece: Piece)
      modifies this`pieces
      ensures pieces == PutPiece(old(pieces), Square(row, col), piece)
    {
      if 0 <= row < BOARD_SIZE && 0 <= col < BOARD_SIZE {
        pieces := With(pieces, Square(row, col), piece);
      }
    }

    // ----------------------------------------------------- move generation

    /** `findNormalMoves`: the open single steps of the piece at (row, col) onto empty dark
        cells, appended. */
    method FindNormalMoves(moves: seq<Move>, row: int, col: int) returns (out: seq<Move>)
      requires InBoard(Square(row, col))
      ensures var at := Square(row, col);
              out == moves + StepsUpTo(GameEngine, pieces, currentPlayer, at,
                                       |DirectionsFor(At(pieces, at), currentPlayer)|)
    {
      var at := Square(row, col);
      var piece := GetPiece(row, col);
      var isKing := piece == WhiteKing || piece == BlackKing;
      var directions := if isKing then KING_MOVES
                        else if currentPlayer == White then WHITE_MOVES else BLACK_MOVES;
      assert directions == DirectionsFor(At(pieces, at), currentPlayer);
      out := moves;
      for i := 0 to |directions|
        invariant out == moves + StepsUpTo(GameEngine, pieces, currentPlayer, at, i)
      {
        var dir := directions[i];
        var newRow, newCol := row + dir.dy, col + dir.dx;
        var target := GetPiece(newRow, newCol);
        StepTest(pieces, at, dir, newRow, newCol, target);
        StepsUpToNext(GameEngine, pieces, currentPlayer, at, i, moves);
        if 0 <= newRow < BOARD_SIZE && 0 <= newCol < BOARD_SIZE && target == NoPiece
           && IsDark(Square(newRow, newCol))
        {
          out := out + [Move(at, Square(newRow, newCol), [])];
        } else {
          assert out + [] == out;
        }
      }
    }

    /** `isValidCapture`: the landing cell is on the board, empty, dark and not yet departed
        from, and the jumped cell holds an opponent piece; for the cells one and two steps away
        in a direction, this is the rules' jump test. */
    method IsValidCapture(fromRow: int, fromCol: int, captureRow: int, captureCol: int,
                          landingRow: int, landingCol: int, visitedSquares: seq<Square>)
      returns (valid: bool)
      ensures forall d: Dir | IsDiagonal(d) && InBoard(Square(fromRow, fromCol))
                              && Square(captureRow, captureCol) == Step(Square(fromRow, fromCol), d, 1)
                              && Square(landingRow, landingCol) == Step(Square(fromRow, fromCol), d, 2)
                :: valid == CanJump(GameEngine, pieces, currentPlayer, Square(fromRow, fromCol), d, visitedSquares)
      ensures valid ==> InBoard(Square(landingRow, landingCol)) && IsDark(Square(landingRow, landingCol))
                        && At(pieces, Square(landingRow, landingCol)) == NoPiece
                        && Square(landingRow, landingCol) !in visitedSquares
                        && IsOpponent(PieceAt(pieces, Square(captureRow, captureCol)), currentPlayer)
    {
      var landing := GetPiece(landingRow, landingCol);
      if !(0 <= landingRow < BOARD_SIZE && 0 <= landingCol < BOARD_SIZE) || landing != NoPiece
         || !IsDark(Square(landingRow, landingCol))
      {
        return false;
      }
      if Square(landingRow, landingCol) in visitedSquares {
        return false;
      }
      var capturedPiece := GetPiece(captureRow, captureCol);
      valid := IsOpponent(capturedPiece, currentPlayer);
    }

    /** `findCaptureMoves`: every capture sequence continuing from (row, col), appended; the
        board is the same afterwards, every jumped piece having been put back. */
    method FindCaptureMoves(captures: seq<Move>, row: int, col: int,
                            currentCaptures: seq<Square>, visitedSquares: seq<Square>)
      returns (out: seq<Move>)
      requires TreeNode(pieces, currentPlayer, Square(row, col), currentCaptures, visitedSquares)
      modifies this`pieces
      ensures unchanged(this)
      ensures out == captures + CaptureTree(GameEngine, pieces, currentPlayer, Square(row, col),
                                            currentCaptures, visitedSquares)
      decreases OpponentCount(pieces, currentPlayer), 1
    {
      var at := Square(row, col);
      var piece := GetPiece(row, col);
      var isKing := piece == WhiteKing || piece == BlackKing;
      var foundCapture := false;
      var directions := if isKing then KING_MOVES
                        else if currentPlayer == White then WHITE_MOVES else BLACK_MOVES;
      ghost var g, side := pieces, currentPlayer;
      assert directions == DirectionsFor(At(g, at), side);
      out := captures;
      for i := 0 to |directions|
        invariant unchanged(this)
        invariant out == captures + JumpsUpTo(GameEngine, g, side, at, currentCaptures, visitedSquares, i)
        invariant foundCapture <==> JumpAmong(GameEngine, g, side, at, directions, visitedSquares, i)
      {
        var dir := directions[i];
        JumpsUpToNext(GameEngine, g, side, at, currentCaptures, visitedSquares, i, captures);
        var jumped;
        out, jumped := TryCapture(out, row, col, dir, currentCaptures, visitedSquares);
        JumpAmongNext(GameEngine, g, side, at, directions, visitedSquares, i);
        if jumped {
          foundCapture := true;
        }
      }
      CaptureTreeEnd(GameEngine, g, side, at, currentCaptures, visitedSquares, captures, foundCapture);
      if !foundCapture && |currentCaptures| > 0 {
        out := out + [Move(visitedSquares[0], at, currentCaptures)];
      }
    }

    /** The body of the direction loop of `findCaptureMoves`: when the jump in direction `dir`
        is open, remove the jumped piece, search on from the landing cell, and put the piece
        back; `jumped` is the value `foundCapture` is set from. */
    method TryCapture(captures: seq<Move>, row: int, col: int, dir: Dir,
                      currentCaptures: seq<Square>, visitedSquares: seq<Square>)
      returns (out: seq<Move>, jumped: bool)
      requires TreeNode(pieces, currentPlayer, Square(row, col), currentCaptures, visitedSquares)
      requires IsDiagonal(dir)
      modifies this`pieces
      ensures unchanged(this)
      ensures jumped == CanJump(GameEngine, pieces, currentPlayer, Square(row, col), dir, visitedSquares)
      ensures out == captures + JumpsThrough(GameEngine, pieces, currentPlayer, Square(row, col),
                                             currentCaptures, visitedSquares, dir)
      decreases OpponentCount(pieces, currentPlayer), 0
    {
      var at := Square(row, col);
      var captureRow, captureCol := row + dir.dy, col + dir.dx;
      var landingRow, landingCol := row + 2 * dir.dy, col + 2 * dir.dx;
      assert Square(captureRow, captureCol) == Step(at, dir, 1) && Square(landingRow, landingCol) == Step(at, dir, 2);
      out := captures;
      jumped := IsValidCapture(row, col, captureRow, captureCol, landingRow, landingCol, visitedSquares);
      ghost var g := pieces;
      assert jumped == CanJump(GameEngine, g, currentPlayer, at, dir, visitedSquares);
      if jumped {
        var over := Square(captureRow, captureCol);
        assert InBoard(over);
        JumpShrinks(GameEngine, g, currentPlayer, at, dir, currentCaptures, visitedSquares);
        var capturedPiece := GetPiece(captureRow, captureCol);
        SetPiece(captureRow, captureCol, NoPiece);
        assert pieces == AfterJump(GameEngine, g, at, dir, currentCaptures);
        ghost var found := CaptureTree(GameEngine, pieces, currentPlayer, Step(at, dir, 2), currentCaptures + [over], visitedSquares + [at]);
        assert found == JumpsThrough(GameEngine, g, currentPlayer, at, currentCaptures, visitedSquares, dir);
        out := FindCaptureMoves(out, landingRow, landingCol, currentCaptures + [over], visitedSquares + [at]);
        assert out == captures + found;
        assert capturedPiece == At(g, over) && pieces == With(g, over, NoPiece);
        SetPiece(captureRow, captureCol, capturedPiece);
        WithRestores(g, over, NoPiece);
      } else {
        assert JumpsThrough(GameEngine, g, currentPlayer, at, currentCaptures, visitedSquares, dir) == [];
        assert out == captures + [];
      }
    }

    /** `getAvailableCaptures`: the longest capture sequences of the side to move; the board is
        the same afterwards. */
    method GetAvailableCaptures() returns (result: seq<Move>)
      modifies this`pieces
      ensures unchanged(this)
      ensures result == CaptureMoves(GameEngine, Pos())
    {
      var captures := [];
      for row := 0 to BOARD_SIZE
        invariant unchanged(this)
        invariant captures == CapturesBefore(GameEngine, Pos(), row, 0)
      {
        for col := 0 to BOARD_SIZE
          invariant unchanged(this)
          invariant captures == CapturesBefore(GameEngine, Pos(), row, col)
        {
          var piece := GetPiece(row, col);
          if IsOwn(piece, currentPlayer) {
            OwnershipShape(piece, currentPlayer);
            captures := FindCaptureMoves(captures, row, col, [], []);
          }
        }
      }
      result := KeepLongestCaptures(captures);
    }

    /** `getNormalMoves`: the open steps of every piece of the side to move, cell by cell. */
    method GetNormalMoves() returns (moves: seq<Move>)
      ensures moves == NormalMoves(GameEngine, Pos())
    {
      ghost var pos := Pos();
      moves := [];
      for row := 0 to BOARD_SIZE
        invariant moves == NormalBefore(GameEngine, pos, row, 0)
      {
        for col := 0 to BOARD_SIZE
          invariant moves == NormalBefore(GameEngine, pos, row, col)
        {
          NormalCellStep(GameEngine, pos, row, col);
          var piece := GetPiece(row, col);
          if IsOwn(piece, currentPlayer) {
            moves := FindNormalMoves(moves, row, col);
          } else {
            assert moves + [] == moves;
          }
        }
        NormalRowDone(GameEngine, pos, row);
      }
    }

    /** `getLegalMoves`: the captures when there are any, otherwise every open step; the board
        is the same afterwards. */
    method GetLegalMoves() returns (moves: seq<Move>)
      modifies this`pieces
      ensures unchanged(this)
      ensures moves == LegalMoves(GameEngine, Pos())
    {
      var captures := GetAvailableCaptures();
      if |captures| > 0 {
        return captures;
      }
      moves := GetNormalMoves();
    }

    /** `isValidMove`: the move's start and end cells are those of a legal move. (The checks made
        before the legal-move search, on the board, own piece, empty and dark target, never
        reject such a move: see `GameMovesTargets`.) */
    method IsValidMove(move: Move) returns (valid: bool)
      modifies this`pieces
      ensures unchanged(this)
      ensures valid <==> SameEnds(move, LegalMoves(GameEngine, Pos()))
      ensures valid ==> InBoard(move.from) && InBoard(move.to)
    {
      GameMovesTargets(Pos());
      if !(0 <= move.from.row < BOARD_SIZE && 0 <= move.from.col < BOARD_SIZE)
         || !(0 <= move.to.row < BOARD_SIZE && 0 <= move.to.col < BOARD_SIZE)
      {
        return false;
      }
      var piece := GetPiece(move.from.row, move.from.col);
      if !IsOwn(piece, currentPlayer) {
        return false;
      }
      var target := GetPiece(move.to.row, move.to.col);
      if target != NoPiece {
        return false;
      }
      if !IsDark(move.to) {
        return false;
      }
      var legalMoves := GetLegalMoves();
      valid := SameEnds(move, legalMoves);
    }

    // ------------------------------------------------------------- playing

    /** `makeMove`: a move whose ends are not those of a legal move is refused and nothing
        changes. Otherwise the move is played as `PlayMove` says. */
    method MakeMove(move: Move) returns (ok: bool)
      modifies this
      ensures ok <==> SameEnds(move, LegalMoves(GameEngine, old(Pos())))
      ensures !ok ==> unchanged(this)
      ensures ok ==> InBoard(move.from) && InBoard(move.to)
      ensures ok ==> Played(old(pieces), old(currentPlayer), old(gameState), old(moveHistory), old(capturedPieces.Of(currentPlayer)),
                          old(capturedPieces.Of(Opponent(currentPlayer))), old(gameMode), move)
    {
      var valid := IsValidMove(move);
      if !valid {
        return false;
      }
      PlayMove(move);
      return true;
    }

    /** The state after `makeMove` has played a move from `pieces0`, `side0`, ...: the move is
        recorded with the piece and its notation, the piece moves, each captured cell's piece
        is added to the mover's captured list and the cell blanked, a man on the far row is
        crowned, the turn passes in normal play only, and the state of the game is re-evaluated
        (in normal play). */
    ghost predicate Played(pieces0: Grid, side0: Player, state0: GameState, history0: seq<MoveRecord>,
                           mine0: seq<Piece>, theirs0: seq<Piece>, mode0: GameMode, move: Move)
      requires InBoard(move.from) && InBoard(move.to)
      reads this
    {
      var piece := At(pieces0, move.from);
      var placed := With(With(pieces0, move.from, NoPiece), move.to, piece);
      && moveHistory == history0 + [MoveRecord(move.from, move.to, piece, move.captures, MoveNotation(move))]
      && pieces == PlayedGrid(pieces0, move)
      && capturedPieces.Of(side0) == mine0 + TakenUpTo(placed, move.captures, |move.captures|)
      && capturedPieces.Of(Opponent(side0)) == theirs0
      && gameMode == mode0
      && currentPlayer == (if gameMode == Normal then Opponent(side0) else side0)
      && gameState == (if gameMode == Edit then state0 else Outcome(pieces, currentPlayer, |moveHistory|))
    }

    /** The part of `makeMove` after the move has been accepted. */
    method PlayMove(move: Move)
      requires InBoard(move.from) && InBoard(move.to)
      modifies this
      ensures moveHistory == old(moveHistory) + [MoveRecord(move.from, move.to, At(old(pieces), move.from), move.captures, MoveNotation(move))]
      ensures pieces == PlayedGrid(old(pieces), move)
      ensures capturedPieces.Of(old(currentPlayer)) == old(capturedPieces.Of(currentPlayer))
                + TakenUpTo(With(With(old(pieces), move.from, NoPiece), move.to, At(old(pieces), move.from)), move.captures, |move.captures|)
      ensures capturedPieces.Of(Opponent(old(currentPlayer))) == old(capturedPieces.Of(Opponent(currentPlayer)))
      ensures gameMode == old(gameMode)
      ensures currentPlayer == (if gameMode == Normal then Opponent(old(currentPlayer)) else old(currentPlayer))
      ensures gameState == (if gameMode == Edit then old(gameState) else Outcome(pieces, currentPlayer, |moveHistory|))
    {
      var piece := GetPiece(move.from.row, move.from.col);
      var moveRecord := MoveRecord(move.from, move.to, piece, move.captures, MoveNotation(move));
      moveHistory := moveHistory + [moveRecord];
      PlayOnBoard(move, piece);
      EndTurn();
    }

    /** The end of `makeMove`: the turn passes in normal play only, then the state of the game
        is re-evaluated. */
    method EndTurn()
      modifies this`currentPlayer, this`pieces, this`gameState
      ensures unchanged(this`pieces)
      ensures currentPlayer == (if gameMode == Normal then Opponent(old(currentPlayer)) else old(currentPlayer))
      ensures gameState == (if gameMode == Edit then old(gameState) else Outcome(pieces, currentPlayer, |moveHistory|))
    {
      if gameMode == Normal {
        currentPlayer := if currentPlayer == White then Black else White;
      }
      UpdateGameState();
    }

    /** The board part of `makeMove`: the piece moved, the captured pieces recorded for the
        side to move as their cells are blanked, and the promotion. */
    method PlayOnBoard(move: Move, piece: Piece)
      requires InBoard(move.from) && InBoard(move.to) && piece == At(pieces, move.from)
      modifies this`pieces, this`capturedPieces
      ensures pieces == PlayedGrid(old(pieces), move)
      ensures var placed := With(With(old(pieces), move.from, NoPiece), move.to, piece);
              capturedPieces.Of(currentPlayer) == old(capturedPieces.Of(currentPlayer)) + TakenUpTo(placed, move.captures, |move.captures|)
      ensures capturedPieces.Of(Opponent(currentPlayer)) == old(capturedPieces.Of(Opponent(currentPlayer)))
    {
      SetPiece(move.from.row, move.from.col, NoPiece);
      SetPiece(move.to.row, move.to.col, piece);
      assert pieces == With(With(old(pieces), move.from, NoPiece), move.to, piece);
      TakeCaptures(move.captures);
      if ShouldPromote(piece, move.to.row) {
        SetPiece(move.to.row, move.to.col, if piece == WhiteMan then WhiteKing else BlackKing);
      }
    }

    /** The capture loop of `makeMove`: each captured square's piece is appended to the mover's
        captured list and the square is emptied, in the order the move lists them. */
    method TakeCaptures(captures: seq<Square>)
      modifies this`pieces, this`capturedPieces
      ensures pieces == ClearedUpTo(old(pieces), captures, |captures|)
      ensures capturedPieces.Of(currentPlayer) == old(capturedPieces.Of(currentPlayer)) + TakenUpTo(old(pieces), captures, |captures|)
      ensures capturedPieces.Of(Opponent(currentPlayer)) == old(capturedPieces.Of(Opponent(currentPlayer)))
    {
      for k := 0 to |captures|
        invariant pieces == ClearedUpTo(old(pieces), captures, k)
        invariant capturedPieces.Of(currentPlayer) == old(capturedPieces.Of(currentPlayer)) + TakenUpTo(old(pieces), captures, k)
        invariant capturedPieces.Of(Opponent(currentPlayer)) == old(capturedPieces.Of(Opponent(currentPlayer)))
      {
        var capture := captures[k];
        var capturedPiece := GetPiece(capture.row, capture.col);
        assert capturedPiece == PieceAt(ClearedUpTo(old(pieces), captures, k), captures[k]);
        capturedPieces := capturedPieces.Push(currentPlayer, capturedPiece);
        SetPiece(capture.row, capture.col, NoPiece);
      }
    }

    /** `updateGameState`: in editing mode nothing changes; in normal play the state becomes the
        `Outcome` of the board, the side to move and the number of moves played. */
    method UpdateGameState()
      modifies this`pieces, this`gameState
      ensures unchanged(this`pieces)
      ensures gameMode == Edit ==> unchanged(this`gameState)
      ensures gameMode == Normal ==> gameState == Outcome(pieces, currentPlayer, |moveHistory|)
    {
      if gameMode == Edit {
        return;
      }
      var legalMoves := GetLegalMoves();
      ghost var outcome := Outcome(pieces, currentPlayer, |moveHistory|);
      assert legalMoves == LegalMoves(GameEngine, Position(pieces, currentPlayer));
      if |legalMoves| == 0 {
        gameState := if currentPlayer == White then BlackWin else WhiteWin;
        assert gameState == outcome;
        return;
      }
      var draw := IsDrawByRepetition();
      if !draw {
        draw := IsDrawByMaterial();
      }
      assert draw <==> |moveHistory| >= 6 || MaterialDraw(pieces);
      gameState := if draw then Draw else Ongoing;
      assert gameState == outcome;
    }

    /** `isDrawByRepetition` as it stands: it counts the current position's FEN once, then once
        more on each pass over the last (up to) twenty moves, so from six moves on it finds
        three on its second pass. */
    method IsDrawByRepetition() returns (draw: bool)
      ensures draw <==> |moveHistory| >= 6
    {
      if |moveHistory| < 6 {
        return false;
      }
      var current := GetFEN();
      var positions: map<string, int> := map[current := 1];
      var start := if |moveHistory| - 20 > 0 then |moveHistory| - 20 else 0;
      for i := start to |moveHistory|
        invariant positions == map[current := 1 + (i - start)] && i - start < 2
      {
        var position := GetFEN();
        positions := positions[position := (if position in positions then positions[position] else 0) + 1];
        if positions[position] >= 3 {
          return true;
        }
      }
      return false;
    }

    /** `isDrawByMaterial`: the kinds of piece counted over the board, then the draw test. */
    method IsDrawByMaterial() returns (draw: bool)
      ensures draw <==> MaterialDraw(pieces)
    {
      var whiteKings, blackKings, whitePieces, blackPieces := 0, 0, 0, 0;
      for row := 0 to BOARD_SIZE
        invariant whiteKings == CountBefore(pieces, WhiteKing, row, 0)
        invariant blackKings == CountBefore(pieces, BlackKing, row, 0)
        invariant whitePieces == CountBefore(pieces, WhiteMan, row, 0)
        invariant blackPieces == CountBefore(pieces, BlackMan, row, 0)
      {
        for col := 0 to BOARD_SIZE
          invariant whiteKings == CountBefore(pieces, WhiteKing, row, col)
          invariant blackKings == CountBefore(pieces, BlackKing, row, col)
          invariant whitePieces == CountBefore(pieces, WhiteMan, row, col)
          invariant blackPieces == CountBefore(pieces, BlackMan, row, col)
        {
          var piece := GetPiece(row, col);
          match piece
          case WhiteKing => whiteKings := whiteKings + 1;
          case BlackKing => blackKings := blackKings + 1;
          case WhiteMan => whitePieces := whitePieces + 1;
          case BlackMan => blackPieces := blackPieces + 1;
          case NoPiece =>
        }
      }
      assert whiteKings == Count(pieces, WhiteKing) && blackKings == Count(pieces, BlackKing);
      assert whitePieces == Count(pieces, WhiteMan) && blackPieces == Count(pieces, BlackMan);
      draw := whitePieces == 0 && blackPieces == 0
              && ((whiteKings == 1 && blackKings == 1) || (whiteKings == 2 && blackKings == 1)
                  || (whiteKings == 1 && blackKings == 2));
    }

    // ----------------------------------------------------------- notation

    /** `getFEN`: the side to move, then the white and the black pieces' square numbers (a king's
        with `K`) in board order; the white section carries the side-to-move letter as its tag,
        so with black to move it reads `B` (see `FenAsWrittenMislabels`). */
    method GetFEN() returns (fen: string)
      ensures fen == GetFenAsWritten(pieces, currentPlayer)
    {
      var white: seq<string> := [];
      var black: seq<string> := [];
      for row := 0 to BOARD_SIZE
        invariant white == TokensBefore(pieces, White, row, 0)
        invariant black == TokensBefore(pieces, Black, row, 0)
      {
        for col := 0 to BOARD_SIZE
          invariant white == TokensBefore(pieces, White, row, col)
          invariant black == TokensBefore(pieces, Black, row, col)
        {
          FenStep(pieces, White, row, col);
          FenStep(pieces, Black, row, col);
          if IsDark(Square(row, col)) {
            var piece := GetPiece(row, col);
            NumberTable(row, col);
            var squareNumber := SQUARE_NUMBERS[row * BOARD_SIZE + col];
            if piece == WhiteMan || piece == WhiteKing {
              white := white + [NatToString(squareNumber) + (if piece == WhiteKing then "K" else "")];
            } else if piece == BlackMan || piece == BlackKing {
              black := black + [NatToString(squareNumber) + (if piece == BlackKing then "K" else "")];
            }
          }
        }
        RowDone(pieces, White, row);
        RowDone(pieces, Black, row);
      }
      assert white == TokensUpTo(pieces, White, TOTAL_SQUARES) && black == TokensUpTo(pieces, Black, TOTAL_SQUARES);
      var head := if currentPlayer == White then "W:W" else "B:B";
      fen := head + Join(white, ',') + ":B" + Join(black, ',');
      FenText(if currentPlayer == White then 'W' else 'B', Join(white, ','), Join(black, ','));
    }

    /** `getPositionFromNumber`: the first cell in board order whose number is `number`, `None`
        where the source throws. */
    method GetPositionFromNumber(number: int) returns (r: Option<Square>)
      ensures r == PositionFromNumber(number)
    {
      for row := 0 to BOARD_SIZE
        invariant Unnumbered(number, row, 0)
      {
        for col := 0 to BOARD_SIZE
          invariant Unnumbered(number, row, col)
        {
          NumberTable(row, col);
          if SQUARE_NUMBERS[row * BOARD_SIZE + col] == number {
            FirstNumbered(number, Square(row, col));
            return Some(Square(row, col));
          }
          UnnumberedStep(number, row, col);
        }
        UnnumberedRow(number, row);
      }
      NoneNumbered(number);
      return None;
    }

    /** `loadFEN`: the board cleared, the side set from the first section ("W" is white,
        anything else black), the white then the black pieces placed; on success the state is
        re-evaluated. A missing section or an unreadable token ends it with `false`, the pieces
        placed so far staying on the board. */
    method LoadFEN(fen: string) returns (ok: bool)
      modifies this
      ensures pieces == LoadFen(fen).pieces && currentPlayer == LoadFen(fen).side && ok == LoadFen(fen).ok
      ensures ok && gameMode == Normal ==> gameState == Outcome(pieces, currentPlayer, |moveHistory|)
      ensures !ok || gameMode == Edit ==> gameState == old(gameState)
      ensures gameMode == old(gameMode) && moveHistory == old(moveHistory)
      ensures capturedPieces == old(capturedPieces)
    {
      pieces := EMPTY_GRID;
      var parts := Split(fen, ':');
      currentPlayer := if parts[0] == "W" then White else Black;
      if |parts| < 2 {
        return false;
      }
      ok := PlaceSectionPieces(parts[1], White);
      if !ok {
        return;
      }
      if |parts| < 3 {
        return false;
      }
      ok := PlaceSectionPieces(parts[2], Black);
      if !ok {
        return;
      }
      UpdateGameState();
    }

    /** One piece section of `loadFEN`: past its tag, each non-empty `,`-separated token is a
        square number, with a trailing `K` for a king, whose cell gets a piece of colour `c`. */
    method PlaceSectionPieces(section: string, c: Player) returns (ok: bool)
      modifies this`pieces
      ensures Placed(pieces, ok) == PlaceSection(old(pieces), section, c)
    {
      if |section| <= 1 {
        return true;
      }
      var tokens := Split(section[1..], ',');
      ghost var start := pieces;
      for i := 0 to |tokens|
        invariant PlaceTokens(start, tokens[..i], c) == Placed(pieces, true)
      {
        var token := tokens[i];
        PlaceTokensNext(start, tokens, i, c);
        if token != [] {
          var isKing := token[|token| - 1] == 'K';
          var number := ParseInt(if isKing then token[..|token| - 1] else token);
          if number.None? {
            assert PlaceToken(pieces, token, c) == None;
            FailureSticks(start, tokens, i + 1, c);
            return false;
          }
          var cell := GetPositionFromNumber(number.value);
          if cell.None? {
            assert PlaceToken(pieces, token, c) == None;
            FailureSticks(start, tokens, i + 1, c);
            return false;
          }
          ghost var before := pieces;
          SetPiece(cell.value.row, cell.value.col, TokenPiece(c, isKing));
          assert PlaceToken(before, token, c) == Some(pieces);
        }
      }
      assert tokens[..|tokens|] == tokens;
      return true;
    }

    /** `clone`: a new game with the same board, side, state, mode, history and captured lists;
        being a separate object, changing one afterwards leaves the other as it was. */
    method Clone() returns (copy: Game)
      ensures fresh(copy)
      ensures copy.pieces == pieces && copy.currentPlayer == currentPlayer && copy.gameState == gameState
      ensures copy.gameMode == gameMode && copy.moveHistory == moveHistory
      ensures copy.capturedPieces == capturedPieces
    {
      copy := new Game();
      copy.pieces := pieces;
      copy.currentPlayer := currentPlayer;
      copy.gameState := gameState;
      copy.gameMode := gameMode;
      copy.moveHistory := moveHistory;
      copy.capturedPieces := capturedPieces;
    }
  }

  /** Placing one more token: the run so far, then that token on the grid it left. */
  lemma PlaceTokensNext(g: Grid, toks: seq<string>, i: int, c: Player)
    requires 0 <= i < |toks| && PlaceTokens(g, toks[..i], c).ok
    ensures var before := PlaceTokens(g, toks[..i], c).pieces;
            PlaceTokens(g, toks[..i + 1], c)
            == match PlaceToken(before, toks[i], c)
               case None => Placed(before, false)
               case Some(h) => Placed(h, true)
  {
    assert toks[..i + 1][..i] == toks[..i];
    assert toks[..i + 1][i] == toks[i];
  }

  /** Once a run of tokens has failed, placing more tokens after it changes nothing. */
  lemma {:induction false} FailureSticks(g: Grid, toks: seq<string>, n: int, c: Player)
    requires 0 <= n <= |toks| && !PlaceTokens(g, toks[..n], c).ok
    ensures PlaceTokens(g, toks, c) == PlaceTokens(g, toks[..n], c)
    decreases |toks|
  {
    if n == |toks| {
      assert toks[..n] == toks;
    } else {
      var front := toks[..|toks| - 1];
      assert front[..n] == toks[..n];
      FailureSticks(g, front, n, c);
    }
  }
}
