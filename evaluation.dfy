/**
 * The search engine's static judgement of a position: the integer score
 * (`evaluatePosition`), the material count (`countMaterial`), the complexity
 * factor (`assessPositionComplexity`) and the time-budget test built on it
 * (`isTimeExceeded`, `shouldContinueSearch`).
 */
module Evaluation {
  import opened Constants
  import opened Board
  import opened Rules

  /** The value one occupied cell adds to white's score: the piece value, +10 in the central
      4x4 block, -5 on the rim, +5 for a man on its own back row and +15 for a man within three
      rows of crowning. The positional terms are added for both colours alike. */
  function CellScore(p: Piece, sq: Square): int
    requires InBoard(sq)
  {
    if p == NoPiece then 0
    else
      var isCenter := 3 <= sq.row <= 6 && 3 <= sq.col <= 6;
      var isEdge := sq.row == 0 || sq.row == 9 || sq.col == 0 || sq.col == 9;
      var isBackRow := (p == WhiteMan && sq.row == 9) || (p == BlackMan && sq.row == 0);
      var isNearPromotion := (p == WhiteMan && sq.row <= 2) || (p == BlackMan && sq.row >= 7);
      PieceValue(p)
      + (if isCenter then CENTER_VALUE else 0)
      + (if isEdge then EDGE_VALUE else 0)
      + (if isBackRow then BACK_ROW_VALUE else 0)
      + (if isNearPromotion then PROMOTION_VALUE else 0)
  }

  /** An empty cell adds nothing; an occupied one adds its piece value shifted by at most the
      positional terms, which never outweigh it: white pieces always count for white, black
      ones against. */
  lemma CellScoreSpec(p: Piece, sq: Square)
    requires InBoard(sq)
    ensures p == NoPiece ==> CellScore(p, sq) == 0
    ensures p != NoPiece ==> PieceValue(p) + EDGE_VALUE <= CellScore(p, sq) <= PieceValue(p) + PROMOTION_VALUE
    ensures IsWhitePiece(p) ==> CellScore(p, sq) > 0
    ensures IsBlackPiece(p) ==> CellScore(p, sq) < 0
    ensures -MAX_CELL_SCORE <= CellScore(p, sq) <= MAX_CELL_SCORE
  {
  }

  /** The score of the cells the row-by-row scan has passed at point (i, j), from white's side. */
  function ScoreBefore(g: Grid, i: int, j: int): int
    requires ScanPoint(i, j)
    decreases i, j
  {
    if j == 0 then (if i == 0 then 0 else ScoreBefore(g, i - 1, BOARD_SIZE))
    else ScoreBefore(g, i, j - 1) + CellScore(g[i][j - 1], Square(i, j - 1))
  }

  /** One cell of the scan adds its score. */
  lemma ScoreCellStep(g: Grid, i: int, j: int)
    requires 0 <= i < BOARD_SIZE && 0 <= j < BOARD_SIZE
    ensures ScoreBefore(g, i, j + 1) == ScoreBefore(g, i, j) + CellScore(g[i][j], Square(i, j))
  {
  }

  /** The end of a row of the scan is the start of the next. */
  lemma ScoreRowDone(g: Grid, i: int)
    requires 0 <= i < BOARD_SIZE
    ensures ScoreBefore(g, i + 1, 0) == ScoreBefore(g, i, BOARD_SIZE)
  {
  }

  /** The number of cells the scan has passed at point (i, j). */
  function Passed(i: int, j: int): int
  {
    i * BOARD_SIZE + j
  }

  /** `evaluatePosition`: the board score, negated when black is to move. */
  function Evaluate(pos: Position): int
  {
    var s := ScoreBefore(pos.pieces, BOARD_SIZE, 0);
    if pos.currentPlayer == White then s else -s
  }

  /** The largest score a single cell can contribute, in absolute value. */
  const MAX_CELL_SCORE: int := 315

  lemma {:induction false} ScoreBeforeBounds(g: Grid, i: int, j: int)
    requires ScanPoint(i, j)
    ensures -MAX_CELL_SCORE * Passed(i, j) <= ScoreBefore(g, i, j) <= MAX_CELL_SCORE * Passed(i, j)
    decreases i, j
  {
    if j > 0 {
      ScoreBeforeBounds(g, i, j - 1);
      CellScoreSpec(g[i][j - 1], Square(i, j - 1));
    } else if i > 0 {
      ScoreBeforeBounds(g, i - 1, BOARD_SIZE);
    }
  }

  /** A grid with no piece scores 0 at every point of the scan. */
  lemma {:induction false} ScoreBeforeEmpty(g: Grid, i: int, j: int)
    requires ScanPoint(i, j) && forall s | InBoard(s) :: At(g, s) == NoPiece
    ensures ScoreBefore(g, i, j) == 0
    decreases i, j
  {
    if j > 0 {
      ScoreBeforeEmpty(g, i, j - 1);
      assert At(g, Square(i, j - 1)) == NoPiece;
    } else if i > 0 {
      ScoreBeforeEmpty(g, i - 1, BOARD_SIZE);
    }
  }

  /** Evaluating the same grid for the other side gives exactly the negated score; the empty
      board scores 0; and no position scores beyond 100 cells of the most valuable kind. */
  lemma EvaluateSpec(g: Grid, side: Player)
    ensures Evaluate(Position(g, Opponent(side))) == -Evaluate(Position(g, side))
    ensures Evaluate(Position(EMPTY_GRID, side)) == 0
    ensures -MAX_CELL_SCORE * TOTAL_SQUARES <= Evaluate(Position(g, side)) <= MAX_CELL_SCORE * TOTAL_SQUARES
  {
    EvaluateEmpty(side);
    EvaluateBounds(g, side);
  }

  /** The empty board scores 0. */
  lemma EvaluateEmpty(side: Player)
    ensures Evaluate(Position(EMPTY_GRID, side)) == 0
  {
    EmptyGridCells();
    ScoreBeforeEmpty(EMPTY_GRID, BOARD_SIZE, 0);
  }

  /** No score exceeds 100 cells of the largest cell score. */
  lemma EvaluateBounds(g: Grid, side: Player)
    ensures -MAX_CELL_SCORE * TOTAL_SQUARES <= Evaluate(Position(g, side)) <= MAX_CELL_SCORE * TOTAL_SQUARES
  {
    ScoreBeforeBounds(g, BOARD_SIZE, 0);
  }

  /** The same kind of piece in the other colour. */
  function OtherColour(p: Piece): Piece
  {
    match p
    case NoPiece => NoPiece
    case WhiteMan => BlackMan
    case BlackMan => WhiteMan
    case WhiteKing => BlackKing
    case BlackKing => WhiteKing
  }

  /** The cell seen from the other side of the board. */
  function Mirror(sq: Square): Square
  {
    Square(BOARD_SIZE - 1 - sq.row, BOARD_SIZE - 1 - sq.col)
  }

  /** The positional terms are not mirrored for black: the piece of the other colour on the
      mirrored cell gets the same positional terms, added rather than subtracted, so its score
      is the negation of this one's exactly when this cell has no positional term (for example
      a black man in the centre is worth -90 to white, the white man mirroring it +110). */
  lemma PositionalTermsFavourWhite(p: Piece, sq: Square)
    requires InBoard(sq) && p != NoPiece
    ensures CellScore(OtherColour(p), Mirror(sq)) == -PieceValue(p) + (CellScore(p, sq) - PieceValue(p))
    ensures CellScore(OtherColour(p), Mirror(sq)) == -CellScore(p, sq) <==> CellScore(p, sq) == PieceValue(p)
  {
  }

  // --------------------------------------------------------------- material

  /** Occupied cells the row-by-row scan has passed at point (i, j). */
  function MaterialBefore(g: Grid, i: int, j: int): nat
    requires ScanPoint(i, j)
    decreases i, j
  {
    if j == 0 then (if i == 0 then 0 else MaterialBefore(g, i - 1, BOARD_SIZE))
    else MaterialBefore(g, i, j - 1) + (if g[i][j - 1] != NoPiece then 1 else 0)
  }

  /** `countMaterial`: the number of pieces on the board. */
  function Material(g: Grid): nat
  {
    MaterialBefore(g, BOARD_SIZE, 0)
  }

  /** The material count never exceeds the cells passed, is 0 on the empty board, and counts
      every opponent piece. */
  lemma {:induction false} MaterialBeforeSpec(g: Grid, side: Player, i: int, j: int)
    requires ScanPoint(i, j)
    ensures MaterialBefore(g, i, j) <= Passed(i, j)
    ensures MaterialBefore(EMPTY_GRID, i, j) == 0
    ensures OpponentsBefore(g, side, i, j) <= MaterialBefore(g, i, j)
    decreases i, j
  {
    if j > 0 {
      MaterialBeforeSpec(g, side, i, j - 1);
      OwnershipShape(g[i][j - 1], side);
      EmptyGridCells();
      assert At(EMPTY_GRID, Square(i, j - 1)) == NoPiece;
    } else if i > 0 {
      MaterialBeforeSpec(g, side, i - 1, BOARD_SIZE);
    }
  }

  lemma MaterialSpec(g: Grid, side: Player)
    ensures Material(g) <= TOTAL_SQUARES
    ensures Material(EMPTY_GRID) == 0
    ensures OpponentCount(g, side) <= Material(g)
  {
    MaterialBeforeSpec(g, side, BOARD_SIZE, 0);
  }

  // ------------------------------------------------------------- complexity

  /** How many moves in `ms` capture something (`moves.filter(m => m.captures.length > 0)`). */
  function CountCapturing(ms: seq<Move>): (n: nat)
    ensures n <= |ms|
    ensures n == 0 <==> forall m | m in ms :: m.captures == []
  {
    if ms == [] then 0
    else
      assert forall m | m in ms[1..] :: m in ms;
      (if |ms[0].captures| > 0 then 1 else 0) + CountCapturing(ms[1..])
  }

  /** The complexity factor in tenths, from its three counts: 1.0, plus 0.2 for more than two
      capturing moves, plus 0.3 below ten pieces, plus 0.2 for more than fifteen moves, capped at
      1.5. */
  function ComplexityFromCounts(capturing: nat, material: nat, moves: nat): (tenths: int)
    ensures 10 <= tenths <= 15
    ensures tenths == 10 <==> capturing <= 2 && material >= 10 && moves <= 15
    ensures material < 10 ==> tenths >= 13
  {
    var c := 10 + (if capturing > 2 then 2 else 0) + (if material < 10 then 3 else 0)
                 + (if moves > 15 then 2 else 0);
    if c < 15 then c else 15
  }

  /** `assessPositionComplexity` in tenths: between 10 (1.0) and 15 (1.5). */
  function ComplexityTenths(pos: Position): (tenths: int)
    ensures 10 <= tenths <= 15
  {
    var moves := LegalMoves(SearchEngine, pos);
    ComplexityFromCounts(CountCapturing(moves), Material(pos.pieces), |moves|)
  }

  // ------------------------------------------------------------ time budget

  /** The search budget in hundredths of a millisecond: `TIME_ALLOCATION * COMPLEX_POSITION_MULTIPLIER
      * complexity`, the multiplier and the complexity being kept in tenths. */
  function BudgetHundredths(level: Level, complexityTenths: int): int
  {
    TimeAllocation(level) * ComplexMultiplierTenths(level) * complexityTenths
  }

  /** `isTimeExceeded`: the elapsed time has reached the budget. */
  predicate TimeExceeded(elapsed: int, level: Level, complexityTenths: int)
  {
    elapsed * 100 >= BudgetHundredths(level, complexityTenths)
  }

  /** `shouldContinueSearch`: the elapsed time is still under the budget. */
  predicate ContinueSearch(elapsed: int, level: Level, complexityTenths: int)
  {
    elapsed * 100 < BudgetHundredths(level, complexityTenths)
  }

  /** The two tests are exact complements, and a harder level or a more complex position never
      shrinks the budget. */
  lemma BudgetSpec(elapsed: int, level: Level, level': Level, c: int, c': int)
    requires 10 <= c <= c' <= 15 && level <= level'
    ensures ContinueSearch(elapsed, level, c) <==> !TimeExceeded(elapsed, level, c)
    ensures BudgetHundredths(level, c) <= BudgetHundredths(level', c')
    ensures TimeExceeded(elapsed, level', c') ==> TimeExceeded(elapsed, level, c)
  {
    TimeAndBookSchedule();
    var a, a' := TimeAllocation(level), TimeAllocation(level');
    var m, m' := ComplexMultiplierTenths(level), ComplexMultiplierTenths(level');
    assert a * m <= a' * m' by {
      assert a * m <= a' * m;
      assert a' * m <= a' * m';
    }
    assert a * m * c <= a' * m' * c';
  }
}
