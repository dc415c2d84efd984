/**
 * Parameter tables of the draughts engine: board size, player and piece codes,
 * direction vectors, the 1..50 square numbering, evaluation weights and the
 * per-level search parameters. Everything here is an immutable value.
 */
module Constants {
  import opened Wrappers

  const BOARD_SIZE: int := 10
  const TOTAL_SQUARES: int := BOARD_SIZE * BOARD_SIZE
  /** Only the dark squares are playable. */
  const PLAYABLE_SQUARES: int := 50

  // ---------------------------------------------------------------- players

  datatype Player = White | Black

  /** The numeric code the source stores for a player (`PLAYER`). */
  function PlayerCode(p: Player): (code: int)
    ensures code == 0 <==> p == White
    ensures code == 1 <==> p == Black
  {
    match p
    case White => 0
    case Black => 1
  }

  function Opponent(p: Player): (q: Player)
    ensures q != p
  {
    if p == White then Black else White
  }

  // ----------------------------------------------------------------- pieces

  /** Cell contents (`PIECE`); `NoPiece` is the empty cell. */
  datatype Piece = NoPiece | WhiteMan | BlackMan | WhiteKing | BlackKing

  /** The numeric code of a piece: 0..4, one code per piece kind. */
  function PieceCode(p: Piece): (code: int)
    ensures 0 <= code <= 4
    ensures code == 0 <==> p == NoPiece
  {
    match p
    case NoPiece => 0
    case WhiteMan => 1
    case BlackMan => 2
    case WhiteKing => 3
    case BlackKing => 4
  }

  /** Reads a piece code back; fails outside 0..4. */
  function PieceOfCode(code: int): (p: Option<Piece>)
    ensures p.Some? <==> 0 <= code <= 4
    ensures p.Some? ==> PieceCode(p.value) == code
  {
    if code == 0 then Some(NoPiece)
    else if code == 1 then Some(WhiteMan)
    else if code == 2 then Some(BlackMan)
    else if code == 3 then Some(WhiteKing)
    else if code == 4 then Some(BlackKing)
    else None
  }

  /** The five piece codes are pairwise distinct, so a code identifies its piece. */
  lemma PieceCodesDistinct(p: Piece, q: Piece)
    ensures PieceCode(p) == PieceCode(q) ==> p == q
    ensures PieceOfCode(PieceCode(p)) == Some(p)
  {
  }

  predicate IsWhitePiece(p: Piece) { p == WhiteMan || p == WhiteKing }
  predicate IsBlackPiece(p: Piece) { p == BlackMan || p == BlackKing }
  predicate IsKing(p: Piece) { p == WhiteKing || p == BlackKing }

  /** The material value of a piece (`PIECE_VALUE`); the empty cell has none. */
  function PieceValue(p: Piece): (v: int)
    requires p != NoPiece
    ensures IsWhitePiece(p) ==> v == (if IsKing(p) then 300 else 100)
    ensures IsBlackPiece(p) ==> v == (if IsKing(p) then -300 else -100)
  {
    match p
    case WhiteMan => 100
    case BlackMan => -100
    case WhiteKing => 300
    case BlackKing => -300
  }

  // Positional weights (`POSITION_VALUE`).
  const CENTER_VALUE: int := 10
  const EDGE_VALUE: int := -5
  const BACK_ROW_VALUE: int := 5
  const PROMOTION_VALUE: int := 15

  // ------------------------------------------------------------- directions

  /** A diagonal step: `dx` changes the column, `dy` the row. */
  datatype Dir = Dir(dx: int, dy: int)

  const WHITE_MOVES: seq<Dir> := [Dir(-1, -1), Dir(1, -1)]
  const BLACK_MOVES: seq<Dir> := [Dir(-1, 1), Dir(1, 1)]
  const KING_MOVES: seq<Dir> := [Dir(-1, -1), Dir(1, -1), Dir(-1, 1), Dir(1, 1)]

  predicate IsDiagonal(d: Dir) { (d.dx == 1 || d.dx == -1) && (d.dy == 1 || d.dy == -1) }

  /** Every direction is a diagonal unit step; white men go up (dy = -1), black men
      down (dy = +1), and the king directions are the white ones followed by the black ones. */
  lemma DirectionsShape()
    ensures forall d | d in KING_MOVES :: IsDiagonal(d)
    ensures forall d | d in WHITE_MOVES :: IsDiagonal(d) && d.dy == -1
    ensures forall d | d in BLACK_MOVES :: IsDiagonal(d) && d.dy == 1
    ensures KING_MOVES == WHITE_MOVES + BLACK_MOVES
    ensures |KING_MOVES| == 4 && forall i, j | 0 <= i < j < 4 :: KING_MOVES[i] != KING_MOVES[j]
  {
  }

  // ------------------------------------------------------ square numbering

  /** `SQUARE_NUMBERS`: row-major, 0 on light cells, 1..50 on dark cells. */
  const SQUARE_NUMBERS: seq<int> :=
    [ 0,  1,  0,  2,  0,  3,  0,  4,  0,  5] +
    [ 6,  0,  7,  0,  8,  0,  9,  0, 10,  0] +
    [ 0, 11,  0, 12,  0, 13,  0, 14,  0, 15] +
    [16,  0, 17,  0, 18,  0, 19,  0, 20,  0] +
    [ 0, 21,  0, 22,  0, 23,  0, 24,  0, 25] +
    [26,  0, 27,  0, 28,  0, 29,  0, 30,  0] +
    [ 0, 31,  0, 32,  0, 33,  0, 34,  0, 35] +
    [36,  0, 37,  0, 38,  0, 39,  0, 40,  0] +
    [ 0, 41,  0, 42,  0, 43,  0, 44,  0, 45] +
    [46,  0, 47,  0, 48,  0, 49,  0, 50,  0]

  /** The closed form of the numbering: a dark cell (row + col odd) of row r
      carries 5r + col/2 + 1, a light cell 0. */
  function SquareNumberAt(row: int, col: int): (n: int)
    requires 0 <= row < 10 && 0 <= col < 10
    ensures (n != 0) <==> (row + col) % 2 == 1
    ensures n != 0 ==> 5 * row + 1 <= n <= 5 * row + 5
  {
    if (row + col) % 2 == 1 then 5 * row + col / 2 + 1 else 0
  }

  lemma SquareNumbersRow0()
    ensures forall i | 0 <= i < 10 :: SQUARE_NUMBERS[i] == SquareNumberAt(i / 10, i % 10)
  {
    assert SQUARE_NUMBERS[0] == 0;
    assert SQUARE_NUMBERS[1] == 1;
    assert SQUARE_NUMBERS[2] == 0;
    assert SQUARE_NUMBERS[3] == 2;
    assert SQUARE_NUMBERS[4] == 0;
    assert SQUARE_NUMBERS[5] == 3;
    assert SQUARE_NUMBERS[6] == 0;
    assert SQUARE_NUMBERS[7] == 4;
    assert SQUARE_NUMBERS[8] == 0;
    assert SQUARE_NUMBERS[9] == 5;
  }

  lemma SquareNumbersRow1()
    ensures forall i | 10 <= i < 20 :: SQUARE_NUMBERS[i] == SquareNumberAt(i / 10, i % 10)
  {
    assert SQUARE_NUMBERS[10] == 6;
    assert SQUARE_NUMBERS[11] == 0;
    assert SQUARE_NUMBERS[12] == 7;
    assert SQUARE_NUMBERS[13] == 0;
    assert SQUARE_NUMBERS[14] == 8;
    assert SQUARE_NUMBERS[15] == 0;
    assert SQUARE_NUMBERS[16] == 9;
    assert SQUARE_NUMBERS[17] == 0;
    assert SQUARE_NUMBERS[18] == 10;
    assert SQUARE_NUMBERS[19] == 0;
  }

  lemma SquareNumbersRow2()
    ensures forall i | 20 <= i < 30 :: SQUARE_NUMBERS[i] == SquareNumberAt(i / 10, i % 10)
  {
    assert SQUARE_NUMBERS[20] == 0;
    assert SQUARE_NUMBERS[21] == 11;
    assert SQUARE_NUMBERS[22] == 0;
    assert SQUARE_NUMBERS[23] == 12;
    assert SQUARE_NUMBERS[24] == 0;
    assert SQUARE_NUMBERS[25] == 13;
    assert SQUARE_NUMBERS[26] == 0;
    assert SQUARE_NUMBERS[27] == 14;
    assert SQUARE_NUMBERS[28] == 0;
    assert SQUARE_NUMBERS[29] == 15;
  }

  lemma SquareNumbersRow3()
    ensures forall i | 30 <= i < 40 :: SQUARE_NUMBERS[i] == SquareNumberAt(i / 10, i % 10)
  {
    assert SQUARE_NUMBERS[30] == 16;
    assert SQUARE_NUMBERS[31] == 0;
    assert SQUARE_NUMBERS[32] == 17;
    assert SQUARE_NUMBERS[33] == 0;
    assert SQUARE_NUMBERS[34] == 18;
    assert SQUARE_NUMBERS[35] == 0;
    assert SQUARE_NUMBERS[36] == 19;
    assert SQUARE_NUMBERS[37] == 0;
    assert SQUARE_NUMBERS[38] == 20;
    assert SQUARE_NUMBERS[39] == 0;
  }

  lemma SquareNumbersRow4()
    ensures forall i | 40 <= i < 50 :: SQUARE_NUMBERS[i] == SquareNumberAt(i / 10, i % 10)
  {
    assert SQUARE_NUMBERS[40] == 0;
    assert SQUARE_NUMBERS[41] == 21;
    assert SQUARE_NUMBERS[42] == 0;
    assert SQUARE_NUMBERS[43] == 22;
    assert SQUARE_NUMBERS[44] == 0;
    assert SQUARE_NUMBERS[45] == 23;
    assert SQUARE_NUMBERS[46] == 0;
    assert SQUARE_NUMBERS[47] == 24;
    assert SQUARE_NUMBERS[48] == 0;
    assert SQUARE_NUMBERS[49] == 25;
  }

  lemma SquareNumbersRow5()
    ensures forall i | 50 <= i < 60 :: SQUARE_NUMBERS[i] == SquareNumberAt(i / 10, i % 10)
  {
    assert SQUARE_NUMBERS[50] == 26;
    assert SQUARE_NUMBERS[51] == 0;
    assert SQUARE_NUMBERS[52] == 27;
    assert SQUARE_NUMBERS[53] == 0;
    assert SQUARE_NUMBERS[54] == 28;
    assert SQUARE_NUMBERS[55] == 0;
    assert SQUARE_NUMBERS[56] == 29;
    assert SQUARE_NUMBERS[57] == 0;
    assert SQUARE_NUMBERS[58] == 30;
    assert SQUARE_NUMBERS[59] == 0;
  }

  lemma SquareNumbersRow6()
    ensures forall i | 60 <= i < 70 :: SQUARE_NUMBERS[i] == SquareNumberAt(i / 10, i % 10)
  {
    assert SQUARE_NUMBERS[60] == 0;
    assert SQUARE_NUMBERS[61] == 31;
    assert SQUARE_NUMBERS[62] == 0;
    assert SQUARE_NUMBERS[63] == 32;
    assert SQUARE_NUMBERS[64] == 0;
    assert SQUARE_NUMBERS[65] == 33;
    assert SQUARE_NUMBERS[66] == 0;
    assert SQUARE_NUMBERS[67] == 34;
    assert SQUARE_NUMBERS[68] == 0;
    assert SQUARE_NUMBERS[69] == 35;
  }

  lemma SquareNumbersRow7()
    ensures forall i | 70 <= i < 80 :: SQUARE_NUMBERS[i] == SquareNumberAt(i / 10, i % 10)
  {
    assert SQUARE_NUMBERS[70] == 36;
    assert SQUARE_NUMBERS[71] == 0;
    assert SQUARE_NUMBERS[72] == 37;
    assert SQUARE_NUMBERS[73] == 0;
    assert SQUARE_NUMBERS[74] == 38;
    assert SQUARE_NUMBERS[75] == 0;
    assert SQUARE_NUMBERS[76] == 39;
    assert SQUARE_NUMBERS[77] == 0;
    assert SQUARE_NUMBERS[78] == 40;
    assert SQUARE_NUMBERS[79] == 0;
  }

  lemma SquareNumbersRow8()
    ensures forall i | 80 <= i < 90 :: SQUARE_NUMBERS[i] == SquareNumberAt(i / 10, i % 10)
  {
    assert SQUARE_NUMBERS[80] == 0;
    assert SQUARE_NUMBERS[81] == 41;
    assert SQUARE_NUMBERS[82] == 0;
    assert SQUARE_NUMBERS[83] == 42;
    assert SQUARE_NUMBERS[84] == 0;
    assert SQUARE_NUMBERS[85] == 43;
    assert SQUARE_NUMBERS[86] == 0;
    assert SQUARE_NUMBERS[87] == 44;
    assert SQUARE_NUMBERS[88] == 0;
    assert SQUARE_NUMBERS[89] == 45;
  }

  lemma SquareNumbersRow9()
    ensures forall i | 90 <= i < 100 :: SQUARE_NUMBERS[i] == SquareNumberAt(i / 10, i % 10)
  {
    assert SQUARE_NUMBERS[90] == 46;
    assert SQUARE_NUMBERS[91] == 0;
    assert SQUARE_NUMBERS[92] == 47;
    assert SQUARE_NUMBERS[93] == 0;
    assert SQUARE_NUMBERS[94] == 48;
    assert SQUARE_NUMBERS[95] == 0;
    assert SQUARE_NUMBERS[96] == 49;
    assert SQUARE_NUMBERS[97] == 0;
    assert SQUARE_NUMBERS[98] == 50;
    assert SQUARE_NUMBERS[99] == 0;
  }

  /** The table agrees with its closed form at every cell. */
  lemma SquareNumbersFormula()
    ensures |SQUARE_NUMBERS| == TOTAL_SQUARES
    ensures forall i | 0 <= i < 100 :: SQUARE_NUMBERS[i] == SquareNumberAt(i / 10, i % 10)
  {
    SquareNumbersRow0(); SquareNumbersRow1(); SquareNumbersRow2(); SquareNumbersRow3();
    SquareNumbersRow4(); SquareNumbersRow5(); SquareNumbersRow6(); SquareNumbersRow7();
    SquareNumbersRow8(); SquareNumbersRow9();
  }

  /** Of two numbered cells, the one earlier in row-major order carries the smaller number. */
  lemma NumberAtIncreasing(r1: int, c1: int, r2: int, c2: int)
    requires 0 <= r1 < 10 && 0 <= c1 < 10 && 0 <= r2 < 10 && 0 <= c2 < 10
    requires (r1 + c1) % 2 == 1 && (r2 + c2) % 2 == 1 && r1 * 10 + c1 < r2 * 10 + c2
    ensures SquareNumberAt(r1, c1) < SquareNumberAt(r2, c2)
  {
    if r1 == r2 {
      assert c1 + 2 <= c2;
    } else {
      assert r1 < r2;
    }
  }

  /** The index in `SQUARE_NUMBERS` of the cell numbered `n`: row (n - 1) / 5, and in it the
      ((n - 1) % 5)-th cell with row + col odd. */
  function IndexOfNumber(n: int): (i: int)
    requires 1 <= n <= PLAYABLE_SQUARES
    ensures 0 <= i < TOTAL_SQUARES && (i / 10 + i % 10) % 2 == 1
    ensures SquareNumberAt(i / 10, i % 10) == n
  {
    var r, k := (n - 1) / 5, (n - 1) % 5;
    var c := if r % 2 == 0 then 2 * k + 1 else 2 * k;
    assert (r * 10 + c) / 10 == r && (r * 10 + c) % 10 == c;
    r * 10 + c
  }

  /** One entry of the table agrees with the closed form. */
  lemma SquareNumberFormulaAt(i: int)
    requires 0 <= i < 100
    ensures |SQUARE_NUMBERS| == TOTAL_SQUARES && SQUARE_NUMBERS[i] == SquareNumberAt(i / 10, i % 10)
  {
    SquareNumbersFormula();
  }

  /** The nonzero entries of `SQUARE_NUMBERS` increase in row-major order. */
  lemma SquareNumbersIncrease()
    ensures |SQUARE_NUMBERS| == TOTAL_SQUARES
    ensures forall i, j | 0 <= i < j < 100 && SQUARE_NUMBERS[i] != 0 && SQUARE_NUMBERS[j] != 0
              :: SQUARE_NUMBERS[i] < SQUARE_NUMBERS[j]
  {
    SquareNumberFormulaAt(0);
    forall i, j | 0 <= i < j < 100 && SQUARE_NUMBERS[i] != 0 && SQUARE_NUMBERS[j] != 0
      ensures SQUARE_NUMBERS[i] < SQUARE_NUMBERS[j]
    {
      var r1, c1, r2, c2 := i / 10, i % 10, j / 10, j % 10;
      assert i == r1 * 10 + c1 && j == r2 * 10 + c2;
      SquareNumberFormulaAt(i);
      SquareNumberFormulaAt(j);
      NumberAtIncreasing(r1, c1, r2, c2);
    }
  }

  /** The numbering of `SQUARE_NUMBERS`: every entry is in 0..50, nonzero exactly on the cells
      whose row + col is odd, the nonzero entries increase in row-major order, and each of
      1..50 occurs (at `IndexOfNumber`). Together: exactly fifty numbered squares carrying
      1, 2, ..., 50 once each, in order. */
  lemma SquareNumbersInOrder()
    ensures |SQUARE_NUMBERS| == TOTAL_SQUARES
    ensures forall i | 0 <= i < 100 :: 0 <= SQUARE_NUMBERS[i] <= PLAYABLE_SQUARES
    ensures forall i | 0 <= i < 100 :: SQUARE_NUMBERS[i] != 0 <==> (i / 10 + i % 10) % 2 == 1
    ensures forall i, j | 0 <= i < j < 100 && SQUARE_NUMBERS[i] != 0 && SQUARE_NUMBERS[j] != 0
              :: SQUARE_NUMBERS[i] < SQUARE_NUMBERS[j]
    ensures forall n | 1 <= n <= PLAYABLE_SQUARES :: SQUARE_NUMBERS[IndexOfNumber(n)] == n
  {
    SquareNumbersFormula();
    SquareNumbersIncrease();
  }

  // ------------------------------------------------------- search parameters

  /** A difficulty level, 1 (beginner) .. 6 (grandmaster). */
  type Level = l: int | 1 <= l <= 6 witness 1

  /** `AI_PARAMS.MAX_DEPTH`: the deepest iterative-deepening iteration. */
  function MaxDepth(level: Level): (d: nat)
    ensures d == 2 * level
  {
    if level == 1 then 2 else if level == 2 then 4 else if level == 3 then 6
    else if level == 4 then 8 else if level == 5 then 10 else 12
  }

  /** `AI_PARAMS.QUIESCENCE_DEPTH`: how many capture plies quiescence may add. */
  function QuiescenceDepth(level: Level): nat
  {
    if level == 1 then 0 else if level == 2 then 1 else if level == 3 then 3
    else if level == 4 then 5 else if level == 5 then 6 else 8
  }

  /** `AI_PARAMS.CACHE.MAX_SIZE`. */
  const CACHE_MAX_SIZE: nat := 10000000

  /** `AI_PARAMS.CACHE.ENTRY_TYPES`: how a cached score relates to the true value. */
  datatype Bound = Exact | LowerBound | UpperBound

  function BoundCode(b: Bound): (code: int)
    ensures 0 <= code <= 2
    ensures code == 0 <==> b == Exact
    ensures code == 1 <==> b == LowerBound
  {
    match b
    case Exact => 0
    case LowerBound => 1
    case UpperBound => 2
  }

  /** `AI_PARAMS.CACHE.RETENTION_TIME` in milliseconds. */
  function RetentionTime(level: Level): nat
  {
    if level == 1 then 0 else if level == 2 then 0 else if level == 3 then 60000
    else if level == 4 then 900000 else if level == 5 then 1800000 else 3600000
  }

  /** `AI_PARAMS.ITERATIVE_DEEPENING.TIME_ALLOCATION` in milliseconds. */
  function TimeAllocation(level: Level): nat
  {
    if level == 1 then 500 else if level == 2 then 1000 else if level == 3 then 2000
    else if level == 4 then 15000 else if level == 5 then 20000 else 30000
  }

  /** `COMPLEX_POSITION_MULTIPLIER` in tenths (1, 1, 1.5, 2.5, 2.8, 3). */
  function ComplexMultiplierTenths(level: Level): nat
  {
    if level == 1 then 10 else if level == 2 then 10 else if level == 3 then 15
    else if level == 4 then 25 else if level == 5 then 28 else 30
  }

  /** `AI_PARAMS.OPENING_BOOK.MAX_MOVES`. */
  function BookMaxMoves(level: Level): nat
  {
    if level == 1 then 4 else if level == 2 then 6 else if level == 3 then 8
    else if level == 4 then 12 else if level == 5 then 14 else 15
  }

  /** `AI_PARAMS.OPENING_BOOK.RANDOMIZATION` in hundredths (0.8 .. 0.05). */
  function BookRandomizationHundredths(level: Level): nat
  {
    if level == 1 then 80 else if level == 2 then 60 else if level == 3 then 40
    else if level == 4 then 15 else if level == 5 then 8 else 5
  }

  /** Depth schedule: the maximum depth grows strictly from 2 to 12; the quiescence
      depth never shrinks and is 0 for the beginner. */
  lemma DepthSchedule()
    ensures MaxDepth(1) == 2 && MaxDepth(6) == 12
    ensures forall a: Level, b: Level | a < b :: MaxDepth(a) < MaxDepth(b)
    ensures QuiescenceDepth(1) == 0
    ensures forall a: Level, b: Level | a <= b :: QuiescenceDepth(a) <= QuiescenceDepth(b)
  {
  }

  /** Time, cache and book schedule: retention never shrinks and is 0 on levels 1-2;
      time allocation and book depth grow strictly; book randomization falls strictly;
      the complexity multiplier never shrinks. */
  lemma TimeAndBookSchedule()
    ensures RetentionTime(1) == 0 && RetentionTime(2) == 0
    ensures forall a: Level, b: Level | a <= b :: RetentionTime(a) <= RetentionTime(b)
    ensures forall a: Level, b: Level | a < b :: TimeAllocation(a) < TimeAllocation(b)
    ensures forall a: Level, b: Level | a < b :: BookMaxMoves(a) < BookMaxMoves(b)
    ensures forall a: Level, b: Level | a < b
              :: BookRandomizationHundredths(a) > BookRandomizationHundredths(b)
    ensures forall a: Level, b: Level | a <= b
              :: ComplexMultiplierTenths(a) <= ComplexMultiplierTenths(b)
  {
  }

  // ------------------------------------------------------------- game flow

  datatype GameMode = Normal | Edit
  datatype GameState = Ongoing | WhiteWin | BlackWin | Draw

  /** `FEN.START_POSITION`: white to move, white men on 31..50, black men on 1..20 (the one
      string, written here in its sections and in runs of five numbers). */
  const START_POSITION: string :=
    "W:W"
    + ("31,32,33,34,35" + "," + "36,37,38,39,40" + "," + ("41,42,43,44,45" + "," + "46,47,48,49,50"))
    + ":B"
    + ("1,2,3,4,5" + "," + "6,7,8,9,10" + "," + ("11,12,13,14,15" + "," + "16,17,18,19,20"))
}
