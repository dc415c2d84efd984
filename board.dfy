/**
 * The 10x10 board shared by the rules and the search: squares, moves, the
 * grid of cells, ownership tests, direction choice, promotion and the
 * effect of playing a move on a copy of the grid.
 */
module Board {
  import opened Constants

  /** A cell of the board; `row` 0 is black's back row, `row` 9 white's. */
  datatype Square = Square(row: int, col: int)

  /** A move: where the piece starts, where it stops and the cells it jumps over. */
  datatype Move = Move(from: Square, to: Square, captures: seq<Square>)

  predicate IsGrid(g: seq<seq<Piece>>)
  {
    |g| == BOARD_SIZE && forall r | 0 <= r < BOARD_SIZE :: |g[r]| == BOARD_SIZE
  }

  /** The `pieces` array: ten rows of ten cells. */
  type Grid = g: seq<seq<Piece>> | IsGrid(g) witness seq(10, _ => seq(10, _ => NoPiece))

  /** A position as the search sees it: the grid and the side to move. */
  datatype Position = Position(pieces: Grid, currentPlayer: Player)

  predicate InBoard(sq: Square)
  {
    0 <= sq.row < BOARD_SIZE && 0 <= sq.col < BOARD_SIZE
  }

  /** The playable cells: those carrying a square number (row + col odd). */
  predicate IsDark(sq: Square)
  {
    (sq.row + sq.col) % 2 == 1
  }

  function At(g: Grid, sq: Square): Piece
    requires InBoard(sq)
  {
    g[sq.row][sq.col]
  }

  /** The grid with one cell replaced; every other cell keeps its piece. */
  function With(g: Grid, sq: Square, p: Piece): (r: Grid)
    requires InBoard(sq)
    ensures At(r, sq) == p
    ensures forall s | InBoard(s) && s != sq :: At(r, s) == At(g, s)
  {
    g[sq.row := g[sq.row][sq.col := p]]
  }

  /** Two grids that agree on every cell are the same grid. */
  lemma GridExtensionality(a: Grid, b: Grid)
    requires forall s | InBoard(s) :: At(a, s) == At(b, s)
    ensures a == b
  {
    forall r | 0 <= r < BOARD_SIZE
      ensures a[r] == b[r]
    {
      forall c | 0 <= c < BOARD_SIZE
        ensures a[r][c] == b[r][c]
      {
        assert At(a, Square(r, c)) == At(b, Square(r, c));
      }
    }
  }

  /** Writing back the piece a cell held restores the grid exactly. */
  lemma WithRestores(g: Grid, sq: Square, p: Piece)
    requires InBoard(sq)
    ensures With(With(g, sq, p), sq, At(g, sq)) == g
  {
    GridExtensionality(With(With(g, sq, p), sq, At(g, sq)), g);
  }

  /** The empty board. */
  const EMPTY_ROW: seq<Piece> :=
    [NoPiece, NoPiece, NoPiece, NoPiece, NoPiece, NoPiece, NoPiece, NoPiece, NoPiece, NoPiece]
  const EMPTY_GRID: Grid :=
    [EMPTY_ROW, EMPTY_ROW, EMPTY_ROW, EMPTY_ROW, EMPTY_ROW, EMPTY_ROW, EMPTY_ROW, EMPTY_ROW, EMPTY_ROW, EMPTY_ROW]

  /** Every cell of the empty board is empty. */
  lemma EmptyGridCells()
    ensures forall s | InBoard(s) :: At(EMPTY_GRID, s) == NoPiece
  {
    assert forall c | 0 <= c < BOARD_SIZE :: EMPTY_ROW[c] == NoPiece;
    assert forall r | 0 <= r < BOARD_SIZE :: EMPTY_GRID[r] == EMPTY_ROW;
  }

  // ------------------------------------------------------------ cell order

  /** Cells are visited row by row, left to right; index k is row k / 10, column k % 10. */
  function CellOf(k: int): (sq: Square)
    requires 0 <= k < TOTAL_SQUARES
    ensures InBoard(sq) && sq.row * BOARD_SIZE + sq.col == k
  {
    Square(k / BOARD_SIZE, k % BOARD_SIZE)
  }

  lemma CellOfIndex(sq: Square)
    requires InBoard(sq)
    ensures 0 <= sq.row * BOARD_SIZE + sq.col < TOTAL_SQUARES
    ensures CellOf(sq.row * BOARD_SIZE + sq.col) == sq
  {
  }

  /** A point of the row-by-row scan that the nested `for (row) for (col)` loops make: rows
      before `i` are done, and the first `j` cells of row `i`; (10, 0) is the end. */
  predicate ScanPoint(i: int, j: int)
  {
    0 <= i <= BOARD_SIZE && 0 <= j <= BOARD_SIZE && (i == BOARD_SIZE ==> j == 0)
  }

  /** The cell index of a scan point: the number of cells passed. */
  lemma ScanIndex(i: int, j: int)
    requires ScanPoint(i, j)
    ensures 0 <= i * BOARD_SIZE + j <= TOTAL_SQUARES
  {
  }

  /** `sq` has been visited by the scan when it stands at (i, j). */
  predicate Before(sq: Square, i: int, j: int)
  {
    InBoard(sq) && (sq.row < i || (sq.row == i && sq.col < j))
  }

  /** One scan step back: from (i, j) to (i, j - 1), or from the start of row i to the end of
      row i - 1. */
  lemma BeforeStep(sq: Square, i: int, j: int)
    requires ScanPoint(i, j)
    ensures j > 0 ==> (Before(sq, i, j) <==> Before(sq, i, j - 1) || sq == Square(i, j - 1))
    ensures j == 0 && i > 0 ==> (Before(sq, i, j) <==> Before(sq, i - 1, BOARD_SIZE))
    ensures i == 0 && j == 0 ==> !Before(sq, i, j)
    ensures i == BOARD_SIZE ==> (Before(sq, i, j) <==> InBoard(sq))
  {
  }

  // ------------------------------------------------------------- ownership

  /** `isPieceOfCurrentPlayer`. */
  predicate IsOwn(p: Piece, side: Player)
  {
    if side == White then p == WhiteMan || p == WhiteKing else p == BlackMan || p == BlackKing
  }

  /** `isOpponentPiece`. */
  predicate IsOpponent(p: Piece, side: Player)
  {
    if side == White then p == BlackMan || p == BlackKing else p == WhiteMan || p == WhiteKing
  }

  /** A piece belongs to the side to move exactly when it belongs to the opponent of the other side;
      no piece is both own and the opponent's, and the empty cell is neither. */
  lemma OwnershipShape(p: Piece, side: Player)
    ensures IsOwn(p, side) <==> IsOpponent(p, Opponent(side))
    ensures !(IsOwn(p, side) && IsOpponent(p, side))
    ensures p == NoPiece ==> !IsOwn(p, side) && !IsOpponent(p, side)
    ensures p != NoPiece ==> IsOwn(p, side) || IsOpponent(p, side)
  {
  }

  /** The step directions the search tries for a piece: a king's four, otherwise the two of
      the side to move (chosen by the side, not by the piece's colour). */
  function DirectionsFor(p: Piece, side: Player): (ds: seq<Dir>)
    ensures |ds| == (if IsKing(p) then 4 else 2)
    ensures forall d | d in ds :: IsDiagonal(d)
    ensures !IsKing(p) ==> forall d | d in ds :: d.dy == (if side == White then -1 else 1)
  {
    DirectionsShape();
    if IsKing(p) then KING_MOVES else if side == White then WHITE_MOVES else BLACK_MOVES
  }

  /** One step from `sq` in direction `d` (dy moves the row, dx the column). */
  function Step(sq: Square, d: Dir, times: int): Square
  {
    Square(sq.row + times * d.dy, sq.col + times * d.dx)
  }

  /** A diagonal step changes row + col by an even amount, so it keeps the colour of the cell. */
  lemma StepKeepsColour(sq: Square, d: Dir, times: int)
    requires IsDiagonal(d)
    ensures IsDark(Step(sq, d, times)) <==> IsDark(sq)
  {
    var s := Step(sq, d, times);
    if d.dx == d.dy {
      assert s.row + s.col == sq.row + sq.col + 2 * (times * d.dy);
    } else {
      assert s.row + s.col == sq.row + sq.col;
    }
  }

  // ------------------------------------------------------------- promotion

  /** `shouldPromote`: a white man reaching row 0 or a black man reaching row 9. */
  predicate ShouldPromote(p: Piece, row: int)
  {
    (p == WhiteMan && row == 0) || (p == BlackMan && row == BOARD_SIZE - 1)
  }

  /** The piece a man becomes: `piece === WHITE ? WHITE_KING : BLACK_KING`. */
  function Promoted(p: Piece): (k: Piece)
    ensures p == WhiteMan ==> k == WhiteKing
    ensures p != WhiteMan ==> k == BlackKing
  {
    if p == WhiteMan then WhiteKing else BlackKing
  }

  /** Promotion turns a man into the king of its own colour; kings and empty cells are never
      promoted, so a king is never demoted. */
  lemma PromotionShape(p: Piece, row: int, side: Player)
    ensures ShouldPromote(p, row) ==> !IsKing(p) && IsKing(Promoted(p))
    ensures ShouldPromote(p, row) ==> (IsOwn(Promoted(p), side) <==> IsOwn(p, side))
    ensures IsKing(p) || p == NoPiece ==> !ShouldPromote(p, row)
  {
  }

  // ------------------------------------------------------ playing a move

  predicate MoveInBoard(m: Move)
  {
    InBoard(m.from) && InBoard(m.to) && forall c | c in m.captures :: InBoard(c)
  }

  /** Every listed cell emptied, one after the other; the rest kept. */
  function ClearCells(g: Grid, cells: seq<Square>): (r: Grid)
    requires forall c | c in cells :: InBoard(c)
    ensures forall s | InBoard(s) :: At(r, s) == (if s in cells then NoPiece else At(g, s))
    decreases |cells|
  {
    if cells == [] then g
    else
      var front := cells[..|cells| - 1];
      assert forall c | c in front :: c in cells;
      With(ClearCells(g, front), cells[|cells| - 1], NoPiece)
  }

  /** Clearing one more cell of a list clears it on the grid cleared so far. */
  lemma ClearCellsStep(g: Grid, cells: seq<Square>, k: int)
    requires forall c | c in cells :: InBoard(c)
    requires 0 <= k < |cells|
    ensures forall c | c in cells[..k] :: InBoard(c)
    ensures ClearCells(g, cells[..k + 1]) == With(ClearCells(g, cells[..k]), cells[k], NoPiece)
  {
    assert cells[..k + 1][..k] == cells[..k];
  }

  /** The grid after a move, as ai.js `makeMove` builds it on its copy: empty `from`, put the
      piece on `to`, empty every captured cell, then crown a man that reached the far row. */
  function MoveGrid(g: Grid, m: Move): Grid
    requires MoveInBoard(m)
  {
    var p := At(g, m.from);
    var placed := With(With(g, m.from, NoPiece), m.to, p);
    var cleared := ClearCells(placed, m.captures);
    if ShouldPromote(p, m.to.row) then With(cleared, m.to, Promoted(p)) else cleared
  }

  /** Cell by cell: `to` holds the moved piece (crowned when it reached the far row, empty when
      `to` is also a captured cell and no crowning happens), `from` and the captured cells are
      empty, and every other cell is unchanged. */
  lemma MoveGridCells(g: Grid, m: Move)
    requires MoveInBoard(m)
    ensures forall s | InBoard(s) ::
              At(MoveGrid(g, m), s)
              == (if s == m.to then
                    (if ShouldPromote(At(g, m.from), m.to.row) then Promoted(At(g, m.from))
                     else if s in m.captures then NoPiece
                     else At(g, m.from))
                  else if s == m.from || s in m.captures then NoPiece
                  else At(g, s))
  {
  }

  /** A captured cell other than the landing cell is empty after the move. */
  lemma MoveGridClears(g: Grid, m: Move, s: Square)
    requires MoveInBoard(m) && s in m.captures && s != m.to
    ensures At(MoveGrid(g, m), s) == NoPiece
  {
    MoveGridCells(g, m);
  }

  /** ai.js `makeMove`: the new grid, with the other side to move. */
  function ApplyMove(pos: Position, m: Move): (r: Position)
    requires MoveInBoard(m)
    ensures r.currentPlayer == Opponent(pos.currentPlayer)
    ensures r.pieces == MoveGrid(pos.pieces, m)
  {
    Position(MoveGrid(pos.pieces, m), Opponent(pos.currentPlayer))
  }

  /** For a move that does not stop where it started or on a cell it captures: the piece
      (crowned if it reached the far row) is on `to`, `from` and every captured cell are empty,
      every other cell is unchanged, a king stays a king, and the side to move flips. */
  lemma ApplyMoveEffect(pos: Position, m: Move)
    requires MoveInBoard(m) && m.from != m.to && m.to !in m.captures
    ensures var p := At(pos.pieces, m.from);
            var r := ApplyMove(pos, m);
            && At(r.pieces, m.to) == (if ShouldPromote(p, m.to.row) then Promoted(p) else p)
            && At(r.pieces, m.from) == NoPiece
            && (forall c | c in m.captures :: At(r.pieces, c) == NoPiece)
            && (forall s | InBoard(s) && s != m.from && s != m.to && s !in m.captures
                  :: At(r.pieces, s) == At(pos.pieces, s))
            && (IsKing(p) ==> At(r.pieces, m.to) == p)
            && (IsOwn(p, pos.currentPlayer) ==> IsOwn(At(r.pieces, m.to), pos.currentPlayer))
            && r.currentPlayer != pos.currentPlayer
  {
    MoveGridCells(pos.pieces, m);
  }

  // ----------------------------------------------------------- sequences

  /** Appending to an accumulator in two steps is appending once. */
  lemma ConcatAssoc<T>(a: seq<T>, b: seq<T>, c: seq<T>)
    ensures a + (b + c) == (a + b) + c
  {
  }

  // -------------------------------------------------------------- counting

  /** How many cells before scan point (i, j) hold a piece of the opponent of `side`. */
  function OpponentsBefore(g: Grid, side: Player, i: int, j: int): (n: nat)
    requires ScanPoint(i, j)
    decreases i, j
  {
    if j == 0 then (if i == 0 then 0 else OpponentsBefore(g, side, i - 1, BOARD_SIZE))
    else OpponentsBefore(g, side, i, j - 1) + (if IsOpponent(g[i][j - 1], side) then 1 else 0)
  }

  /** The number of opponent pieces on the board. */
  function OpponentCount(g: Grid, side: Player): nat
  {
    OpponentsBefore(g, side, BOARD_SIZE, 0)
  }

  /** Removing an opponent piece without adding any makes the opponent count strictly smaller. */
  lemma {:induction false} OpponentsShrink(g: Grid, h: Grid, side: Player, gone: Square, i: int, j: int)
    requires ScanPoint(i, j) && InBoard(gone)
    requires forall s | InBoard(s) && IsOpponent(At(h, s), side) :: IsOpponent(At(g, s), side)
    requires IsOpponent(At(g, gone), side) && !IsOpponent(At(h, gone), side)
    ensures OpponentsBefore(h, side, i, j) <= OpponentsBefore(g, side, i, j)
    ensures Before(gone, i, j) ==> OpponentsBefore(h, side, i, j) < OpponentsBefore(g, side, i, j)
    decreases i, j
  {
    if j > 0 {
      OpponentsShrink(g, h, side, gone, i, j - 1);
      assert IsOpponent(h[i][j - 1], side) ==> IsOpponent(g[i][j - 1], side) by {
        assert At(h, Square(i, j - 1)) == h[i][j - 1];
      }
    } else if i > 0 {
      OpponentsShrink(g, h, side, gone, i - 1, BOARD_SIZE);
    }
  }

  lemma OpponentCountShrinks(g: Grid, h: Grid, side: Player, gone: Square)
    requires InBoard(gone)
    requires forall s | InBoard(s) && IsOpponent(At(h, s), side) :: IsOpponent(At(g, s), side)
    requires IsOpponent(At(g, gone), side) && !IsOpponent(At(h, gone), side)
    ensures OpponentCount(h, side) < OpponentCount(g, side)
  {
    OpponentsShrink(g, h, side, gone, BOARD_SIZE, 0);
  }
}
