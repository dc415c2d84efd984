/**
 * Move generation as a specification. Both engines search captures the same
 * way: from the current cell try each direction, jump over an adjacent
 * opponent piece onto an empty, not yet departed-from cell, and keep going
 * from there on a board where the jumped piece is gone; a sequence that can
 * go no further is one capture move. They differ in what the board looks
 * like during the sequence:
 *   - the search engine (ai.js) plays each jump with `makeMove`, so the piece
 *     travels with the sequence and is crowned if it reaches the far row;
 *   - the game engine (game.js) only blanks the jumped piece, so the cell it
 *     continues from reads empty and its directions are those of a man;
 *     it also insists that a landing or step target is a dark cell.
 * Captures are mandatory, and only the longest ones may be played.
 */
module Rules {
  import opened Constants
  import opened Board

  /** Whose copy of the rules: `AI` in ai.js or `Game` in game.js. */
  datatype Engine = SearchEngine | GameEngine

  /** What every cell of a capture search satisfies: the cell is on the board, one departed-from
      cell per capture, captured cells are on the board, and the piece being moved (as the grid
      shows it) is not the opponent's. */
  predicate TreeNode(g: Grid, side: Player, at: Square, caps: seq<Square>, visited: seq<Square>)
  {
    InBoard(at) && |visited| == |caps| && (forall c | c in caps :: InBoard(c))
    && !IsOpponent(At(g, at), side)
  }

  /** `isValidCapture` (game.js) and the jump test of `addCaptureMovesForPiece` (ai.js). */
  predicate CanJump(e: Engine, g: Grid, side: Player, at: Square, d: Dir, visited: seq<Square>)
    requires InBoard(at) && IsDiagonal(d)
  {
    var land := Step(at, d, 2);
    InBoard(land) && At(g, land) == NoPiece && (e == GameEngine ==> IsDark(land))
    && land !in visited && IsOpponent(At(g, Step(at, d, 1)), side)
  }

  /** The search engine's jump test, written on row and column numbers as ai.js does. */
  lemma SearchJumpTest(g: Grid, side: Player, at: Square, d: Dir, visited: seq<Square>)
    requires InBoard(at) && IsDiagonal(d)
    ensures var jr, jc, cr, cc := at.row + 2 * d.dy, at.col + 2 * d.dx, at.row + d.dy, at.col + d.dx;
            CanJump(SearchEngine, g, side, at, d, visited)
            <==> 0 <= jr < BOARD_SIZE && 0 <= jc < BOARD_SIZE && IsOpponent(g[cr][cc], side)
                 && g[jr][jc] == NoPiece && Square(jr, jc) !in visited
  {
  }

  /** Whether any direction of the piece at `at` allows a jump (the `foundCapture` flag). */
  predicate AnyJump(e: Engine, g: Grid, side: Player, at: Square, visited: seq<Square>)
    requires InBoard(at)
  {
    exists d | d in DirectionsFor(At(g, at), side) :: CanJump(e, g, side, at, d, visited)
  }

  /** `AnyJump` by position in the direction list, as a loop over the directions finds it. */
  lemma AnyJumpByIndex(e: Engine, g: Grid, side: Player, at: Square, visited: seq<Square>)
    requires InBoard(at)
    ensures var dirs := DirectionsFor(At(g, at), side);
            AnyJump(e, g, side, at, visited)
            <==> exists j | 0 <= j < |dirs| :: CanJump(e, g, side, at, dirs[j], visited)
  {
    var dirs := DirectionsFor(At(g, at), side);
    if AnyJump(e, g, side, at, visited) {
      var d :| d in dirs && CanJump(e, g, side, at, d, visited);
      var j :| 0 <= j < |dirs| && dirs[j] == d;
    }
  }

  /** The board the sequence continues on after jumping from `at` in direction `d`. */
  function AfterJump(e: Engine, g: Grid, at: Square, d: Dir, caps: seq<Square>): Grid
    requires InBoard(at) && IsDiagonal(d) && InBoard(Step(at, d, 2))
    requires forall c | c in caps :: InBoard(c)
  {
    if e == SearchEngine then MoveGrid(g, Move(at, Step(at, d, 2), caps + [Step(at, d, 1)]))
    else With(g, Step(at, d, 1), NoPiece)
  }

  /** A jump removes an opponent piece and adds none, and the landing cell is a valid next node. */
  lemma JumpShrinks(e: Engine, g: Grid, side: Player, at: Square, d: Dir,
                    caps: seq<Square>, visited: seq<Square>)
    requires TreeNode(g, side, at, caps, visited) && IsDiagonal(d)
    requires CanJump(e, g, side, at, d, visited)
    ensures var h := AfterJump(e, g, at, d, caps);
            && OpponentCount(h, side) < OpponentCount(g, side)
            && TreeNode(h, side, Step(at, d, 2), caps + [Step(at, d, 1)], visited + [at])
  {
    var over, land := Step(at, d, 1), Step(at, d, 2);
    JumpCells(e, g, side, at, d, caps, visited);
    OpponentCountShrinks(g, AfterJump(e, g, at, d, caps), side, over);
  }

  /** After a jump no cell holds an opponent piece it did not hold before, the jumped cell is
      empty and the landing cell holds no opponent piece. */
  lemma JumpCells(e: Engine, g: Grid, side: Player, at: Square, d: Dir,
                  caps: seq<Square>, visited: seq<Square>)
    requires TreeNode(g, side, at, caps, visited) && IsDiagonal(d)
    requires CanJump(e, g, side, at, d, visited)
    ensures var h := AfterJump(e, g, at, d, caps);
            && (forall s | InBoard(s) && IsOpponent(At(h, s), side) :: IsOpponent(At(g, s), side))
            && At(h, Step(at, d, 1)) == NoPiece && !IsOpponent(At(h, Step(at, d, 2)), side)
  {
    var over, land := Step(at, d, 1), Step(at, d, 2);
    if e == SearchEngine {
      var m := Move(at, land, caps + [over]);
      assert AfterJump(e, g, at, d, caps) == MoveGrid(g, m);
      MoveGridCells(g, m);
      var p := At(g, at);
      if ShouldPromote(p, land.row) {
        PromotionShape(p, land.row, side);
        OwnershipShape(p, side);
        OwnershipShape(Promoted(p), side);
      }
      assert over != land;
    } else {
      assert AfterJump(e, g, at, d, caps) == With(g, over, NoPiece);
    }
  }

  /** All capture moves found from `at` on: the result of `addCaptureMovesForPiece` (ai.js)
      or `findCaptureMoves` (game.js) called with the captures and departed cells so far. */
  function CaptureTree(e: Engine, g: Grid, side: Player, at: Square,
                       caps: seq<Square>, visited: seq<Square>): seq<Move>
    requires TreeNode(g, side, at, caps, visited)
    decreases OpponentCount(g, side), 2, 0
  {
    JumpsUpTo(e, g, side, at, caps, visited, |DirectionsFor(At(g, at), side)|)
    + (if !AnyJump(e, g, side, at, visited) && |caps| > 0 then [Move(visited[0], at, caps)] else [])
  }

  /** The moves found through the first `k` directions of the piece at `at`. */
  function JumpsUpTo(e: Engine, g: Grid, side: Player, at: Square,
                     caps: seq<Square>, visited: seq<Square>, k: int): seq<Move>
    requires TreeNode(g, side, at, caps, visited)
    requires 0 <= k <= |DirectionsFor(At(g, at), side)|
    decreases OpponentCount(g, side), 1, k
  {
    if k == 0 then []
    else
      JumpsUpTo(e, g, side, at, caps, visited, k - 1)
      + JumpsThrough(e, g, side, at, caps, visited, DirectionsFor(At(g, at), side)[k - 1])
  }

  /** The moves found through direction `d`: when its jump is open, everything found after
      making it; otherwise none. */
  function JumpsThrough(e: Engine, g: Grid, side: Player, at: Square,
                        caps: seq<Square>, visited: seq<Square>, d: Dir): seq<Move>
    requires TreeNode(g, side, at, caps, visited) && IsDiagonal(d)
    decreases OpponentCount(g, side), 0, 0
  {
    if CanJump(e, g, side, at, d, visited) then
      JumpShrinks(e, g, side, at, d, caps, visited);
      CaptureTree(e, AfterJump(e, g, at, d, caps), side, Step(at, d, 2),
                  caps + [Step(at, d, 1)], visited + [at])
    else []
  }

  /** One more direction of the capture loop: its jumps are appended. */
  lemma JumpsUpToNext(e: Engine, g: Grid, side: Player, at: Square, caps: seq<Square>, visited: seq<Square>, i: int,
                      prefix: seq<Move>)
    requires TreeNode(g, side, at, caps, visited) && 0 <= i < |DirectionsFor(At(g, at), side)|
    ensures IsDiagonal(DirectionsFor(At(g, at), side)[i])
    ensures prefix + JumpsUpTo(e, g, side, at, caps, visited, i + 1)
            == prefix + JumpsUpTo(e, g, side, at, caps, visited, i)
               + JumpsThrough(e, g, side, at, caps, visited, DirectionsFor(At(g, at), side)[i])
  {
    var dir := DirectionsFor(At(g, at), side)[i];
    assert dir in DirectionsFor(At(g, at), side);
    ConcatAssoc(prefix, JumpsUpTo(e, g, side, at, caps, visited, i),
                JumpsThrough(e, g, side, at, caps, visited, dir));
  }

  /** After the capture loop: a node with no open jump ends a sequence when it has captured. */
  lemma CaptureTreeEnd(e: Engine, g: Grid, side: Player, at: Square, caps: seq<Square>, visited: seq<Square>,
                       prefix: seq<Move>, found: bool)
    requires TreeNode(g, side, at, caps, visited)
    requires var dirs := DirectionsFor(At(g, at), side);
             found <==> JumpAmong(e, g, side, at, dirs, visited, |dirs|)
    ensures var jumps := JumpsUpTo(e, g, side, at, caps, visited, |DirectionsFor(At(g, at), side)|);
            prefix + CaptureTree(e, g, side, at, caps, visited)
            == if !found && |caps| > 0 then prefix + jumps + [Move(visited[0], at, caps)] else prefix + jumps
  {
    AnyJumpByIndex(e, g, side, at, visited);
    var jumps := JumpsUpTo(e, g, side, at, caps, visited, |DirectionsFor(At(g, at), side)|);
    if !found && |caps| > 0 {
      ConcatAssoc(prefix, jumps, [Move(visited[0], at, caps)]);
    } else {
      assert jumps + [] == jumps;
    }
  }

  /** Some direction among the first `i` of `dirs` has an open jump from `at`. */
  ghost predicate JumpAmong(e: Engine, g: Grid, side: Player, at: Square, dirs: seq<Dir>, visited: seq<Square>, i: int)
    requires InBoard(at) && 0 <= i <= |dirs| && forall d | d in dirs :: IsDiagonal(d)
  {
    exists j | 0 <= j < i :: CanJump(e, g, side, at, dirs[j], visited)
  }

  lemma JumpAmongNext(e: Engine, g: Grid, side: Player, at: Square, dirs: seq<Dir>, visited: seq<Square>, i: int)
    requires InBoard(at) && 0 <= i < |dirs| && forall d | d in dirs :: IsDiagonal(d)
    ensures JumpAmong(e, g, side, at, dirs, visited, i + 1)
            <==> JumpAmong(e, g, side, at, dirs, visited, i) || CanJump(e, g, side, at, dirs[i], visited)
  {
  }


  // ------------------------------------------------ well-formed sequences

  /** The state of a capture sequence begun at `origin`: it departed from `origin` first, it never
      stands on a cell it departed from, the captured cells are distinct, on the board and now
      empty, and (jumps moving two rows at a time) they lie on rows of the other parity than `at`. */
  predicate ChainState(g: Grid, side: Player, origin: Square, at: Square,
                       caps: seq<Square>, visited: seq<Square>)
  {
    TreeNode(g, side, at, caps, visited) && InBoard(origin)
    && (caps == [] ==> at == origin)
    && (caps != [] ==> visited[0] == origin)
    && at !in visited
    && (forall c | c in caps :: At(g, c) == NoPiece && (c.row + at.row) % 2 == 1)
    && (forall i, j | 0 <= i < j < |caps| :: caps[i] != caps[j])
  }

  /** A capture move that starts at `origin`, captures at least one piece, never captures a
      cell twice, and ends on a board cell other than its start and other than any captured cell. */
  predicate WellFormedCapture(m: Move, origin: Square)
  {
    m.from == origin && |m.captures| >= 1 && MoveInBoard(m)
    && m.to != m.from && m.to !in m.captures
    && (forall i, j | 0 <= i < j < |m.captures| :: m.captures[i] != m.captures[j])
  }

  /** After a jump the captured cells so far, and the one just jumped, are empty; none of them
      is the landing cell, which lies on a row of the other parity. */
  lemma JumpClears(e: Engine, g: Grid, side: Player, at: Square, d: Dir,
                   caps: seq<Square>, visited: seq<Square>)
    requires TreeNode(g, side, at, caps, visited) && IsDiagonal(d)
    requires CanJump(e, g, side, at, d, visited)
    requires forall c | c in caps :: At(g, c) == NoPiece && (c.row + at.row) % 2 == 1
    ensures var h, land := AfterJump(e, g, at, d, caps), Step(at, d, 2);
            forall c | c in caps + [Step(at, d, 1)] :: At(h, c) == NoPiece && (c.row + land.row) % 2 == 1
  {
    forall c | c in caps + [Step(at, d, 1)]
      ensures At(AfterJump(e, g, at, d, caps), c) == NoPiece && (c.row + Step(at, d, 2).row) % 2 == 1
    {
      JumpClearsCell(e, g, side, at, d, caps, visited, c);
    }
  }

  /** `JumpClears` for one cell `c`: an earlier capture or the jumped cell. */
  lemma JumpClearsCell(e: Engine, g: Grid, side: Player, at: Square, d: Dir,
                       caps: seq<Square>, visited: seq<Square>, c: Square)
    requires TreeNode(g, side, at, caps, visited) && IsDiagonal(d)
    requires CanJump(e, g, side, at, d, visited)
    requires c in caps ==> At(g, c) == NoPiece && (c.row + at.row) % 2 == 1
    requires c in caps || c == Step(at, d, 1)
    ensures At(AfterJump(e, g, at, d, caps), c) == NoPiece && (c.row + Step(at, d, 2).row) % 2 == 1
  {
    var over, land := Step(at, d, 1), Step(at, d, 2);
    LandingParity(c, at, d);
    if e == SearchEngine {
      assert AfterJump(e, g, at, d, caps) == MoveGrid(g, Move(at, land, caps + [over]));
      MoveGridClears(g, Move(at, land, caps + [over]), c);
    } else {
      assert AfterJump(e, g, at, d, caps) == With(g, over, NoPiece);
    }
  }

  /** The jumped cell, and any cell on a row of the other parity than `at`, lies on a row of the
      other parity than the landing cell, so it is not the landing cell. */
  lemma LandingParity(c: Square, at: Square, d: Dir)
    requires IsDiagonal(d) && (c == Step(at, d, 1) || (c.row + at.row) % 2 == 1)
    ensures (c.row + Step(at, d, 2).row) % 2 == 1 && c != Step(at, d, 2)
  {
  }

  /** The jumped cell was not captured before, so the captures stay distinct. */
  lemma JumpDistinct(g: Grid, side: Player, over: Square, caps: seq<Square>)
    requires InBoard(over) && IsOpponent(At(g, over), side)
    requires forall c | c in caps :: InBoard(c) && At(g, c) == NoPiece
    requires forall i, j | 0 <= i < j < |caps| :: caps[i] != caps[j]
    ensures forall i, j | 0 <= i < j < |caps + [over]| :: (caps + [over])[i] != (caps + [over])[j]
  {
    var caps' := caps + [over];
    assert over !in caps by {
      OwnershipShape(At(g, over), side);
    }
    forall i, j | 0 <= i < j < |caps'|
      ensures caps'[i] != caps'[j]
    {
      if j < |caps| {
        assert caps'[i] == caps[i] && caps'[j] == caps[j];
      } else {
        assert caps'[i] in caps;
      }
    }
  }

  lemma ChainStep(e: Engine, g: Grid, side: Player, origin: Square, at: Square, d: Dir,
                  caps: seq<Square>, visited: seq<Square>)
    requires ChainState(g, side, origin, at, caps, visited) && IsDiagonal(d)
    requires CanJump(e, g, side, at, d, visited)
    ensures ChainState(AfterJump(e, g, at, d, caps), side, origin, Step(at, d, 2),
                       caps + [Step(at, d, 1)], visited + [at])
  {
    JumpShrinks(e, g, side, at, d, caps, visited);
    JumpClears(e, g, side, at, d, caps, visited);
    JumpDistinct(g, side, Step(at, d, 1), caps);
    assert (visited + [at])[0] == origin;
  }

  /** Every move a capture search emits from a well-formed state is a well-formed capture from
      the sequence's origin, and it extends the captures made so far. */
  lemma {:induction false} TreeChains(e: Engine, g: Grid, side: Player, origin: Square, at: Square,
                                      caps: seq<Square>, visited: seq<Square>)
    requires ChainState(g, side, origin, at, caps, visited)
    ensures forall m | m in CaptureTree(e, g, side, at, caps, visited)
              :: WellFormedCapture(m, origin) && caps <= m.captures
    decreases OpponentCount(g, side), 2, 0
  {
    var n := |DirectionsFor(At(g, at), side)|;
    JumpsChain(e, g, side, origin, at, caps, visited, n);
    if !AnyJump(e, g, side, at, visited) && |caps| > 0 {
      var m := Move(visited[0], at, caps);
      assert at !in caps;
      assert WellFormedCapture(m, origin);
    }
  }

  lemma {:induction false} JumpsChain(e: Engine, g: Grid, side: Player, origin: Square, at: Square,
                                      caps: seq<Square>, visited: seq<Square>, k: int)
    requires ChainState(g, side, origin, at, caps, visited)
    requires 0 <= k <= |DirectionsFor(At(g, at), side)|
    ensures forall m | m in JumpsUpTo(e, g, side, at, caps, visited, k)
              :: WellFormedCapture(m, origin) && caps <= m.captures
    decreases OpponentCount(g, side), 1, k
  {
    if k > 0 {
      JumpsChain(e, g, side, origin, at, caps, visited, k - 1);
      var d := DirectionsFor(At(g, at), side)[k - 1];
      var front := JumpsUpTo(e, g, side, at, caps, visited, k - 1);
      var through := JumpsThrough(e, g, side, at, caps, visited, d);
      assert JumpsUpTo(e, g, side, at, caps, visited, k) == front + through;
      ThroughChains(e, g, side, origin, at, caps, visited, d);
      forall m | m in front + through
        ensures WellFormedCapture(m, origin) && caps <= m.captures
      {
        if m !in front {
          assert m in through;
        }
      }
    }
  }

  /** `JumpsChain` for the moves found through one direction. */
  lemma {:induction false} ThroughChains(e: Engine, g: Grid, side: Player, origin: Square, at: Square,
                                         caps: seq<Square>, visited: seq<Square>, d: Dir)
    requires ChainState(g, side, origin, at, caps, visited) && IsDiagonal(d)
    ensures forall m | m in JumpsThrough(e, g, side, at, caps, visited, d)
              :: WellFormedCapture(m, origin) && caps <= m.captures
    decreases OpponentCount(g, side), 0, 0
  {
    if CanJump(e, g, side, at, d, visited) {
      JumpShrinks(e, g, side, at, d, caps, visited);
      ChainStep(e, g, side, origin, at, d, caps, visited);
      var caps' := caps + [Step(at, d, 1)];
      TreeChains(e, AfterJump(e, g, at, d, caps), side, origin, Step(at, d, 2), caps', visited + [at]);
      assert caps <= caps';
    }
  }

  // ------------------------------------------------ when a search finds anything

  /** A capture search finds a move exactly when a jump is possible from where it stands or it
      has already captured something. */
  lemma {:induction false} TreeNonEmpty(e: Engine, g: Grid, side: Player, at: Square,
                                        caps: seq<Square>, visited: seq<Square>)
    requires TreeNode(g, side, at, caps, visited)
    ensures CaptureTree(e, g, side, at, caps, visited) != [] <==> AnyJump(e, g, side, at, visited) || |caps| > 0
    decreases OpponentCount(g, side), 2, 0
  {
    var dirs := DirectionsFor(At(g, at), side);
    JumpsNonEmpty(e, g, side, at, caps, visited, |dirs|);
    if AnyJump(e, g, side, at, visited) {
      var d :| d in dirs && CanJump(e, g, side, at, d, visited);
      var j :| 0 <= j < |dirs| && dirs[j] == d;
    }
  }

  lemma {:induction false} JumpsNonEmpty(e: Engine, g: Grid, side: Player, at: Square,
                                         caps: seq<Square>, visited: seq<Square>, k: int)
    requires TreeNode(g, side, at, caps, visited)
    requires 0 <= k <= |DirectionsFor(At(g, at), side)|
    ensures JumpsUpTo(e, g, side, at, caps, visited, k) != []
            <==> exists j | 0 <= j < k :: CanJump(e, g, side, at, DirectionsFor(At(g, at), side)[j], visited)
    decreases OpponentCount(g, side), 1, k
  {
    if k > 0 {
      var dirs := DirectionsFor(At(g, at), side);
      JumpsNonEmpty(e, g, side, at, caps, visited, k - 1);
      var d := dirs[k - 1];
      var front := JumpsUpTo(e, g, side, at, caps, visited, k - 1);
      assert JumpsUpTo(e, g, side, at, caps, visited, k) == front + JumpsThrough(e, g, side, at, caps, visited, d);
      if CanJump(e, g, side, at, d, visited) {
        JumpShrinks(e, g, side, at, d, caps, visited);
        var child := CaptureTree(e, AfterJump(e, g, at, d, caps), side, Step(at, d, 2),
                                 caps + [Step(at, d, 1)], visited + [at]);
        TreeNonEmpty(e, AfterJump(e, g, at, d, caps), side, Step(at, d, 2), caps + [Step(at, d, 1)], visited + [at]);
        assert JumpsThrough(e, g, side, at, caps, visited, d) == child;
        assert child != [];
        assert CanJump(e, g, side, at, dirs[k - 1], visited);
      } else {
        assert JumpsUpTo(e, g, side, at, caps, visited, k) == front;
        if front == [] {
          forall j | 0 <= j < k
            ensures !CanJump(e, g, side, at, dirs[j], visited)
          {
            if j < k - 1 {
              assert !CanJump(e, g, side, at, dirs[j], visited);
            }
          }
        } else {
          var j :| 0 <= j < k - 1 && CanJump(e, g, side, at, dirs[j], visited);
          assert 0 <= j < k;
        }
      }
    }
  }

  // ---------------------------------------------------- whole-board captures

  /** Captures found by the row-by-row scan up to point (i, j), starting a search from every
      cell holding a piece of the side to move. */
  function CapturesBefore(e: Engine, pos: Position, i: int, j: int): seq<Move>
    requires ScanPoint(i, j)
    decreases i, j
  {
    if j == 0 then (if i == 0 then [] else CapturesBefore(e, pos, i - 1, BOARD_SIZE))
    else CapturesBefore(e, pos, i, j - 1) + CellCaptureMoves(e, pos, Square(i, j - 1))
  }

  /** One cell of the capture scan adds the captures found from it. */
  lemma CaptureCellStep(e: Engine, pos: Position, row: int, col: int)
    requires 0 <= row < BOARD_SIZE && 0 <= col < BOARD_SIZE
    ensures CapturesBefore(e, pos, row, col + 1)
            == CapturesBefore(e, pos, row, col) + CellCaptureMoves(e, pos, Square(row, col))
  {
  }

  /** The end of a row of the capture scan is the start of the next. */
  lemma CaptureRowDone(e: Engine, pos: Position, row: int)
    requires 0 <= row < BOARD_SIZE
    ensures CapturesBefore(e, pos, row + 1, 0) == CapturesBefore(e, pos, row, BOARD_SIZE)
  {
  }

  /** The captures the scan finds from one cell: none unless it holds a piece of the side to move. */
  function CellCaptureMoves(e: Engine, pos: Position, sq: Square): seq<Move>
    requires InBoard(sq)
  {
    if IsOwn(At(pos.pieces, sq), pos.currentPlayer) then
      OwnershipShape(At(pos.pieces, sq), pos.currentPlayer);
      CaptureTree(e, pos.pieces, pos.currentPlayer, sq, [], [])
    else []
  }

  /** The captures generated for one cell are well-formed sequences from that cell, which holds
      an own piece. */
  lemma CellCaptures(e: Engine, pos: Position, sq: Square)
    requires InBoard(sq)
    ensures var g, side := pos.pieces, pos.currentPlayer;
            forall m | m in CellCaptureMoves(e, pos, sq)
              :: m.from == sq && IsOwn(At(g, sq), side)
                 && m in CaptureTree(e, g, side, sq, [], []) && WellFormedCapture(m, sq)
  {
    var g, side := pos.pieces, pos.currentPlayer;
    if IsOwn(At(g, sq), side) {
      OwnershipShape(At(g, sq), side);
      TreeChains(e, g, side, sq, sq, [], []);
    }
  }

  /** One cell yields a capture exactly when it holds an own piece that can make a first jump. */
  lemma CellCapturesNonEmpty(e: Engine, pos: Position, sq: Square)
    requires InBoard(sq)
    ensures CellCaptureMoves(e, pos, sq) != [] <==> CanCaptureFrom(e, pos, sq)
  {
    var g, side := pos.pieces, pos.currentPlayer;
    if IsOwn(At(g, sq), side) {
      OwnershipShape(At(g, sq), side);
      TreeNonEmpty(e, g, side, sq, [], []);
    }
  }

  /** A move is among the scanned captures only if some scanned cell holds an own piece
      whose capture search emits it. */
  lemma {:induction false} CapturesBeforeMembers(e: Engine, pos: Position, i: int, j: int)
    requires ScanPoint(i, j)
    ensures forall m | m in CapturesBefore(e, pos, i, j)
              :: Before(m.from, i, j) && IsOwn(At(pos.pieces, m.from), pos.currentPlayer)
                 && m in CaptureTree(e, pos.pieces, pos.currentPlayer, m.from, [], [])
                 && WellFormedCapture(m, m.from)
    decreases i, j
  {
    if j > 0 {
      CapturesBeforeMembers(e, pos, i, j - 1);
      CellCaptures(e, pos, Square(i, j - 1));
    } else if i > 0 {
      CapturesBeforeMembers(e, pos, i - 1, BOARD_SIZE);
    }
  }

  /** The cell holds a piece of the side to move that can make a first jump. */
  predicate CanCaptureFrom(e: Engine, pos: Position, sq: Square)
  {
    InBoard(sq) && IsOwn(At(pos.pieces, sq), pos.currentPlayer)
    && AnyJump(e, pos.pieces, pos.currentPlayer, sq, [])
  }

  /** The scan has found a capture by point (i, j) exactly when some cell it passed yields one. */
  ghost predicate CapturesFoundBy(e: Engine, pos: Position, i: int, j: int)
    requires ScanPoint(i, j)
  {
    CapturesBefore(e, pos, i, j) != [] <==> exists sq | Before(sq, i, j) :: CellCaptureMoves(e, pos, sq) != []
  }

  /** The scan finds a capture exactly when some scanned cell yields one. */
  lemma {:induction false} CapturesBeforeNonEmpty(e: Engine, pos: Position, i: int, j: int)
    requires ScanPoint(i, j)
    ensures CapturesFoundBy(e, pos, i, j)
  {
    CapturesFoundRows(e, pos, i);
    if j > 0 {
      CapturesFoundAlong(e, pos, i, j);
    }
  }

  /** `CapturesFoundBy` holds at the start of every row. */
  lemma {:induction false} CapturesFoundRows(e: Engine, pos: Position, i: int)
    requires 0 <= i <= BOARD_SIZE
    ensures CapturesFoundBy(e, pos, i, 0)
  {
    if i > 0 {
      CapturesFoundRows(e, pos, i - 1);
      CapturesFoundAlong(e, pos, i - 1, BOARD_SIZE);
      CapturesFoundRow(e, pos, i);
    } else {
      forall s
        ensures !Before(s, 0, 0)
      {
        BeforeStep(s, 0, 0);
      }
    }
  }

  /** From the start of row `i`, `CapturesFoundBy` holds along the row. */
  lemma {:induction false} CapturesFoundAlong(e: Engine, pos: Position, i: int, j: int)
    requires 0 <= i < BOARD_SIZE && 0 <= j <= BOARD_SIZE && CapturesFoundBy(e, pos, i, 0)
    ensures CapturesFoundBy(e, pos, i, j)
  {
    if j > 0 {
      var k := j - 1;
      CapturesFoundAlong(e, pos, i, k);
      CapturesFoundCell(e, pos, i, k + 1);
    }
  }

  /** Passing from the end of one row to the start of the next keeps `CapturesFoundBy`. */
  lemma CapturesFoundRow(e: Engine, pos: Position, i: int)
    requires 0 < i <= BOARD_SIZE && CapturesFoundBy(e, pos, i - 1, BOARD_SIZE)
    ensures CapturesFoundBy(e, pos, i, 0)
  {
    assert CapturesBefore(e, pos, i, 0) == CapturesBefore(e, pos, i - 1, BOARD_SIZE);
    forall s
      ensures Before(s, i, 0) <==> Before(s, i - 1, BOARD_SIZE)
    {
      BeforeStep(s, i, 0);
    }
  }

  /** One cell further along a row keeps `CapturesFoundBy`. */
  lemma CapturesFoundCell(e: Engine, pos: Position, i: int, j: int)
    requires ScanPoint(i, j) && j > 0 && CapturesFoundBy(e, pos, i, j - 1)
    ensures CapturesFoundBy(e, pos, i, j)
  {
    var sq := Square(i, j - 1);
    var front := CapturesBefore(e, pos, i, j - 1);
    var here := CellCaptureMoves(e, pos, sq);
    assert CapturesBefore(e, pos, i, j) == front + here;
    if front != [] {
      var s :| Before(s, i, j - 1) && CellCaptureMoves(e, pos, s) != [];
      assert Before(s, i, j);
    } else if here != [] {
      assert Before(sq, i, j);
    } else {
      forall s | Before(s, i, j)
        ensures CellCaptureMoves(e, pos, s) == []
      {
        BeforeStep(s, i, j);
      }
    }
  }

  /** Every capture the scan could start, over the whole board. */
  function AllCaptures(e: Engine, pos: Position): seq<Move>
  {
    CapturesBefore(e, pos, BOARD_SIZE, 0)
  }

  // ----------------------------------------------------- maximum capture

  /** The largest number of captures among `ms` (0 for none). */
  function LongestCapture(ms: seq<Move>): nat
  {
    if ms == [] then 0
    else
      var rest := LongestCapture(ms[1..]);
      if |ms[0].captures| >= rest then |ms[0].captures| else rest
  }

  /** The longest count bounds every move's count, and some move reaches it. */
  lemma {:induction false} LongestCaptureSpec(ms: seq<Move>)
    ensures forall m | m in ms :: |m.captures| <= LongestCapture(ms)
    ensures ms != [] ==> exists m | m in ms :: |m.captures| == LongestCapture(ms)
  {
    if ms != [] {
      LongestCaptureSpec(ms[1..]);
      assert forall m | m in ms :: m == ms[0] || m in ms[1..];
      if |ms[0].captures| < LongestCapture(ms[1..]) {
        var m :| m in ms[1..] && |m.captures| == LongestCapture(ms[1..]);
        assert m in ms;
      }
    }
  }

  /** The moves of `ms` with exactly `n` captures, in their original order. */
  function WithLength(ms: seq<Move>, n: int): seq<Move>
  {
    if ms == [] then []
    else (if |ms[0].captures| == n then [ms[0]] else []) + WithLength(ms[1..], n)
  }

  /** The filter keeps exactly the moves with `n` captures. */
  lemma {:induction false} WithLengthSpec(ms: seq<Move>, n: int)
    ensures forall m :: m in WithLength(ms, n) <==> m in ms && |m.captures| == n
  {
    if ms != [] {
      WithLengthSpec(ms[1..], n);
      assert forall m :: m in ms <==> m == ms[0] || m in ms[1..];
    }
  }

  /** The sort by capture count (most first) followed by the filter to the first one's length.
      The sort is stable, so the kept moves stay in the order they were found. */
  function KeepLongest(ms: seq<Move>): seq<Move>
  {
    if ms == [] then [] else WithLength(ms, LongestCapture(ms))
  }

  /** The maximum-capture filter keeps exactly the moves of greatest length, and keeps
      at least one whenever there is any. */
  lemma KeepLongestSpec(ms: seq<Move>)
    ensures forall m :: m in KeepLongest(ms) <==> m in ms && |m.captures| == LongestCapture(ms)
    ensures forall m, m' | m in KeepLongest(ms) && m' in ms :: |m'.captures| <= |m.captures|
    ensures KeepLongest(ms) != [] <==> ms != []
  {
    LongestCaptureSpec(ms);
    WithLengthSpec(ms, LongestCapture(ms));
    if ms != [] {
      var n := LongestCapture(ms);
      var m :| m in ms && |m.captures| == n;
      assert m in KeepLongest(ms);
    }
  }

  /** The sort by capture count and the filter to the longest, with which `generateCaptureMoves`
      (ai.js) and `getAvailableCaptures` (game.js) both end: the first move after a stable
      descending sort has the greatest count, and the filter keeps the moves of that count in
      the order they were found. */
  method KeepLongestCaptures(captures: seq<Move>) returns (kept: seq<Move>)
    ensures kept == KeepLongest(captures)
  {
    if |captures| == 0 {
      return [];
    }
    var maxLength := 0;
    for i := 0 to |captures|
      invariant maxLength == LongestCapture(captures[|captures| - i..])
    {
      var k := |captures| - i - 1;
      assert captures[k..] == [captures[k]] + captures[k + 1..];
      if |captures[k].captures| >= maxLength {
        maxLength := |captures[k].captures|;
      }
    }
    assert captures[0..] == captures;
    kept := [];
    for i := 0 to |captures|
      invariant kept + WithLength(captures[i..], maxLength) == WithLength(captures, maxLength)
    {
      assert captures[i..] == [captures[i]] + captures[i + 1..];
      if |captures[i].captures| == maxLength {
        kept := kept + [captures[i]];
      }
    }
  }

  /** `generateCaptureMoves` (ai.js) and `getAvailableCaptures` (game.js). */
  function CaptureMoves(e: Engine, pos: Position): seq<Move>
  {
    KeepLongest(AllCaptures(e, pos))
  }

  // ----------------------------------------------------------- plain steps

  /** The step test of `addNormalMovesForPiece` (ai.js) and `findNormalMoves` (game.js). */
  predicate CanStep(e: Engine, g: Grid, at: Square, d: Dir)
  {
    var to := Step(at, d, 1);
    InBoard(to) && At(g, to) == NoPiece && (e == GameEngine ==> IsDark(to))
  }

  /** Steps through the first `k` directions of the piece at `at`. */
  function StepsUpTo(e: Engine, g: Grid, side: Player, at: Square, k: int): seq<Move>
    requires InBoard(at) && 0 <= k <= |DirectionsFor(At(g, at), side)|
  {
    if k == 0 then []
    else
      var d := DirectionsFor(At(g, at), side)[k - 1];
      StepsUpTo(e, g, side, at, k - 1)
      + if CanStep(e, g, at, d) then [Move(at, Step(at, d, 1), [])] else []
  }

  /** One more direction of the step loop: its step, when open, is appended. */
  lemma StepsUpToNext(e: Engine, g: Grid, side: Player, at: Square, i: int, prefix: seq<Move>)
    requires InBoard(at) && 0 <= i < |DirectionsFor(At(g, at), side)|
    ensures var d := DirectionsFor(At(g, at), side)[i];
            prefix + StepsUpTo(e, g, side, at, i + 1)
            == prefix + StepsUpTo(e, g, side, at, i) + (if CanStep(e, g, at, d) then [Move(at, Step(at, d, 1), [])] else [])
  {
    var d := DirectionsFor(At(g, at), side)[i];
    ConcatAssoc(prefix, StepsUpTo(e, g, side, at, i), if CanStep(e, g, at, d) then [Move(at, Step(at, d, 1), [])] else []);
  }

  /** The step test of `addNormalMovesForPiece`, on the coordinates it computes. */
  lemma SearchStepTest(g: Grid, at: Square, d: Dir, newRow: int, newCol: int)
    requires newRow == at.row + d.dy && newCol == at.col + d.dx
    ensures Square(newRow, newCol) == Step(at, d, 1)
    ensures CanStep(SearchEngine, g, at, d)
            <==> 0 <= newRow < BOARD_SIZE && 0 <= newCol < BOARD_SIZE && g[newRow][newCol] == NoPiece
  {
  }

  /** The plain steps the scan finds from one cell: none unless it holds a piece of the side to move. */
  function CellStepMoves(e: Engine, pos: Position, sq: Square): seq<Move>
    requires InBoard(sq)
  {
    var g, side := pos.pieces, pos.currentPlayer;
    if IsOwn(At(g, sq), side) then StepsUpTo(e, g, side, sq, |DirectionsFor(At(g, sq), side)|) else []
  }

  /** Plain steps of every own piece the row-by-row scan has passed at point (i, j). */
  function NormalBefore(e: Engine, pos: Position, i: int, j: int): seq<Move>
    requires ScanPoint(i, j)
    decreases i, j
  {
    if j == 0 then (if i == 0 then [] else NormalBefore(e, pos, i - 1, BOARD_SIZE))
    else NormalBefore(e, pos, i, j - 1) + CellStepMoves(e, pos, Square(i, j - 1))
  }

  /** One cell of the scan adds the steps of the piece on it. */
  lemma NormalCellStep(e: Engine, pos: Position, row: int, col: int)
    requires 0 <= row < BOARD_SIZE && 0 <= col < BOARD_SIZE
    ensures NormalBefore(e, pos, row, col + 1) == NormalBefore(e, pos, row, col) + CellStepMoves(e, pos, Square(row, col))
  {
  }

  /** The end of a row of the scan is the start of the next. */
  lemma NormalRowDone(e: Engine, pos: Position, row: int)
    requires 0 <= row < BOARD_SIZE
    ensures NormalBefore(e, pos, row + 1, 0) == NormalBefore(e, pos, row, BOARD_SIZE)
  {
  }

  /** The non-capturing moves of the side to move (`getNormalMoves`, and the second half of ai.js
      `generateMoves`). */
  function NormalMoves(e: Engine, pos: Position): seq<Move>
  {
    NormalBefore(e, pos, BOARD_SIZE, 0)
  }

  /** A plain step: an own piece moves one cell in one of its directions onto an empty board
      cell (a dark one, for the game engine), capturing nothing. */
  predicate IsStep(e: Engine, pos: Position, m: Move)
  {
    InBoard(m.from) && IsOwn(At(pos.pieces, m.from), pos.currentPlayer) && m.captures == []
    && exists d | d in DirectionsFor(At(pos.pieces, m.from), pos.currentPlayer)
         :: m.to == Step(m.from, d, 1) && CanStep(e, pos.pieces, m.from, d)
  }

  /** `m` is the step from `at` through the piece's `j`-th direction, and that step is open. */
  predicate StepThrough(e: Engine, g: Grid, side: Player, at: Square, j: int, m: Move)
    requires InBoard(at) && 0 <= j < |DirectionsFor(At(g, at), side)|
  {
    var d := DirectionsFor(At(g, at), side)[j];
    m == Move(at, Step(at, d, 1), []) && CanStep(e, g, at, d)
  }

  lemma {:induction false} StepsUpToMembers(e: Engine, g: Grid, side: Player, at: Square, k: int)
    requires InBoard(at) && 0 <= k <= |DirectionsFor(At(g, at), side)|
    ensures forall m :: m in StepsUpTo(e, g, side, at, k) <==>
              exists j | 0 <= j < k :: StepThrough(e, g, side, at, j, m)
  {
    if k > 0 {
      StepsUpToMembers(e, g, side, at, k - 1);
      var d := DirectionsFor(At(g, at), side)[k - 1];
      var front := StepsUpTo(e, g, side, at, k - 1);
      var here := if CanStep(e, g, at, d) then [Move(at, Step(at, d, 1), [])] else [];
      assert StepsUpTo(e, g, side, at, k) == front + here;
      forall m
        ensures m in front + here <==> exists j | 0 <= j < k :: StepThrough(e, g, side, at, j, m)
      {
        if m in here {
          assert StepThrough(e, g, side, at, k - 1, m);
        } else if m in front {
          var j :| 0 <= j < k - 1 && StepThrough(e, g, side, at, j, m);
          assert 0 <= j < k;
        } else {
          forall j | 0 <= j < k
            ensures !StepThrough(e, g, side, at, j, m)
          {
            if j < k - 1 {
              assert !StepThrough(e, g, side, at, j, m);
            }
          }
        }
      }
    }
  }

  /** The steps generated for one cell are that cell's plain steps. */
  lemma CellSteps(e: Engine, pos: Position, sq: Square)
    requires InBoard(sq)
    ensures forall m :: m in CellStepMoves(e, pos, sq) <==> m.from == sq && IsStep(e, pos, m)
  {
    var g, side := pos.pieces, pos.currentPlayer;
    var dirs := DirectionsFor(At(g, sq), side);
    StepsUpToMembers(e, g, side, sq, |dirs|);
    forall m | m in CellStepMoves(e, pos, sq)
      ensures m.from == sq && IsStep(e, pos, m)
    {
      var j :| 0 <= j < |dirs| && StepThrough(e, g, side, sq, j, m);
      assert dirs[j] in dirs;
    }
    forall m: Move | m.from == sq && IsStep(e, pos, m)
      ensures m in CellStepMoves(e, pos, sq)
    {
      var d :| d in dirs && m.to == Step(m.from, d, 1) && CanStep(e, g, m.from, d);
      var j :| 0 <= j < |dirs| && dirs[j] == d;
      assert StepThrough(e, g, side, sq, j, m);
    }
  }

  lemma {:induction false} NormalBeforeMembers(e: Engine, pos: Position, i: int, j: int)
    requires ScanPoint(i, j)
    ensures forall m :: m in NormalBefore(e, pos, i, j) <==> Before(m.from, i, j) && IsStep(e, pos, m)
    decreases i, j
  {
    if j > 0 {
      NormalBeforeMembers(e, pos, i, j - 1);
      CellSteps(e, pos, Square(i, j - 1));
      forall m: Move
        ensures Before(m.from, i, j) <==> Before(m.from, i, j - 1) || m.from == Square(i, j - 1)
      {
        BeforeStep(m.from, i, j);
      }
    } else if i > 0 {
      NormalBeforeMembers(e, pos, i - 1, BOARD_SIZE);
      forall m: Move
        ensures Before(m.from, i, j) <==> Before(m.from, i - 1, BOARD_SIZE)
      {
        BeforeStep(m.from, i, j);
      }
    }
  }

  /** The non-capturing moves are exactly the plain steps of the side to move. */
  lemma NormalMovesSpec(e: Engine, pos: Position)
    ensures forall m :: m in NormalMoves(e, pos) <==> IsStep(e, pos, m)
  {
    NormalBeforeMembers(e, pos, BOARD_SIZE, 0);
  }

  // ----------------------------------------------------------- legal moves

  /** `generateMoves` (ai.js) and `getLegalMoves` (game.js): the longest captures when there is
      any capture, otherwise the plain steps. */
  function LegalMoves(e: Engine, pos: Position): seq<Move>
  {
    var caps := CaptureMoves(e, pos);
    if caps != [] then caps else NormalMoves(e, pos)
  }

  /** Some own piece can make a first jump. */
  ghost predicate CaptureAvailable(e: Engine, pos: Position)
  {
    exists sq :: CanCaptureFrom(e, pos, sq)
  }

  /** Mandatory and maximum capture: when some own piece can jump, the legal moves are all
      captures (well-formed, from an own piece), every one as long as the longest capture
      sequence on the board, and every sequence of that length is among them; otherwise the legal
      moves are exactly the plain steps. */
  lemma LegalMovesSpec(e: Engine, pos: Position)
    ensures CaptureAvailable(e, pos) ==>
              && LegalMoves(e, pos) != []
              && (forall m | m in LegalMoves(e, pos)
                    :: WellFormedCapture(m, m.from) && IsOwn(At(pos.pieces, m.from), pos.currentPlayer)
                       && |m.captures| == LongestCapture(AllCaptures(e, pos)))
              && (forall m | m in AllCaptures(e, pos) && |m.captures| == LongestCapture(AllCaptures(e, pos))
                    :: m in LegalMoves(e, pos))
    ensures !CaptureAvailable(e, pos) ==>
              forall m :: m in LegalMoves(e, pos) <==> IsStep(e, pos, m)
  {
    var all := AllCaptures(e, pos);
    CapturesBeforeMembers(e, pos, BOARD_SIZE, 0);
    CapturesBeforeNonEmpty(e, pos, BOARD_SIZE, 0);
    KeepLongestSpec(all);
    NormalMovesSpec(e, pos);
    if CaptureAvailable(e, pos) {
      var sq :| CanCaptureFrom(e, pos, sq);
      CellCapturesNonEmpty(e, pos, sq);
      assert Before(sq, BOARD_SIZE, 0);
    } else {
      forall sq | Before(sq, BOARD_SIZE, 0)
        ensures CellCaptureMoves(e, pos, sq) == []
      {
        CellCapturesNonEmpty(e, pos, sq);
      }
    }
  }

  /** Every legal move stays on the board and ends on a cell other than its start and its
      captured cells, so it can be played with `makeMove`. */
  lemma LegalMovesPlayable(e: Engine, pos: Position)
    ensures forall m | m in LegalMoves(e, pos) :: MoveInBoard(m) && m.from != m.to && m.to !in m.captures
  {
    LegalMovesSpec(e, pos);
    forall m | m in LegalMoves(e, pos)
      ensures MoveInBoard(m) && m.from != m.to && m.to !in m.captures
    {
      if !CaptureAvailable(e, pos) {
        assert IsStep(e, pos, m);
        var d :| d in DirectionsFor(At(pos.pieces, m.from), pos.currentPlayer)
                 && m.to == Step(m.from, d, 1) && CanStep(e, pos.pieces, m.from, d);
      }
    }
  }

  /** `LegalMovesPlayable` for one legal move. */
  lemma LegalMovePlayable(e: Engine, pos: Position, m: Move)
    requires m in LegalMoves(e, pos)
    ensures MoveInBoard(m) && m.from != m.to && m.to !in m.captures
  {
    LegalMovesPlayable(e, pos);
  }

  /** A legal move that captures is a well-formed capture sequence of a piece of the side to
      move. */
  lemma LegalCaptureShape(e: Engine, pos: Position, m: Move)
    requires m in LegalMoves(e, pos) && m.captures != []
    ensures WellFormedCapture(m, m.from) && IsOwn(At(pos.pieces, m.from), pos.currentPlayer)
  {
    LegalMovesSpec(e, pos);
  }

  /** The longest captures are playable moves too: whenever there are any, they are the legal
      moves. */
  lemma CaptureMovesPlayable(e: Engine, pos: Position)
    ensures forall m | m in CaptureMoves(e, pos) :: MoveInBoard(m) && m.from != m.to && m.to !in m.captures
  {
    LegalMovesPlayable(e, pos);
  }

  // ------------------------------------------------- the game engine's targets

  /** What the game engine's capture search, which only blanks the jumped pieces of the grid
      `g0` it started on, has kept true on its current grid `g`: a cell not captured holds what
      it held in `g0`, every captured cell held an opponent piece in `g0`, and a cell landed on
      is dark and empty. */
  ghost predicate GameTrail(g0: Grid, g: Grid, side: Player, at: Square, caps: seq<Square>)
    requires InBoard(at) && forall c | c in caps :: InBoard(c)
  {
    && (forall s | InBoard(s) && s !in caps :: At(g, s) == At(g0, s))
    && (forall c | c in caps :: IsOpponent(At(g0, c), side))
    && (|caps| > 0 ==> IsDark(at) && At(g, at) == NoPiece)
  }

  /** What a move emitted by the game engine's capture search ends on and jumps over, seen on
      the grid the search started on. */
  predicate GameTarget(g0: Grid, side: Player, m: Move)
    requires MoveInBoard(m)
  {
    IsDark(m.to) && At(g0, m.to) == NoPiece && forall c | c in m.captures :: IsOpponent(At(g0, c), side)
  }

  /** One more jump keeps the trail. */
  lemma GameTrailStep(g0: Grid, g: Grid, side: Player, origin: Square, at: Square, d: Dir,
                      caps: seq<Square>, visited: seq<Square>)
    requires ChainState(g, side, origin, at, caps, visited) && GameTrail(g0, g, side, at, caps)
    requires IsDiagonal(d) && CanJump(GameEngine, g, side, at, d, visited)
    ensures InBoard(Step(at, d, 1)) && InBoard(Step(at, d, 2))
    ensures GameTrail(g0, AfterJump(GameEngine, g, at, d, caps), side, Step(at, d, 2), caps + [Step(at, d, 1)])
  {
    var over := Step(at, d, 1);
    assert over !in caps by {
      OwnershipShape(At(g, over), side);
    }
  }

  /** Every move the game engine's capture search emits along a trail ends on a cell that was
      dark and empty, and jumps over opponent pieces, on the grid the search started on. */
  lemma {:induction false} GameTreeTargets(g0: Grid, g: Grid, side: Player, origin: Square, at: Square,
                                           caps: seq<Square>, visited: seq<Square>)
    requires ChainState(g, side, origin, at, caps, visited) && GameTrail(g0, g, side, at, caps)
    ensures forall m | m in CaptureTree(GameEngine, g, side, at, caps, visited)
              :: MoveInBoard(m) && GameTarget(g0, side, m)
    decreases OpponentCount(g, side), 2, 0
  {
    GameJumpsTargets(g0, g, side, origin, at, caps, visited, |DirectionsFor(At(g, at), side)|);
    if !AnyJump(GameEngine, g, side, at, visited) && |caps| > 0 {
      assert at !in caps;
    }
  }

  lemma {:induction false} GameJumpsTargets(g0: Grid, g: Grid, side: Player, origin: Square, at: Square,
                                            caps: seq<Square>, visited: seq<Square>, k: int)
    requires ChainState(g, side, origin, at, caps, visited) && GameTrail(g0, g, side, at, caps)
    requires 0 <= k <= |DirectionsFor(At(g, at), side)|
    ensures forall m | m in JumpsUpTo(GameEngine, g, side, at, caps, visited, k)
              :: MoveInBoard(m) && GameTarget(g0, side, m)
    decreases OpponentCount(g, side), 1, k
  {
    if k > 0 {
      GameJumpsTargets(g0, g, side, origin, at, caps, visited, k - 1);
      var d := DirectionsFor(At(g, at), side)[k - 1];
      var front := JumpsUpTo(GameEngine, g, side, at, caps, visited, k - 1);
      var through := JumpsThrough(GameEngine, g, side, at, caps, visited, d);
      assert JumpsUpTo(GameEngine, g, side, at, caps, visited, k) == front + through;
      GameThroughTargets(g0, g, side, origin, at, caps, visited, d);
    }
  }

  /** `GameJumpsTargets` for the moves found through one direction. */
  lemma {:induction false} GameThroughTargets(g0: Grid, g: Grid, side: Player, origin: Square, at: Square,
                                              caps: seq<Square>, visited: seq<Square>, d: Dir)
    requires ChainState(g, side, origin, at, caps, visited) && GameTrail(g0, g, side, at, caps)
    requires IsDiagonal(d)
    ensures forall m | m in JumpsThrough(GameEngine, g, side, at, caps, visited, d)
              :: MoveInBoard(m) && GameTarget(g0, side, m)
    decreases OpponentCount(g, side), 0, 0
  {
    if CanJump(GameEngine, g, side, at, d, visited) {
      JumpShrinks(GameEngine, g, side, at, d, caps, visited);
      ChainStep(GameEngine, g, side, origin, at, d, caps, visited);
      GameTrailStep(g0, g, side, origin, at, d, caps, visited);
      GameTreeTargets(g0, AfterJump(GameEngine, g, at, d, caps), side, origin, Step(at, d, 2),
                      caps + [Step(at, d, 1)], visited + [at]);
    }
  }

  /** Every legal move of the game engine starts on a piece of the side to move and ends on an
      empty dark cell, and every captured cell holds an opponent piece; so `isValidMove`'s own
      checks before the legal-move search never reject a move that search would accept. */
  lemma GameMovesTargets(pos: Position)
    ensures forall m | m in LegalMoves(GameEngine, pos)
              :: MoveInBoard(m) && IsOwn(At(pos.pieces, m.from), pos.currentPlayer)
                 && GameTarget(pos.pieces, pos.currentPlayer, m)
  {
    var g, side := pos.pieces, pos.currentPlayer;
    var all := AllCaptures(GameEngine, pos);
    if CaptureMoves(GameEngine, pos) != [] {
      KeepLongestSpec(all);
      CapturesBeforeMembers(GameEngine, pos, BOARD_SIZE, 0);
      forall m | m in CaptureMoves(GameEngine, pos)
        ensures MoveInBoard(m) && IsOwn(At(g, m.from), side) && GameTarget(g, side, m)
      {
        assert m in all;
        OwnershipShape(At(g, m.from), side);
        GameTreeTargets(g, g, side, m.from, m.from, [], []);
      }
    } else {
      NormalMovesSpec(GameEngine, pos);
      forall m | m in NormalMoves(GameEngine, pos)
        ensures MoveInBoard(m) && IsOwn(At(g, m.from), side) && GameTarget(g, side, m)
      {
        assert IsStep(GameEngine, pos, m);
        var d :| d in DirectionsFor(At(g, m.from), side) && m.to == Step(m.from, d, 1)
                 && CanStep(GameEngine, g, m.from, d);
      }
    }
  }

  /** `GameMovesTargets` for one legal move. */
  lemma LegalGameTarget(pos: Position, m: Move)
    requires m in LegalMoves(GameEngine, pos)
    ensures MoveInBoard(m) && IsOwn(At(pos.pieces, m.from), pos.currentPlayer)
            && GameTarget(pos.pieces, pos.currentPlayer, m)
  {
    GameMovesTargets(pos);
  }

}
