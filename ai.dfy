/**
 * The computer player of ai.js: the `AI` object with its difficulty level, its transposition
 * table and its node counter; the move generator it searches with; its static evaluation and
 * time budget; and the search itself (iterative deepening over a negamax alpha-beta search that
 * ends in a capture-only quiescence search).
 *
 * `Date.now()` is the parameter `clock`: the reading taken while the search has visited `n`
 * nodes is `clock(n)`. JavaScript's infinities are the sentinel `INF`, larger than any score.
 */
module Search {
  import opened Wrappers
  import opened Constants
  import opened Board
  import opened Rules
  import opened Evaluation
  import opened Cache

  /** Stands for `Infinity`: every evaluation lies strictly inside [-INF, INF]. */
  const INF: int := 1_000_000_000

  /** What `iterativeSearch` returns. */
  datatype SearchResult = SearchResult(move: Option<Move>, score: int, timeout: bool)

  /** What `getMove` records in `lastEvaluation`. */
  datatype LastEvaluation = LastEvaluation(score: int, depth: int, nodes: nat, time: int)

  /** `Math.min(Math.max(1, level), 6)`. */
  function Clamp(level: int): (l: Level)
    ensures 1 <= level <= 6 ==> l == level
    ensures level < 1 ==> l == 1
    ensures level > 6 ==> l == 6
  {
    if level < 1 then 1 else if level > 6 then 6 else level
  }

  /** What the search relies on in its table: every cached score is a search score, and a cached
      best move for a position's key is a legal move of that position. */
  ghost predicate CacheSound(t: Table)
  {
    && (forall k | k in t.entries :: -INF <= t.entries[k].value <= INF)
    && (forall p: Position {:trigger KeyOf(p)} | KeyOf(p) in t.entries && t.entries[KeyOf(p)].bestMove.Some?
          :: t.entries[KeyOf(p)].bestMove.value in LegalMoves(SearchEngine, p))
  }

  lemma CacheSoundEmpty()
    ensures CacheSound(EMPTY_TABLE)
  {
  }

  /** Storing a search score under a position's key, with no move or a legal move of that
      position, keeps the table sound. */
  lemma CacheSoundStore(t: Table, maxSize: int, pos: Position, e: Entry)
    requires WellFormed(t) && CacheSound(t)
    requires -INF <= e.value <= INF
    requires e.bestMove.Some? ==> e.bestMove.value in LegalMoves(SearchEngine, pos)
    ensures CacheSound(StoreInto(t, maxSize, KeyOf(pos), e))
  {
    var r := StoreInto(t, maxSize, KeyOf(pos), e);
    StoreSpec(t, maxSize, KeyOf(pos), e);
    forall p: Position | KeyOf(p) in r.entries && r.entries[KeyOf(p)].bestMove.Some?
      ensures r.entries[KeyOf(p)].bestMove.value in LegalMoves(SearchEngine, p)
    {
      if KeyOf(p) == KeyOf(pos) {
        KeyOfInjective(p, pos);
      }
    }
  }

  /** Deleting entries keeps the table sound. */
  lemma CacheSoundDelete(t: Table, k: string)
    requires WellFormed(t) && CacheSound(t)
    ensures CacheSound(Delete(t, k))
  {
  }

  // ------------------------------------------------------------- the search

  function Max(a: int, b: int): int
  {
    if a >= b then a else b
  }

  /** The best of the scores a move loop has seen, from minus infinity: the running maximum
      the loops of `negamax` and `iterativeSearch` keep in `bestScore`. */
  function BestScore(scores: seq<int>): int
  {
    if scores == [] then -INF else Max(BestScore(scores[..|scores| - 1]), scores[|scores| - 1])
  }

  /** `BestScore` is the maximum of the scores, or minus infinity when none is above it. */
  lemma {:induction false} BestScoreIsMax(scores: seq<int>)
    ensures BestScore(scores) >= -INF
    ensures forall k | 0 <= k < |scores| :: scores[k] <= BestScore(scores)
    ensures BestScore(scores) > -INF ==> exists k | 0 <= k < |scores| :: scores[k] == BestScore(scores)
  {
    if scores != [] {
      var init := scores[..|scores| - 1];
      BestScoreIsMax(init);
      assert forall k | 0 <= k < |init| :: scores[k] == init[k];
    }
  }

  /** One more score: the best so far or the new one, whichever is larger. */
  lemma BestScoreSnoc(scores: seq<int>, x: int)
    ensures BestScore(scores + [x]) == Max(BestScore(scores), x)
  {
    assert (scores + [x])[..|scores|] == scores;
  }

  /** The cut-off test `alpha >= beta` of a move loop that raises alpha by every score failed
      after each score but the last: the loop did not stop before it had seen them all. */
  predicate NoEarlierCutoff(alpha: int, beta: int, scores: seq<int>)
  {
    |scores| <= 1
    || (var init := scores[..|scores| - 1];
        NoEarlierCutoff(alpha, beta, init) && Max(alpha, BestScore(init)) < beta)
  }

  /** Read back as a statement about every prefix: before each score after the first, alpha,
      raised by the scores before it, was still below beta. */
  lemma {:induction false} NoEarlierCutoffPrefixes(alpha: int, beta: int, scores: seq<int>, k: int)
    requires NoEarlierCutoff(alpha, beta, scores) && 0 < k < |scores|
    ensures Max(alpha, BestScore(scores[..k])) < beta
  {
    var init := scores[..|scores| - 1];
    if k < |scores| - 1 {
      NoEarlierCutoffPrefixes(alpha, beta, init, k);
      assert init[..k] == scores[..k];
    }
  }

  /** A loop that went on after its last score still has no earlier cut-off with one more. */
  lemma NoEarlierCutoffSnoc(alpha: int, beta: int, scores: seq<int>, x: int)
    requires NoEarlierCutoff(alpha, beta, scores)
    requires scores != [] ==> Max(alpha, BestScore(scores)) < beta
    ensures NoEarlierCutoff(alpha, beta, scores + [x])
  {
    assert (scores + [x])[..|scores|] == scores;
  }

  /** What a move loop that raises alpha by every score keeps: its scores are in the window,
      the best score is their maximum, alpha is raised to it, and no cut-off came early. */
  predicate MoveLoop(alpha: int, beta: int, scores: seq<int>, bestScore: int, raised: int)
  {
    (forall k | 0 <= k < |scores| :: InWindow(scores[k]))
    && bestScore == BestScore(scores) && raised == Max(alpha, bestScore)
    && NoEarlierCutoff(alpha, beta, scores)
  }

  /** One more score in a loop that did not cut off keeps `MoveLoop`. */
  lemma MoveLoopSnoc(alpha: int, beta: int, scores: seq<int>, bestScore: int, raised: int, x: int)
    requires MoveLoop(alpha, beta, scores, bestScore, raised) && InWindow(x)
    requires scores != [] ==> raised < beta
    ensures MoveLoop(alpha, beta, scores + [x], Max(bestScore, x), Max(raised, x))
  {
    var next := scores + [x];
    BestScoreSnoc(scores, x);
    NoEarlierCutoffSnoc(alpha, beta, scores, x);
    forall k | 0 <= k < |next|
      ensures InWindow(next[k])
    {
      if k < |scores| {
        assert next[k] == scores[k];
      }
    }
    assert Max(raised, x) == Max(alpha, Max(bestScore, x));
  }

  /** The move `iterativeSearch` keeps is the first to reach the best score: above minus
      infinity, `index` is where the best score first appears among the scores. */
  predicate FirstBest(scores: seq<int>, bestScore: int, index: int)
  {
    bestScore > -INF ==>
      0 <= index < |scores| && scores[index] == bestScore
      && forall k | 0 <= k < index :: scores[k] < bestScore
  }

  /** Replacing the kept move only on a strictly better score keeps it the first best. */
  lemma FirstBestSnoc(scores: seq<int>, bestScore: int, index: int, x: int)
    requires bestScore == BestScore(scores) && FirstBest(scores, bestScore, index)
    ensures x > bestScore ==> FirstBest(scores + [x], x, |scores|)
    ensures x <= bestScore ==> FirstBest(scores + [x], bestScore, index)
  {
    BestScoreIsMax(scores);
    var next := scores + [x];
    assert forall k | 0 <= k < |scores| :: next[k] == scores[k];
  }

  /** The move kept by `iterativeSearch`'s loop: none while the best score is minus infinity,
      otherwise the move at `index`. */
  predicate KeptMove(moves: seq<Move>, bestMove: Option<Move>, bestScore: int, index: int)
  {
    (bestMove.None? <==> bestScore == -INF)
    && (bestMove.Some? ==> 0 <= index < |moves| && bestMove.value == moves[index])
  }

  /** What the move loop of `iterativeSearch` keeps, with alpha starting at minus infinity and
      beta at infinity, so that alpha stays equal to the best score. */
  predicate RootLoop(moves: seq<Move>, scores: seq<int>, bestMove: Option<Move>, bestScore: int,
                     index: int)
  {
    MoveLoop(-INF, INF, scores, bestScore, bestScore)
    && FirstBest(scores, bestScore, index) && KeptMove(moves, bestMove, bestScore, index)
  }

  /** One more move searched at the root: a strictly better score replaces the kept move. */
  lemma RootLoopSnoc(moves: seq<Move>, scores: seq<int>, bestMove: Option<Move>, bestScore: int,
                     index: int, x: int)
    requires RootLoop(moves, scores, bestMove, bestScore, index)
    requires |scores| < |moves| && InWindow(x) && (scores != [] ==> bestScore < INF)
    ensures x > bestScore ==> RootLoop(moves, scores + [x], Some(moves[|scores|]), x, |scores|)
    ensures x <= bestScore ==> RootLoop(moves, scores + [x], bestMove, bestScore, index)
  {
    MoveLoopSnoc(-INF, INF, scores, bestScore, bestScore, x);
    FirstBestSnoc(scores, bestScore, index, x);
  }

  /** A score the search can return: a finite score or one of the two infinities. */
  predicate InWindow(x: int)
  {
    -INF <= x <= INF
  }

  /** The bound type a search node stores, as ai.js classifies it: against `alpha` as it
      stands after the move loop. */
  function StoredBoundAsWritten(bestScore: int, alphaAfter: int, beta: int): Bound
  {
    if bestScore <= alphaAfter then UpperBound
    else if bestScore >= beta then LowerBound
    else Exact
  }

  /** The move loop only ever raises alpha to the best score, so the classification as
      written stores every score as an upper bound, even a score strictly inside the window
      the node was searched with, which is exact. */
  lemma StoredBoundAsWrittenAlwaysUpper(bestScore: int, alpha: int, beta: int)
    ensures StoredBoundAsWritten(bestScore, Max(alpha, bestScore), beta) == UpperBound
    ensures alpha < bestScore < beta ==> StoredBound(bestScore, alpha, beta) == Exact
  {
  }

  /** The bound type a search node stores, against the window it was entered with: at most
      alpha is an upper bound, at least beta a lower bound, strictly inside is exact. */
  function StoredBound(bestScore: int, alpha: int, beta: int): (b: Bound)
    ensures b == UpperBound <==> bestScore <= alpha
    ensures b == LowerBound <==> alpha < bestScore && beta <= bestScore
    ensures b == Exact <==> alpha < bestScore < beta
  {
    if bestScore <= alpha then UpperBound
    else if bestScore >= beta then LowerBound
    else Exact
  }

  class AI {
    var level: Level
    const cache: TranspositionTable
    var nodeCount: nat
    var lastEvaluation: Option<LastEvaluation>

    ghost predicate Valid()
      reads this, cache
    {
      cache.Valid() && CacheSound(cache.table)
    }

    /** A beginner with a fresh table of `CACHE.MAX_SIZE` entries and no evaluation yet. */
    constructor ()
      ensures Valid() && fresh(cache)
      ensures level == 1 && nodeCount == 0 && lastEvaluation == None
      ensures cache.table == EMPTY_TABLE && cache.maxSize == CACHE_MAX_SIZE && cache.level == None
    {
      level := 1;
      cache := new TranspositionTable(CACHE_MAX_SIZE);
      nodeCount := 0;
      lastEvaluation := None;
      CacheSoundEmpty();
    }

    /** `setDifficulty`: the level clamped into 1..6, copied into the table. */
    method SetDifficulty(requested: int)
      requires Valid()
      modifies this, cache
      ensures Valid()
      ensures level == Clamp(requested) && cache.level == Some(level)
      ensures cache.table == old(cache.table) && nodeCount == old(nodeCount)
      ensures lastEvaluation == old(lastEvaluation)
    {
      level := Clamp(requested);
      cache.level := Some(level);
    }

    // ------------------------------------------------------- move generation

    /** `addNormalMovesForPiece`: the open single steps of the piece at (row, col), appended. */
    method AddNormalMovesForPiece(moves: seq<Move>, pos: Position, row: int, col: int)
      returns (out: seq<Move>)
      requires InBoard(Square(row, col))
      ensures var at := Square(row, col);
              out == moves + StepsUpTo(SearchEngine, pos.pieces, pos.currentPlayer, at,
                                       |DirectionsFor(At(pos.pieces, at), pos.currentPlayer)|)
    {
      var at := Square(row, col);
      var piece := pos.pieces[row][col];
      var directions := if piece == WhiteKing || piece == BlackKing then KING_MOVES
                        else if pos.currentPlayer == White then WHITE_MOVES else BLACK_MOVES;
      assert directions == DirectionsFor(At(pos.pieces, at), pos.currentPlayer);
      out := moves;
      for i := 0 to |directions|
        invariant out == moves + StepsUpTo(SearchEngine, pos.pieces, pos.currentPlayer, at, i)
      {
        var dir := directions[i];
        var newRow, newCol := row + dir.dy, col + dir.dx;
        SearchStepTest(pos.pieces, at, dir, newRow, newCol);
        StepsUpToNext(SearchEngine, pos.pieces, pos.currentPlayer, at, i, moves);
        if 0 <= newRow < BOARD_SIZE && 0 <= newCol < BOARD_SIZE && pos.pieces[newRow][newCol] == NoPiece {
          out := out + [Move(at, Square(newRow, newCol), [])];
        } else {
          assert out + [] == out;
        }
      }
    }

    /** `addCaptureMovesForPiece`: every capture sequence continuing from (row, col), appended.
        The recursion continues on the board after each jump, with the mover unchanged. */
    method AddCaptureMovesForPiece(captures: seq<Move>, pos: Position, row: int, col: int,
                                   currentCaptures: seq<Square>, visitedSquares: seq<Square>)
      returns (out: seq<Move>)
      requires TreeNode(pos.pieces, pos.currentPlayer, Square(row, col), currentCaptures, visitedSquares)
      ensures out == captures + CaptureTree(SearchEngine, pos.pieces, pos.currentPlayer, Square(row, col),
                                            currentCaptures, visitedSquares)
      decreases OpponentCount(pos.pieces, pos.currentPlayer), 1
    {
      var g, side, at := pos.pieces, pos.currentPlayer, Square(row, col);
      var piece := g[row][col];
      var directions := if piece == WhiteKing || piece == BlackKing then KING_MOVES
                        else if side == White then WHITE_MOVES else BLACK_MOVES;
      assert directions == DirectionsFor(At(g, at), side);
      var captureFound := false;
      out := captures;
      for i := 0 to |directions|
        invariant out == captures + JumpsUpTo(SearchEngine, g, side, at, currentCaptures, visitedSquares, i)
        invariant captureFound <==> JumpAmong(SearchEngine, g, side, at, directions, visitedSquares, i)
      {
        var dir := directions[i];
        JumpsUpToNext(SearchEngine, g, side, at, currentCaptures, visitedSquares, i, captures);
        var jumped;
        out, jumped := AddJumpCaptures(out, pos, row, col, dir, currentCaptures, visitedSquares);
        JumpAmongNext(SearchEngine, g, side, at, directions, visitedSquares, i);
        if jumped {
          captureFound := true;
        }
      }
      CaptureTreeEnd(SearchEngine, g, side, at, currentCaptures, visitedSquares, captures, captureFound);
      if !captureFound && |currentCaptures| > 0 {
        out := out + [Move(visitedSquares[0], at, currentCaptures)];
      }
    }

    /** The body of the direction loop of `addCaptureMovesForPiece`: when the jump in direction
        `dir` is open, make it and append every sequence continuing from the landing cell;
        `jumped` is the value `captureFound` is set from. */
    method AddJumpCaptures(captures: seq<Move>, pos: Position, row: int, col: int, dir: Dir,
                           currentCaptures: seq<Square>, visitedSquares: seq<Square>)
      returns (out: seq<Move>, jumped: bool)
      requires TreeNode(pos.pieces, pos.currentPlayer, Square(row, col), currentCaptures, visitedSquares)
      requires IsDiagonal(dir)
      ensures jumped == CanJump(SearchEngine, pos.pieces, pos.currentPlayer, Square(row, col), dir, visitedSquares)
      ensures out == captures + JumpsThrough(SearchEngine, pos.pieces, pos.currentPlayer, Square(row, col),
                                             currentCaptures, visitedSquares, dir)
      decreases OpponentCount(pos.pieces, pos.currentPlayer), 0
    {
      var g, side, at := pos.pieces, pos.currentPlayer, Square(row, col);
      var jumpRow, jumpCol := row + 2 * dir.dy, col + 2 * dir.dx;
      var captureRow, captureCol := row + dir.dy, col + dir.dx;
      ghost var land, over := Step(at, dir, 2), Step(at, dir, 1);
      assert land == Square(jumpRow, jumpCol) && over == Square(captureRow, captureCol);
      SearchJumpTest(g, side, at, dir, visitedSquares);
      out := captures;
      jumped := false;
      if 0 <= jumpRow < BOARD_SIZE && 0 <= jumpCol < BOARD_SIZE
         && IsOpponent(g[captureRow][captureCol], side)
         && g[jumpRow][jumpCol] == NoPiece
         && Square(jumpRow, jumpCol) !in visitedSquares
      {
        JumpShrinks(SearchEngine, g, side, at, dir, currentCaptures, visitedSquares);
        jumped := true;
        var captured := currentCaptures + [Square(captureRow, captureCol)];
        var newPosition := Position(MoveGrid(g, Move(at, Square(jumpRow, jumpCol), captured)), side);
        assert newPosition.pieces == AfterJump(SearchEngine, g, at, dir, currentCaptures);
        out := AddCaptureMovesForPiece(out, newPosition, jumpRow, jumpCol, captured, visitedSquares + [at]);
      }
    }

    /** `generateCaptureMoves`: the longest capture sequences of the side to move. */
    method GenerateCaptureMoves(pos: Position) returns (result: seq<Move>)
      ensures result == CaptureMoves(SearchEngine, pos)
    {
      var captures := [];
      for i := 0 to BOARD_SIZE
        invariant captures == CapturesBefore(SearchEngine, pos, i, 0)
      {
        captures := AddRowCaptures(captures, pos, i);
      }
      result := KeepLongestCaptures(captures);
    }

    /** One row of the scan of `generateCaptureMoves`: the capture sequences of every own piece
        on row `i`, cell by cell. */
    method AddRowCaptures(captures: seq<Move>, pos: Position, i: int) returns (out: seq<Move>)
      requires 0 <= i < BOARD_SIZE && captures == CapturesBefore(SearchEngine, pos, i, 0)
      ensures out == CapturesBefore(SearchEngine, pos, i + 1, 0)
    {
      out := captures;
      for j := 0 to BOARD_SIZE
        invariant out == CapturesBefore(SearchEngine, pos, i, j)
      {
        CaptureCellStep(SearchEngine, pos, i, j);
        if IsOwn(pos.pieces[i][j], pos.currentPlayer) {
          OwnershipShape(pos.pieces[i][j], pos.currentPlayer);
          out := AddCaptureMovesForPiece(out, pos, i, j, [], []);
        } else {
          assert out + [] == out;
        }
      }
      CaptureRowDone(SearchEngine, pos, i);
    }

    /** The scan in the second half of `generateMoves`: the open steps of every own piece, cell
        by cell. */
    method GenerateNormalMoves(pos: Position) returns (moves: seq<Move>)
      ensures moves == NormalMoves(SearchEngine, pos)
    {
      moves := [];
      for i := 0 to BOARD_SIZE
        invariant moves == NormalBefore(SearchEngine, pos, i, 0)
      {
        for j := 0 to BOARD_SIZE
          invariant moves == NormalBefore(SearchEngine, pos, i, j)
        {
          if IsOwn(pos.pieces[i][j], pos.currentPlayer) {
            moves := AddNormalMovesForPiece(moves, pos, i, j);
          }
        }
      }
    }

    /** `generateMoves`: the captures when there are any, otherwise every open step. */
    method GenerateMoves(pos: Position) returns (moves: seq<Move>)
      ensures moves == LegalMoves(SearchEngine, pos)
    {
      var captures := GenerateCaptureMoves(pos);
      if |captures| > 0 {
        return captures;
      }
      moves := GenerateNormalMoves(pos);
    }

    // ------------------------------------------------------------ evaluation

    /** `evaluatePosition`: the sum over occupied cells, from the side to move's view. */
    method EvaluatePosition(pos: Position) returns (score: int)
      ensures score == Evaluate(pos)
    {
      score := 0;
      for i := 0 to BOARD_SIZE
        invariant score == ScoreBefore(pos.pieces, i, 0)
      {
        for j := 0 to BOARD_SIZE
          invariant score == ScoreBefore(pos.pieces, i, j)
        {
          var piece := pos.pieces[i][j];
          score := AddCellScore(score, piece, i, j);
          ScoreCellStep(pos.pieces, i, j);
        }
        ScoreRowDone(pos.pieces, i);
      }
      if pos.currentPlayer != White {
        score := -score;
      }
    }

    /** The body of `evaluatePosition`'s scan for the cell (i, j) holding `piece`. */
    method AddCellScore(score: int, piece: Piece, i: int, j: int) returns (out: int)
      requires 0 <= i < BOARD_SIZE && 0 <= j < BOARD_SIZE
      ensures out == score + CellScore(piece, Square(i, j))
    {
      out := score;
      if piece != NoPiece {
        out := out + PieceValue(piece);
        var isCenter := 3 <= i <= 6 && 3 <= j <= 6;
        var isEdge := i == 0 || i == 9 || j == 0 || j == 9;
        var isBackRow := (piece == WhiteMan && i == 9) || (piece == BlackMan && i == 0);
        var isNearPromotion := (piece == WhiteMan && i <= 2) || (piece == BlackMan && i >= 7);
        if isCenter { out := out + CENTER_VALUE; }
        if isEdge { out := out + EDGE_VALUE; }
        if isBackRow { out := out + BACK_ROW_VALUE; }
        if isNearPromotion { out := out + PROMOTION_VALUE; }
      }
    }

    /** `countMaterial`: the number of occupied cells. */
    method CountMaterial(pos: Position) returns (count: nat)
      ensures count == Material(pos.pieces)
    {
      count := 0;
      for i := 0 to BOARD_SIZE
        invariant count == MaterialBefore(pos.pieces, i, 0)
      {
        for j := 0 to BOARD_SIZE
          invariant count == MaterialBefore(pos.pieces, i, j)
        {
          if pos.pieces[i][j] != NoPiece {
            count := count + 1;
          }
        }
      }
    }

    /** `assessPositionComplexity`, in tenths. */
    method AssessPositionComplexity(pos: Position) returns (tenths: int)
      ensures tenths == ComplexityTenths(pos)
    {
      var moves := GenerateMoves(pos);
      var capturing := CountCapturing(moves);
      var materialCount := CountMaterial(pos);
      assert ComplexityTenths(pos) == ComplexityFromCounts(capturing, materialCount, |moves|);
      tenths := 10;
      if capturing > 2 { tenths := tenths + 2; }
      if materialCount < 10 { tenths := tenths + 3; }
      if |moves| > 15 { tenths := tenths + 2; }
      if tenths > 15 { tenths := 15; }
    }

    /** `isTimeExceeded` with `now` for `Date.now()`. */
    method IsTimeExceeded(startTime: int, pos: Position, now: int) returns (exceeded: bool)
      ensures exceeded <==> TimeExceeded(now - startTime, level, ComplexityTenths(pos))
    {
      var elapsed := now - startTime;
      var complexity := AssessPositionComplexity(pos);
      var maxTime := TimeAllocation(level) * ComplexMultiplierTenths(level);
      exceeded := elapsed * 100 >= maxTime * complexity;
    }

    /** `shouldContinueSearch` with `now` for `Date.now()`. */
    method ShouldContinueSearch(startTime: int, pos: Position, now: int) returns (continues: bool)
      ensures continues <==> ContinueSearch(now - startTime, level, ComplexityTenths(pos))
    {
      var elapsed := now - startTime;
      var complexity := AssessPositionComplexity(pos);
      var maxTime := TimeAllocation(level) * ComplexMultiplierTenths(level);
      continues := elapsed * 100 < maxTime * complexity;
    }

    // ---------------------------------------------------------------- search

    /** `makeMove`: a copy of the grid with the piece moved, every captured cell emptied one by
        one, the man crowned on the far row, and the other side to move. */
    method MakeMove(pos: Position, move: Move) returns (r: Position)
      requires MoveInBoard(move)
      ensures r == ApplyMove(pos, move)
    {
      var pieces := pos.pieces;
      var piece := pieces[move.from.row][move.from.col];
      pieces := With(pieces, move.from, NoPiece);
      pieces := With(pieces, move.to, piece);
      ghost var placed := pieces;
      for k := 0 to |move.captures|
        invariant pieces == ClearCells(placed, move.captures[..k])
      {
        ClearCellsStep(placed, move.captures, k);
        pieces := With(pieces, move.captures[k], NoPiece);
      }
      assert move.captures[..|move.captures|] == move.captures;
      if ShouldPromote(piece, move.to.row) {
        pieces := With(pieces, move.to, if piece == WhiteMan then WhiteKing else BlackKing);
      }
      r := Position(pieces, if pos.currentPlayer == White then Black else White);
    }

    /** `quiescenceSearch`: fail-hard at the top, so with alpha <= beta the score never exceeds
        beta; standing pat is a floor, so the score is at least the static evaluation unless beta
        is lower; a window of search scores gives a search score. Every call counts a node. */
    method QuiescenceSearch(pos: Position, alpha: int, beta: int, depth: nat, startTime: int,
                            clock: nat -> int)
      returns (score: int)
      modifies this
      ensures alpha <= beta ==> score <= beta
      ensures score >= (if Evaluate(pos) <= beta then Evaluate(pos) else beta)
      ensures InWindow(alpha) && InWindow(beta) ==> InWindow(score)
      ensures nodeCount > old(nodeCount)
      ensures level == old(level) && lastEvaluation == old(lastEvaluation)
      decreases depth, 2
    {
      nodeCount := nodeCount + 1;
      var standPat := EvaluatePosition(pos);
      assert InWindow(standPat) by {
        EvaluateSpec(pos.pieces, pos.currentPlayer);
        assert pos == Position(pos.pieces, pos.currentPlayer);
      }
      if standPat >= beta {
        return beta;
      }
      var raised := Max(alpha, standPat);
      if depth == 0 {
        return standPat;
      }
      score := QuiesceDeeper(pos, standPat, raised, beta, depth, startTime, clock);
    }

    /** The rest of `quiescenceSearch` once the stand-pat score did not cut off and depth
        remains: the stand-pat score when the time budget is spent, otherwise the capture loop. */
    method QuiesceDeeper(pos: Position, standPat: int, alpha: int, beta: int, depth: nat,
                         startTime: int, clock: nat -> int)
      returns (score: int)
      requires depth > 0 && standPat <= alpha
      modifies this
      ensures alpha <= beta ==> score <= beta
      ensures score >= (if standPat <= beta then standPat else beta)
      ensures InWindow(standPat) && InWindow(alpha) && InWindow(beta) ==> InWindow(score)
      ensures nodeCount >= old(nodeCount)
      ensures level == old(level) && lastEvaluation == old(lastEvaluation)
      decreases depth, 1
    {
      var exceeded := IsTimeExceeded(startTime, pos, clock(nodeCount));
      if exceeded {
        return standPat;
      }
      var captureMoves := GenerateCaptureMoves(pos);
      CaptureMovesPlayable(SearchEngine, pos);
      score := QuiesceCaptures(pos, captureMoves, alpha, beta, depth, startTime, clock);
    }

    /** The capture loop of `quiescenceSearch`, alpha already raised by the stand-pat score: a
        reply at or above beta cuts off with beta, otherwise alpha as the replies raised it. */
    method QuiesceCaptures(pos: Position, captureMoves: seq<Move>, alpha: int, beta: int, depth: nat,
                           startTime: int, clock: nat -> int)
      returns (score: int)
      requires depth > 0 && forall m | m in captureMoves :: MoveInBoard(m)
      modifies this
      ensures alpha <= beta ==> score <= beta
      ensures score >= (if alpha <= beta then alpha else beta)
      ensures InWindow(alpha) && InWindow(beta) ==> InWindow(score)
      ensures nodeCount >= old(nodeCount)
      ensures level == old(level) && lastEvaluation == old(lastEvaluation)
      decreases depth, 0
    {
      var raised := alpha;
      for i := 0 to |captureMoves|
        invariant level == old(level) && lastEvaluation == old(lastEvaluation)
        invariant nodeCount >= old(nodeCount)
        invariant alpha <= raised && (alpha <= beta ==> raised < beta || raised == alpha)
        invariant InWindow(alpha) && InWindow(beta) ==> InWindow(raised)
      {
        var newPosition := MakeMove(pos, captureMoves[i]);
        var reply := QuiescenceSearch(newPosition, -beta, -raised, depth - 1, startTime, clock);
        if -reply >= beta {
          return beta;
        }
        raised := Max(raised, -reply);
      }
      return raised;
    }

    /** `negamax`: a search score; the table stays sound, storing no move for inner nodes. */
    method Negamax(pos: Position, depth: nat, alpha: int, beta: int, startTime: int, clock: nat -> int)
      returns (score: int)
      requires Valid() && InWindow(alpha) && InWindow(beta)
      modifies this, cache
      ensures Valid() && InWindow(score)
      ensures level == old(level) && lastEvaluation == old(lastEvaluation)
      ensures nodeCount > old(nodeCount)
      decreases depth, 3
    {
      nodeCount := nodeCount + 1;
      var exceeded := IsTimeExceeded(startTime, pos, clock(nodeCount));
      if exceeded {
        return 0;
      }
      ghost var scores;
      score, scores := NegamaxProbe(pos, depth, alpha, beta, startTime, clock);
    }

    /** The table lookup of `negamax`: an unexpired entry deep enough whose bound settles the
        window answers with its stored score; otherwise the node is searched, and a node with
        moves returns the best of `scores`, the negated replies searched (see `NegamaxExpand`). */
    method NegamaxProbe(pos: Position, depth: nat, alpha: int, beta: int, startTime: int, clock: nat -> int)
      returns (score: int, ghost scores: seq<int>)
      requires Valid() && InWindow(alpha) && InWindow(beta)
      modifies this, cache
      ensures Valid() && InWindow(score)
      ensures level == old(level) && lastEvaluation == old(lastEvaluation)
      ensures nodeCount >= old(nodeCount)
      ensures var hit := Probe(old(cache.table), old(cache.level), KeyOf(pos), depth, alpha, beta, clock(old(nodeCount)));
              && (hit.Some? ==> score == hit.value.value && Usable(hit.value, depth, alpha, beta))
              && (hit.None? && depth > 0 && LegalMoves(SearchEngine, pos) == [] ==> score == -INF)
              && (hit.None? && depth > 0 && LegalMoves(SearchEngine, pos) != [] ==>
                    scores != [] && MoveLoop(alpha, beta, scores, score, Max(alpha, score)))
      decreases depth, 2
    {
      var key := KeyOf(pos);
      ghost var before := cache.table;
      var cachedResult := cache.Lookup(key, depth, alpha, beta, clock(nodeCount));
      CacheSoundDelete(before, key);
      if cachedResult.Some? {
        return cachedResult.value.value, [];
      }
      score, scores := NegamaxExpand(pos, key, depth, alpha, beta, startTime, clock);
    }

    /** The rest of `negamax` once the table had no answer: quiescence at depth 0, a loss
        without moves, otherwise the move loop, whose score is stored under the position's key
        with no move. */
    method NegamaxExpand(pos: Position, key: string, depth: nat, alpha: int, beta: int,
                         startTime: int, clock: nat -> int)
      returns (score: int, ghost scores: seq<int>)
      requires Valid() && InWindow(alpha) && InWindow(beta) && key == KeyOf(pos)
      modifies this, cache
      ensures Valid() && InWindow(score)
      ensures level == old(level) && lastEvaluation == old(lastEvaluation)
      ensures nodeCount >= old(nodeCount)
      ensures depth == 0 && alpha <= beta ==> score <= beta
      ensures depth == 0 ==> score >= (if Evaluate(pos) <= beta then Evaluate(pos) else beta)
      ensures depth > 0 && LegalMoves(SearchEngine, pos) == [] ==> score == -INF
      ensures depth > 0 && LegalMoves(SearchEngine, pos) != [] ==>
                && |scores| <= |LegalMoves(SearchEngine, pos)| && scores != []
                && MoveLoop(alpha, beta, scores, score, Max(alpha, score))
                && (|scores| < |LegalMoves(SearchEngine, pos)| ==> Max(alpha, score) >= beta)
      decreases depth, 1
    {
      scores := [];
      if depth == 0 {
        score := QuiescenceSearch(pos, alpha, beta, QuiescenceDepth(level), startTime, clock);
        return;
      }
      var moves := GenerateMoves(pos);
      if |moves| == 0 {
        return -INF, [];
      }
      assert forall m | m in moves :: MoveInBoard(m) by {
        LegalMovesPlayable(SearchEngine, pos);
      }
      var bestScore, raised;
      bestScore, raised, scores := NegamaxMoves(pos, moves, depth, alpha, beta, startTime, clock);
      CacheSoundStore(cache.table, cache.maxSize, pos,
                      Entry(depth, bestScore, StoredBound(bestScore, alpha, beta), None, clock(nodeCount)));
      cache.Store(key, depth, bestScore, StoredBound(bestScore, alpha, beta), None, clock(nodeCount));
      score := bestScore;
    }

    /** The move loop of `negamax`: `scores` are the negated replies to the moves searched,
        in order; the best score is their maximum, alpha ends raised to it, and the loop stops
        before the last move only once alpha has reached beta, never earlier. */
    method NegamaxMoves(pos: Position, moves: seq<Move>, depth: nat, alpha: int, beta: int,
                        startTime: int, clock: nat -> int)
      returns (bestScore: int, raised: int, ghost scores: seq<int>)
      requires Valid() && depth > 0 && InWindow(alpha) && InWindow(beta)
      requires forall m | m in moves :: MoveInBoard(m)
      modifies this, cache
      ensures Valid() && InWindow(bestScore) && InWindow(raised)
      ensures level == old(level) && lastEvaluation == old(lastEvaluation)
      ensures nodeCount >= old(nodeCount)
      ensures |scores| <= |moves| && (moves != [] ==> scores != [])
      ensures MoveLoop(alpha, beta, scores, bestScore, raised)
      ensures |scores| < |moves| ==> raised >= beta
      decreases depth, 0
    {
      bestScore, raised := -INF, alpha;
      scores := [];
      for i := 0 to |moves|
        invariant Valid() && InWindow(bestScore) && InWindow(raised)
        invariant level == old(level) && lastEvaluation == old(lastEvaluation)
        invariant nodeCount >= old(nodeCount)
        invariant |scores| == i && MoveLoop(alpha, beta, scores, bestScore, raised)
        invariant i > 0 ==> raised < beta
      {
        var newPosition := MakeMove(pos, moves[i]);
        var reply := Negamax(newPosition, depth - 1, -beta, -raised, startTime, clock);
        MoveLoopSnoc(alpha, beta, scores, bestScore, raised, -reply);
        scores := scores + [-reply];
        bestScore := Max(bestScore, -reply);
        raised := Max(raised, -reply);
        if raised >= beta {
          break;
        }
      }
    }

    /** `iterativeSearch` at one depth: a timeout returns no move; otherwise the move is, when
        there is one, a legal move of the position, and the table stays sound. */
    method IterativeSearch(pos: Position, depth: nat, startTime: int, clock: nat -> int)
      returns (result: SearchResult)
      requires Valid() && depth >= 1
      modifies this, cache
      ensures Valid() && InWindow(result.score)
      ensures level == old(level) && lastEvaluation == old(lastEvaluation)
      ensures result.timeout ==> result == SearchResult(None, -INF, true)
      ensures result.move.Some? ==> result.move.value in LegalMoves(SearchEngine, pos)
    {
      var exceeded := IsTimeExceeded(startTime, pos, clock(nodeCount));
      if exceeded {
        return SearchResult(None, -INF, true);
      }
      ghost var scores, index;
      result, scores, index := RootProbe(pos, depth, startTime, clock);
    }

    /** The table lookup of `iterativeSearch` over the full window: a usable entry answers with
        its stored move and score, otherwise the root is searched. */
    method RootProbe(pos: Position, depth: nat, startTime: int, clock: nat -> int)
      returns (result: SearchResult, ghost scores: seq<int>, ghost index: int)
      requires Valid() && depth >= 1
      modifies this, cache
      ensures Valid() && InWindow(result.score) && !result.timeout
      ensures level == old(level) && lastEvaluation == old(lastEvaluation)
      ensures result.move.Some? ==> result.move.value in LegalMoves(SearchEngine, pos)
      ensures var hit := Probe(old(cache.table), old(cache.level), KeyOf(pos), depth, -INF, INF, clock(old(nodeCount)));
              && (hit.Some? ==> result == SearchResult(hit.value.bestMove, hit.value.value, false))
              && (hit.None? ==> RootLoop(LegalMoves(SearchEngine, pos), scores, result.move, result.score, index))
    {
      var key := KeyOf(pos);
      ghost var before := cache.table;
      var cachedResult := cache.Lookup(key, depth, -INF, INF, clock(nodeCount));
      CacheSoundDelete(before, key);
      if cachedResult.Some? {
        return SearchResult(cachedResult.value.bestMove, cachedResult.value.value, false), [], 0;
      }
      result, scores, index := RootExpand(pos, key, depth, startTime, clock);
    }

    /** The rest of `iterativeSearch` once the table had no answer: the move loop over the legal
        moves, whose best move and score are stored under the position's key. */
    method RootExpand(pos: Position, key: string, depth: nat, startTime: int, clock: nat -> int)
      returns (result: SearchResult, ghost scores: seq<int>, ghost index: int)
      requires Valid() && depth >= 1 && key == KeyOf(pos)
      modifies this, cache
      ensures Valid() && InWindow(result.score) && !result.timeout
      ensures level == old(level) && lastEvaluation == old(lastEvaluation)
      ensures result.move.Some? ==> result.move.value in LegalMoves(SearchEngine, pos)
      ensures |scores| <= |LegalMoves(SearchEngine, pos)|
      ensures LegalMoves(SearchEngine, pos) != [] ==> scores != []
      ensures RootLoop(LegalMoves(SearchEngine, pos), scores, result.move, result.score, index)
      ensures |scores| < |LegalMoves(SearchEngine, pos)| ==> result.score == INF
    {
      var moves := GenerateMoves(pos);
      LegalMovesPlayable(SearchEngine, pos);
      var bestMove, bestScore;
      bestMove, bestScore, scores, index := RootMoves(pos, moves, depth, startTime, clock);
      CacheSoundStore(cache.table, cache.maxSize, pos,
                      Entry(depth, bestScore, StoredBound(bestScore, -INF, INF), bestMove, clock(nodeCount)));
      cache.Store(key, depth, bestScore, StoredBound(bestScore, -INF, INF), bestMove, clock(nodeCount));
      result := SearchResult(bestMove, bestScore, false);
    }

    /** The move loop of `iterativeSearch` over the full window: `scores` are the negated
        replies to the moves searched, in order; the best score is their maximum, the move kept
        is the first to reach it, and there is none exactly when every score is minus infinity
        (see `BestScoreIsMax`); the loop stops early only on a score of infinity. */
    method RootMoves(pos: Position, moves: seq<Move>, depth: nat, startTime: int, clock: nat -> int)
      returns (bestMove: Option<Move>, bestScore: int, ghost scores: seq<int>, ghost index: int)
      requires Valid() && depth >= 1
      requires forall m | m in moves :: MoveInBoard(m)
      modifies this, cache
      ensures Valid() && InWindow(bestScore)
      ensures level == old(level) && lastEvaluation == old(lastEvaluation)
      ensures |scores| <= |moves| && (moves != [] ==> scores != [])
      ensures RootLoop(moves, scores, bestMove, bestScore, index)
      ensures |scores| < |moves| ==> bestScore == INF
    {
      var alpha, beta := -INF, INF;
      bestMove := None;
      bestScore := -INF;
      scores, index := [], 0;
      for i := 0 to |moves|
        invariant Valid() && InWindow(bestScore) && alpha == bestScore
        invariant level == old(level) && lastEvaluation == old(lastEvaluation)
        invariant |scores| == i && RootLoop(moves, scores, bestMove, bestScore, index)
        invariant i > 0 ==> alpha < beta
      {
        var newPosition := MakeMove(pos, moves[i]);
        var reply := Negamax(newPosition, depth - 1, -beta, -alpha, startTime, clock);
        RootLoopSnoc(moves, scores, bestMove, bestScore, index, -reply);
        if -reply > bestScore {
          bestScore := -reply;
          bestMove := Some(moves[i]);
          index := i;
        }
        scores := scores + [-reply];
        alpha := Max(alpha, -reply);
        if alpha >= beta {
          break;
        }
      }
    }

    /** `getMove`: iterative deepening from depth 1 up to the level's maximum, stopping at a
        timeout (keeping the previous depth's move) or once the budget says not to go deeper;
        the move returned, if any, is legal, and the evaluation records the level's maximum
        depth and the nodes searched. */
    method GetMove(pos: Position, clock: nat -> int) returns (bestMove: Option<Move>)
      requires Valid()
      modifies this, cache
      ensures Valid() && level == old(level)
      ensures bestMove.Some? ==> bestMove.value in LegalMoves(SearchEngine, pos)
      ensures lastEvaluation.Some? && InWindow(lastEvaluation.value.score)
      ensures lastEvaluation.value.depth == MaxDepth(level) && lastEvaluation.value.nodes == nodeCount
    {
      nodeCount := 0;
      var startTime := clock(nodeCount);
      bestMove := None;
      var bestScore := -INF;
      var maxDepth := MaxDepth(level);
      var depth := 1;
      while depth <= maxDepth
        invariant 1 <= depth <= maxDepth + 1
        invariant Valid() && InWindow(bestScore)
        invariant level == old(level)
        invariant bestMove.Some? ==> bestMove.value in LegalMoves(SearchEngine, pos)
        decreases maxDepth + 1 - depth
      {
        var result := IterativeSearch(pos, depth, startTime, clock);
        if result.timeout {
          break;
        }
        bestMove := result.move;
        bestScore := result.score;
        var continues := ShouldContinueSearch(startTime, pos, clock(nodeCount));
        if !continues {
          break;
        }
        depth := depth + 1;
      }
      lastEvaluation := Some(LastEvaluation(bestScore, maxDepth, nodeCount, clock(nodeCount) - startTime));
    }
  }
}
