# Draughts engine core, modelled in Dafny

This project models the engine of a 10×10 international draughts game. The engine has three parts:

- `game.js`: the game object. It holds the board, the side to move, the game state, the move history and the captured pieces. It generates the legal moves (captures are mandatory, and only the longest are kept), plays a move with captures and promotion, decides win, loss and draw, and reads and writes FEN text.
- `ai.js`: the computer player. It has a transposition table with size-bounded eviction and age-based expiry. Its search is a negamax with alpha-beta pruning and a quiescence search over captures. It has its own move generator and its own `makeMove`, a material-and-position evaluation, a time budget scaled by how complex the position is, and a difficulty level from 1 to 6.
- `constants.js`: the board size, piece codes, piece and position values, the move directions, the square numbering (1..50 on the dark cells), the per-level search parameters, and the starting FEN.

The model is organised like this:

- Values are datatypes: a grid is a sequence of rows, a position is a grid plus the side to move, and a move is a start cell, an end cell and the captured cells.
- The two objects that the source updates in place are classes: `GameLogic.Game` and `Cache.TranspositionTable`. The `Search.AI` class holds the level, the node counter, the last evaluation and a table.
- Every loop in the source is a `method` with loop invariants. Each method is proved against a function of its inputs: `LegalMoves`, `CaptureMoves`, `Evaluate`, `Material`, `StoreInto`, `Probe`, `Cleaned`, `LoadFen` and `GetFenAsWritten`.
- Lemmas then prove what the source promises about those functions:
  - mandatory and maximum capture, in both directions;
  - capture chains that are well formed;
  - the effect of a move, cell by cell;
  - the evaluation's sign symmetry;
  - the table's eviction and expiry;
  - the FEN round trip;
  - the starting FEN.

The two move generators differ in small ways, and the model keeps both (`Rules.Engine`):

- `game.js` requires the landing cell of a jump to be dark.
- `game.js` continues a capture chain on the grid with only the jumped pieces removed. The moving piece stays on its start cell, so the landing cell reads as empty.
- `ai.js` continues a capture chain on the grid its own `makeMove` produced.

`isDarkSquare` is imported by `game.js` but defined nowhere in the source. The comments at game.js:45 and game.js:58 say dark is `row + col` even, but the model takes dark to mean `row + col` odd. This is the parity on which `SQUARE_NUMBERS` places 1..50, and `GameLogic.StartFen` proves that with it the starting board writes exactly `FEN.START_POSITION`.

The evaluation adds the centre, edge, back-row and promotion terms with the same sign for both colours. `Evaluation.PositionalTermsFavourWhite` states what this means: the mirror image of a black piece is not scored as the negation of the white one.

## Model

| member | source | states |
|---|---|---|
| Constants.PlayerCode | game-app/src/engine/constants.js:13-16 | White is code 0 and Black is code 1, each exactly |
| Constants.PieceCode | game-app/src/engine/constants.js:19-25 | piece codes lie in 0..4 and 0 is exactly the empty cell |
| Constants.PieceOfCode | game-app/src/engine/constants.js:19-25 | a code names a piece exactly when it is in 0..4, and then encodes back to itself |
| Constants.PieceCodesDistinct | game-app/src/engine/constants.js:19-25 | distinct pieces have distinct codes, and decoding a code gives the piece back |
| Constants.PieceValue | game-app/src/engine/constants.js:142-147 | white men and kings are worth +100 and +300, black ones the negatives |
| Constants.DirectionsShape | game-app/src/engine/constants.js:158-173 | every direction is a diagonal unit step, white men move up, black men move down, and the king moves are the four distinct diagonals |
| Constants.SquareNumberAt | game-app/src/engine/constants.js:176-187 | a cell is numbered exactly when row + col is odd, and row r carries numbers 5r+1..5r+5 |
| Constants.SquareNumbersFormula | game-app/src/engine/constants.js:176-187 | the literal table agrees with the closed form at all 100 cells |
| Constants.SquareNumbersInOrder | game-app/src/engine/constants.js:176-187 | each of 1..50 appears once, on the odd-parity cells, increasing in row-major order, and 0 marks every other cell |
| Constants.IndexOfNumber | game-app/src/engine/constants.js:176-187 | every number 1..50 has a dark cell that carries it |
| Constants.MaxDepth | game-app/src/engine/constants.js:66-73 | level l searches to depth 2l |
| Constants.BoundCode | game-app/src/engine/constants.js:85-89 | EXACT is 0, LOWER_BOUND 1, UPPER_BOUND 2 |
| Constants.DepthSchedule | game-app/src/engine/constants.js:66-81 | MAX_DEPTH strictly increases with the level from 2 to 12, and QUIESCENCE_DEPTH starts at 0 and never decreases |
| Constants.TimeAndBookSchedule | game-app/src/engine/constants.js:91-137 | retention time is 0 at levels 1 and 2 and never decreases; time allocation and book length strictly increase; book randomization strictly decreases; the complexity multiplier never decreases |
| Board.DirectionsFor | game-app/src/engine/ai.js:526-528 | kings get four diagonal directions; men get two, forward for their side |
| Board.Promoted | game-app/src/engine/game.js:140-143 | a promoted white man becomes a white king, and anything else becomes a black king |
| Board.PromotionShape | game-app/src/engine/ai.js:721-724 | only a man promotes, it becomes a king, and it keeps its colour |
| Board.OwnershipShape | game-app/src/engine/ai.js:682-702 | own and opponent pieces are disjoint, the empty cell is neither, and every other piece is exactly one of them |
| Board.MoveGridCells | game-app/src/engine/ai.js:610-632 | after a move, every cell holds the promoted or moved piece, or is cleared, or is unchanged, as the source's order of writes decides |
| Board.ApplyMove | game-app/src/engine/ai.js:610-632 | a move hands the turn to the other side and changes the grid by MoveGrid |
| Board.ApplyMoveEffect | game-app/src/engine/ai.js:610-632 | the mover lands on the target (promoted on the far row), the start and every captured cell become empty, and every other cell is unchanged; kings stay kings and the mover keeps its colour |
| Text.NatToString | game-app/src/engine/game.js:464-467 | a number is written as a non-empty run of decimal digits with no leading zero |
| Text.DigitsValueOfNat | game-app/src/engine/game.js:494 | reading the digits of a written number gives the number back |
| Text.ParseIntOfNat | game-app/src/engine/game.js:494 | JavaScript `parseInt` reads a written natural number back exactly |
| Text.ParseIntSkipsSpace | game-app/src/engine/game.js:494 | `parseInt` ignores a leading white-space character on any input |
| Text.ParseIntExamples | game-app/src/engine/game.js:494 | illustrations on single inputs: sign, hexadecimal prefix, trailing junk, and the empty and non-numeric cases |
| Text.Split | game-app/src/engine/game.js:486 | `split` returns at least one part, and no part contains the separator |
| Text.SplitJoin | game-app/src/engine/game.js:472-491 | splitting a join of separator-free parts gives the parts back |
| Text.JoinSplit | game-app/src/engine/game.js:486 | joining the parts of a split gives the text back |
| Fen.NumberOf | game-app/src/engine/game.js:461 | a cell has a non-zero square number exactly when it is dark |
| Fen.PositionFromNumber | game-app/src/engine/game.js:561-570 | the cell found is the first cell in row-major order that carries the number; there is none (the source throws) when no cell carries it |
| Fen.PositionFromNumberSpec | game-app/src/engine/game.js:561-570 | every number 1..50 gives its unique dark cell, and the lookup fails exactly for numbers outside 0..50 |
| Fen.MoveNotationReadsBack | game-app/src/engine/game.js:577-583 | the notation splits on `x` (captures) or `-` (steps) into two numbers, which give back the start and end cells |
| Fen.TokenPiece | game-app/src/engine/game.js:493-497 | a token's colour and its `K` suffix decide the piece placed |
| Fen.TokenReadsBack | game-app/src/engine/game.js:492-498 | reading a piece's token places exactly that piece on its cell |
| Fen.SectionReadsBack | game-app/src/engine/game.js:490-500 | loading one colour's section restores exactly that colour's pieces on the dark cells and leaves the other cells alone |
| Fen.FenRoundTrip | game-app/src/engine/game.js:452-521 | loading the FEN of a grid with no pieces on light cells gives back the same grid and the same side to move, without failure |
| Fen.FenAsWrittenMislabels | game-app/src/engine/game.js:452-473 | with Black to move, the FEN as written tags the white section `B`, although it still loads back to the same position; the corrected writer tags it `W` |
| Cache.CellsKey | game-app/src/engine/ai.js:30-42 | the key has one digit per cell, the cell's piece code |
| Cache.KeyOfInjective | game-app/src/engine/ai.js:30-42 | two positions with the same key are the same position (grid and side to move) |
| Cache.Without | game-app/src/engine/ai.js:45-49 | removing a key keeps exactly the other keys, keeps them distinct, and shortens a distinct list by one |
| Cache.StoreSpec | game-app/src/engine/ai.js:44-58 | after a store, the key maps to the new entry; a full table first evicts its oldest key, even when the stored key is already present; no other entry changes; the size bound is kept |
| Cache.Probe | game-app/src/engine/ai.js:68-97 | a lookup hits exactly when the key is present, not expired and usable for this depth and window, and then returns the stored entry |
| Cache.ProbeHits | game-app/src/engine/ai.js:83-94 | every returned entry counts as a hit, and an exact entry deep enough is always returned |
| Cache.CleanedSpec | game-app/src/engine/ai.js:102-109 | cleanup removes exactly the expired entries, keeps the others unchanged, and keeps the table well formed |
| Cache.CleanedIdempotent | game-app/src/engine/ai.js:102-109 | a second cleanup at the same time changes nothing |
| Cache.WalkedCleans | game-app/src/engine/ai.js:102-109 | the key-by-key walk of the source ends in the cleaned table |
| Cache.TranspositionTable.constructor | game-app/src/engine/ai.js:18-28 | a new table is empty, with zero hits and misses and no level |
| Cache.TranspositionTable.Store | game-app/src/engine/ai.js:44-58 | the table becomes StoreInto of the old one with a timestamped entry; the counters are unchanged |
| Cache.TranspositionTable.Lookup | game-app/src/engine/ai.js:68-97 | returns Probe; a missing key counts a miss; an expired key is deleted; a present key counts a hit when deep enough |
| Cache.TranspositionTable.Cleanup | game-app/src/engine/ai.js:102-109 | the table becomes the cleaned table; the counters are unchanged |
| Evaluation.CellScoreSpec | game-app/src/engine/ai.js:349-364 | an empty cell scores 0; a piece scores its value plus positional terms between -5 and +15; white cells score positive and black cells negative |
| Evaluation.EvaluateSpec | game-app/src/engine/ai.js:342-369 | the score for one side is the negation of the score for the other; the empty board scores 0; every score is bounded |
| Evaluation.PositionalTermsFavourWhite | game-app/src/engine/ai.js:353-363 | the mirrored opposite-colour piece scores minus the piece's value plus the same positional terms, so it is the exact negation only when those terms sum to 0 |
| Evaluation.MaterialSpec | game-app/src/engine/ai.js:639-649 | the material count is at most 100, 0 on the empty board, and at least the opponent's piece count |
| Evaluation.CountCapturing | game-app/src/engine/ai.js:393 | the number of capturing moves is at most the number of moves, and 0 exactly when none captures |
| Evaluation.ComplexityFromCounts | game-app/src/engine/ai.js:396-407 | complexity lies in 1.0..1.5, is 1.0 exactly when no threshold is crossed, and is at least 1.3 with fewer than 10 pieces |
| Evaluation.ComplexityTenths | game-app/src/engine/ai.js:391-408 | a position's complexity lies in 1.0..1.5 |
| Evaluation.BudgetSpec | game-app/src/engine/ai.js:657-664 | the search continues exactly when time is not exceeded, the budget grows with level and complexity, and a larger budget is exceeded only if a smaller one is |
| Rules.TreeNonEmpty | game-app/src/engine/ai.js:554-602 | the capture search from a cell yields moves exactly when a jump is available there or captures were already made |
| Rules.TreeChains | game-app/src/engine/ai.js:554-602 | every capture move found is a well-formed chain of jumps from its origin, extending the captures made so far |
| Rules.CellCaptures | game-app/src/engine/ai.js:498-501 | the captures found from a cell start there, with the side's own piece, and are well-formed chains |
| Rules.KeepLongestSpec | game-app/src/engine/ai.js:505-512 | the kept captures are exactly those of maximal length, none is longer, and some are kept exactly when there are captures |
| Rules.KeepLongestCaptures | game-app/src/engine/ai.js:505-512 | the loop keeps exactly KeepLongest of the captures found |
| Rules.CellSteps | game-app/src/engine/ai.js:524-543 | the steps found from a cell are exactly the legal non-capturing steps from it |
| Rules.NormalMovesSpec | game-app/src/engine/game.js:227-240 | the normal moves are exactly the legal non-capturing steps of the side to move |
| Rules.LegalMovesSpec | game-app/src/engine/ai.js:466-486 | when a capture exists, the legal moves are exactly the longest captures (never empty); otherwise they are exactly the steps |
| Rules.LegalMovesPlayable | game-app/src/engine/ai.js:466-486 | every legal move stays on the board, moves somewhere, and does not land on a captured cell |
| Rules.CaptureMovesPlayable | game-app/src/engine/ai.js:493-515 | every capture move stays on the board, moves somewhere, and does not land on a captured cell |
| Rules.GameMovesTargets | game-app/src/engine/game.js:246-252 | every legal move of the game object moves an own piece to a target cell that its rules allow |
| GameLogic.StartCounts | game-app/src/engine/game.js:47-76 | the starting board has 20 men of each colour and no kings |
| GameLogic.StartRows | game-app/src/engine/game.js:47-76 | black men start in rows 0-3, white men in rows 6-9, and rows 4-5 are empty |
| GameLogic.StartMaterial | game-app/src/engine/game.js:47-76 | the starting board holds 40 pieces |
| GameLogic.MaterialDrawFewPieces | game-app/src/engine/game.js:420-446 | a material draw has 2 or 3 pieces with at least one king of each colour, and the starting board is not one |
| GameLogic.Outcome | game-app/src/engine/game.js:370-389 | the side to move loses exactly when it has no legal move; otherwise the game is a draw exactly when there are at least 6 recorded moves or a material draw |
| GameLogic.LegalMovePlayed | game-app/src/engine/game.js:127-143 | playing a legal move moves the piece (promoted on the far row), empties the start and the captured cells, and leaves every other cell alone |
| GameLogic.LegalMoveTaken | game-app/src/engine/game.js:131-137 | the pieces recorded as captured are the opponent's pieces on the captured cells, in order |
| GameLogic.StartFen | game-app/src/engine/constants.js:207 | the FEN of the starting board with White to move is exactly `FEN.START_POSITION`, both as written and corrected |
| GameLogic.Game.constructor | game-app/src/engine/game.js:21-23 | a new game is the starting position, White to move, ongoing, with no history and no captures |
| GameLogic.Game.Reset | game-app/src/engine/game.js:28-40 | reset restores the starting position, White to move, ongoing, with empty history and captures, in normal mode |
| GameLogic.Game.SetupInitialPosition | game-app/src/engine/game.js:47-76 | the board becomes the starting board |
| GameLogic.Game.GetPiece | game-app/src/engine/game.js:84-90 | returns the cell's piece on the board and the empty piece off it |
| GameLogic.Game.SetPiece | game-app/src/engine/game.js:97-101 | writes the cell on the board and changes nothing off it |
| GameLogic.Game.FindNormalMoves | game-app/src/engine/game.js:260-282 | appends exactly the open steps in the piece's directions |
| GameLogic.Game.IsValidCapture | game-app/src/engine/game.js:349-365 | accepts exactly the jumps over an opponent piece to an empty, dark, unvisited landing cell |
| GameLogic.Game.FindCaptureMoves | game-app/src/engine/game.js:292-336 | appends exactly the capture tree from the cell and leaves the game unchanged |
| GameLogic.Game.TryCapture | game-app/src/engine/game.js:301-326 | reports whether a jump in the direction is possible and appends exactly the captures through it |
| GameLogic.Game.GetAvailableCaptures | game-app/src/engine/game.js:200-221 | returns exactly the longest captures of the side to move |
| GameLogic.Game.GetNormalMoves | game-app/src/engine/game.js:227-240 | returns exactly the normal moves of the side to move |
| GameLogic.Game.GetLegalMoves | game-app/src/engine/game.js:246-252 | returns exactly the legal moves (mandatory, longest captures first) and changes nothing |
| GameLogic.Game.IsValidMove | game-app/src/engine/game.js:163-194 | a move is valid exactly when its ends match a legal move's ends, and then both ends are on the board |
| GameLogic.Game.MakeMove | game-app/src/engine/game.js:108-156 | an invalid move is refused and changes nothing; a valid one records the move, plays it, collects the captured pieces, passes the turn in normal mode and updates the game state |
| GameLogic.Game.UpdateGameState | game-app/src/engine/game.js:370-389 | in normal mode the state becomes the outcome of the position; in edit mode it is unchanged |
| GameLogic.Game.IsDrawByRepetition | game-app/src/engine/game.js:395-414 | reports a draw exactly when the history holds at least 6 moves |
| GameLogic.Game.IsDrawByMaterial | game-app/src/engine/game.js:420-446 | reports a draw exactly when no men remain and the kings are one against one, two against one or one against two |
| GameLogic.Game.GetFEN | game-app/src/engine/game.js:452-473 | returns the FEN exactly as the source writes it |
| GameLogic.Game.GetPositionFromNumber | game-app/src/engine/game.js:561-570 | returns the cell carrying the number, or nothing where the source throws |
| GameLogic.Game.LoadFEN | game-app/src/engine/game.js:480-521 | the board, side and success flag are those of LoadFen; a failed load keeps the partly filled board; history, captures and mode are unchanged |
| GameLogic.Game.PlaceSectionPieces | game-app/src/engine/game.js:490-500 | placing one section's tokens gives the board and flag of PlaceSection |
| GameLogic.Game.Clone | game-app/src/engine/game.js:600-612 | returns a fresh game whose fields equal this one's |
| Search.Clamp | game-app/src/engine/ai.js:138-141 | a level in 1..6 is kept, and others are clamped to the nearest end |
| Search.CacheSoundStore | game-app/src/engine/ai.js:292-296 | storing a score within the infinities and a move legal in the stored position keeps every table entry sound |
| Search.CacheSoundDelete | game-app/src/engine/ai.js:78-80 | deleting an expired entry keeps the table sound |
| Search.BestScoreIsMax | game-app/src/engine/ai.js:280-285 | the best score is the maximum of the scores seen, attained by one of them unless it is minus infinity |
| Search.NoEarlierCutoffPrefixes | game-app/src/engine/ai.js:286-288 | in a move loop without an early cut-off, alpha raised by each prefix of the scores is still below beta |
| Search.MoveLoopSnoc | game-app/src/engine/ai.js:281-289 | one more score keeps the best score the maximum and alpha raised to it |
| Search.FirstBestSnoc | game-app/src/engine/ai.js:219-226 | replacing the kept move only on a strictly better score keeps it the first move to reach the best score |
| Search.RootLoopSnoc | game-app/src/engine/ai.js:218-229 | one more root move keeps the best move the first best one |
| Search.StoredBound | game-app/src/engine/ai.js:292-296 | the bound stored is upper exactly when the score is at most alpha at entry, lower exactly when it reaches beta, and exact exactly when it is strictly inside the window |
| Search.StoredBoundAsWrittenAlwaysUpper | game-app/src/engine/ai.js:292-296 | the classification as written, against alpha after the loop, is always UPPER_BOUND, even for a score strictly inside the window, which is exact |
| Search.AI.constructor | game-app/src/engine/ai.js:125-136 | a new AI is at level 1, with no nodes counted, no evaluation and an empty table of the configured size |
| Search.AI.SetDifficulty | game-app/src/engine/ai.js:138-141 | the level becomes the clamped request and the table learns it; nothing else changes |
| Search.AI.AddNormalMovesForPiece | game-app/src/engine/ai.js:524-543 | appends exactly the open steps in the piece's directions |
| Search.AI.AddCaptureMovesForPiece | game-app/src/engine/ai.js:554-602 | appends exactly the capture tree from the cell |
| Search.AI.AddJumpCaptures | game-app/src/engine/ai.js:562-592 | reports whether a jump in the direction is possible and appends exactly the captures through it |
| Search.AI.GenerateCaptureMoves | game-app/src/engine/ai.js:493-515 | returns exactly the longest captures of the side to move |
| Search.AI.AddRowCaptures | game-app/src/engine/ai.js:497-502 | one more row of the scan appends exactly that row's captures |
| Search.AI.GenerateNormalMoves | game-app/src/engine/ai.js:476-483 | returns exactly the normal moves of the side to move |
| Search.AI.GenerateMoves | game-app/src/engine/ai.js:466-486 | returns exactly the legal moves |
| Search.AI.EvaluatePosition | game-app/src/engine/ai.js:342-369 | returns Evaluate of the position |
| Search.AI.AddCellScore | game-app/src/engine/ai.js:349-364 | adds exactly the cell's score |
| Search.AI.CountMaterial | game-app/src/engine/ai.js:639-649 | returns the number of occupied cells |
| Search.AI.AssessPositionComplexity | game-app/src/engine/ai.js:391-408 | returns the position's complexity in tenths |
| Search.AI.IsTimeExceeded | game-app/src/engine/ai.js:657-664 | reports exactly whether the elapsed time reaches the level's budget scaled by the complexity |
| Search.AI.ShouldContinueSearch | game-app/src/engine/ai.js:377-383 | reports exactly whether the elapsed time is below the scaled budget |
| Search.AI.MakeMove | game-app/src/engine/ai.js:610-632 | returns ApplyMove of the position |
| Search.AI.QuiescenceSearch | game-app/src/engine/ai.js:311-335 | the score never exceeds beta (fail-hard), is at least the static evaluation capped at beta, stays within the infinities, and counts a node |
| Search.AI.QuiesceDeeper | game-app/src/engine/ai.js:320-334 | after stand-pat, the score never exceeds beta and is at least the stand-pat score capped at beta |
| Search.AI.QuiesceCaptures | game-app/src/engine/ai.js:327-334 | the capture loop never exceeds beta and never returns less than alpha |
| Search.AI.Negamax | game-app/src/engine/ai.js:252-300 | the score stays within the infinities, a node is counted, and the table stays sound |
| Search.AI.NegamaxProbe | game-app/src/engine/ai.js:260-299 | a table hit (an unexpired entry at least as deep whose bound is EXACT, LOWER at or above beta, or UPPER at or below alpha) returns the stored score; on a miss at depth above 0, a position with no legal move scores minus infinity and any other scores the best of the replies searched, as `NegamaxExpand` states; the score stays within the infinities and the table stays sound |
| Search.AI.NegamaxExpand | game-app/src/engine/ai.js:267-299 | at depth 0 the quiescence score is at most beta and at least the static evaluation capped at beta; with no legal move the score is minus infinity, a loss (ai.js:276-277); otherwise it is the maximum of the negated replies searched, alpha ends raised to it, and the loop stopped before the last legal move only when alpha reached beta; the score stays within the infinities and the table stays sound |
| Search.AI.NegamaxMoves | game-app/src/engine/ai.js:280-289 | the best score is the maximum of the negated replies searched, alpha ends raised to it, and the loop stops before the last move only when alpha reached beta |
| Search.AI.IterativeSearch | game-app/src/engine/ai.js:190-241 | a timeout returns no move and minus infinity; otherwise any move returned is legal |
| Search.AI.RootProbe | game-app/src/engine/ai.js:206-240 | a table hit over the full window returns the stored move and score without timeout; on a miss the result is the root loop over the legal moves, as `RootExpand` states; any move returned is legal |
| Search.AI.RootExpand | game-app/src/engine/ai.js:217-240 | over the legal moves: the score is the maximum of the negated replies searched, the move is the first to reach it and is absent exactly when that maximum is minus infinity (so also when there is no legal move), and the loop stopped early only on a reply of infinity; there is no timeout |
| Search.AI.RootMoves | game-app/src/engine/ai.js:219-230 | the best score is the maximum of the negated replies; the kept move is the first to reach it; there is none exactly when that maximum is minus infinity; the loop stops early only on a reply of infinity |
| Search.AI.GetMove | game-app/src/engine/ai.js:148-181 | any move returned is legal, and the last evaluation records a score within the infinities, the level's maximum depth and the node count |

## Left out

- `Date.now()` is a parameter `clock: nat -> int`, read at the current node count. Two readings at the same node count are therefore equal.
- The `setTimeout` yield in `iterativeSearch` (ai.js:202-204) is left out. It only lets the user interface run.
- `Infinity` is the integer `INF` = 10^9. All scores stay far below it.
- Fractional values are kept as integers: the complexity and its multiplier in tenths, the book randomization in hundredths. Comparisons on them are exact.
- The opening book (ai.js:153-155, 413-450) is left out. Its map is never filled, so its branch is never taken.
- `getStats`, `getLastEvaluation` and `console.log` / `console.error` are left out. They only report.
- The predicate helpers (`isValidSquare`, `isPieceOfCurrentPlayer`, `isOpponentPiece`, `isSquareVisited`, `isValidPosition`) are inlined into `Board` and `Rules`.
- Search.AI.AddCaptureMovesForPiece: each capture recursion keeps the mover's side fixed. The source calls `makeMove` (ai.js:576-580), which also flips `currentPlayer` (ai.js:613), so a later jump in the source tests ownership against the other side.
- Search.AI.NegamaxExpand: stores the bound as `StoredBound` against alpha at entry. The source compares against the raised alpha, which always gives UPPER_BOUND (ai.js:292-296, and ai.js:233-237 at the root). That reading is `StoredBoundAsWritten`; see Findings.
- Search.AI.RootProbe: with the corrected bounds, an inner node whose score falls strictly inside its window is stored EXACT with no move (ai.js:296). A later root lookup of the same position, needing no more depth than the entry has, hits that entry and returns no move even when legal moves exist. As written, every stored bound is UPPER_BOUND, so this cannot happen: a root lookup over the full window uses an UPPER_BOUND entry only when its score is minus infinity, where the root loop keeps no move either.
- Search.AI.RootMoves: raises alpha after each move as the loop intends. `iterativeSearch` declares `alpha` as a `const` (ai.js:191) and assigns it at ai.js:227, which throws a TypeError at the first move.
- Search.AI.Negamax: the score is not tied to a reference minimax value. The transposition table, the clock and the quiescence depth make it depend on state outside the position. What is stated is the window bound, table soundness, the table-hit, loss and best-reply contracts on `NegamaxProbe` and `NegamaxExpand`, and the loop contract on `NegamaxMoves`. The 0 returned on a timeout (ai.js:256-257) is not part of the `Negamax` contract; the clock test itself is stated on `IsTimeExceeded`.
- Search.AI.IterativeSearch: the score is not tied to a reference minimax value, for the same reason. The move and score contract is on `RootMoves`.
- `addNormalMovesForPiece` uses `DIRECTIONS` (ai.js:526), which ai.js never imports. The model reads it as the `DIRECTIONS` of constants.js.
- The stray `}` at ai.js:726 is read as the end of the class.
- `isDarkSquare` is not defined anywhere in the source (imported at game.js:17). The comments at game.js:45 and game.js:58 describe dark squares as `row + col` even. The model takes `row + col` odd instead, because `SQUARE_NUMBERS` numbers only the odd cells and `FEN.START_POSITION` names only them: with odd parity the starting board writes exactly `FEN.START_POSITION` (`GameLogic.StartFen`), and with even parity no piece would carry a square number.
- The token sort in `getFEN` (game.js:472) is the identity in the model. Tokens are produced in ascending number order, and the comparator on `K` tokens gives NaN, which never reorders.
- `clone` (game.js:606) copies the move records shallowly. The model copies values, so sharing between the two histories is not modelled.
- GameLogic.Game.FindCaptureMoves: follows the code as written. A chain continues from the landing cell of the original board, which is empty, so a king continues with a man's two forward directions (game.js:293-299). No corrected version is modelled.
- GameLogic.Game.IsDrawByRepetition: follows the code as written. It compares the current FEN with itself, so any game with 6 or more recorded moves is a draw (game.js:395-414). No corrected version is modelled.
- The search methods are split into helpers (`NegamaxProbe`, `NegamaxExpand`, `NegamaxMoves`, `RootProbe`, `RootExpand`, `RootMoves`, `QuiesceDeeper`, `QuiesceCaptures`, `AddJumpCaptures`, `AddRowCaptures`, `AddCellScore`). `Game.MakeMove` is split into `PlayMove`, `PlayOnBoard`, `TakeCaptures` and `EndTurn`. Each helper is one loop or one branch of the source function.

## Findings

| source | as written | input that shows it | evidently intended | confidence | as-written member | corrected member |
|---|---|---|---|---|---|---|
| game-app/src/engine/game.js:453 | with Black to move, `getFEN` starts with `B:B`, so the white pieces' section is tagged `B` | the starting board with Black to move gives `B:B31,…,50:B1,…,20` | `B:W31,…,50:B1,…,20`: the side, then a `W` section and a `B` section, which loads back to the same position | not executed | Fen.FenAsWrittenMislabels | Fen.FenRoundTrip |
| game-app/src/engine/ai.js:292-296 | the bound type is decided against `alpha` after the loop has raised it to at least `bestScore`, so `bestScore <= alpha` always holds and every entry is stored as UPPER_BOUND | a node searched with alpha = 0 and beta = 100 whose best reply scores 50 is stored as an upper bound | EXACT for a score strictly inside the window at entry, LOWER_BOUND at or above beta, UPPER_BOUND at or below alpha | not executed | Search.StoredBoundAsWrittenAlwaysUpper | Search.StoredBound |
