# Sweet Candy Match: a verified model of the board logic and the session

This project models the core of a match-3 game on a fixed 8 x 8 board:

- the pure board operations of `utils/gameLogic.ts`: board creation without initial matches, match detection, swap validation and adjacency;
- the transforms and the session state machine of the `App` component (`App.tsx`): gravity, refill, the cascade loop, the click handler, the swap, the end-of-level check, and level start, retry and advance.

Module layout:

- `Types` (types.dfy) holds the colour enumeration with its `Empty` marker, positions, game states and the level table.
- `Grid` (grid.dfy) holds cell access on a board value: columns, single-cell writes and the two-cell exchange.
- `GameLogic` (game_logic.dfy) models `utils/gameLogic.ts`.
- `Transforms` (transforms.dfy) holds gravity, refill, clearing and the cascade specification.
- `Session` (session.dfy) holds the cascade loop, the end check and the class `Game`, whose fields are the component's state: `levelIndex`, `board`, `score`, `movesLeft`, `gameState`, `selectedPos`.

Boards are values of type `seq<seq<Color>>`. A method that updates a board in place writes single cells with `SetCell` and reassigns its board variable.

Randomness is modelled in two ways:

- Board creation draws each colour nondeterministically from the palette. A redraw skips colours already rejected for that cell. The set of possible results is the same as the source's, and the loop is guaranteed to end.
- The cascade's refills come from `refills`, a sequence of draw grids with one grid per cascade round. Each grid has one palette colour per cell.

Each loop is proved as a method against a specification function:

- `FindMatches` against `MatchSet`.
- `ApplyGravity` against `Settle`.
- `RunCascade` against `Cascade`.

The properties of the specifications are proved as lemmas:

- match detection is sound and complete for maximal runs;
- gravity keeps each column's candies in order, settles them and is idempotent;
- refill is total;
- a round's score is exactly that of the source;
- a settled cascade leaves no match.

The class invariant `Game.Valid` is preserved by every user action. It says:

- the board is full;
- outside a cascade the board has no match;
- Idle means the level is still being played;
- GameOver and LevelComplete are each justified by the score and the moves left.

## Model

| member | source | states |
|---|---|---|
| Types.LevelsWellFormed | constants.ts:25-50 | every level's palette avoids `Empty` and has three distinct colours; its target and move budget are positive; levels are numbered from 1 in table order |
| Grid.Swap | App.tsx:66-69 | the two cells are exchanged and every other cell is unchanged |
| Grid.SwapInvolution | App.tsx:89-93 | swapping the same two cells again restores the original board, which is what the swap-back relies on |
| Grid.SwapSymmetric | utils/gameLogic.ts:100-102 | the exchange does not depend on the order of the two positions |
| Grid.SwapKeepsNoEmpty | App.tsx:66-69 | a swap on a full board leaves it full |
| GameLogic.InRunIffInSomeRun | utils/gameLogic.ts:52-61 | a cell lies in a window of three equal non-empty cells iff it lies in a run of three or more |
| GameLogic.TripleExtent | utils/gameLogic.ts:56-61 | from a window start, the extension loop stops exactly after the block of equal cells |
| GameLogic.MatchedIsRunCell | utils/gameLogic.ts:47-84 | soundness: every matched cell is non-empty and lies inside a horizontal or vertical run of three or more |
| GameLogic.RowRunMatched | utils/gameLogic.ts:52-61 | completeness: every cell of a row run of any length of three or more is matched, including cells past the third |
| GameLogic.ColumnRunMatched | utils/gameLogic.ts:72-81 | completeness for column runs |
| GameLogic.MatchSetAtLeastThree | utils/gameLogic.ts:52-55 | a board with a match has at least three matched cells |
| GameLogic.SweepRows | utils/gameLogic.ts:47-64 | the horizontal pass records exactly the cells lying in a row run |
| GameLogic.SweepColumns | utils/gameLogic.ts:67-84 | the vertical pass adds exactly the cells lying in a column run |
| GameLogic.ListPositions | utils/gameLogic.ts:86-89 | listing the set yields each member exactly once and nothing else |
| GameLogic.DistinctCard | utils/gameLogic.ts:44 | a duplicate-free list has as many positions as the set of its elements |
| GameLogic.FindMatches | utils/gameLogic.ts:43-90 | the result has no duplicates and contains a position iff that cell is matched, so a cell in both a row and a column run appears once |
| GameLogic.SomeColorFits | utils/gameLogic.ts:25-28 | with three distinct colours in the palette, some colour passes the resample test, so the resample loop ends |
| GameLogic.DrawFitting | utils/gameLogic.ts:23-30 | the accepted candy is a palette colour that completes no run to its left or above |
| GameLogic.CreateRow | utils/gameLogic.ts:21-33 | a full-width row of palette colours, none of which completes a run with its left pair or the pair above |
| GameLogic.BoardGrows | utils/gameLogic.ts:34 | appending a finished row keeps every earlier row's checks true |
| GameLogic.NoPlacedRunNoMatch | utils/gameLogic.ts:15-17 | a board where no cell equals both its left neighbours or both the cells above it has no match |
| GameLogic.CreateBoard | utils/gameLogic.ts:18-37 | an 8 x 8 board of palette colours with no placed run, no hole and no match |
| GameLogic.IsValidSwap | utils/gameLogic.ts:95-107 | true iff the board with the two cells exchanged has a match; the caller's board is a value and is untouched |
| GameLogic.ValidSwapSymmetric | utils/gameLogic.ts:100-106 | the validity of a swap does not depend on the order of the positions |
| GameLogic.AreAdjacent | utils/gameLogic.ts:109-113 | true iff the Manhattan distance between the positions is 1; adjacent positions differ |
| GameLogic.AdjacentSymmetric | utils/gameLogic.ts:109-113 | adjacency is symmetric |
| GameLogic.AdjacentIsOneStep | utils/gameLogic.ts:110-112 | adjacent means exactly one coordinate differs, by exactly one |
| Transforms.NonEmptyAppend | App.tsx:166-175 | the candies of a concatenation are the candies of its parts, in order |
| Transforms.CompactKeepsCandies | App.tsx:164-175 | compacting a column keeps its candies in their order |
| Transforms.CompactSettles | App.tsx:176-180 | a compacted column has no hole below a candy |
| Transforms.SettledIsCompact | App.tsx:164-180 | a settled column is left as it is |
| Transforms.CompactIdempotent | App.tsx:164-180 | compacting a column twice is compacting it once |
| Transforms.ScanStepCandy | App.tsx:167-174 | moving a candy to the write cursor, and emptying its old cell when it moved, advances the scan layout by one |
| Transforms.ScanStepHole | App.tsx:166-167 | an empty cell is skipped and the layout is unchanged |
| Transforms.ScanDone | App.tsx:176-180 | once the scan has passed the top, the column is its compaction and the cells above the cursor are already empty |
| Transforms.DropColumn | App.tsx:165-180 | one column, scanned with the write cursor, becomes its compaction, and every other column is unchanged |
| Transforms.ApplyGravity | App.tsx:161-183 | the result is the board with every column compacted |
| Transforms.GravityKeepsCandies | App.tsx:164-175 | after gravity each column holds the same candies in the same relative order |
| Transforms.GravitySettles | App.tsx:165-180 | after gravity each column is holes above candies, and the board keeps its shape |
| Transforms.GravityIdempotent | App.tsx:161-183 | gravity leaves an already settled board unchanged; applying it twice is applying it once |
| Transforms.Refill | App.tsx:185-194 | every candy is kept and every hole takes the colour drawn for it |
| Transforms.RefillFillsEverything | App.tsx:185-194 | with draws from a palette without `Empty`, no hole remains and every cell is an old candy or a palette colour |
| Transforms.RefillFullBoard | App.tsx:186-192 | refilling a board without holes changes nothing |
| Transforms.Clear | App.tsx:115-139 | marking and clearing keeps the board's 8 x 8 shape; which cells it empties is stated by `ClearEmptiesExactlyMatches` |
| Transforms.ClearEmptiesExactlyMatches | App.tsx:115-139 | on a full board, after marking and clearing, a cell is empty iff it was matched, and every other cell keeps its candy |
| Transforms.RoundPoints | App.tsx:127 | the exact score of a round, cleared cells times 10 times the multiplier, is the function's body; its contract adds only that a round clearing at least three cells with a multiplier of at least one scores at least 30 |
| Transforms.Cascade | App.tsx:106-154 | the cascade's outcome: when it stops for lack of matches its board has none; points are never negative; a board without a match is left as it is |
| Transforms.StepKeepsFull | App.tsx:134-150 | a round with palette draws leaves the board full |
| Transforms.CascadeKeepsFull | App.tsx:106-154 | every cascade with palette draws ends on a full board |
| Transforms.CascadeRoundPoints | App.tsx:127-129 | a round that clears something earns at least ten points per cell times its multiplier, so the first round earns at least 30 |
| Transforms.SingleRunScoresThirty | App.tsx:104 | a single run of three cleared in the first round, with no further match, scores exactly 30 |
| Session.Verdict | App.tsx:199-207 | the end check does nothing during Swapping or Processing, and otherwise yields only LevelComplete, GameOver or the unchanged state |
| Session.VerdictFromIdle | App.tsx:202-206 | from Idle the result is LevelComplete iff the target is reached; GameOver iff it is not and no moves are left; otherwise Idle |
| Session.VerdictIdempotent | App.tsx:199-207 | running the check a second time changes nothing |
| Session.NextLevelIndex | App.tsx:210-218 | the next level index is (index + 1) mod the number of levels |
| Session.LevelAfterCycles | App.tsx:210-218 | after k advances from the first level, the level index is k mod 4: the levels are played in table order, cyclically |
| Session.LevelChangeStateAsWritten | App.tsx:199-207 | the state after a commit that changes the level, when both effects read the previous render's state: Idle from `initLevel`, then whatever the end check's firing branch sets; always Idle, LevelComplete or GameOver |
| Session.LevelChangeStaleVerdict | App.tsx:199-207 | as written, outside a swap or cascade the new level starts in LevelComplete iff the old score reaches the new target, in GameOver iff it does not and the old moves are used up, and in Idle only otherwise |
| Session.MountStartsInGameOver | App.tsx:31-33 | as written, the first level starts in GameOver |
| Session.LastMoveWinStartsNextInGameOver | App.tsx:210-212 | as written, winning level 1 on its last move with a score below level 2's target starts level 2 in GameOver |
| Session.WrapAfterLastLevelStartsComplete | App.tsx:213-216 | as written, winning the last level and wrapping to the first with a score at least the first level's target starts the first level in LevelComplete |
| Session.RunCascade | App.tsx:102-154 | the loop's final board, total points and reason for stopping are those of the cascade specification |
| Session.Game.constructor | App.tsx:10-33 | the initial state after the mount effects is a fresh first level in Idle |
| Session.Game.InitLevel | App.tsx:21-29 | a fresh board of the level's colours with no match and no hole; score 0; moves equal to the level's budget; Idle; no selection |
| Session.Game.EndCheck | App.tsx:199-207 | the new state is the verdict on the current score, moves left and target, and nothing else changes |
| Session.Game.ProcessMatches | App.tsx:99-159 | the board becomes the cascade's final board and the score grows by its points; the state is Idle exactly when the cascade settled; moves and selection are unchanged |
| Session.Game.AttemptSwap | App.tsx:61-97 | the selection is cleared; with no match the board, moves and score are unchanged and the state is Idle; with a match the move count drops by exactly one and the cascade runs on the swapped board |
| Session.Game.HandleClick | App.tsx:37-59 | clicks outside Idle are ignored; otherwise a click selects, deselects the selected cell, moves the selection to a non-adjacent cell, or swaps with an adjacent one and then runs the end check; the session invariant is kept |
| Session.Game.Retry | App.tsx:220-222 | the same level restarts fresh |
| Session.Game.NextLevel | App.tsx:210-218 | the next level (wrapping to the first) starts fresh and in Idle |

## Left out

- Rendering is not modelled. This covers components/GameBoard.tsx, CandyCell.tsx and GameUI.tsx, including the floating-point progress bar, the colour and emoji tables of constants.ts, and the `alert` in `handleNextLevel`.
- The `setTimeout` pauses are not modelled. They only pace animations, so every `await` is treated as a no-op.
- React state setters are treated as sequential assignments. The two effects are modelled as calls at the points where they take effect:
  - `initLevel` runs in the constructor and in `NextLevel`.
  - The end check runs after a swap in `HandleClick`, and after `initLevel` in the constructor and in `NextLevel`.
  - The stale-state reading of the effects at a level change is modelled apart, under Findings.
- Candy ids (`generateId`) and the `isMatched`/`isNew` flags are visual only and are dropped. The mark and clear steps of a round are modelled together as `Clear`.
- GameLogic.ListPositions: the order of the listed positions is a free choice. `Array.from` on a `Set` yields insertion order, row-pass cells first, and every caller uses only the list's length and membership.
- The `"r,c"` string keys of the match set and of the set built in `processMatches` are not modelled. Positions are used directly, so the string round trip is not modelled.
- Session.Game.ProcessMatches: the source publishes the board after each step of a round and adds to the score each round. The model stores only the final board and the total score, which are the same values once every await is a no-op.
- Session.Game.ProcessMatches: when a match remains after the last draw grid, the state stays Processing. In the source the loop would keep drawing random colours. Nothing is proved about that unbounded case.
- Session.Game.AttemptSwap: `[...board]` copies only the outer array, so the source's swap also writes into the row arrays of the state it read. Boards here are values, so that aliasing is not modelled.
- Session.Game.AttemptSwap: the source computes `isValidSwap(board, p1, p2)` and never uses the result. The model leaves that call out and decides on the matches of the swapped board, as the source does.
- GameLogic.CreateBoard: draws are a nondeterministic choice from the palette, so the uniform distribution of `Math.random` is not modelled. A redraw for a cell skips colours already rejected for that cell.
- Degenerate palettes are not handled. Board creation requires a palette without `Empty` and with three distinct colours, which every level of the table has.
- Session.Game.HandleClick: the clicked position is required to lie on the board, because the board component only reports clicks on cells.
- `Retry` and `NextLevel` have no guard on the game state, like the source's handlers. Only the modal buttons call them.

## Findings

| source | as written | input that shows it | evidently intended | confidence | as-written member | corrected member |
|---|---|---|---|---|---|---|
| App.tsx:31-33 | At a level change, both effects run against the render that changed the level: `initLevel` enqueues Idle, and the end check, still seeing the old score and `movesLeft`, enqueues LevelComplete or GameOver after it | At start-up the state holds `movesLeft == 0`, so level 1 starts in GameOver. Winning level 1 on its last move with score 1000 makes level 2 start in GameOver. Winning level 4 with 6000 points and wrapping makes level 1 start in LevelComplete, as does reaching level 2 with a score of 2500 or more | a level that has just been set up starts in Idle with its full move budget | not executed; depends on React running both effects of a commit with that render's state and applying queued updates in order | Session.LevelChangeStateAsWritten | Session.Game.NextLevel |
