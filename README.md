# Paper soccer: the rules engine as a verified Dafny model

Paper soccer is played on a grid of `rows x cols` unit cells. The ball
starts at the centre point. Players take turns drawing one unit segment
from the ball to one of its eight neighbouring points, and the ball moves
along it. A segment may be drawn only once. The frame of the field is
pre-drawn, except for an opening in the middle of each short side. The
side segments `[i, i+1]` are drawn only for `i < rows/3` or
`i > 2*rows/3`, so the opening runs from row `rows/3` to row
`2*rows/3 + 1`, one segment beyond the goal band `[rows/3, 2*rows/3]`.
`Rules.FrameNeverDecides` shows that this extra gap never changes which
moves are legal, because the frame rule of `isValidMove` already rejects
every target on the frame outside the mouth. Reaching a point that has
been visited before earns the mover an extra move. Player 1 attacks the right goal (`x = cols`) and player 2 the
left goal (`x = 0`). The game is played by two people or against a one-ply
computer opponent. The field size cycles through four presets.

The model follows the `PaperSoccerGame` component of `src/App.tsx`:

- `geometry.dfy` (module `Geometry`) holds the points, the segments, the
  goal band `[rows/3, 2*rows/3]`, and the frame that `initializeLines`
  seeds. Each of its two loops is a recursive function in push order. The
  module also holds the field-size presets and the index arithmetic of the
  resize buttons.
- `rules.dfy` (module `Rules`) holds the game state as a value,
  `isValidMove`, `checkWin`, and the narrower test in `makeMove` that
  decides whether a win also scores.
- `engine.dfy` (module `Engine`) holds the transitions. `Initial` is the
  state `initializeGame` produces. `Play` is the effect of an accepted
  `makeMove`: the win, the score and the turn. `Inv` is the invariant kept
  by every transition.
- `ai.dfy` (module `Ai`) holds the opponent. `AvailableMoves` is the list
  that the two nested loops of `getAvailableMoves` build. `Reduce` and
  `BestMove` are the `reduce` fold of `getBestMove`. `AiChoice` is the
  strategic-or-random choice of `makeAIMove`.
- `game.dfy` (module `Game`) holds the class `PaperSoccerGame`. Each
  `useState` is a field and each handler is a method. Every handler's
  postcondition gives the whole new state in terms of the old one:
  `Initial` for a fresh game, `Play` for an accepted move, and `Other`
  for a passed turn. `InitializeLines` gives the new lines as
  `FrameLines`, `SwitchPlayer` the new player as `Other` of the old, and
  `GetAvailableMoves` changes nothing and returns `AvailableMoves`. `InitializeLines` and `GetAvailableMoves` keep the source's
  loops, with invariants relating the partial results to the functions
  above.

Handlers in the source read the component's state as it was when the
handler was created. `setState` only takes effect on the next render. The
methods therefore capture the pre-call state first and compute every new
field from it: whether the target was visited before, whose move it was,
which lines were drawn.

The two `Math.random()` results of `makeAIMove` are parameters. They are
reals in `[0, 1)`: `strategicDraw` is compared with 0.8 (medium) or 0.2
(easy), and `indexDraw` picks `Math.floor(indexDraw * n)`. `Math.floor`
of a non-negative `/` is Dafny's `/` on naturals. The preview indices of
the resize buttons use JavaScript's truncating `%`, written out as
`JsRemainder`.

Where the rules text and the code differ, the model follows the code:

- A "graze" win scores nothing. The score update in `makeMove`
  (`src/App.tsx:138-155`) fires only when the ball enters the goal band
  proper. A win at the point `(cols-1, 2*rows/3+1)` or `(1, 2*rows/3+1)`
  ends the game with the score unchanged.
- A player with no legal move does not lose. `makeAIMove` only passes the
  turn (`src/App.tsx:206-209`), and `makeMove` has no such rule.
- `makeMove` itself does not look at `gameOver`. Its callers do:
  `handlePointClick`, and the effect that schedules the AI move
  (`src/App.tsx:62-67`). So `Play` on a finished game still draws the line. `GameOverSticks`
  shows that the game nevertheless stays over.
- Moves are king moves of length one. A target that is not adjacent to the
  ball is always rejected.

## Model

| member | source | states |
|---|---|---|
| Geometry.Center | src/App.tsx:71-72 | the kick-off point `(cols/2, rows/2)` lies on the field |
| Geometry.GoalLow | src/App.tsx:83 | `Math.floor(rows / 3)`, the lowest row of the goal band; its bounds are `GoalBandWithinSide` |
| Geometry.GoalHigh | src/App.tsx:83 | `Math.floor((2 * rows) / 3)`, the highest row of the goal band, also used by the score gate and checkWin; its bounds are `GoalBandWithinSide` |
| Geometry.GoalBandWithinSide | src/App.tsx:83 | the goal band satisfies `rows/3 <= 2*rows/3 <= rows`, strictly below `rows` on a real field |
| Geometry.OutsideGoal | src/App.tsx:83 | the condition under which the first loop of `initializeLines` seeds the side segments `[i, i+1]`: `i < rows/3` or `i > 2*rows/3`; its effect on the frame is `SideLinesMembers` and `FrameLinesMembers` |
| Geometry.SideLines | src/App.tsx:82-95 | the segments the first loop of `initializeLines` has pushed after `n` rounds, in push order; its members and length are `SideLinesMembers` and `SideLinesCount` |
| Geometry.EdgeLines | src/App.tsx:96-107 | the segments the second loop has pushed after `n` rounds, in push order; its members and length are `EdgeLinesMembers` and `EdgeLinesCount` |
| Geometry.SameSegment | src/App.tsx:382-390 | the callback of `lines.some`: the line joins the ball and the target in either orientation; used by `LineExists` |
| Geometry.LineExists | src/App.tsx:381-391 | `lineExists`: some drawn line joins the two points; its meaning in legality is `IsValidMove`'s ensures and `ValidMoveComplete`, its split over concatenation `LineExistsConcat`, and its effect after a move `NoImmediateReturn` |
| Geometry.FrameLines | src/App.tsx:80-109 | the whole array `initializeLines` builds, first loop then second; characterised by `FrameLinesMembers`, `FrameLinesCount` and `FrameLinesDistinct` |
| Geometry.FrameLinesMembers | src/App.tsx:80-109 | the seeded frame holds exactly the side segments `[i, i+1]` of `x = 0` and `x = cols` with `i < rows/3` or `i > 2*rows/3` (so the opening runs from `rows/3` to `2*rows/3 + 1`), plus every unit segment of `y = 0` and `y = rows`, all with player 0 |
| Geometry.FrameLinesCount | src/App.tsx:80-109 | the frame has `2*cols` edge segments plus two side segments per closed row interval |
| Geometry.FrameLinesDistinct | src/App.tsx:80-109 | no undirected segment occurs twice in the frame |
| Geometry.IndexOf | src/App.tsx:54-56 | `findIndex`: -1 exactly when the size is absent, otherwise the index of its first occurrence |
| Geometry.SizeIndex | src/App.tsx:47-56 | `currentSizeIndex`: `findIndex` over the constant `FieldSizes` (the four presets 7x11, 9x13, 11x15, 13x17); its meaning is `IndexOf`'s contract and `PresetIndexRoundTrip` |
| Geometry.PresetIsProperField | src/App.tsx:47-52 | every preset has `7 <= rows <= 13` and `11 <= cols <= 17` |
| Geometry.PresetIndexRoundTrip | src/App.tsx:47-56 | looking up preset `k` gives back `k`, because the presets are distinct |
| Geometry.WrapIndex | src/App.tsx:608-610 | the new size index is always within `[0, length)`, and for an in-range start and `direction` of plus or minus 1 it is the cyclic neighbour |
| Geometry.JsRemainder | src/App.tsx:640-642 | JavaScript's truncating `%`, negative for a negative dividend; used by the previews, whose agreement with the resize is `PreviewsMatchResize` |
| Geometry.PreviewPrev | src/App.tsx:640-641 | `prevIndex` of `renderResizeButtons`; equal to the downward resize by `PreviewsMatchResize` |
| Geometry.PreviewNext | src/App.tsx:642 | `nextIndex` of `renderResizeButtons`; equal to the upward resize by `PreviewsMatchResize` |
| Geometry.PreviewsMatchResize | src/App.tsx:639-642 | each resize button's preview index, computed with JavaScript `%`, is the index that `handleResize` switches to |
| Rules.IsValidMove | src/App.tsx:371-406 | an accepted target is on the field, at king distance 1 from the ball, over an undrawn segment, strictly between the top and bottom rows, and on a short side only strictly inside the goal mouth |
| Rules.ValidMoveComplete | src/App.tsx:371-406 | conversely, every such target is accepted |
| Rules.IsEdgeMove | src/App.tsx:393-396 | `isEdgeMove`: the target lies on the outer frame; used by `IsValidMove`, whose frame rule is stated by its ensures, `ValidMoveComplete` and `NoMoveOntoTopBottomOrCorner` |
| Rules.InGoalMouth | src/App.tsx:399-405 | the exception of the frame rule: a short side strictly between `rows/3` and `2*rows/3`; see `IsValidMove` and `LegalGoalsAreStrictlyInside` |
| Rules.ValidMoveIsNeighbour | src/App.tsx:376-378 | an accepted target is one of the ball's eight neighbours |
| Rules.NoMoveOntoTopBottomOrCorner | src/App.tsx:393-405 | the top and bottom rows and the corners are never legal targets |
| Rules.FrameNeverDecides | src/App.tsx:381-405 | a frame segment never blocks a move the frame rule allows, so legality is the same with or without the seeded frame |
| Rules.CheckWin | src/App.tsx:408-437 | `checkWin` for the player to move, its four cases in order; properties in `WinsAndGoals`, `WinsOnlyAtOpponentGoal`, `WinEndsGame` |
| Rules.IsGoalScored | src/App.tsx:138-155 | the two score gates of `makeMove`; properties in `WinsAndGoals`, `LegalGoalsAreStrictlyInside`, `ScoreRisesOnlyOnGoal` |
| Rules.IsGrazePoint | src/App.tsx:427-434 | the third and fourth cases of `checkWin`: one column inside the attacked goal, one row below the band; `WinsAndGoals` shows these are exactly the wins that do not score, and `ScoreRisesOnlyOnGoal` that they end the game with the score unchanged |
| Rules.WinsAndGoals | src/App.tsx:138-155 | a scored goal is always a win, and the wins that do not score are exactly the two graze points |
| Rules.LegalGoalsAreStrictlyInside | src/App.tsx:399-405 | a legal scoring move lands strictly inside the goal band, never on its end rows |
| Rules.WinsOnlyAtOpponentGoal | src/App.tsx:408-437 | player 1 wins only at `x >= cols-1` and player 2 only at `x <= 1`; nobody else ever wins |
| Engine.Other | src/App.tsx:172-174 | `switchPlayer` always yields 1 or 2, and a player other than the old one when that was 1 or 2 |
| Engine.Initial | src/App.tsx:69-78 | the state `initializeGame` leaves on a `rows x cols` field with the kept score; properties in `InitialState`, `InitialInv`, `KickOffAllNeighboursLegal`, `KickOffMoves` |
| Engine.InitialState | src/App.tsx:69-78 | a fresh game has the ball at the centre, only that point visited, player 1 to move, no winner, the frame as its lines and the match score unchanged |
| Engine.InitialInv | src/App.tsx:69-78 | a fresh game on a non-empty field satisfies the invariant |
| Engine.KickOffNeighboursLegal | src/App.tsx:69-78 | on a field of at least 4 x 4, every neighbour of the kick-off point is a legal first move |
| Engine.KickOffAllNeighboursLegal | src/App.tsx:69-78 | all eight kick-off neighbours are legal at once |
| Engine.Bump | src/App.tsx:144-153 | the two `setScores` updates: one more goal for the mover; used by `Play`, and `ScoreRisesOnlyOnGoal` states that exactly the mover's count rises by one |
| Engine.Play | src/App.tsx:120-170 | the state after `makeMove` accepts a move: line appended, ball moved, target visited, win, score and turn resolved from the pre-move state; properties in `PlayKeepsInv`, `PlayDrawsOneLine`, `NoImmediateReturn`, `ExtraTurnIffRevisit`, `WinEndsGame`, `ScoreRisesOnlyOnGoal`, `GameOverSticks` |
| Engine.PlayKeepsInv | src/App.tsx:120-132 | an accepted move keeps the ball on the field and visited, no segment duplicated, the frame as prefix, moves owned by a player, and winner set exactly when the game is over |
| Engine.PlayDrawsOneLine | src/App.tsx:120-132 | an accepted move appends exactly `Line(ball, target, mover)`, moves the ball, adds the target to the visited set, keeps the field size, and leaves the old lines a prefix |
| Engine.NoImmediateReturn | src/App.tsx:381-391 | after a move the ball can never go straight back along the segment just drawn |
| Engine.ExtraTurnIffRevisit | src/App.tsx:156-166 | after a move that does not win, the mover keeps the turn exactly when the target was visited before, otherwise the turn passes; nothing is won or scored |
| Engine.WinEndsGame | src/App.tsx:134-137 | a winning move ends the game with the mover as winner, and the turn is not switched |
| Engine.ScoreRisesOnlyOnGoal | src/App.tsx:138-155 | the total score rises by one exactly on a goal, for the mover only; a graze win ends the game without scoring |
| Engine.GameOverSticks | src/App.tsx:120-169 | once the game is over, later moves never clear `gameOver` or the winner |
| Ai.Step | src/App.tsx:216-221 | the body of the inner loop: nothing for the ball itself (`continue`), otherwise the point when `isValidMove` accepts it; `ColumnMovesMembers` states what the steps of one column push |
| Ai.ColumnMoves | src/App.tsx:215-222 | what the inner `dy` loop has pushed for one column; properties in `ColumnMovesMembers`, `ColumnMovesOrdered`, `ColumnMovesCount` |
| Ai.MovesBefore | src/App.tsx:214-223 | what the outer `dx` loop has pushed so far; properties in `MovesBeforeMembers`, `MovesBeforeOrdered` |
| Ai.AvailableMoves | src/App.tsx:212-225 | the array `getAvailableMoves` returns; properties in `AvailableMovesExact`, `AvailableMovesOrdered`, `AvailableMovesAtMostEight`, `AllNeighboursListed` |
| Ai.AvailableMovesExact | src/App.tsx:212-225 | a point is in the move list exactly when `isValidMove` accepts it |
| Ai.AvailableMovesOrdered | src/App.tsx:214-221 | the list is in dx-outer, dy-inner order, strictly increasing, and so holds no point twice |
| Ai.AvailableMovesAtMostEight | src/App.tsx:214-221 | the list has at most eight entries |
| Ai.AllNeighboursListed | src/App.tsx:212-225 | when all eight neighbours are legal, the list holds all of them in loop order |
| Ai.KickOffMoves | src/App.tsx:212-225 | at kick-off the list is the eight neighbours of the centre, in loop order |
| Ai.GoalColumn | src/App.tsx:231-233 | the column of the attacked goal, `cols` for player 1 and 0 otherwise; used in `BestMoveIsFirstClosest` |
| Ai.MoveScore | src/App.tsx:231-235 | `distanceToGoal * 2 + movesAfter`; its order on candidates is `BestMoveIsFirstClosest` |
| Ai.Reduce | src/App.tsx:229-243 | the `reduce` callback and accumulator of `getBestMove`; what it returns is `ReduceChoice` |
| Ai.BestMove | src/App.tsx:227-245 | `getBestMove`, with the `availableMoves[0]` fallback; properties in `BestMoveIsFirstClosest`, `BestMoveInMoves` |
| Ai.ReduceChoice | src/App.tsx:228-243 | the fold returns its starting accumulator, or the first candidate that scores strictly lowest |
| Ai.BestMoveIsFirstClosest | src/App.tsx:227-245 | `getBestMove` returns the first candidate with the least distance to the attacked goal column; the shared `movesAfter` term never changes the choice |
| Ai.BestMoveInMoves | src/App.tsx:227-245 | `getBestMove` yields a move exactly when the list is non-empty, and that move is in the list |
| Ai.RandomIndex | src/App.tsx:188-189 | `Math.floor(draw * n)` is a valid index for any draw in `[0, 1)` |
| Ai.StrategicThreshold | src/App.tsx:181-193 | the draw below which the AI plays the heuristic move: 0.8 on medium, 0.2 on easy |
| Ai.AiChoice | src/App.tsx:180-200 | the move `makeAIMove` selects for the two draws; properties in `AiChoiceInMoves`, `SingleCandidateIsPlayed`, `AiChoiceIsLegal` |
| Ai.AiChoiceInMoves | src/App.tsx:180-200 | the AI picks a move exactly when one is available, and always one from the list |
| Ai.SingleCandidateIsPlayed | src/App.tsx:180-200 | with a single candidate the AI plays it, whatever the difficulty and the draws |
| Ai.AiChoiceIsLegal | src/App.tsx:176-205 | the AI's choice is always a legal move |
| Game.PaperSoccerGame.constructor | src/App.tsx:28-60 | the component starts with a 9 x 13 field, a 0:0 score and a fresh game, satisfying the invariant |
| Game.PaperSoccerGame.InitializeLines | src/App.tsx:80-109 | the two loops leave exactly the frame, in push order |
| Game.PaperSoccerGame.InitializeGame | src/App.tsx:69-78 | the new state is the fresh game on the current field, keeping the score |
| Game.PaperSoccerGame.SwitchPlayer | src/App.tsx:172-174 | the player to move changes 1 to 2 and anything else to 1 |
| Game.PaperSoccerGame.MakeMove | src/App.tsx:120-170 | returns whether the move is legal; a legal move's new state is `Play` of the old one, and a rejected call changes nothing; the invariant is kept |
| Game.PaperSoccerGame.HandlePointClick | src/App.tsx:111-114 | a click does nothing once the game is over or while the AI is to move, and otherwise acts as `MakeMove` |
| Game.PaperSoccerGame.GetAvailableMoves | src/App.tsx:212-225 | the nested loops return exactly `AvailableMoves` of the current state |
| Game.PaperSoccerGame.MakeAIMove | src/App.tsx:176-210 | with no move available only the player switches; otherwise the chosen move is legal and the new state is `Play` with it |
| Game.PaperSoccerGame.HandleResize | src/App.tsx:605-636 | the field becomes the wrapped neighbouring preset, a fresh game starts on it with the score kept, and the new size index is the wrapped index |

## Left out

- Rendering is not modelled: all `render*` functions, styling, the SVG goals, `FieldPreview` and the confetti call (`triggerConfetti`). None of them holds game rules.
- The rules text in `Rules.tsx` is not modelled. It is static text.
- Timers and effect scheduling are not modelled. This covers the 500 ms `setTimeout` that starts the AI's move, the forced re-render after an AI revisit, and the nested timeouts of `handleResize`. Those are framework pacing, not rule behaviour.
- Game.PaperSoccerGame.HandleResize: does not model the `isResizing` flag that makes a second click during the animation a no-op, or the DOM opacity and transform changes. It models the net effect of the click: the new preset and a fresh game on it. The source's `initializeGame` inside the timeout runs with the old field size, and the effect on `[rows, cols]` then re-initializes on the new size; the model gives the resulting state.
- Game-mode and difficulty selection are not modelled as UI state. The difficulty is a parameter of `MakeAIMove`, and `gameMode === "ai"` is the `aiMode` parameter of `HandlePointClick`, so "the AI is to move" is `aiMode && currentPlayer == 2`. Changing `gameMode` re-runs `initializeGame`, which `InitializeGame` models.
- `Math.random()` is not modelled: its two results are parameters of `MakeAIMove`. No probabilities are modelled, only the choice each pair of draws leads to.
- Ai.RandomIndex: JavaScript's floating-point product and `Math.floor` are modelled on exact reals, so double rounding is not captured.
- The visited set is keyed by the string `"x-y"` in the source and by `Position` in the model. The two agree on every point of the grid.
- Geometry.GoalLow, Geometry.GoalHigh: `Math.floor` of a division is Dafny's natural-number division, which agrees because row counts are non-negative.
- Game.PaperSoccerGame.InitializeGame: requires `rows > 0 && cols > 0`, which every preset meets. On an empty field the seeded segments would repeat, and the invariant would not hold.
- `startNewGame` is not modelled separately: it only calls `initializeGame`, which `InitializeGame` models.
