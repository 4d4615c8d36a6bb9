# Snake game: a verified model of the game state

This project models the game logic of a browser snake game on a 20 × 20 board.
The snake is a list of cells, head first. On every timer tick it moves one cell
in its current heading. It grows by one segment when the new head lands on the
food. Running into a wall or into its own body ends the game. Each meal shortens
the tick delay according to a five-band table. A reset restores the initial
state but keeps the high score. The space bar starts a game and the arrow keys
steer the snake.

The game's globals (`snake`, `food`, `direction`, `gameSpeedDelay`,
`gameStarted`, `highScore` and the interval timer) are the fields of one class,
`Game.GameSession`. Its methods update those fields in place, as the game's
functions do. Each method is specified against pure functions on values
(module `Rules`), and the game's properties are proved about those functions:

- `board.dfy`, module `Board`: cells, headings, the one-cell step and the wall test.
- `rules.dfy`, module `Rules`: one move, the collision predicates, runs of
  moves and the score, the speed table, and the high score across games.
- `keys.dfy`, module `Keys`: key events and the arrow-key mapping.
- `game.dfy`, module `Game`: the session class. `Valid()` is its invariant: the
  snake is non-empty, the food is on the board, the delay lies in [25, 200],
  and the timer runs exactly while the game is started, at the current delay.
  `AtRest()` also requires the snake to be on the board with no two segments
  on one cell. Every tick preserves `AtRest()`.

The timer is the field `clock: Clock`, which is `Stopped` or `Ticking(interval)`.
Restarting the timer after a meal becomes `clock := Ticking(gameSpeedDelay)`.
Because there is a single field, the session cannot have two live timers, and
`Valid()` shows that the game never starts a timer while one is running.

Food comes from a random generator. The model takes each generated cell as a
method parameter, with the precondition that it lies in [1, 20]²: `mealFood`
for the food placed after a meal, `freshFood` for the food placed by a reset,
and `firstFood` for the food placed when the page loads. A tick is `Move`
followed by `CheckCollision`, as in the timer callback.

Where the design description and the code differ, the model follows the code:

- Arrow keys change the heading while the game is not started as well. The key
  handler only checks `gameStarted` for the space bar (script.js:113-132). The
  description says idle sessions ignore direction input.
- Turning straight back does not always end the game. At length two with no
  meal, the tail is dropped from the cell the head re-enters, so the snake
  survives (`Rules.ShortReversalSurvives`). From length three on it collides
  (`Rules.ReversalCollides`). The description says length two is enough.
- The food generator does not avoid the snake. Food that lies on a body segment
  ends the game when it is eaten (`Rules.FoodOnBodyCollides`).
- The speed table is not monotone as a function of the delay. For example,
  151 ms becomes 146 ms but 150 ms becomes 147 ms. What holds, and is proved, is
  that a meal never raises the delay and never takes it below 25 ms.

## Model

| member | source | states |
|---|---|---|
| `Board.Step` | script.js:66-80 | The new head differs from the old one by exactly one unit along the heading's axis: up y−1, down y+1, left x−1, right x+1, with the other coordinate unchanged. Its Manhattan distance from the old head is 1. |
| `Board.StepBack` | script.js:66-80 | A step in the opposite heading returns to the starting cell. |
| `Board.HitsWall` | script.js:157 | The wall test fires exactly when the head is outside [1, 20]², the range the food generator draws from. |
| `Rules.Moved` | script.js:65-97 | The new head is the shifted old head. The snake grows by one exactly when the new head is on the food, and otherwise its length is unchanged. Old segments follow the new head in order: the whole old snake after a meal, all but its last segment otherwise. The result is never empty. |
| `Rules.MovedSettled` | script.js:153-166 | If the snake was on the board with no overlapping segments and the collision check lets the move through, the moved snake is also on the board with no overlapping segments. |
| `Rules.EatingStaysOnBoard` | script.js:85 | A move onto the food never hits a wall, because food always lies on the board. |
| `Rules.FoodOnBodyCollides` | script.js:58-62 | Food lying on body segment k ≥ 1 is eaten without dropping the tail, so the head collides with that segment. |
| `Rules.ReversalCollides` | script.js:162-166 | At length ≥ 3, turning straight back puts the head on the kept second segment, which is a self-collision. |
| `Rules.ShortReversalSurvives` | script.js:94-96 | At length 2 with no meal on the cell, turning straight back causes no collision. |
| `Rules.FollowTailSurvives` | script.js:94-96 | On a settled snake, moving into the cell of the last segment without a meal there causes no collision. |
| `Rules.Play` | script.js:82-96 | A run of moves never empties the snake. |
| `Rules.PlayGrowsByMeals` | script.js:82-96 | Over any run of moves the length grows by exactly the number of moves that land on the food. |
| `Rules.ScoreCountsMeals` | script.js:181-183 | Starting from the one-segment snake, the score (length − 1) after a run of moves equals the number of meals. |
| `Rules.NextDelay` | script.js:139-150 | A meal never raises the delay and lowers it by at most 5 ms. From 25 ms down it leaves the delay unchanged; above 25 ms it lowers it strictly, but not below 25 ms. |
| `Rules.NextDelayIdempotentAtFloor` | script.js:147-149 | At or below the floor, repeated meals leave the delay unchanged. |
| `Rules.DelayAfter` | script.js:139-150 | After any number of meals the delay is at most the starting delay and never drops below 25 ms if it started there or higher. At or below 25 ms it stays put. |
| `Rules.BandRun` | script.js:141-149 | Inside one band of the table every meal subtracts the band's step (5, 3, 2 or 1 ms). |
| `Rules.DelayReachesFloor` | script.js:139-150 | From 200 ms, 75 meals leave 26 ms and every count of 76 or more leaves exactly 25 ms. |
| `Rules.BestScore` | script.js:195-200 | Across a sequence of finished games the high score never decreases, is at least every game's score, and is either the starting high score or one of those scores. |
| `Keys.KeyDirection` | script.js:119-132 | A key selects heading d exactly when it is d's arrow key. No other key selects a heading. |
| `Game.GameSession.constructor` | script.js:9-16 | The initial globals: snake [(10,10)], the generated food, high score 0, heading right, delay 200, not started, no timer. |
| `Game.GameSession.Move` | script.js:65-97 | The snake becomes `Moved` of the old snake, heading and food. After a meal the food is the newly generated cell and the delay becomes `NextDelay` of the old delay. The timer ticks at the current delay, and all other fields are unchanged. |
| `Game.GameSession.StartGame` | script.js:100-109 | Marks the game as started and starts the timer at the current delay. Nothing else changes. |
| `Game.GameSession.HandleKeyPress` | script.js:112-134 | The space bar (by code or by key value) while not started starts the game. Otherwise an arrow key sets the matching heading, and any other key (or the space bar during a game) changes nothing. |
| `Game.GameSession.IncreaseSpeed` | script.js:139-150 | The delay becomes `NextDelay` of the old delay. |
| `Game.GameSession.CheckCollision` | script.js:153-167 | When the head is off the board or on a segment at index ≥ 1, the session is reset exactly once. Otherwise no field changes. |
| `Game.GameSession.ResetGame` | script.js:170-178 | Snake [(10,10)], the new food, heading right, delay 200, not started, timer stopped. The high score becomes max(old high score, score of the ended game) and so never decreases. |
| `Game.GameSession.StopGame` | script.js:187-192 | Stops the timer and marks the game as not started. |
| `Game.GameSession.UpdateHighScore` | script.js:195-202 | The high score becomes max(high score, length − 1): it never decreases and is at least the current score. |
| `Game.GameSession.Tick` | script.js:104-108 | One tick is a move followed by the collision check. If the moved snake collides, the session is the reset state, with the high score taking in the moved snake's score. Otherwise it is the moved state. The tick preserves `AtRest()`, and the high score never decreases. |

## Left out

- Rendering is not modelled: `draw`, `drawSnake`, `createGameElement`, `setPosition` and `drawFood` write to the page, which is outside the game state.
- The score and high-score text (`updateScore`, the `textContent`/`padStart` part of `updateHighScore`) and the `style.display` toggles of the instruction text, logo and high score are presentation only.
- The call to `draw` at the end of each tick is not modelled, for the same reason.
- `Math.random` inside `generateFood` is not modelled. It is floating point and nondeterministic, so only its range is kept: each generated cell is a parameter required to lie in [1, 20]².
- `setInterval`, `clearInterval` and the interval id `gameInterval` are host scheduling. They become the `clock` field. The model does not capture wall-clock timing or drift.
- Registering the key listener (script.js:136) is host I/O. `HandleKeyPress` is the handler, and a key event is reduced to its `code` and `key` strings.
- Game.GameSession.Tick: requires `AtRest()` and a started game. The timer only fires while the game is started, and every operation of the session keeps the snake settled between ticks.
