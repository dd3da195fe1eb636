# Snake game engine — a Dafny model

This project models the simulation core of a browser Snake game whose body segments are drawn
as meme images. The game is one `Snake` object in `game.js`; the model keeps its fields and the
rules that change them, and leaves out the canvas, the DOM and image loading.

What is modelled:

- a 20 x 20 toroidal grid: the head moves with `(head + dir + gridSize) % gridSize`, so it
  never hits a wall;
- the body as a head-first sequence of segments; segment 0 is the head and has no meme, while
  every other segment carries a meme index;
- `update(deltaTime)`: time goes into an accumulator, and at most one grid step happens per call.
  A step snapshots the body into `lastPositions`, commits `nextDirection`, then either eats
  (the body grows at the tail, food is placed again, score and speed go up) or moves (follow
  the leader). A collision of the head with a segment at index 2 or later ends the game;
- the direction rule shared by the keyboard and swipe handlers, and restart on a finished game;
- `generateFood` with its resampling loop, `checkCollision`, `increaseSpeed`, the food-eaten
  effect timer, and the first-frame rule of `animate`;
- the renderer's wrap-aware per-axis delta and the re-wrapped drawing coordinate, as integers.

Layout: `grid.dfy` (cells, directions, JavaScript `%`, the wrapping move); `renderer.dfy`
(wrap-aware delta); `engine.dfy` (the game state as a datatype and every rule as a function);
`engine_lemmas.dfy` (what one update, a reset and an input do to a game); `game.dfy` (the
`Snake` class; each of its methods is proved to change the fields exactly as the matching
`Engine` function says); `wrappers.dfy` (`Option`).

Representation choices:

- Speeds are in half-units. `speed2` is `2 * speed`, so 5, 15 and +0.5 become 10, 30 and +1.
  The accumulator holds whole milliseconds. A step is due when `accMs * speed2 >= 2000`, which
  is `moveAccumulator >= 1 / speed` restated exactly in integers.
- `Math.random` is replaced by a sequence of draws supplied by the caller. Each draw is one
  round of the column, the row and the meme index. `generateFood` consumes rounds until one
  lands off the snake. Callers must supply a sequence containing such a round. This is exactly
  the condition under which the source loop ends; on a full board it never ends.
- While the images have not loaded, `memeImages.length` is still 5, since the five images are
  pushed synchronously. That is the meme count used throughout.

Behaviours of the code a reader may not expect; the model follows the code as written:

- The head does not move on an eating step. The eat branch only appends a segment on the old
  tail's cell; `segments[0] = newHead` runs only in the non-eating branch.
- `reset` does not clear `gameOver`. The restart handlers clear it first, and the constructor
  sets it before calling `reset`.
- `generateFood` also bumps the food's meme index by one (mod 5) when it equals the last
  segment's.
- The renderer interpolates only while `moveProgress < 1`. Given the accumulator invariant,
  that holds at every draw.
- `animate` treats every frame as a first frame (delta 0) while `lastTime` is 0. Because the
  game starts with `animate(0)`, the next frame also gets delta 0.

A consequence of the growth rule, proved in `EngineLemmas.TwoQuickMealsEndGame` and
characterised by `EngineLemmas.EatCollidesIff`: a one-segment snake that eats on two
consecutive steps ends the game. The first meal puts a segment on the head's own cell at
index 1, which collision ignores; the second meal puts one there at index 2.

## Model

| member | source | states |
|---|---|---|
| `Grid.JsRem` | game.js:256-260 | JavaScript `%`: the dividend is the divisor times the quotient truncated toward zero plus the result; the result has the sign of the dividend and is smaller than the divisor in magnitude |
| `Grid.WrapCoordStep` | game.js:254-262 | a one-cell step on one axis stays on the board; inside the board it is plain addition, and leaving one edge re-enters at the opposite edge |
| `Grid.MovedInGrid` | game.js:254-262 | the new head is on the board, differs from the old head, and each coordinate is the old one plus the direction modulo the grid size |
| `Renderer.WrapDelta` | game.js:397-405 | the wrap-adjusted delta of a delta shorter than the grid has magnitude at most half the grid, is congruent to the raw delta modulo the grid, and equals it when the raw delta is already short |
| `Renderer.DrawAtStart` | game.js:407-411 | at progress 0 the re-wrapped drawing coordinate is exactly the last cell |
| `Renderer.DrawAtEnd` | game.js:396-411 | once the whole wrap-aware delta is covered, the drawing coordinate is exactly the current cell, also across the seam |
| `Renderer.WrapDeltaOfMove` | game.js:396-405 | a head that moved one cell, across the seam or not, animates by exactly its direction on each axis |
| `Engine.IncreaseSpeed` | game.js:228-231 | below the cap the speed goes up by exactly one increment; at or above it the speed is the cap; it never moves away from [speed, maxSpeed] |
| `Engine.SpeedAfterMeals` | game.js:228-231 | after k meals from the base speed, the speed is `min(maxSpeed, baseSpeed + k * speedIncrease)` and lies within [baseSpeed, maxSpeed] |
| `Engine.SpeedAfterMonotone` | game.js:228-231 | more meals never give a lower speed |
| `Engine.TickEffect` | game.js:238-243 | the effect survives `dt` ms exactly when its advanced time is below its duration, and then only its time changes, by `dt` |
| `Engine.PlaceFood` | game.js:183-205 | the placed food is on the board, off every segment, has a meme in range, and its meme differs from the last segment's meme |
| `Engine.Candidate` | game.js:187-198 | one round of draws proposes food on the drawn cell with a meme in range; the drawn meme is kept unless it equals the last segment's, in which case it becomes the next meme `(meme + 1) % 5`; the proposal never has the last segment's meme |
| `Engine.PlaceFoodFirstFree` | game.js:186-203 | the placed food is the candidate of the first round of draws that lands off the snake; every earlier round was on the snake |
| `Engine.GrownSameCells` | game.js:271-283 | the segment appended on eating covers no new cell: a cell is under the grown snake exactly when it was under the old one |
| `Engine.ShiftedFollowsLeader` | game.js:290-299 | the shift keeps the length; segment 0 becomes the new head; each segment i ≥ 1 takes the old cell of segment i - 1; the sequence of memes is unchanged |
| `Engine.Steer` | game.js:97-114 | a requested direction perpendicular to the current one replaces `nextDirection`; any other request leaves it unchanged |
| `Engine.SteerNeverReverses` | game.js:100-112 | from a buffered direction equal or perpendicular to the current one, steering keeps it a unit direction that is equal or perpendicular, never the reverse |
| `Engine.SwipeRequest` | game.js:147-166 | a swipe asks for right or left exactly when its horizontal movement dominates and exceeds 30 in that sense; for down or up exactly when the vertical one does |
| `Engine.AsciiLower` | game.js:97 | lower-casing keeps the length and maps each ASCII capital to its small letter, leaving other characters alone |
| `Engine.KeyRequest` | game.js:97-113 | the lower-cased key asks for up exactly when it is `arrowup` or `w`, down for `arrowdown` or `s`, left for `arrowleft` or `a`, right for `arrowright` or `d`; every other key, Enter included, asks for nothing |
| `Engine.KeyRequestIgnoresCase` | game.js:97-113 | the keyboard rule gives the same request for a key name and its lower-cased form |
| `Engine.FrameDelta` | game.js:486-491 | the delta is 0 while `lastTime` is 0, and otherwise the time since the previous frame |
| `EngineLemmas.NewGameStart` | game.js:70-84 | reset gives one head segment on (10, 10) heading right with the same buffered direction; score 0; base speed; empty accumulator; snapshot equal to the body; no effect; food off the head; `gameOver` unchanged; and the game invariant holds |
| `EngineLemmas.SteeredKeepsInv` | game.js:97-114 | an input on a running game changes only `nextDirection`, keeps the invariant, and never buffers the reverse of the current direction |
| `EngineLemmas.StepWhileOver` | game.js:234 | while the game is over, an update changes nothing |
| `EngineLemmas.StepKeepsInv` | game.js:233-307 | every update keeps the game invariant: well-formed body on the board, length = score + 1, snapshot as long as the body, food off the snake, speed fixed by the score, accumulator below the interval, no collision while running, effect time below its duration |
| `EngineLemmas.StepTiming` | game.js:236-250 | an update adds `dt` to the accumulator and the animation clock; the accumulator is zeroed exactly when a step happens and ends below the interval; without a step, nothing but the clocks and the effect changes; the head moves at most one cell |
| `EngineLemmas.StepHeadAndCollision` | game.js:253-305 | a step commits `nextDirection`; the head is on the board afterwards; on a non-eating step it is the wrapped move of the old head; the game ends exactly when the new body collides |
| `EngineLemmas.MoveStep` | game.js:289-299 | a non-eating step keeps the length and the memes; segment 0 is the new head and each later segment is on its predecessor's old cell; the snapshot is the old body; food, score and speed stay |
| `EngineLemmas.EatStep` | game.js:264-288 | an eating step moves no segment, head included; it appends one segment on the old tail's cell with the food's meme; the snapshot is the old body plus the old tail; score +1; speed one ramp step up; the effect starts; the new food is off the grown snake |
| `EngineLemmas.EatCollidesIff` | game.js:264-305 | an eating step ends the game exactly when the body had two or more segments and its tail was on the head's cell |
| `EngineLemmas.StepSpeed` | game.js:285-287 | an update never lowers the speed, and it stays within [baseSpeed, maxSpeed] |
| `EngineLemmas.InvConsequences` | game.js:233-307 | in every game state segments are on the board and off the food, the buffered direction is not the reverse of the current one, the speed is `min(maxSpeed, baseSpeed + score)`, and the render progress is below 1 |
| `EngineLemmas.TwoQuickMealsEndGame` | game.js:264-305 | from the start with food at (11, 10), a first meal leaves two segments on (10, 10) and the game running; a second meal on the next step ends the game |
| `Game.Snake.constructor` | game.js:2-20 | a new object holds the reset state with `gameOver` false and no previous frame |
| `Game.Snake.Reset` | game.js:70-84 | the fields become the reset state, with `gameOver` kept as it was |
| `Game.Snake.Restart` | game.js:89-95 | clearing `gameOver` and resetting gives the reset state of a running game |
| `Game.Snake.GenerateFood` | game.js:183-205 | the resampling loop returns the food the first free round of draws proposes, which is on the board and off the snake |
| `Game.Snake.CheckCollision` | game.js:207-216 | the loop answers true exactly when some segment at index 2 or later is on the head's cell |
| `Game.Snake.StartFoodEatenAnimation` | game.js:218-226 | the effect restarts at time 0 with a duration of 300 on the given cell and meme |
| `Game.Snake.IncreaseSpeed` | game.js:228-231 | the speed field takes one step up the capped ramp |
| `Game.Snake.RequestDirection` | game.js:97-114 | `nextDirection` becomes what the acceptance rule gives for the current direction |
| `Game.Snake.HandleKey` | game.js:88-115 | on a finished game Enter restarts and other keys change nothing; otherwise only a direction key acts, through the acceptance rule; the invariant is kept |
| `Game.Snake.HandleSwipe` | game.js:134-169 | on a finished game any swipe restarts; otherwise the swipe's direction, if any, goes through the acceptance rule; the invariant is kept |
| `Game.Snake.Update` | game.js:233-307 | the fields change exactly as one `update` call does, and the invariant is kept |
| `Game.Snake.StepOnGrid` | game.js:249-306 | the grid step zeroes the accumulator, snapshots the body and commits the direction; then it eats or moves, and ends the game on a collision |
| `Game.Snake.EatFood` | game.js:264-288 | the eating branch changes the fields exactly as the eating rule says |
| `Game.Snake.FollowHead` | game.js:289-299 | the in-place loop turns the body into its follow-the-leader shift |
| `Game.Snake.Animate` | game.js:485-497 | the frame clock becomes the current time, and the update runs with the first-frame delta rule |

The functions that define the model without a row of their own are specified by the lemma
rows above:

- `Grid.WrapCoord` and `Grid.Moved` (game.js:254-262): by `Grid.WrapCoordStep` and
  `Grid.MovedInGrid`.
- `Renderer.DrawCoord` (game.js:407-411): by `Renderer.DrawAtStart` and `Renderer.DrawAtEnd`.
- `Engine.Collides` (game.js:207-216): by `Game.Snake.CheckCollision`,
  `EngineLemmas.StepHeadAndCollision` and `EngineLemmas.EatCollidesIff`.
- `Engine.Shifted` and `Engine.Move` (game.js:289-299): by `Engine.ShiftedFollowsLeader` and
  `EngineLemmas.MoveStep`.
- `Engine.Grown` and `Engine.Eat` (game.js:264-288): by `Engine.GrownSameCells` and
  `EngineLemmas.EatStep`.
- `Engine.NewGame` (game.js:70-84): by `EngineLemmas.NewGameStart`.
- `Engine.Steered` (game.js:97-114, 147-166): by `EngineLemmas.SteeredKeepsInv`.
- `Engine.Step` and `Engine.GridStep` (game.js:233-307): by `EngineLemmas.StepKeepsInv`,
  `EngineLemmas.StepWhileOver`, `EngineLemmas.StepTiming`,
  `EngineLemmas.StepHeadAndCollision`, `EngineLemmas.MoveStep`, `EngineLemmas.EatStep` and
  `EngineLemmas.StepSpeed`.

## Left out

- Image loading and the `imagesLoaded` latch (game.js:36-68): asynchronous browser image callbacks on remote URLs.
- Canvas drawing: `drawRoundedRect`, `roundedRect`, the drawing calls in `draw`, the game-over overlay and the sinusoidal food pulse. These are canvas calls and float/trigonometric arithmetic; only the integer wrap-delta arithmetic is kept.
- The float multiplication `dx * moveProgress` in interpolation. The model states the two endpoints instead (progress 0 and the full delta).
- `resizeCanvas` and the resize listener: they depend on the window size and produce a float `cellSize`.
- DOM event registration, `preventDefault`, the `touchstart`/`touchmove` listeners, the score text writes and the `requestAnimationFrame` loop: browser plumbing. The handlers' decision rules are kept.
- Floating point in timing: the frame deltas are whole milliseconds and the accumulator is exact. The source adds fractional `deltaTime / 1000` values in doubles and compares them against `1 / speed`, so at an exact tie the source can take its step one frame later than the model. For example, ten 20 ms frames at base speed reach exactly 200 ms here and step on the 10th frame. In doubles, ten additions of 0.02 fall just below `1 / 5`, so the source steps on the 11th.
- `Math.random` itself: it is replaced by supplied draws. The full-board hang of `generateFood` is excluded by the precondition that some draw is free.
- Engine.KeyRequest: lower-cases ASCII letters only. JavaScript's `toLowerCase` is Unicode-aware, but no non-ASCII key name lower-cases to one of the handled names.
- Engine.SwipeRequest: touch coordinates are integers here. Browsers report them as CSS pixels, which may be fractional.
- Game.Snake.Update: requires the draws to contain a free round only when the step eats, because only then does it call `generateFood`. Game.Snake.Animate does the same through `update`.
