# Snake engine model

This is a Dafny model of the simulation engine of the snake game in `App.tsx`. The engine is a
bundle of mutable state inside a React component: the body (head first), the food cell, two
directions, the session status, the score, the best score and the tick interval. Event handlers
overwrite that state:

- the timer tick `moveSnake` moves the snake;
- `handleDirectionChange` filters direction input;
- `togglePause`, `resetGame` and `gameOver` drive the status lifecycle Idle / Playing / Paused / GameOver;
- the keyboard handler and the on-screen direction pad route input;
- `spawnFood` places food by rejection sampling.

Two directions exist side by side. The *pending* direction (`directionRef`) is the latest input
that was accepted. The *committed* direction (`lastProcessedDirectionRef`) is the one the last
tick applied. A tick copies pending into committed. An input is refused when it reverses the
committed direction; the pending one is never consulted.

Modules:

- `types.dfy` (`Types`): directions, statuses, cells.
- `grid.dfy` (`Grid`): the board, the one-cell step for each direction, the 180-degree test, and
  the cell counting behind the pigeonhole lemma `FreeCellExists`.
- `rules.dfy` (`Rules`): the pure outcome of one tick (`NextMove`), the body invariants, and the
  interval rule (`NextSpeed`).
- `food.dfy` (`Food`): the rejection-sampling loop `SpawnFood`, a method with loop invariants.
- `engine.dfy` (`Engine`): the class `SnakeGame`. It holds the fields `snake`, `food`, `pending`,
  `committed`, `status`, `score`, `highScore` and `speed`, and has one method per handler. Every
  method keeps the invariant `Valid()` and states its whole new state through `Snapshot()`.

The constants `GRID_SIZE`, `INITIAL_SNAKE`, `INITIAL_DIRECTION`, `INITIAL_SPEED`, `MIN_SPEED` and
`SPEED_DECREMENT` are imported by `App.tsx`, but `constants.ts` does not define most of them. Its
`GRID_SIZE = 9` belongs to another game. The model therefore takes them as a `Config` value given
to the constructor. `ConfigOk` lists what is assumed of them:

- the initial snake is non-empty, on the board and has no repeated cell;
- it leaves at least one board cell free;
- `MIN_SPEED <= INITIAL_SPEED`;
- `SPEED_DECREMENT >= 0`.

`Math.random` is replaced by a stream `draw: nat -> Coord`: `draw(k)` is the cell that the k-th
call of `getRandomCoordinate` would produce. `Sampler(draw, size)` assumes two things: every draw
lies on the board, and every board cell is drawn sooner or later. The first is what puts every
respawned food on the board; the second is what makes the sampling loop end.

Three behaviours of the code worth knowing:

- An arrow key pressed while Idle only starts the game. The handler reads `status` as it was
  when the key arrived, so the arrow's direction is not applied. The on-screen pad applies its
  direction in every status, Paused and GameOver included.
- The first session's food is the fixed cell (5, 5), and it is not respawned. It can therefore
  lie under the initial snake. "Food is clear of the snake" (`FoodClear`) is kept as a separate
  property: `Reset` establishes it and `Tick` preserves it. It is not part of `Valid()`.
- A move onto the cell the tail still occupies is a collision (`TailIsSolid`).

## Model

| member | source | states |
|---|---|---|
| Grid.Opposite | App.tsx:133-137 | the 180-degree test holds exactly when the new direction is the reverse of the last; it is symmetric and never holds for equal directions |
| Grid.InGrid | App.tsx:83-88 | a cell passes the wall test exactly when it is one of the board cells that the pigeonhole count enumerates |
| Grid.Step | App.tsx:73-80 | the new head is an edge neighbour of the old one; UP and DOWN keep x, LEFT and RIGHT change it |
| Grid.StepReverse | App.tsx:75-80 | stepping back the reverse way returns to the start cell; distinct directions reach distinct cells |
| Grid.FreeCellExists | App.tsx:50-56 | a body with fewer segments than the board has cells leaves some board cell uncovered, so food can be placed |
| Rules.NextMove | App.tsx:69-111 | after a non-fatal tick the body starts with the new head, one step along the committed direction, followed by a prefix of the old body: the whole old body when eating, and a body of unchanged length when not; FatalIff and MoveShape state when each outcome happens |
| Rules.FatalIff | App.tsx:82-97 | a tick is fatal exactly when the new head leaves the board or lands on any cell of the pre-move body; the wall case is exactly the off-board case |
| Rules.TailIsSolid | App.tsx:93-97 | landing on the cell the tail still occupies is a self-collision, although that cell would be vacated by the move |
| Rules.MoveShape | App.tsx:99-111 | after a non-fatal tick the body is the new head (on the board, not on the old body) followed by the old body; it keeps its length, or grows by one exactly when the head reaches the food |
| Rules.NewHeadKeepsWellFormed | App.tsx:99-108 | a free board cell in front of a non-empty, on-board, duplicate-free body, with or without its tail, gives again such a body |
| Rules.MoveKeepsWellFormed | App.tsx:83-111 | a non-fatal tick keeps the body non-empty, on the board and duplicate-free |
| Rules.MoveKeepsChain | App.tsx:99-111 | a non-fatal tick keeps a body whose consecutive segments share an edge that way |
| Rules.SlideKeepsFoodClear | App.tsx:99-108 | a tick that does not eat never moves the body onto food that was clear of it |
| Rules.NextSpeed | App.tsx:104 | the interval after eating is at least both the floor and the lowered value, and is one of the two, so it is their maximum; it never rises above the previous interval |
| Rules.SpeedAfterClosedForm | App.tsx:104 | after n foods the interval is the start value minus n decrements, floored at the minimum |
| Rules.ScenarioSlideUp | App.tsx:67-111 | snake (10,10),(10,11),(10,12) moving UP on a 20-cell board gets head (10,9) and drops (10,12) |
| Rules.ScenarioWall | App.tsx:82-91 | a head at (0,5) moving LEFT hits the wall |
| Rules.ScenarioEat | App.tsx:99-106 | a three-segment snake whose head reaches the food grows to four segments |
| Food.SpawnFood | App.tsx:50-56 | the returned food is not on the given body, and it is the first draw in the stream that is free |
| Food.SamplerFindsFree | App.tsx:43-56 | with a fair sampler and a free board cell, some draw is free, so the sampling loop ends |
| Engine.Toggled | App.tsx:169-172 | the toggle pauses exactly a Playing session, leads to GameOver exactly from GameOver, and never leads to Idle |
| Engine.ToggleTable | App.tsx:169-172 | toggling twice undoes a pause or a resume |
| Engine.Best | App.tsx:61-64 | the best score after a session is at least both the score and the old best, and stays the old best exactly when the score does not beat it |
| Engine.Steer | App.tsx:129-143 | an input replaces the pending direction unless it reverses the committed one; a pending direction that does not reverse the committed one stays that way |
| Engine.SteerAll | App.tsx:129-143 | after a run of inputs between two ticks, the pending direction is the old one or one of the inputs, and it is the last input whenever that input does not reverse the committed direction |
| Engine.NoReversalBetweenTicks | App.tsx:129-143 | whatever inputs arrive between two ticks, the direction the next tick applies never reverses the committed one |
| Engine.DoubleTurnRejected | App.tsx:129-143 | after moving UP, the quick inputs LEFT then DOWN leave LEFT pending: DOWN is checked against the committed UP |
| Engine.SnakeGame.constructor | App.tsx:23-33 | a new engine is Idle with the initial snake, food at (5,5), both directions initial, score 0, the initial interval and the stored best score |
| Engine.SnakeGame.EndGame | App.tsx:59-65 | the status becomes GameOver, and the best score is raised to the score only if the score beats it |
| Engine.SnakeGame.Tick | App.tsx:67-113 | the pending direction is committed and never reverses the previous one; a fatal move gives GameOver with body, food, score and interval unchanged; otherwise the body is the one NextMove gives, and on eating the score rises by one, the interval follows NextSpeed, and the food is the first free draw, on the board and off the grown body; the interval never rises, the best score never falls, the length changes by 0 or 1, and clear food and a connected body stay so |
| Engine.SnakeGame.Advance | App.tsx:99-111 | the new head is put in front of the body; on the food the body grows, the score rises by one, the interval follows NextSpeed and the food moves to the first free draw, on the board and off the body; otherwise the tail is dropped and nothing else changes |
| Engine.SnakeGame.ChangeDirection | App.tsx:129-143 | only the pending direction changes, and only to an input that does not reverse the committed direction |
| Engine.SnakeGame.TogglePause | App.tsx:169-172 | Playing becomes Paused, Paused and Idle become Playing, GameOver stays; nothing else changes |
| Engine.SnakeGame.Reset | App.tsx:174-183 | a new Playing session: the initial snake, both directions initial, score 0, the initial interval, food at the first draw off the initial snake, which lies on the board; the best score is kept |
| Engine.SnakeGame.KeyDown | App.tsx:145-161 | Space resets an ended session and toggles any other; an arrow starts an Idle session without steering it, steers a Playing one through Steer, and is ignored while Paused or GameOver; other keys change nothing |
| Engine.SnakeGame.DirectionPad | App.tsx:208-211 | the pad starts an Idle session and steers through Steer in every status |

## Left out

- Timing: the `setInterval`/`clearInterval` loop and the React effect plumbing (App.tsx:115-126, 163-166). Each tick is one call of `Tick` while the session is Playing, which is why `Tick` requires that status. `speed` is kept only as a number.
- Persistence: the `localStorage` read (App.tsx:37-40) becomes the constructor's `storedBest` argument, with zero when nothing is stored. The write in `gameOver` is not modelled; the best score is a plain field.
- Randomness: `getRandomCoordinate` (App.tsx:43-48) becomes the draw stream. Uniformity is not modelled, only that draws stay on the board and reach every cell.
- Engine.SnakeGame.Tick: requires that an eating move leaves the grown snake short of filling the board. Once the snake covers every cell, the source's `spawnFood` never returns, so that case has no outcome to model.
- The `direction` React state (App.tsx:25, 140, 176) is written alongside `directionRef` and never read by the logic, so it is not a separate field.
- `KEY_CODES` (the key-code to key-name table) is not defined in the files modelled. `KeyDown` takes the decoded key name as a `Key`. `preventDefault` is not modelled.
- The constants' actual values are unknown; `ConfigOk` lists what is assumed of them.
- JavaScript numbers are modelled as unbounded integers. Coordinates, scores and intervals stay far from any precision limit.
- React may run a `setSnake` updater more than once; the model runs each handler exactly once.
- The whack game: `constants.ts` and `types.ts` give only its constants and state shape, with no engine code to model.
- Rendering (App.tsx:185-224, components/GameBoard.tsx, components/Controls.tsx), sound (services/audioService.ts) and the commentary request to an external text service (services/geminiService.ts, components/GameOverModal.tsx) are I/O and UI.
