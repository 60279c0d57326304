# Snake game logic in Dafny

This project models the game-state transitions of a browser Snake game
(`game.js`). The grid is `width` x `height` cells, 20 x 20 by default. The
snake is a head-first linked chain of parts. Each tick it moves one cell along
the direction vector kept by the key handler. It grows when the cell in front
of its head holds the food. When that cell is off the grid or already part of
the snake, the whole game restarts.

Three modules:

- `Grid` (grid.dfy) holds the game as plain values. A `Cell` is a grid
  square, and a `World` is the body as a head-first `seq<Cell>` plus the food
  cell and the score. `Shift` is a plain move, `Collides` is the fatal-move
  test, `Initial` is a fresh game and `Step` is one tick. `Run` applies a
  sequence of ticks. The lemmas prove what a tick does in each branch, and
  that every tick keeps the game invariant: the segments are pairwise distinct
  and on the grid, the food is on the grid, and score = length - 1.
  `Scenarios` (also in grid.dfy) works through three concrete runs on the
  20 x 20 grid.
- `Direction` (direction.dfy) holds the key handler. `Turn` is the direction
  after a key press. `DirectionTracker` is the object whose `dx`/`dy` fields
  the handler overwrites. The handler's guard looks at the tracker's current
  vector, not at the direction the snake last moved. So one key press never
  reverses the tracker, but two presses between ticks can (`TwoKeysReverse`).
  A snake longer than one segment then runs into its own neck
  (`Scenarios.UpLeftIntoNeck`).
- `Game` (game.dfy) holds the classes of the source:
  - `SnakePart` is a linked node with fields `x`, `y` and `next`. Its ghost
    `Cells`/`Repr` give the chain as a sequence and the set of its parts.
  - `Snake` keeps the cached head coordinates `x`/`y` beside the chain.
  - `State` owns the snake, the food cell and the score.

  Each mutating method says what its object's ghost view is afterwards, in
  terms of the `Grid` definitions. `State.Valid()` includes the game
  invariant, so every `State.Update` keeps it.

Nondeterminism and the host are parameters:

- Each call that would use `Math.random()` takes the resulting food cell as an
  argument `spawn`. The argument must lie on the grid, as `Math.floor(width *
  Math.random())` always does.
- The tracker is a global in the source. Here it is an argument of
  `State.Update`, which reads its direction once per tick.
- `width` and `height` are constant fields of `State`, and both must be
  positive.

## Model

| member | source | states |
|---|---|---|
| `Game.SnakePart.constructor` | game.js:106-112 | a new part is a one-cell chain at (x, y) with no successor |
| `Game.SnakePart.Update` | game.js:122-128 | after the recursive shift, the chain's cells are the new cell followed by the old cells minus the old tail; the length and the set of parts are unchanged |
| `Game.SnakePart.IsSnake` | game.js:130-138 | true exactly when some part of the chain is on (x, y) |
| `Game.Snake.constructor` | game.js:56-61 | a new snake has one part, at (x, y), and caches (x, y) |
| `Game.Snake.Update` | game.js:63-67 | the cached head advances by (dx, dy), and the body is the old body shifted onto that cell; the cache still equals the head part's cell |
| `Game.Snake.EatFood` | game.js:69-76 | the body becomes the food cell followed by the whole old body, and the cached head is the food cell |
| `Game.Snake.IsSnake` | game.js:79-81 | true exactly when (x, y) is one of the snake's cells |
| `Game.Snake.Collision` | game.js:83-94 | true exactly when head + (dx, dy) is off the grid or on any segment, the tail included; when false, the next cell is on the grid |
| `Game.State.constructor` | game.js:19-27 | a new game is the initial state and satisfies the game invariant |
| `Game.State.Initialize` | game.js:23-27 | the state becomes a one-part snake at (width/2, height/2), the given food cell and score 0 |
| `Game.State.Reset` | game.js:43-47 | the state becomes the initial state with the given food cell |
| `Game.State.Update` | game.js:29-41 | the new state is `Step` of the old one with the tracker's direction, and the game invariant still holds |
| `Grid.Shift` | game.js:122-128 | the moved body has the same length; its head is the new cell, and every other segment holds its predecessor's old cell |
| `Grid.Initial` | game.js:23-27 | a fresh game has one segment in the middle of the grid (floor division), score 0, the given food, and satisfies the invariant |
| `Grid.Step` | game.js:29-41 | one tick never leaves the snake without a head |
| `Grid.StepBranches` | game.js:29-41 | on collision, the state is a single segment at (width/2, height/2) with score 0. On reaching the food, the length grows by 1, the new head is the food cell, the old body follows it unchanged, the score rises by exactly 1 and the food becomes the new cell. Otherwise the length, score and food are unchanged and the head moves by (dx, dy) |
| `Grid.FoodUnderBodyResets` | game.js:30-35 | collision is tested before eating, so a move onto food that lies under the body restarts the game |
| `Grid.ShiftDistinct` | game.js:122-128 | a plain move into a free cell keeps the segments pairwise distinct |
| `Grid.StepPreservesInvariant` | game.js:29-41 | one tick, with any direction, keeps the segments distinct and on the grid, the food on the grid, and score = length - 1 |
| `Grid.Run` | game.js:29-41 | a sequence of ticks never leaves the snake without a head |
| `Grid.RunPreservesInvariant` | game.js:29-41 | the game invariant holds after any number of ticks |
| `Grid.PlainMoves` | game.js:63-67 | while no tick collides or eats, a one-segment snake keeps its score and food, and its head is k*(dx, dy) from where it started |
| `Scenarios.FiveTicksRight` | game.js:23-41 | in a fresh 20 x 20 game whose food is not on the cells (11..15, 10), five ticks to the right take the head to (15, 10), with length 1 and score 0 |
| `Scenarios.EatNextToHead` | game.js:34-37 | a head at (5, 5) moving right onto food at (6, 5) becomes [(6, 5), (5, 5)], with score 1 and the next food cell |
| `Scenarios.RightWallResets` | game.js:29-32 | a head at (19, 10) moving right restarts the game at (10, 10) with score 0 |
| `Scenarios.UpLeftIntoNeck` | game.js:188-199 | a two-segment snake moving right whose player presses Up and then Left before the next tick moves into its own neck, and the game restarts |
| `Direction.Turn` | game.js:187-205 | a unit direction stays a unit direction, and a single key press never reverses it. A change happens only for Left/Right while dx == 0 or for Up/Down while dy == 0, and an accepted key points the way it names |
| `Direction.TwoKeysReverse` | game.js:188-199 | two presses between ticks can reverse the tracker: from (1, 0), Up and then Left give (-1, 0) |
| `Direction.DirectionTracker.constructor` | game.js:183-186 | a new tracker points right, (1, 0) |
| `Direction.DirectionTracker.Track` | game.js:187-205 | the new (dx, dy) is `Turn` of the old one; from a unit direction the result is a unit direction and not the opposite one |

## Left out

- Rendering: `createDom`, `draw` and `remove` of parts, snake and food, the
  score `div` and the CSS sizing. These only touch the DOM and have no
  effect on the game state.
- The `Food` class is kept as a plain `Cell` value. In the source its only
  other member is a DOM element.
- `event.preventDefault()` and `window.addEventListener` are browser wiring.
  `Track` takes a `Key` value instead of a DOM event.
- `step`, `runAnimation` and `main` are left out. They make up the frame loop,
  a floating-point time accumulator driven by `requestAnimationFrame`. `Run`
  stands in for the ticks that this loop triggers, one `State.Update` per tick.
- `Math.random()` is left out. Its results enter as the `spawn`/`food` cell
  arguments. The code keeps food neither off the snake nor away from the
  cell just eaten, since the new cell is drawn with no check. So the new food
  cell may equal the old one, and the model follows the code here.
- The module-level `scale`, `speed` and `distance` are left out. `width` and
  `height` are constant fields of `State`.
- JavaScript numbers are doubles. The model uses unbounded integers, and
  grid coordinates stay far from where doubles lose integer precision.
