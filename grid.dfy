/** The game state of the Snake game as plain values: grid cells, the snake's
    body as a head-first sequence of cells, and one tick of the game as a
    function from one state to the next. The classes in module Game are proved
    to follow these definitions. */
module Grid {

  /** One square of the grid. */
  datatype Cell = Cell(x: int, y: int)

  /** The cell lies on the width x height grid. */
  predicate InBounds(c: Cell, width: int, height: int)
  {
    0 <= c.x < width && 0 <= c.y < height
  }

  /** No two segments share a cell. */
  predicate Distinct(body: seq<Cell>)
  {
    forall i, j :: 0 <= i < j < |body| ==> body[i] != body[j]
  }

  /** The cell one step from `c` along (dx, dy). */
  function Next(c: Cell, dx: int, dy: int): (n: Cell)
    ensures n.x - c.x == dx && n.y - c.y == dy
  {
    Cell(c.x + dx, c.y + dy)
  }

  /** The body after a plain move whose new head cell is `c`: every segment
      takes the cell of the segment in front of it and the old tail cell is
      dropped. */
  function Shift(body: seq<Cell>, c: Cell): (r: seq<Cell>)
    requires |body| > 0
    ensures |r| == |body| && r[0] == c
    ensures forall i :: 1 <= i < |r| ==> r[i] == body[i - 1]
  {
    [c] + body[..|body| - 1]
  }

  /** A move into `c` is fatal: `c` is off the grid or already holds a
      segment, the current tail included. */
  predicate Collides(body: seq<Cell>, c: Cell, width: int, height: int)
  {
    !InBounds(c, width, height) || c in body
  }

  /** Everything the game logic keeps between two ticks. */
  datatype World = World(body: seq<Cell>, food: Cell, score: int)

  /** The invariant every reachable state keeps: a non-empty snake whose
      segments are pairwise distinct and on the grid, food on the grid, and a
      score that counts the segments grown beyond the first. */
  predicate Invariant(g: World, width: int, height: int)
  {
    && |g.body| > 0
    && Distinct(g.body)
    && (forall c :: c in g.body ==> InBounds(c, width, height))
    && InBounds(g.food, width, height)
    && g.score == |g.body| - 1
  }

  /** A fresh game: a one-segment snake in the middle of the grid, the given
      food cell, score 0. */
  function Initial(width: int, height: int, food: Cell): (g: World)
    requires width > 0 && height > 0 && InBounds(food, width, height)
    ensures Invariant(g, width, height)
    ensures |g.body| == 1 && g.score == 0 && g.food == food
    ensures 2 * g.body[0].x in {width - 1, width} && 2 * g.body[0].y in {height - 1, height}
  {
    World([Cell(width / 2, height / 2)], food, 0)
  }

  /** One tick of the game with direction (dx, dy). `spawn` is the cell the
      random food generator yields on this tick; it is used only when the
      snake eats or the game resets. */
  function Step(g: World, dx: int, dy: int, spawn: Cell, width: int, height: int): (h: World)
    requires |g.body| > 0
    requires width > 0 && height > 0 && InBounds(spawn, width, height)
    ensures |h.body| > 0
  {
    var c := Next(g.body[0], dx, dy);
    if Collides(g.body, c, width, height) then
      Initial(width, height, spawn)
    else if c == g.food then
      World([c] + g.body, spawn, g.score + 1)
    else
      World(Shift(g.body, c), g.food, g.score)
  }

  /** What one tick does, branch by branch: a collision restarts the game, a
      move onto the food grows the snake at its head and scores one point,
      any other move keeps length, score and food and advances the head by
      (dx, dy). */
  lemma StepBranches(g: World, dx: int, dy: int, spawn: Cell, width: int, height: int)
    requires |g.body| > 0
    requires width > 0 && height > 0 && InBounds(spawn, width, height)
    ensures var c, h := Next(g.body[0], dx, dy), Step(g, dx, dy, spawn, width, height);
      && (Collides(g.body, c, width, height) ==>
            h.body == [Cell(width / 2, height / 2)] && h.score == 0 && h.food == spawn)
      && (!Collides(g.body, c, width, height) && c == g.food ==>
            |h.body| == |g.body| + 1 && h.body[0] == g.food && h.body[1..] == g.body
            && h.score == g.score + 1 && h.food == spawn)
      && (!Collides(g.body, c, width, height) && c != g.food ==>
            |h.body| == |g.body| && h.body[0].x == g.body[0].x + dx && h.body[0].y == g.body[0].y + dy
            && h.body[1..] == g.body[..|g.body| - 1] && h.score == g.score && h.food == g.food)
  {
  }

  /** Food that lies under the snake is never eaten: the move onto it is a
      collision, so the game restarts instead of growing. */
  lemma FoodUnderBodyResets(g: World, dx: int, dy: int, spawn: Cell, width: int, height: int)
    requires |g.body| > 0
    requires width > 0 && height > 0 && InBounds(spawn, width, height)
    requires g.food in g.body && Next(g.body[0], dx, dy) == g.food
    ensures Step(g, dx, dy, spawn, width, height) == Initial(width, height, spawn)
  {
  }

  /** A distinct body moved into a cell it does not occupy stays distinct. */
  lemma ShiftDistinct(body: seq<Cell>, c: Cell)
    requires |body| > 0 && Distinct(body) && c !in body
    ensures Distinct(Shift(body, c))
  {
  }

  /** A tick keeps the invariant, whatever the direction. */
  lemma StepPreservesInvariant(g: World, dx: int, dy: int, spawn: Cell, width: int, height: int)
    requires Invariant(g, width, height)
    requires width > 0 && height > 0 && InBounds(spawn, width, height)
    ensures Invariant(Step(g, dx, dy, spawn, width, height), width, height)
  {
  }

  /** One game tick as the frame loop delivers it: the direction the tracker
      held at that moment and the cell the food generator would yield. */
  datatype Tick = Tick(dx: int, dy: int, spawn: Cell)

  /** The state after running the ticks in order. */
  function Run(g: World, ticks: seq<Tick>, width: int, height: int): (h: World)
    requires |g.body| > 0 && width > 0 && height > 0
    requires forall t :: t in ticks ==> InBounds(t.spawn, width, height)
    ensures |h.body| > 0
    decreases |ticks|
  {
    if ticks == [] then g
    else
      var t := ticks[0];
      Run(Step(g, t.dx, t.dy, t.spawn, width, height), ticks[1..], width, height)
  }

  /** The invariant holds after any number of ticks from a state that has it. */
  lemma {:induction false} RunPreservesInvariant(g: World, ticks: seq<Tick>, width: int, height: int)
    requires Invariant(g, width, height) && width > 0 && height > 0
    requires forall t :: t in ticks ==> InBounds(t.spawn, width, height)
    ensures Invariant(Run(g, ticks, width, height), width, height)
    decreases |ticks|
  {
    if ticks != [] {
      var t := ticks[0];
      StepPreservesInvariant(g, t.dx, t.dy, t.spawn, width, height);
      assert forall u :: u in ticks[1..] ==> u in ticks;
      RunPreservesInvariant(Step(g, t.dx, t.dy, t.spawn, width, height), ticks[1..], width, height);
    }
  }

  /** Plain moves: while no tick collides or reaches the food, the snake keeps
      its length and score and its head travels k cells along (dx, dy). */
  lemma {:induction false} PlainMoves(g: World, dx: int, dy: int, spawns: seq<Cell>, width: int, height: int)
    requires |g.body| == 1 && width > 0 && height > 0 && (dx, dy) != (0, 0)
    requires forall s :: s in spawns ==> InBounds(s, width, height)
    requires forall k :: 1 <= k <= |spawns| ==>
      var c := Next(g.body[0], k * dx, k * dy);
      InBounds(c, width, height) && c != g.food
    ensures var h := Run(g, Ticks(dx, dy, spawns), width, height);
      h.body == [Next(g.body[0], |spawns| * dx, |spawns| * dy)] && h.score == g.score && h.food == g.food
    decreases |spawns|
  {
    if spawns != [] {
      var c := Next(g.body[0], dx, dy);
      NextAfter(g.body[0], dx, dy, 0);
      var g' := World([c], g.food, g.score);
      SingleMove(g, dx, dy, spawns[0], width, height);
      assert Ticks(dx, dy, spawns)[1..] == Ticks(dx, dy, spawns[1..]);
      forall k | 1 <= k <= |spawns[1..]|
        ensures var d := Next(c, k * dx, k * dy); InBounds(d, width, height) && d != g'.food
      {
        NextAfter(g.body[0], dx, dy, k);
      }
      PlainMoves(g', dx, dy, spawns[1..], width, height);
      NextAfter(g.body[0], dx, dy, |spawns| - 1);
    }
  }

  /** Walking one cell and then k more cells is walking k + 1 cells. */
  lemma NextAfter(c: Cell, dx: int, dy: int, k: int)
    ensures Next(Next(c, dx, dy), k * dx, k * dy) == Next(c, (k + 1) * dx, (k + 1) * dy)
  {
  }

  /** A one-segment snake that moves into a free cell other than the food
      cell just moves there. */
  lemma SingleMove(g: World, dx: int, dy: int, spawn: Cell, width: int, height: int)
    requires |g.body| == 1 && (dx, dy) != (0, 0)
    requires width > 0 && height > 0 && InBounds(spawn, width, height)
    requires InBounds(Next(g.body[0], dx, dy), width, height) && Next(g.body[0], dx, dy) != g.food
    ensures Step(g, dx, dy, spawn, width, height) == World([Next(g.body[0], dx, dy)], g.food, g.score)
  {
  }

  /** Ticks that all use direction (dx, dy), one per spawn cell. */
  function Ticks(dx: int, dy: int, spawns: seq<Cell>): (ts: seq<Tick>)
    ensures |ts| == |spawns|
    ensures forall i :: 0 <= i < |ts| ==> ts[i] == Tick(dx, dy, spawns[i])
  {
    seq(|spawns|, i requires 0 <= i < |spawns| => Tick(dx, dy, spawns[i]))
  }
}

/** Concrete runs on the default 20 x 20 grid. */
module Scenarios {
  import opened Grid
  import opened Direction

  /** From a fresh game, five ticks to the right with the food off the
      middle row bring the head from (10, 10) to (15, 10); nothing grows. */
  lemma FiveTicksRight(food: Cell, spawns: seq<Cell>)
    requires InBounds(food, 20, 20) && !(food.y == 10 && 11 <= food.x <= 15)
    requires |spawns| == 5 && forall s :: s in spawns ==> InBounds(s, 20, 20)
    ensures var h := Run(Initial(20, 20, food), Ticks(1, 0, spawns), 20, 20);
      h.body == [Cell(15, 10)] && h.score == 0 && h.food == food
  {
    PlainMoves(Initial(20, 20, food), 1, 0, spawns, 20, 20);
  }

  /** A head at (5, 5) moving right onto food at (6, 5) grows to two
      segments, scores one point and takes the next food cell. */
  lemma EatNextToHead(spawn: Cell)
    requires InBounds(spawn, 20, 20)
    ensures Step(World([Cell(5, 5)], Cell(6, 5), 0), 1, 0, spawn, 20, 20)
      == World([Cell(6, 5), Cell(5, 5)], spawn, 1)
  {
  }

  /** A head at (19, 10) moving right leaves the grid, so the game restarts
      with score 0. */
  lemma RightWallResets(body: seq<Cell>, food: Cell, score: int, spawn: Cell)
    requires |body| > 0 && body[0] == Cell(19, 10) && InBounds(spawn, 20, 20)
    ensures Step(World(body, food, score), 1, 0, spawn, 20, 20) == World([Cell(10, 10)], spawn, 0)
  {
  }

  /** A snake of two segments moving right whose player presses Up and then
      Left before the next tick moves into its own neck, and the game
      restarts. */
  lemma UpLeftIntoNeck(spawn: Cell)
    requires InBounds(spawn, 20, 20)
    ensures var (ux, uy) := Turn(1, 0, ArrowUp);
      var (dx, dy) := Turn(ux, uy, ArrowLeft);
      Step(World([Cell(5, 5), Cell(4, 5)], Cell(0, 0), 1), dx, dy, spawn, 20, 20) == Initial(20, 20, spawn)
  {
  }
}
