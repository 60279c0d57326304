/** The game objects of the Snake game: the linked chain of snake parts, the
    snake with its cached head coordinates, and the game state that runs one
    tick at a time. Each class keeps a ghost view of its contents and is
    proved to follow the value-level definitions in module Grid. */
module Game {
  import opened Grid
  import opened Direction

  /** One segment of the snake and the rest of the chain behind it. `Cells`
      is the head-first list of the cells of this part and every part after
      it; `Repr` is the set of parts in the chain. */
  class SnakePart {
    var x: int
    var y: int
    var next: SnakePart?
    ghost var Cells: seq<Cell>
    ghost var Repr: set<object>

    ghost predicate Valid()
      reads this, Repr
      ensures Valid() ==> this in Repr && |Cells| > 0 && Cells[0] == Cell(x, y)
      decreases Repr
    {
      && this in Repr
      && (next == null ==> Cells == [Cell(x, y)])
      && (next != null ==>
            && next in Repr && next.Repr <= Repr && this !in next.Repr
            && next.Valid()
            && Cells == [Cell(x, y)] + next.Cells)
    }

    /** A chain of one part. */
    constructor (x: int, y: int)
      ensures Valid() && fresh(Repr)
      ensures Cells == [Cell(x, y)] && Repr == {this}
      ensures this.x == x && this.y == y && next == null
    {
      this.x := x;
      this.y := y;
      next := null;
      Cells := [Cell(x, y)];
      Repr := {this};
    }

    /** Moves the chain so that this part lands on (nx, ny): the rest of the
        chain first takes this part's old cell, recursively, and the old tail
        cell is given up. */
    method Update(nx: int, ny: int)
      requires Valid()
      modifies Repr
      ensures Valid() && Repr == old(Repr)
      ensures Cells == Shift(old(Cells), Cell(nx, ny))
      decreases Repr
    {
      if next != null {
        next.Update(x, y);
      }
      x := nx;
      y := ny;
      if next == null {
        Cells := [Cell(x, y)];
      } else {
        Cells := [Cell(x, y)] + next.Cells;
        assert Cells == Shift(old(Cells), Cell(nx, ny)) by {
          assert old(Cells) == [old(Cell(x, y))] + old(next.Cells);
        }
      }
    }

    /** Whether some part of this chain sits on (cx, cy). */
    function IsSnake(cx: int, cy: int): (r: bool)
      requires Valid()
      reads Repr
      ensures r <==> Cell(cx, cy) in Cells
      decreases Repr
    {
      if x == cx && y == cy then true
      else if next != null then next.IsSnake(cx, cy)
      else false
    }
  }

  /** The snake: its chain of parts and, beside it, the head's coordinates. */
  class Snake {
    var x: int
    var y: int
    var head: SnakePart
    ghost var Repr: set<object>

    ghost predicate Valid()
      reads this, Repr
      ensures Valid() ==> this in Repr && |Body()| > 0
    {
      && this in Repr && head in Repr && Repr == {this} + head.Repr
      && this !in head.Repr && head.Valid()
      && head.Cells[0] == Cell(x, y)
    }

    /** The cells of the snake, head first. */
    ghost function Body(): seq<Cell>
      reads this, head
    {
      head.Cells
    }

    /** A one-part snake at (x, y). */
    constructor (x: int, y: int)
      ensures Valid() && fresh(Repr)
      ensures Body() == [Cell(x, y)] && this.x == x && this.y == y
    {
      this.x := x;
      this.y := y;
      head := new SnakePart(x, y);
      new;
      Repr := {this} + head.Repr;
    }

    /** A plain move along (dx, dy): the head's coordinates advance and the
        chain shifts behind the new head. */
    method Update(dx: int, dy: int)
      requires Valid()
      modifies Repr
      ensures Valid() && Repr == old(Repr)
      ensures x == old(x) + dx && y == old(y) + dy
      ensures Body() == Shift(old(Body()), Cell(x, y))
    {
      x := x + dx;
      y := y + dy;
      head.Update(x, y);
    }

    /** Growth: a new part on the food cell becomes the head, and the whole
        old chain stays behind it. */
    method EatFood(food: Cell)
      requires Valid()
      modifies Repr
      ensures Valid() && fresh(Repr - old(Repr))
      ensures Body() == [food] + old(Body())
      ensures Cell(x, y) == food
    {
      var newHead := new SnakePart(food.x, food.y);
      newHead.next := head;
      newHead.Cells := [Cell(food.x, food.y)] + head.Cells;
      newHead.Repr := {newHead} + head.Repr;
      head := newHead;
      x := head.x;
      y := head.y;
      Repr := {this} + head.Repr;
    }

    /** Whether some part of the snake sits on (cx, cy). */
    function IsSnake(cx: int, cy: int): (r: bool)
      requires Valid()
      reads Repr
      ensures r <==> Cell(cx, cy) in Body()
    {
      head.IsSnake(cx, cy)
    }

    /** Whether the next move along (dx, dy) is fatal: the cell it reaches is
        off the grid or already part of the snake, the tail included. */
    function Collision(dx: int, dy: int, width: int, height: int): (r: bool)
      requires Valid()
      reads Repr
      ensures r <==> Collides(Body(), Next(Body()[0], dx, dy), width, height)
      ensures !r ==> 0 <= x + dx < width && 0 <= y + dy < height
    {
      var nextX := x + dx;
      var nextY := y + dy;
      if (nextX < 0 || nextX >= width) || (nextY < 0 || nextY >= height) then true
      else if IsSnake(nextX, nextY) then true
      else false
    }
  }

  /** The game: the snake, the food cell and the score on a fixed grid. */
  class State {
    const width: int
    const height: int
    var snake: Snake
    var food: Cell
    var score: int
    ghost var Repr: set<object>

    ghost predicate Valid()
      reads this, Repr
    {
      && this in Repr && snake in Repr && Repr == {this} + snake.Repr
      && this !in snake.Repr && snake.Valid()
      && Invariant(View(), width, height)
    }

    /** The game state as a value. */
    ghost function View(): World
      reads this, snake, snake.head
    {
      World(snake.head.Cells, food, score)
    }

    /** A new game on a width x height grid; `food` is the first food cell. */
    constructor (width: int, height: int, food: Cell)
      requires width > 0 && height > 0 && InBounds(food, width, height)
      ensures Valid() && fresh(Repr)
      ensures this.width == width && this.height == height
      ensures View() == Initial(width, height, food)
    {
      this.width := width;
      this.height := height;
      snake := new Snake(width / 2, height / 2);
      this.food := food;
      score := 0;
      new;
      Repr := {this} + snake.Repr;
    }

    /** Starts over: a fresh one-part snake in the middle of the grid, the
        given food cell and score 0. */
    method Initialize(food: Cell)
      requires width > 0 && height > 0 && InBounds(food, width, height)
      modifies this
      ensures Valid() && fresh(Repr - {this})
      ensures View() == Initial(width, height, food)
    {
      snake := new Snake(width / 2, height / 2);
      this.food := food;
      score := 0;
      Repr := {this} + snake.Repr;
    }

    /** Throws away the snake and the food and starts over. */
    method Reset(food: Cell)
      requires Valid() && InBounds(food, width, height)
      modifies Repr
      ensures Valid() && fresh(Repr - old(Repr))
      ensures View() == Initial(width, height, food)
    {
      Initialize(food);
    }

    /** One tick, reading the tracker's direction once. `spawn` is the cell
        the random food generator yields; it becomes the food cell when the
        snake eats or the game restarts. */
    method Update(tracker: DirectionTracker, spawn: Cell)
      requires Valid() && InBounds(spawn, width, height)
      modifies Repr
      ensures Valid() && fresh(Repr - old(Repr))
      ensures View() == Step(old(View()), old(tracker.dx), old(tracker.dy), spawn, width, height)
    {
      var dx, dy := tracker.dx, tracker.dy;
      ghost var g := View();
      StepPreservesInvariant(g, dx, dy, spawn, width, height);
      if snake.Collision(dx, dy, width, height) {
        Reset(spawn);
      } else if snake.x + dx == food.x && snake.y + dy == food.y {
        snake.EatFood(food);
        food := spawn;
        score := score + 1;
        Repr := {this} + snake.Repr;
      } else {
        snake.Update(dx, dy);
      }
    }
  }
}
