/** The direction tracker: the snake's current unit movement vector (dx, dy)
    and how arrow keys change it. A key is accepted only for the axis the
    tracker's current vector does not use, so a single key press never
    reverses the tracker. Two presses between ticks can: the guard looks at
    the tracker, not at the direction the snake last moved. */
module Direction {

  /** A key event as the tracker sees it; `Other` stands for every key that is
      not an arrow key. */
  datatype Key = ArrowLeft | ArrowRight | ArrowUp | ArrowDown | Other

  /** One of the four unit vectors right, left, down, up. */
  predicate IsUnit(dx: int, dy: int)
  {
    (dx == 0 && (dy == 1 || dy == -1)) || (dy == 0 && (dx == 1 || dx == -1))
  }

  /** The direction after `key` is pressed while moving along (dx, dy). */
  function Turn(dx: int, dy: int, key: Key): (r: (int, int))
    // a unit direction stays a unit direction
    ensures IsUnit(dx, dy) ==> IsUnit(r.0, r.1)
    // and is never turned into its opposite
    ensures IsUnit(dx, dy) ==> r != (-dx, -dy)
    // a change happens only on a horizontal key while dx == 0, or on a
    // vertical key while dy == 0
    ensures r != (dx, dy) ==>
      ((key == ArrowLeft || key == ArrowRight) && dx == 0) ||
      ((key == ArrowUp || key == ArrowDown) && dy == 0)
    // an accepted arrow key sets the direction it names
    ensures key == ArrowLeft && dx == 0 ==> r.0 < 0
    ensures key == ArrowRight && dx == 0 ==> r.0 > 0
    ensures key == ArrowUp && dy == 0 ==> r.1 < 0
    ensures key == ArrowDown && dy == 0 ==> r.1 > 0
  {
    if key == ArrowLeft && dx == 0 then (-1, 0)
    else if key == ArrowRight && dx == 0 then (1, 0)
    else if key == ArrowUp && dy == 0 then (0, -1)
    else if key == ArrowDown && dy == 0 then (0, 1)
    else (dx, dy)
  }

  /** Two presses before the next tick do reverse the tracker: moving right,
      Up is accepted (dx is 0 afterwards) and then Left is accepted. */
  lemma TwoKeysReverse()
    ensures var (ux, uy) := Turn(1, 0, ArrowUp); Turn(ux, uy, ArrowLeft) == (-1, 0)
  {
  }

  /** The tracker object whose fields the key handler overwrites. */
  class DirectionTracker {
    var dx: int
    var dy: int

    /** A new tracker points right. */
    constructor ()
      ensures dx == 1 && dy == 0
      ensures IsUnit(dx, dy)
    {
      dx := 1;
      dy := 0;
    }

    /** The keydown handler. */
    method Track(key: Key)
      modifies this
      ensures (dx, dy) == Turn(old(dx), old(dy), key)
      ensures IsUnit(old(dx), old(dy)) ==> IsUnit(dx, dy) && (dx, dy) != (-old(dx), -old(dy))
    {
      if key == ArrowLeft && dx == 0 {
        dx := -1;
        dy := 0;
      } else if key == ArrowRight && dx == 0 {
        dx := 1;
        dy := 0;
      } else if key == ArrowUp && dy == 0 {
        dx := 0;
        dy := -1;
      } else if key == ArrowDown && dy == 0 {
        dx := 0;
        dy := 1;
      }
    }
  }
}
