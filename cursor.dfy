// ui/cursor.c: the selection cursor of the list and grid pages, kept inside
// 0..max_x by 0..max_y.

module Cursors {
  /** One coordinate after a move: raised to 0, then lowered to `hi`. */
  function Clamp(v: int, hi: int): (r: int)
    ensures hi >= 0 ==> 0 <= r <= hi
    ensures hi >= 0 ==> (r == v <==> 0 <= v <= hi)
    ensures hi >= 0 && v < 0 ==> r == 0
    ensures v > hi ==> r == hi
    ensures hi < 0 ==> r == hi
  {
    var r := if v < 0 then 0 else v;
    if r > hi then hi else r
  }

  /** A move further in one direction never leaves the cursor behind where a shorter one would. */
  lemma ClampMonotone(v: int, w: int, hi: int)
    requires v <= w
    ensures Clamp(v, hi) <= Clamp(w, hi)
  {
  }

  /** Inside the bounds a step and the step back cancel out. */
  lemma StepBack(v: int, d: int, hi: int)
    requires 0 <= v <= hi && 0 <= v + d <= hi
    ensures Clamp(Clamp(v + d, hi) - d, hi) == v
  {
  }

  /** `Cursor`: the position, its bounds, and the `selected` flag. */
  class Cursor {
    var x: int
    var y: int
    var maxX: int
    var maxY: int
    var selected: int

    /** `cursor_init`. */
    constructor (maxX: int, maxY: int)
      ensures x == 0 && y == 0 && this.maxX == maxX && this.maxY == maxY && selected == 0
    {
      x, y := 0, 0;
      this.maxX, this.maxY := maxX, maxY;
      selected := 0;
    }

    /** `cursor_init` on an existing cursor. */
    method Init(maxX: int, maxY: int)
      modifies this
      ensures x == 0 && y == 0 && this.maxX == maxX && this.maxY == maxY && selected == 0
    {
      x := 0;
      y := 0;
      this.maxX := maxX;
      this.maxY := maxY;
      selected := 0;
    }

    /** `cursor_move(c, dx, dy, &old_x, &old_y)`: moves by (dx, dy), clamped to the bounds; gives
      * back the position before, and whether it changed. */
    method Move(dx: int, dy: int) returns (moved: bool, oldX: int, oldY: int)
      modifies this
      ensures oldX == old(x) && oldY == old(y)
      ensures x == Clamp(old(x) + dx, maxX) && y == Clamp(old(y) + dy, maxY)
      ensures maxX == old(maxX) && maxY == old(maxY) && selected == old(selected)
      ensures moved <==> x != oldX || y != oldY
    {
      oldX := x;
      oldY := y;
      x := x + dx;
      if x < 0 {
        x := 0;
      }
      if x > maxX {
        x := maxX;
      }
      y := y + dy;
      if y < 0 {
        y := 0;
      }
      if y > maxY {
        y := maxY;
      }
      moved := x != oldX || y != oldY;
    }

    /** `cursor_select`: `selected = !selected`. */
    method Select()
      modifies this
      ensures selected == if old(selected) == 0 then 1 else 0
      ensures x == old(x) && y == old(y) && maxX == old(maxX) && maxY == old(maxY)
    {
      selected := if selected == 0 then 1 else 0;
    }

    /** `cursor_reset`: back to the origin, unselected, with the bounds kept. */
    method Reset()
      modifies this
      ensures x == 0 && y == 0 && selected == 0
      ensures maxX == old(maxX) && maxY == old(maxY)
    {
      x := 0;
      y := 0;
      selected := 0;
    }
  }
}
