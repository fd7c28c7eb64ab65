// ui/overlays/option_overlay.c: a pop-up of one header row and one to three option rows at the
// bottom of the tile grid. The cursor picks an option; SELECT hands its index to the callback
// and KEYPAD_0 hands over -1.

module OptionOverlay {
  import opened Wrappers
  import opened Cursors
  import Tiles
  import Input

  const MaxOptions: int := 3

  /** The first tile row of the overlay, `TILE_ROWS - (1 + num_options)`: its header. */
  function Top(numOptions: int): int
  {
    Tiles.TileRows - (1 + numOptions)
  }

  /** The tile row of option `y`, `y_offset + 1 + y`. */
  function RowOf(numOptions: int, y: int): (row: int)
    ensures row == Top(numOptions) + 1 + y
  {
    Tiles.TileRows - (1 + numOptions) + 1 + y
  }

  /** The options fill the bottom rows of the grid, one row each, below the header. */
  lemma OptionRows(numOptions: int, y: int, z: int)
    requires 1 <= numOptions <= MaxOptions && 0 <= y < numOptions && 0 <= z < numOptions
    ensures 0 < Top(numOptions) < RowOf(numOptions, y) < Tiles.TileRows
    ensures RowOf(numOptions, y) == RowOf(numOptions, z) <==> y == z
    ensures RowOf(numOptions, numOptions - 1) == Tiles.TileRows - 1
  {
  }

  /** What `option_overlay_draw_tile` draws on row `ty`. */
  datatype Drawn = Header(text: seq<char>) | OptionRow(index: int, highlighted: bool, caption: seq<char>) | Nothing

  /** The row drawn on `ty`: the header on the top row, option `ty - (y_offset + 1)` below it,
    * highlighted when the cursor is on it, and nothing elsewhere. */
  function RowAt(header: seq<char>, options: seq<seq<char>>, numOptions: int, cursorY: int, ty: int): (d: Drawn)
    requires numOptions <= |options|
    ensures d.Header? <==> ty == Top(numOptions)
    ensures d.OptionRow? <==> Top(numOptions) < ty <= Top(numOptions) + numOptions
    ensures d.OptionRow? ==> RowOf(numOptions, d.index) == ty && d.caption == options[d.index]
    ensures d.OptionRow? ==> (d.highlighted <==> ty == RowOf(numOptions, cursorY))
  {
    var top := Tiles.TileRows - (1 + numOptions);
    if ty == top then Header(header)
    else if ty > top && ty <= top + numOptions then
      var idx := ty - (top + 1);
      OptionRow(idx, cursorY == idx, options[idx])
    else Nothing
  }

  /** The `mark_tile_dirty` calls after the cursor moved from option `oldY` to `newY`: the old
    * option's row and, when it is another one, the new option's row, each only when it is
    * an option row. */
  function MoveMarks(numOptions: int, moved: bool, oldY: int, newY: int): seq<Tiles.Pos>
  {
    var top := Tiles.TileRows - (1 + numOptions);
    var oldRow, newRow := top + 1 + oldY, top + 1 + newY;
    if !moved then []
    else
      (if oldRow >= top + 1 && oldRow < top + 1 + numOptions then [Tiles.Pos(0, oldRow)] else []) +
      (if newRow >= top + 1 && newRow < top + 1 + numOptions && newRow != oldRow then [Tiles.Pos(0, newRow)] else [])
  }

  /** With both options on the overlay, the marks of a move are exactly the tiles whose
    * drawing changes: a tile is marked if and only if its row looks different afterwards. */
  lemma MoveMarksRedraw(header: seq<char>, options: seq<seq<char>>, numOptions: int, oldY: int, newY: int, x: int, ty: int)
    requires 1 <= numOptions <= MaxOptions && numOptions <= |options|
    requires 0 <= oldY < numOptions && 0 <= newY < numOptions
    requires 0 <= x < Tiles.TileCols && 0 <= ty < Tiles.TileRows
    ensures Tiles.Pos(x, ty) in MoveMarks(numOptions, oldY != newY, oldY, newY) <==>
      x == 0 && RowAt(header, options, numOptions, oldY, ty) != RowAt(header, options, numOptions, newY, ty)
  {
  }

  /** The argument handed to the callback: the cursor's option on SELECT, -1 on KEYPAD_0, and
    * no call for other events or without a callback. */
  function Chosen(eventType: int, cursorY: int, hasCallback: bool): (c: Option<int>)
    ensures c.Some? <==> hasCallback && (eventType == Input.SELECT || eventType == Input.KEYPAD_0)
    ensures c.Some? && eventType == Input.SELECT ==> c.value == cursorY
    ensures c.Some? && eventType == Input.KEYPAD_0 ==> c.value == -1
  {
    if eventType == Input.SELECT then (if hasCallback then Some(cursorY) else None)
    else if eventType == Input.KEYPAD_0 then (if hasCallback then Some(-1) else None)
    else None
  }

  /** `OptionOverlayState`; `hasCallback` tells whether `callback` is non-NULL. The user data
    * is handed to the callback unchanged and is left out. */
  class Overlay {
    var header: seq<char>
    var options: seq<seq<char>>
    var numOptions: int
    const cursor: Cursor
    var hasCallback: bool
    var mounted: bool

    /** Between calls the cursor stays in column 0 on one of the options. */
    ghost predicate Valid()
      reads this, cursor
    {
      1 <= numOptions <= MaxOptions && numOptions <= |options| &&
      cursor.x == 0 && cursor.maxX == 1 && cursor.maxY == numOptions - 1 &&
      0 <= cursor.y <= cursor.maxY
    }

    /** The state `option_overlay_page_create` fills in. */
    constructor (header: seq<char>, options: seq<seq<char>>, numOptions: int, hasCallback: bool)
      requires 1 <= numOptions <= MaxOptions && numOptions <= |options|
      ensures Valid() && fresh(cursor)
      ensures this.header == header && this.options == options && this.numOptions == numOptions
      ensures this.hasCallback == hasCallback && !mounted
      ensures cursor.y == 0 && cursor.selected == 0
    {
      this.header, this.options, this.numOptions := header, options, numOptions;
      cursor := new Cursor(1, numOptions - 1);
      this.hasCallback := hasCallback;
      mounted := false;
    }

    /** `option_overlay_handle_input(self, event_type)`: UP and DOWN move the cursor one option,
      * clamped to the options; a move marks the rows that change; SELECT and KEYPAD_0 call
      * the callback, whose argument is returned. */
    method HandleInput(eventType: int, grid: Tiles.TileGrid) returns (called: Option<int>)
      requires Valid() && grid.Valid()
      modifies cursor, grid.dirty
      ensures Valid()
      ensures cursor.y == (if eventType == Input.DPAD_UP then Clamp(old(cursor.y) - 1, numOptions - 1)
                           else if eventType == Input.DPAD_DOWN then Clamp(old(cursor.y) + 1, numOptions - 1)
                           else old(cursor.y))
      ensures cursor.selected == old(cursor.selected)
      ensures grid.Dirty() == Tiles.MarkedAll(old(grid.Dirty()), MoveMarks(numOptions, cursor.y != old(cursor.y), old(cursor.y), cursor.y))
      ensures called == Chosen(eventType, cursor.y, hasCallback)
    {
      var moved, oldX, oldY := false, cursor.x, cursor.y;
      if eventType == Input.DPAD_UP {
        moved, oldX, oldY := cursor.Move(0, -1);
      } else if eventType == Input.DPAD_DOWN {
        moved, oldX, oldY := cursor.Move(0, 1);
      }
      if moved {
        // the `mark_tile_dirty` calls for the old and the new row
        grid.MarkAll(MoveMarks(numOptions, true, oldY, cursor.y));
      }
      called := None;
      if eventType == Input.SELECT {
        if hasCallback {
          called := Some(cursor.y);
        }
      } else if eventType == Input.KEYPAD_0 {
        if hasCallback {
          called := Some(-1);
        }
      }
    }

    /** `option_overlay_draw_tile(self, tx, ty)`: clears the overlay area on the first call
      * after a reset (`cleared`), then draws row `ty`. */
    method DrawTile(tx: int, ty: int) returns (cleared: bool, drawn: Drawn)
      requires Valid()
      modifies this
      ensures header == old(header) && options == old(options) && numOptions == old(numOptions)
      ensures hasCallback == old(hasCallback) && Valid()
      ensures cleared == !old(mounted) && mounted
      ensures drawn == RowAt(header, options, numOptions, cursor.y, ty)
    {
      var height := 1 + numOptions;
      var top := Tiles.TileRows - height;
      cleared := !mounted;
      if !mounted {
        mounted := true;
      }
      drawn := Nothing;
      if ty == top {
        drawn := Header(header);
      }
      if ty > top && ty <= top + numOptions {
        var idx := ty - (top + 1);
        if idx >= 0 && idx < numOptions {
          drawn := OptionRow(idx, cursor.y == idx, options[idx]);
        }
      }
    }

    /** `option_overlay_reset`: the cursor back on the first option with its bounds, nothing
      * mounted, and the whole grid marked dirty. */
    method Reset(grid: Tiles.TileGrid)
      requires Valid() && grid.Valid()
      modifies this, cursor, grid.dirty
      ensures Valid() && cursor.y == 0 && cursor.selected == 0 && !mounted
      ensures numOptions == old(numOptions) && options == old(options) && header == old(header)
      ensures hasCallback == old(hasCallback)
      ensures grid.Dirty() == Tiles.AllTiles()
    {
      cursor.x := 0;
      cursor.y := 0;
      cursor.maxX := 1;
      cursor.maxY := numOptions - 1;
      cursor.selected := 0;
      mounted := false;
      grid.MarkAllTilesDirty();
    }
  }

  /** `option_overlay_page_create`: no page unless there are one to three options. */
  method Create(header: seq<char>, options: seq<seq<char>>, numOptions: int, hasCallback: bool)
    returns (page: Option<Overlay>)
    requires 1 <= numOptions <= MaxOptions ==> numOptions <= |options|
    ensures page.None? <==> numOptions < 1 || numOptions > MaxOptions
    ensures page.Some? ==> fresh(page.value) && page.value.Valid() && !page.value.mounted
    ensures page.Some? ==> page.value.cursor.y == 0 && page.value.numOptions == numOptions
  {
    if numOptions < 1 || numOptions > MaxOptions {
      return None;
    }
    var o := new Overlay(header, options, numOptions, hasCallback);
    return Some(o);
  }
}
