// ui/pages/menu.c: the main menu. Each entry takes two tile rows; every input moves the
// highlight down one entry, wrapping to the top, and marks the rows that change.

module Menu {
  import opened Wrappers
  import Arith
  import Tiles

  /** `menu_items`. */
  const Items: seq<seq<char>> := ["Phone", "SMS", "Contacts", "Clock", "Calculator", "Calendar", "Settings"]

  /** The values `selected_index` takes: the even rows of the grid. */
  predicate Selectable(i: int)
  {
    0 <= i < Tiles.TileRows && i % 2 == 0
  }

  /** `handle_input`'s update: two rows down, back to 0 past the grid or on an odd row. (C's
    * `%` and Dafny's differ in sign on negative operands, never in being zero.) */
  function Next(i: int): (n: int)
    ensures 0 <= i ==> Selectable(n)
    ensures Selectable(i) ==> n == (i + 2) % 10
  {
    var s := i + 2;
    if s >= Tiles.TileRows || s % 2 != 0 then 0 else s
  }

  /** `selected_index` after `n` inputs from start-up. */
  function Presses(n: nat): int
  {
    if n == 0 then 0 else Next(Presses(n - 1))
  }

  /** The highlight cycles through rows 0, 2, 4, 6, 8. */
  lemma {:induction false} PressesCycle(n: nat)
    ensures Presses(n) == 2 * (n % 5)
  {
    if n > 0 {
      PressesCycle(n - 1);
      var a := (n - 1) % 5;
      Arith.ModSucc(n, 5);
      var b := n % 5;
      assert b == (a + 1) % 5;
      var p := Presses(n - 1);
      assert Selectable(p) && Presses(n) == Next(p);
      if a < 4 {
        Arith.DivUnique(a + 1, 5, 0, a + 1);
        Arith.DivUnique(p + 2, 10, 0, p + 2);
        assert Presses(n) == 2 * b;
      } else {
        Arith.DivUnique(a + 1, 5, 1, 0);
        Arith.DivUnique(p + 2, 10, 1, 0);
        assert Presses(n) == 2 * b;
      }
    }
  }

  /** Five entries are ever highlighted: "Calendar" and "Settings" never are. */
  lemma NeverHighlighted(n: nat)
    ensures 0 <= Presses(n) / 2 < 5
    ensures Items[Presses(n) / 2] != "Calendar" && Items[Presses(n) / 2] != "Settings"
  {
    PressesCycle(n);
  }

  /** The `mark_tile_dirty` calls of `handle_input`: both rows of the prev and of the cur
    * entry, when the index changed. */
  function Marks(prev: int, cur: int): seq<Tiles.Pos>
  {
    if prev != cur then [Tiles.Pos(0, prev), Tiles.Pos(0, prev + 1), Tiles.Pos(0, cur), Tiles.Pos(0, cur + 1)]
    else []
  }

  /** A call of `draw_menu_row(tile_y, selected, text)`. */
  datatype RowCall = RowCall(tileY: int, selected: bool, text: seq<char>)

  /** `draw_tile(tile_x, tile_y)` on a tile of the grid: column 0 redraws the entry the row
    * belongs to, an odd row being the lower half of the entry above it; other columns draw
    * nothing. */
  function DrawTile(x: int, y: int, selected: int): (r: Option<RowCall>)
    requires 0 <= y < Tiles.TileRows
    ensures r.Some? <==> x == 0
    ensures r.Some? ==> r.value.tileY % 2 == 0 && y - 1 <= r.value.tileY <= y
    ensures r.Some? ==> (r.value.selected <==> r.value.tileY == selected)
    ensures r.Some? ==> r.value.text == Items[r.value.tileY / 2]
  {
    if x == 0 then
      var base := if y % 2 == 0 then y else y - 1;
      Some(RowCall(base, base == selected, Items[base / 2]))
    else None
  }

  /** The marks of one input are exactly the grid tiles whose redraw changes: a tile is marked
    * if and only if its highlight differs between the prev and the cur index. */
  lemma MarksAreHighlightChanges(prev: int, x: int, y: int)
    requires Selectable(prev) && 0 <= x < Tiles.TileCols && 0 <= y < Tiles.TileRows
    ensures var cur := Next(prev);
      Tiles.Pos(x, y) in Marks(prev, cur) <==> DrawTile(x, y, prev) != DrawTile(x, y, cur)
  {
  }

  /** What the marks of one input leave dirty: the prev entry's rows and the cur entry's rows,
    * as far as they lie on the grid. */
  lemma MarkedRows(d: set<Tiles.Pos>, prev: int)
    requires Selectable(prev)
    ensures var cur := Next(prev);
      Tiles.MarkedAll(d, Marks(prev, cur)) ==
        d + set p | p in Marks(prev, cur) && 0 <= p.y < Tiles.TileRows
  {
    Tiles.MarkedAllIs(d, Marks(prev, Next(prev)));
  }

  /** The `draw_menu_row` calls of `draw`'s loop over the first `n` tile indices: each index
    * in column 0 draws its row, with the entry at half the row. */
  function DrawnRows(n: nat, selected: int): (rows: seq<RowCall>)
    requires n <= 8 * 14
    ensures |rows| == (n + 7) / 8
  {
    seq((n + 7) / 8, ty requires 0 <= ty < (n + 7) / 8 => RowCall(ty, ty == selected, Items[ty / 2]))
  }

  /** One more index adds a row exactly when it starts a row of the grid. */
  lemma DrawnRowsStep(n: nat)
    requires n < 8 * 14
    ensures (n + 8) / 8 == (n + 7) / 8 + (if n % 8 == 0 then 1 else 0)
  {
    var q, r := n / 8, n % 8;
    if r == 0 {
      Arith.DivUnique(n + 8, 8, q + 1, 0);
      Arith.DivUnique(n + 7, 8, q, 7);
    } else {
      Arith.DivUnique(n + 8, 8, q + 1, r);
      Arith.DivUnique(n + 7, 8, q + 1, r - 1);
    }
  }

  /** As written, `draw` visits `TILE_ROWS * TILE_ROWS` = 81 indices: it draws rows 9 and 10,
    * below the 9-row grid, row 10 with "Calendar". */
  lemma DrawLeavesGrid(selected: int)
    ensures var rows := DrawnRows(Tiles.TileRows * Tiles.TileRows, selected);
      |rows| == 11 && rows[10] == RowCall(10, 10 == selected, "Calendar") && rows[10].tileY >= Tiles.TileRows
  {
  }

  /** Over the `TILE_ROWS * TILE_COLS` tiles of the grid, `draw` draws each row once, in
    * order, and no row outside the grid. */
  lemma DrawStaysInGrid(selected: int)
    ensures var rows := DrawnRows(Tiles.TileRows * Tiles.TileCols, selected);
      |rows| == Tiles.TileRows && forall ty :: 0 <= ty < |rows| ==> rows[ty].tileY == ty
  {
  }

  /** The page's static `selected_index`. */
  class Menu {
    var selectedIndex: int

    /** Start-up: the first entry is highlighted. */
    constructor ()
      ensures selectedIndex == 0
    {
      selectedIndex := 0;
    }

    /** `handle_input(event_type, x, y)`: whatever the event, the highlight moves on one entry,
      * and the rows of the entry left and of the entry reached are marked dirty. */
    method HandleInput(eventType: int, grid: Tiles.TileGrid)
      requires grid.Valid()
      modifies this, grid.dirty
      ensures selectedIndex == Next(old(selectedIndex))
      ensures grid.Dirty() == Tiles.MarkedAll(old(grid.Dirty()), Marks(old(selectedIndex), selectedIndex))
    {
      var oldSelected := selectedIndex;
      selectedIndex := selectedIndex + 2;
      if selectedIndex >= Tiles.TileRows || selectedIndex % 2 != 0 {
        selectedIndex := 0;
      }
      if oldSelected != selectedIndex {
        grid.MarkAll(Marks(oldSelected, selectedIndex));
      }
    }

    /** `draw`'s loop over the first `n` tile indices. */
    method DrawLoop(n: nat) returns (rows: seq<RowCall>)
      requires n <= 8 * 14
      ensures rows == DrawnRows(n, selectedIndex)
    {
      rows := [];
      var i := 0;
      while i < n
        invariant 0 <= i <= n
        invariant rows == DrawnRows(i, selectedIndex)
      {
        DrawnRowsStep(i);
        var tx := i % Tiles.TileCols;
        var ty := i / Tiles.TileCols;
        if tx == 0 {
          rows := rows + [RowCall(ty, ty == selectedIndex, Items[ty / 2])];
        }
        i := i + 1;
      }
    }

    /** `draw` as written: the loop runs to `TILE_ROWS * TILE_ROWS`. */
    method Draw() returns (rows: seq<RowCall>)
      ensures rows == DrawnRows(Tiles.TileRows * Tiles.TileRows, selectedIndex)
    {
      rows := DrawLoop(Tiles.TileRows * Tiles.TileRows);
    }

    /** `draw` with the loop over the `TILE_ROWS * TILE_COLS` tiles of the grid. */
    method DrawGrid() returns (rows: seq<RowCall>)
      ensures rows == DrawnRows(Tiles.TileRows * Tiles.TileCols, selectedIndex)
    {
      rows := DrawLoop(Tiles.TileRows * Tiles.TileCols);
    }
  }
}
