// ui/pages/games/sweeper.c: minesweeper on the 8 by 9 tile grid. The first SELECT lays 20
// mines away from the cursor and reveals its cell; later SELECTs reveal, KEYPAD_2 flags, and
// the game is won once every mine is flagged and every other cell revealed.
//
// Every neighbour loop of the file counts a `uint8_t` from -1, that is from 255, while it is
// below 2, so none of them ever runs: mines are never counted into their neighbours, and a
// reveal never spreads past the one cell.

module Sweeper {
  import Input
  import Cursors

  /** `GRID_SIZE_X` and `GRID_SIZE_Y`: the tile grid. */
  const Cols: int := 8
  const Rows: int := 9
  const MaxMines: int := 20
  /** `CELL_MINE`: the cell value of a mine; 0 to 8 are neighbour counts. */
  const Mine: int := 0x0A
  const Keypad2: int := Input.KEYPAD_0 + 2

  /** `GameState`. */
  datatype GameState = Start | Alive | Over | Win

  /** `Cell`: its value, and the hidden, flag and redraw marks. */
  datatype Cell = Cell(val: int, hidden: bool, flag: bool, redraw: bool)

  datatype Pos = Pos(x: int, y: int)

  predicate InGrid(p: Pos)
  {
    0 <= p.x < Cols && 0 <= p.y < Rows
  }

  /** A cell as `init_game` leaves it: hidden, unflagged, empty and due for a redraw. */
  const Fresh: Cell := Cell(0, true, false, true)

  /** The 3 by 3 block around (x, y), the block `board_init` keeps free of mines. */
  predicate Near(p: Pos, x: int, y: int)
  {
    x - 1 <= p.x <= x + 1 && y - 1 <= p.y <= y + 1
  }

  /** A cell the win check accepts: a flagged mine, or any other cell revealed. */
  predicate Cleared(c: Cell)
  {
    if c.val == Mine then c.flag else !c.hidden
  }

  /** What `board_reveal` does with the cell it is given. */
  datatype Outcome = Ignored | Exploded | Uncovered

  /** The branch `board_reveal` takes: a flag stops it, a mine ends the game, a revealed 0 stops
    * it, a revealed number stops it unless this is a recursive call (the flag count and the
    * chord loops never run), and anything else is uncovered. */
  function RevealOutcome(c: Cell, subCall: bool): (r: Outcome)
    ensures c.flag ==> r == Ignored
    ensures r == Exploded <==> !c.flag && c.val == Mine
    ensures r == Uncovered <==> !c.flag && c.val != Mine && (c.hidden || (subCall && c.val != 0))
  {
    if c.flag then Ignored
    else if c.val == Mine then Exploded
    else if !c.hidden && c.val == 0 then Ignored
    else if !c.hidden && !subCall then Ignored
    else Uncovered
  }

  /** The cell after the outcome: unhidden and marked for a redraw unless it was ignored. */
  function Revealed(c: Cell, o: Outcome): (r: Cell)
    ensures r.val == c.val && r.flag == c.flag
    ensures o == Ignored ==> r == c
    ensures o != Ignored ==> !r.hidden && r.redraw
  {
    if o == Ignored then c else c.(hidden := false, redraw := true)
  }

  /** Revealing a cell a second time changes it no further, and only a revealed mine still
    * explodes. */
  lemma RevealSettles(c: Cell)
    ensures var c1 := Revealed(c, RevealOutcome(c, false));
      Revealed(c1, RevealOutcome(c1, false)) == c1 &&
      (RevealOutcome(c1, false) == Exploded <==> RevealOutcome(c, false) == Exploded)
  {
  }

  /** A revealed cell that is not a mine has been cleared, and so has a flagged mine; a hidden
    * cell that is not a mine has not. */
  lemma UncoverClears(c: Cell)
    requires RevealOutcome(c, false) == Uncovered
    ensures Cleared(Revealed(c, Uncovered)) && !Cleared(c)
  {
  }

  /** The values a `for` counter takes from `start` while it stays below `bound`. */
  function Visits(start: int, bound: int): (r: seq<int>)
    decreases bound - start
    ensures |r| == if start < bound then bound - start else 0
    ensures forall k :: 0 <= k < |r| ==> r[k] == start + k
  {
    if start < bound then [start] + Visits(start + 1, bound) else []
  }

  /** A value stored in a `uint8_t`. */
  function U8(v: int): (r: int)
    ensures 0 <= r < 256
    ensures 0 <= v < 256 ==> r == v
  {
    v % 256
  }

  /** 1 for a mine at `p` on the grid, else 0. */
  function Hit(mines: set<Pos>, p: Pos): nat
  {
    if InGrid(p) && p in mines then 1 else 0
  }

  /** The mines at (x, y + j) for the offsets j in `js`. */
  function CountColumn(mines: set<Pos>, x: int, y: int, js: seq<int>): (n: nat)
    ensures n <= |js|
  {
    if js == [] then 0 else Hit(mines, Pos(x, y + js[0])) + CountColumn(mines, x, y, js[1..])
  }

  /** The mines at (x + i, y + j) for the offsets i in `dxs` and j in `dys`: what the counting loops of
    * `board_init` add to a cell that is not a mine. */
  function CountAround(mines: set<Pos>, x: int, y: int, dys: seq<int>, dxs: seq<int>): nat
  {
    if dxs == [] then 0
    else CountColumn(mines, x + dxs[0], y, dys) + CountAround(mines, x, y, dys, dxs[1..])
  }

  /** The offsets as written, counted from the `uint8_t` value of -1, are none at all, so every
    * count `board_init` adds is 0: next to a mine a cell still shows 0. */
  lemma CountsNeverSet(mines: set<Pos>, x: int, y: int)
    ensures Visits(U8(-1), 2) == []
    ensures CountAround(mines, x, y, Visits(U8(-1), 2), Visits(U8(-1), 2)) == 0
    ensures CountAround({Pos(0, 0)}, 1, 0, Visits(-1, 2), Visits(-1, 2)) == 1
  {
    BlockHits({Pos(0, 0)}, 1, 0);
  }

  /** The count over the offsets -1, 0 and 1 (a counter that is signed) is 0 exactly when no
    * mine on the grid lies within one step of the cell, and it is at most 8 for a cell that is
    * not itself a mine. */
  lemma IntendedCount(mines: set<Pos>, x: int, y: int)
    ensures var n := CountAround(mines, x, y, Visits(-1, 2), Visits(-1, 2));
      (n == 0 <==> forall p :: p in mines && InGrid(p) ==> !Near(p, x, y)) &&
      (Pos(x, y) !in mines ==> n <= 8)
  {
    var n := CountAround(mines, x, y, Visits(-1, 2), Visits(-1, 2));
    BlockHits(mines, x, y);
    forall p | p in mines && InGrid(p) && Near(p, x, y)
      ensures n != 0
    {
      assert Hit(mines, p) == 1;
      if p.x == x - 1 {
        assert p == Pos(x - 1, y - 1) || p == Pos(x - 1, y) || p == Pos(x - 1, y + 1);
      } else if p.x == x {
        assert p == Pos(x, y - 1) || p == Pos(x, y) || p == Pos(x, y + 1);
      } else {
        assert p == Pos(x + 1, y - 1) || p == Pos(x + 1, y) || p == Pos(x + 1, y + 1);
      }
    }
  }

  /** The count over the signed offsets is the hits of the nine cells of the block. */
  lemma BlockHits(mines: set<Pos>, x: int, y: int)
    ensures CountAround(mines, x, y, Visits(-1, 2), Visits(-1, 2)) ==
      Hit(mines, Pos(x - 1, y - 1)) + Hit(mines, Pos(x - 1, y)) + Hit(mines, Pos(x - 1, y + 1)) +
      Hit(mines, Pos(x, y - 1)) + Hit(mines, Pos(x, y)) + Hit(mines, Pos(x, y + 1)) +
      Hit(mines, Pos(x + 1, y - 1)) + Hit(mines, Pos(x + 1, y)) + Hit(mines, Pos(x + 1, y + 1))
  {
    assert Visits(-1, 2) == [-1, 0, 1];
    AroundOfThree(mines, x, y, [-1, 0, 1]);
    ColumnOfThree(mines, x - 1, y);
    ColumnOfThree(mines, x, y);
    ColumnOfThree(mines, x + 1, y);
  }

  /** A column of the block around (x, y) holds the hits of its three cells. */
  lemma ColumnOfThree(mines: set<Pos>, x: int, y: int)
    ensures CountColumn(mines, x, y, [-1, 0, 1]) ==
      Hit(mines, Pos(x, y - 1)) + Hit(mines, Pos(x, y)) + Hit(mines, Pos(x, y + 1))
  {
    assert [-1, 0, 1][1..] == [0, 1] && [0, 1][1..] == [1] && [1][1..] == [];
    assert CountColumn(mines, x, y, [1]) == Hit(mines, Pos(x, y + 1));
    assert CountColumn(mines, x, y, [0, 1]) == Hit(mines, Pos(x, y)) + Hit(mines, Pos(x, y + 1));
  }

  /** The block around (x, y) holds the hits of its three columns. */
  lemma AroundOfThree(mines: set<Pos>, x: int, y: int, dys: seq<int>)
    ensures CountAround(mines, x, y, dys, [-1, 0, 1]) ==
      CountColumn(mines, x - 1, y, dys) + CountColumn(mines, x, y, dys) + CountColumn(mines, x + 1, y, dys)
  {
    assert [-1, 0, 1][1..] == [0, 1] && [0, 1][1..] == [1] && [1][1..] == [];
    assert CountAround(mines, x, y, dys, [1]) == CountColumn(mines, x + 1, y, dys);
    assert CountAround(mines, x, y, dys, [0, 1]) == CountColumn(mines, x, y, dys) + CountColumn(mines, x + 1, y, dys);
  }

  /** `SweeperState`. The cursor, a struct inside the state in the firmware, is an object of its
    * own here. */
  class SweeperGame {
    var lastTick: int
    const cursor: Cursors.Cursor
    var oldCursorX: int
    var oldCursorY: int
    const grid: array2<Cell>
    var mineCount: int
    var gameState: GameState

    /** The grid is `GRID_SIZE_Y` rows of `GRID_SIZE_X` cells; the cursor stays on it with the
      * bounds `init_game` gives it; before the first reveal there are no mines. */
    ghost predicate Valid()
      reads this, cursor, grid
    {
      grid.Length0 == Rows && grid.Length1 == Cols &&
      cursor.maxX == Cols - 1 && cursor.maxY == Rows - 1 &&
      0 <= cursor.x < Cols && 0 <= cursor.y < Rows &&
      (gameState == Start ==> forall r, c :: 0 <= r < Rows && 0 <= c < Cols ==> grid[r, c].val != Mine)
    }

    /** Every mine flagged and every other cell revealed. */
    ghost predicate Won()
      reads grid
    {
      forall r, c :: 0 <= r < grid.Length0 && 0 <= c < grid.Length1 ==> Cleared(grid[r, c])
    }

    /** The state `init_game` leaves at tick `now`. */
    ghost predicate Restarted(now: int)
      reads this, cursor, grid
    {
      gameState == Start && lastTick == now &&
      cursor.x == Cols / 2 && cursor.y == Rows / 2 && cursor.maxX == Cols - 1 && cursor.maxY == Rows - 1 &&
      cursor.selected == 0 &&
      forall r, c :: 0 <= r < grid.Length0 && 0 <= c < grid.Length1 ==> grid[r, c] == Fresh
    }

    /** `sweeper_page_create`: the state zeroed, then `init_game` at tick `now`. */
    constructor (now: int)
      ensures Valid() && Restarted(now) && fresh(grid) && fresh(cursor)
      ensures oldCursorX == 0 && oldCursorY == 0 && mineCount == 0
    {
      lastTick := 0;
      cursor := new Cursors.Cursor(0, 0);
      oldCursorX, oldCursorY := 0, 0;
      grid := new Cell[Rows, Cols]((r, c) => Cell(0, false, false, false));
      mineCount := 0;
      gameState := Start;
      new;
      InitGame(now);
    }

    /** `init_game(state)` at tick `now`: START, the cursor in the middle with the grid's bounds,
      * and every cell hidden, unflagged, empty and due for a redraw. */
    method InitGame(now: int)
      requires grid.Length0 == Rows && grid.Length1 == Cols
      modifies this, cursor, grid
      ensures Valid() && Restarted(now)
      ensures oldCursorX == old(oldCursorX) && oldCursorY == old(oldCursorY) && mineCount == old(mineCount)
    {
      lastTick := now;
      gameState := Start;
      cursor.maxX := Cols - 1;
      cursor.maxY := Rows - 1;
      cursor.x := Cols / 2;
      cursor.y := Rows / 2;
      cursor.selected := 0;
      ResetCells();
    }

    /** The loop of `init_game` over the cells. */
    method ResetCells()
      requires grid.Length0 == Rows && grid.Length1 == Cols
      modifies grid
      ensures forall r, c :: 0 <= r < Rows && 0 <= c < Cols ==> grid[r, c] == Fresh
    {
      var row := 0;
      while row < Rows
        invariant 0 <= row <= Rows
        invariant forall r, c :: 0 <= r < row && 0 <= c < Cols ==> grid[r, c] == Fresh
      {
        var col := 0;
        while col < Cols
          invariant 0 <= col <= Cols
          invariant forall r, c :: 0 <= r < row && 0 <= c < Cols ==> grid[r, c] == Fresh
          invariant forall c :: 0 <= c < col ==> grid[row, c] == Fresh
        {
          grid[row, col] := grid[row, col].(hidden := true, flag := false, val := 0, redraw := true);
          col := col + 1;
        }
        row := row + 1;
      }
    }

    /** The win check of `board_reveal`. */
    method HasWon() returns (won: bool)
      requires grid.Length0 == Rows && grid.Length1 == Cols
      ensures won <==> Won()
    {
      won := true;
      var row := 0;
      while row < Rows
        invariant 0 <= row <= Rows
        invariant won ==> forall r, c :: 0 <= r < row && 0 <= c < Cols ==> Cleared(grid[r, c])
        invariant !won ==> !Won()
      {
        var col := 0;
        while col < Cols
          invariant 0 <= col <= Cols && won
          invariant forall c :: 0 <= c < col ==> Cleared(grid[row, c])
        {
          if grid[row, col].val == Mine && !grid[row, col].flag {
            won := false;
            break;
          }
          if grid[row, col].val != Mine && grid[row, col].hidden {
            won := false;
            break;
          }
          col := col + 1;
        }
        if !won {
          break;
        }
        row := row + 1;
      }
    }

    /** `board_reveal(state, x, y, subCall)`: only the cell at (x, y) can change, as
      * `RevealOutcome` says; a mine ends the game, and an uncovered cell wins it when the board
      * is then cleared. */
    method BoardReveal(x: int, y: int, subCall: bool)
      requires Valid() && 0 <= x < Cols && 0 <= y < Rows
      modifies this, grid
      ensures Valid()
      ensures grid[y, x] == Revealed(old(grid[y, x]), RevealOutcome(old(grid[y, x]), subCall))
      ensures forall r, c :: 0 <= r < Rows && 0 <= c < Cols && (r != y || c != x) ==> grid[r, c] == old(grid[r, c])
      ensures gameState == match RevealOutcome(old(grid[y, x]), subCall)
        case Ignored => old(gameState)
        case Exploded => Over
        case Uncovered => if Won() then Win else old(gameState)
      ensures lastTick == old(lastTick) && oldCursorX == old(oldCursorX) && oldCursorY == old(oldCursorY)
      ensures mineCount == old(mineCount)
    {
      if grid[y, x].flag {
        return;
      }
      if grid[y, x].val == Mine {
        grid[y, x] := grid[y, x].(hidden := false);
        gameState := Over;
        grid[y, x] := grid[y, x].(redraw := true);
        return;
      }
      if !grid[y, x].hidden && grid[y, x].val == 0 {
        return;
      }
      if !grid[y, x].hidden && !subCall {
        // lines 99-134: both loops over the neighbours start at 255 and never run
        return;
      }
      if grid[y, x].val == 0 {
        grid[y, x] := grid[y, x].(hidden := false);
        grid[y, x] := grid[y, x].(redraw := true);
        // lines 144-156: the reveal of the neighbours never runs either
      } else {
        grid[y, x] := grid[y, x].(hidden := false);
        grid[y, x] := grid[y, x].(redraw := true);
      }
      var won := HasWon();
      if won {
        gameState := Win;
      }
    }

    /** `board_init(state, revealX, revealY)`, with `rands` the results `rand()` gives, two per
      * attempt. Mines go only on cells away from the first reveal that are not mines yet, each
      * counted once; 20 are laid unless the results run out first (the firmware would go on
      * drawing). The counting loops never run, so no other cell changes. */
    method BoardInit(revealX: int, revealY: int, rands: seq<int>) returns (placed: int, used: int, ghost mines: set<Pos>)
      requires grid.Length0 == Rows && grid.Length1 == Cols
      requires forall k :: 0 <= k < |rands| ==> rands[k] >= 0
      modifies grid
      ensures 0 <= placed == |mines| <= MaxMines && 0 <= used <= |rands|
      ensures placed < MaxMines ==> used + 1 >= |rands|
      ensures forall p :: p in mines ==> InGrid(p) && !Near(p, revealX, revealY) && old(grid[p.y, p.x]).val != Mine
      ensures forall r, c :: 0 <= r < Rows && 0 <= c < Cols ==>
        grid[r, c] == if Pos(c, r) in mines then old(grid[r, c]).(val := Mine) else old(grid[r, c])
    {
      placed, used, mines := 0, 0, {};
      while placed < MaxMines && used + 1 < |rands|
        invariant 0 <= placed == |mines| <= MaxMines && 0 <= used <= |rands|
        invariant forall p :: p in mines ==> InGrid(p) && !Near(p, revealX, revealY) && old(grid[p.y, p.x]).val != Mine
        invariant forall r, c :: 0 <= r < Rows && 0 <= c < Cols ==>
          grid[r, c] == if Pos(c, r) in mines then old(grid[r, c]).(val := Mine) else old(grid[r, c])
        decreases |rands| - used
      {
        var mineX := U8(rands[used] % Cols);
        var mineY := U8(rands[used + 1] % Rows);
        used := used + 2;
        if mineX >= revealX - 1 && mineX <= revealX + 1 && mineY >= revealY - 1 && mineY <= revealY + 1 {
          continue;
        }
        if grid[mineY, mineX].val != Mine {
          grid[mineY, mineX] := grid[mineY, mineX].(val := Mine);
          placed := placed + 1;
          mines := mines + {Pos(mineX, mineY)};
        }
      }
      // lines 221-248: the counting loops start their offsets at 255 (see CountsNeverSet)
    }

    /** KEYPAD_2 on a hidden cell: its flag toggled. */
    method ToggleFlag()
      requires Valid() && grid[cursor.y, cursor.x].hidden
      modifies grid
      ensures Valid()
      ensures grid[cursor.y, cursor.x] == old(grid[cursor.y, cursor.x]).(flag := !old(grid[cursor.y, cursor.x].flag))
      ensures forall r, c :: 0 <= r < Rows && 0 <= c < Cols && (r != cursor.y || c != cursor.x) ==> grid[r, c] == old(grid[r, c])
    {
      grid[cursor.y, cursor.x] := grid[cursor.y, cursor.x].(flag := !grid[cursor.y, cursor.x].flag);
    }

    /** SELECT in START: the board laid around the cursor, ALIVE, and the cursor's cell revealed,
      * which is never a mine. `mines` are the cells `board_init` turned into mines and `used`
      * the `rand()` results it drew; fewer than 20 mines only when the results ran out. */
    method FirstReveal(rands: seq<int>) returns (ghost mines: set<Pos>, ghost used: int)
      requires Valid() && gameState == Start
      requires forall k :: 0 <= k < |rands| ==> rands[k] >= 0
      modifies this, grid
      ensures Valid()
      ensures |mines| <= MaxMines && 0 <= used <= |rands| && (|mines| < MaxMines ==> used + 1 >= |rands|)
      ensures forall p :: p in mines ==> InGrid(p) && !Near(p, cursor.x, cursor.y)
      ensures var c := old(grid[cursor.y, cursor.x]);
        grid[cursor.y, cursor.x] == Revealed(c, RevealOutcome(c, false)) &&
        gameState == if RevealOutcome(c, false) == Uncovered && Won() then Win else Alive
      ensures forall r, c :: 0 <= r < Rows && 0 <= c < Cols && (r != cursor.y || c != cursor.x) ==>
        grid[r, c] == if Pos(c, r) in mines then old(grid[r, c]).(val := Mine) else old(grid[r, c])
      ensures !grid[cursor.y, cursor.x].hidden || grid[cursor.y, cursor.x].flag
      ensures lastTick == old(lastTick) && oldCursorX == old(oldCursorX) && oldCursorY == old(oldCursorY)
    {
      var placed;
      placed, used, mines := BoardInit(cursor.x, cursor.y, rands);
      assert Pos(cursor.x, cursor.y) !in mines;
      gameState := Alive;
      BoardReveal(cursor.x, cursor.y, false);
    }

    /** `sweeper_handle_input(self, event_type)`, with `now` the tick a restart reads and `rands`
      * the `rand()` results the first reveal draws. */
    method HandleInput(eventType: int, now: int, rands: seq<int>) returns (ghost mines: set<Pos>)
      requires Valid()
      requires forall k :: 0 <= k < |rands| ==> rands[k] >= 0
      modifies this, cursor, grid
      ensures Valid()
      ensures eventType == Input.SELECT && old(gameState) == Start ==>
        cursor.x == old(cursor.x) && cursor.y == old(cursor.y) &&
        |mines| <= MaxMines && (forall p :: p in mines ==> InGrid(p) && !Near(p, cursor.x, cursor.y)) &&
        (var c := old(grid[cursor.y, cursor.x]);
         grid[cursor.y, cursor.x] == Revealed(c, RevealOutcome(c, false)) &&
         gameState == if RevealOutcome(c, false) == Uncovered && Won() then Win else Alive) &&
        forall r, c :: 0 <= r < Rows && 0 <= c < Cols && (r != cursor.y || c != cursor.x) ==>
          grid[r, c] == if Pos(c, r) in mines then old(grid[r, c]).(val := Mine) else old(grid[r, c])
      ensures eventType == Input.SELECT && (old(gameState) == Over || old(gameState) == Win) ==> Restarted(now)
      ensures eventType == Input.SELECT && old(gameState) == Alive ==>
        var c := old(grid[cursor.y, cursor.x]);
        cursor.x == old(cursor.x) && cursor.y == old(cursor.y) &&
        grid[cursor.y, cursor.x] == Revealed(c, RevealOutcome(c, false)) &&
        (forall r, c :: 0 <= r < Rows && 0 <= c < Cols && (r != cursor.y || c != cursor.x) ==> grid[r, c] == old(grid[r, c])) &&
        gameState == match RevealOutcome(c, false)
          case Ignored => Alive
          case Exploded => Over
          case Uncovered => if Won() then Win else Alive
      ensures eventType == Keypad2 ==>
        var c := old(grid[cursor.y, cursor.x]);
        cursor.x == old(cursor.x) && cursor.y == old(cursor.y) && gameState == old(gameState) &&
        grid[cursor.y, cursor.x] == (if c.hidden then c.(flag := !c.flag) else c) &&
        forall r, c :: 0 <= r < Rows && 0 <= c < Cols && (r != cursor.y || c != cursor.x) ==> grid[r, c] == old(grid[r, c])
      ensures Input.IsDpad(eventType) ==>
        var dx := if eventType == Input.DPAD_LEFT then -1 else if eventType == Input.DPAD_RIGHT then 1 else 0;
        var dy := if eventType == Input.DPAD_UP then 1 else if eventType == Input.DPAD_DOWN then -1 else 0;
        cursor.x == Cursors.Clamp(old(cursor.x) + dx, Cols - 1) && cursor.y == Cursors.Clamp(old(cursor.y) + dy, Rows - 1) &&
        oldCursorX == old(cursor.x) && oldCursorY == old(cursor.y) && gameState == old(gameState) &&
        forall r, c :: 0 <= r < Rows && 0 <= c < Cols ==> grid[r, c] == old(grid[r, c])
      ensures eventType != Input.SELECT && eventType != Keypad2 && !Input.IsDpad(eventType) ==>
        gameState == old(gameState) && cursor.x == old(cursor.x) && cursor.y == old(cursor.y) &&
        forall r, c :: 0 <= r < Rows && 0 <= c < Cols ==> grid[r, c] == old(grid[r, c])
    {
      mines := {};
      if gameState == Start && eventType == Input.SELECT {
        ghost var used;
        mines, used := FirstReveal(rands);
      } else if gameState == Over && eventType == Input.SELECT {
        InitGame(now);
      } else if gameState == Win && eventType == Input.SELECT {
        InitGame(now);
      } else if eventType == Input.SELECT {
        BoardReveal(cursor.x, cursor.y, false);
      } else if eventType == Keypad2 && grid[cursor.y, cursor.x].hidden {
        ToggleFlag();
      } else if eventType == Input.DPAD_LEFT {
        var moved;
        moved, oldCursorX, oldCursorY := cursor.Move(-1, 0);
      } else if eventType == Input.DPAD_RIGHT {
        var moved;
        moved, oldCursorX, oldCursorY := cursor.Move(1, 0);
      } else if eventType == Input.DPAD_UP {
        var moved;
        moved, oldCursorX, oldCursorY := cursor.Move(0, 1);
      } else if eventType == Input.DPAD_DOWN {
        var moved;
        moved, oldCursorX, oldCursorY := cursor.Move(0, -1);
      }
    }
  }
}
