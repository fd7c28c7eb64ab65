// ui/tile.c and include/ui/tile.h: the screen below the status bar is a grid of 8 by 9 tiles
// of 30x30 pixels; pages mark the tiles they change as dirty, and a flush redraws exactly
// the dirty ones.

module Tiles {
  import Arith

  const TileWidth: int := 30
  const TileHeight: int := 30
  const NavbarHeight: int := 25
  const TileRows: int := 9
  const TileCols: int := 8

  datatype Pos = Pos(x: int, y: int)

  predicate InGrid(p: Pos)
  {
    0 <= p.x < TileCols && 0 <= p.y < TileRows
  }

  /** `tile_to_pixels`: the top-left pixel of a tile. */
  function TileToPixels(p: Pos): (px: Pos)
    ensures InGrid(p) ==> 0 <= px.x && px.x + TileWidth <= 240 && NavbarHeight <= px.y && px.y + TileHeight <= 320
  {
    Pos(p.x * TileWidth, NavbarHeight + p.y * TileHeight)
  }

  /** Distinct tiles cover disjoint pixels: no pixel lies in two tiles. */
  lemma TilesDisjoint(p: Pos, q: Pos, px: Pos)
    requires p != q
    requires var a := TileToPixels(p); a.x <= px.x < a.x + TileWidth && a.y <= px.y < a.y + TileHeight
    ensures var b := TileToPixels(q); !(b.x <= px.x < b.x + TileWidth && b.y <= px.y < b.y + TileHeight)
  {
  }

  /** The `k`-th tile in row-major order. */
  function At(k: nat): (p: Pos)
    requires k < TileRows * TileCols
    ensures InGrid(p) && k == p.y * TileCols + p.x
  {
    Pos(k % TileCols, k / TileCols)
  }

  /** The tile in column `x` of row `y` is the `(y * 8 + x)`-th in row-major order. */
  lemma AtRowCol(x: int, y: int)
    requires 0 <= x < TileCols && 0 <= y < TileRows
    ensures y * TileCols + x < TileRows * TileCols && At(y * TileCols + x) == Pos(x, y)
  {
    Arith.DivUnique(y * TileCols + x, TileCols, y, x);
  }

  /** Every tile of the grid. */
  function AllTiles(): (all: set<Pos>)
    ensures forall p :: p in all <==> InGrid(p)
  {
    set y, x | 0 <= y < TileRows && 0 <= x < TileCols :: Pos(x, y)
  }

  /** Marking one tile: only tiles on the grid are kept. */
  function Mark(d: set<Pos>, p: Pos): (r: set<Pos>)
    ensures InGrid(p) ==> r == d + {p}
    ensures !InGrid(p) ==> r == d
  {
    if InGrid(p) then d + {p} else d
  }

  /** The dirty set after the `mark_tile_dirty` calls `marks`, in order. */
  function MarkedAll(d: set<Pos>, marks: seq<Pos>): set<Pos>
  {
    if marks == [] then d else Mark(MarkedAll(d, marks[..|marks| - 1]), marks[|marks| - 1])
  }

  /** Marking adds exactly the tiles on the grid that were marked. */
  lemma {:induction false} MarkedAllIs(d: set<Pos>, marks: seq<Pos>)
    ensures MarkedAll(d, marks) == d + set p | p in marks && InGrid(p)
  {
    if marks != [] {
      var init := marks[..|marks| - 1];
      MarkedAllIs(d, init);
      assert marks == init + [marks[|marks| - 1]];
    }
  }

  /** A flush so far: the tiles drawn, in order, and the dirty set. */
  datatype Flushed = Flushed(drawn: seq<Pos>, dirty: set<Pos>)

  /** The flush after visiting the first `n` tiles in row-major order, `redraw(p)` being the
    * tiles `draw_tile` marks dirty when it draws `p`: a dirty tile is drawn, then cleared. */
  function FlushRun(d: set<Pos>, n: nat, redraw: Pos -> seq<Pos>): Flushed
    requires n <= TileRows * TileCols
  {
    if n == 0 then Flushed([], d)
    else
      var f, p := FlushRun(d, n - 1, redraw), At(n - 1);
      if p in f.dirty then Flushed(f.drawn + [p], MarkedAll(f.dirty, redraw(p)) - {p}) else f
  }

  /** The dirty tiles among the first `n`, in row-major order. */
  function DirtyInOrder(d: set<Pos>, n: nat): (s: seq<Pos>)
    requires n <= TileRows * TileCols
    ensures forall p :: p in s <==> p in d && InGrid(p) && p.y * TileCols + p.x < n
  {
    if n == 0 then [] else DirtyInOrder(d, n - 1) + (if At(n - 1) in d then [At(n - 1)] else [])
  }

  /** When drawing a tile marks no tile but (perhaps) itself, a flush draws exactly the dirty
    * tiles, in row-major order, and leaves every tile clean. */
  lemma {:induction false} FlushDrawsDirty(d: set<Pos>, n: nat, redraw: Pos -> seq<Pos>)
    requires n <= TileRows * TileCols
    requires forall p, m :: m in redraw(p) ==> m == p
    ensures FlushRun(d, n, redraw).drawn == DirtyInOrder(d, n)
    ensures FlushRun(d, n, redraw).dirty == set p | p in d && (!InGrid(p) || p.y * TileCols + p.x >= n)
  {
    if n > 0 {
      FlushDrawsDirty(d, n - 1, redraw);
      var f, p := FlushRun(d, n - 1, redraw), At(n - 1);
      if p in f.dirty {
        MarkedAllIs(f.dirty, redraw(p));
        assert MarkedAll(f.dirty, redraw(p)) - {p} == f.dirty - {p};
      }
    }
  }

  /** A whole flush in that case: the dirty tiles drawn, and nothing left dirty. */
  lemma FlushCleans(d: set<Pos>, redraw: Pos -> seq<Pos>)
    requires forall p :: p in d ==> InGrid(p)
    requires forall p, m :: m in redraw(p) ==> m == p
    ensures FlushRun(d, TileRows * TileCols, redraw) == Flushed(DirtyInOrder(d, TileRows * TileCols), {})
  {
    FlushDrawsDirty(d, TileRows * TileCols, redraw);
  }

  /** The static `dirty[TILE_ROWS][TILE_COLS]` grid. */
  class TileGrid {
    const dirty: array2<bool>

    ghost predicate Valid()
      reads this
    {
      dirty.Length0 == TileRows && dirty.Length1 == TileCols
    }

    /** The dirty tiles. */
    ghost function Dirty(): set<Pos>
      requires Valid()
      reads this, dirty
    {
      set y, x | 0 <= y < TileRows && 0 <= x < TileCols && dirty[y, x] :: Pos(x, y)
    }

    /** The zero-initialised grid: every tile clean. */
    constructor ()
      ensures Valid() && Dirty() == {}
    {
      dirty := new bool[TileRows, TileCols]((y, x) => false);
    }

    /** `mark_tile_dirty`: sets the one tile, if it is on the grid. */
    method MarkTileDirty(tx: int, ty: int)
      requires Valid()
      modifies dirty
      ensures Dirty() == Mark(old(Dirty()), Pos(tx, ty))
    {
      if tx >= 0 && tx < TileCols && ty >= 0 && ty < TileRows {
        dirty[ty, tx] := true;
      }
    }

    /** `mark_all_tiles_dirty`. */
    method MarkAllTilesDirty()
      requires Valid()
      modifies dirty
      ensures forall y, x :: 0 <= y < TileRows && 0 <= x < TileCols ==> dirty[y, x]
      ensures Dirty() == AllTiles()
    {
      var y := 0;
      while y < TileRows
        invariant 0 <= y <= TileRows
        invariant forall j, i :: 0 <= j < y && 0 <= i < TileCols ==> dirty[j, i]
      {
        var x := 0;
        while x < TileCols
          invariant 0 <= x <= TileCols
          invariant forall j, i :: 0 <= j < y && 0 <= i < TileCols ==> dirty[j, i]
          invariant forall i :: 0 <= i < x ==> dirty[y, i]
        {
          dirty[y, x] := true;
          x := x + 1;
        }
        y := y + 1;
      }
    }

    /** The `mark_tile_dirty` calls `draw_tile` makes while a tile is drawn. */
    method MarkAll(marks: seq<Pos>)
      requires Valid()
      modifies dirty
      ensures Dirty() == MarkedAll(old(Dirty()), marks)
    {
      var i := 0;
      while i < |marks|
        invariant 0 <= i <= |marks|
        invariant Dirty() == MarkedAll(old(Dirty()), marks[..i])
      {
        assert marks[..i + 1][..i] == marks[..i];
        MarkTileDirty(marks[i].x, marks[i].y);
        i := i + 1;
      }
      assert marks[..i] == marks;
    }

    /** One step of the flush: tile (x, y) is drawn and cleared if it is dirty. */
    method FlushTile(x: int, y: int, redraw: Pos -> seq<Pos>, ghost d0: set<Pos>, drawn: seq<Pos>)
      returns (drawn': seq<Pos>)
      requires Valid() && 0 <= x < TileCols && 0 <= y < TileRows
      requires Flushed(drawn, Dirty()) == FlushRun(d0, y * TileCols + x, redraw)
      modifies dirty
      ensures Flushed(drawn', Dirty()) == FlushRun(d0, y * TileCols + x + 1, redraw)
    {
      AtRowCol(x, y);
      drawn' := drawn;
      if dirty[y, x] {
        assert Pos(x, y) in Dirty();
        drawn' := drawn' + [Pos(x, y)];
        MarkAll(redraw(Pos(x, y)));
        ghost var marked := Dirty();
        dirty[y, x] := false;
        assert Dirty() == marked - {Pos(x, y)};
      } else {
        assert Pos(x, y) !in Dirty();
      }
    }

    /** `flush_dirty_tiles(draw_tile)`: draws every dirty tile in row-major order and clears it
      * after it is drawn. The tiles drawn are returned in order; `redraw(p)` is the tiles
      * `draw_tile` marks dirty while drawing `p`. */
    method FlushDirtyTiles(redraw: Pos -> seq<Pos>) returns (drawn: seq<Pos>)
      requires Valid()
      modifies dirty
      ensures Flushed(drawn, Dirty()) == FlushRun(old(Dirty()), TileRows * TileCols, redraw)
    {
      drawn := [];
      ghost var d0 := Dirty();
      var y := 0;
      while y < TileRows
        invariant 0 <= y <= TileRows
        invariant Flushed(drawn, Dirty()) == FlushRun(d0, y * TileCols, redraw)
      {
        var x := 0;
        while x < TileCols
          invariant 0 <= x <= TileCols
          invariant Flushed(drawn, Dirty()) == FlushRun(d0, y * TileCols + x, redraw)
        {
          drawn := FlushTile(x, y, redraw, d0, drawn);
          x := x + 1;
        }
        y := y + 1;
      }
    }
  }
}
