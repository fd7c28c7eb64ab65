// ui/pages/games/snake.c: snake on the 8 by 9 tile grid. Every tick the body follows the head,
// which steps one cell in the current direction; running into the body ends the game, and
// eating the apple makes the snake one cell longer.

module Snake {
  import Input
  import opened Wrappers

  const GridX: int := 8
  const GridY: int := 9
  /** `MAX_SNAKE`: the cells of the grid, and the size of the body arrays. */
  const MaxSnake: int := 72

  /** `GameState`. */
  datatype GameState = Win | Over | Run | New

  /** `Direction`. */
  datatype Direction = Up | Down | Left | Right

  datatype Cell = Cell(x: int, y: int)

  predicate InGrid(c: Cell)
  {
    0 <= c.x < GridX && 0 <= c.y < GridY
  }

  /** A value stored in a `uint8_t`. */
  function U8(v: int): (r: int)
    ensures 0 <= r < 256
  {
    v % 256
  }

  /** The cell one step away in direction `d`, with no wrapping. */
  function Step(p: Cell, d: Direction): Cell
  {
    match d
    case Left => p.(x := p.x - 1)
    case Right => p.(x := p.x + 1)
    case Up => p.(y := p.y - 1)
    case Down => p.(y := p.y + 1)
  }

  /** The head after one step, as `game_tick` computes it: the coordinate is a `uint8_t`, so a
    * step below 0 wraps to 255, and the first of the edge checks that applies sets it back
    * (the `< 0` checks can never apply to an unsigned value). */
  function HeadStep(p: Cell, d: Direction): (r: Cell)
    ensures InGrid(p) ==> InGrid(r)
    // A step moves along its own axis only.
    ensures InGrid(p) && (d == Left || d == Right) ==> r.y == p.y
    ensures InGrid(p) && (d == Up || d == Down) ==> r.x == p.x
  {
    var q := match d
      case Left => p.(x := U8(p.x - 1))
      case Right => p.(x := U8(p.x + 1))
      case Up => p.(y := U8(p.y - 1))
      case Down => p.(y := U8(p.y + 1));
    if q.x < 0 then q.(x := GridX - 1)
    else if q.x >= GridX then q.(x := 0)
    else if q.y < 0 then q.(y := GridY - 1)
    else if q.y >= GridY then q.(y := 0)
    else q
  }

  /** The step the edge checks were written for, on signed coordinates: the grid is a torus,
    * a step off one edge comes back on the opposite one. */
  function WrapStep(p: Cell, d: Direction): (r: Cell)
    ensures InGrid(p) ==> InGrid(r) && r != p
    ensures InGrid(p) && (d == Left || d == Right) ==> r.y == p.y
    ensures InGrid(p) && (d == Up || d == Down) ==> r.x == p.x
  {
    var q := Step(p, d);
    if q.x < 0 then q.(x := GridX - 1)
    else if q.x >= GridX then q.(x := 0)
    else if q.y < 0 then q.(y := GridY - 1)
    else if q.y >= GridY then q.(y := 0)
    else q
  }

  function Opposite(d: Direction): Direction
  {
    match d
    case Left => Right
    case Right => Left
    case Up => Down
    case Down => Up
  }

  /** On the torus every step leaves the cell, stays on the grid, and the opposite step
    * comes back. */
  lemma WrapStepMoves(p: Cell, d: Direction)
    requires InGrid(p)
    ensures InGrid(WrapStep(p, d)) && WrapStep(p, d) != p
    ensures WrapStep(WrapStep(p, d), Opposite(d)) == p
  {
  }

  /** The step as written keeps the head on the grid and agrees with the torus step, except
    * that a step left from column 0 or up from row 0 leaves the head where it is. */
  lemma HeadStepStallsAtTopLeft(p: Cell, d: Direction)
    requires InGrid(p)
    ensures InGrid(HeadStep(p, d))
    ensures HeadStep(p, d) == p <==> (d == Left && p.x == 0) || (d == Up && p.y == 0)
    ensures !((d == Left && p.x == 0) || (d == Up && p.y == 0)) ==> HeadStep(p, d) == WrapStep(p, d)
  {
    assert U8(p.x - 1) == if p.x == 0 then 255 else p.x - 1;
    assert U8(p.y - 1) == if p.y == 0 then 255 else p.y - 1;
    assert U8(p.x + 1) == p.x + 1 && U8(p.y + 1) == p.y + 1;
  }

  /** The state `game_tick` reads and writes: the body from head to tail, the tail saved in
    * the last slot, the game state, the apple and its flag, and the direction. */
  datatype Game = Game(body: seq<Cell>, tail: Cell, state: GameState, apple: Cell, newApple: bool, d: Direction)

  /** Every cell the game keeps is on the grid. */
  predicate OnGrid(g: Game)
  {
    (forall i :: 0 <= i < |g.body| ==> InGrid(g.body[i])) && InGrid(g.tail) && InGrid(g.apple)
  }

  /** The tail saved and the body moved up behind the new head. */
  function Moved(g: Game, head: Cell): (r: Game)
    requires 1 <= |g.body|
    ensures |r.body| == |g.body| && r.body[0] == head && r.tail == g.body[|g.body| - 1]
    ensures forall i :: 1 <= i < |g.body| ==> r.body[i] == g.body[i - 1]
  {
    g.(body := [head] + g.body[..|g.body| - 1], tail := g.body[|g.body| - 1])
  }

  /** A game whose body is the new head before all but the last cell, with that cell saved,
    * is the moved game. */
  lemma MovedIs(g: Game, head: Cell, body: seq<Cell>, tail: Cell)
    requires 1 <= |g.body| && body == [head] + g.body[..|g.body| - 1] && tail == g.body[|g.body| - 1]
    ensures Moved(g, head) == g.(body := body, tail := tail)
  {
  }

  /** The head runs into the body: into a cell the body still holds after the move, or, at
    * length 2, back onto the tail it left. */
  predicate Collides(g: Game, head: Cell)
    requires 1 <= |g.body|
  {
    head in g.body[..|g.body| - 1] || (|g.body| == 2 && head == g.body[1])
  }

  /** Coordinate arrays moved one slot up behind a new head hold the moved body. */
  lemma ShiftedCells(xs0: seq<int>, ys0: seq<int>, xs: seq<int>, ys: seq<int>, n: int, head: Cell)
    requires 1 <= n <= |xs0| == |ys0| == |xs| == |ys| && Cell(xs[0], ys[0]) == head
    requires forall k :: 1 <= k < n ==> xs[k] == xs0[k - 1] && ys[k] == ys0[k - 1]
    ensures Cells(xs, ys, n) == [head] + Cells(xs0, ys0, n)[..n - 1]
  {
  }

  /** After the move, the head sits on a later cell of the body, or, at length 2, on the
    * saved tail: the checks `game_tick` makes. */
  predicate HitsOwnBody(m: Game)
    requires 1 <= |m.body|
  {
    m.body[0] in m.body[1..] || (|m.body| == 2 && m.body[0] == m.tail)
  }

  /** The checks after the move find exactly the collisions of the head with the body before
    * it. */
  lemma MovedHits(g: Game, head: Cell)
    requires 1 <= |g.body|
    ensures HitsOwnBody(Moved(g, head)) <==> Collides(g, head)
  {
    assert Moved(g, head).body[1..] == g.body[..|g.body| - 1];
  }

  /** Eating, as written: the saved tail appended, and a new apple wanted unless the body
    * fills the grid. The game state is left as it is (line 139 compares instead of
    * assigning). */
  function GrowAsWritten(g: Game): Game
  {
    g.(body := g.body + [g.tail], newApple := if |g.body| + 1 == MaxSnake then g.newApple else true)
  }

  /** Eating as intended: as written, but a body that fills the grid wins. */
  function Grow(g: Game): Game
  {
    g.(body := g.body + [g.tail], state := if |g.body| + 1 == MaxSnake then Win else g.state,
       newApple := if |g.body| + 1 == MaxSnake then g.newApple else true)
  }

  /** The apple placed at `spawn` when a new one is wanted. */
  function Respawn(g: Game, spawn: Cell): Game
  {
    if g.newApple then g.(apple := spawn) else g
  }

  /** `game_tick(state)`, with `spawn` the first draw of the apple's place. */
  function Tick(g: Game, spawn: Cell): (r: Game)
    requires 1 <= |g.body| < MaxSnake
    ensures |g.body| <= |r.body| <= |g.body| + 1
    ensures r.body[0] == HeadStep(g.body[0], g.d) && r.tail == g.body[|g.body| - 1]
    // As written a tick can end the game but never win it.
    ensures r.state == g.state || r.state == Over
    ensures r.d == g.d
  {
    var head := HeadStep(g.body[0], g.d);
    var m := Moved(g, head);
    if Collides(g, head) then m.(state := Over)
    else Respawn(if head == g.apple then GrowAsWritten(m) else m, spawn)
  }

  /** Whether the apple loop of `game_tick` never ends: the tick wants a new apple and its
    * first draw lands on the body, which clears `safe_spawn` for good (see `SpawnAsWritten`). */
  predicate TickHangs(g: Game, spawn: Cell)
    requires 1 <= |g.body| < MaxSnake
  {
    var r := Tick(g, spawn);
    !Collides(g, HeadStep(g.body[0], g.d)) && r.newApple && spawn in r.body
  }

  /** A tick without a collision is the move, the growth when the head meets the apple, and
    * the apple's new place; it hangs when that place is on the grown body. */
  lemma TickThroughGrowth(g: Game, s: Game, spawn: Cell)
    requires 1 <= |g.body| < MaxSnake && !Collides(g, HeadStep(g.body[0], g.d))
    requires var m := Moved(g, HeadStep(g.body[0], g.d)); s == if m.body[0] == g.apple then GrowAsWritten(m) else m
    ensures Tick(g, spawn) == Respawn(s, spawn)
    ensures TickHangs(g, spawn) <==> s.newApple && spawn in s.body
  {
  }

  /** The apple loop of `game_tick` as written, over the cells that successive `rand()` pairs
    * give, from the flag's value `safe` on: a pass clears the flag when its cell is on the
    * body and nothing sets it again. `Some(c)`: the loop ends with the apple on `c`; `None`:
    * still looping when the draws run out. */
  function SpawnAsWritten(body: seq<Cell>, draws: seq<Cell>, safe: bool): (r: Option<Cell>)
    ensures draws != [] && safe && draws[0] !in body ==> r == Some(draws[0])
    decreases |draws|
  {
    if draws == [] then None
    else
      var safe' := safe && draws[0] !in body;
      if safe' then Some(draws[0]) else SpawnAsWritten(body, draws[1..], safe')
  }

  /** Once the flag is cleared, no draw ends the loop. */
  lemma {:induction false} SpawnFlagStaysCleared(body: seq<Cell>, draws: seq<Cell>)
    ensures SpawnAsWritten(body, draws, false) == None
    decreases |draws|
  {
    if draws != [] {
      SpawnFlagStaysCleared(body, draws[1..]);
    }
  }

  /** As written, a first draw on the body hangs the game: whatever `rand()` returns next,
    * even a free cell, the loop goes on. */
  lemma SpawnAsWrittenHangs(body: seq<Cell>, draws: seq<Cell>)
    requires draws != [] && draws[0] in body
    ensures SpawnAsWritten(body, draws, true) == None
  {
    SpawnFlagStaysCleared(body, draws[1..]);
  }

  /** A tick whose first draw lands on the body never returns, whatever the later draws. */
  lemma TickHangsForever(g: Game, spawn: Cell, later: seq<Cell>)
    requires 1 <= |g.body| < MaxSnake && TickHangs(g, spawn)
    ensures SpawnAsWritten(Tick(g, spawn).body, [spawn] + later, true) == None
  {
    SpawnAsWrittenHangs(Tick(g, spawn).body, [spawn] + later);
  }

  /** The apple loop as intended: draw again until a cell off the body comes up. */
  function SpawnIntended(body: seq<Cell>, draws: seq<Cell>): (r: Option<Cell>)
    ensures r.Some? ==> r.value in draws && r.value !in body
    ensures r.None? <==> forall c <- draws :: c in body
    decreases |draws|
  {
    if draws == [] then None
    else if draws[0] !in body then Some(draws[0])
    else
      var r := SpawnIntended(body, draws[1..]);
      assert forall c <- draws :: c == draws[0] || c in draws[1..];
      r
  }

  /** The two loops agree when the first draw is free; as intended, a free cell among the
    * later draws ends the loop, where as written it never does. */
  lemma SpawnIntendedRecovers(body: seq<Cell>, draws: seq<Cell>, k: nat)
    requires k < |draws| && draws[0] in body && draws[k] !in body
    ensures SpawnIntended(body, draws).Some? && SpawnAsWritten(body, draws, true) == None
  {
    SpawnAsWrittenHangs(body, draws);
  }

  /** `game_tick` with both corrections: the head wraps around every edge, and filling the grid
    * wins. */
  function IntendedTick(g: Game, spawn: Cell): (r: Game)
    requires 1 <= |g.body| < MaxSnake
    ensures |g.body| <= |r.body| <= |g.body| + 1
    ensures r.body[0] == WrapStep(g.body[0], g.d) && r.tail == g.body[|g.body| - 1]
    // A tick ends the game, wins it exactly by filling the grid, or leaves it as it was.
    ensures r.state == g.state || r.state == Over || r.state == Win
    ensures r.state == Win && g.state != Win ==> |r.body| == MaxSnake
    ensures r.d == g.d
  {
    var head := WrapStep(g.body[0], g.d);
    var m := Moved(g, head);
    if Collides(g, head) then m.(state := Over)
    else Respawn(if head == g.apple then Grow(m) else m, spawn)
  }

  /** What a tick does to the body: the head steps, every other cell takes the place of the
    * one before it, the old tail is saved; a collision ends the game without growth, and the
    * apple adds the old tail back, one cell longer. */
  lemma TickMovesBody(g: Game, spawn: Cell)
    requires 1 <= |g.body| < MaxSnake
    ensures var r, head := Tick(g, spawn), HeadStep(g.body[0], g.d);
      r.body[0] == head && r.tail == g.body[|g.body| - 1] &&
      (forall i :: 1 <= i < |g.body| ==> r.body[i] == g.body[i - 1]) &&
      (Collides(g, head) ==> r.state == Over && |r.body| == |g.body| && r.apple == g.apple) &&
      (!Collides(g, head) && head == g.apple ==> |r.body| == |g.body| + 1 && r.body[|g.body|] == g.body[|g.body| - 1]) &&
      (!Collides(g, head) && head != g.apple ==> |r.body| == |g.body|) &&
      (!Collides(g, head) ==> r.state == g.state)
  {
  }

  /** A tick keeps every cell on the grid when the apple's new place is on it. */
  lemma TickStaysOnGrid(g: Game, spawn: Cell)
    requires 1 <= |g.body| < MaxSnake && OnGrid(g) && InGrid(spawn)
    ensures OnGrid(Tick(g, spawn))
  {
    HeadStepStallsAtTopLeft(g.body[0], g.d);
  }

  /** As written, eating the last free cell grows the snake to fill the grid but leaves the
    * game state as it was: a running game does not become won. */
  lemma FullSnakeDoesNotWin(g: Game, spawn: Cell)
    requires |g.body| == MaxSnake - 1
    requires var head := HeadStep(g.body[0], g.d); !Collides(g, head) && head == g.apple
    ensures |Tick(g, spawn).body| == MaxSnake && Tick(g, spawn).state == g.state
  {
  }

  /** As intended, eating the last free cell wins. */
  lemma FullSnakeWins(g: Game, spawn: Cell)
    requires |g.body| == MaxSnake - 1
    requires var head := WrapStep(g.body[0], g.d); !Collides(g, head) && head == g.apple
    ensures |IntendedTick(g, spawn).body| == MaxSnake && IntendedTick(g, spawn).state == Win
  {
  }

  /** As written, a two-cell snake heading left from column 0 ends the game: the head stays
    * put and meets the cell behind it. As intended, it comes out on column 7 and runs on. */
  lemma LeftEdgeEndsGame()
    ensures var g := Game([Cell(0, 4), Cell(1, 4)], Cell(0, 0), Run, Cell(5, 5), false, Left);
      Tick(g, Cell(0, 0)).state == Over &&
      IntendedTick(g, Cell(0, 0)).state == Run && IntendedTick(g, Cell(0, 0)).body[0] == Cell(7, 4)
  {
    var g := Game([Cell(0, 4), Cell(1, 4)], Cell(0, 0), Run, Cell(5, 5), false, Left);
    assert HeadStep(Cell(0, 4), Left) == Cell(0, 4);
    assert g.body[..1] == [Cell(0, 4)];
    assert !Collides(g, Cell(7, 4));
  }

  /** The state after `init_game`: one cell in the middle of the grid, running, an apple
    * wanted. The direction and the apple are kept. */
  function Initial(d: Direction, apple: Cell, tail: Cell): (g: Game)
    ensures |g.body| == 1 && InGrid(g.body[0]) && g.state == Run && g.newApple
  {
    Game([Cell(GridX / 2, GridY / 2)], tail, Run, apple, true, d)
  }

  /** The state after one input: in OVER or WIN, the pad and SELECT start a new game; while
    * running, the pad turns the snake; nothing else changes. */
  function AfterInput(state: GameState, d: Direction, eventType: int): (r: (GameState, Direction))
    ensures r.0 != state ==> (state == Over || state == Win) && r.0 == New &&
                             (Input.IsDpad(eventType) || eventType == Input.SELECT)
    ensures r.1 != d ==> state == Run && Input.IsDpad(eventType)
  {
    match state
    case Over | Win =>
      if Input.IsDpad(eventType) || eventType == Input.SELECT then (New, d) else (state, d)
    case Run =>
      if eventType == Input.DPAD_UP then (state, Up)
      else if eventType == Input.DPAD_DOWN then (state, Down)
      else if eventType == Input.DPAD_LEFT then (state, Left)
      else if eventType == Input.DPAD_RIGHT then (state, Right)
      else (state, d)
    case New => (state, d)
  }

  /** Each pad key turns a running snake its way, whatever it was heading. */
  lemma PadTurns(d: Direction)
    ensures AfterInput(Run, d, Input.DPAD_UP).1 == Up && AfterInput(Run, d, Input.DPAD_DOWN).1 == Down
    ensures AfterInput(Run, d, Input.DPAD_LEFT).1 == Left && AfterInput(Run, d, Input.DPAD_RIGHT).1 == Right
  {
  }

  /** The cells of the first `n` slots of the coordinate arrays. */
  function Cells(xs: seq<int>, ys: seq<int>, n: int): (c: seq<Cell>)
    requires 0 <= n <= |xs| && n <= |ys|
    ensures |c| == n && forall i :: 0 <= i < n ==> c[i] == Cell(xs[i], ys[i])
  {
    seq(n, i requires 0 <= i < n => Cell(xs[i], ys[i]))
  }

  /** `SnakeState`. */
  class SnakeGame {
    var lastTick: int
    var gameState: GameState
    const snakeX: array<int>
    const snakeY: array<int>
    var snakeLen: int
    var appleX: int
    var appleY: int
    var newApple: bool
    var d: Direction

    ghost predicate Valid()
      reads this
    {
      snakeX.Length == MaxSnake && snakeY.Length == MaxSnake && snakeX != snakeY && 1 <= snakeLen <= MaxSnake
    }

    /** The body, from the head. */
    ghost function Body(): seq<Cell>
      requires Valid()
      reads this, snakeX, snakeY
    {
      Cells(snakeX[..], snakeY[..], snakeLen)
    }

    /** The state as `game_tick` sees it. */
    ghost function Snapshot(): Game
      requires Valid()
      reads this, snakeX, snakeY
    {
      Game(Body(), Cell(snakeX[MaxSnake - 1], snakeY[MaxSnake - 1]), gameState, Cell(appleX, appleY), newApple, d)
    }

    /** `snake_page_create`: the state zeroed, then `init_game`; `now` is `HAL_GetTick()`. */
    constructor (now: int)
      ensures Valid() && fresh(snakeX) && fresh(snakeY)
      ensures Snapshot() == Initial(Up, Cell(0, 0), Cell(0, 0)) && lastTick == now
    {
      snakeX := new int[MaxSnake](_ => 0);
      snakeY := new int[MaxSnake](_ => 0);
      lastTick, gameState, snakeLen, appleX, appleY, newApple, d := 0, Win, 0, 0, 0, false, Up;
      new;
      InitGame(now);
    }

    /** `init_game(state)`: one cell in the middle, running, an apple wanted; `now` is
      * `HAL_GetTick()`. */
    method InitGame(now: int)
      requires snakeX.Length == MaxSnake && snakeY.Length == MaxSnake && snakeX != snakeY
      modifies this, snakeX, snakeY
      ensures Valid()
      ensures Snapshot() == Initial(old(d), Cell(old(appleX), old(appleY)), Cell(old(snakeX[MaxSnake - 1]), old(snakeY[MaxSnake - 1])))
      ensures lastTick == now
      ensures forall k :: 1 <= k < MaxSnake ==> snakeX[k] == old(snakeX[k]) && snakeY[k] == old(snakeY[k])
    {
      lastTick := now;
      gameState := Run;
      snakeLen := 1;
      snakeX[0] := GridX / 2;
      snakeY[0] := GridY / 2;
      newApple := true;
    }

    /** The first part of `game_tick`: the tail saved in the last slot and the body moved one
      * slot up. */
    method ShiftBody()
      requires Valid() && snakeLen < MaxSnake
      modifies snakeX, snakeY
      ensures Valid()
      ensures snakeX[MaxSnake - 1] == old(snakeX[snakeLen - 1]) && snakeY[MaxSnake - 1] == old(snakeY[snakeLen - 1])
      ensures snakeX[0] == old(snakeX[0]) && snakeY[0] == old(snakeY[0])
      ensures forall k :: 1 <= k < snakeLen ==> snakeX[k] == old(snakeX[k - 1]) && snakeY[k] == old(snakeY[k - 1])
      ensures forall k :: snakeLen <= k < MaxSnake - 1 ==> snakeX[k] == old(snakeX[k]) && snakeY[k] == old(snakeY[k])
    {
      snakeX[MaxSnake - 1] := snakeX[snakeLen - 1];
      snakeY[MaxSnake - 1] := snakeY[snakeLen - 1];
      var i := snakeLen - 1;
      while i > 0
        invariant 0 <= i < snakeLen
        invariant snakeX[MaxSnake - 1] == old(snakeX[snakeLen - 1]) && snakeY[MaxSnake - 1] == old(snakeY[snakeLen - 1])
        invariant forall k :: 0 <= k <= i ==> snakeX[k] == old(snakeX[k]) && snakeY[k] == old(snakeY[k])
        invariant forall k :: i < k < snakeLen ==> snakeX[k] == old(snakeX[k - 1]) && snakeY[k] == old(snakeY[k - 1])
        invariant forall k :: snakeLen <= k < MaxSnake - 1 ==> snakeX[k] == old(snakeX[k]) && snakeY[k] == old(snakeY[k])
      {
        snakeX[i] := snakeX[i - 1];
        snakeY[i] := snakeY[i - 1];
        i := i - 1;
      }
    }

    /** The head stepped in the direction `d`, with the edge checks of `game_tick`. */
    method StepHead()
      requires Valid()
      modifies snakeX, snakeY
      ensures Cell(snakeX[0], snakeY[0]) == HeadStep(old(Cell(snakeX[0], snakeY[0])), d)
      ensures forall k :: 1 <= k < MaxSnake ==> snakeX[k] == old(snakeX[k]) && snakeY[k] == old(snakeY[k])
    {
      match d {
        case Left => snakeX[0] := U8(snakeX[0] - 1);
        case Right => snakeX[0] := U8(snakeX[0] + 1);
        case Up => snakeY[0] := U8(snakeY[0] - 1);
        case Down => snakeY[0] := U8(snakeY[0] + 1);
      }
      if snakeX[0] < 0 {
        snakeX[0] := GridX - 1;
      } else if snakeX[0] >= GridX {
        snakeX[0] := 0;
      } else if snakeY[0] < 0 {
        snakeY[0] := GridY - 1;
      } else if snakeY[0] >= GridY {
        snakeY[0] := 0;
      }
    }

    /** The collision checks of `game_tick`: the head on a later cell of the body, or, at
      * length 2, on the saved tail. */
    method HitsBody() returns (hit: bool)
      requires Valid()
      ensures hit <==> HitsOwnBody(Snapshot())
    {
      var i := 1;
      while i < snakeLen
        invariant 1 <= i <= snakeLen
        invariant forall k :: 1 <= k < i ==> Body()[k] != Cell(snakeX[0], snakeY[0])
      {
        if snakeX[0] == snakeX[i] && snakeY[0] == snakeY[i] {
          assert Body()[1..][i - 1] == Cell(snakeX[0], snakeY[0]);
          return true;
        }
        i := i + 1;
      }
      hit := snakeLen == 2 && snakeX[0] == snakeX[MaxSnake - 1] && snakeY[0] == snakeY[MaxSnake - 1];
    }

    /** Eating in `game_tick`: the saved tail appended to the body, and a new apple wanted
      * unless the body now fills the grid. */
    method Eat()
      requires Valid() && snakeLen < MaxSnake
      modifies this, snakeX, snakeY
      ensures Valid() && lastTick == old(lastTick)
      ensures Snapshot() == GrowAsWritten(old(Snapshot()))
    {
      ghost var g := Snapshot();
      snakeX[snakeLen] := snakeX[MaxSnake - 1];
      snakeY[snakeLen] := snakeY[MaxSnake - 1];
      snakeLen := snakeLen + 1;
      assert Body() == g.body + [g.tail];
      if snakeLen == MaxSnake {
        // line 139: `game_state == GAME_WIN` is a comparison and changes nothing
      } else {
        newApple := true;
      }
    }

    /** The move of `game_tick`: the tail saved, the body moved up, and the head stepped. */
    method Advance()
      requires Valid() && snakeLen < MaxSnake
      modifies snakeX, snakeY
      ensures Valid()
      ensures Snapshot() == Moved(old(Snapshot()), HeadStep(old(Snapshot()).body[0], d))
    {
      ghost var g := Snapshot();
      ghost var xs0, ys0 := snakeX[..], snakeY[..];
      ShiftBody();
      StepHead();
      ghost var head := HeadStep(g.body[0], d);
      ShiftedCells(xs0, ys0, snakeX[..], snakeY[..], snakeLen, head);
      MovedIs(g, head, Body(), Cell(snakeX[MaxSnake - 1], snakeY[MaxSnake - 1]));
    }

    /** The first pass of the apple loop of `game_tick`, when a new apple is wanted: the apple
      * goes where the two `rand()` results say, and `stuck` tells that the cell is on the body,
      * after which the source's loop never ends. */
    method PlaceApple(r1: int, r2: int) returns (stuck: bool)
      requires Valid() && 0 <= r1 && 0 <= r2
      modifies this
      ensures Valid() && lastTick == old(lastTick)
      ensures Snapshot() == Respawn(old(Snapshot()), Cell(r1 % GridX, r2 % GridY))
      ensures stuck <==> old(newApple) && Cell(r1 % GridX, r2 % GridY) in old(Body())
    {
      stuck := false;
      if newApple {
        appleX := r1 % GridX;
        appleY := r2 % GridY;
        var i := 0;
        while i < snakeLen
          invariant 0 <= i <= snakeLen && !stuck
          invariant forall k :: 0 <= k < i ==> Body()[k] != Cell(appleX, appleY)
        {
          if appleX == snakeX[i] && appleY == snakeY[i] {
            assert Body()[i] == Cell(appleX, appleY);
            return true;
          }
          i := i + 1;
        }
      }
    }

    /** `game_tick(state)`; `r1` and `r2` are the first two `rand()` results that place a new
      * apple, and `stuck` tells that the source then loops forever. The tick before the body
      * fills the grid is the last one modelled. */
    method GameTick(r1: int, r2: int) returns (stuck: bool)
      requires Valid() && snakeLen < MaxSnake && 0 <= r1 && 0 <= r2
      modifies this, snakeX, snakeY
      ensures Valid() && lastTick == old(lastTick)
      ensures Snapshot() == Tick(old(Snapshot()), Cell(r1 % GridX, r2 % GridY))
      ensures stuck <==> TickHangs(old(Snapshot()), Cell(r1 % GridX, r2 % GridY))
    {
      ghost var g := Snapshot();
      Advance();
      var hit := HitsBody();
      MovedHits(g, HeadStep(g.body[0], g.d));
      if hit {
        gameState := Over;
        return false;
      }
      if snakeX[0] == appleX && snakeY[0] == appleY {
        Eat();
      }
      TickThroughGrowth(g, Snapshot(), Cell(r1 % GridX, r2 % GridY));
      stuck := PlaceApple(r1, r2);
    }

    /** `snake_handle_input(self, event_type)`. */
    method HandleInput(eventType: int)
      modifies this
      ensures (gameState, d) == AfterInput(old(gameState), old(d), eventType)
      ensures snakeLen == old(snakeLen) && appleX == old(appleX) && appleY == old(appleY)
      ensures newApple == old(newApple) && lastTick == old(lastTick)
    {
      match gameState {
        case Over | Win =>
          if eventType == Input.DPAD_UP || eventType == Input.DPAD_DOWN ||
             eventType == Input.DPAD_LEFT || eventType == Input.DPAD_RIGHT ||
             eventType == Input.SELECT {
            gameState := New;
          }
        case Run =>
          if eventType == Input.DPAD_UP {
            d := Up;
          } else if eventType == Input.DPAD_DOWN {
            d := Down;
          } else if eventType == Input.DPAD_LEFT {
            d := Left;
          } else if eventType == Input.DPAD_RIGHT {
            d := Right;
          }
        case New =>
      }
    }
  }
}
