// ui/pages/calculator.c: a four-function calculator. Keypad digits and `*` (the decimal
// point) edit a display of at most 13 characters; a cursor over a 3x2 block of buttons picks
// C, /, *, +, - or =, and SELECT presses it.
//
// The operands are `double`s in the source; here they are reals, and the two conversions the
// page makes, `atof` of the display and the `sprintf` of a result, are parameters.

module Calculator {
  import opened Wrappers
  import Cursors
  import Tiles
  import Input
  import CStr

  const MaxDisplayLength: int := 13

  /** `Operation`. */
  datatype Operation = OpNone | OpAdd | OpSub | OpMul | OpDiv

  /** `CalculatorState` without its cursor: the display's text (the characters before its
    * NUL), the operands, the pending operation and the two flags. */
  datatype Calc = Calc(display: seq<char>, operand1: real, operand2: real, operation: Operation,
                       newNumber: bool, error: bool)

  /** What every function of the page keeps: the text fits the 13-character display, and the
    * error flag is set only with "Error" shown. */
  predicate Wf(c: Calc)
  {
    |c.display| <= MaxDisplayLength && (c.error ==> c.display == "Error")
  }

  /** `clear_calculator`. */
  const Cleared: Calc := Calc("0", 0.0, 0.0, OpNone, true, false)

  // ------------------------------------------------------------ editing the display

  predicate IsDigit(ch: char)
  {
    '0' <= ch <= '9'
  }

  /** `add_digit(state, digit)`: ignored after an error; a new number starts with the digit;
    * a lone "0" is replaced; otherwise the digit is appended while the display has room. */
  function WithDigit(c: Calc, digit: char): (r: Calc)
    ensures c.error ==> r == c
    ensures !c.error ==> !r.newNumber && r == c.(display := r.display, newNumber := false)
    ensures Wf(c) ==> Wf(r)
  {
    if c.error then c
    else if c.newNumber then
      c.(display := if digit == '0' then "0" else [digit], newNumber := false)
    else if c.display == "0" && digit != '.' then
      c.(display := [digit])
    else if |c.display| < MaxDisplayLength then
      c.(display := c.display + [digit])
    else c
  }

  /** `add_decimal(state)`: ignored after an error; a new number starts as "0."; otherwise a
    * point is appended when there is none yet and the display has room. */
  function WithDecimal(c: Calc): (r: Calc)
    ensures c.error ==> r == c
    ensures !c.error ==> !r.newNumber && r == c.(display := r.display, newNumber := false)
    ensures Wf(c) ==> Wf(r)
    ensures !c.error && (c.newNumber || |c.display| < MaxDisplayLength) ==> '.' in r.display
  {
    if c.error then c
    else if c.newNumber then c.(display := "0.", newNumber := false)
    else if '.' !in c.display && |c.display| < MaxDisplayLength then
      c.(display := c.display + ['.'])
    else c
  }

  /** The number of decimal points in a text. */
  function Points(s: seq<char>): nat
  {
    multiset(s)['.']
  }

  /** Digits and the decimal point never give the display a second point. */
  lemma AtMostOnePoint(c: Calc, digit: char)
    requires !c.newNumber ==> Points(c.display) <= 1
    requires IsDigit(digit)
    ensures !WithDigit(c, digit).newNumber ==> Points(WithDigit(c, digit).display) <= 1
    ensures !WithDecimal(c).newNumber ==> Points(WithDecimal(c).display) <= 1
  {
    if !c.error && !c.newNumber && c.display != "0" && |c.display| < MaxDisplayLength {
      assert multiset(c.display + [digit]) == multiset(c.display) + multiset{digit};
    }
    if !c.error && !c.newNumber && '.' !in c.display && |c.display| < MaxDisplayLength {
      assert multiset(c.display + ['.']) == multiset(c.display) + multiset{'.'};
    }
  }

  /** The digits typed, one `add_digit` each, in order. */
  function TypeDigits(c: Calc, ds: seq<char>): Calc
  {
    if ds == [] then c else WithDigit(TypeDigits(c, ds[..|ds| - 1]), ds[|ds| - 1])
  }

  /** A digit string without its leading zeros. */
  function DropZeros(ds: seq<char>): (t: seq<char>)
    ensures t != [] ==> t[0] != '0'
  {
    if ds != [] && ds[0] == '0' then DropZeros(ds[1..]) else ds
  }

  /** The number a keypad shows for typed digits: the digits without leading zeros, "0" when
    * nothing else is left, and at most the first 13 of them. */
  function Entered(ds: seq<char>): (s: seq<char>)
    ensures 1 <= |s| <= MaxDisplayLength
  {
    var t := DropZeros(ds);
    if t == [] then "0" else if |t| <= MaxDisplayLength then t else t[..MaxDisplayLength]
  }

  lemma {:induction false} DropZerosSnoc(ds: seq<char>, d: char)
    ensures DropZeros(ds) != [] ==> DropZeros(ds + [d]) == DropZeros(ds) + [d]
    ensures DropZeros(ds) == [] ==> DropZeros(ds + [d]) == DropZeros([d])
  {
    if ds == [] {
      assert ds + [d] == [d];
    } else if ds[0] == '0' {
      assert (ds + [d])[1..] == ds[1..] + [d];
      DropZerosSnoc(ds[1..], d);
    } else {
      assert (ds + [d])[0] == ds[0];
      assert DropZeros(ds + [d]) == ds + [d];
    }
  }

  /** Typing digits on a new number shows the number they spell, as `Entered` has it. */
  lemma {:induction false} TypedDigits(c: Calc, ds: seq<char>)
    requires !c.error && c.newNumber && ds != []
    requires forall i :: 0 <= i < |ds| ==> IsDigit(ds[i])
    ensures TypeDigits(c, ds) == c.(display := Entered(ds), newNumber := false)
  {
    var init, d := ds[..|ds| - 1], ds[|ds| - 1];
    assert ds == init + [d];
    if init == [] {
      assert TypeDigits(c, ds) == WithDigit(c, d);
      if d == '0' {
        assert DropZeros(ds) == DropZeros([]) == [];
      } else {
        assert DropZeros(ds) == [d];
      }
    } else {
      TypedDigits(c, init);
      DropZerosSnoc(init, d);
      var t := DropZeros(init);
      var shown := TypeDigits(c, init);
      assert TypeDigits(c, ds) == WithDigit(shown, d);
      if t == [] {
        assert shown.display == "0";
      } else {
        assert shown.display[0] == t[0] != '0';
        if |t| > MaxDisplayLength {
          assert (t + [d])[..MaxDisplayLength] == t[..MaxDisplayLength];
        }
      }
    }
  }

  // ------------------------------------------------------------ operations

  /** The result of a binary operation. */
  function Apply(op: Operation, a: real, b: real): real
    requires op != OpNone && (op == OpDiv ==> b != 0.0)
  {
    match op
    case OpAdd => a + b
    case OpSub => a - b
    case OpMul => a * b
    case OpDiv => a / b
  }

  /** `update_display_number(state, number)`: the formatted number, or "Error" with the error
    * flag when it does not fit the display. */
  function ShowNumber(c: Calc, number: real, format: real -> seq<char>): (r: Calc)
    ensures |format(number)| <= MaxDisplayLength ==> r == c.(display := format(number))
    ensures |format(number)| > MaxDisplayLength ==> r == c.(display := "Error", error := true)
  {
    var text := format(number);
    if |text| > MaxDisplayLength then c.(display := "Error", error := true) else c.(display := text)
  }

  /** A pending operation carried out on the second operand `b`: `b` kept as the second
    * operand and the result shown. */
  function Computed(c: Calc, b: real, format: real -> seq<char>): Calc
    requires c.operation != OpNone && (c.operation == OpDiv ==> b != 0.0)
  {
    ShowNumber(c.(operand2 := b), Apply(c.operation, c.operand1, b), format)
  }

  /** A division by the zero second operand: "Error" and the error flag, the operation kept. */
  function DivisionError(c: Calc, operand2: real): Calc
  {
    c.(operand2 := operand2, display := "Error", error := true)
  }

  /** `set_operation(state, op)`: ignored after an error. With an operation pending on a typed
    * number, it is carried out first (its result shown and kept as the first operand, or the
    * division error); otherwise the display becomes the first operand. Then `op` is pending
    * on a new number. */
  function SetOperation(c: Calc, op: Operation, atof: seq<char> -> real, format: real -> seq<char>): (r: Calc)
    ensures c.error ==> r == c
    ensures !c.error && (c.operation == OpNone || c.newNumber) ==>
      r == c.(operand1 := atof(c.display), operation := op, newNumber := true)
    ensures !c.error && c.operation == OpDiv && !c.newNumber && atof(c.display) == 0.0 ==>
      r == DivisionError(c, 0.0)
    ensures Wf(c) ==> Wf(r)
  {
    if c.error then c
    else if c.operation != OpNone && !c.newNumber then
      var b := atof(c.display);
      if c.operation == OpDiv && b == 0.0 then DivisionError(c, b)
      else
        Computed(c, b, format).(operand1 := Apply(c.operation, c.operand1, b), operation := op, newNumber := true)
    else c.(operand1 := atof(c.display), operation := op, newNumber := true)
  }

  /** Whether `set_operation` marks the display dirty: unless ignored or failed on a zero
    * divisor. */
  predicate SetOperationMarks(c: Calc, atof: seq<char> -> real)
  {
    !c.error && !(c.operation == OpDiv && !c.newNumber && atof(c.display) == 0.0)
  }

  /** `calculate_result(state)`: ignored after an error or with no operation pending;
    * otherwise the operation is carried out on the display's number, its result shown, and
    * the calculator waits for a new number with nothing pending. */
  function CalculateResult(c: Calc, atof: seq<char> -> real, format: real -> seq<char>): (r: Calc)
    ensures c.error || c.operation == OpNone ==> r == c
    ensures !c.error && c.operation == OpDiv && atof(c.display) == 0.0 ==> r == DivisionError(c, 0.0)
    ensures !c.error && c.operation != OpNone && !(c.operation == OpDiv && atof(c.display) == 0.0) ==>
      r.operation == OpNone && r.newNumber && r.operand1 == c.operand1 && r.operand2 == atof(c.display)
    ensures Wf(c) ==> Wf(r)
  {
    if c.error || c.operation == OpNone then c
    else
      var b := atof(c.display);
      if c.operation == OpDiv && b == 0.0 then DivisionError(c, b)
      else
        Computed(c, b, format).(operation := OpNone, newNumber := true)
  }

  /** Whether `calculate_result` marks the display dirty: only when it computed a result. */
  predicate CalculateMarks(c: Calc, atof: seq<char> -> real)
  {
    !c.error && c.operation != OpNone && !(c.operation == OpDiv && atof(c.display) == 0.0)
  }

  /** Two operands entered and `=` pressed: the display shows their sum, difference, product
    * or quotient as the format writes it, or "Error" for a zero divisor. */
  lemma Calculation(a: seq<char>, op: Operation, b: seq<char>, atof: seq<char> -> real, format: real -> seq<char>)
    requires op != OpNone
    ensures var c := SetOperation(Cleared.(display := a, newNumber := false), op, atof, format);
      var r := CalculateResult(c.(display := b, newNumber := false), atof, format);
      if op == OpDiv && atof(b) == 0.0 then r.display == "Error" && r.error
      else
        var v := Apply(op, atof(a), atof(b));
        r.display == (if |format(v)| <= MaxDisplayLength then format(v) else "Error") &&
        r.operation == OpNone && r.newNumber
  {
  }

  /** `handle_operator(state, op)`: the button's character picks the operation; `C` clears. */
  function Operator(c: Calc, op: char, atof: seq<char> -> real, format: real -> seq<char>): (r: Calc)
    ensures op == 'C' ==> r == Cleared
    ensures op !in "+-*/=C" ==> r == c
    ensures Wf(c) ==> Wf(r)
  {
    match op
    case '+' => SetOperation(c, OpAdd, atof, format)
    case '-' => SetOperation(c, OpSub, atof, format)
    case '*' => SetOperation(c, OpMul, atof, format)
    case '/' => SetOperation(c, OpDiv, atof, format)
    case '=' => CalculateResult(c, atof, format)
    case 'C' => Cleared
    case _ => c
  }

  /** Whether `handle_operator` marks the display dirty. */
  predicate OperatorMarks(c: Calc, op: char, atof: seq<char> -> real)
  {
    match op
    case '+' => SetOperationMarks(c, atof)
    case '-' => SetOperationMarks(c, atof)
    case '*' => SetOperationMarks(c, atof)
    case '/' => SetOperationMarks(c, atof)
    case '=' => CalculateMarks(c, atof)
    case 'C' => true
    case _ => false
  }

  // ------------------------------------------------------------ buttons and tiles

  /** `button_layout`: row 0 holds C, /, *; row 1 holds +, -, =. */
  const Layout: seq<seq<string>> := [["C", "/", "*"], ["+", "-", "="]]

  /** The four tiles of button (col, row): two columns from `2 col + 1`, two rows from `2 row + 3`,
    * in the order `handle_input` marks them. */
  function ButtonTiles(col: int, row: int): seq<Tiles.Pos>
  {
    [Tiles.Pos(col * 2 + 1, row * 2 + 3), Tiles.Pos(col * 2 + 2, row * 2 + 3),
     Tiles.Pos(col * 2 + 1, row * 2 + 4), Tiles.Pos(col * 2 + 2, row * 2 + 4)]
  }

  /** The button a tile belongs to, as `draw_button_area` finds it. */
  function ButtonOf(tx: int, ty: int): (b: Option<(int, int)>)
    ensures b.Some? ==> 0 <= b.value.0 < 3 && 0 <= b.value.1 < 2
  {
    if 3 <= ty <= 6 && 1 <= tx <= 6 then Some(((tx - 1) / 2, (ty - 3) / 2)) else None
  }

  /** The tiles marked for a button are exactly the tiles that belong to it. */
  lemma ButtonTilesBelong(col: int, row: int, tx: int, ty: int)
    requires 0 <= col < 3 && 0 <= row < 2
    ensures Tiles.Pos(tx, ty) in ButtonTiles(col, row) <==> ButtonOf(tx, ty) == Some((col, row))
    ensures forall p :: p in ButtonTiles(col, row) ==> Tiles.InGrid(p)
  {
    if ButtonOf(tx, ty) == Some((col, row)) {
      assert tx == 2 * col + 1 || tx == 2 * col + 2;
      assert ty == 2 * row + 3 || ty == 2 * row + 4;
    }
  }

  /** What `calculator_draw_tile` draws on one tile. */
  datatype Drawn =
    | Background                                   // the page and the display frame, on tile (0, 0)
    | Readout(text: seq<char>, inRed: bool)       // the display's text, on tile (1, 1)
    | Button(text: string, selected: bool)        // a 2x2 button, on its top-left tile
    | Blank

  /** The drawing of tile (tx, ty) with the cursor on button (cx, cy). */
  function TileAt(c: Calc, cx: int, cy: int, tx: int, ty: int): (d: Drawn)
    ensures d.Background? <==> tx == 0 && ty == 0
    ensures d.Readout? <==> tx == 1 && ty == 1
    ensures d.Readout? ==> d.text == c.display && d.inRed == c.error
    ensures d.Button? <==> ButtonOf(tx, ty).Some? && (tx - 1) % 2 == 0 && (ty - 3) % 2 == 0
    ensures d.Button? ==> var (col, row) := ButtonOf(tx, ty).value;
      d.text == Layout[row][col] && (d.selected <==> cx == col && cy == row)
  {
    if ty <= 1 then
      if tx == 0 && ty == 0 then Background
      else if tx == 1 && ty == 1 then Readout(c.display, c.error)
      else Blank
    else if ButtonOf(tx, ty).Some? && (tx - 1) % 2 == 0 && (ty - 3) % 2 == 0 then
      var (col, row) := ButtonOf(tx, ty).value;
      Button(Layout[row][col], cx == col && cy == row)
    else Blank
  }

  /** Each button is drawn once, on the first of its tiles. */
  lemma ButtonDrawnOnce(c: Calc, cx: int, cy: int, col: int, row: int)
    requires 0 <= col < 3 && 0 <= row < 2
    ensures var ts := ButtonTiles(col, row);
      TileAt(c, cx, cy, ts[0].x, ts[0].y) == Button(Layout[row][col], cx == col && cy == row) &&
      forall i :: 1 <= i < 4 ==> TileAt(c, cx, cy, ts[i].x, ts[i].y) == Blank
  {
  }

  /** The cursor after a D-pad event: one button in the direction, inside the 3x2 block. */
  function CursorAfter(eventType: int, x: int, y: int): (int, int)
  {
    if eventType == Input.DPAD_UP && y > 0 then (x, y - 1)
    else if eventType == Input.DPAD_DOWN && y < 1 then (x, y + 1)
    else if eventType == Input.DPAD_LEFT && x > 0 then (x - 1, y)
    else if eventType == Input.DPAD_RIGHT && x < 2 then (x + 1, y)
    else (x, y)
  }

  /** The cursor stays on the block of buttons, and every button is reachable from the first. */
  lemma CursorStaysOnButtons(eventType: int, x: int, y: int, col: int, row: int)
    requires 0 <= x <= 2 && 0 <= y <= 1 && 0 <= col <= 2 && 0 <= row <= 1
    ensures var (x', y') := CursorAfter(eventType, x, y); 0 <= x' <= 2 && 0 <= y' <= 1
    ensures CursorAfter(Input.DPAD_DOWN, CursorAfter(Input.DPAD_RIGHT, CursorAfter(Input.DPAD_RIGHT, 0, 0).0, 0).0, 0)
      == (2, 1)
    ensures !Input.IsDpad(eventType) ==> CursorAfter(eventType, x, y) == (x, y)
  {
  }

  /** The page's state: the calculator and its cursor. */
  class CalculatorPage {
    const display: array<char>
    var operand1: real
    var operand2: real
    var operation: Operation
    var newNumber: bool
    var error: bool
    const cursor: Cursors.Cursor

    /** The state, the display read as the C string it holds. */
    ghost function State(): Calc
      reads this, display
    {
      Calc(CStr.Text(display[..]), operand1, operand2, operation, newNumber, error)
    }

    /** The cursor's bounds from `cursor_init(2, 1)` and the position inside them. */
    ghost predicate Valid()
      reads this, cursor, display
    {
      display.Length == MaxDisplayLength + 1 && Wf(State()) && cursor.maxX == 2 && cursor.maxY == 1 && 0 <= cursor.x <= 2 && 0 <= cursor.y <= 1
    }

    /** `calculator_page_create`: a cleared calculator, the cursor on "C". */
    constructor ()
      ensures Valid() && fresh(cursor) && fresh(display)
      ensures State() == Cleared && cursor.x == 0 && cursor.y == 0
    {
      // the zeroed state with "0" copied in
      display := new char[MaxDisplayLength + 1](i => if i == 0 then '0' else CStr.NUL);
      operand1, operand2 := 0.0, 0.0;
      operation := OpNone;
      newNumber := true;
      error := false;
      cursor := new Cursors.Cursor(2, 1);
      new;
      CStr.TextOfCopy(display[..], "0");
    }

    /** `strcpy(state->display, s)`. */
    method SetDisplay(s: seq<char>)
      requires display.Length == MaxDisplayLength + 1 && CStr.NoNul(s) && |s| <= MaxDisplayLength
      modifies display
      ensures CStr.Text(display[..]) == s
    {
      CStr.Strcpy(display, 0, s);
      CStr.TextOfCopy(display[..], s);
    }

    /** `display[0] = c; display[1] = '\0'`. */
    method SetSingle(c: char)
      requires display.Length == MaxDisplayLength + 1 && c != CStr.NUL
      modifies display
      ensures CStr.Text(display[..]) == [c]
    {
      display[0] := c;
      display[1] := CStr.NUL;
      CStr.TextOfCopy(display[..], [c]);
    }

    /** `display[len] = c; display[len + 1] = '\0'` with `len` the text's length: appends. */
    method Append(c: char)
      requires display.Length == MaxDisplayLength + 1 && c != CStr.NUL
      requires CStr.StrLen(display[..]) < MaxDisplayLength
      modifies display
      ensures CStr.Text(display[..]) == old(CStr.Text(display[..])) + [c]
    {
      var len := CStr.StrLen(display[..]);
      CStr.AppendChar(display[..], c);
      display[len] := c;
      display[len + 1] := CStr.NUL;
    }

    /** `add_digit(state, digit)`, with the display tile marked unless ignored. */
    method AddDigit(digit: char, grid: Tiles.TileGrid)
      requires Valid() && grid.Valid() && digit != CStr.NUL
      modifies this, display, grid.dirty
      ensures State() == WithDigit(old(State()), digit)
      ensures grid.Dirty() == if old(error) then old(grid.Dirty()) else Tiles.Mark(old(grid.Dirty()), Tiles.Pos(1, 1))
    {
      if error {
        return;
      }
      if newNumber {
        if digit == '0' {
          SetDisplay("0");
        } else {
          SetSingle(digit);
        }
        newNumber := false;
      } else {
        if CStr.Text(display[..]) == "0" && digit != '.' {
          SetSingle(digit);
        } else {
          var len := CStr.StrLen(display[..]);
          if len < MaxDisplayLength {
            Append(digit);
          }
        }
      }
      grid.MarkTileDirty(1, 1);
    }

    /** `add_decimal(state)`, with the display tile marked unless ignored. */
    method AddDecimal(grid: Tiles.TileGrid)
      requires Valid() && grid.Valid()
      modifies this, display, grid.dirty
      ensures State() == WithDecimal(old(State()))
      ensures grid.Dirty() == if old(error) then old(grid.Dirty()) else Tiles.Mark(old(grid.Dirty()), Tiles.Pos(1, 1))
    {
      if error {
        return;
      }
      if newNumber {
        SetDisplay("0.");
        newNumber := false;
      } else {
        if '.' !in CStr.Text(display[..]) {
          var len := CStr.StrLen(display[..]);
          if len < MaxDisplayLength {
            Append('.');
          }
        }
      }
      grid.MarkTileDirty(1, 1);
    }

    /** `update_display_number(state, number)`: the formatted number, unless it is longer
      * than the display, which then shows "Error". */
    method UpdateDisplayNumber(number: real, format: real -> seq<char>)
      requires display.Length == MaxDisplayLength + 1 && CStr.NoNul(format(number))
      modifies this, display
      ensures State() == ShowNumber(old(State()), number, format)
    {
      var text := format(number);
      if |text| <= MaxDisplayLength {
        SetDisplay(text);
      } else {
        SetDisplay("Error");
        error := true;
      }
    }

    /** `set_operation(state, op)`, with the display tile marked when it completes. */
    method SetOp(op: Operation, grid: Tiles.TileGrid, atof: seq<char> -> real, format: real -> seq<char>)
      requires Valid() && grid.Valid() && forall v :: CStr.NoNul(format(v))
      modifies this, display, grid.dirty
      ensures State() == SetOperation(old(State()), op, atof, format)
      ensures grid.Dirty() == if SetOperationMarks(old(State()), atof) then Tiles.Mark(old(grid.Dirty()), Tiles.Pos(1, 1))
                              else old(grid.Dirty())
    {
      if error {
        return;
      }
      if operation != OpNone && !newNumber {
        var ok, result := CarryOut(atof, format);
        if !ok {
          return;
        }
        operand1 := result;
      } else {
        operand1 := atof(CStr.Text(display[..]));
      }
      operation := op;
      newNumber := true;
      grid.MarkTileDirty(1, 1);
    }

    /** The pending operation carried out, as `set_operation` and `calculate_result` both do:
      * the display read into the second operand, then the result shown, or "Error" with the
      * error flag for a division by zero (`ok` false). */
    method CarryOut(atof: seq<char> -> real, format: real -> seq<char>) returns (ok: bool, result: real)
      requires display.Length == MaxDisplayLength + 1 && forall v :: CStr.NoNul(format(v))
      requires !error && operation != OpNone
      modifies this, display
      ensures var c, b := old(State()), atof(old(State()).display);
        ok <==> !(c.operation == OpDiv && b == 0.0)
      ensures var c, b := old(State()), atof(old(State()).display);
        !ok ==> State() == DivisionError(c, b)
      ensures var c, b := old(State()), atof(old(State()).display);
        ok ==> result == Apply(c.operation, c.operand1, b) && State() == Computed(c, b, format)
    {
      ghost var c0 := State();
      operand2 := atof(CStr.Text(display[..]));
      match operation {
        case OpAdd => result := operand1 + operand2;
        case OpSub => result := operand1 - operand2;
        case OpMul => result := operand1 * operand2;
        case OpDiv =>
          if operand2 == 0.0 {
            SetDisplay("Error");
            error := true;
            return false, 0.0;
          }
          result := operand1 / operand2;
      }
      UpdateDisplayNumber(result, format);
      ok := true;
    }

    /** `calculate_result(state)`, with the display tile marked when a result is shown. */
    method Calculate(grid: Tiles.TileGrid, atof: seq<char> -> real, format: real -> seq<char>)
      requires Valid() && grid.Valid() && forall v :: CStr.NoNul(format(v))
      modifies this, display, grid.dirty
      ensures State() == CalculateResult(old(State()), atof, format)
      ensures grid.Dirty() == if CalculateMarks(old(State()), atof) then Tiles.Mark(old(grid.Dirty()), Tiles.Pos(1, 1))
                              else old(grid.Dirty())
    {
      if error || operation == OpNone {
        return;
      }
      var ok, result := CarryOut(atof, format);
      if !ok {
        return;
      }
      operation := OpNone;
      newNumber := true;
      grid.MarkTileDirty(1, 1);
    }

    /** `clear_calculator(state)`. */
    method Clear()
      requires display.Length == MaxDisplayLength + 1
      modifies this, display
      ensures State() == Cleared
    {
      SetDisplay("0");
      operand1 := 0.0;
      operand2 := 0.0;
      operation := OpNone;
      newNumber := true;
      error := false;
    }

    /** `handle_operator(state, op)`. */
    method HandleOperator(op: char, grid: Tiles.TileGrid, atof: seq<char> -> real, format: real -> seq<char>)
      requires Valid() && grid.Valid() && forall v :: CStr.NoNul(format(v))
      modifies this, display, grid.dirty
      ensures State() == Operator(old(State()), op, atof, format)
      ensures grid.Dirty() == if OperatorMarks(old(State()), op, atof) then Tiles.Mark(old(grid.Dirty()), Tiles.Pos(1, 1))
                              else old(grid.Dirty())
    {
      match op {
        case '+' => SetOp(OpAdd, grid, atof, format);
        case '-' => SetOp(OpSub, grid, atof, format);
        case '*' => SetOp(OpMul, grid, atof, format);
        case '/' => SetOp(OpDiv, grid, atof, format);
        case '=' => Calculate(grid, atof, format);
        case 'C' =>
          Clear();
          grid.MarkTileDirty(1, 1);
        case _ =>
      }
    }

    /** One D-pad step of the cursor: the tiles of the button left and of the button reached
      * are marked. */
    method MoveCursor(eventType: int, grid: Tiles.TileGrid)
      requires Valid() && grid.Valid() && Input.IsDpad(eventType)
      modifies cursor, grid.dirty
      ensures Valid()
      ensures (cursor.x, cursor.y) == CursorAfter(eventType, old(cursor.x), old(cursor.y))
      ensures grid.Dirty() == if (cursor.x, cursor.y) == (old(cursor.x), old(cursor.y)) then old(grid.Dirty())
                              else Tiles.MarkedAll(old(grid.Dirty()), ButtonTiles(old(cursor.x), old(cursor.y)) + ButtonTiles(cursor.x, cursor.y))
    {
      var (x, y) := CursorAfter(eventType, cursor.x, cursor.y);
      if (x, y) != (cursor.x, cursor.y) {
        var before := ButtonTiles(cursor.x, cursor.y);
        cursor.x, cursor.y := x, y;
        grid.MarkAll(before + ButtonTiles(x, y));
      }
    }

    /** `calculator_handle_input(self, event_type)`: digits and the decimal point edit the
      * display, the D-pad moves the cursor, SELECT presses the button under it; other events
      * change nothing. */
    method HandleInput(eventType: int, grid: Tiles.TileGrid, atof: seq<char> -> real, format: real -> seq<char>)
      requires Valid() && grid.Valid() && forall v :: CStr.NoNul(format(v))
      modifies this, display, cursor, grid.dirty
      ensures Valid()
      ensures Input.IsDigitKey(eventType) ==> State() == WithDigit(old(State()), Input.DigitChar(eventType))
      ensures eventType == Input.KEYPAD_STAR ==> State() == WithDecimal(old(State()))
      ensures eventType == Input.SELECT ==>
        State() == Operator(old(State()), Layout[old(cursor.y)][old(cursor.x)][0], atof, format)
      ensures eventType != Input.SELECT && !Input.IsDigitKey(eventType) && eventType != Input.KEYPAD_STAR ==>
        State() == old(State())
      ensures (cursor.x, cursor.y) == CursorAfter(eventType, old(cursor.x), old(cursor.y))
      ensures Input.IsDigitKey(eventType) || eventType == Input.KEYPAD_STAR ==>
        grid.Dirty() == if old(error) then old(grid.Dirty()) else Tiles.Mark(old(grid.Dirty()), Tiles.Pos(1, 1))
      ensures Input.IsDpad(eventType) ==>
        grid.Dirty() == if (cursor.x, cursor.y) == (old(cursor.x), old(cursor.y)) then old(grid.Dirty())
                        else Tiles.MarkedAll(old(grid.Dirty()), ButtonTiles(old(cursor.x), old(cursor.y)) + ButtonTiles(cursor.x, cursor.y))
      ensures eventType == Input.SELECT ==>
        grid.Dirty() == if OperatorMarks(old(State()), Layout[old(cursor.y)][old(cursor.x)][0], atof)
                        then Tiles.Mark(old(grid.Dirty()), Tiles.Pos(1, 1)) else old(grid.Dirty())
      ensures !Input.IsDigitKey(eventType) && eventType != Input.KEYPAD_STAR && !Input.IsDpad(eventType) && eventType != Input.SELECT ==>
        grid.Dirty() == old(grid.Dirty())
    {
      if Input.IsDigitKey(eventType) {
        AddDigit(Input.DigitChar(eventType), grid);
      } else if eventType == Input.KEYPAD_STAR {
        AddDecimal(grid);
      } else if Input.IsDpad(eventType) {
        MoveCursor(eventType, grid);
      } else if eventType == Input.SELECT {
        if 0 <= cursor.y <= 1 && 0 <= cursor.x <= 2 {
          var text := Layout[cursor.y][cursor.x];
          HandleOperator(text[0], grid, atof, format);
        }
      }
    }

    /** `calculator_draw_tile(self, tx, ty)`: what the tile shows. */
    method DrawTile(tx: int, ty: int) returns (d: Drawn)
      requires Valid()
      ensures d == TileAt(State(), cursor.x, cursor.y, tx, ty)
    {
      d := Blank;
      if ty <= 1 {
        if tx == 0 && ty == 0 {
          d := Background;
        }
        if tx == 1 && ty == 1 {
          d := Readout(CStr.Text(display[..]), error);
        }
      } else if ty >= 3 && ty <= 6 {
        if tx >= 1 && tx <= 6 {
          var buttonRow, buttonCol := (ty - 3) / 2, (tx - 1) / 2;
          if (ty - 3) % 2 == 0 && (tx - 1) % 2 == 0 {
            d := Button(Layout[buttonRow][buttonCol], cursor.x == buttonCol && cursor.y == buttonRow);
          }
        }
      }
    }
  }
}
