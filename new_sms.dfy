// ui/pages/sms/new_sms.c: composing a text message. The page has two fields, the recipient's
// number (up to 10 digits) and the message (up to 140 characters, shown 14 to a line); UP
// and DOWN switch between them, and the keypad types into the current one.

module NewSms {
  import opened Wrappers
  import CStr
  import Arith
  import Cursors
  import Tiles
  import Input

  const MaxPhoneNumberLength: int := 10
  const MaxSmsLength: int := 140
  /** Characters on one line of the message area. */
  const LineLength: int := 14

  /** `InputMode`. */
  datatype InputMode = NumberInput | SmsInput

  /** The letter a digit key types in the message: the first letter of its group, a space on
    * 0 and a full stop on 1. */
  function SmsChar(e: int): (c: char)
    requires Input.IsDigitKey(e)
    ensures c in " .adgjmptw" && c != CStr.NUL
  {
    " .adgjmptw"[e - Input.KEYPAD_0]
  }

  /** The cursor after `n` characters of the message: column `n % 14` of line `n / 14`. */
  function CursorFor(n: int): (int, int)
  {
    (n % LineLength, n / LineLength)
  }

  // ------------------------------------------------------------ the message's lines

  /** The lines `draw_sms_content_area` draws from character `i` on: 14 characters each, the
    * last one what is left. */
  function LinesFrom(s: seq<char>, i: nat): seq<seq<char>>
    decreases |s| - i
  {
    if i >= |s| then [] else [s[i..if |s| - i < LineLength then |s| else i + LineLength]] + LinesFrom(s, i + LineLength)
  }

  /** The lines of a message. */
  function Lines(s: seq<char>): seq<seq<char>>
  {
    LinesFrom(s, 0)
  }

  /** Line `k` from character `i` on holds the characters from `i + 14 k`, and there are as
    * many lines as it takes to hold the rest. */
  lemma {:induction false} LinesFromAre(s: seq<char>, i: nat)
    requires i <= |s|
    ensures |LinesFrom(s, i)| == (|s| - i + LineLength - 1) / LineLength
    ensures forall k :: 0 <= k < |LinesFrom(s, i)| ==>
      LinesFrom(s, i)[k] == s[i + LineLength * k..Min(i + LineLength * k + LineLength, |s|)]
    decreases |s| - i
  {
    var n := |s| - i;
    if i < |s| {
      var rest := LinesFrom(s, i + LineLength);
      if i + LineLength <= |s| {
        LinesFromAre(s, i + LineLength);
        Arith.DivUnique(n + LineLength - 1, LineLength, (n - 1) / LineLength + 1, (n - 1) % LineLength);
      } else {
        Arith.DivUnique(n + LineLength - 1, LineLength, 1, n - 1);
      }
      forall k | 1 <= k < |LinesFrom(s, i)|
        ensures LinesFrom(s, i)[k] == s[i + LineLength * k..Min(i + LineLength * k + LineLength, |s|)]
      {
        assert LinesFrom(s, i)[k] == rest[k - 1];
      }
    }
  }

  function Min(a: int, b: int): int
  {
    if a <= b then a else b
  }

  /** The lines hold the message in order, at most 14 characters each, every line but the last
    * full. */
  lemma LinesOfMessage(s: seq<char>)
    ensures |Lines(s)| == (|s| + LineLength - 1) / LineLength
    ensures forall k :: 0 <= k < |Lines(s)| ==>
      Lines(s)[k] == s[LineLength * k..Min(LineLength * k + LineLength, |s|)]
    ensures forall k :: 0 <= k < |Lines(s)| - 1 ==> |Lines(s)[k]| == LineLength
  {
    LinesFromAre(s, 0);
  }

  /** The cursor stands right after the last character drawn: at the end of the last line,
    * or at the start of the line after a full one. */
  lemma CursorAfterText(s: seq<char>)
    requires s != []
    ensures var (x, y) := CursorFor(|s|); var lines := Lines(s);
      if x > 0 then y == |lines| - 1 && x == |lines[y]| else y == |lines| && |lines[y - 1]| == LineLength
  {
    LinesOfMessage(s);
    var n := |s|;
    var (x, y) := CursorFor(n);
    assert n == LineLength * y + x;
    if x > 0 {
      Arith.DivUnique(n + LineLength - 1, LineLength, y + 1, x - 1);
    } else {
      Arith.DivUnique(n + LineLength - 1, LineLength, y, LineLength - 1);
    }
  }

  /** The loop of `draw_sms_content_area`: the message cut into its lines. */
  method WrapLines(content: seq<char>) returns (lines: seq<seq<char>>)
    ensures lines == Lines(content)
  {
    lines := [];
    var i := 0;
    while i < |content|
      invariant i >= 0
      invariant lines + LinesFrom(content, i) == Lines(content)
      decreases |content| - i
    {
      var charsInLine := if |content| - i < LineLength then |content| - i else LineLength;
      lines := lines + [content[i..i + charsInLine]];
      i := i + LineLength;
    }
  }

  // ------------------------------------------------------------ the page

  /** What `new_sms_draw_tile` draws: the number field (with the "To:" frame from column 0)
    * and its cursor after the digits, or the message field (with its frame from column 0),
    * its lines and, when typing the message, its cursor. */
  datatype Drawn =
    | NumberArea(frame: bool, number: seq<char>, cursorColumn: int)
    | MessageArea(frame: bool, lines: seq<seq<char>>, cursor: Option<(int, int)>)
    | Nothing

  /** `NewSmsState`. */
  class NewSmsPage {
    const cursor: Cursors.Cursor
    const phoneNumber: array<char>
    const smsContent: array<char>
    var mode: InputMode

    /** The number typed. */
    ghost function Number(): seq<char>
      reads phoneNumber
    {
      CStr.Text(phoneNumber[..])
    }

    /** The message typed. */
    ghost function Content(): seq<char>
      reads smsContent
    {
      CStr.Text(smsContent[..])
    }

    /** Both fields are NUL-terminated within their buffers, and the cursor tracks the field
      * being typed: after the last digit of the number, or after the last character of the
      * message. */
    ghost predicate Valid()
      reads this, cursor, phoneNumber, smsContent
    {
      phoneNumber.Length == MaxPhoneNumberLength + 1 && smsContent.Length == MaxSmsLength + 1 &&
      CStr.StrLen(phoneNumber[..]) <= MaxPhoneNumberLength && CStr.StrLen(smsContent[..]) <= MaxSmsLength &&
      (mode == NumberInput ==> cursor.x == CStr.StrLen(phoneNumber[..]) && cursor.y == 0) &&
      (mode == SmsInput ==> (cursor.x, cursor.y) == CursorFor(CStr.StrLen(smsContent[..])))
    }

    /** `new_sms_page_create()`: both fields empty, typing the number. */
    constructor ()
      ensures Valid() && fresh(cursor) && fresh(phoneNumber) && fresh(smsContent)
      ensures Number() == [] && Content() == [] && mode == NumberInput
      ensures cursor.x == 0 && cursor.y == 0 && cursor.maxX == 0 && cursor.maxY == MaxPhoneNumberLength - 1
    {
      cursor := new Cursors.Cursor(0, MaxPhoneNumberLength - 1);
      phoneNumber := new char[MaxPhoneNumberLength + 1](_ => CStr.NUL);
      smsContent := new char[MaxSmsLength + 1](_ => CStr.NUL);
      mode := NumberInput;
    }

    /** `add_digit(self, d)`: the digit appended while the number has room, and the number's
      * tile marked. */
    method AddDigit(d: char, grid: Tiles.TileGrid)
      requires Valid() && grid.Valid() && mode == NumberInput && d != CStr.NUL
      modifies phoneNumber, cursor, grid.dirty
      ensures Valid()
      ensures Number() == CStr.Push(old(Number()), d, MaxPhoneNumberLength) && Content() == old(Content())
      ensures grid.Dirty() == if |old(Number())| < MaxPhoneNumberLength then Tiles.Mark(old(grid.Dirty()), Tiles.Pos(1, 1))
                              else old(grid.Dirty())
    {
      if cursor.x < MaxPhoneNumberLength {
        CStr.AppendChar(phoneNumber[..], d);
        phoneNumber[cursor.x] := d;
        cursor.x := cursor.x + 1;
        phoneNumber[cursor.x] := CStr.NUL;
        grid.MarkTileDirty(1, 1);
      }
    }

    /** `remove_digit(self)`: the last digit dropped, if there is one, and the number's tile
      * marked. */
    method RemoveDigit(grid: Tiles.TileGrid)
      requires Valid() && grid.Valid() && mode == NumberInput
      modifies phoneNumber, cursor, grid.dirty
      ensures Valid()
      ensures Number() == CStr.Pop(old(Number())) && Content() == old(Content())
      ensures grid.Dirty() == if old(Number()) != [] then Tiles.Mark(old(grid.Dirty()), Tiles.Pos(1, 1))
                              else old(grid.Dirty())
    {
      if cursor.x > 0 {
        CStr.DropLastChar(phoneNumber[..]);
        cursor.x := cursor.x - 1;
        phoneNumber[cursor.x] := CStr.NUL;
        grid.MarkTileDirty(1, 1);
      }
    }

    /** `add_char(self, c)`: the character appended while the message has room, the cursor
      * after it, and the message's tile marked. */
    method AddChar(c: char, grid: Tiles.TileGrid)
      requires Valid() && grid.Valid() && mode == SmsInput && c != CStr.NUL
      modifies smsContent, cursor, grid.dirty
      ensures Valid()
      ensures Content() == CStr.Push(old(Content()), c, MaxSmsLength) && Number() == old(Number())
      ensures grid.Dirty() == if |old(Content())| < MaxSmsLength then Tiles.Mark(old(grid.Dirty()), Tiles.Pos(1, 3))
                              else old(grid.Dirty())
    {
      if CStr.StrLen(smsContent[..]) < MaxSmsLength {
        var contentLen := CStr.StrLen(smsContent[..]);
        CStr.AppendChar(smsContent[..], c);
        smsContent[contentLen] := c;
        smsContent[contentLen + 1] := CStr.NUL;
        contentLen := contentLen + 1;
        cursor.y := contentLen / LineLength;
        cursor.x := contentLen % LineLength;
        grid.MarkTileDirty(1, 3);
      }
    }

    /** `remove_char(self)`: the last character dropped, if there is one, the cursor after the
      * one before it, and the message's tile marked. */
    method RemoveChar(grid: Tiles.TileGrid)
      requires Valid() && grid.Valid() && mode == SmsInput
      modifies smsContent, cursor, grid.dirty
      ensures Valid()
      ensures Content() == CStr.Pop(old(Content())) && Number() == old(Number())
      ensures grid.Dirty() == if old(Content()) != [] then Tiles.Mark(old(grid.Dirty()), Tiles.Pos(1, 3))
                              else old(grid.Dirty())
    {
      var contentLen := CStr.StrLen(smsContent[..]);
      if contentLen > 0 {
        CStr.DropLastChar(smsContent[..]);
        smsContent[contentLen - 1] := CStr.NUL;
        contentLen := contentLen - 1;
        if contentLen == 0 {
          cursor.x := 0;
          cursor.y := 0;
        } else {
          cursor.y := contentLen / LineLength;
          cursor.x := contentLen % LineLength;
        }
        grid.MarkTileDirty(1, 3);
      }
    }

    /** `new_sms_handle_input(self, event_type)`: a digit key types into the current field (its
      * digit into the number, its letter into the message), LEFT on the D-pad is backspace,
      * UP switches to the number and DOWN to the message; the LEFT soft key leaves the page
      * (`popped`). Other events change nothing. */
    method HandleInput(eventType: int, grid: Tiles.TileGrid) returns (popped: bool)
      requires Valid() && grid.Valid()
      modifies this, cursor, phoneNumber, smsContent, grid.dirty
      ensures Valid()
      ensures popped <==> eventType == Input.LEFT
      ensures Input.IsDigitKey(eventType) && old(mode) == NumberInput ==>
        Number() == CStr.Push(old(Number()), Input.DigitChar(eventType), MaxPhoneNumberLength) && Content() == old(Content())
      ensures Input.IsDigitKey(eventType) && old(mode) == SmsInput ==>
        Content() == CStr.Push(old(Content()), SmsChar(eventType), MaxSmsLength) && Number() == old(Number())
      ensures eventType == Input.DPAD_LEFT && old(mode) == NumberInput ==>
        Number() == CStr.Pop(old(Number())) && Content() == old(Content())
      ensures eventType == Input.DPAD_LEFT && old(mode) == SmsInput ==>
        Content() == CStr.Pop(old(Content())) && Number() == old(Number())
      ensures mode == (if eventType == Input.DPAD_UP then NumberInput
                       else if eventType == Input.DPAD_DOWN then SmsInput
                       else old(mode))
      ensures !Input.IsDigitKey(eventType) && eventType != Input.DPAD_LEFT ==>
        Number() == old(Number()) && Content() == old(Content())
      ensures (Input.IsDigitKey(eventType) || eventType == Input.DPAD_LEFT) && old(mode) == NumberInput ==>
        grid.Dirty() == if (Input.IsDigitKey(eventType) && |old(Number())| < MaxPhoneNumberLength) ||
                           (eventType == Input.DPAD_LEFT && old(Number()) != [])
                        then Tiles.Mark(old(grid.Dirty()), Tiles.Pos(1, 1)) else old(grid.Dirty())
      ensures (Input.IsDigitKey(eventType) || eventType == Input.DPAD_LEFT) && old(mode) == SmsInput ==>
        grid.Dirty() == if (Input.IsDigitKey(eventType) && |old(Content())| < MaxSmsLength) ||
                           (eventType == Input.DPAD_LEFT && old(Content()) != [])
                        then Tiles.Mark(old(grid.Dirty()), Tiles.Pos(1, 3)) else old(grid.Dirty())
      ensures eventType == Input.DPAD_UP ==>
        grid.Dirty() == if old(mode) == SmsInput then Tiles.Mark(old(grid.Dirty()), Tiles.Pos(1, 1)) else old(grid.Dirty())
      ensures eventType == Input.DPAD_DOWN ==>
        grid.Dirty() == if old(mode) == NumberInput then Tiles.Mark(old(grid.Dirty()), Tiles.Pos(1, 3)) else old(grid.Dirty())
      ensures !Input.IsDigitKey(eventType) && eventType !in {Input.DPAD_LEFT, Input.DPAD_UP, Input.DPAD_DOWN} ==>
        grid.Dirty() == old(grid.Dirty())
    {
      popped := false;
      if Input.IsDigitKey(eventType) {
        if mode == NumberInput {
          AddDigit(Input.DigitChar(eventType), grid);
        } else {
          AddChar(SmsChar(eventType), grid);
        }
      } else if eventType == Input.DPAD_LEFT {
        if mode == NumberInput {
          RemoveDigit(grid);
        } else {
          RemoveChar(grid);
        }
      } else if eventType == Input.DPAD_UP {
        if mode == SmsInput {
          mode := NumberInput;
          cursor.x := CStr.StrLen(phoneNumber[..]);
          cursor.y := 0;
          grid.MarkTileDirty(1, 1);
        }
      } else if eventType == Input.DPAD_DOWN {
        if mode == NumberInput {
          mode := SmsInput;
          var contentLen := CStr.StrLen(smsContent[..]);
          if contentLen == 0 {
            cursor.x := 0;
            cursor.y := 0;
          } else {
            cursor.y := contentLen / LineLength;
            cursor.x := contentLen % LineLength;
          }
          grid.MarkTileDirty(1, 3);
        }
      } else if eventType == Input.LEFT {
        popped := true;
      }
    }

    /** `new_sms_draw_tile(self, tx, ty)`: tile rows 0 and 1 draw the number field, rows 2 and
      * 3 the message field, the others nothing. */
    method DrawTile(tx: int, ty: int) returns (d: Drawn)
      requires Valid() && 0 <= ty
      ensures ty / 2 == 0 ==> d == NumberArea(tx == 0, Number(), |Number()|)
      ensures ty / 2 == 1 ==> d == MessageArea(tx == 0, Lines(Content()),
                                               if mode == SmsInput then Some((cursor.x, cursor.y)) else None)
      ensures ty / 2 > 1 ==> d == Nothing
    {
      var row := ty / 2;
      d := Nothing;
      if row == 0 {
        d := NumberArea(tx == 0, CStr.Text(phoneNumber[..]), CStr.StrLen(phoneNumber[..]));
      } else if row == 1 {
        var lines := WrapLines(CStr.Text(smsContent[..]));
        d := MessageArea(tx == 0, lines, if mode == SmsInput then Some((cursor.x, cursor.y)) else None);
      }
    }
  }
}
