// ui/pages/phone/call.c: the dialler. The keypad types a number of up to 10 characters, LEFT
// on the pad erases the last one, PICKUP places the call and HANGUP ends it.

module Call {
  import opened Wrappers
  import CStr
  import Cursors
  import Tiles
  import Input

  const MaxPhoneNumberLength: int := 10

  /** `CallStatus`. */
  datatype CallStatus = Idle | Dialing | Calling | Connected

  /** The three tiles of the number's row, marked after every edit. */
  const NumberTiles: seq<Tiles.Pos> := [Tiles.Pos(1, 5), Tiles.Pos(2, 5), Tiles.Pos(3, 5)]

  /** The character a key types: its digit on 0 to 9, `*` and `#` on STAR and HASH, and
    * nothing for the other events. */
  function KeyChar(e: int): (c: Option<char>)
    ensures c.Some? <==> Input.IsDigitKey(e) || e == Input.KEYPAD_STAR || e == Input.KEYPAD_HASH
    ensures c.Some? ==> c.value in "0123456789*#"
  {
    if Input.IsDigitKey(e) then Some(Input.DigitChar(e))
    else if e == Input.KEYPAD_STAR then Some('*')
    else if e == Input.KEYPAD_HASH then Some('#')
    else None
  }

  /** Two keys that type a character type the same one only when they are the same key, so the
    * number records exactly the keys pressed. */
  lemma KeyCharInjective(e1: int, e2: int)
    requires KeyChar(e1).Some? && KeyChar(e1) == KeyChar(e2)
    ensures e1 == e2
  {
  }

  /** The number after a run of keys, each typed into it as `add_digit` does. */
  function Typed(number: seq<char>, keys: seq<int>): seq<char>
  {
    if keys == [] then number
    else
      var rest := Typed(number, keys[..|keys| - 1]);
      match KeyChar(keys[|keys| - 1])
      case Some(c) => CStr.Push(rest, c, MaxPhoneNumberLength)
      case None => rest
  }

  /** From the cleared page, up to ten number keys leave exactly their characters, in order. */
  lemma {:induction false} TypedKeys(keys: seq<int>)
    requires |keys| <= MaxPhoneNumberLength && forall i :: 0 <= i < |keys| ==> KeyChar(keys[i]).Some?
    ensures |Typed([], keys)| == |keys|
    ensures forall i :: 0 <= i < |keys| ==> Typed([], keys)[i] == KeyChar(keys[i]).value
  {
    if keys != [] {
      TypedKeys(keys[..|keys| - 1]);
    }
  }

  /** The status after `make_call`: a call is placed from IDLE when a number has been typed. */
  function Placed(status: CallStatus, number: seq<char>): (r: CallStatus)
    ensures r == Calling <==> status == Calling || (status == Idle && number != [])
    ensures r != Calling ==> r == status
  {
    if |number| > 0 && status == Idle then Calling else status
  }

  /** A second PICKUP changes nothing, and a typed number always leaves IDLE. */
  lemma PlacedTwice(status: CallStatus, number: seq<char>)
    ensures Placed(Placed(status, number), number) == Placed(status, number)
    ensures status == Idle && number != [] ==> Placed(status, number) != Idle
  {
  }

  /** `CallState`. */
  class CallPage {
    const cursor: Cursors.Cursor
    const phoneNumber: array<char>
    var status: CallStatus

    /** The typed number, the C string in `phone_number`. */
    ghost function Number(): seq<char>
      reads phoneNumber
    {
      CStr.Text(phoneNumber[..])
    }

    /** `cursor.x` is the length of the number, which fits its buffer; the cursor keeps the
      * bounds `call_page_create` gives it; only IDLE and CALLING are ever reached. */
    ghost predicate Valid()
      reads this, cursor, phoneNumber
    {
      phoneNumber.Length == MaxPhoneNumberLength + 1 &&
      CStr.StrLen(phoneNumber[..]) <= MaxPhoneNumberLength && cursor.x == CStr.StrLen(phoneNumber[..]) &&
      cursor.y == 0 && cursor.maxX == 0 && cursor.maxY == MaxPhoneNumberLength - 1 &&
      (status == Idle || status == Calling)
    }

    /** `call_page_create`: an empty number and IDLE. */
    constructor ()
      ensures Valid() && fresh(cursor) && fresh(phoneNumber)
      ensures Number() == [] && status == Idle && cursor.selected == 0
    {
      cursor := new Cursors.Cursor(0, MaxPhoneNumberLength - 1);
      phoneNumber := new char[MaxPhoneNumberLength + 1](_ => CStr.NUL);
      status := Idle;
      new;
      CStr.TextOfCopy(phoneNumber[..], []);
    }

    /** `add_digit(self, digit)`: the character appended while the number is shorter than 10,
      * and then the number's tiles marked. */
    method AddDigit(digit: char, grid: Tiles.TileGrid)
      requires Valid() && grid.Valid() && digit != CStr.NUL
      modifies phoneNumber, cursor, grid.dirty
      ensures Valid()
      ensures Number() == CStr.Push(old(Number()), digit, MaxPhoneNumberLength) && status == old(status)
      ensures grid.Dirty() == if |old(Number())| < MaxPhoneNumberLength then Tiles.MarkedAll(old(grid.Dirty()), NumberTiles)
                              else old(grid.Dirty())
    {
      if cursor.x < MaxPhoneNumberLength {
        CStr.AppendChar(phoneNumber[..], digit);
        phoneNumber[cursor.x] := digit;
        cursor.x := cursor.x + 1;
        phoneNumber[cursor.x] := CStr.NUL;
        grid.MarkAll(NumberTiles);
      }
    }

    /** `remove_digit(self)`: the last character dropped when there is one, and then the
      * number's tiles marked. */
    method RemoveDigit(grid: Tiles.TileGrid)
      requires Valid() && grid.Valid()
      modifies phoneNumber, cursor, grid.dirty
      ensures Valid()
      ensures Number() == CStr.Pop(old(Number())) && status == old(status)
      ensures grid.Dirty() == if old(Number()) != [] then Tiles.MarkedAll(old(grid.Dirty()), NumberTiles)
                              else old(grid.Dirty())
    {
      if cursor.x > 0 {
        CStr.DropLastChar(phoneNumber[..]);
        cursor.x := cursor.x - 1;
        phoneNumber[cursor.x] := CStr.NUL;
        grid.MarkAll(NumberTiles);
      }
    }

    /** `make_call(self)`: IDLE with a number becomes CALLING and the screen is redrawn;
      * otherwise nothing happens. */
    method MakeCall(grid: Tiles.TileGrid)
      requires Valid() && grid.Valid()
      modifies this, grid.dirty
      ensures Valid() && Number() == old(Number())
      ensures status == Placed(old(status), old(Number()))
      ensures grid.Dirty() == if status != old(status) then Tiles.AllTiles() else old(grid.Dirty())
    {
      if cursor.x > 0 && status == Idle {
        status := Calling;
        grid.MarkAllTilesDirty();
      }
    }

    /** `hang_up_call(self)`: any call ends in IDLE, with the screen redrawn when there was
      * one. */
    method HangUpCall(grid: Tiles.TileGrid)
      requires Valid() && grid.Valid()
      modifies this, grid.dirty
      ensures Valid() && Number() == old(Number())
      ensures status == Idle
      ensures grid.Dirty() == if old(status) != Idle then Tiles.AllTiles() else old(grid.Dirty())
    {
      if status != Idle {
        status := Idle;
        grid.MarkAllTilesDirty();
      }
    }

    /** `call_handle_input(self, event_type)`: number keys, STAR and HASH type their
      * character, PICKUP calls, HANGUP hangs up, and LEFT on the pad erases; other events are
      * ignored. */
    method HandleInput(eventType: int, grid: Tiles.TileGrid)
      requires Valid() && grid.Valid()
      modifies this, phoneNumber, cursor, grid.dirty
      ensures Valid()
      ensures KeyChar(eventType).Some? ==>
        Number() == CStr.Push(old(Number()), KeyChar(eventType).value, MaxPhoneNumberLength) && status == old(status) &&
        grid.Dirty() == if |old(Number())| < MaxPhoneNumberLength then Tiles.MarkedAll(old(grid.Dirty()), NumberTiles)
                        else old(grid.Dirty())
      ensures eventType == Input.DPAD_LEFT ==>
        Number() == CStr.Pop(old(Number())) && status == old(status) &&
        grid.Dirty() == if old(Number()) != [] then Tiles.MarkedAll(old(grid.Dirty()), NumberTiles) else old(grid.Dirty())
      ensures eventType == Input.PICKUP ==>
        Number() == old(Number()) && status == Placed(old(status), old(Number())) &&
        grid.Dirty() == if status != old(status) then Tiles.AllTiles() else old(grid.Dirty())
      ensures eventType == Input.HANGUP ==>
        Number() == old(Number()) && status == Idle &&
        grid.Dirty() == if old(status) != Idle then Tiles.AllTiles() else old(grid.Dirty())
      ensures KeyChar(eventType).None? && eventType !in {Input.DPAD_LEFT, Input.PICKUP, Input.HANGUP} ==>
        Number() == old(Number()) && status == old(status) && grid.Dirty() == old(grid.Dirty())
    {
      if Input.IsDigitKey(eventType) {
        AddDigit(Input.DigitChar(eventType), grid);
      } else if eventType == Input.KEYPAD_STAR {
        AddDigit('*', grid);
      } else if eventType == Input.KEYPAD_HASH {
        AddDigit('#', grid);
      } else if eventType == Input.PICKUP {
        MakeCall(grid);
      } else if eventType == Input.HANGUP {
        HangUpCall(grid);
      } else if eventType == Input.DPAD_LEFT {
        RemoveDigit(grid);
      }
    }

    /** `call_reset(self)`: the cursor back at the start, the number cleared and IDLE. */
    method Reset()
      requires Valid()
      modifies this, cursor, phoneNumber
      ensures Valid()
      ensures Number() == [] && status == Idle && cursor.selected == 0
      ensures forall k :: 0 <= k < phoneNumber.Length ==> phoneNumber[k] == CStr.NUL
    {
      cursor.Reset();
      CStr.Memset(phoneNumber);
      status := Idle;
      CStr.TextOfCopy(phoneNumber[..], []);
    }
  }
}
