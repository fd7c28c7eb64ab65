// ui/pages/contacts/contact_details.c: one contact's name and number above four action rows;
// the cursor picks an action, and every input redraws the page.

module ContactDetails {
  import opened Wrappers
  import Cursors
  import Tiles
  import Input

  /** The fields of a `ContactRecord` the page reads; the record's declaration is not part of
    * this model. */
  datatype Contact = Contact(name: seq<char>, nameLen: int, phone: seq<char>, phoneLen: int)

  /** A record after `memset(..., 0, ...)`. */
  const Zeroed: Contact := Contact([], 0, [], 0)

  /** `option_labels`. */
  const OptionLabels: seq<seq<char>> := ["Call", "Send Message", "Edit Contact", "Delete Contact"]
  const NumOptions: int := 4

  /** The contact the page keeps: the one given when it has a name, else the zeroed record. */
  function Kept(c: Contact): (k: Contact)
    ensures k == c <==> c.nameLen > 0 || c == Zeroed
    ensures k.nameLen > 0 || k == Zeroed
  {
    if c.nameLen > 0 then c else Zeroed
  }

  /** The cursor after one input: UP and DOWN step between the rows `0 .. max_y - 1`, LEFT and
    * RIGHT between the columns `0 .. max_x - 1`; other events leave it. */
  function Moved(eventType: int, x: int, y: int, maxX: int, maxY: int): (r: (int, int))
    ensures !Input.IsDpad(eventType) ==> r == (x, y)
  {
    match eventType
    case 1 => (x, if y > 0 then y - 1 else y)
    case 2 => (x, if y < maxY - 1 then y + 1 else y)
    case 3 => (if x > 0 then x - 1 else x, y)
    case 4 => (if x < maxX - 1 then x + 1 else x, y)
    case _ => (x, y)
  }

  /** With the page's bounds (`max_x` 1, `max_y` 4) the cursor stays in column 0 on one of the
    * four actions, whatever the input. */
  lemma MovedStaysOnActions(eventType: int, y: int)
    requires 0 <= y < NumOptions
    ensures var r := Moved(eventType, 0, y, 1, NumOptions); r.0 == 0 && 0 <= r.1 < NumOptions
  {
  }

  /** From the first action, DOWN reaches each action in turn and stops at the last; UP steps
    * back. */
  lemma DownReachesEveryAction(y: int)
    requires 0 <= y < NumOptions
    ensures Moved(Input.DPAD_DOWN, 0, y, 1, NumOptions) == (0, if y < NumOptions - 1 then y + 1 else y)
    ensures y < NumOptions - 1 ==> Moved(Input.DPAD_UP, 0, Moved(Input.DPAD_DOWN, 0, y, 1, NumOptions).1, 1, NumOptions) == (0, y)
  {
  }

  /** The text drawn for the name: the name, or "(Name)" when it is empty. */
  function NameText(c: Contact): (t: seq<char>)
    ensures c.nameLen > 0 ==> t == c.name
    ensures c.nameLen <= 0 ==> t == "(Name)"
  {
    if c.nameLen > 0 then c.name else "(Name)"
  }

  /** The text drawn for the number: the number, or "(Phone)" when it is empty. */
  function PhoneText(c: Contact): (t: seq<char>)
    ensures c.phoneLen > 0 ==> t == c.phone
    ensures c.phoneLen <= 0 ==> t == "(Phone)"
  {
    if c.phoneLen > 0 then c.phone else "(Phone)"
  }

  /** A call of `draw_option_row(tile_y, selected, label)`. */
  datatype OptionRow = OptionRow(tileY: int, selected: bool, text: seq<char>)

  /** The action row drawn on tile row `ty`: rows 3 to 6 show the four actions, the cursor's
    * one highlighted. */
  function RowAt(ty: int, cursorY: int): (r: Option<OptionRow>)
    ensures r.Some? <==> 3 <= ty < 3 + NumOptions
    ensures r.Some? ==> r.value == OptionRow(ty, cursorY == ty - 3, OptionLabels[ty - 3])
  {
    if ty > 2 && ty < 7 then
      var idx := ty - 3;
      if idx >= 0 && idx < NumOptions then Some(OptionRow(ty, cursorY == idx, OptionLabels[idx])) else None
    else None
  }

  /** `ContactDetailsState`. */
  class Details {
    var contact: Contact
    const cursor: Cursors.Cursor
    var mounted: bool

    /** The bounds every entry point sets, and the cursor on one of the actions. (The column
      * starts at 0 and stays there, `MovedStaysOnActions`.) */
    ghost predicate Valid()
      reads this, cursor
    {
      cursor.maxX == 1 && cursor.maxY == NumOptions && 0 <= cursor.y < NumOptions
    }

    /** `contact_details_page_create(contact)`. */
    constructor (c: Contact)
      ensures Valid() && fresh(cursor)
      ensures contact == Kept(c) && cursor.x == 0 && cursor.y == 0 && !mounted
    {
      if c.nameLen > 0 {
        contact := c;
      } else {
        contact := Zeroed;
      }
      cursor := new Cursors.Cursor(1, NumOptions);
      mounted := false;
    }

    /** `contact_details_handle_input(self, event_type)`: moves the cursor, then marks every
      * tile dirty. */
    method HandleInput(eventType: int, grid: Tiles.TileGrid)
      requires Valid() && grid.Valid()
      modifies cursor, grid.dirty
      ensures Valid()
      ensures (cursor.x, cursor.y) == Moved(eventType, old(cursor.x), old(cursor.y), cursor.maxX, cursor.maxY)
      ensures cursor.maxX == old(cursor.maxX) && cursor.maxY == old(cursor.maxY)
      ensures grid.Dirty() == Tiles.AllTiles()
    {
      if eventType == Input.DPAD_UP {
        if cursor.y > 0 {
          cursor.y := cursor.y - 1;
        }
      } else if eventType == Input.DPAD_DOWN {
        if cursor.y < cursor.maxY - 1 {
          cursor.y := cursor.y + 1;
        }
      } else if eventType == Input.DPAD_LEFT {
        if cursor.x > 0 {
          cursor.x := cursor.x - 1;
        }
      } else if eventType == Input.DPAD_RIGHT {
        if cursor.x < cursor.maxX - 1 {
          cursor.x := cursor.x + 1;
        }
      }
      grid.MarkAllTilesDirty();
    }

    /** `contact_details_draw_tile(self, tx, ty)`: the first call after a reset draws the
      * whole page (`page` holds the name and the number drawn); every call draws the action
      * row of `ty`, if it is one. */
    method DrawTile(tx: int, ty: int) returns (page: Option<(seq<char>, seq<char>)>, row: Option<OptionRow>)
      requires Valid()
      modifies this
      ensures contact == old(contact) && mounted && Valid()
      ensures page.Some? <==> !old(mounted)
      ensures page.Some? ==> page.value == (NameText(contact), PhoneText(contact))
      ensures row == RowAt(ty, cursor.y)
    {
      page := None;
      if !mounted {
        page := Some((NameText(contact), PhoneText(contact)));
        mounted := true;
      }
      row := None;
      if ty > 2 && ty < 7 {
        var idx := ty - 3;
        if idx >= 0 && idx < NumOptions {
          row := Some(OptionRow(ty, cursor.y == idx, OptionLabels[idx]));
        }
      }
    }

    /** `contact_details_reset`: the cursor back on the first action with the page's bounds,
      * nothing mounted, and every tile dirty. */
    method Reset(grid: Tiles.TileGrid)
      requires grid.Valid()
      modifies this, cursor, grid.dirty
      ensures Valid() && cursor.x == 0 && cursor.y == 0 && !mounted
      ensures contact == old(contact)
      ensures grid.Dirty() == Tiles.AllTiles()
    {
      cursor.x := 0;
      cursor.y := 0;
      cursor.maxX := 1;
      cursor.maxY := NumOptions;
      mounted := false;
      grid.MarkAllTilesDirty();
    }
  }
}
