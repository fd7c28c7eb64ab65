// ui/pages/sms/messages.c: one received text message, its sender above the body. The body is
// laid out by a greedy word-less wrap: characters go left to right, a character that would
// cross the right margin starts a new line, and spaces at the start of a line are dropped.

module Messages {
  import opened Wrappers
  import CStr
  import Tiles
  import Input

  /** `SMS_MAX_PHONE_LENGTH + 1`, the size of `sender`. */
  const SenderSize: int := 16
  /** `MAX_MESSAGE_LENGTH`, the size of `message`. */
  const MessageSize: int := 255

  /** `char_width`: the advance of one character, `size * 5` pixels. */
  function CharWidth(size: int): int
  {
    size * 5
  }

  /** `line_height`: the step to the next line, `size * 8` pixels. */
  function LineHeight(size: int): int
  {
    size * 8
  }

  /** A call of `display_draw_char(x, y, c, ...)`; `from` is the character's offset in the
    * text. */
  datatype Glyph = Glyph(x: int, y: int, c: char, from: nat)

  /** The characters `draw_wrapped_text` draws from offset `i` on, with the pen at `(x, y)`,
    * the left edge at `sx` and a width of `width`. */
  function Layout(text: seq<char>, i: nat, x: int, y: int, sx: int, width: int, size: int): seq<Glyph>
    decreases |text| - i
  {
    if i >= |text| then []
    else
      var wraps := x + CharWidth(size) > sx + width && x > sx;
      var x1, y1 := if wraps then sx else x, if wraps then y + LineHeight(size) else y;
      if text[i] == ' ' && x1 == sx then Layout(text, i + 1, x1, y1, sx, width, size)
      else [Glyph(x1, y1, text[i], i)] + Layout(text, i + 1, x1 + CharWidth(size), y1, sx, width, size)
  }

  /** The offsets of the characters drawn. */
  function Froms(g: seq<Glyph>): set<nat>
  {
    set k | 0 <= k < |g| :: g[k].from
  }

  /** Each glyph is the text's character at its offset, and the offsets rise strictly: the
    * characters are drawn in the order of the text, each at most once. */
  lemma {:induction false} LayoutInOrder(text: seq<char>, i: nat, x: int, y: int, sx: int, width: int, size: int, g: seq<Glyph>)
    requires i <= |text|
    requires g == Layout(text, i, x, y, sx, width, size)
    ensures forall k :: 0 <= k < |g| ==> i <= g[k].from < |text| && g[k].c == text[g[k].from]
    ensures forall a, b :: 0 <= a < b < |g| ==> g[a].from < g[b].from
    decreases |text| - i
  {
    if i < |text| {
      var wraps := x + CharWidth(size) > sx + width && x > sx;
      var x1, y1 := if wraps then sx else x, if wraps then y + LineHeight(size) else y;
      if text[i] == ' ' && x1 == sx {
        LayoutInOrder(text, i + 1, x1, y1, sx, width, size, g);
      } else {
        var rest := Layout(text, i + 1, x1 + CharWidth(size), y1, sx, width, size);
        assert g == [Glyph(x1, y1, text[i], i)] + rest;
        LayoutInOrder(text, i + 1, x1 + CharWidth(size), y1, sx, width, size, rest);
        assert forall k :: 0 < k < |g| ==> g[k] == rest[k - 1];
        forall a, b | 0 <= a < b < |g|
          ensures g[a].from < g[b].from
        {
          assert i + 1 <= rest[b - 1].from;
        }
      }
    }
  }

  /** The only characters left out are spaces, and a space is drawn only away from the left
    * edge: exactly the spaces that would start a line are skipped. */
  lemma {:induction false} LayoutSkipsLeadingSpaces(text: seq<char>, i: nat, x: int, y: int, sx: int, width: int, size: int, g: seq<Glyph>)
    requires i <= |text|
    requires g == Layout(text, i, x, y, sx, width, size)
    ensures forall j :: i <= j < |text| && text[j] != ' ' ==> j in Froms(g)
    ensures forall k :: 0 <= k < |g| && g[k].c == ' ' ==> g[k].x != sx
    decreases |text| - i
  {
    if i < |text| {
      var wraps := x + CharWidth(size) > sx + width && x > sx;
      var x1, y1 := if wraps then sx else x, if wraps then y + LineHeight(size) else y;
      if text[i] == ' ' && x1 == sx {
        LayoutSkipsLeadingSpaces(text, i + 1, x1, y1, sx, width, size, g);
      } else {
        var rest := Layout(text, i + 1, x1 + CharWidth(size), y1, sx, width, size);
        assert g == [Glyph(x1, y1, text[i], i)] + rest;
        LayoutSkipsLeadingSpaces(text, i + 1, x1 + CharWidth(size), y1, sx, width, size, rest);
        assert forall k :: 0 < k < |g| ==> g[k] == rest[k - 1];
        assert Froms(g) == {i} + Froms(rest) by {
          forall f | f in Froms(rest) ensures f in Froms(g) {
            var k :| 0 <= k < |rest| && rest[k].from == f;
            assert g[k + 1].from == f;
          }
          assert g[0].from == i;
        }
      }
    }
  }

  /** With the pen at or right of the left edge, every glyph is too, and a glyph reaches past
    * the right margin only as the first one on its line. */
  lemma {:induction false} LayoutKeepsMargin(text: seq<char>, i: nat, x: int, y: int, sx: int, width: int, size: int, g: seq<Glyph>)
    requires i <= |text| && sx <= x && 0 <= size
    requires g == Layout(text, i, x, y, sx, width, size)
    ensures forall k :: 0 <= k < |g| ==> sx <= g[k].x && (g[k].x + CharWidth(size) > sx + width ==> g[k].x == sx)
    decreases |text| - i
  {
    if i < |text| {
      var wraps := x + CharWidth(size) > sx + width && x > sx;
      var x1, y1 := if wraps then sx else x, if wraps then y + LineHeight(size) else y;
      if text[i] == ' ' && x1 == sx {
        LayoutKeepsMargin(text, i + 1, x1, y1, sx, width, size, g);
      } else {
        var rest := Layout(text, i + 1, x1 + CharWidth(size), y1, sx, width, size);
        assert g == [Glyph(x1, y1, text[i], i)] + rest;
        LayoutKeepsMargin(text, i + 1, x1 + CharWidth(size), y1, sx, width, size, rest);
        assert forall k :: 0 < k < |g| ==> g[k] == rest[k - 1];
      }
    }
  }

  /** The pen's moves: the first glyph is where the pen is or at the start of the next line
    * (where the pen is, when it is at the left edge); each later glyph is one character
    * width right of the one before, or at the left edge one line height lower. */
  lemma {:induction false} LayoutSteps(text: seq<char>, i: nat, x: int, y: int, sx: int, width: int, size: int, g: seq<Glyph>)
    requires i <= |text| && sx <= x && 0 < size
    requires g == Layout(text, i, x, y, sx, width, size)
    ensures g != [] ==> (g[0].x, g[0].y) == (x, y) || (g[0].x, g[0].y) == (sx, y + LineHeight(size))
    ensures g != [] && x == sx ==> (g[0].x, g[0].y) == (x, y)
    ensures forall k :: 0 <= k < |g| - 1 ==>
        (g[k + 1].x, g[k + 1].y) == (g[k].x + CharWidth(size), g[k].y) ||
        (g[k + 1].x, g[k + 1].y) == (sx, g[k].y + LineHeight(size))
    decreases |text| - i
  {
    if i < |text| {
      var wraps := x + CharWidth(size) > sx + width && x > sx;
      var x1, y1 := if wraps then sx else x, if wraps then y + LineHeight(size) else y;
      if text[i] == ' ' && x1 == sx {
        LayoutSteps(text, i + 1, x1, y1, sx, width, size, g);
      } else {
        var rest := Layout(text, i + 1, x1 + CharWidth(size), y1, sx, width, size);
        assert g == [Glyph(x1, y1, text[i], i)] + rest;
        LayoutSteps(text, i + 1, x1 + CharWidth(size), y1, sx, width, size, rest);
        assert forall k :: 0 < k < |g| ==> g[k] == rest[k - 1];
      }
    }
  }

  /** When a character fits the width, nothing drawn from the left edge on reaches past the
    * right margin. */
  lemma LayoutFitsWidth(text: seq<char>, x: int, y: int, width: int, size: int)
    requires 0 <= size && CharWidth(size) <= width
    ensures var g := Layout(text, 0, x, y, x, width, size);
      forall k :: 0 <= k < |g| ==> x <= g[k].x && g[k].x + CharWidth(size) <= x + width
  {
    LayoutKeepsMargin(text, 0, x, y, x, width, size, Layout(text, 0, x, y, x, width, size));
  }

  /** `draw_wrapped_text(start_x, start_y, max_width, text, ..., size)`: the characters drawn,
    * in the order they are drawn. */
  method DrawWrappedText(startX: int, startY: int, maxWidth: int, text: seq<char>, size: int)
    returns (glyphs: seq<Glyph>)
    requires CStr.NoNul(text) && 0 <= size < 256
    ensures glyphs == Layout(text, 0, startX, startY, startX, maxWidth, size)
  {
    var x, y := startX, startY;
    var lineHeight := size * 8;
    var charWidth := size * 5;
    var i := 0;
    glyphs := [];
    while i < |text|
      invariant 0 <= i <= |text|
      invariant glyphs + Layout(text, i, x, y, startX, maxWidth, size) == Layout(text, 0, startX, startY, startX, maxWidth, size)
    {
      if x + charWidth > startX + maxWidth && x > startX {
        x := startX;
        y := y + lineHeight;
      }
      if text[i] == ' ' && x == startX {
        i := i + 1;
        continue;
      }
      assert Layout(text, i, x, y, startX, maxWidth, size) ==
        [Glyph(x, y, text[i], i)] + Layout(text, i + 1, x + charWidth, y, startX, maxWidth, size);
      glyphs := glyphs + [Glyph(x, y, text[i], i)];
      x := x + charWidth;
      i := i + 1;
    }
  }

  /** `MessagePageState`, the page's own copy of the message. */
  class MessagePage {
    const sender: array<char>
    const message: array<char>

    ghost predicate Valid()
      reads this
    {
      sender.Length == SenderSize && message.Length == MessageSize
    }

    /** The sender's number, the C string in `sender`. */
    ghost function Sender(): seq<char>
      reads this, sender
    {
      CStr.Text(sender[..])
    }

    /** The message, the C string in `message`. */
    ghost function Message(): seq<char>
      reads this, message
    {
      CStr.Text(message[..])
    }

    /** `messages_page_create(state)`, given the two buffers of `state`: each copied with
      * `strncpy` into a buffer of the same size and cut to one byte less, so that the copy
      * always ends in a NUL. */
    constructor (sender: seq<char>, message: seq<char>)
      requires |sender| == SenderSize && |message| == MessageSize
      ensures Valid() && fresh(this.sender) && fresh(this.message)
      ensures Sender() == CStr.Truncate(CStr.Text(sender), SenderSize - 1)
      ensures Message() == CStr.Truncate(CStr.Text(message), MessageSize - 1)
    {
      this.sender := new char[SenderSize](_ => CStr.NUL);
      this.message := new char[MessageSize](_ => CStr.NUL);
      new;
      CStr.Strncpy(this.sender, sender, SenderSize - 1);
      this.sender[SenderSize - 1] := CStr.NUL;
      CStr.TextOfTruncatedCopy(this.sender[..], sender, SenderSize - 1);
      CStr.Strncpy(this.message, message, MessageSize - 1);
      this.message[MessageSize - 1] := CStr.NUL;
      CStr.TextOfTruncatedCopy(this.message[..], message, MessageSize - 1);
    }

    /** The message body of `messages_page_draw`: wrapped from 15 pixels inside tile (0, 1),
      * 30 pixels narrower than the grid, at size 2. */
    method DrawBody() returns (glyphs: seq<Glyph>)
      requires Valid()
      ensures var p := Tiles.TileToPixels(Tiles.Pos(0, 1));
        glyphs == Layout(Message(), 0, p.x + 15, p.y + 15, p.x + 15, Tiles.TileCols * Tiles.TileWidth - 30, 2)
      ensures var p := Tiles.TileToPixels(Tiles.Pos(0, 1));
        forall k :: 0 <= k < |glyphs| ==> p.x + 15 <= glyphs[k].x && glyphs[k].x + CharWidth(2) <= p.x + 15 + Tiles.TileCols * Tiles.TileWidth - 30
    {
      var p := Tiles.TileToPixels(Tiles.Pos(0, 1));
      var text := CStr.Text(message[..]);
      glyphs := DrawWrappedText(p.x + 15, p.y + 15, Tiles.TileCols * Tiles.TileWidth - 30, text, 2);
      LayoutFitsWidth(text, p.x + 15, p.y + 15, Tiles.TileCols * Tiles.TileWidth - 30, 2);
    }

    /** `messages_handle_input(self, event_type)`: LEFT opens a new message to the sender,
      * whose number is returned; other events do nothing. */
    method HandleInput(eventType: int) returns (reply: Option<seq<char>>)
      requires Valid()
      ensures reply.Some? <==> eventType == Input.LEFT
      ensures reply.Some? ==> reply.value == Sender()
    {
      reply := None;
      if eventType == Input.LEFT {
        reply := Some(CStr.Text(sender[..]));
      }
    }
  }
}
