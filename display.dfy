// drivers/display/display.c: the drawing layer over the panel driver's function table.

module Display {
  import opened CInt
  import opened Bits
  import Arith
  import opened Wrappers
  import CStr

  const White: u16 := 0xFFFF
  const Red: u16 := 0xF800
  const Green: u16 := 0x07E0
  const Gray: u16 := 0x7BEF

  /** One call through the driver's function table; every argument is a `uint16_t`. `Init` is
    * the driver's `init()`, which brings the panel up. */
  datatype DriverCall =
    | Init
    | DrawPixel(x: u16, y: u16, colour: u16)
    | DrawHLine(colour: u16, x: u16, y: u16, len: u16)
    | DrawVLine(colour: u16, x: u16, y: u16, len: u16)
    | FillRect(x: u16, y: u16, w: u16, h: u16, colour: u16)

  /** `display_colour565`: the top 5, 6 and 5 bits of red, green and blue packed into one word. */
  function Colour565(r: u8, g: u8, b: u8): (c: u16)
    ensures c / 0x800 == r / 8 && (c / 0x20) % 0x40 == g / 4 && c % 0x20 == b / 8
  {
    var c := ((r / 8) * 8) * 0x100 + ((g / 4) * 4) * 8 + b / 8;
    Arith.DivUnique(c, 0x800, r / 8, ((g / 4) * 4) * 8 + b / 8);
    Arith.DivUnique(c, 0x20, (r / 8) * 0x40 + g / 4, b / 8);
    Arith.DivUnique((r / 8) * 0x40 + g / 4, 0x40, r / 8, g / 4);
    c
  }

  /** Every RGB565 word is the packing of the colour its three fields stand for. */
  lemma Colour565Expand(c: u16)
    ensures Colour565((c / 0x800) * 8, ((c / 0x20) % 0x40) * 4, (c % 0x20) * 8) == c
  {
    var r, g, b := c / 0x800, (c / 0x20) % 0x40, c % 0x20;
    assert c / 0x20 == r * 0x40 + g;
    assert c == (c / 0x20) * 0x20 + b;
  }

  /** `min` and `max` of the two ends after the helpers' `swap16`. */
  function Lo(a: u16, b: u16): u16 { if a > b then b else a }
  function Hi(a: u16, b: u16): u16 { if a > b then a else b }

  /** The run the line helpers draw between two ends: nothing when an end lies past `limit`,
    * else its start and its length, the count of coordinates from one end to the other. */
  function Span(a: u16, b: u16, limit: u16): (r: Option<(u16, u16)>)
    ensures r.Some? <==> a <= limit && b <= limit
    ensures r.Some? ==> r.value.0 <= a && r.value.0 <= b && (r.value.0 == a || r.value.0 == b)
    ensures r.Some? && Hi(a, b) - Lo(a, b) < 0xFFFF ==> r.value.0 + r.value.1 - 1 == Hi(a, b)
  {
    if Hi(a, b) > limit then None
    else Some((Lo(a, b), ToU16(Hi(a, b) - Lo(a, b) + 1)))
  }

  /** The four edges `display_draw_rect` asks the driver for. */
  function RectCalls(x: u16, y: u16, w: u16, h: u16, colour: u16): seq<DriverCall>
  {
    [DrawHLine(colour, x, y, w), DrawHLine(colour, x, ToU16(y + h - 1), w),
     DrawVLine(colour, x, y, h), DrawVLine(colour, ToU16(x + w - 1), y, h)]
  }

  /** Pixel `b` is one Bresenham step from pixel `a`: each coordinate stays or moves by its
    * direction, and at least one of them moves. */
  predicate Step(a: DriverCall, b: DriverCall, sx: int, sy: int)
    requires a.DrawPixel? && b.DrawPixel?
  {
    (b.x == a.x || b.x == a.x + sx) && (b.y == a.y || b.y == a.y + sy) && (b.x, b.y) != (a.x, a.y)
  }

  /** `i` steps from `a` towards `b`. */
  function Toward(a: int, b: int, i: int): int
  {
    if a < b then a + i else a - i
  }

  /** The pixels `display_draw_line` has drawn from call `n0` on: the first is `(x0, y0)`, each
    * lies in the box from `(x0, y0)` to `(x1, y1)`, and each is one step on from the one before. */
  ghost predicate LineSoFar(cs: seq<DriverCall>, n0: nat, x0: u16, y0: u16, x1: u16, y1: u16, colour: u16)
  {
    |cs| > n0 && cs[n0] == DrawPixel(x0, y0, colour)
    && (forall k :: n0 <= k < |cs| ==>
          cs[k].DrawPixel? && cs[k].colour == colour && Between(cs[k].x, x0, x1) && Between(cs[k].y, y0, y1))
    && (forall k, l :: n0 <= k && l == k + 1 && l < |cs| ==>
          cs[k].DrawPixel? && cs[l].DrawPixel? &&
          Step(cs[k], cs[l], if x0 < x1 then 1 else -1, if y0 < y1 then 1 else -1))
  }

  /** Drawing one more pixel in the box, one step on from the last, keeps the line a line. */
  lemma LineExtend(cs: seq<DriverCall>, n0: nat, x0: u16, y0: u16, x1: u16, y1: u16, colour: u16, p: DriverCall)
    requires LineSoFar(cs, n0, x0, y0, x1, y1, colour)
    requires p.DrawPixel? && p.colour == colour && Between(p.x, x0, x1) && Between(p.y, y0, y1)
    requires Step(cs[|cs| - 1], p, if x0 < x1 then 1 else -1, if y0 < y1 then 1 else -1)
    ensures LineSoFar(cs + [p], n0, x0, y0, x1, y1, colour) && (cs + [p])[..n0] == cs[..n0]
  {
    var cs' := cs + [p];
    forall k | n0 <= k < |cs'|
      ensures cs'[k].DrawPixel? && cs'[k].colour == colour && Between(cs'[k].x, x0, x1) && Between(cs'[k].y, y0, y1)
    {
      if k < |cs| {
        assert cs'[k] == cs[k];
      }
    }
  }

  /** `a` lies between `lo` and `hi`, whichever order those come in. */
  predicate Between(a: int, lo: int, hi: int)
  {
    (lo <= a <= hi) || (hi <= a <= lo)
  }

  /** The error term after `i` steps along x and `j` along y is `dx*(j+1) - dy*(i+1)`;
    * from it, a step never passes the far end on either axis, and some step is always taken. */
  lemma BresenhamStep(dx: int, dy: int, i: int, j: int)
    requires 0 <= i <= dx && 0 <= j <= dy && !(i == dx && j == dy)
    ensures var err := dx * (j + 1) - dy * (i + 1);
            (2 * err > -dy ==> i < dx) && (2 * err < dx ==> j < dy) && (2 * err > -dy || 2 * err < dx)
  {
    var err := dx * (j + 1) - dy * (i + 1);
    if i == dx {
      Arith.MulLe(j + 1, dy, dx);
      assert dx * (j + 1) <= dy * dx;
      assert 2 * err <= -2 * dy;
    }
    if j == dy {
      Arith.MulLe(i + 1, dx, dy);
      assert dy * (i + 1) <= dx * dy;
      assert 2 * err >= 2 * dx;
    }
  }

  /** The error term after `i` steps along x and `j` along y. */
  function ErrAfter(dx: int, dy: int, i: int, j: int): int
  {
    dx * (j + 1) - dy * (i + 1)
  }

  /** One turn of `display_draw_line`'s loop keeps the error term and its bounds, moves at most
    * one step on each axis and at least one in all, and never passes the far end. */
  lemma BresenhamNext(dx: int, dy: int, i: int, j: int, err: int)
    requires 0 <= i <= dx && 0 <= j <= dy && !(i == dx && j == dy)
    requires err == ErrAfter(dx, dy, i, j) && -2 * dy - dx <= err <= 2 * dx + dy
    ensures var i', j' := (if 2 * err > -dy then i + 1 else i), (if 2 * err < dx then j + 1 else j);
            var err' := err - (if 2 * err > -dy then dy else 0) + (if 2 * err < dx then dx else 0);
            i' <= dx && j' <= dy && (i' != i || j' != j)
            && err' == ErrAfter(dx, dy, i', j') && -2 * dy - dx <= err' <= 2 * dx + dy
  {
    BresenhamStep(dx, dy, i, j);
    assert dy * (i + 2) == dy * (i + 1) + dy;
    assert dx * (j + 2) == dx * (j + 1) + dx;
  }

  /** The font table of `display_draw_char`: 96 glyphs, characters 32 to 127, five column bytes
    * each, the top row in bit 0. */
  const Font5x7: seq<u8> := [
    0x00, 0x00, 0x00, 0x00, 0x00,  0x00, 0x00, 0x5F, 0x00, 0x00,  0x00, 0x07, 0x00, 0x07, 0x00,  0x14, 0x7F, 0x14, 0x7F, 0x14,
    0x24, 0x2A, 0x7F, 0x2A, 0x12,  0x23, 0x13, 0x08, 0x64, 0x62,  0x36, 0x49, 0x55, 0x22, 0x50,  0x00, 0x05, 0x03, 0x00, 0x00,
    0x00, 0x1C, 0x22, 0x41, 0x00,  0x00, 0x41, 0x22, 0x1C, 0x00,  0x08, 0x2A, 0x1C, 0x2A, 0x08,  0x08, 0x08, 0x3E, 0x08, 0x08,
    0x00, 0x50, 0x30, 0x00, 0x00,  0x08, 0x08, 0x08, 0x08, 0x08,  0x00, 0x60, 0x60, 0x00, 0x00,  0x20, 0x10, 0x08, 0x04, 0x02,
    0x3E, 0x51, 0x49, 0x45, 0x3E,  0x00, 0x42, 0x7F, 0x40, 0x00,  0x42, 0x61, 0x51, 0x49, 0x46,  0x21, 0x41, 0x45, 0x4B, 0x31,
    0x18, 0x14, 0x12, 0x7F, 0x10,  0x27, 0x45, 0x45, 0x45, 0x39,  0x3C, 0x4A, 0x49, 0x49, 0x30,  0x01, 0x71, 0x09, 0x05, 0x03,
    0x36, 0x49, 0x49, 0x49, 0x36,  0x06, 0x49, 0x49, 0x29, 0x1E,  0x00, 0x36, 0x36, 0x00, 0x00,  0x00, 0x56, 0x36, 0x00, 0x00,
    0x00, 0x08, 0x14, 0x22, 0x41,  0x14, 0x14, 0x14, 0x14, 0x14,  0x41, 0x22, 0x14, 0x08, 0x00,  0x02, 0x01, 0x51, 0x09, 0x06,
    0x32, 0x49, 0x79, 0x41, 0x3E,  0x7E, 0x11, 0x11, 0x11, 0x7E,  0x7F, 0x49, 0x49, 0x49, 0x36,  0x3E, 0x41, 0x41, 0x41, 0x22,
    0x7F, 0x41, 0x41, 0x22, 0x1C,  0x7F, 0x49, 0x49, 0x49, 0x41,  0x7F, 0x09, 0x09, 0x01, 0x01,  0x3E, 0x41, 0x41, 0x51, 0x32,
    0x7F, 0x08, 0x08, 0x08, 0x7F,  0x00, 0x41, 0x7F, 0x41, 0x00,  0x20, 0x40, 0x41, 0x3F, 0x01,  0x7F, 0x08, 0x14, 0x22, 0x41,
    0x7F, 0x40, 0x40, 0x40, 0x40,  0x7F, 0x02, 0x04, 0x02, 0x7F,  0x7F, 0x04, 0x08, 0x10, 0x7F,  0x3E, 0x41, 0x41, 0x41, 0x3E,
    0x7F, 0x09, 0x09, 0x09, 0x06,  0x3E, 0x41, 0x51, 0x21, 0x5E,  0x7F, 0x09, 0x19, 0x29, 0x46,  0x46, 0x49, 0x49, 0x49, 0x31,
    0x01, 0x01, 0x7F, 0x01, 0x01,  0x3F, 0x40, 0x40, 0x40, 0x3F,  0x1F, 0x20, 0x40, 0x20, 0x1F,  0x7F, 0x20, 0x18, 0x20, 0x7F,
    0x63, 0x14, 0x08, 0x14, 0x63,  0x03, 0x04, 0x78, 0x04, 0x03,  0x61, 0x51, 0x49, 0x45, 0x43,  0x00, 0x00, 0x7F, 0x41, 0x41,
    0x02, 0x04, 0x08, 0x10, 0x20,  0x41, 0x41, 0x7F, 0x00, 0x00,  0x04, 0x02, 0x01, 0x02, 0x04,  0x40, 0x40, 0x40, 0x40, 0x40,
    0x00, 0x03, 0x05, 0x00, 0x00,  0x20, 0x54, 0x54, 0x54, 0x78,  0x7F, 0x48, 0x44, 0x44, 0x38,  0x38, 0x44, 0x44, 0x44, 0x20,
    0x38, 0x44, 0x44, 0x48, 0x7F,  0x38, 0x54, 0x54, 0x54, 0x18,  0x08, 0x7E, 0x09, 0x01, 0x02,  0x08, 0x14, 0x54, 0x54, 0x3C,
    0x7F, 0x08, 0x04, 0x04, 0x78,  0x00, 0x44, 0x7D, 0x40, 0x00,  0x20, 0x40, 0x44, 0x3D, 0x00,  0x00, 0x7F, 0x10, 0x28, 0x44,
    0x00, 0x41, 0x7F, 0x40, 0x00,  0x7C, 0x04, 0x18, 0x04, 0x78,  0x7C, 0x08, 0x04, 0x04, 0x78,  0x38, 0x44, 0x44, 0x44, 0x38,
    0x7C, 0x14, 0x14, 0x14, 0x08,  0x08, 0x14, 0x14, 0x18, 0x7C,  0x7C, 0x08, 0x04, 0x04, 0x08,  0x48, 0x54, 0x54, 0x54, 0x20,
    0x04, 0x3F, 0x44, 0x40, 0x20,  0x3C, 0x40, 0x40, 0x20, 0x7C,  0x1C, 0x20, 0x40, 0x20, 0x1C,  0x3C, 0x40, 0x30, 0x40, 0x3C,
    0x44, 0x28, 0x10, 0x28, 0x44,  0x0C, 0x50, 0x50, 0x50, 0x3C,  0x44, 0x64, 0x54, 0x4C, 0x44,  0x00, 0x08, 0x36, 0x41, 0x00,
    0x00, 0x00, 0x7F, 0x00, 0x00,  0x00, 0x41, 0x36, 0x08, 0x00,  0x08, 0x04, 0x08, 0x10, 0x08,  0x00, 0x00, 0x00, 0x00, 0x00
  ]

  /** Characters outside 32..127 are drawn as a space. */
  function GlyphIndex(c: char): (g: nat)
    ensures g < 96
    ensures 32 <= c as int <= 127 ==> g == c as int - 32
    ensures !(32 <= c as int <= 127) ==> g == 0
  {
    if c as int < 32 || c as int > 127 then 0 else c as int - 32
  }

  /** Column `i` of the glyph drawn for `c` in a font laid out as `Font5x7` is. */
  function GlyphColumn(font: seq<u8>, c: char, i: nat): u8
    requires |font| == 480 && i < 5
  {
    font[5 * GlyphIndex(c) + i]
  }

  /** The call `display_draw_char` makes for row `j` of column `i`: a pixel at size 1, a
    * `size`-square otherwise, in the foreground colour iff bit `j` of the column is set. */
  function CharCell(font: seq<u8>, x: u16, y: u16, c: char, colour: u16, bg: u16, size: u8, i: nat, j: nat): DriverCall
    requires |font| == 480 && i < 5 && j < 8
  {
    GlyphDot(x, y, size, i, j, if BitOf(GlyphColumn(font, c, i), j) then colour else bg)
  }

  /** One dot of a glyph in colour `col`: a pixel at size 1, a `size`-square otherwise. */
  function GlyphDot(x: u16, y: u16, size: u8, i: nat, j: nat, col: u16): DriverCall
  {
    if size == 1 then DrawPixel(ToU16(x + i), ToU16(y + j), col)
    else FillRect(ToU16(x + i * size), ToU16(y + j * size), size, size, col)
  }

  /** The eight calls for column `i` of a character, top row first. */
  function ColumnCalls(font: seq<u8>, x: u16, y: u16, c: char, colour: u16, bg: u16, size: u8, i: nat): (calls: seq<DriverCall>)
    requires |font| == 480 && i < 5
    ensures |calls| == 8
    ensures forall j :: 0 <= j < 8 ==> calls[j] == CharCell(font, x, y, c, colour, bg, size, i, j)
  {
    seq(8, j requires 0 <= j < 8 => CharCell(font, x, y, c, colour, bg, size, i, j))
  }

  /** The calls for the first `n` columns of a character, left to right. */
  function Columns(font: seq<u8>, x: u16, y: u16, c: char, colour: u16, bg: u16, size: u8, n: nat): (calls: seq<DriverCall>)
    requires |font| == 480 && n <= 5
    ensures |calls| == 8 * n
  {
    if n == 0 then [] else Columns(font, x, y, c, colour, bg, size, n - 1) + ColumnCalls(font, x, y, c, colour, bg, size, n - 1)
  }

  /** The 40 calls of one character. */
  function CharCalls(font: seq<u8>, x: u16, y: u16, c: char, colour: u16, bg: u16, size: u8): (calls: seq<DriverCall>)
    requires |font| == 480
    ensures |calls| == 40
  {
    Columns(font, x, y, c, colour, bg, size, 5)
  }

  /** Call `8*i + j` of a character draws row `j` of column `i`. */
  lemma {:induction false} ColumnsAt(font: seq<u8>, x: u16, y: u16, c: char, colour: u16, bg: u16, size: u8, n: nat, i: nat, j: nat)
    requires |font| == 480 && i < n <= 5 && j < 8
    ensures Columns(font, x, y, c, colour, bg, size, n)[8 * i + j] == CharCell(font, x, y, c, colour, bg, size, i, j)
  {
    if i < n - 1 {
      ColumnsAt(font, x, y, c, colour, bg, size, n - 1, i, j);
    }
  }

  /** The calls of `display_draw_string` for text `t`, each character 6*size pixels right of the
    * one before, the position wrapping as a `uint16_t`. */
  function StringCalls(font: seq<u8>, x: u16, y: u16, t: seq<char>, colour: u16, bg: u16, size: u8): (calls: seq<DriverCall>)
    requires |font| == 480
    ensures |calls| == 40 * |t|
  {
    if t == [] then []
    else StringCalls(font, x, y, t[..|t| - 1], colour, bg, size)
         + CharCalls(font, ToU16(x + 6 * size * (|t| - 1)), y, t[|t| - 1], colour, bg, size)
  }

  /** Character `i` of a string is drawn at `x + 6*size*i`, by calls `40*i` to `40*i + 39`. */
  lemma {:induction false} StringCallsAt(font: seq<u8>, x: u16, y: u16, t: seq<char>, colour: u16, bg: u16, size: u8, i: nat)
    requires |font| == 480 && i < |t|
    ensures StringCalls(font, x, y, t, colour, bg, size)[40 * i..40 * i + 40]
            == CharCalls(font, ToU16(x + 6 * size * i), y, t[i], colour, bg, size)
  {
    var m := |t| - 1;
    var s := StringCalls(font, x, y, t[..m], colour, bg, size);
    if i < m {
      StringCallsAt(font, x, y, t[..m], colour, bg, size, i);
      assert StringCalls(font, x, y, t, colour, bg, size)[40 * i..40 * i + 40] == s[40 * i..40 * i + 40];
    } else {
      assert StringCalls(font, x, y, t, colour, bg, size)[40 * i..] == CharCalls(font, ToU16(x + 6 * size * m), y, t[m], colour, bg, size);
    }
  }

  /** Bytes per bitmap row in `display_draw_bits`: `w` bits rounded up to whole bytes. */
  function Stride(w: u16): nat
  {
    (w + 7) / 8
  }

  /** The pixel `display_draw_bits` draws for row `i`, column `j`: bit `7 - j%8` of byte
    * `i*stride + j/8`. */
  function BitsCell(x: u16, y: u16, buff: seq<u8>, colour: u16, bg: u16, w: u16, i: nat, j: nat): DriverCall
    requires j < w && (i + 1) * Stride(w) <= |buff|
  {
    Arith.MulLe(i + 1, i + 1, Stride(w));
    assert i * Stride(w) + j / 8 < (i + 1) * Stride(w);
    var byte := buff[i * Stride(w) + j / 8];
    DrawPixel(ToU16(x + j), ToU16(y + i), if BitOf(byte, 7 - j % 8) then colour else bg)
  }

  function BitsRow(x: u16, y: u16, buff: seq<u8>, colour: u16, bg: u16, w: u16, i: nat): (calls: seq<DriverCall>)
    requires (i + 1) * Stride(w) <= |buff|
    ensures |calls| == w
    ensures forall j :: 0 <= j < w ==> calls[j] == BitsCell(x, y, buff, colour, bg, w, i, j)
  {
    seq(w, j requires 0 <= j < w => BitsCell(x, y, buff, colour, bg, w, i, j))
  }

  /** The calls for the first `n` rows of a bitmap, row by row, each row left to right. */
  function BitsRows(x: u16, y: u16, buff: seq<u8>, colour: u16, bg: u16, w: u16, n: nat): (calls: seq<DriverCall>)
    requires n * Stride(w) <= |buff|
    ensures |calls| == n * w
  {
    if n == 0 then []
    else
      Arith.MulLe(n - 1, n, Stride(w));
      BitsRows(x, y, buff, colour, bg, w, n - 1) + BitsRow(x, y, buff, colour, bg, w, n - 1)
  }

  /** `display_draw_bits` as written counts with `uint8_t` `i` and `j`: `n` increments from `j`
    * leave the counter at `(j + n) % 256`. */
  function Counter(j: u8, n: nat): u8
  {
    if n == 0 then j else ToU8(Counter(j, n - 1) + 1)
  }

  lemma {:induction false} CounterWraps(j: u8, n: nat)
    ensures Counter(j, n) == (j + n) % 0x100
  {
    if n > 0 {
      CounterWraps(j, n - 1);
      Arith.ModAdd(j + n - 1, 1, 0x100);
    }
  }

  /** For a bitmap wider than 255 pixels the column counter is back where it started after 256
    * steps, and `j < w` held at every one of them: the loop as written never ends. */
  lemma DrawBitsAsWrittenLoopsForever(w: u16, n: nat)
    requires w > 255
    ensures Counter(0, 256 * n) == 0
    ensures Counter(0, n) < w
  {
    CounterWraps(0, 256 * n);
    Arith.DivUnique(256 * n, 0x100, n, 0);
  }

  /** The bits of a run of bytes, each byte most significant bit first. */
  function Unpack(bytes: seq<u8>): (bits: seq<bool>)
    ensures |bits| == 8 * |bytes|
  {
    if bytes == [] then [] else Unpack(bytes[..|bytes| - 1]) + MsbBits(bytes[|bytes| - 1])
  }

  lemma {:induction false} UnpackAt(bytes: seq<u8>, j: nat)
    requires j < 8 * |bytes|
    ensures Unpack(bytes)[j] == BitOf(bytes[j / 8], 7 - j % 8)
  {
    var m := |bytes| - 1;
    if j < 8 * m {
      UnpackAt(bytes[..m], j);
    }
  }

  /** A bitmap row is the row's bytes unpacked most significant bit first: pixel `j` of row `i`
    * is in the foreground colour exactly when bit `j` of that stream is set. */
  lemma BitsCellReadsRow(x: u16, y: u16, buff: seq<u8>, colour: u16, bg: u16, w: u16, i: nat, j: nat)
    requires j < w && (i + 1) * Stride(w) <= |buff|
    ensures var row := buff[i * Stride(w)..(i + 1) * Stride(w)];
            j < |Unpack(row)| &&
            BitsCell(x, y, buff, colour, bg, w, i, j).colour == if Unpack(row)[j] then colour else bg
  {
    var s := Stride(w);
    Arith.MulLe(i, i + 1, s);
    var row := buff[i * s..(i + 1) * s];
    assert |row| == s;
    assert j / 8 < s;
    UnpackAt(row, j);
  }

  /** The progress bar's fill: `(width - 2) * percent / 100` with the percentage clamped to 100,
    * in C `int` arithmetic narrowed to `uint16_t`. */
  function ProgressFill(width: u16, percent: u8): (f: u16)
    ensures width >= 2 ==> f <= width - 2
  {
    var p := if percent > 100 then 100 else percent;
    Arith.MulLe(p, 100, if width >= 2 then width - 2 else 0);
    ToU16(CDiv((width - 2) * p, 100))
  }

  /** The bar is full exactly at 100 percent or more, and a larger percentage never fills less. */
  lemma ProgressFillFullAndMonotone(width: u16, p: u8, q: u8)
    requires width > 2 && p <= q
    ensures ProgressFill(width, p) <= ProgressFill(width, q)
    ensures ProgressFill(width, p) == width - 2 <==> p >= 100
  {
    ProgressFillIs(width, p);
    ProgressFillIs(width, q);
    FillFraction(width - 2, if p > 100 then 100 else p, if q > 100 then 100 else q);
  }

  /** For a bar at least two pixels wide no narrowing or sign correction happens. */
  lemma ProgressFillIs(width: u16, p: u8)
    requires width >= 2
    ensures ProgressFill(width, p) == (width - 2) * (if p > 100 then 100 else p) / 100
  {
    var a, pc := width - 2, if p > 100 then 100 else p;
    Arith.MulLe(0, pc, a);
    Arith.MulLe(pc, 100, a);
    Arith.DivMonotone(a * pc, a * 100, 100);
    Arith.DivUnique(a * 100, 100, a, 0);
    CDivNonneg(a * pc, 100);
  }

  /** `a * pc / 100` grows with `pc` and reaches `a` only at 100. */
  lemma FillFraction(a: nat, pc: nat, qc: nat)
    requires a > 0 && pc <= qc <= 100
    ensures a * pc / 100 <= a * qc / 100
    ensures a * pc / 100 == a <==> pc == 100
  {
    Arith.MulLe(0, pc, a);
    Arith.MulLe(pc, qc, a);
    Arith.DivMonotone(a * pc, a * qc, 100);
    Arith.DivUnique(a * 100, 100, a, 0);
    if pc < 100 {
      Arith.MulLe(pc + 1, 100, a);
      Arith.DivMonotone(a * pc, a * 100 - 1, 100);
      Arith.DivUnique(a * 100 - 1, 100, a - 1, 99);
    }
  }

  /** The battery icon's fill: `18 * percent / 100` with the percentage clamped to 100. */
  function BatteryFill(percent: u8): (f: u16)
    ensures f <= 18
    ensures f == 18 <==> percent >= 100
  {
    var p := if percent > 100 then 100 else percent;
    18 * p / 100
  }

  /** The battery icon is green above 20 percent and red up to it. */
  function BatteryColour(percent: u8): (c: u16)
    ensures c == Green <==> percent > 20
  {
    var p := if percent > 100 then 100 else percent;
    if p > 20 then Green else Red
  }

  /** The calls of `display_draw_battery_icon`. */
  function BatteryCalls(x: u16, y: u16, percent: u8, colour: u16): seq<DriverCall>
  {
    RectCalls(x, ToU16(y + 2), 20, 10, colour)
    + [FillRect(ToU16(x + 20), ToU16(y + 4), 2, 6, colour),
       FillRect(ToU16(x + 1), ToU16(y + 3), BatteryFill(percent), 8, BatteryColour(percent))]
  }

  /** Bar `i` of the signal gauge: 2 wide, `3*(i+1)` tall, standing on row `y + 15`,
    * in `colour` when `i` is below the clamped strength and grey otherwise. */
  function SignalBar(x: u16, y: u16, strength: u8, colour: u16, i: nat): (call: DriverCall)
    requires i < 5
    ensures call.FillRect? && call.w == 2 && call.h == 3 * (i + 1)
    ensures call.colour == if i < strength then colour else Gray
  {
    var s := if strength > 5 then 5 else strength;
    var h := (i + 1) * 3;
    FillRect(ToU16(x + i * 4), ToU16(y + 15 - h), 2, h, if i < s then colour else Gray)
  }

  function SignalCalls(x: u16, y: u16, strength: u8, colour: u16): (calls: seq<DriverCall>)
    ensures |calls| == 5
    ensures forall i :: 0 <= i < 5 ==> calls[i] == SignalBar(x, y, strength, colour, i)
  {
    seq(5, i requires 0 <= i < 5 => SignalBar(x, y, strength, colour, i))
  }

  /** On-panel bars all end on row `y + 14`, sit 4 pixels apart, and each is 3 taller than the one
    * before. */
  lemma SignalBarsShareBaseline(x: u16, y: u16, strength: u8, colour: u16, i: nat)
    requires 1 <= i < 5 && x + 16 < 0x1_0000 && 15 <= y && y + 15 < 0x1_0000
    ensures var a, b := SignalBar(x, y, strength, colour, i - 1), SignalBar(x, y, strength, colour, i);
            a.y + a.h == b.y + b.h == y + 15 && b.x == a.x + 4 && b.h == a.h + 3
  {
  }

  /** The panel driver as `display.c` sees it: its size and every call made to it so far. */
  class Canvas {
    const width: u16
    const height: u16
    /** The glyph table, `Font5x7` flattened. */
    const font: seq<u8>
    var calls: seq<DriverCall>

    ghost predicate Valid()
    {
      |font| == 480
    }

    /** `display_init`: the panel driver is fetched and its `init()` called, the first call on
      * the trace. */
    constructor (width: u16, height: u16)
      ensures Valid() && this.width == width && this.height == height && font == Font5x7 && calls == [Init]
    {
      this.width := width;
      this.height := height;
      font := Font5x7;
      calls := [Init];
    }

    /** `display_fill_rect`. */
    method FillRectangle(x: u16, y: u16, w: u16, h: u16, colour: u16)
      modifies this
      ensures calls == old(calls) + [FillRect(x, y, w, h, colour)]
    {
      calls := calls + [FillRect(x, y, w, h, colour)];
    }

    /** `display_draw_rect`: top, bottom, left and right edges. */
    method DrawRect(x: u16, y: u16, w: u16, h: u16, colour: u16)
      modifies this
      ensures calls == old(calls) + RectCalls(x, y, w, h, colour)
    {
      calls := calls + [DrawHLine(colour, x, y, w)];
      calls := calls + [DrawHLine(colour, x, ToU16(y + h - 1), w)];
      calls := calls + [DrawVLine(colour, x, y, h)];
      calls := calls + [DrawVLine(colour, ToU16(x + w - 1), y, h)];
    }

    /** `display_draw_vertical_line`: nothing when a coordinate lies past the panel's size. */
    method DrawVerticalLine(x: u16, y0: u16, y1: u16, colour: u16)
      modifies this
      ensures x > width || Span(y0, y1, height).None? ==> calls == old(calls)
      ensures x <= width && Span(y0, y1, height).Some? ==>
        var (start, len) := Span(y0, y1, height).value;
        calls == old(calls) + [DrawVLine(colour, x, start, len)]
    {
      var a, b := y0, y1;
      if a > b {
        a, b := b, a;
      }
      if x > width || a > height || b > height {
        return;
      }
      calls := calls + [DrawVLine(colour, x, a, ToU16(b - a + 1))];
    }

    /** `display_draw_horizontal_line`: nothing when a coordinate lies past the panel's size. */
    method DrawHorizontalLine(x0: u16, y: u16, x1: u16, colour: u16)
      modifies this
      ensures y > height || Span(x0, x1, width).None? ==> calls == old(calls)
      ensures y <= height && Span(x0, x1, width).Some? ==>
        var (start, len) := Span(x0, x1, width).value;
        calls == old(calls) + [DrawHLine(colour, start, y, len)]
    {
      var a, b := x0, x1;
      if a > b {
        a, b := b, a;
      }
      if y > height || a > width || b > width {
        return;
      }
      calls := calls + [DrawHLine(colour, a, y, ToU16(b - a + 1))];
    }

    /** `display_draw_line`: Bresenham's algorithm. The first pixel is `(x0, y0)`, the last
      * `(x1, y1)`, every pixel lies in the box they span, and each is one step on from the one
      * before, towards the far end on both axes. */
    method DrawLine(x0: u16, y0: u16, x1: u16, y1: u16, colour: u16)
      requires x0 < 0x1000 && y0 < 0x1000 && x1 < 0x1000 && y1 < 0x1000
      modifies this
      ensures LineSoFar(calls, |old(calls)|, x0, y0, x1, y1, colour) && calls[..|old(calls)|] == old(calls)
      ensures calls[|calls| - 1] == DrawPixel(x1, y1, colour)
    {
      var dx: int := Abs(x1 - x0);
      var dy: int := Abs(y1 - y0);
      var sx: int := if x0 < x1 then 1 else -1;
      var sy: int := if y0 < y1 then 1 else -1;
      var err: int := dx - dy;
      var x: u16, y: u16 := x0, y0;
      ghost var i, j := 0, 0;
      ghost var n0 := |calls|;
      calls := calls + [DrawPixel(x, y, colour)];
      while !(x == x1 && y == y1)
        invariant 0 <= i <= dx && 0 <= j <= dy
        invariant x as int == Toward(x0, x1, i) && y as int == Toward(y0, y1, j)
        invariant err == ErrAfter(dx, dy, i, j)
        invariant -2 * dy - dx <= err <= 2 * dx + dy
        invariant LineSoFar(calls, n0, x0, y0, x1, y1, colour) && calls[..n0] == old(calls)
        invariant calls[|calls| - 1] == DrawPixel(x, y, colour)
        decreases (dx - i) + (dy - j)
      {
        BresenhamNext(dx, dy, i, j, err);
        var e2 := 2 * err;
        assert -0x8000 <= e2 < 0x8000;
        if e2 > -dy {
          err := err - dy;
          x := x + sx;
          i := i + 1;
        }
        if e2 < dx {
          err := err + dx;
          y := y + sy;
          j := j + 1;
        }
        LineExtend(calls, n0, x0, y0, x1, y1, colour, DrawPixel(x, y, colour));
        calls := calls + [DrawPixel(x, y, colour)];
      }
    }

    /** `display_draw_char`: five glyph columns, each read from its least significant bit up. */
    method DrawChar(x: u16, y: u16, c: char, colour: u16, bg: u16, size: u8)
      requires Valid()
      modifies this
      ensures calls == old(calls) + CharCalls(font, x, y, c, colour, bg, size)
    {
      var g := GlyphIndex(c);
      var i := 0;
      while i < 5
        invariant 0 <= i <= 5
        invariant calls == old(calls) + Columns(font, x, y, c, colour, bg, size, i)
      {
        var line: int := font[5 * g + i];
        ghost var p: nat := 1;
        var j := 0;
        while j < 8
          invariant 0 <= j <= 8
          invariant j < 8 ==> p == Pow2(j)
          invariant p > 0 && line == GlyphColumn(font, c, i) / p
          invariant calls == old(calls) + Columns(font, x, y, c, colour, bg, size, i) + ColumnCalls(font, x, y, c, colour, bg, size, i)[..j]
        {
          var col := if line % 2 == 1 then colour else bg;
          if size == 1 {
            calls := calls + [DrawPixel(ToU16(x + i), ToU16(y + j), col)];
          } else {
            calls := calls + [FillRect(ToU16(x + i * size), ToU16(y + j * size), size, size, col)];
          }
          assert calls[|calls| - 1] == CharCell(font, x, y, c, colour, bg, size, i, j);
          assert ColumnCalls(font, x, y, c, colour, bg, size, i)[..j + 1]
              == ColumnCalls(font, x, y, c, colour, bg, size, i)[..j] + [CharCell(font, x, y, c, colour, bg, size, i, j)];
          Arith.DivDiv(GlyphColumn(font, c, i), p, 2);
          line := line / 2;
          p := p * 2;
          j := j + 1;
        }
        assert ColumnCalls(font, x, y, c, colour, bg, size, i)[..8] == ColumnCalls(font, x, y, c, colour, bg, size, i);
        i := i + 1;
      }
    }

    /** `display_draw_string`: the characters before the terminating NUL, 6*size pixels apart. */
    method DrawString(x: u16, y: u16, str: seq<char>, colour: u16, bg: u16, size: u8)
      requires Valid() && CStr.NUL in str
      modifies this
      ensures calls == old(calls) + StringCalls(font, x, y, CStr.Text(str), colour, bg, size)
    {
      var posX: u16 := x;
      var k := 0;
      while str[k] != CStr.NUL
        invariant 0 <= k <= CStr.StrLen(str) < |str|
        invariant posX == ToU16(x + 6 * size * k)
        invariant calls == old(calls) + StringCalls(font, x, y, str[..k], colour, bg, size)
        decreases CStr.StrLen(str) - k
      {
        DrawChar(posX, y, str[k], colour, bg, size);
        assert str[..k + 1][..k] == str[..k];
        posX := ToU16(posX + 6 * size);
        Arith.ModAdd(x + 6 * size * k, 6 * size, 0x1_0000);
        assert 6 * size * (k + 1) == 6 * size * k + 6 * size;
        k := k + 1;
      }
    }

    /** `display_draw_bits` with counters wide enough for any `uint16_t` size: `h` rows of `w`
      * pixels, one bit each. */
    method DrawBits(x: u16, y: u16, buff: seq<u8>, colour: u16, bg: u16, w: u16, h: u16)
      requires h * Stride(w) <= |buff|
      modifies this
      ensures calls == old(calls) + BitsRows(x, y, buff, colour, bg, w, h)
    {
      var i := 0;
      while i < h
        invariant 0 <= i <= h
        invariant calls == old(calls) + BitsRows(x, y, buff, colour, bg, w, i)
      {
        Arith.MulLe(i + 1, h, Stride(w));
        DrawBitsRow(x, y, buff, colour, bg, w, i);
        i := i + 1;
      }
    }

    /** The inner loop of `display_draw_bits`: row `i`, left to right. */
    method DrawBitsRow(x: u16, y: u16, buff: seq<u8>, colour: u16, bg: u16, w: u16, i: nat)
      requires (i + 1) * Stride(w) <= |buff|
      modifies this
      ensures calls == old(calls) + BitsRow(x, y, buff, colour, bg, w, i)
    {
      ghost var row := BitsRow(x, y, buff, colour, bg, w, i);
      var start := i * Stride(w);
      assert start + Stride(w) == (i + 1) * Stride(w);
      var j := 0;
      while j < w
        invariant 0 <= j <= w
        invariant calls == old(calls) + row[..j]
      {
        var byte := buff[start + j / 8];
        var bit := (byte / Pow2(7 - j % 8)) % 2;
        calls := calls + [DrawPixel(ToU16(x + j), ToU16(y + i), if bit == 1 then colour else bg)];
        assert row[..j + 1] == row[..j] + [row[j]];
        j := j + 1;
      }
      assert row[..w] == row;
    }

    /** `display_draw_progress_bar`: a white frame, the inside cleared, then the filled part. */
    method DrawProgressBar(x: u16, y: u16, w: u16, h: u16, percent: u8, fill: u16, bg: u16)
      modifies this
      ensures calls == old(calls) + RectCalls(x, y, w, h, White)
        + [FillRect(ToU16(x + 1), ToU16(y + 1), ToU16(w - 2), ToU16(h - 2), bg),
           FillRect(ToU16(x + 1), ToU16(y + 1), ProgressFill(w, percent), ToU16(h - 2), fill)]
    {
      DrawRect(x, y, w, h, White);
      FillRectangle(ToU16(x + 1), ToU16(y + 1), ToU16(w - 2), ToU16(h - 2), bg);
      var p: int := percent;
      if p > 100 {
        p := 100;
      }
      var fillWidth := ToU16(CDiv((w - 2) * p, 100));
      FillRectangle(ToU16(x + 1), ToU16(y + 1), fillWidth, ToU16(h - 2), fill);
    }

    /** `display_draw_battery_icon`. */
    method DrawBatteryIcon(x: u16, y: u16, percent: u8, colour: u16)
      modifies this
      ensures calls == old(calls) + BatteryCalls(x, y, percent, colour)
    {
      DrawRect(x, ToU16(y + 2), 20, 10, colour);
      FillRectangle(ToU16(x + 20), ToU16(y + 4), 2, 6, colour);
      var p: int := percent;
      if p > 100 {
        p := 100;
      }
      var fillWidth: int := (18 * p) / 100;
      if p > 20 {
        FillRectangle(ToU16(x + 1), ToU16(y + 3), fillWidth, 8, Green);
      } else {
        FillRectangle(ToU16(x + 1), ToU16(y + 3), fillWidth, 8, Red);
      }
    }

    /** `display_draw_signal_bars`: five bars, the first `strength` (at most 5) in `colour`. */
    method DrawSignalBars(x: u16, y: u16, strength: u8, colour: u16)
      modifies this
      ensures calls == old(calls) + SignalCalls(x, y, strength, colour)
    {
      var s := strength;
      if s > 5 {
        s := 5;
      }
      var i := 0;
      while i < 5
        invariant 0 <= i <= 5
        invariant calls == old(calls) + SignalCalls(x, y, strength, colour)[..i]
      {
        var barHeight := (i + 1) * 3;
        var barColour := if i < s then colour else Gray;
        FillRectangle(ToU16(x + i * 4), ToU16(y + 15 - barHeight), 2, barHeight, barColour);
        assert SignalCalls(x, y, strength, colour)[..i + 1]
            == SignalCalls(x, y, strength, colour)[..i] + [SignalBar(x, y, strength, colour, i)];
        i := i + 1;
      }
      assert SignalCalls(x, y, strength, colour)[..5] == SignalCalls(x, y, strength, colour);
    }
  }
}
