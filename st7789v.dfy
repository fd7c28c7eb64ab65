// drivers/display/st7789v.c: the ST7789V panel driver (240 x 320), over the 9-bit SPI bus.

module St7789v {
  import opened CInt
  import opened LcdController

  const PixelWidth: int := 240
  const PixelHeight: int := 320

  const CASET: u8 := 0x2A
  const RASET: u8 := 0x2B
  const RAMWR: u8 := 0x2C
  const MADCTL: u8 := 0x36

  const OrientationPortrait: int := 0
  const OrientationLandscape: int := 1
  const OrientationLandscapeRot180: int := 2

  /** The bus events of one register write: the command word, then one data word per parameter. */
  function RegFrame(cmd: u8, params: seq<u8>): (evs: seq<BusEvent>)
    ensures |evs| == 1 + |params| && evs[0] == Word(CommandWord(cmd))
    ensures forall i :: 0 <= i < |params| ==> evs[1 + i] == Word(DataWord(params[i]))
  {
    [Word(CommandWord(cmd))] + seq(|params|, i requires 0 <= i < |params| => Word(DataWord(params[i])))
  }

  /** A 16-bit coordinate as the two parameter bytes the panel expects, high byte first. */
  function BigEndian(v: u16): (bs: seq<u8>)
    ensures |bs| == 2 && (bs[0] as int) * 0x100 + bs[1] == v
  {
    [(v / 0x100) % 0x100, v % 0x100]
  }

  /** The CASET and RASET writes that select the window from (x0, y0) to (x1, y1). */
  function WindowFrames(x0: u16, y0: u16, x1: u16, y1: u16): seq<BusEvent>
  {
    RegFrame(CASET, BigEndian(x0) + BigEndian(x1)) + RegFrame(RASET, BigEndian(y0) + BigEndian(y1))
  }

  /** The bus events of `n` pixel words of one colour. */
  function Pixels(colour: u16, n: nat): (evs: seq<BusEvent>)
    ensures |evs| == 2 * n
  {
    if n == 0 then [] else Pixels(colour, n - 1) + [Word(Data16Words(colour)[0]), Word(Data16Words(colour)[1])]
  }

  /** The MADCTL parameter for an orientation; unknown values fall back to portrait. */
  function MadctlFor(orientation: u32): (p: u8)
    ensures p == 0x60 <==> orientation == OrientationLandscape
    ensures p == 0xA0 <==> orientation == OrientationLandscapeRot180
    ensures p == 0x00 <==> orientation != OrientationLandscape && orientation != OrientationLandscapeRot180
  {
    if orientation == OrientationLandscape then 0x60
    else if orientation == OrientationLandscapeRot180 then 0xA0
    else 0x00
  }

  /** A little-endian 16-bit word of `b` at byte offset `o`, as the MCU reads it through a `uint16_t *`. */
  function Le16(b: seq<u8>, o: nat): (v: u16)
    requires o + 2 <= |b|
  {
    b[o] + 0x100 * (b[o + 1] as int)
  }

  /** A 32-bit header field of a bitmap, read as two little-endian halves. */
  function HeaderField(b: seq<u8>, o: nat): (v: int)
    requires o + 4 <= |b|
  {
    Le16(b, o) + 0x1_0000 * Le16(b, o + 2)
  }

  /** The two-halves read is the little-endian 32-bit value of the four header bytes. */
  lemma HeaderFieldIsLittleEndian(b: seq<u8>, o: nat)
    requires o + 4 <= |b|
    ensures HeaderField(b, o) == b[o] + 0x100 * (b[o + 1] as int) + 0x1_0000 * (b[o + 2] as int) + 0x100_0000 * (b[o + 3] as int)
    ensures 0 <= HeaderField(b, o) < 0x1_0000_0000
  {
  }

  /** The panel: its bus and the display window kept in the driver's statics. */
  class Panel {
    const bus: Bus
    var winXStart: u16
    var winYStart: u16
    var winXEnd: u16
    var winYEnd: u16

    constructor (b: Bus)
      ensures bus == b
      ensures winXStart == 0 && winYStart == 0
      ensures winXEnd == PixelWidth - 1 && winYEnd == PixelHeight - 1
    {
      bus := b;
      winXStart, winYStart := 0, 0;
      winXEnd, winYEnd := PixelWidth - 1, PixelHeight - 1;
    }

    /** `ST7789V_WriteReg`: the command, then exactly the given parameters in order. */
    method WriteReg(cmd: u8, params: seq<u8>)
      requires |params| < 0x100
      modifies bus
      ensures bus.trace == old(bus.trace) + RegFrame(cmd, params)
    {
      bus.WriteReg(cmd);
      var i := 0;
      while i < |params|
        invariant 0 <= i <= |params|
        invariant bus.trace == old(bus.trace) + RegFrame(cmd, params[..i])
      {
        bus.WriteData8(params[i]);
        assert params[..i + 1] == params[..i] + [params[i]];
        i := i + 1;
      }
      assert params[..i] == params;
    }

    /** `ST7789V_SetOrientation`: one MADCTL write. */
    method SetOrientation(orientation: u32)
      modifies bus
      ensures bus.trace == old(bus.trace) + RegFrame(MADCTL, [MadctlFor(orientation)])
    {
      var p: u8;
      if orientation == OrientationLandscape {
        p := 0x60;
      } else if orientation == OrientationLandscapeRot180 {
        p := 0xA0;
      } else {
        p := 0x00;
      }
      WriteReg(MADCTL, [p]);
    }

    /** `ST7789V_SetAddressWindow`: CASET with the column range, then RASET with the row range. */
    method SetAddressWindow(x0: u16, y0: u16, x1: u16, y1: u16)
      modifies bus
      ensures bus.trace == old(bus.trace) + WindowFrames(x0, y0, x1, y1)
    {
      var columns: seq<u8> := [(x0 / 0x100) % 0x100, x0 % 0x100, (x1 / 0x100) % 0x100, x1 % 0x100];
      assert columns == BigEndian(x0) + BigEndian(x1);
      var rows: seq<u8> := [(y0 / 0x100) % 0x100, y0 % 0x100, (y1 / 0x100) % 0x100, y1 % 0x100];
      assert rows == BigEndian(y0) + BigEndian(y1);
      ghost var before := bus.trace;
      WriteReg(CASET, columns);
      WriteReg(RASET, rows);
      Append2(before, RegFrame(CASET, columns), RegFrame(RASET, rows));
    }

    /** `ST7789V_WritePixel`: a 1 x 1 window, RAMWR, one pixel word. */
    method WritePixel(x: u16, y: u16, colour: u16)
      modifies bus
      ensures bus.trace == old(bus.trace) + WindowFrames(x, y, x, y) + RegFrame(RAMWR, []) + Pixels(colour, 1)
    {
      SetAddressWindow(x, y, x, y);
      WriteReg(RAMWR, []);
      bus.WriteData16(colour);
    }

    /** Sends `n` pixel words of one colour. */
    method SendPixels(colour: u16, n: u16)
      modifies bus
      ensures bus.trace == old(bus.trace) + Pixels(colour, n)
    {
      var counter := 0;
      while counter < n
        invariant 0 <= counter <= n
        invariant bus.trace == old(bus.trace) + Pixels(colour, counter)
      {
        bus.WriteData16(colour);
        counter := counter + 1;
      }
    }

    /** `ST7789V_DrawHLine`: window (x, y)-(x + len - 1, y), RAMWR, then exactly `len` pixel words. */
    method DrawHLine(colour: u16, x: u16, y: u16, len: u16)
      modifies bus
      ensures bus.trace == old(bus.trace) + WindowFrames(x, y, ToU16(x + len - 1), y)
                           + RegFrame(RAMWR, []) + Pixels(colour, len)
    {
      SetAddressWindow(x, y, ToU16(x + len - 1), y);
      WriteReg(RAMWR, []);
      SendPixels(colour, len);
    }

    /** `ST7789V_DrawVLine`: window (x, y)-(x, y + len - 1), RAMWR, then exactly `len` pixel words. */
    method DrawVLine(colour: u16, x: u16, y: u16, len: u16)
      modifies bus
      ensures bus.trace == old(bus.trace) + WindowFrames(x, y, x, ToU16(y + len - 1))
                           + RegFrame(RAMWR, []) + Pixels(colour, len)
    {
      SetAddressWindow(x, y, x, ToU16(y + len - 1));
      WriteReg(RAMWR, []);
      SendPixels(colour, len);
    }

    /**
     * `ST7789V_SetDisplayWindow`: an off-panel start falls back to 0 and an end past the
     * panel is clamped to its last column or row.
     */
    method SetDisplayWindow(xpos: u16, ypos: u16, width: u16, height: u16)
      modifies this
      ensures winXStart == if xpos < PixelWidth then xpos else 0
      ensures winYStart == if ypos < PixelHeight then ypos else 0
      ensures winXEnd == if width + xpos <= PixelWidth then ToU16(width + xpos - 1) else PixelWidth - 1
      ensures winYEnd == if height + ypos <= PixelHeight then ToU16(height + ypos - 1) else PixelHeight - 1
      // The window ends inside the panel unless a zero size at position 0 wraps to 0xFFFF.
      ensures width + xpos > 0 ==> winXEnd < PixelWidth
      ensures height + ypos > 0 ==> winYEnd < PixelHeight
    {
      winXStart := if xpos < PixelWidth then xpos else 0;
      winYStart := if ypos < PixelHeight then ypos else 0;
      winXEnd := if width + xpos <= PixelWidth then ToU16(width + xpos - 1) else PixelWidth - 1;
      winYEnd := if height + ypos <= PixelHeight then ToU16(height + ypos - 1) else PixelHeight - 1;
    }

    /** The window's width in pixels, `Xsize` in 16-bit arithmetic. */
    function WindowWidth(): u16
      reads this
    {
      ToU16(winXEnd - winXStart + 1)
    }

    /** The window's height in pixels, `Ysize` in 16-bit arithmetic. */
    function WindowHeight(): u16
      reads this
    {
      ToU16(winYEnd - winYStart + 1)
    }

    /**
     * `ST7789V_DrawBitmap`: reads the pixel-data offset from header bytes 10..13, selects a
     * window of the current window's size at (xpos, ypos), sends RAMWR and then streams
     * the window's rows of pixel words from that offset on.
     */
    method DrawBitmap(xpos: u16, ypos: u16, bmp: seq<u8>)
      requires |bmp| >= 14
      requires HeaderField(bmp, 10) + 2 * Rows(WindowHeight(), WindowWidth()) <= |bmp|
      modifies bus
      ensures bus.trace == old(bus.trace)
        + WindowFrames(xpos, ypos, ToU16(xpos + old(WindowWidth()) - 1), ToU16(ypos + old(WindowHeight()) - 1))
        + RegFrame(RAMWR, [])
        + Forwarded(BitmapWords(bmp, HeaderField(bmp, 10), Rows(old(WindowHeight()), old(WindowWidth()))))
    {
      SendBitmap(xpos, ypos, WindowWidth(), WindowHeight(), bmp, HeaderField(bmp, 10));
    }

    /** What `ST7789V_DrawBitmap` sends once it has the window's size and the offset of the
      * pixel data: the window at (xpos, ypos), RAMWR, then the rows. */
    method SendBitmap(xpos: u16, ypos: u16, xsize: u16, ysize: u16, bmp: seq<u8>, index: nat)
      requires index + 2 * Rows(ysize, xsize) <= |bmp|
      modifies bus
      ensures bus.trace == old(bus.trace)
          + WindowFrames(xpos, ypos, ToU16(xpos + xsize - 1), ToU16(ypos + ysize - 1))
          + RegFrame(RAMWR, [])
          + Forwarded(BitmapWords(bmp, index, Rows(ysize, xsize)))
    {
      SetAddressWindow(xpos, ypos, ToU16(xpos + xsize - 1), ToU16(ypos + ysize - 1));
      WriteReg(RAMWR, []);
      StreamRows(bmp, index, xsize, ysize);
    }

    /** The row loop of `ST7789V_DrawBitmap`: `ysize` calls of `LCD_IO_WriteMultipleData`, `xsize` words each. */
    method StreamRows(bmp: seq<u8>, index: nat, xsize: nat, ysize: nat)
      requires index + 2 * Rows(ysize, xsize) <= |bmp|
      modifies bus
      ensures bus.trace == old(bus.trace) + Forwarded(BitmapWords(bmp, index, Rows(ysize, xsize)))
    {
      var line, done := 0, 0;
      while line < ysize
        invariant 0 <= line <= ysize && done == Rows(line, xsize) && done <= Rows(ysize, xsize)
        invariant bus.trace == old(bus.trace) + Forwarded(BitmapWords(bmp, index, done))
      {
        RowsMonotone(line + 1, ysize, xsize);
        var row := BitmapWords(bmp, index + 2 * done, xsize);
        ghost var before := bus.trace;
        bus.WriteMultipleData(row);
        RowStep(bmp, index, done, xsize, before, old(bus.trace));
        line, done := line + 1, done + xsize;
      }
    }
  }

  /** The words in `n` rows of `width` words, counted row by row; `RowsTimes` shows it is the
    * product, which the driver never computes. */
  function Rows(n: nat, width: nat): nat
  {
    if n == 0 then 0 else Rows(n - 1, width) + width
  }

  lemma {:induction false} RowsTimes(n: nat, width: nat)
    ensures Rows(n, width) == width * n
  {
    if n > 0 {
      RowsTimes(n - 1, width);
      assert width * n == width * (n - 1) + width;
    }
  }

  lemma {:induction false} RowsMonotone(m: nat, n: nat, width: nat)
    requires m <= n
    ensures Rows(m, width) <= Rows(n, width)
  {
    if m < n {
      RowsMonotone(m, n - 1, width);
    }
  }

  /** The first `n` little-endian pixel words of a bitmap whose pixel data starts at `index`. */
  function BitmapWords(bmp: seq<u8>, index: nat, n: nat): (ws: seq<u16>)
    requires index + 2 * n <= |bmp|
    ensures |ws| == n
    ensures forall j :: 0 <= j < n ==> ws[j] == Le16(bmp, index + 2 * j)
  {
    if n == 0 then [] else BitmapWords(bmp, index, n - 1) + [Le16(bmp, index + 2 * (n - 1))]
  }

  /** Sending the next row's words extends the trace by the words that follow those sent. */
  lemma RowStep(bmp: seq<u8>, index: nat, done: nat, xsize: nat, before: seq<BusEvent>, start: seq<BusEvent>)
    requires index + 2 * (done + xsize) <= |bmp|
    requires before == start + Forwarded(BitmapWords(bmp, index, done))
    ensures before + Forwarded(BitmapWords(bmp, index + 2 * done, xsize))
      == start + Forwarded(BitmapWords(bmp, index, done + xsize))
  {
    var a, b := BitmapWords(bmp, index, done), BitmapWords(bmp, index + 2 * done, xsize);
    assert BitmapWords(bmp, index, done + xsize) == a + b;
    ForwardedAppend(a, b);
  }

  lemma Append2<T>(a: seq<T>, b: seq<T>, c: seq<T>)
    ensures a + b + c == a + (b + c)
  {
  }

  lemma ForwardedAppend(a: seq<u16>, b: seq<u16>)
    ensures Forwarded(a + b) == Forwarded(a) + Forwarded(b)
  {
  }

}
