// drivers/display/LCD_Controller.c: 9-bit SPI framing of panel commands and data.
// Bit 8 of each 9-bit word is the data/command flag: clear for a command, set for data.

module LcdController {
  import opened CInt

  /** What reaches the panel bus: one 9-bit SPI word, or one call of `LCD_IO_WriteData`. */
  datatype BusEvent = Word(w: int) | WriteData(value: u16)

  const DataFlag: int := 0x100

  /** The word sent for a command byte. */
  function CommandWord(reg: u8): (w: int)
    ensures 0 <= w < DataFlag && w == reg
  {
    reg
  }

  /** The word sent for a data byte: the byte with the 9th bit set. */
  function DataWord(d: u8): (w: int)
    ensures DataFlag <= w < 2 * DataFlag
    ensures w % DataFlag == d
  {
    d + DataFlag
  }

  /** The two words sent for a 16-bit data value: high byte first, each with the 9th bit set. */
  function Data16Words(d: u16): (ws: seq<int>)
    ensures |ws| == 2
    ensures ws == [DataWord(d / 0x100), DataWord(d % 0x100)]
  {
    [(d / 0x100) % 0x100 + DataFlag, d % 0x100 + DataFlag]
  }

  /** What a receiver reassembles from the low bytes of two data words. */
  function Reassemble(w1: int, w2: int): int
  {
    (w1 % 0x100) * 0x100 + w2 % 0x100
  }

  /** The receiver recovers every 16-bit value from the two words `LCD_IO_WriteData16` sends. */
  lemma Data16RoundTrip(d: u16)
    ensures var ws := Data16Words(d); Reassemble(ws[0], ws[1]) == d
  {
  }

  /** One `LCD_IO_WriteData` call per word, in order. */
  function Forwarded(data: seq<u16>): (evs: seq<BusEvent>)
    ensures |evs| == |data|
    ensures forall i :: 0 <= i < |data| ==> evs[i] == WriteData(data[i])
  {
    seq(|data|, i requires 0 <= i < |data| => WriteData(data[i]))
  }

  /** The SPI port, as the sequence of events it has carried. */
  class Bus {
    var trace: seq<BusEvent>

    constructor ()
      ensures trace == []
    {
      trace := [];
    }

    /** `LCD_IO_WriteReg`: one word equal to the command, flag clear. */
    method WriteReg(reg: u8)
      modifies this
      ensures trace == old(trace) + [Word(CommandWord(reg))]
    {
      trace := trace + [Word(reg)];
    }

    /** `LCD_IO_WriteData8`: one word, `data | 0x100`. */
    method WriteData8(d: u8)
      modifies this
      ensures trace == old(trace) + [Word(DataWord(d))]
    {
      trace := trace + [Word(d + DataFlag)];
    }

    /** `LCD_IO_WriteData16`: the high byte's word, then the low byte's. */
    method WriteData16(d: u16)
      modifies this
      ensures trace == old(trace) + [Word(Data16Words(d)[0]), Word(Data16Words(d)[1])]
    {
      var high := (d / 0x100) % 0x100 + DataFlag;
      var low := d % 0x100 + DataFlag;
      trace := trace + [Word(high)];
      trace := trace + [Word(low)];
    }

    /**
     * `LCD_IO_WriteMultipleData`: forwards the words in order to `LCD_IO_WriteData`,
     * whose body is not part of this model.
     */
    method WriteMultipleData(data: seq<u16>)
      modifies this
      ensures trace == old(trace) + Forwarded(data)
    {
      var i := 0;
      while i < |data|
        invariant 0 <= i <= |data|
        invariant trace == old(trace) + Forwarded(data[..i])
      {
        assert Forwarded(data[..i + 1]) == Forwarded(data[..i]) + [WriteData(data[i])];
        trace := trace + [WriteData(data[i])];
        i := i + 1;
      }
      assert data[..i] == data;
    }
  }
}
