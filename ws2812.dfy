// drivers/peripherals/ws2812.c: the RGB LED strip's pixel buffer and its bit stream.

module Ws2812 {
  import Errno
  import opened CInt
  import Arith
  import opened Bits

  const MaxPixels: int := 17

  datatype Pixel = Pixel(r: u8, g: u8, b: u8)

  const Off: Pixel := Pixel(0, 0, 0)

  /** What an LED latches from a run of bits: each bit shifts in from the right. */
  function ShiftIn(bits: seq<bool>): nat
  {
    if bits == [] then 0 else 2 * ShiftIn(bits[..|bits| - 1]) + (if bits[|bits| - 1] then 1 else 0)
  }

  lemma ShiftInStep(s: seq<bool>, bit: bool)
    ensures ShiftIn(s + [bit]) == 2 * ShiftIn(s) + (if bit then 1 else 0)
  {
    assert (s + [bit])[..|s|] == s;
  }

  /** After `k + 1` bits an LED holds the byte's top `k + 1` bits. */
  lemma {:induction false} Step(v: u8, k: nat)
    requires k < 8
    ensures ShiftIn(MsbBits(v)[..k + 1]) == v / Pow2(7 - k)
  {
    var b := MsbBits(v);
    var p := Pow2(7 - k);
    ShiftInStep(b[..k], b[k]);
    assert b[..k + 1] == b[..k] + [b[k]];
    var bit := if b[k] then 1 else 0;
    assert bit == (v / p) % 2;
    if k == 0 {
      assert b[..0] == [];
      TopBit(v);
    } else {
      Step(v, k - 1);
      assert Pow2(8 - k) == p * 2;
      HalfStep(v, p);
    }
  }

  lemma TopBit(v: u8)
    ensures Pow2(7) == 128 && v / 128 == (v / 128) % 2
  {
  }

  /** Dividing by `p` keeps one more low bit than dividing by `2 * p`. */
  lemma HalfStep(v: nat, p: nat)
    requires p > 0
    ensures v / p == 2 * (v / (p * 2)) + (v / p) % 2
  {
    Arith.DivDiv(v, p, 2);
  }

  /** An LED reassembles every byte from the eight bits sent for it. */
  lemma MsbBitsRoundTrip(v: u8)
    ensures ShiftIn(MsbBits(v)) == v
  {
    Step(v, 7);
    assert MsbBits(v)[..8] == MsbBits(v);
  }

  /** The bits for a run of pixels: green, red, blue for each, in strip order. */
  function Frame(ps: seq<Pixel>): (bits: seq<bool>)
    ensures |bits| == 24 * |ps|
  {
    if ps == [] then [] else Frame(ps[..|ps| - 1]) + PixelBits(ps[|ps| - 1])
  }

  /** One pixel on the wire: green, red, blue. */
  function PixelBits(p: Pixel): (bits: seq<bool>)
    ensures |bits| == 24
  {
    MsbBits(p.g) + MsbBits(p.r) + MsbBits(p.b)
  }

  lemma FrameSnoc(ps: seq<Pixel>, i: nat)
    requires i < |ps|
    ensures Frame(ps[..i + 1]) == Frame(ps[..i]) + PixelBits(ps[i])
  {
    assert ps[..i + 1][..i] == ps[..i];
  }

  /** Pixel `k` occupies bits `24 * k` to `24 * k + 24` of a frame. */
  lemma {:induction false} FrameAt(ps: seq<Pixel>, k: nat)
    requires k < |ps|
    ensures Frame(ps)[24 * k..24 * k + 24] == PixelBits(ps[k])
  {
    var m := |ps| - 1;
    assert Frame(ps) == Frame(ps[..m]) + PixelBits(ps[m]);
    if k < m {
      FrameAt(ps[..m], k);
      assert Frame(ps)[24 * k..24 * k + 24] == Frame(ps[..m])[24 * k..24 * k + 24];
    } else {
      assert Frame(ps)[24 * k..] == PixelBits(ps[m]);
    }
  }

  /** Each LED along the strip latches the colour that was set for it. */
  lemma FrameRoundTrip(ps: seq<Pixel>, k: nat)
    requires k < |ps|
    ensures var bits := Frame(ps)[24 * k..24 * k + 24];
            ShiftIn(bits[..8]) == ps[k].g && ShiftIn(bits[8..16]) == ps[k].r && ShiftIn(bits[16..]) == ps[k].b
  {
    FrameAt(ps, k);
    var p := ps[k];
    assert PixelBits(p)[..8] == MsbBits(p.g);
    assert PixelBits(p)[8..16] == MsbBits(p.r);
    assert PixelBits(p)[16..] == MsbBits(p.b);
    MsbBitsRoundTrip(p.g);
    MsbBitsRoundTrip(p.r);
    MsbBitsRoundTrip(p.b);
  }

  /** The strip driver's pixel buffer and everything put on the data line so far. */
  class Strip {
    const pixels: array<Pixel>
    var line: seq<bool>

    ghost predicate Valid()
      reads this
    {
      pixels.Length == MaxPixels
    }

    constructor ()
      ensures Valid() && fresh(pixels) && line == []
    {
      pixels := new Pixel[MaxPixels](_ => Off);
      line := [];
    }

    /** `ws2812_set_pixel`: sets that one pixel, or rejects an index past the strip. */
    method SetPixel(index: int, r: u8, g: u8, b: u8) returns (res: int)
      requires Valid() && index >= 0
      modifies pixels
      ensures index >= MaxPixels ==> res == Errno.EINVAL && pixels[..] == old(pixels[..])
      ensures index < MaxPixels ==> res == 0 && pixels[..] == old(pixels[..])[index := Pixel(r, g, b)]
    {
      if index >= MaxPixels {
        return Errno.EINVAL;
      }
      pixels[index] := Pixel(r, g, b);
      return 0;
    }

    /** `ws2812_clear`: zeroes the first `n` pixels, `n` clamped to the strip length. */
    method Clear(n: int) returns (res: int)
      requires Valid() && n >= 0
      modifies pixels
      ensures res == 0
      ensures var m := if n > MaxPixels then MaxPixels else n;
              (forall i :: 0 <= i < m ==> pixels[i] == Off)
              && forall i :: m <= i < MaxPixels ==> pixels[i] == old(pixels[i])
    {
      var m := if n > MaxPixels then MaxPixels else n;
      var i := 0;
      while i < m
        invariant 0 <= i <= m
        invariant forall k :: 0 <= k < i ==> pixels[k] == Off
        invariant forall k :: i <= k < MaxPixels ==> pixels[k] == old(pixels[k])
      {
        pixels[i] := Off;
        i := i + 1;
      }
      return 0;
    }

    /** `ws2812_send_byte`: bit 7 first, bit 0 last. */
    method SendByte(v: u8)
      modifies this
      ensures line == old(line) + MsbBits(v)
    {
      var bit := 7;
      while bit >= 0
        invariant -1 <= bit <= 7
        invariant line == old(line) + MsbBits(v)[..7 - bit]
      {
        line := line + [(v / Pow2(bit)) % 2 == 1];
        assert MsbBits(v)[..7 - bit + 1] == MsbBits(v)[..7 - bit] + [MsbBits(v)[7 - bit]];
        bit := bit - 1;
      }
    }

    /** The three `ws2812_send_byte` calls of one pixel in `ws2812_update`. */
    method SendPixel(p: Pixel)
      modifies this
      ensures line == old(line) + PixelBits(p)
    {
      SendByte(p.g);
      SendByte(p.r);
      SendByte(p.b);
    }

    /** The loop of `ws2812_update` over a run of pixels. */
    method SendPixels(ps: seq<Pixel>)
      modifies this
      ensures line == old(line) + Frame(ps)
    {
      var i := 0;
      while i < |ps|
        invariant 0 <= i <= |ps|
        invariant line == old(line) + Frame(ps[..i])
      {
        SendPixel(ps[i]);
        FrameSnoc(ps, i);
        i := i + 1;
      }
      assert ps[..i] == ps;
    }

    /** `ws2812_update`: the first `n` pixels, each as green, red, blue bytes.
      * The pixel buffer is outside the frame, so it is left as it was. */
    method Update(n: int) returns (res: int)
      requires Valid() && n >= 0
      modifies this
      ensures n > MaxPixels ==> res == Errno.EINVAL && line == old(line)
      ensures n <= MaxPixels ==> res == 0 && line == old(line) + Frame(pixels[..n])
    {
      if n > MaxPixels {
        return Errno.EINVAL;
      }
      SendPixels(pixels[..n]);
      return 0;
    }
  }
}
