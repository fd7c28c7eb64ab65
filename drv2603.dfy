// drivers/peripherals/drv2603.c: haptic motor driver strength through a PWM compare value.

module Drv2603 {
  import opened CInt
  import Errno
  import opened Wrappers
  import Arith

  /** `strength_percent` clamped to 100. */
  function ClampStrength(s: u8): (c: int)
    ensures 0 <= c <= 100
    ensures c == s || (s > 100 && c == 100)
  {
    if s > 100 then 100 else s
  }

  /**
   * `(arr * (5000 + strength * slope)) / 10000` in 32-bit unsigned arithmetic:
   * the duty cycle runs from 50% at strength 0 up to 50% + slope% at strength 100. The
   * product is cut to 32 bits before the division, which bounds the result.
   */
  function Compare(arr: u32, s: u8, slope: nat): (r: u32)
    ensures r <= 0xFFFF_FFFF / 10000
  {
    ToU32(arr * (5000 + ClampStrength(s) * slope)) / 10000
  }

  /** LRA mode: 50% to 77% duty. */
  function LraCompare(arr: u32, s: u8): (r: u32)
    ensures arr * 7700 < 0x1_0000_0000 ==> arr * 5000 / 10000 <= r <= arr * 7700 / 10000
  {
    if arr * 7700 < 0x1_0000_0000 then CompareBounds(arr, s, 27); Compare(arr, s, 27)
    else Compare(arr, s, 27)
  }

  /** ERM mode: 50% to 91% duty. */
  function ErmCompare(arr: u32, s: u8): (r: u32)
    ensures arr * 9100 < 0x1_0000_0000 ==> arr * 5000 / 10000 <= r <= arr * 9100 / 10000
  {
    if arr * 9100 < 0x1_0000_0000 then CompareBounds(arr, s, 41); Compare(arr, s, 41)
    else Compare(arr, s, 41)
  }

  /** Without 32-bit overflow the compare value is the exact scaled duty cycle. */
  lemma CompareExact(arr: u32, s: u8, slope: nat)
    requires arr * (5000 + 100 * slope) < 0x1_0000_0000
    ensures 5000 <= 5000 + ClampStrength(s) * slope <= 5000 + 100 * slope
    ensures Compare(arr, s, slope) == arr * (5000 + ClampStrength(s) * slope) / 10000
  {
    var c := ClampStrength(s);
    Arith.MulNonneg(c, slope);
    Arith.MulLe(c, 100, slope);
    var d, e := 5000 + c * slope, 5000 + 100 * slope;
    Arith.MulLe(d, e, arr);
    Arith.MulNonneg(arr, d);
    assert d * arr == arr * d && e * arr == arr * e;
    assert 0 <= arr * d < 0x1_0000_0000;
  }

  /** Without 32-bit overflow the compare value lies between 50% and (50 + slope)% of `arr`. */
  lemma CompareBounds(arr: u32, s: u8, slope: nat)
    requires arr * (5000 + 100 * slope) < 0x1_0000_0000
    ensures arr * 5000 / 10000 <= Compare(arr, s, slope) <= arr * (5000 + 100 * slope) / 10000
  {
    CompareExact(arr, s, slope);
    var d := 5000 + ClampStrength(s) * slope;
    Arith.MulLe(5000, d, arr);
    Arith.MulLe(d, 5000 + 100 * slope, arr);
    Arith.DivMonotone(arr * 5000, arr * d, 10000);
    Arith.DivMonotone(arr * d, arr * (5000 + 100 * slope), 10000);
  }

  /** Without 32-bit overflow a stronger setting never gives a smaller compare value. */
  lemma CompareMonotone(arr: u32, s1: u8, s2: u8, slope: nat)
    requires s1 <= s2
    requires arr * (5000 + 100 * slope) < 0x1_0000_0000
    ensures Compare(arr, s1, slope) <= Compare(arr, s2, slope)
  {
    CompareExact(arr, s1, slope);
    CompareExact(arr, s2, slope);
    var d1, d2 := 5000 + ClampStrength(s1) * slope, 5000 + ClampStrength(s2) * slope;
    Arith.MulLe(ClampStrength(s1), ClampStrength(s2), slope);
    Arith.MulLe(d1, d2, arr);
    Arith.MulNonneg(arr, d1);
    Arith.DivMonotone(arr * d1, arr * d2, 10000);
  }

  /** The driver's stored timer handle (`htim_drv_pwm`) and the channel-1 compare register. */
  class Driver {
    /** The auto-reload value of the stored timer, or None while the handle is NULL. */
    var timer: Option<u32>
    /** The timer's channel-1 compare value. */
    var compare: u32

    constructor ()
      ensures timer == None
    {
      timer := None;
      compare := 0;
    }

    /** `drv2603_init`: a NULL handle is rejected and nothing is stored. */
    method Init(handle: Option<u32>) returns (r: int)
      modifies this
      ensures handle.None? ==> r == Errno.EINVAL && timer == old(timer) && compare == old(compare)
      ensures handle.Some? ==> r == 0 && timer == handle && compare == 0
    {
      if handle.None? {
        return Errno.EINVAL;
      }
      timer := handle;
      compare := 0;
      return 0;
    }

    /** `drv2603_set_strength_lra`. */
    method SetStrengthLra(s: u8) returns (r: int)
      modifies this
      ensures timer == old(timer)
      ensures old(timer).None? ==> r == Errno.EINVAL && compare == old(compare)
      ensures old(timer).Some? ==> r == 0 && compare == LraCompare(timer.value, s)
    {
      if timer.None? {
        return Errno.EINVAL;
      }
      compare := LraCompare(timer.value, s);
      return 0;
    }

    /** `drv2603_set_strength_erm`. */
    method SetStrengthErm(s: u8) returns (r: int)
      modifies this
      ensures timer == old(timer)
      ensures old(timer).None? ==> r == Errno.EINVAL && compare == old(compare)
      ensures old(timer).Some? ==> r == 0 && compare == ErmCompare(timer.value, s)
    {
      if timer.None? {
        return Errno.EINVAL;
      }
      compare := ErmCompare(timer.value, s);
      return 0;
    }
  }
}
