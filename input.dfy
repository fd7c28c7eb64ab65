// include/ui/input.h: the input events every page handler receives, with their enum values.

module Input {
  const NONE: int := 0
  const DPAD_UP: int := 1
  const DPAD_DOWN: int := 2
  const DPAD_LEFT: int := 3
  const DPAD_RIGHT: int := 4
  const SELECT: int := 5
  const LEFT: int := 6
  const RIGHT: int := 7
  const PICKUP: int := 8
  const HANGUP: int := 9
  const POWER: int := 10
  const VOLUME_UP: int := 11
  const VOLUME_DOWN: int := 12
  const KEYPAD_0: int := 13
  const KEYPAD_9: int := 22
  const KEYPAD_STAR: int := 23
  const KEYPAD_HASH: int := 24

  /** The digit key for `d`, `INPUT_KEYPAD_0 + d`. */
  function Digit(d: nat): int
    requires d < 10
  {
    KEYPAD_0 + d
  }

  predicate IsDigitKey(e: int)
  {
    KEYPAD_0 <= e <= KEYPAD_9
  }

  /** The digit a keypad key stands for, '0' to '9'. */
  function DigitChar(e: int): (c: char)
    requires IsDigitKey(e)
    ensures '0' <= c <= '9' && c as int - '0' as int == e - KEYPAD_0
  {
    ('0' as int + e - KEYPAD_0) as char
  }

  predicate IsDpad(e: int)
  {
    DPAD_UP <= e <= DPAD_RIGHT
  }
}
