// ui/multitap.c: Nokia-style multi-tap text entry. Pressing a keypad key repeatedly cycles
// through its characters; the character shown is handed out when it is confirmed or when a
// different key is pressed.

module Multitap {
  import opened CInt
  import opened Wrappers
  import Input
  import Arith

  const NUL: char := '\0'

  /** The keys that carry a character mapping: `INPUT_KEYPAD_0` up to `INPUT_KEYPAD_HASH`. */
  predicate MappedKey(key: int)
  {
    Input.KEYPAD_0 <= key <= Input.KEYPAD_HASH
  }

  /** The keys `multitap_handle_keypress` accepts: '#' is left out, it confirms instead. */
  predicate TapKey(key: int)
  {
    Input.KEYPAD_0 <= key <= Input.KEYPAD_STAR
  }

  /** `key_mappings[key]`: the characters a key cycles through, in order. */
  function KeyChars(key: int): (cs: seq<char>)
    requires MappedKey(key)
    ensures 1 <= |cs| <= 5 && NUL !in cs
  {
    [" 0", ".,!?1", "abc2", "def3", "ghi4", "jkl5", "mno6", "pqrs7", "tuv8", "wxyz9", "*", "#"][key - Input.KEYPAD_0]
  }

  /** On every digit key the digit itself comes last, after the letters or punctuation. */
  lemma DigitComesLast(d: nat)
    requires d < 10
    ensures var cs := KeyChars(Input.Digit(d)); cs[|cs| - 1] == ('0' as int + d) as char
  {
  }

  /** `multitap_get_key_mapping`: the mapping of a key, and none outside the keypad. */
  function GetKeyMapping(key: int): (m: Option<seq<char>>)
    ensures m.Some? <==> MappedKey(key)
    ensures m.Some? ==> m.value == KeyChars(key)
  {
    if key < Input.KEYPAD_0 || key > Input.KEYPAD_HASH then None else Some(KeyChars(key))
  }

  /** `multitap_state_t`: the key being cycled, the position in its characters, whether a
    * sequence is under way, and the character it would give. */
  datatype Tap = Tap(lastKey: int, index: u8, active: bool, pending: char)

  /** The state after `multitap_reset`, which is also the zero-initialised one. */
  const Idle: Tap := Tap(Input.NONE, 0, false, NUL)

  /** While a sequence is under way the pending character is the key's character at `index`;
    * otherwise the state is the reset one. */
  predicate Valid(t: Tap)
  {
    if t.active then
      TapKey(t.lastKey) && t.index as int < |KeyChars(t.lastKey)| && t.pending == KeyChars(t.lastKey)[t.index]
    else t == Idle
  }

  /** `multitap_handle_keypress` with a non-NULL output: the new state and the character
    * written out, if any. The same key again cycles to its next character; another key
    * gives the pending character and resets, without starting the new key; a key with no
    * sequence under way starts one at its first character. */
  function Press(t: Tap, key: int): (r: (Tap, Option<char>))
  {
    if key < Input.KEYPAD_0 || key > Input.KEYPAD_STAR then (t, None)
    else if key == t.lastKey && t.active then
      var cs := KeyChars(key);
      var i := (t.index as int + 1) % |cs|;
      (t.(index := i, pending := cs[i]), None)
    else if t.active && t.pending != NUL then (Idle, Some(t.pending))
    else (Tap(key, 0, true, KeyChars(key)[0]), None)
  }

  /** A key press keeps the state valid, and it only ever gives a character when it ends the
    * sequence under way. */
  lemma PressValid(t: Tap, key: int)
    requires Valid(t)
    ensures Valid(Press(t, key).0)
    ensures Press(t, key).1.Some? <==> t.active && TapKey(key) && key != t.lastKey
    ensures Press(t, key).1.Some? ==> Press(t, key) == (Idle, Some(t.pending))
    ensures !TapKey(key) ==> Press(t, key) == (t, None)
  {
  }

  /** `multitap_confirm_character` with a non-NULL output: gives the pending character and
    * resets when a sequence is under way. */
  function Confirm(t: Tap): (r: (Tap, Option<char>))
  {
    if !t.active then (t, None)
    else if t.pending != NUL then (Idle, Some(t.pending))
    else (t, None)
  }

  /** `multitap_get_current_char`. */
  function CurrentChar(t: Tap): char
  {
    if !t.active then NUL else t.pending
  }

  /** The character shown is NUL exactly when no sequence is under way, and confirming gives
    * the character shown. */
  lemma CurrentCharShown(t: Tap)
    requires Valid(t)
    ensures CurrentChar(t) == NUL <==> !t.active
    ensures Confirm(t) == if t.active then (Idle, Some(CurrentChar(t))) else (t, None)
  {
  }

  /** `n` presses of the same key. */
  function Taps(t: Tap, key: int, n: nat): Tap
  {
    if n == 0 then t else Press(Taps(t, key, n - 1), key).0
  }

  /** Pressing a key `n + 1` times from the reset state shows its character `n` (counting
    * round the cycle), gives nothing out on the way, and confirming then gives that character. */
  lemma {:induction false} TapsSelect(key: int, n: nat)
    requires TapKey(key)
    ensures var t, cs := Taps(Idle, key, n + 1), KeyChars(key);
      t == Tap(key, n % |cs|, true, cs[n % |cs|]) &&
      Confirm(t) == (Idle, Some(cs[n % |cs|]))
    ensures n > 0 ==> Press(Taps(Idle, key, n), key).1 == None
  {
    var cs := KeyChars(key);
    if n > 0 {
      TapsSelect(key, n - 1);
      var i := (n - 1) % |cs|;
      PressSameKey(key, i);
      Arith.ModSucc(n, |cs|);
    } else {
      assert Taps(Idle, key, 1) == Press(Idle, key).0;
    }
  }

  /** The same key pressed again moves one character on, round the cycle, and gives nothing out. */
  lemma PressSameKey(key: int, i: nat)
    requires TapKey(key) && i < |KeyChars(key)|
    ensures var cs := KeyChars(key);
      Press(Tap(key, i, true, cs[i]), key) == (Tap(key, (i + 1) % |cs|, true, cs[(i + 1) % |cs|]), None)
  {
  }

  /** A second key pressed while the first is cycling hands out the first key's character and
    * is itself lost: confirming right after gives nothing. */
  lemma SecondKeyIsDropped(k1: int, k2: int)
    requires TapKey(k1) && TapKey(k2) && k1 != k2
    ensures var (t, out) := Press(Press(Idle, k1).0, k2);
      out == Some(KeyChars(k1)[0]) && t == Idle && Confirm(t).1 == None
  {
  }

  /** The driver's static `multitap_state`. */
  class Multitap {
    var lastKey: int
    var index: u8
    var active: bool
    var pending: char

    function State(): Tap
      reads this
    {
      Tap(lastKey, index, active, pending)
    }

    /** The zero-initialised state, which `multitap_init` resets to the same. */
    constructor ()
      ensures State() == Idle
    {
      lastKey, index, active, pending := Input.NONE, 0, false, NUL;
    }

    /** `multitap_reset`. */
    method Reset()
      modifies this
      ensures State() == Idle
    {
      lastKey := Input.NONE;
      index := 0;
      active := false;
      pending := NUL;
    }

    /** `multitap_handle_keypress(key, output)`, `hasOutput` telling whether `output` is
      * non-NULL; `written` is the character stored through it. */
    method HandleKeypress(key: int, hasOutput: bool) returns (ok: bool, written: Option<char>)
      modifies this
      ensures !hasOutput ==> !ok && written == None && State() == old(State())
      ensures hasOutput ==> (State(), written) == Press(old(State()), key) && (ok <==> written.Some?)
    {
      if !hasOutput {
        return false, None;
      }
      if key < Input.KEYPAD_0 || key > Input.KEYPAD_STAR {
        return false, None;
      }
      var mapping := KeyChars(key);
      if key == lastKey && active {
        index := ((index as int + 1) % |mapping|) as u8;
        pending := mapping[index];
        return false, None;
      }
      if active && pending != NUL {
        written := Some(pending);
        Reset();
        return true, written;
      }
      lastKey := key;
      index := 0;
      active := true;
      pending := mapping[0];
      return false, None;
    }

    /** `multitap_is_active`. */
    method IsActive() returns (a: bool)
      ensures a == active
    {
      return active;
    }

    /** `multitap_get_current_char`. */
    method GetCurrentChar() returns (c: char)
      ensures c == CurrentChar(State())
    {
      if !active {
        return NUL;
      }
      return pending;
    }

    /** `multitap_confirm_character(output)`, `hasOutput` telling whether `output` is non-NULL. */
    method ConfirmCharacter(hasOutput: bool) returns (ok: bool, written: Option<char>)
      modifies this
      ensures !hasOutput ==> !ok && written == None && State() == old(State())
      ensures hasOutput ==> (State(), written) == Confirm(old(State())) && (ok <==> written.Some?)
    {
      if !hasOutput || !active {
        return false, None;
      }
      if pending != NUL {
        written := Some(pending);
        Reset();
        return true, written;
      }
      return false, None;
    }
  }
}
