// drivers/peripherals/keypad.c: debouncing of the 24 buttons and the latch of their rising edges.

module Keypad {
  import opened CInt
  import Input

  const ButtonCount: int := 24
  const DebounceTimeMs: int := 30

  /** `button_debounce_t`: when the level last changed, the level, and whether it has held. */
  datatype Debounce = Debounce(lastPressTime: u32, isPressed: bool, isDebounced: bool)

  const Released: Debounce := Debounce(0, false, false)

  /** `current_time - last_press_time` in `uint32_t` arithmetic, correct across a tick wrap. */
  function Elapsed(now: u32, since: u32): u32
  {
    (now - since) % 0x1_0000_0000
  }

  /** One button's debounce record after a scan that read level `raw` at time `now`: a change of
    * level restarts the timer, and a level that has held for 30 ms becomes debounced. */
  function DebounceStep(d: Debounce, raw: bool, now: u32): (r: Debounce)
    ensures r.isPressed == raw
    ensures raw != d.isPressed ==> r == Debounce(now, raw, false)
    ensures raw == d.isPressed ==> r.lastPressTime == d.lastPressTime
    ensures raw == d.isPressed ==> (r.isDebounced <==> d.isDebounced || Elapsed(now, d.lastPressTime) >= DebounceTimeMs)
  {
    if raw != d.isPressed then Debounce(now, raw, false)
    else if !d.isDebounced && Elapsed(now, d.lastPressTime) >= DebounceTimeMs then d.(isDebounced := true)
    else d
  }

  /** A released button pressed at `t1` and still pressed at a scan 30 ms or more later counts
    * as pressed from that scan on. */
  lemma HeldPressDebounces(d: Debounce, t1: u32, t2: u32)
    requires !d.isPressed && Elapsed(t2, t1) >= DebounceTimeMs
    ensures var r := DebounceStep(DebounceStep(d, true, t1), true, t2); r.isPressed && r.isDebounced
  {
  }

  /** A press shorter than the debounce time never shows: a level that changes at every scan
    * never gets debounced. */
  lemma BounceNeverCounts(d: Debounce, raw: bool, now: u32)
    requires raw != d.isPressed
    ensures !DebounceStep(d, raw, now).isDebounced
  {
  }

  /** The buttons a scan reports as down: debounced and pressed (bit `i` of `current_states`). */
  function Pressed(ds: seq<Debounce>): (s: set<int>)
    ensures forall i :: i in s <==> 0 <= i < |ds| && ds[i].isDebounced && ds[i].isPressed
  {
    set i | 0 <= i < |ds| && ds[i].isDebounced && ds[i].isPressed
  }

  /** `keypad_get_button_event`: the input event of each button, `INPUT_NONE` past the table. */
  function ButtonEvent(index: int): (e: int)
    ensures 0 <= index < ButtonCount <==> e != Input.NONE
  {
    if index < 0 || index >= ButtonCount then Input.NONE
    else [Input.KEYPAD_0, Input.KEYPAD_0 + 1, Input.KEYPAD_0 + 2, Input.KEYPAD_0 + 3,
          Input.KEYPAD_0 + 4, Input.KEYPAD_0 + 5, Input.KEYPAD_0 + 6, Input.KEYPAD_0 + 7,
          Input.KEYPAD_0 + 8, Input.KEYPAD_9, Input.KEYPAD_STAR, Input.KEYPAD_HASH,
          Input.DPAD_UP, Input.DPAD_DOWN, Input.DPAD_LEFT, Input.DPAD_RIGHT, Input.SELECT,
          Input.LEFT, Input.RIGHT, Input.PICKUP, Input.HANGUP,
          Input.VOLUME_UP, Input.VOLUME_DOWN, Input.POWER][index]
  }

  /** No two buttons report the same event, and every event but `INPUT_NONE` has a button. */
  lemma ButtonEventsAreDistinct(i: int, j: int)
    requires 0 <= i < j < ButtonCount
    ensures ButtonEvent(i) != ButtonEvent(j)
  {
  }

  /** The button that reports event `e`: the inverse of `ButtonEvent`. */
  function ButtonOf(e: int): (i: int)
    requires Input.NONE < e <= Input.KEYPAD_HASH
    ensures 0 <= i < ButtonCount
  {
    if e >= Input.KEYPAD_0 then e - Input.KEYPAD_0
    else if e <= Input.RIGHT then e + 11
    else if e <= Input.HANGUP then e + 11
    else if e == Input.POWER then 23
    else e + 10
  }

  /** Every event but `INPUT_NONE` comes from exactly the button `ButtonOf` names. */
  lemma ButtonOfInvertsEvent(e: int)
    requires Input.NONE < e <= Input.KEYPAD_HASH
    ensures ButtonEvent(ButtonOf(e)) == e
  {
  }

  /** The driver's static state: the bitmaps as sets of button indices, and the debounce records. */
  class Keypad {
    var states: set<int>
    var statesLast: set<int>
    var statesEdge: set<int>
    var debounce: seq<Debounce>

    ghost predicate Valid()
      reads this
    {
      |debounce| == ButtonCount && forall k :: k in statesEdge ==> 0 <= k < ButtonCount
    }

    /** `keypad_init`. */
    constructor ()
      ensures Valid()
      ensures states == {} && statesLast == {} && statesEdge == {}
      ensures debounce == seq(ButtonCount, _ => Released)
    {
      states, statesLast, statesEdge := {}, {}, {};
      debounce := seq(ButtonCount, _ => Released);
    }

    /** `keypad_init` on a running driver: everything zeroed. */
    method Init()
      modifies this
      ensures Valid()
      ensures states == {} && statesLast == {} && statesEdge == {}
      ensures debounce == seq(ButtonCount, _ => Released)
    {
      states, statesLast, statesEdge := {}, {}, {};
      var i := 0;
      var ds: seq<Debounce> := debounce;
      if |ds| != ButtonCount {
        ds := seq(ButtonCount, _ => Released);
      }
      while i < ButtonCount
        invariant 0 <= i <= ButtonCount && |ds| == ButtonCount
        invariant forall k :: 0 <= k < i ==> ds[k] == Released
      {
        ds := ds[i := Released];
        i := i + 1;
      }
      debounce := ds;
    }

    /** `keypad_update_states`: scan every button at tick `now`, where `raw[i]` says whether the
      * pin of button `i` reads low (pressed); then latch the buttons that went down. */
    method UpdateStates(now: u32, raw: seq<bool>)
      requires Valid() && |raw| == ButtonCount
      modifies this
      ensures Valid()
      ensures |debounce| == ButtonCount
      ensures forall i :: 0 <= i < ButtonCount ==> debounce[i] == DebounceStep(old(debounce[i]), raw[i], now)
      ensures states == Pressed(debounce) && statesLast == states
      ensures statesEdge == old(statesEdge) + (states - old(statesLast))
    {
      var current: set<int> := {};
      var i := 0;
      while i < ButtonCount
        invariant 0 <= i <= ButtonCount && |debounce| == ButtonCount
        invariant forall k :: 0 <= k < i ==> debounce[k] == DebounceStep(old(debounce)[k], raw[k], now)
        invariant forall k :: i <= k < ButtonCount ==> debounce[k] == old(debounce)[k]
        invariant current == set k | 0 <= k < i && debounce[k].isDebounced && debounce[k].isPressed
        invariant statesEdge == old(statesEdge) && statesLast == old(statesLast)
      {
        var d := debounce[i];
        if raw[i] != d.isPressed {
          d := Debounce(now, raw[i], false);
        } else if raw[i] == d.isPressed {
          if !d.isDebounced && Elapsed(now, d.lastPressTime) >= DebounceTimeMs {
            d := d.(isDebounced := true);
          }
        }
        debounce := debounce[i := d];
        if d.isDebounced && d.isPressed {
          current := current + {i};
        }
        i := i + 1;
      }
      var edge := current - statesLast;
      statesEdge := statesEdge + edge;
      statesLast := current;
      states := current;
    }

    /** `keypad_is_button_pressed`: reports and clears the button's latched edge, so a second
      * call reports nothing until the button goes down again. */
    method IsButtonPressed(index: u8) returns (was: bool)
      requires Valid()
      modifies this
      ensures Valid()
      ensures index >= ButtonCount ==> !was && statesEdge == old(statesEdge)
      ensures index < ButtonCount ==> (was <==> index in old(statesEdge)) && statesEdge == old(statesEdge) - {index}
      ensures index !in statesEdge
      ensures states == old(states) && statesLast == old(statesLast) && debounce == old(debounce)
    {
      if index >= ButtonCount {
        return false;
      }
      was := index in statesEdge;
      statesEdge := statesEdge - {index};
    }

    /** `keypad_read_button`: the lowest-indexed latched button, whose edge alone is consumed. */
    method ReadButton() returns (found: bool, event: int)
      requires Valid()
      modifies this
      ensures Valid()
      ensures found <==> old(statesEdge) != {}
      ensures found ==> exists m :: m in old(statesEdge) && (forall k :: k in old(statesEdge) ==> m <= k)
                          && event == ButtonEvent(m) && statesEdge == old(statesEdge) - {m}
      ensures !found ==> statesEdge == old(statesEdge)
      ensures states == old(states) && statesLast == old(statesLast) && debounce == old(debounce)
    {
      var i := 0;
      while i < ButtonCount
        invariant 0 <= i <= ButtonCount && Valid()
        invariant statesEdge == old(statesEdge)
        invariant forall k :: k in statesEdge ==> i <= k
        invariant states == old(states) && statesLast == old(statesLast) && debounce == old(debounce)
      {
        var pressed := IsButtonPressed(i as u8);
        if pressed {
          return true, ButtonEvent(i);
        }
        i := i + 1;
      }
      return false, Input.NONE;
    }
  }
}
