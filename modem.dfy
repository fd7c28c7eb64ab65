// drivers/modem/modem.c: the airplane-mode toggle, which remembers the function
// mode last set, and the start-up script `modem_init` sends the modem.
//
// `modem_send_command` and `modem_set_function_mode` are not part of this model:
// their results are parameters, and the modem's replies are given in the order
// the commands are sent.

module Modem {
  import opened CInt
  import opened CStr
  import opened Bits
  import Errno
  import AtCommands

  // enum FunctionModes, include/drivers/modem/at_commands.h
  const ModeMin: int := 0
  const ModeFull: int := 1
  const ModeAirplane: int := 4

  /** The mode the toggle switches to from `mode`. */
  function Toggled(mode: int): (m: int)
    ensures m == ModeFull || m == ModeAirplane
    ensures m == ModeFull <==> mode == ModeAirplane
  {
    if mode == ModeAirplane then ModeFull else ModeAirplane
  }

  /** The driver's global state: `curr_function_mode`. */
  class Radio {
    var mode: int

    /** At start-up the mode is `MODE_MIN`. */
    constructor ()
      ensures mode == ModeMin
    {
      mode := ModeMin;
    }

    /** `modem_toggle_airplane_mode`: asks for full functionality when in airplane mode and
      * for airplane mode otherwise; `setResult` is what `modem_set_function_mode` returns.
      * The remembered mode changes only when that succeeds, and its result is returned. */
    method ToggleAirplane(setResult: u8) returns (ret: u8, requested: int)
      modifies this
      ensures requested == Toggled(old(mode))
      ensures ret == setResult
      ensures mode == if setResult == 0 then requested else old(mode)
    {
      if mode == ModeAirplane {
        requested := ModeFull;
        ret := setResult;
        if ret == 0 {
          mode := ModeFull;
        }
      } else {
        requested := ModeAirplane;
        ret := setResult;
        if ret == 0 {
          mode := ModeAirplane;
        }
      }
    }
  }

  /** The first toggle after start-up asks for airplane mode, and a successful one leaves
    * the radio in it. */
  method FirstToggle(setResult: u8) returns (ret: u8, requested: int)
    ensures requested == ModeAirplane
    ensures ret == setResult
  {
    var r := new Radio();
    ret, requested := r.ToggleAirplane(setResult);
    assert setResult == 0 ==> r.mode == ModeAirplane;
  }

  // ------------------------------------------------------------------ modem_init

  /** One command of the start-up script, and the read timeout it is sent with (ms). */
  datatype Command = Command(text: seq<char>, timeout: nat)

  /** What `modem_send_command` gives back: its status and the reply buffer's C string. */
  datatype Reply = Reply(status: u8, text: seq<char>)

  const Timeout1s: nat := 1000
  const Timeout2s: nat := 2000

  /** The commands `modem_init` sends, in order, when nothing fails. */
  const Script: seq<Command> := [
    Command("AT", Timeout2s),
    Command("ATE0", Timeout2s),
    Command("AT!CUSTOM=\"GPSENABLE\",0", Timeout2s),
    Command("AT+CPIN?", Timeout2s),
    Command("AT+GSN", Timeout2s),
    Command("AT+CREG?", Timeout2s),
    Command("AT+CEREG?", Timeout2s),
    Command("AT+CFUN=1", 5000),
    Command("AT+CGDCONT=1,\"IP\",\"telstra.internet\"", Timeout2s),
    Command("AT+CNMI=1,1,0,0,0", Timeout2s),
    Command("AT+WWAKESET=28", Timeout2s),
    Command("AT+CMGF=1", Timeout1s)
  ]

  // Positions in the script of the commands whose outcome `modem_init` checks.
  const AtStep: nat := 0
  const CpinStep: nat := 3
  const CfunStep: nat := 7
  const CmgfStep: nat := 11

  /** The reply passes `ret || !modem_check_response_ok(response)`. */
  predicate Acked(r: Reply)
  {
    r.status == 0 && AtCommands.ResponseOk(r.text)
  }

  /** The SIM answered "AT+CPIN?" and is ready. */
  predicate SimReady(r: Reply)
  {
    r.status == 0 && Contains(r.text, "READY")
  }

  /** `modem_init`: sends the script, command by command, with `replies[i]` the reply to
    * the i-th command, and returns its code together with how many commands it sent.
    * It stops after "AT" if that was not acknowledged, returning the send status; after
    * "AT+CPIN?" if that send failed (its status) or the SIM is not ready (`EBUSY`); after
    * "AT+CFUN=1" if that was not acknowledged, returning 0; and after "AT+CMGF=1" with
    * `EBADMSG` if that was not acknowledged, 0 if it was. The other commands' replies are
    * not looked at. */
  method Init(replies: seq<Reply>) returns (code: u8, sent: nat)
    requires |replies| == |Script|
    ensures sent == AtStep + 1 <==> !Acked(replies[AtStep])
    ensures !Acked(replies[AtStep]) ==> code == replies[AtStep].status
    ensures Acked(replies[AtStep]) && replies[CpinStep].status != 0 ==>
      sent == CpinStep + 1 && code == replies[CpinStep].status
    ensures Acked(replies[AtStep]) && replies[CpinStep].status == 0 && !SimReady(replies[CpinStep]) ==>
      sent == CpinStep + 1 && code == Errno.EBUSY
    ensures Acked(replies[AtStep]) && SimReady(replies[CpinStep]) && !Acked(replies[CfunStep]) ==>
      sent == CfunStep + 1 && code == 0
    ensures Acked(replies[AtStep]) && SimReady(replies[CpinStep]) && Acked(replies[CfunStep]) ==>
      sent == |Script| && code == (if Acked(replies[CmgfStep]) then 0 else Errno.EBADMSG)
    ensures code == 0 <==>
      (replies[AtStep].status == 0 && !Acked(replies[AtStep])) ||
      (Acked(replies[AtStep]) && SimReady(replies[CpinStep]) &&
       (!Acked(replies[CfunStep]) || Acked(replies[CmgfStep])))
  {
    var ret: u8 := 0;
    ret := Or8(ret, replies[AtStep].status);
    if ret != 0 || !AtCommands.ResponseOk(replies[AtStep].text) {
      return ret, AtStep + 1;
    }
    // "ATE0" and "AT!CUSTOM=..." go out with their results ignored.
    ret := Or8(ret, replies[CpinStep].status);
    if ret != 0 {
      return ret, CpinStep + 1;
    }
    if !Contains(replies[CpinStep].text, "READY") {
      return Errno.EBUSY, CpinStep + 1;
    }
    // "AT+GSN", "AT+CREG?" and "AT+CEREG?" go out with their results ignored.
    ret := Or8(ret, replies[CfunStep].status);
    if ret != 0 || !AtCommands.ResponseOk(replies[CfunStep].text) {
      return 0, CfunStep + 1;
    }
    // "AT+CGDCONT=...", "AT+CNMI=..." and "AT+WWAKESET=28" go out with their results ignored.
    ret := Or8(ret, replies[CmgfStep].status);
    if ret != 0 || !AtCommands.ResponseOk(replies[CmgfStep].text) {
      return Errno.EBADMSG, |Script|;
    }
    return ret, |Script|;
  }
}
