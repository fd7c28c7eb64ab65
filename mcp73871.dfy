// drivers/power/mcp73871.c: the charge-management controller's status pins.

module Mcp73871 {
  /** The charger states of `enum MCP73871_States`, in declaration order (UNKNOWN = 0). */
  datatype ChargerState = Unknown | Shutdown | Standby | LowBatteryOut | Charging | Fault | ChargeComplete

  /** `mcp73871_status`: the state read from the STAT1, STAT2 and PG pin levels (true = high). */
  function Status(stat1: bool, stat2: bool, pg: bool): (r: ChargerState)
    ensures r == Unknown <==> !stat2 && pg  // the two combinations the table does not list
    // While STAT2 is high the charger is powered down or idle exactly when STAT1 is high too.
    ensures stat2 ==> (r in {Shutdown, Standby} <==> stat1)
    // PG distinguishes each pair of states that share STAT1 and STAT2.
    ensures r in {Shutdown, LowBatteryOut} <==> stat2 && pg
  {
    if stat1 && stat2 && pg then Shutdown
    else if stat1 && stat2 && !pg then Standby
    else if !stat1 && stat2 && pg then LowBatteryOut
    else if !stat1 && stat2 && !pg then Charging
    else if !stat1 && !stat2 && !pg then Fault
    else if stat1 && !stat2 && !pg then ChargeComplete
    else Unknown
  }

  /** The pin levels (STAT1, STAT2, PG) that signal each known state, as the data sheet lists them. */
  function Pins(s: ChargerState): (p: (bool, bool, bool))
    requires s != Unknown
  {
    match s
    case Shutdown => (true, true, true)
    case Standby => (true, true, false)
    case LowBatteryOut => (false, true, true)
    case Charging => (false, true, false)
    case Fault => (false, false, false)
    case ChargeComplete => (true, false, false)
  }

  /** Every known state is decoded from its own pin levels and from no others. */
  lemma StatusInvertsPins(stat1: bool, stat2: bool, pg: bool, s: ChargerState)
    requires s != Unknown
    ensures Status(stat1, stat2, pg) == s <==> Pins(s) == (stat1, stat2, pg)
  {
  }
}
