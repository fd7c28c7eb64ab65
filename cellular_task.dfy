// kernel/tasks/cellular_task.c: signal bars shown in the status bar.

module CellularTask {
  /** The dBm values at or above which one more bar is shown, weakest first. */
  const Thresholds: seq<int> := [-92, -84, -76, -68, -60]

  /** `dbm_to_signal_bars`: 0 dBm means "unknown" (the +CSQ value 99) and shows no bars. */
  function SignalBars(dbm: int): (r: int)
    ensures 0 <= r <= 5
    ensures r == 0 <==> dbm == 0 || dbm <= -93
    ensures r == 5 <==> dbm > -61 && dbm != 0
  {
    if dbm == 0 || dbm <= -93 then 0
    else if dbm <= -85 then 1
    else if dbm <= -77 then 2
    else if dbm <= -69 then 3
    else if dbm <= -61 then 4
    else 5
  }

  /** How many thresholds of `ts` the value `dbm` reaches. */
  function Reached(ts: seq<int>, dbm: int): (n: nat)
    ensures n <= |ts|
  {
    if ts == [] then 0 else (if ts[0] <= dbm then 1 else 0) + Reached(ts[1..], dbm)
  }

  /** For a known reading, the bar count is the number of thresholds it reaches. */
  lemma SignalBarsCountsThresholds(dbm: int)
    requires dbm != 0
    ensures SignalBars(dbm) == Reached(Thresholds, dbm)
  {
    var r4 := Reached([-60], dbm);
    assert [-60][1..] == [];
    assert r4 == if -60 <= dbm then 1 else 0;
    var r3 := Reached([-68, -60], dbm);
    assert [-68, -60][1..] == [-60];
    assert r3 == (if -68 <= dbm then 1 else 0) + r4;
    var r2 := Reached([-76, -68, -60], dbm);
    assert [-76, -68, -60][1..] == [-68, -60];
    assert r2 == (if -76 <= dbm then 1 else 0) + r3;
    var r1 := Reached([-84, -76, -68, -60], dbm);
    assert [-84, -76, -68, -60][1..] == [-76, -68, -60];
    assert r1 == (if -84 <= dbm then 1 else 0) + r2;
    assert Thresholds[1..] == [-84, -76, -68, -60];
    assert Reached(Thresholds, dbm) == (if -92 <= dbm then 1 else 0) + r1;
  }

  /** A stronger known signal never shows fewer bars. */
  lemma SignalBarsMonotone(d1: int, d2: int)
    requires d1 != 0 && d2 != 0 && d1 <= d2
    ensures SignalBars(d1) <= SignalBars(d2)
  {
  }

  /** The part of `CellularTaskContext` the task loop maintains. */
  class Context {
    /** `ctx->signal_bars`. */
    var signalBars: int
    /** The bar counts posted to the display task with DISPLAY_SET_SIGNAL_STATUS, oldest first. */
    var posted: seq<int>

    /** The display has been told every change, and never the same count twice in a row. */
    ghost predicate Valid()
      reads this
    {
      (posted != [] ==> posted[|posted| - 1] == signalBars)
      && forall i :: 0 < i < |posted| ==> posted[i - 1] != posted[i]
    }

    constructor ()
      ensures Valid() && signalBars == 0 && posted == []
    {
      signalBars := 0;
      posted := [];
    }

    /**
     * One pass of the task loop's signal step, given the status and dBm value that
     * `modem_get_signal_strength` returned.
     */
    method PollSignal(queryStatus: int, dbm: int)
      requires Valid()
      modifies this
      ensures Valid()
      ensures queryStatus == 0 ==> signalBars == SignalBars(dbm)
      ensures queryStatus != 0 ==> signalBars == old(signalBars)
      ensures posted == if queryStatus == 0 && SignalBars(dbm) != old(signalBars)
                        then old(posted) + [SignalBars(dbm)] else old(posted)
    {
      if queryStatus == 0 {
        var bars := SignalBars(dbm);
        if bars != signalBars {
          signalBars := bars;
          posted := posted + [signalBars];
        }
      }
    }
  }
}
