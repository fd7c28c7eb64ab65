// drivers/audio/nau88c22.c: the audio codec driver. The codec is a file of
// 16-bit registers reached over I2C; the driver reads, modifies and writes
// them, and guards every audible change by muting everything first and
// restoring the mute state afterwards.

module Nau88c22 {
  import opened CInt
  import Wrappers

  /** A data byte on the I2C bus, or a `uint8_t` argument the driver does bit arithmetic on. */
  type Byte = bv8

  /** A register value as the driver handles it (`uint16_t`). */
  type Word = bv16

  /** A register address. */
  type Addr = u8

  /** The codec's register file, one value for every address. */
  type RegFile = seq<Word>

  predicate Total(regs: RegFile)
  {
    |regs| == 0x100
  }

  // Register addresses, include/drivers/audio/nau88c22.h
  const Reset: Addr := 0x00
  const Pwr1: Addr := 0x01
  const Pwr2: Addr := 0x02
  const Pwr3: Addr := 0x03
  const Aintf: Addr := 0x04
  const Clock2: Addr := 0x07
  const JackDetect1: Addr := 0x09
  const JackDetect2: Addr := 0x0D
  const Eq1: Addr := 0x12
  const PllN: Addr := 0x24
  const PllK1: Addr := 0x25
  const PllK2: Addr := 0x26
  const PllK3: Addr := 0x27
  const InputControl: Addr := 0x2C
  const LeftInputPgaGain: Addr := 0x2D
  const RightInputPgaGain: Addr := 0x2E
  const OutputControl: Addr := 0x31
  const LhpVolume: Addr := 0x34
  const RhpVolume: Addr := 0x35
  const LspkoutVolume: Addr := 0x36
  const RspkoutVolume: Addr := 0x37

  /** The microphone channel selectors; their definition is not part of this model, and any two distinct values behave alike. */
  const MicBuiltin: Byte := 0
  const MicHeadphone: Byte := 1

  /** One I2C transaction with the codec: a register write, or the address byte that starts a register read. */
  datatype Transfer = Write(addr: Addr, hi: Byte, lo: Byte) | Read(addr: Addr)

  /** What the driver saves before muting: whether the outputs, the built-in mic and the headset mic were muted. */
  datatype MuteState = MuteState(output: bool, mic: bool, hpMic: bool)

  const AllMuted: MuteState := MuteState(true, true, true)

  // ---- Framing of write_reg and read_reg ----

  function Hi(v: Word): Byte { (v >> 8) as bv8 }

  function Lo(v: Word): Byte { (v & 0xFF) as bv8 }

  /** `(data[0] << 8) | data[1]`: what read_reg makes of the two bytes it receives. */
  function Join(hi: Byte, lo: Byte): Word { ((hi as bv16) << 8) | (lo as bv16) }

  /** The three bytes write_reg transmits: the address, then the value high byte first. */
  function WriteFrame(a: Addr, v: Word): (t: Transfer)
    ensures t.Write? && t.addr == a && Join(t.hi, t.lo) == v
  {
    JoinSplit(v);
    Write(a, Hi(v), Lo(v))
  }

  /** A register value survives being split into two bytes and joined again. */
  lemma JoinSplit(v: Word)
    ensures Join(Hi(v), Lo(v)) == v
  {
  }

  /** ... and two bytes survive being joined and split again. */
  lemma SplitJoin(hi: Byte, lo: Byte)
    ensures Hi(Join(hi, lo)) == hi && Lo(Join(hi, lo)) == lo
  {
  }

  // ---- Register values ----

  /** Bit 6 of a volume or gain register is its mute bit. */
  predicate Muted(v: Word) { v & 0x40 != 0 }

  /** The low six bits of a register, the gain field of the volume and PGA registers. */
  function Gain(v: Word): (g: Word)
    ensures g < 0x40
  {
    v & 0x3F
  }

  /** The mute functions' read-modify-write: set or clear bit 6, and on a right-channel register also set the update bit 0x100. */
  function MuteWord(v: Word, enable: bool, update: bool): (w: Word)
    ensures Muted(w) == enable
    ensures w & 0xFEBF == v & 0xFEBF
    ensures update ==> w & 0x100 != 0
    ensures !update ==> w & 0x100 == v & 0x100
  {
    (if enable then v | 0x40 else v & 0xFFBF) | (if update then 0x100 else 0)
  }

  /** The six registers whose mute bit the driver saves and restores. */
  predicate IsMuteReg(a: int)
  {
    a == LhpVolume || a == RhpVolume || a == LspkoutVolume || a == RspkoutVolume
    || a == LeftInputPgaGain || a == RightInputPgaGain
  }

  /** The mute state save_and_mute_all reads: bit 6 of the left headphone register and of the two input PGA registers. */
  function SavedState(regs: RegFile): MuteState
    requires Total(regs)
  {
    MuteState(Muted(regs[LhpVolume]), Muted(regs[LeftInputPgaGain]), Muted(regs[RightInputPgaGain]))
  }

  /** One mute read-modify-write, applied to the register file. */
  function MuteAt(regs: RegFile, a: Addr, enable: bool, update: bool): (r: RegFile)
    requires Total(regs)
    ensures Total(r)
    ensures Muted(r[a]) == enable && r[a] & 0xFEBF == regs[a] & 0xFEBF
    ensures forall b :: 0 <= b < 0x100 && b != a ==> r[b] == regs[b]
  {
    regs[a := MuteWord(regs[a], enable, update)]
  }

  /** mute_output completed: the mute bit of the four output registers, with the update bit on the right-channel ones. */
  function MuteOutputRegs(regs: RegFile, enable: bool): (r: RegFile)
    requires Total(regs)
    ensures Total(r)
    ensures Muted(r[LhpVolume]) == enable && Muted(r[RhpVolume]) == enable
    ensures Muted(r[LspkoutVolume]) == enable && Muted(r[RspkoutVolume]) == enable
    ensures r[RhpVolume] & 0x100 != 0 && r[RspkoutVolume] & 0x100 != 0
    ensures forall a :: 0 <= a < 0x100 && a != LhpVolume && a != RhpVolume && a != LspkoutVolume && a != RspkoutVolume
              ==> r[a] == regs[a]
  {
    MuteAt(MuteAt(MuteAt(MuteAt(regs, LhpVolume, enable, false), RhpVolume, enable, true),
                  LspkoutVolume, enable, false), RspkoutVolume, enable, true)
  }

  /** mute_output, mute_mic and mute_hp_mic with the flags of `s`, each completed. The output
    * flag goes to all four output registers; afterwards the registers read back as `s`. */
  function ApplyMuteState(regs: RegFile, s: MuteState): (r: RegFile)
    requires Total(regs)
    ensures Total(r)
    ensures SavedState(r) == s
    ensures Muted(r[RhpVolume]) == s.output && Muted(r[LspkoutVolume]) == s.output && Muted(r[RspkoutVolume]) == s.output
    ensures forall a :: 0 <= a < 0x100 && !IsMuteReg(a) ==> r[a] == regs[a]
  {
    MuteAt(MuteAt(MuteOutputRegs(regs, s.output), LeftInputPgaGain, s.mic, false), RightInputPgaGain, s.hpMic, false)
  }

  /** The 6-bit gain for a volume percentage: `(volume * 63) / 100`, masked to 6 bits. */
  function RawVolume(volume: Byte): (raw: Word)
    ensures raw < 0x40
    ensures volume <= 100 ==> raw == (volume as bv16) * 63 / 100
  {
    if volume == 0 then 0 else ((volume as bv16) * 63 / 100) & 0x3F
  }

  /** read_volume_percent's conversion of a 6-bit gain back to a percentage, through a `uint8_t`. */
  function VolumePercent(raw: Word): (p: Byte)
    requires raw < 0x40
    ensures p <= 100
    ensures p == 0 <==> raw == 0
    ensures raw == 0x3F ==> p == 100
  {
    if raw == 0 then 0
    else
      var q := ((raw * 100 + 31) / 63) as bv8;
      if q > 100 then 100 else q
  }

  /** Setting a volume and reading it back loses at most two percent, and never rounds up. */
  lemma VolumeRoundTrip(v: Byte)
    requires v <= 100
    ensures VolumePercent(RawVolume(v)) <= v
    ensures v >= 2 ==> v - 2 <= VolumePercent(RawVolume(v))
  {
  }

  /** Reading a gain as a percentage and setting it again gives the gain or one step below it. */
  lemma RawRoundTrip(raw: Word)
    requires raw < 0x40
    ensures RawVolume(VolumePercent(raw)) <= raw
    ensures raw >= 1 ==> raw - 1 <= RawVolume(VolumePercent(raw))
  {
  }

  /** A louder gain never reads as a smaller percentage. */
  lemma VolumePercentMonotone(a: Word, b: Word)
    requires a <= b < 0x40
    ensures VolumePercent(a) <= VolumePercent(b)
  {
  }

  /** One press of a volume key: five percent up or down, clamped to 0..100. */
  function StepPercent(p: Byte, up: bool): (q: Byte)
    ensures p <= 100 ==> q <= 100
    ensures up ==> p <= q || p > 100
    ensures !up ==> q <= p
    ensures up && p <= 100 ==> q - p <= 5 && (q == 100 || q == p + 5)
    ensures !up ==> p - q <= 5 || q == 0
    ensures !up ==> (q == 0 || q == p - 5)
  {
    if up then (if p > 100 - 5 then 100 else p + 5)
    else (if p < 5 then 0 else p - 5)
  }

  /** Away from the ends of the range, a step down undoes a step up. */
  lemma StepRoundTrip(p: Byte)
    requires 5 <= p <= 95
    ensures StepPercent(StepPercent(p, true), false) == p
  {
  }

  /** The EQ band registers EQ1..EQ5, by the switch of nau88c22_set_eq. */
  function EqReg(band: Byte): (a: Addr)
    requires band <= 4
    ensures (a == 0x12) == (band == 0) && (a == 0x13) == (band == 1) && (a == 0x14) == (band == 2)
    ensures (a == 0x15) == (band == 3) && (a == 0x16) == (band == 4)
  {
    if band == 0 then Eq1 else if band == 1 then 0x13 else if band == 2 then 0x14 else if band == 3 then 0x15 else 0x16
  }

  // ---- What each guarded operation does between muting and restoring ----

  /** nau88c22_sleep: bit 0x040 of PWR2 set or cleared. */
  function SleepEffect(regs: RegFile, enable: bool): (r: RegFile)
    requires Total(regs)
    ensures Total(r)
    ensures (r[Pwr2] & 0x40 != 0) == enable && r[Pwr2] & 0xFFBF == regs[Pwr2] & 0xFFBF
    ensures forall a :: 0 <= a < 0x100 && a != Pwr2 ==> r[a] == regs[a]
  {
    regs[Pwr2 := SleepWord(regs[Pwr2], enable)]
  }

  /** PWR2 with its sleep bit 0x040 set or cleared. */
  function SleepWord(v: Word, enable: bool): (w: Word)
    ensures (w & 0x40 != 0) == enable && w & 0xFFBF == v & 0xFFBF
  {
    if enable then v | 0x40 else v & 0xFFBF
  }

  /** nau88c22_hp_mic_toggle: PWR2 becomes 0x02A (headset mic) or 0x015 (built-in mic). */
  function HpMicEffect(regs: RegFile, enable: bool): (r: RegFile)
    requires Total(regs)
    ensures Total(r)
    ensures r[Pwr2] == if enable then 0x2A else 0x15
    ensures forall a :: 0 <= a < 0x100 && a != Pwr2 ==> r[a] == regs[a]
  {
    regs[Pwr2 := if enable then 0x2A else 0x15]
  }

  /** nau88c22_set_output_volume: the gain goes into both registers, the left keeps its bits
    * 0x140, the right gets the left's and its own bits 0x140 and the update bit 0x100. */
  function OutputVolumeEffect(regs: RegFile, volume: Byte, left: Addr, right: Addr): (r: RegFile)
    requires Total(regs)
    ensures Total(r)
    ensures r[right] & 0x3F == RawVolume(volume) && r[right] & 0x100 != 0
    ensures left != right ==> r[left] & 0x3F == RawVolume(volume) && r[left] & 0xFEBF == RawVolume(volume)
    ensures left != right ==> r[left] & 0x140 == regs[left] & 0x140
    ensures forall a :: 0 <= a < 0x100 && a != left && a != right ==> r[a] == regs[a]
  {
    var vl := RawVolume(volume) | (regs[left] & 0x140);
    var r1 := regs[left := vl];
    r1[right := vl | (r1[right] & 0x140) | 0x100]
  }

  /** nau88c22_set_mic_volume: only the low six bits of the PGA gain register change. */
  function MicVolumeEffect(regs: RegFile, a: Addr, volume: Byte): (r: RegFile)
    requires Total(regs)
    ensures Total(r)
    ensures r[a] & 0x3F == RawVolume(volume) && r[a] & 0xFFC0 == regs[a] & 0xFFC0
    ensures forall b :: 0 <= b < 0x100 && b != a ==> r[b] == regs[b]
  {
    regs[a := (regs[a] & 0xFFC0) | RawVolume(volume)]
  }

  /** nau88c22_set_eq: only the low five bits of the band's register change, to the gain's low five bits. */
  function EqEffect(regs: RegFile, band: Byte, gain: Byte): (r: RegFile)
    requires Total(regs) && band <= 4
    ensures Total(r)
    ensures r[EqReg(band)] & 0x1F == (gain as bv16) & 0x1F && r[EqReg(band)] & 0xFFE0 == regs[EqReg(band)] & 0xFFE0
    ensures forall b :: 0 <= b < 0x100 && b != EqReg(band) ==> r[b] == regs[b]
  {
    regs[EqReg(band) := (regs[EqReg(band)] & 0xFFE0) | ((gain as bv16) & 0x1F)]
  }

  /** The gain register of a microphone channel, if the channel exists. */
  function MicReg(channel: Byte): (a: Wrappers.Option<Addr>)
    ensures a.Some? <==> channel == MicBuiltin || channel == MicHeadphone
    ensures channel == MicBuiltin ==> a == Wrappers.Some(LeftInputPgaGain)
    ensures channel == MicHeadphone ==> a == Wrappers.Some(RightInputPgaGain)
  {
    if channel == MicBuiltin then Wrappers.Some(LeftInputPgaGain)
    else if channel == MicHeadphone then Wrappers.Some(RightInputPgaGain)
    else Wrappers.None
  }

  // ---- The initialisation script ----

  const ResetWrite: (Addr, Word) := (Reset, 0x000)

  const StartupSeq: seq<(Addr, Word)> := [(Pwr1, 0x004), (Pwr1, 0x00D)]

  const InitSeq: seq<(Addr, Word)> :=
    [(Aintf, 0x011), (Clock2, 0x001), (JackDetect1, 0x040), (JackDetect2, 0x021),
     (PllN, 0x019), (PllK1, 0x01A), (PllK2, 0x039), (PllK3, 0x0B0),
     (InputControl, 0x0B3), (OutputControl, 0x002), (Pwr1, 0x03D), (Pwr2, 0x015), (Pwr3, 0x06F)]

  /** The register file after a run of writes, in order. */
  function ApplyWrites(regs: RegFile, ws: seq<(Addr, Word)>): (r: RegFile)
    requires Total(regs)
    ensures Total(r)
  {
    if ws == [] then regs
    else ApplyWrites(regs, ws[..|ws| - 1])[ws[|ws| - 1].0 := ws[|ws| - 1].1]
  }

  /** A register no write in the run names keeps its value. */
  lemma {:induction false} ApplyWritesUntouched(regs: RegFile, ws: seq<(Addr, Word)>, a: Addr)
    requires Total(regs)
    requires forall k :: 0 <= k < |ws| ==> ws[k].0 != a
    ensures ApplyWrites(regs, ws)[a] == regs[a]
  {
    if ws != [] {
      var n := |ws| - 1;
      assert forall k :: 0 <= k < n ==> ws[..n][k].0 != a by {
        forall k | 0 <= k < n ensures ws[..n][k] == ws[k] { }
      }
      ApplyWritesUntouched(regs, ws[..n], a);
    }
  }

  /** A register holds the value of the last write in the run that names it. */
  lemma {:induction false} ApplyWritesLast(regs: RegFile, ws: seq<(Addr, Word)>, k: nat, a: Addr)
    requires Total(regs) && k < |ws| && ws[k].0 == a
    requires forall l :: k < l < |ws| ==> ws[l].0 != a
    ensures ApplyWrites(regs, ws)[a] == ws[k].1
  {
    var n := |ws| - 1;
    if k < n {
      var prefix := ws[..n];
      assert prefix[k] == ws[k];
      forall l | k < l < n ensures prefix[l].0 != a {
        assert prefix[l] == ws[l];
      }
      ApplyWritesLast(regs, prefix, k, a);
    }
  }

  /** After a successful start-up the power registers hold the configuration's values, the
    * reset register the reset word, and the first PLL divider its value. */
  lemma InitRegisters(regs: RegFile)
    requires Total(regs)
    ensures var r := ApplyWrites(regs, [ResetWrite] + StartupSeq + InitSeq);
            r[Reset] == 0x000 && r[Pwr1] == 0x03D && r[Pwr2] == 0x015 && r[Pwr3] == 0x06F && r[PllN] == 0x019
  {
    var ws := [ResetWrite] + StartupSeq + InitSeq;
    ApplyWritesLast(regs, ws, 0, Reset);
    ApplyWritesLast(regs, ws, 13, Pwr1);
    ApplyWritesLast(regs, ws, 14, Pwr2);
    ApplyWritesLast(regs, ws, 15, Pwr3);
    ApplyWritesLast(regs, ws, 7, PllN);
  }

  /** The write transactions of a run of writes. */
  function Frames(ws: seq<(Addr, Word)>): (t: seq<Transfer>)
    ensures |t| == |ws|
    ensures forall k :: 0 <= k < |ws| ==> t[k] == (WriteFrame(ws[k].0, ws[k].1))
  {
    seq(|ws|, k requires 0 <= k < |ws| => (WriteFrame(ws[k].0, ws[k].1)))
  }

  /** The transactions of two runs of writes are those of the first, then those of the second. */
  lemma FramesAppend(xs: seq<(Addr, Word)>, ys: seq<(Addr, Word)>)
    ensures Frames(xs + ys) == Frames(xs) + Frames(ys)
  {
    assert forall k :: 0 <= k < |xs + ys| ==> Frames(xs + ys)[k] == (Frames(xs) + Frames(ys))[k];
  }

  /** Init's run of writes is the reset, then the start-up writes, then the configuration. */
  lemma ResetThenScript(regs: RegFile, log: seq<Transfer>, afterReset: RegFile, logged: seq<Transfer>)
    requires Total(regs) && afterReset == regs[Reset := 0x000] && logged == log + [WriteFrame(Reset, 0)]
    ensures ApplyWrites(ApplyWrites(afterReset, StartupSeq), InitSeq) == ApplyWrites(regs, [ResetWrite] + StartupSeq + InitSeq)
    ensures logged + Frames(StartupSeq) + Frames(InitSeq) == log + Frames([ResetWrite] + StartupSeq + InitSeq)
  {
    ApplyAppend(regs, [ResetWrite], StartupSeq);
    ApplyAppend(regs, [ResetWrite] + StartupSeq, InitSeq);
    assert ApplyWrites(regs, [ResetWrite]) == afterReset by {
      assert [ResetWrite][..0] == [];
    }
    FramesAppend([ResetWrite], StartupSeq);
    FramesAppend([ResetWrite] + StartupSeq, InitSeq);
    assert Frames([ResetWrite]) == [WriteFrame(Reset, 0)];
  }

  /** The driver's static state and the codec it talks to. The register file stands for the
    * codec; `busOk` for whether I2C transfers are acknowledged; `jackLevel` for the
    * headphone-detect pin. */
  class Codec {
    var initialized: bool
    var saved: bool
    var savedState: MuteState
    var regs: RegFile
    var log: seq<Transfer>
    var busOk: bool
    var jackLevel: bool

    ghost predicate Valid()
      reads this
    {
      Total(regs)
    }

    /** The driver's flags are as they were, and so are the bus and the pin. */
    twostate predicate KeepsFlags()
      reads this
    {
      initialized == old(initialized) && saved == old(saved) && savedState == old(savedState)
      && busOk == old(busOk) && jackLevel == old(jackLevel)
    }

    /** Nothing at all has happened. */
    twostate predicate Untouched()
      reads this
    {
      KeepsFlags() && regs == old(regs) && log == old(log)
    }

    /** Transfers were only appended to the log. */
    twostate predicate Appended()
      reads this
    {
      |old(log)| <= |log| && log[..|old(log)|] == old(log)
    }

    /** The outcome of an operation guarded by save_and_mute_all and restore_mute_state, entered
      * with the codec initialised, where `effected` is what the operation makes of the muted
      * registers: refused when a state is already saved; stuck with the flag set when the bus
      * fails; otherwise the effect with the saved mute state put back and the flag cleared. */
    twostate predicate Guarded(r: bool, effected: RegFile)
      requires old(initialized) && Total(old(regs)) && Total(effected)
      reads this
    {
      initialized && busOk == old(busOk) && jackLevel == old(jackLevel)
      && (old(saved) ==> !r && saved && savedState == old(savedState) && regs == old(regs))
      && (!old(saved) && !busOk ==> !r && saved && savedState == MuteState(false, false, false) && regs == old(regs))
      && (!old(saved) && busOk ==>
            r && !saved && savedState == SavedState(old(regs)) && regs == ApplyMuteState(effected, SavedState(old(regs))))
    }

    /** Power-on: the driver's statics are zero; the codec's registers, the bus and the pin are given. */
    constructor (regs0: RegFile, busOk0: bool, jack: bool)
      requires Total(regs0)
      ensures Valid() && !initialized && !saved && regs == regs0 && log == []
      ensures busOk == busOk0 && jackLevel == jack
    {
      initialized := false;
      saved := false;
      savedState := MuteState(false, false, false);
      regs := regs0;
      log := [];
      busOk := busOk0;
      jackLevel := jack;
    }

    /** nau88c22_write_reg: one three-byte transfer; the codec stores the value it reassembles. */
    method WriteReg(a: Addr, v: Word) returns (ok: bool)
      requires Valid()
      modifies this
      ensures Valid() && KeepsFlags()
      ensures ok == busOk
      ensures log == old(log) + [WriteFrame(a, v)]
      ensures regs == if ok then old(regs)[a := v] else old(regs)
    {
      var frame := WriteFrame(a, v);
      log := log + [frame];
      if !busOk {
        return false;
      }
      JoinSplit(v);
      regs := regs[a := Join(frame.hi, frame.lo)];
      return true;
    }

    /** nau88c22_read_reg: send the address, receive two bytes, join them. */
    method ReadReg(a: Addr) returns (ok: bool, v: Word)
      requires Valid()
      modifies this
      ensures Valid() && KeepsFlags() && regs == old(regs)
      ensures log == old(log) + [Read(a)]
      ensures ok == busOk
      ensures ok ==> v == regs[a]
    {
      log := log + [Read(a)];
      if !busOk {
        return false, 0;
      }
      var w := regs[a];
      JoinSplit(w);
      return true, Join(Hi(w), Lo(w));
    }

    /** The writes of one initialisation loop, stopping at the first one not acknowledged. */
    method WriteAll(ws: seq<(Addr, Word)>) returns (ok: bool)
      requires Valid()
      modifies this
      ensures Valid() && KeepsFlags()
      ensures ok == (busOk || ws == [])
      ensures regs == if busOk then ApplyWrites(old(regs), ws) else old(regs)
      ensures log == old(log) + if busOk then Frames(ws) else Frames(ws[..if ws == [] then 0 else 1])
    {
      var i := 0;
      ok := true;
      while i < |ws|
        invariant 0 <= i <= |ws| && Valid() && KeepsFlags()
        invariant !busOk ==> i == 0
        invariant regs == ApplyWrites(old(regs), ws[..i])
        invariant log == old(log) + Frames(ws[..i])
      {
        ok := WriteReg(ws[i].0, ws[i].1);
        if !ok {
          assert ws[..1] == [ws[0]];
          return;
        }
        assert ws[..i + 1][..i] == ws[..i];
        assert Frames(ws[..i + 1]) == Frames(ws[..i]) + [WriteFrame(ws[i].0, ws[i].1)];
        i := i + 1;
      }
      assert ws[..i] == ws;
    }

    /** nau88c22_init: reset, the start-up writes, the configuration writes; initialised only if every write was acknowledged. */
    method Init() returns (r: bool)
      requires Valid()
      modifies this
      ensures Valid() && busOk == old(busOk) && jackLevel == old(jackLevel)
      ensures saved == old(saved) && savedState == old(savedState)
      ensures r == busOk
      ensures initialized == (old(initialized) || r)
      ensures r ==> regs == ApplyWrites(old(regs), [ResetWrite] + StartupSeq + InitSeq)
      ensures r ==> log == old(log) + Frames([ResetWrite] + StartupSeq + InitSeq)
      ensures !r ==> regs == old(regs) && log == old(log) + [WriteFrame(Reset, 0)]
    {
      r := WriteReg(ResetWrite.0, ResetWrite.1);
      if !r {
        return;
      }
      ghost var afterReset := regs;
      ghost var logged := log;
      var ok := WriteAll(StartupSeq);
      ok := WriteAll(InitSeq);
      ResetThenScript(old(regs), old(log), afterReset, logged);
      initialized := true;
    }

    /** Register read half of the mute state check (nau88c22_is_muted): a failed read counts as unmuted. */
    method IsMuted(a: Addr) returns (m: bool)
      requires Valid()
      modifies this
      ensures Valid() && KeepsFlags() && regs == old(regs)
      ensures log == old(log) + [Read(a)]
      ensures m == (busOk && Muted(regs[a]))
    {
      var ok, v := ReadReg(a);
      m := ok && Muted(v);
    }

    /** The read-modify-write on one register in the mute functions. */
    method MuteReg(a: Addr, enable: bool, update: bool) returns (ok: bool)
      requires Valid()
      modifies this
      ensures Valid() && KeepsFlags() && Appended()
      ensures ok == busOk
      ensures regs == if ok then MuteAt(old(regs), a, enable, update) else old(regs)
    {
      var v;
      ok, v := ReadReg(a);
      if ok {
        ok := WriteReg(a, MuteWord(v, enable, update));
      }
    }

    /** nau88c22_mute_output, as the primitive mute_all and restore_mute_state need: the four output registers. */
    method MuteOutput(enable: bool) returns (r: bool)
      requires Valid()
      modifies this
      ensures Valid() && KeepsFlags() && Appended()
      ensures !old(initialized) ==> log == old(log)
      ensures r == (initialized && busOk)
      ensures regs == if r then MuteOutputRegs(old(regs), enable) else old(regs)
    {
      if !initialized {
        return false;
      }
      r := MuteReg(LhpVolume, enable, false);
      if r {
        r := MuteReg(RhpVolume, enable, true);
      }
      if r {
        r := MuteReg(LspkoutVolume, enable, false);
      }
      if r {
        r := MuteReg(RspkoutVolume, enable, true);
      }
    }

    /** nau88c22_mute_mic, as a primitive: the built-in mic's PGA register. */
    method MuteMic(enable: bool) returns (r: bool)
      requires Valid()
      modifies this
      ensures Valid() && KeepsFlags() && Appended()
      ensures !old(initialized) ==> log == old(log)
      ensures r == (initialized && busOk)
      ensures regs == if r then MuteAt(old(regs), LeftInputPgaGain, enable, false) else old(regs)
    {
      if !initialized {
        return false;
      }
      r := MuteReg(LeftInputPgaGain, enable, false);
    }

    /** nau88c22_mute_hp_mic, as a primitive: the headset mic's PGA register. */
    method MuteHpMic(enable: bool) returns (r: bool)
      requires Valid()
      modifies this
      ensures Valid() && KeepsFlags() && Appended()
      ensures !old(initialized) ==> log == old(log)
      ensures r == (initialized && busOk)
      ensures regs == if r then MuteAt(old(regs), RightInputPgaGain, enable, false) else old(regs)
    {
      if !initialized {
        return false;
      }
      r := MuteReg(RightInputPgaGain, enable, false);
    }

    /** The three mute calls of mute_all and restore_mute_state; all three run even when one fails. */
    method ApplyMutes(s: MuteState) returns (r: bool)
      requires Valid()
      modifies this
      ensures Valid() && KeepsFlags() && Appended()
      ensures !old(initialized) ==> log == old(log)
      ensures r == (initialized && busOk)
      ensures regs == if r then ApplyMuteState(old(regs), s) else old(regs)
    {
      var a := MuteOutput(s.output);
      var b := MuteMic(s.mic);
      var c := MuteHpMic(s.hpMic);
      r := a && b && c;
    }

    /** nau88c22_mute_all: mute or unmute everything. */
    method MuteAll(enable: bool) returns (r: bool)
      requires Valid()
      modifies this
      ensures Valid() && KeepsFlags() && Appended()
      ensures !old(initialized) ==> log == old(log)
      ensures r == (initialized && busOk)
      ensures regs == if r then ApplyMuteState(old(regs), MuteState(enable, enable, enable)) else old(regs)
    {
      if !initialized {
        return false;
      }
      r := ApplyMutes(MuteState(enable, enable, enable));
    }

    /** nau88c22_save_and_mute_all, with mute_all calling the unguarded mute primitives. */
    method SaveAndMuteAll() returns (r: bool)
      requires Valid()
      modifies this
      ensures Valid() && initialized == old(initialized) && busOk == old(busOk) && jackLevel == old(jackLevel)
      ensures Appended()
      ensures !old(initialized) || old(saved) ==> !r && Untouched()
      ensures old(initialized) && !old(saved) ==>
                saved && r == busOk
                && savedState == (if busOk then SavedState(old(regs)) else MuteState(false, false, false))
                && regs == if busOk then ApplyMuteState(old(regs), AllMuted) else old(regs)
    {
      if !initialized || saved {
        return false;
      }
      var o := IsMuted(LhpVolume);
      var m := IsMuted(LeftInputPgaGain);
      var h := IsMuted(RightInputPgaGain);
      savedState := MuteState(o, m, h);
      saved := true;
      r := MuteAll(true);
    }

    /** nau88c22_restore_mute_state: re-apply the saved flags and clear the saved mark. */
    method RestoreMuteState() returns (r: bool)
      requires Valid()
      modifies this
      ensures Valid() && initialized == old(initialized) && busOk == old(busOk) && jackLevel == old(jackLevel)
      ensures savedState == old(savedState) && Appended()
      ensures !old(initialized) || !old(saved) ==> !r && Untouched()
      ensures old(initialized) && old(saved) ==>
                !saved && r == busOk && regs == if busOk then ApplyMuteState(old(regs), old(savedState)) else old(regs)
    {
      if !initialized || !saved {
        return false;
      }
      r := ApplyMutes(savedState);
      saved := false;
    }

    /** nau88c22_sleep: set or clear the sleep bit of PWR2 with everything muted. */
    method Sleep(enable: bool) returns (r: bool)
      requires Valid()
      modifies this
      ensures Valid() && Appended()
      ensures !old(initialized) ==> !r && Untouched()
      ensures old(initialized) && old(saved) ==> log == old(log)
      ensures old(initialized) ==> Guarded(r, SleepEffect(ApplyMuteState(old(regs), AllMuted), enable))
    {
      if !initialized {
        return false;
      }
      var ok := SaveAndMuteAll();
      if !ok {
        return false;
      }
      r := SleepWrite(enable);
      var restored := RestoreMuteState();
    }

    /** The read-modify-write of PWR2 between muting and restoring in nau88c22_sleep. */
    method SleepWrite(enable: bool) returns (r: bool)
      requires Valid()
      modifies this
      ensures Valid() && KeepsFlags() && Appended()
      ensures r == busOk
      ensures regs == if r then SleepEffect(old(regs), enable) else old(regs)
    {
      var v;
      r, v := ReadReg(Pwr2);
      if r {
        r := WriteReg(Pwr2, SleepWord(v, enable));
      }
    }

    /** nau88c22_hp_mic_toggle: power the headset mic (0x02A) or the built-in one (0x015). */
    method HpMicToggle(enable: bool) returns (r: bool)
      requires Valid()
      modifies this
      ensures Valid() && Appended()
      ensures !old(initialized) ==> !r && Untouched()
      ensures old(initialized) && old(saved) ==> log == old(log)
      ensures old(initialized) ==> Guarded(r, HpMicEffect(ApplyMuteState(old(regs), AllMuted), enable))
    {
      if !initialized {
        return false;
      }
      var ok := SaveAndMuteAll();
      if !ok {
        return false;
      }
      r := WriteReg(Pwr2, if enable then 0x02A else 0x015);
      var restored := RestoreMuteState();
    }

    /** nau88c22_read_volume_percent: the low six bits of a register as a percentage. */
    method ReadVolumePercent(a: Addr) returns (ok: bool, percent: Byte)
      requires Valid()
      modifies this
      ensures Valid() && KeepsFlags() && regs == old(regs)
      ensures !initialized ==> !ok && log == old(log)
      ensures initialized ==> log == old(log) + [Read(a)] && ok == busOk
      ensures ok ==> percent == VolumePercent(Gain(regs[a]))
    {
      if !initialized {
        return false, 0;
      }
      var v;
      ok, v := ReadReg(a);
      if !ok {
        return false, 0;
      }
      percent := VolumePercent(Gain(v));
    }

    /** nau88c22_set_output_volume: a 0..100 volume into a left and a right output register. */
    method SetOutputVolume(volume: Byte, left: Addr, right: Addr) returns (r: bool)
      requires Valid()
      modifies this
      ensures Valid() && Appended()
      ensures !old(initialized) ==> !r && Untouched()
      ensures old(initialized) && old(saved) ==> log == old(log)
      ensures old(initialized) ==> Guarded(r, OutputVolumeEffect(ApplyMuteState(old(regs), AllMuted), volume, left, right))
    {
      if !initialized {
        return false;
      }
      var ok := SaveAndMuteAll();
      if !ok {
        return false;
      }
      r := OutputVolumeWrite(volume, left, right);
      var restored := RestoreMuteState();
    }

    /** The two read-modify-writes between muting and restoring in nau88c22_set_output_volume. */
    method OutputVolumeWrite(volume: Byte, left: Addr, right: Addr) returns (r: bool)
      requires Valid()
      modifies this
      ensures Valid() && KeepsFlags() && Appended()
      ensures r == busOk
      ensures regs == if r then OutputVolumeEffect(old(regs), volume, left, right) else old(regs)
    {
      var cur;
      r, cur := ReadReg(left);
      if !r {
        return;
      }
      var vl := RawVolume(volume) | (cur & 0x140);
      r := WriteReg(left, vl);
      if !r {
        return;
      }
      r, cur := ReadReg(right);
      if !r {
        return;
      }
      r := WriteReg(right, vl | (cur & 0x140) | 0x100);
    }

    /** nau88c22_increment_output_volume: step the headphone or the speaker volume, by the jack pin. */
    method IncrementOutputVolume(up: bool) returns (r: bool)
      requires Valid()
      modifies this
      ensures Valid() && Appended()
      ensures !old(initialized) ==> !r && Untouched()
      ensures old(initialized) && !busOk ==> !r && KeepsFlags() && regs == old(regs)
      ensures old(initialized) && busOk ==>
                var left := if jackLevel then LhpVolume else LspkoutVolume;
                var right := if jackLevel then RhpVolume else RspkoutVolume;
                var next := StepPercent(VolumePercent(Gain(old(regs)[left])), up);
                Guarded(r, OutputVolumeEffect(ApplyMuteState(old(regs), AllMuted), next, left, right))
    {
      if !initialized {
        return false;
      }
      var left, right := LspkoutVolume, RspkoutVolume;
      if jackLevel {
        left, right := LhpVolume, RhpVolume;
      }
      var ok, current := ReadVolumePercent(left);
      if !ok {
        return false;
      }
      r := SetOutputVolume(StepPercent(current, up), left, right);
    }

    /** nau88c22_set_mic_volume: a 0..100 volume into the gain of one microphone channel. */
    method SetMicVolume(channel: Byte, volume: Byte) returns (r: bool)
      requires Valid()
      modifies this
      ensures Valid() && Appended()
      ensures !old(initialized) || MicReg(channel).None? ==> !r && Untouched()
      ensures old(initialized) && old(saved) ==> log == old(log)
      ensures old(initialized) && MicReg(channel).Some? ==>
                Guarded(r, MicVolumeEffect(ApplyMuteState(old(regs), AllMuted), MicReg(channel).value, volume))
    {
      if !initialized {
        return false;
      }
      var a := MicReg(channel);
      if a.None? {
        return false;
      }
      var ok := SaveAndMuteAll();
      if !ok {
        return false;
      }
      r := MicVolumeWrite(a.value, volume);
      var restored := RestoreMuteState();
    }

    /** The read-modify-write of the gain register between muting and restoring in nau88c22_set_mic_volume. */
    method MicVolumeWrite(a: Addr, volume: Byte) returns (r: bool)
      requires Valid()
      modifies this
      ensures Valid() && KeepsFlags() && Appended()
      ensures r == busOk
      ensures regs == if r then MicVolumeEffect(old(regs), a, volume) else old(regs)
    {
      var cur;
      r, cur := ReadReg(a);
      if r {
        r := WriteReg(a, (cur & 0xFFC0) | RawVolume(volume));
      }
    }

    /** nau88c22_increment_mic_volume: step one microphone channel's gain. */
    method IncrementMicVolume(channel: Byte, up: bool) returns (r: bool)
      requires Valid()
      modifies this
      ensures Valid() && Appended()
      ensures !old(initialized) || MicReg(channel).None? ==> !r && Untouched()
      ensures old(initialized) && !busOk ==> !r && KeepsFlags() && regs == old(regs)
      ensures old(initialized) && busOk && MicReg(channel).Some? ==>
                var a := MicReg(channel).value;
                var next := StepPercent(VolumePercent(Gain(old(regs)[a])), up);
                Guarded(r, MicVolumeEffect(ApplyMuteState(old(regs), AllMuted), a, next))
    {
      if !initialized {
        return false;
      }
      var a := MicReg(channel);
      if a.None? {
        return false;
      }
      var ok, current := ReadVolumePercent(a.value);
      if !ok {
        return false;
      }
      r := SetMicVolume(channel, StepPercent(current, up));
    }

    /** nau88c22_set_eq: the gain of one of the five EQ bands. */
    method SetEq(band: Byte, gain: Byte) returns (r: bool)
      requires Valid()
      modifies this
      ensures Valid() && Appended()
      ensures !old(initialized) || band > 4 ==> !r && Untouched()
      ensures old(initialized) && old(saved) ==> log == old(log)
      ensures old(initialized) && band <= 4 ==> Guarded(r, EqEffect(ApplyMuteState(old(regs), AllMuted), band, gain))
    {
      if !initialized || band > 4 {
        return false;
      }
      var ok := SaveAndMuteAll();
      if !ok {
        return false;
      }
      r := EqWrite(band, gain);
      var restored := RestoreMuteState();
    }

    /** The read-modify-write of the band's register between muting and restoring in nau88c22_set_eq. */
    method EqWrite(band: Byte, gain: Byte) returns (r: bool)
      requires Valid() && band <= 4
      modifies this
      ensures Valid() && KeepsFlags() && Appended()
      ensures r == busOk
      ensures regs == if r then EqEffect(old(regs), band, gain) else old(regs)
    {
      var cur;
      r, cur := ReadReg(EqReg(band));
      if r {
        r := WriteReg(EqReg(band), (cur & 0xFFE0) | ((gain as bv16) & 0x1F));
      }
    }

    // ---- save_and_mute_all as written ----

    /** nau88c22_save_and_mute_all as written, where mute_all calls the guarded mute functions.
      * It sets the saved mark before mute_all, so each mute function's own call of
      * save_and_mute_all is refused: nothing is muted, it never succeeds, and the mark stays set. */
    method SaveAndMuteAllAsWritten() returns (r: bool)
      requires Valid()
      modifies this
      decreases if saved then 0 else 3
      ensures Valid() && initialized == old(initialized) && busOk == old(busOk)
      ensures !r
      ensures regs == old(regs)
      ensures initialized ==> saved
      ensures !old(initialized) || old(saved) ==> Untouched()
    {
      if !initialized || saved {
        return false;
      }
      var o := IsMuted(LhpVolume);
      var m := IsMuted(LeftInputPgaGain);
      var h := IsMuted(RightInputPgaGain);
      savedState := MuteState(o, m, h);
      saved := true;
      r := MuteAllReentered();
    }

    /** nau88c22_mute_all while the mark is set: the three guarded mute calls. */
    method MuteAllReentered() returns (r: bool)
      requires Valid() && initialized && saved
      modifies this
      decreases 2
      ensures !r && Untouched()
    {
      var a := MuteReentered();
      var b := MuteReentered();
      var c := MuteReentered();
      r := a && b && c;
    }

    /** The start of mute_output, mute_mic and mute_hp_mic while the mark is set: their call of
      * save_and_mute_all is refused, so they return 0 before touching a register. */
    method MuteReentered() returns (r: bool)
      requires Valid() && initialized && saved
      modifies this
      decreases 1
      ensures !r && Untouched()
    {
      r := SaveAndMuteAllAsWritten();
    }
  }

  /** Init's run of writes is the reset, then the start-up writes, then the configuration. */
  lemma {:induction false} ApplyAppend(regs: RegFile, xs: seq<(Addr, Word)>, ys: seq<(Addr, Word)>)
    requires Total(regs)
    ensures ApplyWrites(regs, xs + ys) == ApplyWrites(ApplyWrites(regs, xs), ys)
  {
    if ys != [] {
      var n := |ys| - 1;
      assert (xs + ys)[..|xs + ys| - 1] == xs + ys[..n];
      ApplyAppend(regs, xs, ys[..n]);
    } else {
      assert xs + ys == xs;
    }
  }
}
