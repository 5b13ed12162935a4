/**
 The dot-by-dot PPU reference model: LCD power, mode, LY, dot-in-line, the STAT
 interrupt line and the per-dot interrupt requests, driven by register writes and
 forced power events.
 */
module Ppu {
  import opened Bits
  import opened Wrappers

  const DOTS_PER_LINE := 456
  const VISIBLE_LINES := 144
  const TOTAL_LINES := 154
  const OAM_LAST_DOT := 79
  const TRANSFER_LAST_DOT := 251
  const LINE_LAST_DOT := 455

  datatype LcdRunState = Disabled | WarmupBlankFrame | Running

  datatype PpuPhase = LcdOff | OamScan | Transfer | HBlank | VBlank

  datatype PpuMode = ModeLcdOff | ModeOamScan | ModePixelTransfer | ModeHBlank | ModeVBlank

  datatype Lcdc = Lcdc(lcdEnable: bool, winMapHi: bool, winEnable: bool, bgwinDataHi: bool,
                       bgMapHi: bool, objSize8x16: bool, objEnable: bool, bgEnable: bool)

  datatype StatSelect = StatSelect(lycSel: bool, mode2Sel: bool, mode1Sel: bool, mode0Sel: bool)

  datatype PpuRegs = PpuRegs(lcdc: Lcdc, statSel: StatSelect, scy: int, scx: int, lyc: int,
                             wy: int, wx: int, bgp: int, obp0: int, obp1: int)

  datatype PpuStatus = PpuStatus(run: LcdRunState, phase: PpuPhase, lineHigh: bool)

  datatype Sampling = Sampling(scxLow3: int, windowEnable: bool)

  datatype PpuState = PpuState(regs: PpuRegs, ly: int, status: PpuStatus, sampled: Sampling, dot: int)

  datatype MmioReg = RegLcdc | RegStat | RegScy | RegScx | RegLyc | RegWy | RegWx | RegBgp | RegObp0 | RegObp1

  datatype MmioWrite = MmioWrite(target: MmioReg, value: int)

  /** One bus event of a dot; `OtherEvent` is any kind the PPU ignores (an OAM DMA start, say). */
  datatype PpuEvent = Write(write: MmioWrite) | ForceLcdPower(enabled: bool) | OtherEvent

  datatype DotOutput = DotOutput(nextState: PpuState, vblankReq: bool, statReq: bool)

  const NO_SAMPLE := Sampling(0, false)

  function DecodeLcdc(value: nat): Lcdc {
    Lcdc(BitOf(value, 7), BitOf(value, 6), BitOf(value, 5), BitOf(value, 4),
         BitOf(value, 3), BitOf(value, 2), BitOf(value, 1), BitOf(value, 0))
  }

  function DecodeStatSelect(value: nat): StatSelect {
    StatSelect(BitOf(value, 6), BitOf(value, 5), BitOf(value, 4), BitOf(value, 3))
  }

  function ApplyMmioWrite(regs: PpuRegs, write: MmioWrite): PpuRegs {
    var value := write.value % 256;
    match write.target
    case RegLcdc => regs.(lcdc := DecodeLcdc(value))
    case RegStat => regs.(statSel := DecodeStatSelect(value))
    case RegScy => regs.(scy := value)
    case RegScx => regs.(scx := value)
    case RegLyc => regs.(lyc := value)
    case RegWy => regs.(wy := value)
    case RegWx => regs.(wx := value)
    case RegBgp => regs.(bgp := value)
    case RegObp0 => regs.(obp0 := value)
    case RegObp1 => regs.(obp1 := value)
  }

  function ApplyWrites(regs: PpuRegs, writes: seq<MmioWrite>): PpuRegs {
    if writes == [] then regs
    else ApplyMmioWrite(ApplyWrites(regs, writes[..|writes| - 1]), writes[|writes| - 1])
  }

  function WritesOf(events: seq<PpuEvent>): seq<MmioWrite> {
    if events == [] then []
    else
      var last := events[|events| - 1];
      WritesOf(events[..|events| - 1]) + if last.Write? then [last.write] else []
  }

  predicate StatWriteSeen(events: seq<PpuEvent>) {
    exists e :: e in events && e.Write? && e.write.target == RegStat
  }

  function VisibleMode(status: PpuStatus): PpuMode {
    if status.run == Disabled then ModeLcdOff
    else
      match status.phase
      case LcdOff => ModeLcdOff
      case OamScan => ModeOamScan
      case Transfer => ModePixelTransfer
      case HBlank => ModeHBlank
      case VBlank => ModeVBlank
  }

  predicate ModeSourceEnabled(sel: StatSelect, mode: PpuMode) {
    match mode
    case ModeHBlank => sel.mode0Sel
    case ModeVBlank => sel.mode1Sel
    case ModeOamScan => sel.mode2Sel
    case _ => false
  }

  predicate StatLine(regs: PpuRegs, status: PpuStatus, ly: int) {
    status.run != Disabled && regs.lcdc.lcdEnable &&
    (ModeSourceEnabled(regs.statSel, VisibleMode(status)) || (regs.statSel.lycSel && ly == regs.lyc))
  }

  function NextLine(ly: int): int {
    if ly == TOTAL_LINES - 1 then 0 else ly + 1
  }

  function SampleVisibleLine(regs: PpuRegs): Sampling {
    Sampling(regs.scx % 8, regs.lcdc.winEnable)
  }

  datatype Timing = Timing(run: LcdRunState, phase: PpuPhase, ly: int, sampled: Sampling, dot: int)

  /** One dot of the raster, given the (possibly transient) status of this dot. */
  function AdvanceTiming(regs: PpuRegs, status: PpuStatus, ly: int, sampled: Sampling, dot: int): Timing {
    if status.run == Disabled then
      Timing(Disabled, LcdOff, 0, NO_SAMPLE, 0)
    else
      var nextDot := if dot == LINE_LAST_DOT then 0 else dot + 1;
      match status.phase
      case LcdOff =>
        Timing(status.run, OamScan, ly, SampleVisibleLine(regs), nextDot)
      case OamScan =>
        Timing(status.run, if dot == OAM_LAST_DOT then Transfer else OamScan, ly, sampled, nextDot)
      case Transfer =>
        Timing(status.run, if dot == TRANSFER_LAST_DOT then HBlank else Transfer, ly, sampled, nextDot)
      case HBlank =>
        if dot != LINE_LAST_DOT then Timing(status.run, HBlank, ly, sampled, nextDot)
        else if ly == VISIBLE_LINES - 1 then Timing(status.run, VBlank, NextLine(ly), sampled, nextDot)
        else Timing(status.run, OamScan, NextLine(ly), SampleVisibleLine(regs), nextDot)
      case VBlank =>
        if dot != LINE_LAST_DOT then Timing(status.run, VBlank, ly, sampled, nextDot)
        else if ly == TOTAL_LINES - 1 then
          Timing(if status.run == WarmupBlankFrame then Running else status.run,
                 OamScan, 0, SampleVisibleLine(regs), nextDot)
        else Timing(status.run, VBlank, NextLine(ly), sampled, nextDot)
  }

  /** The registers after this dot's writes and a forced power-on, before any power-off. */
  function RegsAfter(regs: PpuRegs, events: seq<PpuEvent>): PpuRegs {
    var written := ApplyWrites(regs, WritesOf(events));
    if ForceLcdPower(true) in events then written.(lcdc := written.lcdc.(lcdEnable := true)) else written
  }

  /** The machine once the LCD is off: everything but the registers is at its reset value. */
  function PoweredOff(regs: PpuRegs): PpuState {
    PpuState(regs.(lcdc := regs.lcdc.(lcdEnable := false)), 0, PpuStatus(Disabled, LcdOff, false), NO_SAMPLE, 0)
  }

  /** One raster dot from a status, and the STAT line that results. */
  function AdvanceDot(regs: PpuRegs, status: PpuStatus, s: PpuState): PpuState {
    var t := AdvanceTiming(regs, status, s.ly, s.sampled, s.dot);
    var line := StatLine(regs, PpuStatus(t.run, t.phase, false), t.ly);
    PpuState(regs, t.ly, PpuStatus(t.run, t.phase, line), t.sampled, t.dot)
  }

  function StepDot(s: PpuState, events: seq<PpuEvent>, quirk: bool): DotOutput {
    var regs := RegsAfter(s.regs, events);
    if ForceLcdPower(false) in events || (s.status.run != Disabled && !regs.lcdc.lcdEnable) then
      DotOutput(PoweredOff(regs), false, false)
    else
      var poweredOn := ForceLcdPower(true) in events || (s.status.run == Disabled && regs.lcdc.lcdEnable);
      var next := AdvanceDot(regs, if poweredOn then PpuStatus(WarmupBlankFrame, LcdOff, false) else s.status, s);
      var running := next.status.run != Disabled;
      DotOutput(
        next,
        running && VisibleMode(s.status) != ModeVBlank && VisibleMode(next.status) == ModeVBlank,
        running && ((!s.status.lineHigh && next.status.lineHigh) || (quirk && StatWriteSeen(events))))
  }

  datatype ResetProfile = SkipBoot | RawPowerOn

  datatype ModelProfile = DMG | CGB

  /** The one behaviour feature the timing model looks at is the STAT write quirk. */
  datatype BehaviorConfig = BehaviorConfig(model: ModelProfile, statWriteQuirk: bool)

  function ResetState(profile: ResetProfile): PpuState {
    match profile
    case SkipBoot =>
      var regs := PpuRegs(DecodeLcdc(0x91), DecodeStatSelect(0x85), 0, 0, 0, 0, 0, 0xFC, 0xFF, 0xFF);
      PpuState(regs, 0, PpuStatus(Running, OamScan, false), SampleVisibleLine(regs), 0)
    case RawPowerOn =>
      PpuState(PpuRegs(DecodeLcdc(0), DecodeStatSelect(0), 0, 0, 0, 0, 0, 0, 0, 0),
               0, PpuStatus(Disabled, LcdOff, false), NO_SAMPLE, 0)
  }

  method ExtractMmioWrites(events: seq<PpuEvent>)
    returns (writes: seq<MmioWrite>, powerEnable: bool, powerDisable: bool)
    ensures writes == WritesOf(events)
    ensures powerEnable <==> ForceLcdPower(true) in events
    ensures powerDisable <==> ForceLcdPower(false) in events
  {
    writes, powerEnable, powerDisable := [], false, false;
    for i := 0 to |events|
      invariant writes == WritesOf(events[..i])
      invariant powerEnable <==> ForceLcdPower(true) in events[..i]
      invariant powerDisable <==> ForceLcdPower(false) in events[..i]
    {
      assert events[..i + 1] == events[..i] + [events[i]];
      match events[i]
      case Write(w) => writes := writes + [w];
      case ForceLcdPower(enabled) =>
        if enabled { powerEnable := true; } else { powerDisable := true; }
      case OtherEvent =>
    }
    assert events[..|events|] == events;
  }

  /** The step as the source runs it: extract the writes, fold them into the registers, then time the dot. */
  method StepDotWithConfig(s: PpuState, events: seq<PpuEvent>, config: BehaviorConfig) returns (out: DotOutput)
    ensures out == StepDot(s, events, config.statWriteQuirk)
  {
    var writes, powerEnable, powerDisable := ExtractMmioWrites(events);
    var statWriteSeen := exists w :: w in writes && w.target == RegStat;
    WritesOfStat(events);
    var regs := s.regs;
    for i := 0 to |writes|
      invariant regs == ApplyWrites(s.regs, writes[..i])
    {
      assert writes[..i + 1][..i] == writes[..i];
      regs := ApplyMmioWrite(regs, writes[i]);
    }
    assert writes[..|writes|] == writes;
    if powerEnable {
      regs := regs.(lcdc := regs.lcdc.(lcdEnable := true));
    }
    if powerDisable || (s.status.run != Disabled && !regs.lcdc.lcdEnable) {
      regs := regs.(lcdc := regs.lcdc.(lcdEnable := false));
      return DotOutput(PpuState(regs, 0, PpuStatus(Disabled, LcdOff, false), NO_SAMPLE, 0), false, false);
    }
    var transient := s.status;
    if powerEnable || (s.status.run == Disabled && regs.lcdc.lcdEnable) {
      transient := PpuStatus(WarmupBlankFrame, LcdOff, false);
    }
    var t := AdvanceTiming(regs, transient, s.ly, s.sampled, s.dot);
    var next := PpuStatus(t.run, t.phase, false);
    var line := StatLine(regs, next, t.ly);
    next := next.(lineHigh := line);
    var vblankReq, statReq := false, false;
    if next.run != Disabled {
      vblankReq := VisibleMode(s.status) != ModeVBlank && VisibleMode(next) == ModeVBlank;
      statReq := (!s.status.lineHigh && line) || (config.statWriteQuirk && statWriteSeen);
    }
    out := DotOutput(PpuState(regs, t.ly, next, t.sampled, t.dot), vblankReq, statReq);
  }

  lemma WritesOfStat(events: seq<PpuEvent>)
    ensures (exists w :: w in WritesOf(events) && w.target == RegStat) <==> StatWriteSeen(events)
  {
    WritesOfMembers(events);
    if StatWriteSeen(events) {
      var e :| e in events && e.Write? && e.write.target == RegStat;
      assert e.write in WritesOf(events);
    }
  }

  lemma {:induction false} WritesOfMembers(events: seq<PpuEvent>)
    ensures forall w :: w in WritesOf(events) <==> Write(w) in events
  {
    if events != [] {
      WritesOfMembers(events[..|events| - 1]);
      assert events == events[..|events| - 1] + [events[|events| - 1]];
    }
  }

  class PpuReferenceModel {
    var modelProfile: ModelProfile
    var resetProfile: ResetProfile
    var config: BehaviorConfig
    var state: PpuState

    /** A fresh model is powered off until `Reset` is called. */
    constructor ()
      ensures modelProfile == DMG && resetProfile == SkipBoot && config == BehaviorConfig(DMG, false)
      ensures state == ResetState(RawPowerOn)
    {
      modelProfile, resetProfile, config := DMG, SkipBoot, BehaviorConfig(DMG, false);
      state := ResetState(RawPowerOn);
    }

    /** A configuration for another model is refused, after both profiles were stored but before the state changes. */
    method Reset(model: ModelProfile, profile: ResetProfile, behavior: Option<BehaviorConfig>)
      returns (r: Result<PpuState, string>)
      modifies this
      ensures modelProfile == model && resetProfile == profile
      ensures r.Failure? <==> behavior.Some? && behavior.value.model != model
      ensures r.Failure? ==> config == old(config) && state == old(state)
      ensures r.Success? ==> r.value == state == ResetState(profile)
      ensures r.Success? ==> config == if behavior.Some? then behavior.value else BehaviorConfig(model, false)
    {
      modelProfile, resetProfile := model, profile;
      var chosen := if behavior.Some? then behavior.value else BehaviorConfig(model, false);
      if chosen.model != model {
        return Failure("BehaviorConfig.model must match the selected model profile");
      }
      config, state := chosen, ResetState(profile);
      r := Success(state);
    }

    method Step(events: seq<PpuEvent>) returns (out: DotOutput)
      modifies this`state
      ensures out == StepDot(old(state), events, config.statWriteQuirk)
      ensures state == out.nextState
    {
      out := StepDotWithConfig(state, events, config);
      state := out.nextState;
    }
  }
}
