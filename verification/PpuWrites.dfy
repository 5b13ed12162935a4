/**
 What register writes mean: the registers a dot leaves are those its last writes name, bit by bit, and a STAT write
 decides how many interrupts the frame after it requests.
 */
module PpuWrites {
  import opened Bits
  import opened Ppu
  import opened PpuCounter
  import opened PpuInterrupts

  /** What a register holds once a byte has been written to it. */
  predicate Holds(regs: PpuRegs, target: MmioReg, value: int) {
    var v := value % 256;
    match target
    case RegLcdc =>
      regs.lcdc == Lcdc(v / 128 % 2 == 1, v / 64 % 2 == 1, v / 32 % 2 == 1, v / 16 % 2 == 1,
                        v / 8 % 2 == 1, v / 4 % 2 == 1, v / 2 % 2 == 1, v % 2 == 1)
    case RegStat => regs.statSel == SelectedBy(v)
    case RegScy => regs.scy == v
    case RegScx => regs.scx == v
    case RegLyc => regs.lyc == v
    case RegWy => regs.wy == v
    case RegWx => regs.wx == v
    case RegBgp => regs.bgp == v
    case RegObp0 => regs.obp0 == v
    case RegObp1 => regs.obp1 == v
  }

  /** LYC, OAM scan, VBlank and HBlank, from bit 6 down to bit 3. */
  function SelectedBy(v: int): StatSelect {
    StatSelect(v / 64 % 2 == 1, v / 32 % 2 == 1, v / 16 % 2 == 1, v / 8 % 2 == 1)
  }

  predicate SameIn(a: PpuRegs, b: PpuRegs, target: MmioReg) {
    match target
    case RegLcdc => a.lcdc == b.lcdc
    case RegStat => a.statSel == b.statSel
    case RegScy => a.scy == b.scy
    case RegScx => a.scx == b.scx
    case RegLyc => a.lyc == b.lyc
    case RegWy => a.wy == b.wy
    case RegWx => a.wx == b.wx
    case RegBgp => a.bgp == b.bgp
    case RegObp0 => a.obp0 == b.obp0
    case RegObp1 => a.obp1 == b.obp1
  }

  predicate NoneTo(writes: seq<MmioWrite>, target: MmioReg) {
    forall k :: 0 <= k < |writes| ==> writes[k].target != target
  }

  /** The writes of a dot, with the last one to some register picked out. */
  predicate LastTo(writes: seq<MmioWrite>, before: seq<MmioWrite>, target: MmioReg, value: int, after: seq<MmioWrite>) {
    writes == before + [MmioWrite(target, value)] + after && NoneTo(after, target)
  }

  /** One write sets its register, to the byte's bits, and no other. */
  lemma OneWrite(regs: PpuRegs, w: MmioWrite, other: MmioReg)
    ensures Holds(ApplyMmioWrite(regs, w), w.target, w.value)
    ensures other != w.target ==> SameIn(ApplyMmioWrite(regs, w), regs, other)
  {
    Decoded(w.value % 256);
  }

  lemma Decoded(v: nat)
    ensures DecodeLcdc(v) == Lcdc(v / 128 % 2 == 1, v / 64 % 2 == 1, v / 32 % 2 == 1, v / 16 % 2 == 1,
                                  v / 8 % 2 == 1, v / 4 % 2 == 1, v / 2 % 2 == 1, v % 2 == 1)
    ensures DecodeStatSelect(v) == SelectedBy(v)
  {
    ByteBits(v);
  }

  lemma {:induction false} UnwrittenStays(regs: PpuRegs, writes: seq<MmioWrite>, target: MmioReg)
    requires NoneTo(writes, target)
    ensures SameIn(ApplyWrites(regs, writes), regs, target)
    decreases |writes|
  {
    if writes != [] {
      var n := |writes| - 1;
      UnwrittenStays(regs, writes[..n], target);
      OneWrite(ApplyWrites(regs, writes[..n]), writes[n], target);
    }
  }

  /** The last write to a register wins. */
  lemma {:induction false} LastWriteWins(
    regs: PpuRegs, writes: seq<MmioWrite>, before: seq<MmioWrite>, target: MmioReg, value: int,
    after: seq<MmioWrite>)
    requires LastTo(writes, before, target, value, after)
    ensures Holds(ApplyWrites(regs, writes), target, value)
    decreases |after|
  {
    var n := |writes| - 1;
    if after == [] {
      assert writes[n] == MmioWrite(target, value);
      OneWrite(ApplyWrites(regs, writes[..n]), writes[n], target);
    } else {
      var m := |after| - 1;
      assert writes[n] == after[m] && writes[..n] == before + [MmioWrite(target, value)] + after[..m];
      LastWriteWins(regs, writes[..n], before, target, value, after[..m]);
      OneWrite(ApplyWrites(regs, writes[..n]), writes[n], target);
      HoldsAlike(ApplyWrites(regs, writes), ApplyWrites(regs, writes[..n]), target, value);
    }
  }

  lemma HoldsAlike(a: PpuRegs, b: PpuRegs, target: MmioReg, value: int)
    requires SameIn(a, b, target) && Holds(b, target, value)
    ensures Holds(a, target, value)
  {
  }

  /** The writes of a dot come in the order of its events. */
  lemma {:induction false} WritesInOrder(a: seq<PpuEvent>, b: seq<PpuEvent>)
    ensures WritesOf(a + b) == WritesOf(a) + WritesOf(b)
    ensures forall w :: WritesOf([Write(w)]) == [w]
    decreases |b|
  {
    forall w
      ensures WritesOf([Write(w)]) == [w]
    {
      assert [Write(w)][..0] == [];
    }
    if b == [] {
      assert a + b == a;
    } else {
      var n := |b| - 1;
      assert (a + b)[..|a| + n] == a + b[..n];
      WritesInOrder(a, b[..n]);
    }
  }

  /** After any dot the registers are those its writes leave, with the enable bit forced to what the LCD does. */
  lemma RegistersFollowWrites(s: PpuState, events: seq<PpuEvent>, quirk: bool)
    requires Valid(s)
    ensures var next := StepDot(s, events, quirk).nextState;
            var written := ApplyWrites(s.regs, WritesOf(events));
            next.regs == written.(lcdc := written.lcdc.(lcdEnable := next.status.run != Disabled))
  {
    StepKeepsValid(s, events, quirk);
    StepRegisters(s, events, quirk, RegsAfter(s.regs, events));
  }

  lemma StepRegisters(s: PpuState, events: seq<PpuEvent>, quirk: bool, regs: PpuRegs)
    requires Valid(s) && regs == RegsAfter(s.regs, events)
    ensures var on := ForceLcdPower(false) !in events && regs.lcdc.lcdEnable;
            StepDot(s, events, quirk).nextState.regs == regs.(lcdc := regs.lcdc.(lcdEnable := on))
  {
    var status := if ForceLcdPower(true) in events || s.status.run == Disabled
                  then PpuStatus(WarmupBlankFrame, LcdOff, false) else s.status;
    assert AdvanceDot(regs, status, s).regs == regs;
    assert AdvanceDot(regs, s.status, s).regs == regs;
  }

  /** The LCD is on after a dot exactly when no event forces it off and either one forces it on or bit 7 of the last
      byte written to LCDC is set; without such a byte, when it was on. */
  lemma LcdOnIff(s: PpuState, events: seq<PpuEvent>, quirk: bool, before: seq<MmioWrite>, value: int,
      after: seq<MmioWrite>)
    requires Valid(s)
    ensures var on := StepDot(s, events, quirk).nextState.status.run != Disabled;
            && (LastTo(WritesOf(events), before, RegLcdc, value, after) ==>
                  (on <==> ForceLcdPower(false) !in events &&
                           (ForceLcdPower(true) in events || value % 256 / 128 % 2 == 1)))
            && (NoneTo(WritesOf(events), RegLcdc) ==>
                  (on <==> ForceLcdPower(false) !in events &&
                           (ForceLcdPower(true) in events || s.status.run != Disabled)))
  {
    StepKeepsValid(s, events, quirk);
    if LastTo(WritesOf(events), before, RegLcdc, value, after) {
      LastWriteWins(s.regs, WritesOf(events), before, RegLcdc, value, after);
    }
    if NoneTo(WritesOf(events), RegLcdc) {
      UnwrittenStays(s.regs, WritesOf(events), RegLcdc);
    }
  }

  /** The registers a reset leaves, as written bytes. */
  lemma ResetRegisters(r: PpuRegs)
    requires r == ResetState(SkipBoot).regs
    ensures Holds(r, RegLcdc, 0x91) && Holds(r, RegStat, 0x85) && Holds(r, RegScy, 0) && Holds(r, RegScx, 0)
    ensures Holds(r, RegLyc, 0) && Holds(r, RegWy, 0) && Holds(r, RegWx, 0)
    ensures Holds(r, RegBgp, 0xFC) && Holds(r, RegObp0, 0xFF) && Holds(r, RegObp1, 0xFF)
  {
    assert Holds(r, RegLcdc, 0x91) by {
      Decoded(0x91);
    }
    assert Holds(r, RegStat, 0x85) by {
      Decoded(0x85);
    }
  }

  /** Powered off at reset, every register is 0. */
  lemma RawRegisters(r: PpuRegs, target: MmioReg)
    requires r == ResetState(RawPowerOn).regs
    ensures Holds(r, target, 0)
  {
    Decoded(0);
  }

  // ---- what a STAT write makes of the frame after it ----

  /** The STAT line of a running machine: a selected source whose condition holds now. */
  lemma StatLineIs(s: PpuState)
    requires InPhase(s) && s.status.run != Disabled
    ensures s.status.lineHigh <==>
            || (s.regs.statSel.lycSel && s.ly == s.regs.lyc)
            || (s.regs.statSel.mode2Sel && s.ly < 144 && s.dot < 80)
            || (s.regs.statSel.mode0Sel && s.ly < 144 && s.dot >= 252)
            || (s.regs.statSel.mode1Sel && s.ly >= 144)
  {
  }

  /** A byte written to STAT on a running machine selects the sources of the frame that follows undisturbed, and so how
      many requests it makes. */
  lemma StatWriteDecidesFrame(s: PpuState, events: seq<PpuEvent>, quirk: bool, before: seq<MmioWrite>, value: int,
      after: seq<MmioWrite>, quiet: seq<seq<PpuEvent>>)
    requires InPhase(s) && s.status.run != Disabled
    requires !EnabledWhileRunning(s, events) && LcdOnAfter(s.regs, events)
    requires LastTo(WritesOf(events), before, RegStat, value, after)
    requires |quiet| == 70224 && Quiet(quiet)
    ensures var next := StepDot(s, events, quirk).nextState;
            StatRequests(next, quiet, false) == StatRequestsPerFrame(SelectedBy(value % 256), next.regs.lyc)
  {
    var next := StepDot(s, events, quirk).nextState;
    StepRefinesTick(s, events, quirk);
    StepKeepsValid(s, events, quirk);
    RegistersFollowWrites(s, events, quirk);
    LastWriteWins(s.regs, WritesOf(events), before, RegStat, value, after);
    QuietRunHoldsSources(next, quiet);
    StatRequestsInOneFrame(next, quiet);
  }

  /** The four single sources, by the byte that selects them. */
  lemma SingleSourceBytes(lyc: int)
    ensures StatRequestsPerFrame(SelectedBy(0x40), lyc) == if 0 <= lyc < 154 then 1 else 0
    ensures StatRequestsPerFrame(SelectedBy(0x20), lyc) == 144
    ensures StatRequestsPerFrame(SelectedBy(0x10), lyc) == 1
    ensures StatRequestsPerFrame(SelectedBy(0x08), lyc) == 144
  {
    SingleSourceCounts(lyc);
  }
}
