/**
 The PPU machine refines one counter modulo 154 * 456: while the LCD is on, line,
 dot and phase are functions of the counter. The single event that breaks this is a
 forced power-on of a machine that is already running; from there the machine finds
 its way back by itself.
 */
module PpuCounter {
  import opened Arithmetic
  import opened Ppu

  const PERIOD := TOTAL_LINES * DOTS_PER_LINE
  const VBLANK_START := VISIBLE_LINES * DOTS_PER_LINE

  /** `warm` says that no frame has ended since the LCD was switched on. */
  datatype Clock = Off | On(pos: nat, warm: bool)

  function Tick(c: Clock, lcdOn: bool): Clock {
    if !lcdOn then Off
    else if c.Off? then On(1, true)
    else On((c.pos + 1) % PERIOD, c.warm && c.pos + 1 < PERIOD)
  }

  function TickAll(c: Clock, lcdOn: seq<bool>): Clock
    decreases |lcdOn|
  {
    if lcdOn == [] then c else TickAll(Tick(c, lcdOn[0]), lcdOn[1..])
  }

  /** The phase of one dot of one line. */
  function PhaseIn(ly: int, dot: int): PpuPhase {
    if ly >= VISIBLE_LINES then VBlank
    else if dot <= OAM_LAST_DOT then OamScan
    else if dot <= TRANSFER_LAST_DOT then Transfer
    else HBlank
  }

  /** What every reachable state satisfies, whatever the events. */
  predicate Valid(s: PpuState) {
    && 0 <= s.dot < DOTS_PER_LINE && 0 <= s.ly < TOTAL_LINES
    && (s.status.run == Disabled <==> s.status.phase == LcdOff)
    && (s.status.run == Disabled <==> !s.regs.lcdc.lcdEnable)
    && (s.status.run == Disabled ==> s.ly == s.dot == 0 && s.sampled == NO_SAMPLE)
    && (s.status.phase == Transfer ==> OAM_LAST_DOT < s.dot <= TRANSFER_LAST_DOT)
    && (s.status.phase == HBlank ==> TRANSFER_LAST_DOT < s.dot)
    && (s.status.phase == VBlank ==> VISIBLE_LINES <= s.ly)
    && s.status.lineHigh == StatLine(s.regs, s.status, s.ly)
  }

  function Position(s: PpuState): int {
    s.ly * DOTS_PER_LINE + s.dot
  }

  predicate InPhase(s: PpuState) {
    Valid(s) && (s.status.run != Disabled ==> s.status.phase == PhaseIn(s.ly, s.dot))
  }

  /** The state a clock value stands for: everything but registers and samples. */
  ghost predicate Shows(s: PpuState, c: Clock) {
    match c
    case Off => s.status.run == Disabled && s.status.phase == LcdOff && s.ly == 0 && s.dot == 0
    case On(pos, warm) =>
      && pos < PERIOD
      && s.status.run == (if warm then WarmupBlankFrame else Running)
      && s.ly == pos / DOTS_PER_LINE && s.dot == pos % DOTS_PER_LINE
      && s.status.phase == PhaseIn(s.ly, s.dot)
  }

  function ClockOf(s: PpuState): Clock
    requires Valid(s)
  {
    if s.status.run == Disabled then Off else On(Position(s), s.status.run == WarmupBlankFrame)
  }

  /** Whether the LCD is on after a dot with these events. */
  predicate LcdOnAfter(regs: PpuRegs, events: seq<PpuEvent>) {
    ForceLcdPower(false) !in events && RegsAfter(regs, events).lcdc.lcdEnable
  }

  /** A forced power-on that hits a machine which is running and stays on. */
  predicate EnabledWhileRunning(s: PpuState, events: seq<PpuEvent>) {
    s.status.run != Disabled && ForceLcdPower(true) in events && ForceLcdPower(false) !in events
  }

  function Run(s: PpuState, inputs: seq<seq<PpuEvent>>, quirk: bool): PpuState
    decreases |inputs|
  {
    if inputs == [] then s else Run(StepDot(s, inputs[0], quirk).nextState, inputs[1..], quirk)
  }

  /** For each dot of a run, whether the LCD is on after it. */
  function LcdTrace(s: PpuState, inputs: seq<seq<PpuEvent>>, quirk: bool): (t: seq<bool>)
    ensures |t| == |inputs|
    decreases |inputs|
  {
    if inputs == [] then []
    else [LcdOnAfter(s.regs, inputs[0])] + LcdTrace(StepDot(s, inputs[0], quirk).nextState, inputs[1..], quirk)
  }

  predicate NeverEnabledWhileRunning(s: PpuState, inputs: seq<seq<PpuEvent>>, quirk: bool)
    decreases |inputs|
  {
    inputs == [] ||
    (!EnabledWhileRunning(s, inputs[0]) &&
     NeverEnabledWhileRunning(StepDot(s, inputs[0], quirk).nextState, inputs[1..], quirk))
  }

  predicate StaysOn(s: PpuState, inputs: seq<seq<PpuEvent>>, quirk: bool)
    decreases |inputs|
  {
    inputs == [] ||
    (LcdOnAfter(s.regs, inputs[0]) && StaysOn(StepDot(s, inputs[0], quirk).nextState, inputs[1..], quirk))
  }

  lemma ShowsClock(s: PpuState)
    requires Valid(s)
    ensures InPhase(s) <==> Shows(s, ClockOf(s))
  {
    if s.status.run != Disabled {
      PositionParts(s.ly, s.dot);
    }
  }

  lemma PositionParts(ly: int, dot: int)
    requires 0 <= ly < TOTAL_LINES && 0 <= dot < DOTS_PER_LINE
    ensures (ly * DOTS_PER_LINE + dot) / DOTS_PER_LINE == ly
    ensures (ly * DOTS_PER_LINE + dot) % DOTS_PER_LINE == dot
    ensures ly * DOTS_PER_LINE + dot < PERIOD
    ensures (ly * DOTS_PER_LINE + dot) % PERIOD == ly * DOTS_PER_LINE + dot
  {
  }

  lemma ResetInPhase(profile: ResetProfile)
    ensures InPhase(ResetState(profile))
    ensures ClockOf(ResetState(profile)) == if profile == SkipBoot then On(0, false) else Off
  {
  }

  /** Any event sequence whatsoever keeps `Valid`; the LCD is on afterwards exactly when the events leave it on. */
  lemma StepKeepsValid(s: PpuState, events: seq<PpuEvent>, quirk: bool)
    requires Valid(s)
    ensures Valid(StepDot(s, events, quirk).nextState)
    ensures StepDot(s, events, quirk).nextState.status.run != Disabled <==> LcdOnAfter(s.regs, events)
  {
    var regs := RegsAfter(s.regs, events);
    if LcdOnAfter(s.regs, events) {
      if s.status.run != Disabled {
        AdvanceKeepsValid(regs, s.status, s);
      }
      AdvanceKeepsValid(regs, PpuStatus(WarmupBlankFrame, LcdOff, false), s);
    }
  }

  lemma AdvanceKeepsValid(regs: PpuRegs, status: PpuStatus, s: PpuState)
    requires Valid(s) && regs.lcdc.lcdEnable
    requires status.run != Disabled && (status == s.status || status.phase == LcdOff)
    ensures Valid(AdvanceDot(regs, status, s)) && AdvanceDot(regs, status, s).status.run != Disabled
  {
  }

  /** One dot is one tick of the counter. */
  lemma StepRefinesTick(s: PpuState, events: seq<PpuEvent>, quirk: bool)
    requires InPhase(s) && !EnabledWhileRunning(s, events)
    ensures var next := StepDot(s, events, quirk).nextState;
            InPhase(next) && ClockOf(next) == Tick(ClockOf(s), LcdOnAfter(s.regs, events))
  {
    StepKeepsValid(s, events, quirk);
    if s.status.run != Disabled {
      TickWraps(Position(s));
    }
  }

  lemma TickWraps(pos: int)
    requires 0 <= pos < PERIOD
    ensures (pos + 1) % PERIOD == if pos + 1 == PERIOD then 0 else pos + 1
  {
  }

  /** From every reachable state and for all events, line samples are latched exactly when an OAM scan begins, be it by
      a power-on, and dropped at power-off. */
  lemma SamplesLatchAtScanStart(s: PpuState, events: seq<PpuEvent>, quirk: bool)
    requires Valid(s)
    ensures var next := StepDot(s, events, quirk).nextState;
            next.sampled ==
            if next.status.run == Disabled then Sampling(0, false)
            else if next.status.phase == OamScan && (s.status.phase != OamScan || ForceLcdPower(true) in events)
            then Sampling(next.regs.scx % 8, next.regs.lcdc.winEnable)
            else s.sampled
  {
  }

  /** The phases of a visible line: 80 dots of OAM scan, 172 of transfer and 204 of HBlank. */
  lemma PhasesOfLine(s: PpuState)
    requires InPhase(s) && s.status.run != Disabled
    ensures s.status.phase == if s.ly >= 144 then VBlank
                              else if s.dot < 80 then OamScan
                              else if s.dot < 80 + 172 then Transfer
                              else HBlank
    ensures 0 <= s.ly < 154 && 0 <= s.dot < 80 + 172 + 204
  {
  }

  /** Over any run without a power-on while running, the machine shows the counter driven by the LCD trace. */
  lemma {:induction false} RunRefinesCounter(s: PpuState, inputs: seq<seq<PpuEvent>>, quirk: bool)
    requires InPhase(s) && NeverEnabledWhileRunning(s, inputs, quirk)
    ensures var end := Run(s, inputs, quirk);
            InPhase(end) && Shows(end, TickAll(ClockOf(s), LcdTrace(s, inputs, quirk)))
    decreases |inputs|
  {
    if inputs == [] {
      ShowsClock(s);
    } else {
      StepRefinesTick(s, inputs[0], quirk);
      RunRefinesCounter(StepDot(s, inputs[0], quirk).nextState, inputs[1..], quirk);
      var t := LcdTrace(s, inputs, quirk);
      assert t[1..] == LcdTrace(StepDot(s, inputs[0], quirk).nextState, inputs[1..], quirk);
    }
  }

  /** The same from reset: every state reachable without a power-on while running. */
  lemma ResetRunRefinesCounter(profile: ResetProfile, inputs: seq<seq<PpuEvent>>, quirk: bool)
    requires NeverEnabledWhileRunning(ResetState(profile), inputs, quirk)
    ensures var s := ResetState(profile);
            Shows(Run(s, inputs, quirk),
                  TickAll(if profile == SkipBoot then On(0, false) else Off, LcdTrace(s, inputs, quirk)))
  {
    ResetInPhase(profile);
    RunRefinesCounter(ResetState(profile), inputs, quirk);
  }

  lemma OneMore(pos: int, next: int, n: nat)
    requires 0 <= pos < PERIOD && next == (pos + 1) % PERIOD
    ensures (next + n) % PERIOD == (pos + (n + 1)) % PERIOD
    ensures pos + 1 < PERIOD && next + n < PERIOD <==> pos + (n + 1) < PERIOD
  {
    TickWraps(pos);
    AddMod(pos + 1, n, PERIOD);
  }

  lemma {:induction false} TicksClosedForm(c: Clock, lcdOn: seq<bool>)
    requires c.On? && c.pos < PERIOD && forall i :: 0 <= i < |lcdOn| ==> lcdOn[i]
    ensures TickAll(c, lcdOn) == On((c.pos + |lcdOn|) % PERIOD, c.warm && c.pos + |lcdOn| < PERIOD)
    decreases |lcdOn|
  {
    if lcdOn != [] {
      var next := Tick(c, lcdOn[0]);
      OneMore(c.pos, next.pos, |lcdOn| - 1);
      TicksClosedForm(next, lcdOn[1..]);
    }
  }

  lemma {:induction false} StaysOnTrace(s: PpuState, inputs: seq<seq<PpuEvent>>, quirk: bool)
    requires StaysOn(s, inputs, quirk)
    ensures forall i :: 0 <= i < |inputs| ==> LcdTrace(s, inputs, quirk)[i]
    decreases |inputs|
  {
    if inputs != [] {
      StaysOnTrace(StepDot(s, inputs[0], quirk).nextState, inputs[1..], quirk);
    }
  }

  /** While the LCD stays on, n dots move the counter by n, and the warm-up ends with the first frame. */
  lemma PoweredRunClosedForm(s: PpuState, inputs: seq<seq<PpuEvent>>, quirk: bool)
    requires InPhase(s) && s.status.run != Disabled
    requires NeverEnabledWhileRunning(s, inputs, quirk) && StaysOn(s, inputs, quirk)
    ensures Shows(Run(s, inputs, quirk),
                  On((Position(s) + |inputs|) % PERIOD,
                     s.status.run == WarmupBlankFrame && Position(s) + |inputs| < PERIOD))
  {
    RunRefinesCounter(s, inputs, quirk);
    StaysOnTrace(s, inputs, quirk);
    PositionParts(s.ly, s.dot);
    TicksClosedForm(ClockOf(s), LcdTrace(s, inputs, quirk));
  }

  // ---- a power-on while running ----

  /** The exact damage: the next state is a state of the counter form only in two dot ranges of the visible lines,
      and the counter moves by one only in the first of them. */
  lemma EnableWhileRunningExact(s: PpuState, events: seq<PpuEvent>, quirk: bool)
    requires InPhase(s) && EnabledWhileRunning(s, events)
    ensures var next := StepDot(s, events, quirk).nextState;
            && Valid(next)
            && (InPhase(next) <==> s.ly < VISIBLE_LINES && (s.dot < OAM_LAST_DOT || s.dot == LINE_LAST_DOT))
            && (InPhase(next) && Position(next) == (Position(s) + 1) % PERIOD
                <==> s.ly < VISIBLE_LINES && s.dot < OAM_LAST_DOT)
  {
    StepKeepsValid(s, events, quirk);
    PositionParts(s.ly, s.dot);
    var next := StepDot(s, events, quirk).nextState;
    PositionParts(next.ly, next.dot);
    TickWraps(Position(s));
  }

  /** A concrete run that leaves the counter form: 100 quiet dots after reset, then a power-on. */
  lemma EnableWhileRunningLosesPhase(start: PpuState, quiet: seq<seq<PpuEvent>>, last: seq<PpuEvent>)
    requires start == ResetState(SkipBoot)
    requires |quiet| == 100 && Quiet(quiet) && last == [ForceLcdPower(true)]
    ensures Valid(Run(start, quiet + [last], false)) && !InPhase(Run(start, quiet + [last], false))
  {
    ResetInPhase(SkipBoot);
    EnabledAfterQuiet(start, quiet, last);
  }

  predicate Quiet(inputs: seq<seq<PpuEvent>>) {
    forall i :: 0 <= i < |inputs| ==> inputs[i] == []
  }

  /** Quiet dots from the start of a frame and then a power-on: it hits the position the quiet ones count up to. */
  lemma EnabledAfterQuiet(start: PpuState, quiet: seq<seq<PpuEvent>>, last: seq<PpuEvent>)
    requires InPhase(start) && start.status.run != Disabled && Position(start) == 0
    requires |quiet| < PERIOD && Quiet(quiet) && last == [ForceLcdPower(true)]
    ensures var s, end := Run(start, quiet, false), Run(start, quiet + [last], false);
            && InPhase(s) && s.status.run != Disabled && Position(s) == |quiet|
            && end == StepDot(s, last, false).nextState && Valid(end)
            && (InPhase(end) <==> s.ly < VISIBLE_LINES && (s.dot < OAM_LAST_DOT || s.dot == LINE_LAST_DOT))
  {
    QuietRun(start, quiet);
    var s := Run(start, quiet, false);
    RunAppend(start, quiet, [last], false);
    assert [last][1..] == [];
    assert Run(s, [last], false) == Run(StepDot(s, last, false).nextState, [], false);
    EnableWhileRunningExact(s, last, false);
  }

  lemma QuietRun(s: PpuState, quiet: seq<seq<PpuEvent>>)
    requires InPhase(s) && s.status.run != Disabled && Position(s) + |quiet| < PERIOD && Quiet(quiet)
    ensures var end := Run(s, quiet, false);
            InPhase(end) && end.status.run != Disabled && Position(end) == Position(s) + |quiet|
  {
    QuietKeepsOn(s, quiet, false);
    assert InPhase(Run(s, quiet, false)) by { RunRefinesCounter(s, quiet, false); }
    PoweredRunClosedForm(s, quiet, false);
    ShownPosition(Run(s, quiet, false), Position(s) + |quiet|, s.status.run == WarmupBlankFrame);
  }

  lemma ShownPosition(s: PpuState, pos: nat, warm: bool)
    requires pos < PERIOD && Shows(s, On(pos % PERIOD, warm))
    ensures Position(s) == pos && s.status.run != Disabled
  {
  }

  lemma {:induction false} QuietKeepsOn(s: PpuState, inputs: seq<seq<PpuEvent>>, quirk: bool)
    requires Valid(s) && s.status.run != Disabled && Quiet(inputs)
    ensures NeverEnabledWhileRunning(s, inputs, quirk) && StaysOn(s, inputs, quirk)
    decreases |inputs|
  {
    if inputs != [] {
      StepKeepsValid(s, inputs[0], quirk);
      QuietKeepsOn(StepDot(s, inputs[0], quirk).nextState, inputs[1..], quirk);
    }
  }

  lemma {:induction false} RunAppend(s: PpuState, xs: seq<seq<PpuEvent>>, ys: seq<seq<PpuEvent>>, quirk: bool)
    ensures Run(s, xs + ys, quirk) == Run(Run(s, xs, quirk), ys, quirk)
    decreases |xs|
  {
    if xs == [] {
      assert xs + ys == ys;
    } else {
      assert (xs + ys)[1..] == xs[1..] + ys;
      RunAppend(StepDot(s, xs[0], quirk).nextState, xs[1..], ys, quirk);
    }
  }

  /** The invariant under an arbitrary event stream, from either reset. */
  lemma {:induction false} RunKeepsValid(s: PpuState, inputs: seq<seq<PpuEvent>>, quirk: bool)
    requires Valid(s)
    ensures Valid(Run(s, inputs, quirk))
    decreases |inputs|
  {
    if inputs != [] {
      StepKeepsValid(s, inputs[0], quirk);
      RunKeepsValid(StepDot(s, inputs[0], quirk).nextState, inputs[1..], quirk);
    }
  }

  lemma EveryReachableStateIsValid(profile: ResetProfile, inputs: seq<seq<PpuEvent>>, quirk: bool)
    ensures Valid(Run(ResetState(profile), inputs, quirk))
  {
    ResetInPhase(profile);
    RunKeepsValid(ResetState(profile), inputs, quirk);
  }

  /** How many powered dots a valid state is away from the counter form. */
  function DotsToRecovery(s: PpuState): nat
    requires Valid(s)
  {
    if InPhase(s) then 0
    else if s.ly < VISIBLE_LINES then DOTS_PER_LINE - s.dot
    else
      (TOTAL_LINES - s.ly) * DOTS_PER_LINE - s.dot +
      if s.status.phase == OamScan && s.dot > OAM_LAST_DOT then DOTS_PER_LINE else 0
  }

  /** Ten whole lines and the 376 dots left of an eleventh. */
  const WORST_RECOVERY := 4936

  lemma RecoveryBound(s: PpuState)
    requires Valid(s)
    ensures DotsToRecovery(s) <= WORST_RECOVERY < 11 * DOTS_PER_LINE
    ensures DotsToRecovery(s) == 0 <==> InPhase(s)
  {
    if s.status.run != Disabled {
      PositionParts(s.ly, s.dot);
    }
  }

  /** Each powered dot without a fresh power-on brings recovery one dot nearer. */
  lemma StepRecovers(s: PpuState, events: seq<PpuEvent>, quirk: bool)
    requires Valid(s) && !EnabledWhileRunning(s, events)
    ensures var next := StepDot(s, events, quirk).nextState;
            Valid(next) &&
            DotsToRecovery(next) ==
            if InPhase(s) || !LcdOnAfter(s.regs, events) then 0 else DotsToRecovery(s) - 1
  {
    StepKeepsValid(s, events, quirk);
    PositionParts(s.ly, s.dot);
    var next := StepDot(s, events, quirk).nextState;
    PositionParts(next.ly, next.dot);
    if InPhase(s) {
      StepRefinesTick(s, events, quirk);
    }
  }

  /** Self-stabilisation, exactly: a powered run is back in the counter form if and only if it is at least
      `DotsToRecovery` dots long. */
  lemma {:induction false} RecoveryIsExact(s: PpuState, inputs: seq<seq<PpuEvent>>, quirk: bool)
    requires Valid(s) && NeverEnabledWhileRunning(s, inputs, quirk)
    ensures Valid(Run(s, inputs, quirk))
    ensures |inputs| >= DotsToRecovery(s) ==> InPhase(Run(s, inputs, quirk))
    ensures StaysOn(s, inputs, quirk) ==> (InPhase(Run(s, inputs, quirk)) <==> |inputs| >= DotsToRecovery(s))
    decreases |inputs|
  {
    RecoveryBound(s);
    if inputs != [] {
      var next := StepDot(s, inputs[0], quirk).nextState;
      StepRecovers(s, inputs[0], quirk);
      RecoveryIsExact(next, inputs[1..], quirk);
    }
  }

  /** From any state an arbitrary event stream can reach, eleven lines without a power-on while running suffice. */
  lemma SelfStabilises(profile: ResetProfile, start: PpuState, before: seq<seq<PpuEvent>>, s: PpuState,
      after: seq<seq<PpuEvent>>, quirk: bool)
    requires start == ResetState(profile) && s == Run(start, before, quirk)
    requires NeverEnabledWhileRunning(s, after, quirk)
    requires |after| >= WORST_RECOVERY
    ensures InPhase(Run(s, after, quirk))
  {
    EveryReachableStateIsValid(profile, before, quirk);
    RecoveryBound(s);
    RecoveryIsExact(s, after, quirk);
  }

  /** The bound is met: after reset 65743 quiet dots lead to dot 79 of line 144, where a power-on needs all of it. A run
      left on from there is back in the counter form exactly if it is at least that long. */
  lemma WorstRecoveryIsReached(start: PpuState, quiet: seq<seq<PpuEvent>>, last: seq<PpuEvent>,
      after: seq<seq<PpuEvent>>)
    requires start == ResetState(SkipBoot)
    requires |quiet| == VBLANK_START + OAM_LAST_DOT == 65743 && Quiet(quiet) && last == [ForceLcdPower(true)]
    ensures var s := Run(start, quiet + [last], false);
            && Valid(s) && DotsToRecovery(s) == WORST_RECOVERY
            && (Quiet(after) ==> (InPhase(Run(s, after, false)) <==> |after| >= WORST_RECOVERY))
  {
    ResetInPhase(SkipBoot);
    EnabledAfterQuiet(start, quiet, last);
    EnabledInLine144(Run(start, quiet, false), last);
    if Quiet(after) {
      var end := Run(start, quiet + [last], false);
      QuietKeepsOn(end, after, false);
      RecoveryIsExact(end, after, false);
    }
  }

  lemma EnabledInLine144(s: PpuState, events: seq<PpuEvent>)
    requires InPhase(s) && s.status.run != Disabled && Position(s) == VBLANK_START + OAM_LAST_DOT
    requires events == [ForceLcdPower(true)]
    ensures var next := StepDot(s, events, false).nextState;
            Valid(next) && next.status.run != Disabled && DotsToRecovery(next) == WORST_RECOVERY
  {
    StepKeepsValid(s, events, false);
    EnableWhileRunningExact(s, events, false);
  }
}
