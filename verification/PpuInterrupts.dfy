/**
 Interrupt requests of the PPU model over whole runs: STAT requests are the rising
 edges of the STAT line, and both request streams have closed forms.
 */
module PpuInterrupts {
  import opened Arithmetic
  import opened Bits
  import opened Ppu
  import opened PpuCounter

  function StatRequests(s: PpuState, inputs: seq<seq<PpuEvent>>, quirk: bool): nat
    decreases |inputs|
  {
    if inputs == [] then 0
    else
      var out := StepDot(s, inputs[0], quirk);
      AsBit(out.statReq) + StatRequests(out.nextState, inputs[1..], quirk)
  }

  function VBlankRequests(s: PpuState, inputs: seq<seq<PpuEvent>>, quirk: bool): nat
    decreases |inputs|
  {
    if inputs == [] then 0
    else
      var out := StepDot(s, inputs[0], quirk);
      AsBit(out.vblankReq) + VBlankRequests(out.nextState, inputs[1..], quirk)
  }

  /** The STAT line after each dot of a run. */
  function LineTrace(s: PpuState, inputs: seq<seq<PpuEvent>>, quirk: bool): seq<bool>
    decreases |inputs|
  {
    if inputs == [] then []
    else
      var next := StepDot(s, inputs[0], quirk).nextState;
      [StatLine(next.regs, next.status, next.ly)] + LineTrace(next, inputs[1..], quirk)
  }

  function RisingEdges(level: bool, trace: seq<bool>): nat
    decreases |trace|
  {
    if trace == [] then 0 else AsBit(!level && trace[0]) + RisingEdges(trace[0], trace[1..])
  }

  /** A rise of the STAT line, or with the quirk a STAT write that leaves the LCD on. */
  lemma StatRequestIsEdge(s: PpuState, events: seq<PpuEvent>, quirk: bool)
    requires Valid(s)
    ensures var out := StepDot(s, events, quirk);
            Valid(out.nextState) &&
            (out.statReq <==>
              RisesIn(s, out.nextState) || (quirk && StatWriteSeen(events) && LcdOnAfter(s.regs, events)))
  {
    StepKeepsValid(s, events, quirk);
  }

  predicate RisesIn(s: PpuState, next: PpuState) {
    !StatLine(s.regs, s.status, s.ly) && StatLine(next.regs, next.status, next.ly)
  }

  /** Dots of a run with a STAT write, the LCD on after it, and no rise of the STAT line. */
  function WritesWithoutRise(s: PpuState, inputs: seq<seq<PpuEvent>>, quirk: bool): nat
    decreases |inputs|
  {
    if inputs == [] then 0
    else
      var next := StepDot(s, inputs[0], quirk).nextState;
      AsBit(StatWriteSeen(inputs[0]) && LcdOnAfter(s.regs, inputs[0]) && !RisesIn(s, next)) +
      WritesWithoutRise(next, inputs[1..], quirk)
  }

  /** Over every event stream, STAT requests are exactly the rising edges of the STAT line, and with the quirk on also
      the STAT writes on a running machine that make no edge. */
  lemma {:induction false} StatRequestsAreRisingEdges(s: PpuState, inputs: seq<seq<PpuEvent>>, quirk: bool)
    requires Valid(s)
    ensures StatRequests(s, inputs, quirk) ==
            RisingEdges(StatLine(s.regs, s.status, s.ly), LineTrace(s, inputs, quirk)) +
            if quirk then WritesWithoutRise(s, inputs, quirk) else 0
    decreases |inputs|
  {
    if inputs != [] {
      var next := StepDot(s, inputs[0], quirk).nextState;
      StatRequestIsEdge(s, inputs[0], quirk);
      StatRequestsAreRisingEdges(next, inputs[1..], quirk);
      var trace := LineTrace(s, inputs, quirk);
      assert trace[1..] == LineTrace(next, inputs[1..], quirk);
    }
  }

  // ---- VBlank ----

  /** How often the counter has entered line 144 after `pos` unreduced dots. */
  function VBlankEntries(pos: int): int {
    (pos + (PERIOD - VBLANK_START)) / PERIOD
  }

  /** From every reachable state and for all events, a VBlank request is an entry into line 144. */
  lemma VBlankRequestIsEntry(s: PpuState, events: seq<PpuEvent>, quirk: bool)
    requires Valid(s)
    ensures var out := StepDot(s, events, quirk);
            Valid(out.nextState) &&
            (out.vblankReq <==> s.ly == VISIBLE_LINES - 1 && out.nextState.ly == VISIBLE_LINES)
  {
    StepKeepsValid(s, events, quirk);
  }

  /** The line shown after each dot of a run. */
  function LyTrace(s: PpuState, inputs: seq<seq<PpuEvent>>, quirk: bool): seq<int>
    decreases |inputs|
  {
    if inputs == [] then []
    else
      var next := StepDot(s, inputs[0], quirk).nextState;
      [next.ly] + LyTrace(next, inputs[1..], quirk)
  }

  /** How often a trace goes from line 143 to line 144. */
  function VBlankLines(ly: int, trace: seq<int>): nat
    decreases |trace|
  {
    if trace == [] then 0
    else AsBit(ly == VISIBLE_LINES - 1 && trace[0] == VISIBLE_LINES) + VBlankLines(trace[0], trace[1..])
  }

  /** Over every event stream, VBlank requests are exactly the entries into line 144. */
  lemma {:induction false} VBlankRequestsAreLineEntries(s: PpuState, inputs: seq<seq<PpuEvent>>, quirk: bool)
    requires Valid(s)
    ensures VBlankRequests(s, inputs, quirk) == VBlankLines(s.ly, LyTrace(s, inputs, quirk))
    decreases |inputs|
  {
    if inputs != [] {
      var next := StepDot(s, inputs[0], quirk).nextState;
      VBlankRequestIsEntry(s, inputs[0], quirk);
      VBlankRequestsAreLineEntries(next, inputs[1..], quirk);
      assert LyTrace(s, inputs, quirk)[1..] == LyTrace(next, inputs[1..], quirk);
    }
  }

  lemma PoweredDot(s: PpuState, events: seq<PpuEvent>, quirk: bool)
    requires InPhase(s) && s.status.run != Disabled
    requires !EnabledWhileRunning(s, events) && LcdOnAfter(s.regs, events)
    ensures var out := StepDot(s, events, quirk);
            InPhase(out.nextState) && out.nextState.status.run != Disabled &&
            Position(out.nextState) == (Position(s) + 1) % PERIOD &&
            (out.vblankReq <==> Position(s) + 1 == VBLANK_START)
  {
    StepRefinesTick(s, events, quirk);
    VBlankRequestIsEntry(s, events, quirk);
    var next := StepDot(s, events, quirk).nextState;
    EntryPosition(s.ly, s.dot, next.ly, next.dot);
  }

  /** One dot enters line 144 exactly when the position becomes its start. */
  lemma EntryPosition(ly: int, dot: int, nextLy: int, nextDot: int)
    requires 0 <= ly < TOTAL_LINES && 0 <= dot < DOTS_PER_LINE
    requires 0 <= nextLy < TOTAL_LINES && 0 <= nextDot < DOTS_PER_LINE
    requires nextLy * DOTS_PER_LINE + nextDot == (ly * DOTS_PER_LINE + dot + 1) % PERIOD
    ensures ly == VISIBLE_LINES - 1 && nextLy == VISIBLE_LINES <==> ly * DOTS_PER_LINE + dot + 1 == VBLANK_START
  {
    TickWraps(ly * DOTS_PER_LINE + dot);
  }

  /** Entries into line 144 during the n dots after `pos`. */
  function EntriesAfter(pos: int, n: nat): nat
    decreases n
  {
    if n == 0 then 0 else AsBit((pos + 1) % PERIOD == VBLANK_START) + EntriesAfter(pos + 1, n - 1)
  }

  lemma {:induction false} EntriesClosedForm(pos: int, n: nat)
    ensures EntriesAfter(pos, n) == VBlankEntries(pos + n) - VBlankEntries(pos)
    decreases n
  {
    if n > 0 {
      EntriesClosedForm(pos + 1, n - 1);
      EntryStep(pos);
    }
  }

  lemma EntryStep(pos: int)
    ensures VBlankEntries(pos + 1) == VBlankEntries(pos) + AsBit((pos + 1) % PERIOD == VBLANK_START)
  {
    var a := pos + 1 + (PERIOD - VBLANK_START);
    assert (a - 1) / PERIOD == if a % PERIOD == 0 then a / PERIOD - 1 else a / PERIOD;
    assert a % PERIOD == 0 <==> (pos + 1) % PERIOD == VBLANK_START;
  }

  lemma NextPosition(pos: int, here: int, next: int)
    requires 0 <= here < PERIOD && pos % PERIOD == here && next == (here + 1) % PERIOD
    ensures (pos + 1) % PERIOD == next
    ensures next == VBLANK_START <==> here + 1 == VBLANK_START
  {
    AddMod(pos, 1, PERIOD);
    TickWraps(here);
  }

  lemma {:induction false} VBlankRequestsAreEntries(s: PpuState, inputs: seq<seq<PpuEvent>>, quirk: bool, pos: int)
    requires InPhase(s) && s.status.run != Disabled && pos % PERIOD == Position(s)
    requires NeverEnabledWhileRunning(s, inputs, quirk) && StaysOn(s, inputs, quirk)
    ensures VBlankRequests(s, inputs, quirk) == EntriesAfter(pos, |inputs|)
    decreases |inputs|
  {
    if inputs != [] {
      var next := StepDot(s, inputs[0], quirk).nextState;
      PoweredDot(s, inputs[0], quirk);
      PositionParts(s.ly, s.dot);
      NextPosition(pos, Position(s), Position(next));
      VBlankRequestsAreEntries(next, inputs[1..], quirk, pos + 1);
    }
  }

  /** Over n powered dots from position p there are as many VBlank requests as crossings of the start of line 144. */
  lemma VBlankRequestsClosedForm(s: PpuState, inputs: seq<seq<PpuEvent>>, quirk: bool)
    requires InPhase(s) && s.status.run != Disabled
    requires NeverEnabledWhileRunning(s, inputs, quirk) && StaysOn(s, inputs, quirk)
    ensures VBlankRequests(s, inputs, quirk) ==
            VBlankEntries(Position(s) + |inputs|) - VBlankEntries(Position(s))
  {
    PositionParts(s.ly, s.dot);
    VBlankRequestsAreEntries(s, inputs, quirk, Position(s));
    EntriesClosedForm(Position(s), |inputs|);
  }

  // ---- STAT with fixed sources ----

  /** The STAT line in one dot of one line. */
  predicate LevelIn(sel: StatSelect, lyc: int, ly: int, dot: int) {
    || (sel.lycSel && ly == lyc)
    || (ly >= VISIBLE_LINES && sel.mode1Sel)
    || (ly < VISIBLE_LINES && dot <= OAM_LAST_DOT && sel.mode2Sel)
    || (ly < VISIBLE_LINES && dot > TRANSFER_LAST_DOT && sel.mode0Sel)
  }

  /** The STAT line at one position of the frame. */
  predicate LevelOf(sel: StatSelect, lyc: int, pos: int) {
    LevelIn(sel, lyc, pos / DOTS_PER_LINE, pos % DOTS_PER_LINE)
  }

  /** The STAT line as a function of an unreduced dot count. */
  predicate LevelAt(sel: StatSelect, lyc: int, pos: int) {
    LevelOf(sel, lyc, pos % PERIOD)
  }

  predicate RisesAt(sel: StatSelect, lyc: int, pos: int) {
    LevelAt(sel, lyc, pos) && !LevelAt(sel, lyc, pos - 1)
  }

  /** Rises over the n dots after `pos`. */
  function RisesAfter(sel: StatSelect, lyc: int, pos: int, n: nat): nat
    decreases n, lyc
  {
    if n == 0 then 0 else AsBit(RisesAt(sel, lyc, pos + 1)) + RisesAfter(sel, lyc, pos + 1, n - 1)
  }

  /** The run keeps the LCD on, never powers it on again, and keeps the STAT sources and LYC as they are. */
  predicate SourcesHeld(s: PpuState, inputs: seq<seq<PpuEvent>>, sel: StatSelect, lyc: int)
    decreases |inputs|
  {
    inputs == [] ||
    (var next := StepDot(s, inputs[0], false).nextState;
     !EnabledWhileRunning(s, inputs[0]) && LcdOnAfter(s.regs, inputs[0]) &&
     next.regs.statSel == sel && next.regs.lyc == lyc && SourcesHeld(next, inputs[1..], sel, lyc))
  }

  lemma LevelOfDot(sel: StatSelect, lyc: int, ly: int, dot: int)
    requires 0 <= ly < TOTAL_LINES && 0 <= dot < DOTS_PER_LINE
    ensures LevelAt(sel, lyc, ly * DOTS_PER_LINE + dot) == LevelIn(sel, lyc, ly, dot)
  {
    PositionParts(ly, dot);
  }

  lemma LevelWraps(sel: StatSelect, lyc: int, pos: int)
    ensures LevelAt(sel, lyc, pos + PERIOD) == LevelAt(sel, lyc, pos)
  {
    assert (pos + PERIOD) % PERIOD == pos % PERIOD;
  }

  lemma LineOfState(s: PpuState)
    requires InPhase(s) && s.status.run != Disabled
    ensures StatLine(s.regs, s.status, s.ly) == LevelIn(s.regs.statSel, s.regs.lyc, s.ly, s.dot)
    ensures LevelAt(s.regs.statSel, s.regs.lyc, Position(s)) == LevelIn(s.regs.statSel, s.regs.lyc, s.ly, s.dot)
  {
    PositionParts(s.ly, s.dot);
    LevelOfDot(s.regs.statSel, s.regs.lyc, s.ly, s.dot);
  }

  lemma {:induction false} StatRequestsAreRises(s: PpuState, inputs: seq<seq<PpuEvent>>, pos: int)
    requires InPhase(s) && s.status.run != Disabled && pos % PERIOD == Position(s)
    requires SourcesHeld(s, inputs, s.regs.statSel, s.regs.lyc)
    ensures StatRequests(s, inputs, false) == RisesAfter(s.regs.statSel, s.regs.lyc, pos, |inputs|)
    decreases |inputs|
  {
    if inputs != [] {
      var next := StepDot(s, inputs[0], false).nextState;
      PoweredDot(s, inputs[0], false);
      StatRequestIsEdge(s, inputs[0], false);
      LineOfState(s);
      LineOfState(next);
      SameLevel(s.regs.statSel, s.regs.lyc, pos, Position(s), Position(next));
      StatRequestsAreRises(next, inputs[1..], pos + 1);
    }
  }

  lemma SameLevel(sel: StatSelect, lyc: int, pos: int, here: int, next: int)
    requires 0 <= here < PERIOD && pos % PERIOD == here && next == (here + 1) % PERIOD
    ensures (pos + 1) % PERIOD == next
    ensures LevelAt(sel, lyc, pos) == LevelAt(sel, lyc, here)
    ensures LevelAt(sel, lyc, pos + 1) == LevelAt(sel, lyc, next)
  {
    NextPosition(pos, here, next);
    assert here % PERIOD == here && next % PERIOD == next;
  }

  lemma {:induction false} RisesSplit(sel: StatSelect, lyc: int, pos: int, m: nat, n: nat)
    ensures RisesAfter(sel, lyc, pos, m + n) == RisesAfter(sel, lyc, pos, m) + RisesAfter(sel, lyc, pos + m, n)
    decreases m
  {
    if m > 0 {
      RisesSplit(sel, lyc, pos + 1, m - 1, n);
    }
  }

  /** A whole period has the same number of rises wherever it starts. */
  lemma {:induction false} PeriodFromAnywhere(sel: StatSelect, lyc: int, pos: int)
    requires -1 <= pos
    ensures RisesAfter(sel, lyc, pos, PERIOD) == RisesAfter(sel, lyc, -1, PERIOD)
    decreases pos
  {
    if pos > -1 {
      RisesSplit(sel, lyc, pos - 1, 1, PERIOD);
      RisesSplit(sel, lyc, pos - 1, PERIOD, 1);
      LevelWraps(sel, lyc, pos);
      LevelWraps(sel, lyc, pos - 1);
      OneRise(sel, lyc, pos - 1);
      OneRise(sel, lyc, pos - 1 + PERIOD);
      PeriodFromAnywhere(sel, lyc, pos - 1);
    }
  }

  lemma OneRise(sel: StatSelect, lyc: int, pos: int)
    ensures RisesAfter(sel, lyc, pos, 1) == AsBit(RisesAt(sel, lyc, pos + 1))
  {
    assert RisesAfter(sel, lyc, pos + 1, 0) == 0;
  }

  // Within a line the STAT line can only rise at dot 0 and at the start of HBlank.

  const HBLANK_DOT := TRANSFER_LAST_DOT + 1

  lemma {:induction false} FlatStretch(sel: StatSelect, lyc: int, ly: int, dot: int, n: nat)
    requires 0 <= ly < TOTAL_LINES && 0 <= dot && dot + n < DOTS_PER_LINE
    requires HBLANK_DOT <= dot || dot + n < HBLANK_DOT
    ensures RisesAfter(sel, lyc, ly * DOTS_PER_LINE + dot, n) == 0
    decreases n
  {
    if n > 0 {
      LevelOfDot(sel, lyc, ly, dot);
      LevelOfDot(sel, lyc, ly, dot + 1);
      FlatStretch(sel, lyc, ly, dot + 1, n - 1);
    }
  }

  function LineBefore(ly: int): int {
    if ly == 0 then TOTAL_LINES - 1 else ly - 1
  }

  /** Rises in one line: at its first dot, and where HBlank starts. */
  function LineRises(sel: StatSelect, lyc: int, ly: int): nat {
    AsBit(LevelIn(sel, lyc, ly, 0) && !LevelIn(sel, lyc, LineBefore(ly), LINE_LAST_DOT)) +
    AsBit(LevelIn(sel, lyc, ly, HBLANK_DOT) && !LevelIn(sel, lyc, ly, TRANSFER_LAST_DOT))
  }

  lemma StartOfLine(sel: StatSelect, lyc: int, ly: int)
    requires 0 <= ly < TOTAL_LINES
    ensures LevelAt(sel, lyc, ly * DOTS_PER_LINE - 1) == LevelIn(sel, lyc, LineBefore(ly), LINE_LAST_DOT)
    ensures LevelAt(sel, lyc, ly * DOTS_PER_LINE) == LevelIn(sel, lyc, ly, 0)
  {
    LevelOfDot(sel, lyc, LineBefore(ly), LINE_LAST_DOT);
    LevelOfDot(sel, lyc, ly, 0);
    LevelWraps(sel, lyc, -1);
  }

  lemma RisesInLine(sel: StatSelect, lyc: int, ly: int)
    requires 0 <= ly < TOTAL_LINES
    ensures RisesAfter(sel, lyc, ly * DOTS_PER_LINE - 1, DOTS_PER_LINE) == LineRises(sel, lyc, ly)
  {
    var start := ly * DOTS_PER_LINE;
    RisesSplit(sel, lyc, start - 1, 1, LINE_LAST_DOT);
    OneRise(sel, lyc, start - 1);
    StartOfLine(sel, lyc, ly);
    RisesSplit(sel, lyc, start, TRANSFER_LAST_DOT, LINE_LAST_DOT - TRANSFER_LAST_DOT);
    FlatStretch(sel, lyc, ly, 0, TRANSFER_LAST_DOT);
    RisesSplit(sel, lyc, start + TRANSFER_LAST_DOT, 1, LINE_LAST_DOT - HBLANK_DOT);
    OneRise(sel, lyc, start + TRANSFER_LAST_DOT);
    LevelOfDot(sel, lyc, ly, TRANSFER_LAST_DOT);
    LevelOfDot(sel, lyc, ly, HBLANK_DOT);
    FlatStretch(sel, lyc, ly, HBLANK_DOT, LINE_LAST_DOT - HBLANK_DOT);
  }

  function RisesInLines(sel: StatSelect, lyc: int, lines: nat): nat
    decreases lines, lyc
  {
    if lines == 0 then 0 else RisesInLines(sel, lyc, lines - 1) + LineRises(sel, lyc, lines - 1)
  }

  lemma {:induction false} FrameIsItsLines(sel: StatSelect, lyc: int, lines: nat)
    requires lines <= TOTAL_LINES
    ensures RisesAfter(sel, lyc, -1, lines * DOTS_PER_LINE) == RisesInLines(sel, lyc, lines)
  {
    if lines > 0 {
      FrameIsItsLines(sel, lyc, lines - 1);
      RisesInLine(sel, lyc, lines - 1);
      RisesSplit(sel, lyc, -1, (lines - 1) * DOTS_PER_LINE, DOTS_PER_LINE);
    }
  }

  // ---- the number of requests in one frame, in closed form ----

  /** Rises of the first `lines` lines with the LYC source off: one for each OAM scan or VBlank not preceded by a
      high line, and one for each HBlank. */
  function ModeRises(sel: StatSelect, lines: nat): int {
    AsBit(lines > 0 && sel.mode2Sel && !sel.mode1Sel) +
    (if sel.mode2Sel && !sel.mode0Sel && lines > 0
     then (if lines <= VISIBLE_LINES then lines - 1 else VISIBLE_LINES - 1) else 0) +
    AsBit(lines > VISIBLE_LINES && sel.mode1Sel && !sel.mode0Sel) +
    (if sel.mode0Sel then (if lines <= VISIBLE_LINES then lines else VISIBLE_LINES) else 0)
  }

  predicate LastHigh(sel: StatSelect, ly: int) {
    if ly < VISIBLE_LINES then sel.mode0Sel else sel.mode1Sel
  }

  predicate FirstHigh(sel: StatSelect, ly: int) {
    if ly < VISIBLE_LINES then sel.mode2Sel else sel.mode1Sel
  }

  /** What the matching line itself adds: it rises at its start unless the line before ended high, and its own mode
      rises are swallowed. */
  function MatchingLineDelta(sel: StatSelect, lyc: int): int {
    var before := LastHigh(sel, LineBefore(lyc));
    AsBit(!before) - AsBit(FirstHigh(sel, lyc) && !before) - AsBit(lyc < VISIBLE_LINES && sel.mode0Sel)
  }

  /** The line after the match starts from a high line, so a rise at its start is swallowed. */
  function FollowingLineDelta(sel: StatSelect, lyc: int): int {
    0 - AsBit(FirstHigh(sel, NextLine(lyc)) && !LastHigh(sel, lyc))
  }

  /** STAT requests in one frame, for every choice of sources and every LYC, blocking on the shared line included. */
  function StatRequestsPerFrame(sel: StatSelect, lyc: int): int {
    ModeRises(sel, TOTAL_LINES) +
    if sel.lycSel && 0 <= lyc < TOTAL_LINES
    then MatchingLineDelta(sel, lyc) + FollowingLineDelta(sel, lyc)
    else 0
  }

  /** Rises of the first `lines` lines, the LYC source included. */
  function LinesRises(sel: StatSelect, lyc: int, lines: nat): int {
    ModeRises(sel, lines) +
    (if sel.lycSel && 0 <= lyc < lines then MatchingLineDelta(sel, lyc) else 0) +
    (if sel.lycSel && 0 <= lyc < TOTAL_LINES && NextLine(lyc) < lines then FollowingLineDelta(sel, lyc) else 0)
  }

  lemma OneLine(sel: StatSelect, lyc: int, ly: nat)
    requires ly < TOTAL_LINES
    ensures LinesRises(sel, lyc, ly + 1) == LinesRises(sel, lyc, ly) + LineRises(sel, lyc, ly)
  {
  }

  lemma {:induction false} LinesClosedForm(sel: StatSelect, lyc: int, lines: nat)
    requires lines <= TOTAL_LINES
    ensures RisesInLines(sel, lyc, lines) == LinesRises(sel, lyc, lines)
  {
    if lines > 0 {
      LinesClosedForm(sel, lyc, lines - 1);
      OneLine(sel, lyc, lines - 1);
    }
  }

  lemma RisesPerFrame(sel: StatSelect, lyc: int, pos: int, n: nat)
    requires -1 <= pos && n == PERIOD
    ensures RisesAfter(sel, lyc, pos, n) == StatRequestsPerFrame(sel, lyc)
  {
    PeriodFromAnywhere(sel, lyc, pos);
    FrameIsItsLines(sel, lyc, TOTAL_LINES);
    LinesClosedForm(sel, lyc, TOTAL_LINES);
  }

  /** Any frame-long run with the STAT sources and LYC held, from any point of the frame, makes exactly this many
      requests. */
  lemma StatRequestsInOneFrame(s: PpuState, inputs: seq<seq<PpuEvent>>)
    requires InPhase(s) && s.status.run != Disabled
    requires |inputs| == PERIOD && SourcesHeld(s, inputs, s.regs.statSel, s.regs.lyc)
    ensures StatRequests(s, inputs, false) == StatRequestsPerFrame(s.regs.statSel, s.regs.lyc)
  {
    var sel, lyc := s.regs.statSel, s.regs.lyc;
    PositionParts(s.ly, s.dot);
    StatRequestsAreRises(s, inputs, Position(s));
    RisesPerFrame(sel, lyc, Position(s), |inputs|);
  }

  /** Dots without events hold the sources, so the count above applies to any powered state left alone for a frame. */
  lemma {:induction false} QuietRunHoldsSources(s: PpuState, inputs: seq<seq<PpuEvent>>)
    requires Valid(s) && s.status.run != Disabled && Quiet(inputs)
    ensures SourcesHeld(s, inputs, s.regs.statSel, s.regs.lyc)
    decreases |inputs|
  {
    if inputs != [] {
      StepKeepsValid(s, inputs[0], false);
      QuietRunHoldsSources(StepDot(s, inputs[0], false).nextState, inputs[1..]);
    }
  }

  /** The four single sources. */
  lemma SingleSourceCounts(lyc: int)
    ensures StatRequestsPerFrame(StatSelect(true, false, false, false), lyc) == if 0 <= lyc < TOTAL_LINES then 1 else 0
    ensures StatRequestsPerFrame(StatSelect(false, true, false, false), lyc) == VISIBLE_LINES
    ensures StatRequestsPerFrame(StatSelect(false, false, true, false), lyc) == 1
    ensures StatRequestsPerFrame(StatSelect(false, false, false, true), lyc) == VISIBLE_LINES
  {
  }
}
