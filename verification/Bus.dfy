/**
 The I/O part of the playback bus model: the falling-edge timer with its delayed
 reload, the serial transfer countdown, the joypad edge and the interrupt flags.
 One cycle is one CPU machine cycle, four system-counter steps long.
 */
module Bus {
  import opened Arithmetic
  import opened Bits

  const SB_ADDR := 0xFF01
  const SC_ADDR := 0xFF02
  const DIV_ADDR := 0xFF04
  const TIMA_ADDR := 0xFF05
  const TMA_ADDR := 0xFF06
  const TAC_ADDR := 0xFF07
  const IF_ADDR := 0xFF0F
  const IE_ADDR := 0xFFFF

  /** The five interrupt flags, from bit 0 up; a flag register is the set of its raised flags. */
  datatype Irq = VBlank | Stat | Timer | Serial | Joypad

  /** The eight buttons, one per mask bit. */
  datatype Button = Right | Left | Up | Down | A | B | Select | Start

  /** The three SC bits the model keeps: 7, 1 and 0. */
  datatype SerialControl = SerialControl(transfer: bool, fast: bool, internalClock: bool) {
    predicate Active() {
      transfer && internalClock
    }
  }

  /** A CPU write seen in this cycle, if any. */
  datatype Access = NoWrite | Write(addr: nat, data: byte) {
    predicate To(a: nat) {
      Write? && addr == a
    }
  }

  /** The registers, as one value. */
  datatype State = State(
    ie: set<Irq>, ifReg: set<Irq>, buttons: set<Button>, prevButtons: set<Button>, sysCounter: nat,
    tima: byte, tma: byte, tac: byte, serialSb: byte, serialSc: SerialControl, serialLeft: nat,
    sampledEnabled: bool, sampledBit: bool, overflowDelay: nat)

  function IrqsOf(value: byte): set<Irq> {
    (if BitOf(value, 0) then {VBlank} else {}) + (if BitOf(value, 1) then {Stat} else {}) +
    (if BitOf(value, 2) then {Timer} else {}) + (if BitOf(value, 3) then {Serial} else {}) +
    (if BitOf(value, 4) then {Joypad} else {})
  }

  function SerialControlOf(value: byte): SerialControl {
    SerialControl(BitOf(value, 7), BitOf(value, 1), BitOf(value, 0))
  }

  predicate TacEnabled(tac: byte) {
    BitOf(tac, 2)
  }

  /** An arithmetic shift right. */
  function Shift(counter: int, n: nat): int
    decreases n, counter
  {
    if n == 0 then counter else Shift(counter / 2, n - 1)
  }

  function SelectedBit(tac: byte): nat {
    if tac % 4 == 0 then 9 else if tac % 4 == 1 then 3 else if tac % 4 == 2 then 5 else 7
  }

  predicate TimerBit(counter: int, tac: byte) {
    Shift(counter, SelectedBit(tac)) % 2 == 1
  }

  function Acknowledged(valid: bool, bit: nat): set<Irq> {
    if !valid then {}
    else if bit == 0 then {VBlank} else if bit == 1 then {Stat} else if bit == 2 then {Timer}
    else if bit == 3 then {Serial} else if bit == 4 then {Joypad} else {}
  }

  // ---- specification of one cycle ----

  function NextTac(s: State, w: Access): byte {
    if w.To(TAC_ADDR) then w.data % 8 else s.tac
  }

  function NextTma(s: State, w: Access): byte {
    if w.To(TMA_ADDR) then w.data else s.tma
  }

  function EffectiveCounter(s: State, w: Access): nat {
    if w.To(DIV_ADDR) then 0 else s.sysCounter
  }

  /** The sampled bit falls while the timer is enabled on both sides of the cycle. */
  predicate TimerTick(s: State, w: Access) {
    s.sampledEnabled && TacEnabled(NextTac(s, w)) && s.sampledBit && !TimerBit(EffectiveCounter(s, w), NextTac(s, w))
  }

  /** TIMA wraps in this cycle. */
  predicate Overflows(s: State, w: Access) {
    !w.To(TIMA_ADDR) && s.overflowDelay == 0 && TimerTick(s, w) && s.tima == 0xFF
  }

  /** TIMA is reloaded from TMA in this cycle. */
  predicate Reloads(s: State, w: Access) {
    !w.To(TIMA_ADDR) && s.overflowDelay == 1
  }

  /** A TIMA write drops a pending reload. */
  predicate Cancels(s: State, w: Access) {
    w.To(TIMA_ADDR) && s.overflowDelay > 0
  }

  predicate CompletesTransfer(s: State) {
    s.serialSc.Active() && s.serialLeft == 1
  }

  function FreshPressed(s: State): set<Button> {
    s.buttons - s.prevButtons
  }

  function TimaAfter(s: State, w: Access, tick: bool): byte {
    if w.To(TIMA_ADDR) then w.data
    else if s.overflowDelay == 1 then NextTma(s, w)
    else if s.overflowDelay == 0 && tick then (s.tima + 1) % 256
    else s.tima
  }

  function DelayAfter(s: State, w: Access, tick: bool): nat {
    if w.To(TIMA_ADDR) then 0
    else if s.overflowDelay > 0 then s.overflowDelay - 1
    else if tick && s.tima == 0xFF then 4
    else 0
  }

  function CounterAfter(counter: nat, w: Access): nat {
    if w.To(DIV_ADDR) then 4 else (counter + 4) % TWO_32
  }

  /** What one cycle does to every register. */
  function Advance(s: State, w: Access, ifSetBits: set<Irq>, ack: set<Irq>): State {
    State(
      if w.To(IE_ADDR) then IrqsOf(w.data) else s.ie,
      (if w.To(IF_ADDR) then IrqsOf(w.data) else s.ifReg) - ack + ifSetBits,
      s.buttons,
      s.buttons,
      CounterAfter(s.sysCounter, w),
      TimaAfter(s, w, TimerTick(s, w)),
      NextTma(s, w),
      NextTac(s, w),
      if CompletesTransfer(s) then 0xFF else s.serialSb,
      if CompletesTransfer(s) then s.serialSc.(transfer := false) else s.serialSc,
      if s.serialSc.Active() && s.serialLeft > 0 then s.serialLeft - 1 else s.serialLeft,
      TacEnabled(NextTac(s, w)),
      TimerBit(EffectiveCounter(s, w), NextTac(s, w)),
      DelayAfter(s, w, TimerTick(s, w)))
  }

  /** The interrupt flags a cycle raises. */
  function IfSetBits(s: State, w: Access): set<Irq> {
    (if Reloads(s, w) then {Timer} else {}) +
    (if CompletesTransfer(s) then {Serial} else {}) +
    (if FreshPressed(s) != {} then {Joypad} else {})
  }

  /** The serial writes, which the driver applies before it predicts and advances. */
  function ApplySerialWrite(s: State, w: Access): State {
    if w.To(SB_ADDR) then s.(serialSb := w.data)
    else if w.To(SC_ADDR) then
      var control := SerialControlOf(w.data);
      s.(serialSc := control, serialLeft := if control.Active() then 8 else s.serialLeft)
    else s
  }

  class BusModel {
    var ie: set<Irq>
    var ifReg: set<Irq>
    var currentButtons: set<Button>
    var prevButtons: set<Button>
    var sysCounter: nat
    var tima: byte
    var tma: byte
    var tac: byte
    var serialSb: byte
    var serialSc: SerialControl
    var serialCyclesLeft: nat
    var sampledTimerEnabled: bool
    var sampledTimerBit: bool
    var overflowDelay: nat

    ghost function View(): State
      reads this
    {
      State(ie, ifReg, currentButtons, prevButtons, sysCounter, tima, tma, tac, serialSb, serialSc,
            serialCyclesLeft, sampledTimerEnabled, sampledTimerBit, overflowDelay)
    }

    constructor ()
      ensures View() == State({}, {}, {}, {}, 0, 0, 0, 0, 0xFF, SerialControl(false, false, false), 0, false, false, 0)
    {
      ie, ifReg, currentButtons, prevButtons := {}, {}, {}, {};
      sysCounter, tima, tma, tac := 0, 0, 0, 0;
      serialSb, serialSc, serialCyclesLeft := 0xFF, SerialControl(false, false, false), 0;
      sampledTimerEnabled, sampledTimerBit, overflowDelay := false, false, 0;
    }

    method SetButtons(mask: set<Button>)
      modifies this`currentButtons
      ensures View() == old(View()).(buttons := mask)
    {
      currentButtons := mask;
    }

    method WriteSerial(addr: nat, data: byte)
      modifies this`serialSb, this`serialSc, this`serialCyclesLeft
      ensures View() == ApplySerialWrite(old(View()), Write(addr, data))
    {
      if addr == SB_ADDR {
        serialSb := data;
      } else if addr == SC_ADDR {
        serialSc := SerialControlOf(data);
        if serialSc.Active() {
          serialCyclesLeft := 8;
        }
      }
    }

    /** The predictor: it reads the registers before the cycle and changes nothing. */
    method NextIfSetBits(w: Access) returns (bits: set<Irq>)
      ensures bits == IfSetBits(View(), w)
    {
      var effective := if w.To(DIV_ADDR) then 0 else sysCounter;
      var nextTac := if w.To(TAC_ADDR) then w.data % 8 else tac;
      var timerTick := sampledTimerEnabled && TacEnabled(nextTac) && sampledTimerBit && !TimerBit(effective, nextTac);
      var nextTimerIrq := false;
      if w.To(TIMA_ADDR) {
        nextTimerIrq := false;
      } else if overflowDelay == 1 {
        nextTimerIrq := true;
      } else if overflowDelay == 0 && timerTick && tima == 0xFF {
        nextTimerIrq := false;
      }
      var nextSerialIrq := serialCyclesLeft == 1 && serialSc.Active();
      var freshPressed := currentButtons - prevButtons;
      bits := (if nextTimerIrq then {Timer} else {}) +
              (if nextSerialIrq then {Serial} else {}) +
              (if freshPressed != {} then {Joypad} else {});
    }

    /** TIMA and the reload delay after this cycle. */
    method CountTima(w: Access, timerTick: bool, nextTma: byte) returns (nextTima: byte, nextDelay: nat)
      requires nextTma == NextTma(View(), w)
      ensures nextTima == TimaAfter(View(), w, timerTick)
      ensures nextDelay == DelayAfter(View(), w, timerTick)
    {
      nextTima, nextDelay := tima, 0;
      if w.To(TIMA_ADDR) {
        nextTima := w.data;
      } else if overflowDelay == 1 {
        nextTima := nextTma;
      } else if overflowDelay > 1 {
        nextDelay := overflowDelay - 1;
      } else if timerTick {
        if tima == 0xFF {
          nextTima, nextDelay := 0, 4;
        } else {
          nextTima := tima + 1;
        }
      }
    }

    /** The timer's part of the stepper. */
    method AdvanceTimer(w: Access)
      modifies this`tima, this`tma, this`tac, this`overflowDelay
      modifies this`sysCounter, this`sampledTimerEnabled, this`sampledTimerBit
      ensures tima == TimaAfter(old(View()), w, TimerTick(old(View()), w))
      ensures overflowDelay == DelayAfter(old(View()), w, TimerTick(old(View()), w))
      ensures tma == NextTma(old(View()), w) && tac == NextTac(old(View()), w)
      ensures sampledTimerEnabled == TacEnabled(tac)
      ensures sampledTimerBit == TimerBit(EffectiveCounter(old(View()), w), tac)
      ensures sysCounter == CounterAfter(old(sysCounter), w)
    {
      ghost var was := View();
      var effective := if w.To(DIV_ADDR) then 0 else sysCounter;
      var nextTma := if w.To(TMA_ADDR) then w.data else tma;
      var nextTac := if w.To(TAC_ADDR) then w.data % 8 else tac;
      var nextEnabled := TacEnabled(nextTac);
      var nextBit := TimerBit(effective, nextTac);
      var timerTick := sampledTimerEnabled && nextEnabled && sampledTimerBit && !nextBit;

      assert timerTick == TimerTick(was, w);
      var nextTima, nextDelay := CountTima(w, timerTick, nextTma);
      tima, tma, tac, overflowDelay := nextTima, nextTma, nextTac, nextDelay;
      sampledTimerEnabled, sampledTimerBit := nextEnabled, nextBit;
      sysCounter := CounterAfter(sysCounter, w);
    }

    /** The serial port's part of the stepper. */
    method AdvanceSerial()
      modifies this`serialSb, this`serialSc, this`serialCyclesLeft
      ensures serialSb == if CompletesTransfer(old(View())) then 0xFF else old(serialSb)
      ensures serialSc == if CompletesTransfer(old(View())) then old(serialSc).(transfer := false) else old(serialSc)
      ensures serialCyclesLeft ==
              if old(serialSc).Active() && old(serialCyclesLeft) > 0 then old(serialCyclesLeft) - 1
              else old(serialCyclesLeft)
    {
      if serialCyclesLeft > 0 && serialSc.Active() {
        serialCyclesLeft := serialCyclesLeft - 1;
        if serialCyclesLeft == 0 {
          serialSb, serialSc := 0xFF, serialSc.(transfer := false);
        }
      }
    }

    /** The stepper. */
    method AdvanceCycle(w: Access, ifSetBits: set<Irq>, ackValid: bool, ackBit: nat)
      modifies this
      ensures View() == Advance(old(View()), w, ifSetBits, Acknowledged(ackValid, ackBit))
    {
      AdvanceTimer(w);
      AdvanceSerial();
      AdvanceFlags(w, ifSetBits, ackValid, ackBit);
    }

    /** The interrupt registers' part of the stepper, and the buttons it compares with in the next cycle. */
    method AdvanceFlags(w: Access, ifSetBits: set<Irq>, ackValid: bool, ackBit: nat)
      modifies this`prevButtons, this`ie, this`ifReg
      ensures prevButtons == currentButtons
      ensures ie == if w.To(IE_ADDR) then IrqsOf(w.data) else old(ie)
      ensures ifReg ==
              (if w.To(IF_ADDR) then IrqsOf(w.data) else old(ifReg)) - Acknowledged(ackValid, ackBit) + ifSetBits
    {
      prevButtons := currentButtons;
      var ack := Acknowledged(ackValid, ackBit);
      ie := if w.To(IE_ADDR) then IrqsOf(w.data) else ie;
      var cpuWrittenIf := if w.To(IF_ADDR) then IrqsOf(w.data) else ifReg;
      ifReg := cpuWrittenIf - ack + ifSetBits;
    }

    /** One cycle as the driver runs it: serial write, predict, merge the PPU's bits, advance. */
    method Cycle(i: Input)
      modifies this
      ensures View() == Step(old(View()), i)
    {
      SetButtons(i.buttons);
      if i.access.Write? {
        WriteSerial(i.access.addr, i.access.data);
      }
      var bits := NextIfSetBits(i.access);
      AdvanceCycle(i.access, bits + i.ppuBits, i.ackValid, i.ackBit);
    }
  }

  // ---- runs ----

  /** Everything from outside in one cycle: the buttons held, the CPU's write, the PPU's interrupt bits, the
      acknowledgement. */
  datatype Input = Input(buttons: set<Button>, access: Access, ppuBits: set<Irq>, ackValid: bool, ackBit: nat)

  /** The registers when the cycle is predicted and advanced. */
  function Loaded(s: State, i: Input): State {
    ApplySerialWrite(s.(buttons := i.buttons), i.access)
  }

  function Step(s: State, i: Input): State {
    var t := Loaded(s, i);
    Advance(t, i.access, IfSetBits(t, i.access) + i.ppuBits, Acknowledged(i.ackValid, i.ackBit))
  }

  function Run(s: State, inputs: seq<Input>): State
    decreases |inputs|
  {
    if inputs == [] then s else Run(Step(s, inputs[0]), inputs[1..])
  }

  /** True of power-on, and kept by every cycle. */
  predicate Invariant(s: State) {
    && s.sysCounter < TWO_32
    && s.overflowDelay <= 4 && (s.overflowDelay > 0 ==> s.tima == 0)
    && s.serialLeft <= 8
    && s.tac < 8
  }

  /** What the sampled bits are after at least one cycle: the timer as the last cycle saw it. */
  predicate Synced(s: State) {
    && s.sampledEnabled == TacEnabled(s.tac)
    && s.sampledBit == TimerBit((s.sysCounter - 4) % TWO_32, s.tac)
  }

  lemma {:induction false} RunKeepsInvariant(s: State, inputs: seq<Input>)
    requires Invariant(s)
    ensures Invariant(Run(s, inputs))
    ensures inputs != [] || Synced(s) ==> Synced(Run(s, inputs))
    decreases |inputs|
  {
    if inputs != [] {
      StepKeepsInvariant(s, inputs[0]);
      RunKeepsInvariant(Step(s, inputs[0]), inputs[1..]);
    }
  }

  lemma StepKeepsInvariant(s: State, i: Input)
    requires Invariant(s)
    ensures Invariant(Step(s, i)) && Synced(Step(s, i))
  {
    assert Invariant(Loaded(s, i));
    StepSyncs(s, i);
  }

  /** One cycle syncs the sampled bits whatever they were, across DIV and TAC writes. */
  lemma StepSyncs(s: State, i: Input)
    requires s.sysCounter < TWO_32
    ensures Synced(Step(s, i))
  {
    var t := Loaded(s, i);
    CounterComesBack(t.sysCounter, i.access);
    assert Step(s, i).sysCounter == CounterAfter(t.sysCounter, i.access);
  }

  lemma CounterComesBack(counter: nat, w: Access)
    requires counter < TWO_32
    ensures (CounterAfter(counter, w) - 4) % TWO_32 == if w.To(DIV_ADDR) then 0 else counter
  {
    AddMod(counter + 4, -4, TWO_32);
  }

  /** A DIV write ticks exactly when the timer is enabled and the last sampled bit was high. */
  lemma DivWriteTicks(s: State, i: Input)
    requires Synced(s) && i.access.To(DIV_ADDR)
    ensures TimerTick(Loaded(s, i), i.access) <==> TacEnabled(s.tac) && TimerBit((s.sysCounter - 4) % TWO_32, s.tac)
  {
    ShiftOfZero(SelectedBit(s.tac));
  }

  lemma {:induction false} ShiftOfZero(n: nat)
    ensures Shift(0, n) == 0
  {
    if n > 0 {
      ShiftOfZero(n - 1);
    }
  }

  // ---- how often the timer ticks ----

  predicate TimerUntouched(inputs: seq<Input>) {
    forall k :: 0 <= k < |inputs| ==> !inputs[k].access.To(DIV_ADDR) && !inputs[k].access.To(TAC_ADDR)
  }

  function Ticks(s: State, inputs: seq<Input>): nat
    decreases |inputs|
  {
    if inputs == [] then 0
    else CycleTicks(s, inputs[0]) + Ticks(Step(s, inputs[0]), inputs[1..])
  }

  function CycleTicks(s: State, i: Input): nat {
    AsBit(TimerTick(Loaded(s, i), i.access))
  }

  /** Whole timer periods below an unreduced counter value: a period is twice the weight of the selected bit. */
  function Periods(counter: int, tac: byte): int {
    counter / Pow2(SelectedBit(tac) + 1)
  }

  lemma {:induction false} ShiftDivides(counter: int, n: nat)
    ensures Shift(counter, n) == counter / Pow2(n)
    decreases n
  {
    if n > 0 {
      ShiftDivides(counter / 2, n - 1);
      HalveThenDivide(counter, Pow2(n - 1));
    }
  }

  lemma {:induction false} ShiftOfMultiple(counter: int, q: int, n: nat, m: nat)
    requires n <= m
    ensures Shift(counter + Pow2(m) * q, n) == Shift(counter, n) + Pow2(m - n) * q
    decreases n
  {
    if n > 0 {
      HalfOfSum(counter, Pow2(m - 1), q);
      ShiftOfMultiple(counter / 2, q, n - 1, m - 1);
    }
  }

  lemma HalfOfSum(x: int, p: int, q: int)
    ensures (x + 2 * p * q) / 2 == x / 2 + p * q
  {
    assert 2 * p * q == 2 * (p * q);
  }

  /** The 32-bit wrap does not reach the timer bits. */
  lemma BitUnderWrap(counter: int, tac: byte)
    ensures TimerBit(counter % TWO_32, tac) == TimerBit(counter, tac)
  {
    var q, r, k := counter / TWO_32, counter % TWO_32, SelectedBit(tac);
    Pow2Of32();
    ShiftOfMultiple(r, q, k, 32);
    EvenMultiple(Pow2(31 - k), q, Shift(r, k));
  }

  lemma EvenMultiple(p: int, q: int, x: int)
    ensures (x + 2 * p * q) % 2 == x % 2
  {
    assert 2 * p * q == 2 * (p * q);
  }

  /** Counting up by one, a bit falls exactly when everything above it changes. */
  lemma {:induction false} FallByOne(x: int, n: nat)
    ensures Shift(x, n + 1) == Shift(x - 1, n + 1) +
            AsBit(Shift(x - 1, n) % 2 == 1 && Shift(x, n) % 2 != 1)
    decreases n
  {
    if n > 0 {
      if x % 2 == 0 {
        assert (x - 1) / 2 == x / 2 - 1;
        FallByOne(x / 2, n - 1);
      } else {
        assert (x - 1) / 2 == x / 2;
      }
    } else {
      assert Shift(x, 1) == Shift(x / 2, 0) && Shift(x - 1, 1) == Shift((x - 1) / 2, 0);
    }
  }

  /** The selected bit falls over four counter steps exactly when a whole period ends there. */
  lemma FallIsPeriodEnd(counter: int, tac: byte)
    ensures Periods(counter, tac) == Periods(counter - 4, tac) +
            AsBit(TimerBit(counter - 4, tac) && !TimerBit(counter, tac))
  {
    var k := SelectedBit(tac);
    TwoShifts(counter, k);
    TwoShifts(counter - 4, k);
    TwoShifts(counter, k + 1);
    TwoShifts(counter - 4, k + 1);
    assert (counter - 4) / 2 / 2 == counter / 2 / 2 - 1;
    FallByOne(counter / 2 / 2, k - 2);
    ShiftDivides(counter, k + 1);
    ShiftDivides(counter - 4, k + 1);
  }

  lemma TwoShifts(counter: int, n: nat)
    requires n >= 2
    ensures Shift(counter, n) == Shift(counter / 2 / 2, n - 2)
  {
    assert Shift(counter, n) == Shift(counter / 2, n - 1);
  }

  /** With the timer enabled and no DIV or TAC write, the ticks of n cycles are the timer periods completed from the
      counter's value before the first sample to its value at the last, neither of them reduced: exact over the
      32-bit wrap. */
  lemma {:induction false} TicksClosedForm(s: State, inputs: seq<Input>, tac: byte, counter: int, first: int, last: int)
    requires Synced(s) && TacEnabled(s.tac) && s.tac == tac && s.sysCounter == counter % TWO_32
    requires TimerUntouched(inputs) && first == counter - 4 && last == counter + 4 * |inputs| - 4
    ensures Ticks(s, inputs) == Periods(last, tac) - Periods(first, tac)
    decreases |inputs|
  {
    if inputs != [] {
      TickOfCycle(s, inputs[0], counter);
      TicksClosedForm(Step(s, inputs[0]), inputs[1..], tac, counter + 4, counter, last);
    }
  }

  lemma TickOfCycle(s: State, i: Input, counter: int)
    requires Synced(s) && TacEnabled(s.tac) && s.sysCounter == counter % TWO_32
    requires !i.access.To(DIV_ADDR) && !i.access.To(TAC_ADDR)
    ensures var next := Step(s, i);
            Synced(next) && next.tac == s.tac && next.sysCounter == (counter + 4) % TWO_32 &&
            CycleTicks(s, i) == Periods(counter, s.tac) - Periods(counter - 4, s.tac)
  {
    CounterSteps(counter);
    BitUnderWrap(counter, s.tac);
    BitUnderWrap(counter - 4, s.tac);
    FallIsPeriodEnd(counter, s.tac);
  }

  lemma CounterSteps(counter: int)
    ensures (counter % TWO_32 - 4) % TWO_32 == (counter - 4) % TWO_32
    ensures (counter % TWO_32 + 4) % TWO_32 == (counter + 4) % TWO_32
    ensures ((counter + 4) % TWO_32 - 4) % TWO_32 == counter % TWO_32
  {
    AddMod(counter, -4, TWO_32);
    AddMod(counter, 4, TWO_32);
    AddMod(counter + 4, -4, TWO_32);
  }

  // ---- overflow, reload and the interrupt flags ----

  /** The predictor announces exactly what the stepper goes on to do, whatever is acknowledged or merged in:
      a pending reload runs out unwritten, a transfer ends, a button goes down that was up in the last cycle. */
  lemma PredictorAgreesWithStepper(s: State, w: Access, bits: set<Irq>, ack: set<Irq>)
    requires Invariant(s)
    ensures var next := Advance(s, w, bits, ack);
            && (Timer in IfSetBits(s, w) <==>
                s.overflowDelay > 0 && next.overflowDelay == 0 && !w.To(TIMA_ADDR))
            && (Timer in IfSetBits(s, w) ==> next.tima == next.tma)
            && (Serial in IfSetBits(s, w) <==> s.serialSc.transfer && !next.serialSc.transfer)
            && (Joypad in IfSetBits(s, w) <==> exists b :: b in next.prevButtons && b !in s.prevButtons)
            && VBlank !in IfSetBits(s, w) && Stat !in IfSetBits(s, w)
  {
    if FreshPressed(s) != {} {
      var b :| b in FreshPressed(s);
      assert b in s.buttons && b !in s.prevButtons;
    }
    assert forall b :: b in s.buttons && b !in s.prevButtons ==> b in FreshPressed(s);
  }

  /** A flag is raised in a cycle by the bus or by the PPU. */
  predicate Raised(s: State, i: Input, f: Irq) {
    f in IfSetBits(Loaded(s, i), i.access) || f in i.ppuBits
  }

  /** The cycle leaves the flag set, whatever it was: it is raised, or written to IF and not acknowledged. */
  predicate SetsFlag(s: State, i: Input, f: Irq) {
    Raised(s, i, f) ||
    (i.access.To(IF_ADDR) && f in IrqsOf(i.access.data) && f !in Acknowledged(i.ackValid, i.ackBit))
  }

  /** The cycle leaves the flag clear: it is not raised, and acknowledged or written away. */
  predicate ClearsFlag(s: State, i: Input, f: Irq) {
    !Raised(s, i, f) &&
    (f in Acknowledged(i.ackValid, i.ackBit) || (i.access.To(IF_ADDR) && f !in IrqsOf(i.access.data)))
  }

  lemma FlagOfCycle(s: State, i: Input, f: Irq)
    ensures f in Step(s, i).ifReg <==> SetsFlag(s, i, f) || (f in s.ifReg && !ClearsFlag(s, i, f))
  {
  }

  predicate NeverCleared(s: State, inputs: seq<Input>, f: Irq)
    decreases |inputs|
  {
    inputs == [] || (!ClearsFlag(s, inputs[0], f) && NeverCleared(Step(s, inputs[0]), inputs[1..], f))
  }

  /** Cycle k sets the flag and no later one clears it. */
  predicate LastsFrom(s: State, inputs: seq<Input>, f: Irq, k: int) {
    0 <= k < |inputs| && SetsFlag(Run(s, inputs[..k]), inputs[k], f) &&
    NeverCleared(Run(s, inputs[..k + 1]), inputs[k + 1..], f)
  }

  lemma LastsFromLater(s: State, inputs: seq<Input>, f: Irq, k: nat)
    requires inputs != [] && k < |inputs| - 1
    ensures LastsFrom(s, inputs, f, k + 1) == LastsFrom(Step(s, inputs[0]), inputs[1..], f, k)
  {
    assert inputs[..k + 1][1..] == inputs[1..][..k] && inputs[..k + 2][1..] == inputs[1..][..k + 1];
    assert inputs[k + 2..] == inputs[1..][k + 1..];
  }

  /** The interrupt flags over every run: a flag is set at the end exactly if some cycle set it, or it was set at the
      start, and no later cycle cleared it. So no raised flag is lost before it is acknowledged or written away. */
  lemma {:induction false} FlagIsSetIff(s: State, inputs: seq<Input>, f: Irq)
    ensures f in Run(s, inputs).ifReg <==>
            (f in s.ifReg && NeverCleared(s, inputs, f)) || exists k :: LastsFrom(s, inputs, f, k)
    decreases |inputs|
  {
    if inputs != [] {
      var next, rest := Step(s, inputs[0]), inputs[1..];
      FlagIsSetIff(next, rest, f);
      FlagOfCycle(s, inputs[0], f);
      FirstCycleLasts(s, inputs, f);
      LastsFirstOrLater(s, inputs, f, next, rest);
    }
  }

  lemma LastsFirstOrLater(s: State, inputs: seq<Input>, f: Irq, next: State, rest: seq<Input>)
    requires inputs != [] && next == Step(s, inputs[0]) && rest == inputs[1..]
    ensures (exists k :: LastsFrom(s, inputs, f, k)) <==>
            LastsFrom(s, inputs, f, 0) || exists k :: LastsFrom(next, rest, f, k)
  {
    if k :| LastsFrom(next, rest, f, k) {
      LastsFromLater(s, inputs, f, k);
    }
    if k :| LastsFrom(s, inputs, f, k) && k > 0 {
      LastsFromLater(s, inputs, f, k - 1);
    }
  }

  lemma FirstCycleLasts(s: State, inputs: seq<Input>, f: Irq)
    requires inputs != []
    ensures LastsFrom(s, inputs, f, 0) <==>
            SetsFlag(s, inputs[0], f) && NeverCleared(Step(s, inputs[0]), inputs[1..], f)
  {
    assert inputs[..0] == [] && inputs[..1] == [inputs[0]] && [inputs[0]][1..] == [];
    assert Run(s, inputs[..1]) == Step(s, inputs[0]);
  }

  /** In particular, a set flag stays set through any run that neither acknowledges it nor writes IF. */
  lemma {:induction false} SetFlagStays(s: State, inputs: seq<Input>, f: Irq)
    requires f in s.ifReg
    requires forall k :: 0 <= k < |inputs| ==>
               !inputs[k].access.To(IF_ADDR) && f !in Acknowledged(inputs[k].ackValid, inputs[k].ackBit)
    ensures f in Run(s, inputs).ifReg
    decreases |inputs|
  {
    if inputs != [] {
      FlagOfCycle(s, inputs[0], f);
      SetFlagStays(Step(s, inputs[0]), inputs[1..], f);
    }
  }

  /** Cycles of a run in which TIMA wraps, is reloaded, or has its pending reload cancelled. */
  function OverflowCount(s: State, inputs: seq<Input>): nat
    decreases |inputs|
  {
    if inputs == [] then 0
    else
      AsBit(Overflows(Loaded(s, inputs[0]), inputs[0].access)) +
      OverflowCount(Step(s, inputs[0]), inputs[1..])
  }

  function CancelCount(s: State, inputs: seq<Input>): nat
    decreases |inputs|
  {
    if inputs == [] then 0
    else AsBit(Cancels(s, inputs[0].access)) + CancelCount(Step(s, inputs[0]), inputs[1..])
  }

  /** Timer interrupts announced over a run. */
  function TimerIrqCount(s: State, inputs: seq<Input>): nat
    decreases |inputs|
  {
    if inputs == [] then 0
    else
      AsBit(Timer in IfSetBits(Loaded(s, inputs[0]), inputs[0].access)) +
      TimerIrqCount(Step(s, inputs[0]), inputs[1..])
  }

  function Pending(s: State): nat {
    AsBit(s.overflowDelay > 0)
  }

  /** Conservation over every run: each overflow ends as one timer interrupt or one cancellation, or is still
      pending. */
  lemma {:induction false} OverflowsAreAccountedFor(s: State, inputs: seq<Input>)
    requires Invariant(s)
    ensures Pending(s) + OverflowCount(s, inputs) ==
            TimerIrqCount(s, inputs) + CancelCount(s, inputs) + Pending(Run(s, inputs))
    decreases |inputs|
  {
    if inputs != [] {
      StepKeepsInvariant(s, inputs[0]);
      OverflowsAreAccountedFor(Step(s, inputs[0]), inputs[1..]);
    }
  }

  predicate TimaUnwritten(inputs: seq<Input>) {
    forall k :: 0 <= k < |inputs| ==> !inputs[k].access.To(TIMA_ADDR)
  }

  /** While a reload is pending and TIMA is not written, TIMA stays 0 and no timer interrupt is announced. */
  lemma {:induction false} HeldWhilePending(s: State, inputs: seq<Input>)
    requires Invariant(s) && s.overflowDelay > |inputs| && TimaUnwritten(inputs)
    ensures var end := Run(s, inputs);
            Invariant(end) && end.tima == 0 && end.overflowDelay == s.overflowDelay - |inputs|
    ensures TimerIrqCount(s, inputs) == 0
    decreases |inputs|
  {
    if inputs != [] {
      StepKeepsInvariant(s, inputs[0]);
      HeldWhilePending(Step(s, inputs[0]), inputs[1..]);
    }
  }

  /** After an overflow, unless TIMA is written: 0 in TIMA and silence for three cycles, and in the fourth TMA (as it
      is after that cycle's own write) in TIMA, the interrupt announced, its flag set, and nothing left pending. */
  lemma OverflowReloadsFourCyclesLater(s: State, first: Input, wait: seq<Input>, last: Input)
    requires Invariant(s) && Overflows(Loaded(s, first), first.access)
    requires |wait| == 3 && TimaUnwritten(wait) && !last.access.To(TIMA_ADDR)
    ensures var a := Step(s, first);
            var b := Run(a, wait);
            var end := Step(b, last);
            && Timer !in IfSetBits(Loaded(s, first), first.access)
            && (forall k :: 0 <= k <= 3 ==> Run(a, wait[..k]).tima == 0)
            && TimerIrqCount(a, wait) == 0
            && Timer in IfSetBits(Loaded(b, last), last.access) && Timer in end.ifReg
            && end.tima == end.tma && end.overflowDelay == 0
  {
    var a := Step(s, first);
    StepKeepsInvariant(s, first);
    forall k | 0 <= k <= 3
      ensures Run(a, wait[..k]).tima == 0
    {
      HeldWhilePending(a, wait[..k]);
    }
    HeldWhilePending(a, wait);
  }

  /** A TIMA write while a reload is pending keeps its value, announces no timer interrupt and leaves none pending. */
  lemma TimaWriteCancels(s: State, i: Input)
    requires Invariant(s) && Cancels(s, i.access)
    ensures var next := Step(s, i);
            next.tima == i.access.data && next.overflowDelay == 0 && Timer !in IfSetBits(Loaded(s, i), i.access)
  {
  }

  // ---- how far apart the timer interrupts are ----

  /** Cycles from one tick to the next. */
  function TickCycles(tac: byte): nat {
    if tac % 4 == 0 then 256 else if tac % 4 == 1 then 4 else if tac % 4 == 2 then 16 else 64
  }

  /** Cycles from one reload to the next. At the fastest rate the cycle of the reload is a tick's too, and that tick is
      lost, so TIMA needs one more. */
  function ReloadDistance(tac: byte, tma: byte): nat {
    TickCycles(tac) * (256 - tma) + if tac % 4 == 1 then 4 else 0
  }

  predicate TimerRegistersUnwritten(inputs: seq<Input>) {
    forall k :: 0 <= k < |inputs| ==> TimerLeftAlone(inputs[k].access)
  }

  predicate TimerLeftAlone(w: Access) {
    !w.To(DIV_ADDR) && !w.To(TIMA_ADDR) && !w.To(TMA_ADDR) && !w.To(TAC_ADDR)
  }

  lemma TickCyclesArePeriods(tac: byte)
    ensures Pow2(SelectedBit(tac) + 1) == 4 * TickCycles(tac)
  {
    assert Pow2(4) == 16 && Pow2(6) == 64 && Pow2(8) == 256 && Pow2(10) == 1024;
  }

  /** Periods completed j cycles after the counter passed a multiple of the period. */
  lemma PeriodsAfter(tac: byte, q: int, r: int, j: nat)
    requires 0 <= r < 4
    ensures Periods(4 * TickCycles(tac) * q + r + 4 * j, tac) == q + j / TickCycles(tac)
  {
    var p := TickCycles(tac);
    TickCyclesArePeriods(tac);
    CountedPeriods(p, q, r, j, j / p, j % p);
  }

  lemma CountedPeriods(p: nat, q: int, r: int, j: nat, d: nat, m: nat)
    requires p > 0 && 0 <= r < 4 && m < p && j == d * p + m
    ensures (4 * p * q + r + 4 * j) / (4 * p) == q + d
  {
    assert 4 * p * q + r + 4 * j == (4 * m + r) + (4 * p) * (q + d) by {
      assert (4 * p) * (q + d) == 4 * p * q + 4 * (p * d);
    }
    Divides(4 * p * q + r + 4 * j, 4 * p, q + d, 4 * m + r);
  }

  /** The state j cycles after an overflow, before the next: the reload pending for four cycles, then TIMA counting up
      from TMA. The counter has passed q periods at the overflow, and r is its remainder then. */
  predicate InTimerPhase(s: State, tac: byte, tma: byte, q: int, r: int, j: nat) {
    CounterInPhase(s, tac, q, r, j) && TimaInPhase(s, tac, tma, j)
  }

  predicate CounterInPhase(s: State, tac: byte, q: int, r: int, j: nat) {
    && Invariant(s) && Synced(s) && s.tac == tac && TacEnabled(tac) && 0 <= r < 4
    && s.sysCounter == (4 * TickCycles(tac) * q + r + 4 * (j + 1)) % TWO_32
  }

  predicate TimaInPhase(s: State, tac: byte, tma: byte, j: nat) {
    && s.tma == tma
    && s.overflowDelay == (if j < 4 then 4 - j else 0)
    && s.tima == if j < 4 then 0 else tma + j / TickCycles(tac) - 4 / TickCycles(tac)
  }

  /** Ticks in a phase. */
  lemma TickInPhase(s: State, i: Input, tac: byte, q: int, r: int, j: nat)
    requires CounterInPhase(s, tac, q, r, j) && TimerLeftAlone(i.access)
    ensures CounterInPhase(Step(s, i), tac, q, r, j + 1)
    ensures TimerTick(Loaded(s, i), i.access) <==> (j + 1) / TickCycles(tac) == j / TickCycles(tac) + 1
  {
    var counter := 4 * TickCycles(tac) * q + r + 4 * (j + 1);
    StepKeepsInvariant(s, i);
    TickOfCycle(s, i, counter);
    PeriodsAfter(tac, q, r, j + 1);
    PeriodsAfter(tac, q, r, j);
    assert counter - 4 == 4 * TickCycles(tac) * q + r + 4 * j;
    NextTick(TickCycles(tac), j);
  }

  /** TIMA and its reload in a phase. */
  lemma TimaAdvances(s: State, i: Input, tac: byte, tma: byte, j: nat, d: nat, next: State)
    requires TimaInPhase(s, tac, tma, j) && j < d == ReloadDistance(tac, tma) && TimerLeftAlone(i.access)
    requires TimerTick(Loaded(s, i), i.access) <==> (j + 1) / TickCycles(tac) == j / TickCycles(tac) + 1
    requires next == Step(s, i)
    ensures TimaInPhase(next, tac, tma, if j + 1 == d then 0 else j + 1)
    ensures Timer in IfSetBits(Loaded(s, i), i.access) <==> j == 3
  {
    PhaseCounts(TickCycles(tac), j, d, tma, tac);
  }

  lemma NextTick(p: nat, j: nat)
    requires p == 4 || p == 16 || p == 64 || p == 256
    ensures (j + 1) / p == j / p || (j + 1) / p == j / p + 1
  {
  }

  /** One quiet cycle on: the phase advances, or with the next overflow starts again. */
  lemma PhaseAdvances(s: State, i: Input, tac: byte, tma: byte, q: int, r: int, j: nat, d: nat)
    requires InTimerPhase(s, tac, tma, q, r, j) && j < d == ReloadDistance(tac, tma) && TimerLeftAlone(i.access)
    ensures var next := Step(s, i);
            if j + 1 < d then InTimerPhase(next, tac, tma, q, r, j + 1)
            else InTimerPhase(next, tac, tma, q + d / TickCycles(tac), r, 0)
    ensures Timer in IfSetBits(Loaded(s, i), i.access) <==> j == 3
  {
    var next := Step(s, i);
    TickInPhase(s, i, tac, q, r, j);
    TimaAdvances(s, i, tac, tma, j, d, next);
    if j + 1 == d {
      WholePeriods(TickCycles(tac), q, d, tac, tma);
    }
  }

  /** At an overflow the counter has just passed a whole number of periods. */
  lemma OverflowPassesPeriod(s: State, i: Input) returns (q: int, r: int)
    requires Invariant(s) && Synced(s) && TimerLeftAlone(i.access) && Overflows(Loaded(s, i), i.access)
    ensures 0 <= r < 4 && s.sysCounter == 4 * TickCycles(s.tac) * q + r
  {
    assert s.sysCounter % TWO_32 == s.sysCounter;
    TickOfCycle(s, i, s.sysCounter);
    assert TimerTick(Loaded(s, i), i.access);
    q, r := PassedPeriod(s.sysCounter, s.tac);
  }

  lemma PassedPeriod(counter: int, tac: byte) returns (q: int, r: int)
    requires Periods(counter, tac) - Periods(counter - 4, tac) == 1
    ensures 0 <= r < 4 && counter == 4 * TickCycles(tac) * q + r
  {
    var p := 4 * TickCycles(tac);
    TickCyclesArePeriods(tac);
    JustPassed(counter, p);
    q, r := counter / p, counter % p;
  }

  /** The cycle of an overflow starts a phase. */
  lemma OverflowStartsPhase(s: State, i: Input) returns (q: int, r: int)
    requires Invariant(s) && Synced(s) && TimerLeftAlone(i.access) && Overflows(Loaded(s, i), i.access)
    ensures InTimerPhase(Step(s, i), s.tac, s.tma, q, r, 0)
  {
    q, r := OverflowPassesPeriod(s, i);
    StepKeepsInvariant(s, i);
  }

  lemma JustPassed(counter: int, p: nat)
    requires p > 0 && counter / p != (counter - 4) / p
    ensures counter % p < 4
  {
    if counter % p >= 4 {
      Divides(counter - 4, p, counter / p, counter % p - 4);
    }
  }

  lemma {:induction false} RunLast(s: State, inputs: seq<Input>)
    requires inputs != []
    ensures Run(s, inputs) == Step(Run(s, inputs[..|inputs| - 1]), inputs[|inputs| - 1])
    decreases |inputs|
  {
    if |inputs| > 1 {
      RunLast(Step(s, inputs[0]), inputs[1..]);
      assert inputs[1..][..|inputs| - 2] == inputs[..|inputs| - 1][1..];
    } else {
      assert inputs[1..] == [] && inputs[..0] == [];
    }
  }

  lemma PhaseGoesOn(s: State, i: Input, next: State, tac: byte, tma: byte, q: int, r: int, d: nat, j: nat, j': nat)
    returns (q': int)
    requires InTimerPhase(s, tac, tma, q, r, j) && j < d == ReloadDistance(tac, tma) && TimerLeftAlone(i.access)
    requires next == Step(s, i) && j' == if j + 1 == d then 0 else j + 1
    ensures InTimerPhase(next, tac, tma, q', r, j')
  {
    PhaseAdvances(s, i, tac, tma, q, r, j, d);
    q' := if j + 1 == d then q + d / TickCycles(tac) else q;
  }

  lemma RunPrefix(s: State, inputs: seq<Input>, k: nat, before: State, after: State)
    requires k < |inputs| && before == Run(s, inputs[..k]) && after == Run(s, inputs[..k + 1])
    ensures after == Step(before, inputs[k])
    ensures k == 0 ==> before == s
  {
    RunLast(s, inputs[..k + 1]);
    assert inputs[..k + 1][..k] == inputs[..k];
    if k == 0 {
      assert inputs[..0] == [];
    }
  }

  lemma {:induction false} PhaseOfCycle(s: State, inputs: seq<Input>, k: nat, d: nat, j: nat, after: State)
    returns (q: int, r: int)
    requires Invariant(s) && Synced(s) && k < |inputs| && TimerRegistersUnwritten(inputs)
    requires Overflows(Loaded(s, inputs[0]), inputs[0].access)
    requires 0 < d == ReloadDistance(s.tac, s.tma) && j == k % d && after == Run(s, inputs[..k + 1])
    ensures InTimerPhase(after, s.tac, s.tma, q, r, j)
    decreases k
  {
    var before := Run(s, inputs[..k]);
    RunPrefix(s, inputs, k, before, after);
    if k == 0 {
      q, r := OverflowStartsPhase(s, inputs[0]);
      Divides(k, d, 0, 0);
    } else {
      var i := (k - 1) % d;
      q, r := PhaseOfCycle(s, inputs, k - 1, d, i, before);
      NextRemainder(k, d);
      q := PhaseGoesOn(before, inputs[k], after, s.tac, s.tma, q, r, d, i, j);
    }
  }

  lemma NextRemainder(k: nat, d: nat)
    requires k > 0 && d > 0
    ensures k % d == if (k - 1) % d + 1 == d then 0 else (k - 1) % d + 1
  {
    var q, r := (k - 1) / d, (k - 1) % d;
    if r + 1 == d {
      assert k == 0 + d * (q + 1);
      Divides(k, d, q + 1, 0);
    } else {
      Divides(k, d, q, r + 1);
    }
  }

  lemma DistanceIsLong(tac: byte, tma: byte)
    ensures ReloadDistance(tac, tma) >= 8
  {
  }

  /** Left alone after an overflow, the timer interrupts strictly periodically: in the fourth cycle after it, and then
      every `ReloadDistance` cycles, for every TAC and TMA. */
  lemma InterruptsArePeriodic(s: State, inputs: seq<Input>, k: nat, d: nat)
    requires Invariant(s) && Synced(s) && k < |inputs| && TimerRegistersUnwritten(inputs)
    requires Overflows(Loaded(s, inputs[0]), inputs[0].access) && d == ReloadDistance(s.tac, s.tma)
    ensures d > 0
    ensures var before := Run(s, inputs[..k]);
            Timer in IfSetBits(Loaded(before, inputs[k]), inputs[k].access) <==> k % d == 4
  {
    DistanceIsLong(s.tac, s.tma);
    if k == 0 {
      assert inputs[..0] == [];
    } else {
      NextRemainder(k, d);
      InterruptInPhase(s, inputs, k, d, (k - 1) % d, Run(s, inputs[..k]));
    }
  }

  lemma InterruptInPhase(s: State, inputs: seq<Input>, k: nat, d: nat, j: nat, before: State)
    requires Invariant(s) && Synced(s) && 0 < k < |inputs| && TimerRegistersUnwritten(inputs)
    requires Overflows(Loaded(s, inputs[0]), inputs[0].access)
    requires 0 < d == ReloadDistance(s.tac, s.tma) && j == (k - 1) % d && before == Run(s, inputs[..k])
    ensures Timer in IfSetBits(Loaded(before, inputs[k]), inputs[k].access) <==> j == 3
  {
    var q, r := PhaseOfCycle(s, inputs, k - 1, d, j, before);
    PhaseAdvances(before, inputs[k], s.tac, s.tma, q, r, j, d);
  }

  /** Where the ticks of a phase fall, and which of them is the last. */
  lemma PhaseCounts(p: nat, j: nat, d: nat, tma: byte, tac: byte)
    requires p == TickCycles(tac) && d == ReloadDistance(tac, tma) && j < d
    ensures (j + 1) / p == j / p || (j + 1) / p == j / p + 1
    ensures j >= 4 ==> (j + 1 == d <==> (j + 1) / p == j / p + 1 && tma + j / p - 4 / p == 255)
    ensures j < 4 ==> j + 1 < d
  {
  }

  /** At an overflow a whole number of ticks has passed. */
  lemma WholePeriods(p: nat, q: int, d: nat, tac: byte, tma: byte)
    requires p == TickCycles(tac) && d == ReloadDistance(tac, tma)
    ensures 4 * p * (q + d / p) == 4 * p * q + 4 * d
  {
  }

  predicate SerialUnwritten(inputs: seq<Input>) {
    forall k :: 0 <= k < |inputs| ==> !inputs[k].access.To(SC_ADDR)
  }

  /** The cycles of a run that announce a serial interrupt. */
  function SerialIrqs(s: State, inputs: seq<Input>): seq<bool>
    decreases |inputs|
  {
    if inputs == [] then []
    else [Serial in IfSetBits(Loaded(s, inputs[0]), inputs[0].access)] + SerialIrqs(Step(s, inputs[0]), inputs[1..])
  }

  lemma {:induction false} TransferRuns(s: State, inputs: seq<Input>, k: nat)
    requires SerialUnwritten(inputs) && k < |inputs|
    requires s.serialSc.transfer ==> s.serialSc.internalClock && s.serialLeft > 0
    ensures |SerialIrqs(s, inputs)| == |inputs|
    ensures SerialIrqs(s, inputs)[k] <==> s.serialSc.transfer && k == s.serialLeft - 1
    decreases |inputs|
  {
    var next := Step(s, inputs[0]);
    var rest := SerialIrqs(next, inputs[1..]);
    if inputs[1..] == [] {
      assert rest == [];
    } else {
      TransferRuns(next, inputs[1..], if k == 0 then 0 else k - 1);
      assert SerialIrqs(s, inputs)[1..] == rest;
    }
  }

  /** An SC write that starts an internally clocked transfer is followed by its one serial interrupt, in the eighth
      cycle counting the one of the write, for as long as SC is not written again. */
  lemma TransferTakesEightCycles(s: State, inputs: seq<Input>, k: nat)
    requires k < |inputs| && inputs[0].access.To(SC_ADDR) && SerialControlOf(inputs[0].access.data).Active()
    requires SerialUnwritten(inputs[1..])
    ensures |SerialIrqs(s, inputs)| == |inputs|
    ensures SerialIrqs(s, inputs)[k] <==> k == 7
  {
    var next := Step(s, inputs[0]);
    var rest := SerialIrqs(next, inputs[1..]);
    if inputs[1..] == [] {
      assert rest == [];
    } else {
      TransferRuns(next, inputs[1..], if k == 0 then 0 else k - 1);
      assert SerialIrqs(s, inputs)[1..] == rest;
    }
  }
}
