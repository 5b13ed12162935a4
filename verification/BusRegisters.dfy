/**
 What the bus registers hold after a cycle, by address and by bit: which byte selects which interrupts, starts a
 transfer, or sets the timer's rate.
 */
module BusRegisters {
  import opened Bits
  import opened Bus

  /** The bit of a flag in the interrupt registers. */
  predicate FlagBit(value: byte, f: Irq) {
    match f
    case VBlank => value % 2 == 1
    case Stat => value / 2 % 2 == 1
    case Timer => value / 4 % 2 == 1
    case Serial => value / 8 % 2 == 1
    case Joypad => value / 16 % 2 == 1
  }

  function FlagIndex(f: Irq): nat {
    match f
    case VBlank => 0
    case Stat => 1
    case Timer => 2
    case Serial => 3
    case Joypad => 4
  }

  lemma FlagsOfByte(value: byte, f: Irq)
    ensures f in IrqsOf(value) <==> FlagBit(value, f)
  {
    ByteBits(value);
  }

  /** The interrupt registers after a cycle. IE and IF take a written byte's flags; in IF an acknowledged flag is then
      cleared, and what the bus or the PPU raises is set. */
  lemma InterruptRegisters(s: State, i: Input, f: Irq)
    ensures var next := Step(s, i);
            && (f in next.ie <==>
                if i.access.Write? && i.access.addr == 0xFFFF then FlagBit(i.access.data, f) else f in s.ie)
            && (f in next.ifReg <==>
                || f in IfSetBits(Loaded(s, i), i.access) || f in i.ppuBits
                || ((if i.access.Write? && i.access.addr == 0xFF0F then FlagBit(i.access.data, f) else f in s.ifReg)
                    && !(i.ackValid && i.ackBit == FlagIndex(f))))
            && next.buttons == next.prevButtons == i.buttons
  {
    if i.access.Write? {
      FlagsOfByte(i.access.data, f);
    }
  }

  /** What raises each of the bus's three flags. */
  lemma RaisedFlags(s: State, i: Input)
    ensures var bits := IfSetBits(Loaded(s, i), i.access);
            && (Timer in bits <==> s.overflowDelay == 1 && !(i.access.Write? && i.access.addr == 0xFF05))
            && (Joypad in bits <==> exists b :: b in i.buttons && b !in s.prevButtons)
            && VBlank !in bits && Stat !in bits
  {
    var pressed := i.buttons - s.prevButtons;
    if b :| b in i.buttons && b !in s.prevButtons {
      assert b in pressed;
    }
    if pressed != {} {
      var b :| b in pressed;
    }
  }

  /** The timer's registers after a cycle. */
  lemma TimerRegisters(s: State, i: Input)
    ensures var next := Step(s, i);
            var tick := TimerTick(Loaded(s, i), i.access);
            && next.sysCounter ==
               (if i.access.Write? && i.access.addr == 0xFF04 then 4 else (s.sysCounter + 4) % 0x1_0000_0000)
            && next.tma == (if i.access.Write? && i.access.addr == 0xFF06 then i.access.data else s.tma)
            && next.tac == (if i.access.Write? && i.access.addr == 0xFF07 then i.access.data % 8 else s.tac)
            && next.tima == (if i.access.Write? && i.access.addr == 0xFF05 then i.access.data
                             else if s.overflowDelay == 1 then next.tma
                             else if s.overflowDelay == 0 && tick then (s.tima + 1) % 256
                             else s.tima)
  {
  }

  /** The rate a TAC byte selects, in counts of the system counter, and the bit that enables the timer. */
  lemma TimerRate(counter: int, tac: byte)
    ensures Periods(counter, tac) ==
            counter / if tac % 4 == 0 then 1024 else if tac % 4 == 1 then 16 else if tac % 4 == 2 then 64 else 256
    ensures TacEnabled(tac) <==> tac / 4 % 2 == 1
  {
    TickCyclesArePeriods(tac);
    ByteBits(tac);
  }

  /** The serial port after a cycle: a byte written to SC with bits 7 and 0 set starts a transfer of eight cycles, this
      one included, and a transfer's last cycle leaves 0xFF in SB and clears bit 7. */
  lemma SerialRegisters(s: State, i: Input)
    ensures var w, next := i.access, Step(s, i);
            var starts := w.Write? && w.addr == 0xFF02 && w.data / 128 % 2 == 1 && w.data % 2 == 1;
            var left := if starts then 8 else s.serialLeft;
            var control := if w.Write? && w.addr == 0xFF02
                           then SerialControl(w.data / 128 % 2 == 1, w.data / 2 % 2 == 1, w.data % 2 == 1)
                           else s.serialSc;
            var active := control.transfer && control.internalClock;
            var done := active && left == 1;
            && next.serialLeft == (if active && left > 0 then left - 1 else left)
            && next.serialSc == (if done then control.(transfer := false) else control)
            && next.serialSb ==
               (if done then 0xFF else if w.Write? && w.addr == 0xFF01 then w.data else s.serialSb)
            && (Serial in IfSetBits(Loaded(s, i), w) <==> done)
  {
    if i.access.Write? {
      ByteBits(i.access.data);
    }
  }
}
