# Verified models of the Game Boy reference code

This project models the executable reference models and checking harnesses of a Game Boy hardware repository and
proves what they are relied on for. It verifies with `dafny verify dfyconfig.toml` (Dafny 4.11).

| file | what it models |
|---|---|
| `Ppu.dfy` | the dot-by-dot PPU machine: LCD power, mode, LY, dot, STAT line, interrupt requests |
| `PpuCounter.dfy` | that the machine is a counter modulo 70224, how one event breaks this, and how it recovers |
| `PpuInterrupts.dfy` | how many STAT and VBlank requests any run makes |
| `PpuWrites.dfy` | what a written byte means: registers over any dot, and the requests of the frame after a STAT write |
| `Bus.dfy` | timer, serial port, joypad and interrupt flags; the predictor and the stepper that must agree |
| `BusRegisters.dfy` | what the bus registers hold after any cycle, by address and by bit |
| `WideBits.dfy` | bit fields across 32-bit words, and the restore image written through them |
| `St7789.dfy` | the display transcript generator, the SPI decoder, and the crop of the decoded panel |
| `Zlib.dfy` | the stored-block zlib encoder (RFC 1950, RFC 1951) and its checksum |
| `Vcd.dfy` | change-only VCD traces, the inferred sample period, and the packed sampler |
| `Activity.dfy` | switching-activity accounting over a VCD stream |
| `UseSpec.dfy` | the parser of nested `use` groups, and exactly what it accepts |
| `ImportGraph.dfy` | the breadth-first import checker and its shortest explanations |
| `SimImports.dfy` | which imports of the simulation library the checker reports, and which it misses |
| `Alu.dfy` | SM83 flag policies, chained over numbers of any length in base 256 and in packed decimal |
| `SpatialOracle.dfy` | the per-pixel oracle: background, window, and the winning object |
| `SpatialFrame.dfy` | whole frames of the oracle, and the comparison that reports the first differing pixels |
| `BakedRom.dfy` | the baked-ROM printer and parser |
| `Wrappers.dfy`, `Text.dfy`, `Bits.dfy`, `Arithmetic.dfy`, `Sequences.dfy` | shared: results, white space, bytes and single bits, quotients and remainders, concatenations |

Code that updates state is a class or a method over arrays and is proved equal to a specification function on values;
the main results are lemmas about those functions over every run. Modes and the STAT register follow the sections
"Rendering" and "LCD Status Registers" of Pan Docs; the decoder of stored blocks follows section 2.2 of RFC 1950 and
section 3.2.4 of RFC 1951.

Where the code does not do what one might expect of it, the exact condition is proved:

- A power-on while the PPU is running leaves the counter form except in two dot ranges of the visible lines
  (`EnableWhileRunningExact`, with the run `EnableWhileRunningLosesPhase`); it recovers after exactly `DotsToRecovery`
  further dots, at most 4936, which a run from reset reaches (`RecoveryIsExact`, `WorstRecoveryIsReached`).
- `zlib_store` of no bytes writes no final block, so only non-empty inputs decode (`StoreRoundTrips`).
- The packed sampler never reads the value of a trace's first event (`SampledIsStepValue`, with the input
  `OwnInitialValueIsMisread`); traces built by the parser start with that value and are read right.
- An event at the very end of a capture is sampled only if the period divides the duration (`EndIsSampledIff`).
- Activity times add up only if time never goes back (`TimesAreConserved`).
- A printed ROM is read back only if the identifier is legal and no free text holds a byte token (`RoundTripsIff`).
- The import checker reports a statement by its text, not by what it imports: exactly if it begins with the tokens
  `lib::sim::` and nothing is skipped up to there (`ReportedIff`, for every text). So an import below `lib::sim` is followed
  instead when it is grouped right under `lib` or written with a space among these tokens, as a statement over two lines
  is joined (`GroupedSimImportIsMissed`, `SpacedSimImportIsMissed`), and not even looked at when its first tokens are
  not a tight `lib::`.
- The `use` parser takes more than comma-separated items: commas are optional, and names that end in `::` at the very
  end are dropped without an error (`ParsesIff`, `DanglingImportIsDropped`).
- The frame comparison looks at a snapshot's own line only where a pixel differs, so it accepts the rendered frame even
  from snapshots of other lines, and it reports one difference even for a limit of 0 or less (`DiffFrame`,
  `AcceptsOnlyTheFrame`).
- At the fastest timer rate the tick that falls into the cycle of a reload is lost, so the timer interrupts every
  4 * (257 - TMA) cycles instead of 4 * (256 - TMA); at the other rates nothing is lost (`InterruptsArePeriodic`).
- A short binary value of a VCD signal is filled up with its first digit, so only a leading 0 keeps its number
  (`FillingKeepsNumberIff`).
- Adding the opposite offset undoes a stack addition except at -128 (`AddSpUndone`).
- `DAA` after an addition is right in decimal only for sums two decimal digits can produce (`DaaAfterAddition`).

## Model

| member | source | states |
|---|---|---|
| Ppu.ExtractMmioWrites | bench/ref/ppu_ref.py:427-440 | the writes of a dot's events in order, and whether any event forces power on or off |
| Ppu.WritesOfMembers | bench/ref/ppu_ref.py:427-440 | a write is among the extracted ones exactly when its event is among the events |
| Ppu.StepDotWithConfig | bench/ref/ppu_ref.py:481-573 | the step of the source is the one step function every result below is about |
| Ppu.PpuReferenceModel.constructor | bench/ref/ppu_ref.py:580-586 | a fresh model is powered off, whatever reset profile it names |
| Ppu.PpuReferenceModel.Reset | bench/ref/ppu_ref.py:587-597 | a configuration for another model is refused and leaves state and configuration alone; otherwise the profile's reset state |
| Ppu.PpuReferenceModel.Step | bench/ref/ppu_ref.py:599-602 | the stored state moves by one step and nothing else changes |
| PpuCounter.ResetInPhase | bench/ref/ppu_ref.py:468-478 | both reset profiles start in the counter form: at position 0, or off |
| PpuCounter.StepKeepsValid | bench/ref/ppu_ref.py:481-573 | any events at all keep the weak invariant: dot and line in range, off exactly with phase LcdOff and zero counters, stored STAT level equal to the computed one |
| PpuCounter.EveryReachableStateIsValid | bench/ref/ppu_ref.py:481-602 | that invariant holds after every run from either reset under every event stream |
| PpuCounter.StepRefinesTick | bench/ref/ppu_ref.py:381-424 | without a power-on while running, one dot is one tick of a counter modulo 70224 that shows line, dot and phase |
| PpuCounter.RunRefinesCounter | bench/ref/ppu_ref.py:381-424 | over every such run the machine shows the counter driven by its LCD on/off trace |
| PpuCounter.ResetRunRefinesCounter | bench/ref/ppu_ref.py:468-573 | the same for every run from either reset |
| PpuCounter.PoweredRunClosedForm | bench/ref/ppu_ref.py:381-424 | n powered dots advance the position by n modulo 70224, and the warm-up frame ends with the first wrap |
| PpuCounter.SamplesLatchAtScanStart | bench/ref/ppu_ref.py:342-424 | from every reachable state and for all events, scroll and window samples are latched exactly when an OAM scan begins, by a power-on too, and dropped at power-off |
| PpuCounter.PhasesOfLine | bench/ref/ppu_ref.py:381-424 | a running machine in the counter form scans for 80 dots, transfers for 172 and blanks for 204 of each of 144 lines, and is in VBlank for the other 10 |
| PpuCounter.EnableWhileRunningExact | bench/ref/ppu_ref.py:498-523 | exactly when a power-on while running keeps the counter form, and exactly when it keeps the count |
| PpuCounter.EnableWhileRunningLosesPhase | bench/ref/ppu_ref.py:498-523 | a concrete run after which line, dot and phase fit no counter position |
| PpuCounter.RecoveryBound | bench/ref/ppu_ref.py:381-424 | the distance to recovery is zero exactly in the counter form and always below eleven lines |
| PpuCounter.StepRecovers | bench/ref/ppu_ref.py:381-424 | every powered dot without a power-on brings recovery exactly one dot nearer |
| PpuCounter.RecoveryIsExact | bench/ref/ppu_ref.py:381-424 | a powered run is back in the counter form if and only if it is that long |
| PpuCounter.SelfStabilises | bench/ref/ppu_ref.py:381-424 | after any event stream, eleven lines without a power-on while running restore the counter form |
| PpuCounter.WorstRecoveryIsReached | bench/ref/ppu_ref.py:381-523 | the longest recovery happens: after reset and 65743 dots without events a power-on in dot 79 of line 144 needs all 4936, and a run left on from there is back in the counter form exactly if it is that long |
| PpuInterrupts.StatRequestsAreRisingEdges | bench/ref/ppu_ref.py:524-555 | over every event stream, STAT requests are the rising edges of the STAT line, and with the quirk on also the STAT writes on a running machine without an edge |
| PpuInterrupts.VBlankRequestIsEntry | bench/ref/ppu_ref.py:481-573 | from every reachable state and for all events, a VBlank request is an entry from line 143 into line 144 |
| PpuInterrupts.VBlankRequestsAreLineEntries | bench/ref/ppu_ref.py:481-573 | over every event stream, VBlank requests are the entries into line 144 |
| PpuInterrupts.VBlankRequestsClosedForm | bench/ref/ppu_ref.py:481-573 | VBlank requests over n powered dots are the crossings of position 65664, in closed form |
| PpuInterrupts.PeriodFromAnywhere | bench/ref/ppu_ref.py:364-378 | a frame has the same number of rises of the STAT line wherever it starts |
| PpuInterrupts.StatRequestsInOneFrame | bench/ref/ppu_ref.py:364-378 | STAT requests of one frame with the sources held, for every combination of sources and every LYC |
| PpuInterrupts.QuietRunHoldsSources | bench/ref/ppu_ref.py:313-335 | dots without events hold the sources, so every powered state left alone has that count |
| PpuInterrupts.SingleSourceCounts | bench/ref/ppu_ref.py:364-378 | the four single sources: 1 for LYC below 154 and 0 above, 144, 1 and 144 |
| PpuWrites.OneWrite | bench/ref/ppu_ref.py:286-335 | a write sets its own register to the bits of the byte modulo 256, LCDC and STAT bit by bit, and no other register |
| PpuWrites.LastWriteWins | bench/ref/ppu_ref.py:313-335 | after any writes a register is as the last byte written to it says |
| PpuWrites.WritesInOrder | bench/ref/ppu_ref.py:427-440 | the writes of a dot are those of its events, in order |
| PpuWrites.RegistersFollowWrites | bench/ref/ppu_ref.py:481-573 | from every valid state, a dot leaves the registers its writes leave, with the LCD bit forced to whether the LCD then runs |
| PpuWrites.LcdOnIff | bench/ref/ppu_ref.py:498-523 | the LCD is on after a dot exactly if no event forces it off, and one forces it on or bit 7 of the last LCDC byte is set, or it was on before and LCDC was not written |
| PpuWrites.ResetRegisters | bench/ref/ppu_ref.py:443-478 | every register after a reset into the running state, as a written byte |
| PpuWrites.StatLineIs | bench/ref/ppu_ref.py:350-369 | the STAT line of a running machine in the counter form, by line, dot, LYC and the selected sources |
| PpuWrites.StatWriteDecidesFrame | bench/ref/ppu_ref.py:304-335 | after a dot whose last STAT byte is v, a frame without events makes the requests of the sources bits 6, 5, 4 and 3 of v name |
| PpuWrites.SingleSourceBytes | bench/ref/ppu_ref.py:304-310 | these are 1 for 0x40 with LYC below 154, and 144, 1 and 144 for 0x20, 0x10 and 0x08 |
| Bus.BusModel.constructor | tools/verilator/pokered_playback_main.cpp:1060-1074 | the fields a fresh bus starts with |
| Bus.BusModel.SetButtons | tools/verilator/pokered_playback_main.cpp:597-599 | only the current buttons change |
| Bus.BusModel.WriteSerial | tools/verilator/pokered_playback_main.cpp:686-696 | an SB or SC write, with the transfer length a started transfer gets |
| Bus.BusModel.NextIfSetBits | tools/verilator/pokered_playback_main.cpp:707-739 | the predicted interrupt bits, without changing anything |
| Bus.BusModel.AdvanceTimer | tools/verilator/pokered_playback_main.cpp:741-795 | the timer's new state, register by register |
| Bus.BusModel.AdvanceSerial | tools/verilator/pokered_playback_main.cpp:741-802 | the serial port's new state |
| Bus.BusModel.AdvanceCycle | tools/verilator/pokered_playback_main.cpp:741-802 | the whole new state of one cycle |
| Bus.BusModel.Cycle | tools/verilator/pokered_playback_main.cpp:1424-1437 | a cycle in the driver's order: write, predict, merge, advance |
| Bus.RunKeepsInvariant | tools/verilator/pokered_playback_main.cpp:741-802 | every run keeps the register ranges, the pending-reload shape, and after its first cycle the sampled timer bit of the counter less four |
| Bus.StepSyncs | tools/verilator/pokered_playback_main.cpp:749-795 | one cycle syncs the sampled bits from any state, across DIV and TAC writes |
| Bus.DivWriteTicks | tools/verilator/pokered_playback_main.cpp:749-795 | a DIV write ticks exactly when the timer is enabled and the last sampled bit was high |
| Bus.BitUnderWrap | tools/verilator/pokered_playback_main.cpp:229-232 | the 32-bit wrap of the counter never reaches a timer bit |
| Bus.FallIsPeriodEnd | tools/verilator/pokered_playback_main.cpp:229-232 | the selected bit falls over four counts exactly when a period ends |
| Bus.TicksClosedForm | tools/verilator/pokered_playback_main.cpp:749-795 | ticks of n undisturbed cycles are a difference of two quotients of the unreduced counter, exact over the wrap |
| Bus.PredictorAgreesWithStepper | tools/verilator/pokered_playback_main.cpp:707-802 | TIMER, SERIAL and JOYPAD are predicted exactly when the stepper reloads TIMA, ends a transfer or sees a fresh press |
| Bus.FlagIsSetIff | tools/verilator/pokered_playback_main.cpp:741-802 | over every run, a flag is set at the end exactly if some cycle raised or wrote it, or it was set before, and no later cycle acknowledged or wrote it away without raising it; none raised is lost |
| Bus.SetFlagStays | tools/verilator/pokered_playback_main.cpp:741-802 | a set flag outlasts any run that neither acknowledges it nor writes IF |
| Bus.OverflowsAreAccountedFor | tools/verilator/pokered_playback_main.cpp:707-802 | over every run each overflow ends as one interrupt or one cancellation, or is pending |
| Bus.HeldWhilePending | tools/verilator/pokered_playback_main.cpp:749-795 | while a reload is pending TIMA is 0 and no interrupt is announced |
| Bus.OverflowReloadsFourCyclesLater | tools/verilator/pokered_playback_main.cpp:749-795 | without a TIMA write, one reload from TMA and one TIMER flag on the fourth cycle after an overflow |
| Bus.TimaWriteCancels | tools/verilator/pokered_playback_main.cpp:749-795 | a TIMA write while pending keeps its value and cancels reload and interrupt |
| Bus.InterruptsArePeriodic | tools/verilator/pokered_playback_main.cpp:707-795 | left alone, the timer interrupts strictly periodically after an overflow, for every TAC and TMA, with one extra count at the fastest rate |
| Bus.TransferTakesEightCycles | tools/verilator/pokered_playback_main.cpp:686-802 | a started transfer raises its one SERIAL interrupt in the eighth cycle and in no other |
| BusRegisters.InterruptRegisters | tools/verilator/pokered_playback_main.cpp:741-802 | each flag of IE and IF after any cycle, by the bit of a written byte, the acknowledged bit and what is raised |
| BusRegisters.RaisedFlags | tools/verilator/pokered_playback_main.cpp:707-739 | the bus raises TIMER exactly in a reload without a TIMA write, JOYPAD exactly on a fresh press, and never the PPU's flags |
| BusRegisters.TimerRegisters | tools/verilator/pokered_playback_main.cpp:741-802 | counter, TIMA, TMA and TAC after any cycle, by the address written |
| BusRegisters.TimerRate | tools/verilator/pokered_playback_main.cpp:225-232 | the timer's period is 1024, 16, 64 or 256 counts by the low two bits of TAC, and bit 2 enables it |
| BusRegisters.SerialRegisters | tools/verilator/pokered_playback_main.cpp:686-802 | a byte written to SC starts a transfer exactly if bits 7 and 0 are set; its eighth cycle leaves 0xFF in SB, clears bit 7 and raises SERIAL |
| WideBits.SetWideBits | tools/verilator/pokered_playback_main.cpp:475-486 | after the write the field's bits are the payload's and every other bit is the old one |
| WideBits.ExtractBits | tools/verilator/pokered_playback_main.cpp:428-437 | the number the field's bits spell, below 2 to the width |
| WideBits.WrittenFieldReadsBack | tools/verilator/pokered_playback_main.cpp:428-486 | reading a field just written gives the payload modulo 2 to the width, across word boundaries |
| WideBits.FieldDependsOnItsBits | tools/verilator/pokered_playback_main.cpp:428-437 | a field reads the same in any words that share its bits |
| WideBits.DisjointFieldsReadBack | tools/verilator/pokered_playback_main.cpp:475-551 | in any run of disjoint writes every field reads back as written |
| WideBits.RestoreFieldsTile | tools/verilator/pokered_playback_main.cpp:488-551 | the thirteen restore fields do not overlap and stay within bits 1035 to 1147 |
| WideBits.RestoreFieldsCover | tools/verilator/pokered_playback_main.cpp:488-551 | and together they cover each of these bits |
| WideBits.LayoutIsWritten | tools/verilator/pokered_playback_main.cpp:488-551 | each of thirteen fields is written with its own register: place, width and packed value |
| WideBits.ApplyRestoreVisiblePpuRegs | tools/verilator/pokered_playback_main.cpp:488-551 | all thirteen fields read back as written, the registers' and the packed status and samples at their own places, and no bit outside 1035 to 1147 changes |
| St7789.GenerateWindowedFrameTranscript | tools/ref_st7789_transcript.py:79-111 | the transcript of a frame: window commands, then two bytes a pixel; or the error for a size that does not fit |
| St7789.WindowIsPlaced | tools/ref_st7789_transcript.py:38-52 | exactly the frames that fit have a window: of their size, in the corner, or with opposite margins at most one apart |
| St7789.BytesOnTheWire | tools/ref_st7789_transcript.py:79-111 | which byte stands where: the commands, the window's four bounds and from byte 11 on each pixel's colour, high byte first |
| St7789.ColourIsGrey | tools/verilator/icebreaker_visible_palette.h:10-22 | the palette's colours are the four greys, 85 apart, cut to five, six and five bits |
| St7789.InitBytes | tools/ref_st7789_transcript.py:55-76 | the initialisation, byte by byte |
| St7789.SpiDecoder.constructor | tools/verilator/icebreaker_visible_top_main.cpp:65-85 | a fresh decoder shows a white panel and the full window |
| St7789.SpiDecoder.StartRamwrNow | tools/verilator/icebreaker_visible_top_main.cpp:358-364 | the cursor moves to the window's first cell |
| St7789.SpiDecoder.AdvanceCursor | tools/verilator/icebreaker_visible_top_main.cpp:366-375 | row-major movement inside the window |
| St7789.SpiDecoder.HandleSpiByte | tools/verilator/icebreaker_visible_top_main.cpp:377-430 | the new decoder state for any byte, and whether it completes a frame |
| St7789.Replay | tools/verilator/icebreaker_visible_top_main.cpp:534-548 | a byte stream handed over one at a time, with each byte's completion report |
| St7789.InitOpensPanel | tools/ref_st7789_transcript.py:55-76 | from any decoder state the initialisation opens the whole panel, paints nothing, completes no frame and leaves data ignored |
| St7789.HeaderOpensWindow | tools/ref_st7789_transcript.py:38-52 | from any decoder state the eleven header bytes open the window and touch no cell |
| St7789.PixelsPaint | tools/verilator/icebreaker_visible_top_main.cpp:377-430 | each prefix of the pixels paints exactly the cells before the cursor |
| St7789.TranscriptPaintsFrame | tools/ref_st7789_transcript.py:79-111 | any accepted transcript, fed to a decoder in any state, paints each cell of its window in the colour of its own pixel of the frame and no other cell; the visible window completes one frame, on the last byte only |
| St7789.VisibleWindowIs | tools/verilator/icebreaker_visible_top_main.cpp:354-356 | the visible window belongs to the centred 160 by 144 frame and to no other |
| St7789.NearestIndex | tools/verilator/icebreaker_visible_top_main.cpp:432-452 | the first palette entry at the least distance |
| St7789.CropVisibleFrame | tools/verilator/icebreaker_visible_top_main.cpp:432-452 | every crop pixel is the grey level nearest to its panel cell |
| St7789.NearestToColour | tools/verilator/icebreaker_visible_palette.h:10-22 | each palette colour is nearest to itself |
| St7789.CropReturnsFrame | tools/verilator/icebreaker_visible_top_main.cpp:432-452 | the round trip: cropping the panel after a frame's transcript returns the grey of every source pixel |
| Zlib.Adler32Bytes | tools/verilator/icebreaker_visible_top_main.cpp:216-224 | the per-byte reduced checksum, below 2 to the 32 |
| Zlib.AdlerClosedForm | tools/verilator/icebreaker_visible_top_main.cpp:216-224 | it equals the unreduced sum and weighted sum taken modulo 65521 |
| Zlib.ZlibStore | tools/verilator/icebreaker_visible_top_main.cpp:247-271 | the encoder's output is the header, the blocks and the checksum of its specification |
| Zlib.StoreEndsInChecksum | tools/verilator/icebreaker_visible_top_main.cpp:226-271 | the last four bytes spell the checksum, highest byte first |
| Zlib.BlockInflates | tools/verilator/icebreaker_visible_top_main.cpp:247-271 | one stored block in front of a stream decodes to its payload and then the rest |
| Zlib.BlocksInflate | tools/verilator/icebreaker_visible_top_main.cpp:247-271 | the blocks of any non-empty input decode to it and end at the final one |
| Zlib.StoreRoundTrips | tools/verilator/icebreaker_visible_top_main.cpp:247-271 | a decoder that insists on one final block, complementary lengths and four bytes that spell the checksum as a number, highest first, returns the input exactly when it is not empty |
| Zlib.BlocksLength | tools/verilator/icebreaker_visible_top_main.cpp:247-271 | five bytes of overhead for each started 65535 bytes |
| Vcd.ParseSignalTraces | tools/vcd_to_sigrok.py:170-227 | end time and, per selected signal, the first value and the changes of its record |
| Vcd.RecordHolds | tools/vcd_to_sigrok.py:170-227 | a signal's record holds exactly its changes in the stream, each at the time read last before it |
| Vcd.EndIsGreatest | tools/vcd_to_sigrok.py:170-227 | the capture ends at its greatest time stamp |
| Vcd.ChangesOnlyKeepsValue | tools/vcd_to_sigrok.py:170-227 | dropping repeated values leaves the step function unchanged |
| Vcd.TraceReadsStream | tools/vcd_to_sigrok.py:170-227 | at every time a parsed trace reads as the raw stream does |
| Vcd.InferSamplePeriod | tools/vcd_to_sigrok.py:230-243 | the period is the least gap between neighbouring marks: zero, the event times and the end |
| Vcd.SortedTimesAreEventTimes | tools/vcd_to_sigrok.py:230-243 | the marks are exactly the positive event times of all traces |
| Vcd.UnitSize | tools/vcd_to_sigrok.py:258 | the least number of bytes, one or more, that has a bit for each signal |
| Vcd.SampleCount | tools/vcd_to_sigrok.py:259 | one sample at 0 and one at each multiple of the period up to the end |
| Vcd.BuildSamples | tools/vcd_to_sigrok.py:255-278 | the buffer's rows, as many as there are samples and each of the least number of bytes that holds the signals, or the error for a bad period or more than 25,000,000 samples |
| Vcd.PackedBits | tools/vcd_to_sigrok.py:255-278 | bit 7 - b % 8 of byte b / 8 is value b, and padding is zero |
| Vcd.SampleBit | tools/vcd_to_sigrok.py:255-278 | that bit of sample j is what the sampler reads from trace b, in an output of samples times unit size |
| Vcd.SampledIsStepValue | tools/vcd_to_sigrok.py:255-278 | the cursor reads the step function at the sample's time, exactly outside one stated case |
| Vcd.OwnInitialValueIsMisread | tools/vcd_to_sigrok.py:255-278 | a trace in that case, misread |
| Vcd.SettledValuesAreSampled | tools/vcd_to_sigrok.py:230-278 | at the inferred period every event time before the end has a sample before the next event of any trace |
| Vcd.SettledSamplesInOrder | tools/vcd_to_sigrok.py:230-278 | later events are seen in later samples |
| Vcd.EndIsSampledIff | tools/vcd_to_sigrok.py:255-278 | the capture's last instant is sampled exactly when the period divides the duration |
| Vcd.StreamIsSampledLosslessly | tools/vcd_to_sigrok.py:170-278 | end to end, the packed output holds the stream's own value of every signal at every event time |
| Activity.ClassIs | tools/activity_capture.py:146-158 | a value is high impedance exactly if it holds a z, zero exactly if its digits are binary and spell 0, one exactly if they spell the greatest number of its width, and unknown otherwise |
| Activity.NormalizedDigits | tools/activity_capture.py:161-169 | a normalised value is as wide as its signal, ends in the value's last digits, and is filled with its first |
| Activity.FillingKeepsClass | tools/activity_capture.py:146-169 | filling a value up never changes its class |
| Activity.FillingKeepsNumberIff | tools/activity_capture.py:161-169 | a short binary value keeps its number when filled up exactly if it starts with 0 |
| Activity.MutableSignal.Accumulate | tools/activity_capture.py:90-104 | time since the last change goes to the class of the current value, or nowhere when time did not advance |
| Activity.MutableSignal.Observe | tools/activity_capture.py:71-77 | the signal's account is that of everything observed so far |
| Activity.MutableSignal.Finish | tools/activity_capture.py:79-88 | the account of all observations, closed at the end time |
| Activity.ParseVcdActivity | tools/activity_capture.py:172-233 | each signal's account is that of what the stream shows of it, closed at the stream's last time |
| Activity.SeenHolds | tools/activity_capture.py:172-233 | what the stream shows of a signal is exactly its changes, normalised, each at the time read last before it |
| Activity.ClassesCoverSpan | tools/activity_capture.py:90-104 | the four classes cover the span, exactly if and only if time never goes back |
| Activity.TimesAreConserved | tools/activity_capture.py:59-104 | a signal's four times add up to the time since its first observation exactly in that case |
| Activity.TotalsCountInstants | tools/activity_capture.py:59-104 | each total is the number of instants at which the signal showed that class |
| Activity.StreamConservesTime | tools/activity_capture.py:172-233 | for every stream whose time never goes back and every signal it shows, the four times add up to the time from the first observation to the end of the stream |
| Activity.StreamCountsInstants | tools/activity_capture.py:172-233 | and each of the account's four totals counts the instants at which the signal showed that class, and its toggles the changes |
| Activity.TogglesCountChanges | tools/activity_capture.py:71-77 | toggles are the observations that differ from the one before |
| UseSpec.NameCharacters | tools/check_hw_imports.py:12-13 | the characters names may begin with and go on with, by their codes |
| UseSpec.Parser.Group | tools/check_hw_imports.py:59-105 | the shared-position parser agrees with the grammar on the tokens left, and never moves back |
| UseSpec.Parser.Item | tools/check_hw_imports.py:59-105 | the same for one item, with strict progress on success |
| UseSpec.RunParser | tools/check_hw_imports.py:59-105 | parsing a text, with its errors and its check that no token is left |
| UseSpec.ForestRoundTrips | tools/check_hw_imports.py:59-105 | the tokens of any items and commas in any order, and of names dangling behind them, parse to exactly the items' root-to-leaf paths, left to right, all tokens consumed |
| UseSpec.ParsesIff | tools/check_hw_imports.py:59-105 | and nothing else parses: exactly which token lists are accepted, and the paths each gives |
| UseSpec.WrittenForestRoundTrips | tools/check_hw_imports.py:59-105 | from text to paths, for all these tokens of any nesting, written with any white space that keeps names apart |
| UseSpec.WellFormedIsReadable | tools/check_hw_imports.py:59-105 | where commas separate the items, any white space or none keeps names apart |
| ImportGraph.ResolveImportFile | tools/check_hw_imports.py:108-121 | the file a path resolves to, if any |
| ImportGraph.ResolvesToLongestPrefix | tools/check_hw_imports.py:108-121 | no longer prefix of the path names a file |
| ImportGraph.ResolvesIff | tools/check_hw_imports.py:108-121 | over the source tree alone: a path resolves to a file exactly if it starts at `lib`, and for its longest prefix that names a source or a directory with a main file it is the source if there is one and else that main file |
| ImportGraph.Checker.FormatReachability | tools/check_hw_imports.py:124-147 | the predecessor walk ends at the board top with a chain as long as the file is deep |
| ImportGraph.LegalIsTree | tools/check_hw_imports.py:150-189 | taking the next file and enqueuing a new one keep the breadth-first tree: depths in queue order, every file one below a file that imports it |
| ImportGraph.DepthIsShortest | tools/check_hw_imports.py:150-189 | no import path is shorter than the depth at which a file was found |
| ImportGraph.FoundExactlyReachable | tools/check_hw_imports.py:150-189 | the files enqueued are exactly the reachable ones |
| ImportGraph.Checker.ScanStatement | tools/check_hw_imports.py:164-187 | one statement is skipped, reported or followed, keeping the search tree |
| ImportGraph.Checker.Search | tools/check_hw_imports.py:150-189 | the queue loop ends on any finite graph with every found file scanned and reported |
| ImportGraph.CollectOffenses | tools/check_hw_imports.py:150-189 | it fails exactly on a reachable statement that does not parse; otherwise it reports every offending statement of every reachable file, each file once, with shortest chains, and nothing exactly when none is reachable |
| SimImports.ReportedIff | tools/check_hw_imports.py:164-182 | for every text: a statement is reported exactly if its first tokens are `lib::sim::` with nothing skipped up to there, looked at exactly if they are `lib::` in this way, and followed exactly if it is looked at and not reported |
| SimImports.SimImportReportedIff | tools/check_hw_imports.py:164-182 | for the items of every accepted statement, however written, that import something below `lib::sim`: what they parse to, and exactly when they are reported and looked at |
| SimImports.DanglingImportIsDropped | tools/check_hw_imports.py:59-105 | a statement of names that each end in `::` imports nothing and is no error |
| SimImports.SpacedSimImportIsMissed | tools/check_hw_imports.py:164-182 | `lib:: sim::` and any name imports below `lib::sim` and is not reported |
| SimImports.GroupedSimImportIsMissed | tools/check_hw_imports.py:164-182 | nor is that name grouped right under `lib` |
| Alu.Adc8Adds | spec/flag_policies.py:53-67 | result and carry are the exact sum |
| Alu.Sbc8Subtracts | spec/flag_policies.py:85-99 | result and borrow are the exact difference |
| Alu.AdcNibbles | spec/flag_policies.py:53-67 | the half carry is the carry out of the low digit and enters the high one |
| Alu.SbcNibbles | spec/flag_policies.py:85-99 | the half borrow is the borrow of the low digit and leaves the high one |
| Alu.ZeroFlag | spec/flag_policies.py:53-99 | the zero flag reads the exact sum or difference |
| Alu.AdcChainAdds | spec/flag_policies.py:53-67 | chained over n bytes, addition in base 256 with an exact carry out |
| Alu.SbcChainSubtracts | spec/flag_policies.py:85-99 | chained over n bytes, subtraction in base 256; the last borrow compares the numbers |
| Alu.SbcChainUndoesAdcChain | spec/flag_policies.py:53-99 | chained subtraction gives back every byte and the carry of a chained addition |
| Alu.WithoutCarry | spec/flag_policies.py:37-147 | add, sub, inc and dec are adc and sbc without a carry in, inc and dec leaving the carry alone |
| Alu.Add16IsTwoByteChain | spec/flag_policies.py:182-195 | the 16-bit addition is a two-byte chain: value, carry, half carry |
| Alu.SignExtendKeepsByte | spec/flag_policies.py:32-34 | a signed value with the same low byte |
| Alu.AddSpUndone | spec/flag_policies.py:198-210 | carries are the unsigned low byte's; the opposite offset undoes it except at -128 |
| Alu.DaaAfterAddition | spec/flag_policies.py:150-179 | exactly when the adjusted byte and carry are what a sum stands for in decimal |
| Alu.DaaAfterAdc | spec/flag_policies.py:150-179 | after adding packed decimal bytes: a packed decimal byte, the exact decimal sum and carry, and the other flags |
| Alu.DaaAfterSbc | spec/flag_policies.py:150-179 | after subtracting them: the exact decimal difference and borrow |
| Alu.DecimalAddChainAdds | spec/flag_policies.py:53-179 | chained over n bytes with adjustment, addition in base 100 with an exact carry out |
| Alu.DecimalSubChainSubtracts | spec/flag_policies.py:85-179 | chained over n bytes with adjustment, subtraction in base 100 with an exact borrow |
| Alu.DecimalSubUndoesDecimalAdd | spec/flag_policies.py:53-179 | decimal subtraction undoes decimal addition byte for byte |
| SpatialOracle.BgwinTileAddrModes | bench/ref/ppu_spatial_oracle.py:97-103 | tile numbers are signed around 0x9000 or unsigned from 0x8000, inside tile memory, and the modes share exactly tiles 0x80 and up |
| SpatialOracle.ObjRowsAreConsecutive | bench/ref/ppu_spatial_oracle.py:106-112 | an object's rows follow each other in tile memory, across both tiles of a tall object and under a flip |
| SpatialOracle.PaletteIsFourShades | bench/ref/ppu_spatial_oracle.py:85-86 | a palette holds four two-bit shades, colour 0's lowest |
| SpatialOracle.LayerShowsMapTile | bench/ref/ppu_spatial_oracle.py:93-190 | a layer shows at each place the pixel of the tile its map, at 0x9800 or 0x9C00, names there, with the palette's shade, and never reads outside video memory |
| SpatialOracle.BackgroundShows | bench/ref/ppu_spatial_oracle.py:138-158 | at x the background shows its map at scroll plus place, in both directions, for any place |
| SpatialOracle.WindowShows | bench/ref/ppu_spatial_oracle.py:161-190 | the window shows exactly if it is on, its line has come and x is at least WX less 7, and then its map from its own left edge and line counter on |
| SpatialOracle.LayerIsTorus | bench/ref/ppu_spatial_oracle.py:138-190 | a layer's map repeats every 256 pixels in both directions |
| SpatialOracle.ScrollingMovesViewpoint | bench/ref/ppu_spatial_oracle.py:138-158 | scrolling shows what was that much further right and down |
| SpatialOracle.SelectedLineSprites | bench/ref/ppu_spatial_oracle.py:193-205 | in memory order, exactly the objects that hit the line with fewer than ten hits before them |
| SpatialOracle.OnLineIff | bench/ref/ppu_spatial_oracle.py:193-205 | an object is on a line exactly if its bytes say it covers it and fewer than ten before it do |
| SpatialOracle.DecodeObject | bench/ref/ppu_spatial_oracle.py:208-253 | an object's sample is its picture mirrored as its flags say, none where it is transparent; it never reads outside video memory |
| SpatialOracle.SampleSays | bench/ref/ppu_spatial_oracle.py:208-253 | an entry's sample, from its four bytes: place, palette, flips, priority, and the pixel of its mirrored picture |
| SpatialOracle.CandidateIff | bench/ref/ppu_spatial_oracle.py:208-253 | an entry can win at x exactly if it is on the line, covers x and is not transparent there |
| SpatialOracle.ObjSample | bench/ref/ppu_spatial_oracle.py:208-253 | the least by x and then index among opaque on-line objects, or none exactly when there are none or objects are off |
| SpatialOracle.WinnerIs | bench/ref/ppu_spatial_oracle.py:208-253 | the winner is one of these, and none of them is further left or as far left with a lower index |
| SpatialOracle.WinnerWins | bench/ref/ppu_spatial_oracle.py:208-253 | at every place there is an answer of that description |
| SpatialOracle.WinnerIsUnique | bench/ref/ppu_spatial_oracle.py:208-253 | and the description allows one answer only |
| SpatialOracle.FlipsMirror | bench/ref/ppu_spatial_oracle.py:208-253 | two objects that differ only in their flips show the same colours at mirror places, left and right exchanged if the X flips differ, top and bottom if the Y flips do |
| SpatialOracle.PixelShade | bench/ref/ppu_spatial_oracle.py:256-289 | the two errors, and otherwise the winning object unless a background that is on and not colour 0 takes precedence |
| SpatialFrame.RenderFrame | bench/ref/ppu_spatial_oracle.py:292-299 | the greys of every pixel of 144 snapshots, or the error for another number or a misshapen one |
| SpatialFrame.DiffFrame | bench/ref/ppu_spatial_oracle.py:302-334 | the shape errors; otherwise the first max(limit, 1) differing pixels, or the error of the first row of a wrong width or with a difference in a snapshot of another line, exactly if fewer differences come before it |
| SpatialFrame.FrameDiffsExact | bench/ref/ppu_spatial_oracle.py:302-334 | the differences are those of all differing pixels, each once, in row-major order, with the drawn pixel's source |
| SpatialFrame.AcceptsOnlyTheFrame | bench/ref/ppu_spatial_oracle.py:302-334 | nothing is reported exactly for the rendered frame, for every limit |
| SpatialFrame.OutcomeIsUnique | bench/ref/ppu_spatial_oracle.py:302-334 | the comparison's description allows one result only, errors included |
| BakedRom.RenderSpade | tools/bake_rom_image.py:143-174 | the printed text, sixteen bytes a row |
| BakedRom.HeaderNumbers | tools/bake_rom_image.py:143-174 | the header's hexadecimal numbers read back, in two digits and the CRC32 in eight |
| BakedRom.HeaderTexts | tools/bake_rom_image.py:143-174 | the header's other lines |
| BakedRom.RowsCounted | tools/bake_rom_image.py:161-165 | as many rows as started sixteens |
| BakedRom.RowsHoldSixteen | tools/bake_rom_image.py:161-165 | row k holds the bytes from 16 k on, sixteen or what is left, and ends in a comma exactly if more follow |
| BakedRom.ParseGeneratedSpade | tools/bake_rom_image.py:177-195 | the last function line and all byte tokens of the lines, or the error for none or for a wrong count |
| BakedRom.LinesCarryAllTokens | tools/bake_rom_image.py:177-195 | reading line by line finds exactly the tokens of the whole text |
| BakedRom.TokensAreFound | tools/bake_rom_image.py:17 | the scan finds no token exactly when the text holds none anywhere |
| BakedRom.FunctionLineMatches | tools/bake_rom_image.py:16 | a printed function line is matched with its name and size |
| BakedRom.MatchIff | tools/bake_rom_image.py:16 | a line is matched, and as what, exactly if it declares a function of a legal name and a size in digits |
| BakedRom.RenderedTokens | tools/bake_rom_image.py:143-174 | the tokens of a printed text are those of its free texts and then the payload |
| BakedRom.RoundTripsIff | tools/bake_rom_image.py:143-195 | printing and parsing gives back identifier, size and payload exactly when the identifier is legal and no free text holds a token |

## Left out

- Ppu.StepDotWithConfig: the semantic commit of the output, a record read off the new state, and its evidence tags.
- Ppu.PpuReferenceModel.Step: the same record in the returned output.
- PPU: `first_frame_blank` and `wy_triggered_this_frame`, which `ppu_ref.py` never sets.
- PPU: pixel values during the dot steps; `SpatialOracle` covers them per scanline.
- Bus: RAM, cartridge, DMA and PPU shadow registers of `BusModel`; only timer, serial, joypad and interrupt state is modelled.
- Bus: interrupt flags and buttons are sets and SC is a record of three bits, so unused register bits are not represented.
- Bus: the Verilated device, its reset and its clocking, which drive generated hardware that is not part of this model.
- WideBits: the decoding of the restore file; the image is a value.
- St7789.GenerateWindowedFrameTranscript: the labels of entries and the exact error texts.
- St7789: transcript JSON, and image files around the crop.
- St7789: the generator's frame and the decoder's panel are flat sequences of bytes and words.
- Zlib: PNG chunks and their CRC around the compressed stream.
- Vcd.ParseSignalTraces: lexing of lines and the name and path of a trace; a stream is a list of time stamps and value changes.
- Vcd: headers and the choice of signals.
- Vcd.BuildSamples: the sample limit is kept, but byte-array allocation failure is not represented.
- Activity.ParseVcdActivity: lexing of lines, header lines and scope names; declared signals are given, one object per symbol, in a given order instead of sorted by path.
- Activity: white space and letter case are those of Python for ASCII and for the white space of Unicode; other case folding is not represented.
- UseSpec and ImportGraph: finding `use` statements in source text, symbolic links and display paths; the file system is a finite map from files to their statements.
- ImportGraph.Checker.FormatReachability: returns the steps of the chain; joining them into one line of text is not modelled.
- Alu: bitwise operations, `cp8`, rotates and shifts, which are single-byte identities; `ld_hl_sp_plus_e8` is `add_sp_e8`.
- SpatialFrame: the conversions between flat bytes and rows, and the building of snapshots from per-line registers.
- BakedRom: reading the ROM and symbol files, its hashes, and the command line; header texts are given.
- BakedRom.ParseGeneratedSpade: digits are those of ASCII, where Python's `\d` also takes other decimal digits.
- Files, processes, logging, command lines, YAML and JSON everywhere.
