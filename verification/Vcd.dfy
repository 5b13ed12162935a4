/**
 From a value-change stream to packed logic samples: change-only traces, the inferred
 sample period, and the sampler that advances one cursor per signal and sets one bit
 per high signal. Sampling reads the step function of each trace.
 */
module Vcd {
  import opened Arithmetic
  import opened Bits
  import opened Sequences
  import opened Wrappers

  datatype Event = Event(time: nat, value: bool)

  datatype Trace = Trace(events: seq<Event>, initial: bool)

  const MAX_SAMPLES := 25_000_000

  predicate Ordered(events: seq<Event>) {
    forall i, j :: 0 <= i < j < |events| ==> events[i].time <= events[j].time
  }

  /** The value of the last event no later than `t`, if there is one. */
  function LastAt(events: seq<Event>, t: int): Option<bool> {
    if events == [] then None
    else
      var last := events[|events| - 1];
      if last.time <= t then Some(last.value) else LastAt(events[..|events| - 1], t)
  }

  /** A trace as a step function: its initial value until the first event. */
  function ValueAt(trace: Trace, t: int): bool {
    match LastAt(trace.events, t)
    case None => trace.initial
    case Some(v) => v
  }

  // ---- parsing: only changes are recorded ----

  /** A timestamp in ticks, or a one-bit value change of a signal. */
  datatype Token = Timestamp(ticks: nat) | Change(symbol: string, value: bool)

  /** All value changes of one signal with their times, changes or not. */
  function Recorded(tokens: seq<Token>, symbol: string, tick: nat): seq<Event> {
    if tokens == [] then []
    else
      var front, last := tokens[..|tokens| - 1], tokens[|tokens| - 1];
      if last.Change? && last.symbol == symbol
      then Recorded(front, symbol, tick) + [Event(Now(front, tick), last.value)]
      else Recorded(front, symbol, tick)
  }

  function Now(tokens: seq<Token>, tick: nat): nat {
    if tokens == [] then 0
    else
      var last := tokens[|tokens| - 1];
      if last.Timestamp? then last.ticks * tick else Now(tokens[..|tokens| - 1], tick)
  }

  /** The largest time stamped so far. */
  function EndTime(tokens: seq<Token>, tick: nat): nat {
    if tokens == [] then 0
    else
      var end, last := EndTime(tokens[..|tokens| - 1], tick), tokens[|tokens| - 1];
      if last.Timestamp? && last.ticks * tick > end then last.ticks * tick else end
  }

  /** The time is that of the last time stamp, or 0 before the first. */
  lemma {:induction false} NowIs(tokens: seq<Token>, tick: nat, k: nat)
    requires k <= |tokens| && forall m :: k <= m < |tokens| ==> !tokens[m].Timestamp?
    requires k > 0 ==> tokens[k - 1].Timestamp?
    ensures Now(tokens, tick) == if k == 0 then 0 else tokens[k - 1].ticks * tick
    decreases |tokens|
  {
    if k < |tokens| {
      NowIs(tokens[..|tokens| - 1], tick, k);
    }
  }

  /** The record of a signal holds exactly its changes, each with the time it was read at. */
  lemma {:induction false} RecordHolds(tokens: seq<Token>, symbol: string, tick: nat, e: Event)
    ensures e in Recorded(tokens, symbol, tick) <==>
            exists k :: 0 <= k < |tokens| && tokens[k] == Change(symbol, e.value) && e.time == Now(tokens[..k], tick)
    decreases |tokens|
  {
    if tokens != [] {
      var n := |tokens| - 1;
      RecordHolds(tokens[..n], symbol, tick, e);
      assert forall k :: 0 <= k <= n ==> tokens[..n][..k] == tokens[..k];
      if k :| 0 <= k < |tokens| && tokens[k] == Change(symbol, e.value) && e.time == Now(tokens[..k], tick) && k < n {
        assert tokens[..n][k] == Change(symbol, e.value) && e.time == Now(tokens[..n][..k], tick);
      }
    }
  }

  /** The capture ends at its greatest time stamp. */
  lemma {:induction false} EndIsGreatest(tokens: seq<Token>, tick: nat)
    ensures forall k :: 0 <= k < |tokens| && tokens[k].Timestamp? ==> tokens[k].ticks * tick <= EndTime(tokens, tick)
    ensures EndTime(tokens, tick) > 0 ==>
              exists k :: 0 <= k < |tokens| && tokens[k].Timestamp? && tokens[k].ticks * tick == EndTime(tokens, tick)
    decreases |tokens|
  {
    if tokens != [] {
      var n := |tokens| - 1;
      EndIsGreatest(tokens[..n], tick);
      if EndTime(tokens, tick) > 0 && EndTime(tokens, tick) == EndTime(tokens[..n], tick) {
        var k :| 0 <= k < n && tokens[..n][k].Timestamp? && tokens[..n][k].ticks * tick == EndTime(tokens[..n], tick);
        assert tokens[k].Timestamp? && tokens[k].ticks * tick == EndTime(tokens, tick);
      }
    }
  }

  /** The first event, and then those whose value differs from the one before. */
  function ChangesOnly(events: seq<Event>): seq<Event> {
    if |events| <= 1 then events
    else
      var front, last := events[..|events| - 1], events[|events| - 1];
      if last.value == front[|front| - 1].value then ChangesOnly(front) else ChangesOnly(front) + [last]
  }

  function TraceOf(tokens: seq<Token>, symbol: string, tick: nat): Trace {
    var events := ChangesOnly(Recorded(tokens, symbol, tick));
    Trace(events, events != [] && events[0].value)
  }

  lemma ChangesOnlyGrows(events: seq<Event>, e: Event)
    ensures ChangesOnly(events + [e]) ==
            if events != [] && events[|events| - 1].value == e.value then ChangesOnly(events)
            else ChangesOnly(events) + [e]
  {
    assert (events + [e])[..|events|] == events;
  }

  /** What one more token adds to the record of a signal. */
  lemma OneMoreToken(tokens: seq<Token>, i: nat, symbol: string, tick: nat)
    requires i < |tokens|
    ensures var token, before := tokens[i], Recorded(tokens[..i], symbol, tick);
            Recorded(tokens[..i + 1], symbol, tick) ==
            if token.Change? && token.symbol == symbol then before + [Event(Now(tokens[..i], tick), token.value)]
            else before
    ensures Now(tokens[..i + 1], tick) ==
            if tokens[i].Timestamp? then tokens[i].ticks * tick else Now(tokens[..i], tick)
    ensures EndTime(tokens[..i + 1], tick) ==
            if tokens[i].Timestamp? && tokens[i].ticks * tick > EndTime(tokens[..i], tick)
            then tokens[i].ticks * tick else EndTime(tokens[..i], tick)
  {
    assert tokens[..i + 1][..i] == tokens[..i];
  }

  /** The parser's three dictionaries agree with the record of one signal. */
  ghost predicate Tracks(
    events: map<string, seq<Event>>, currentValues: map<string, bool>, seenInitial: set<string>, s: string,
    record: seq<Event>) {
    && s in events && s in currentValues
    && events[s] == ChangesOnly(record) && (s in seenInitial <==> record != [])
    && (record != [] ==> currentValues[s] == record[|record| - 1].value)
  }

  /** One value change of a selected signal: recorded if it is the first, or differs from the one before. */
  method RecordChange(
    events0: map<string, seq<Event>>, values0: map<string, bool>, seen0: set<string>,
    symbol: string, value: bool, now: nat, ghost record: seq<Event>)
    returns (events: map<string, seq<Event>>, currentValues: map<string, bool>, seenInitial: set<string>)
    requires Tracks(events0, values0, seen0, symbol, record)
    ensures Tracks(events, currentValues, seenInitial, symbol, record + [Event(now, value)])
    ensures events.Keys == events0.Keys
    ensures forall s, r :: s != symbol && Tracks(events0, values0, seen0, s, r) ==>
             Tracks(events, currentValues, seenInitial, s, r)
  {
    events, seenInitial := events0, seen0;
    ChangesOnlyGrows(record, Event(now, value));
    var previous := values0[symbol];
    currentValues := values0[symbol := value];
    if symbol !in seenInitial {
      seenInitial := seenInitial + {symbol};
      events := events[symbol := events[symbol] + [Event(now, value)]];
    } else if value != previous {
      events := events[symbol := events[symbol] + [Event(now, value)]];
    }
  }

  /** The dictionaries agree with the record of every selected signal in a stream. */
  ghost predicate TracksAll(
    events: map<string, seq<Event>>, currentValues: map<string, bool>, seenInitial: set<string>,
    selected: seq<string>, tokens: seq<Token>, tick: nat) {
    && (forall s :: s in events <==> s in selected)
    && (forall s :: s in selected ==> Tracks(events, currentValues, seenInitial, s, Recorded(tokens, s, tick)))
  }

  /** One token of the stream. */
  method TakeToken(
    events0: map<string, seq<Event>>, values0: map<string, bool>, seen0: set<string>,
    selected: seq<string>, tokens: seq<Token>, i: nat, now: nat, tick: nat)
    returns (events: map<string, seq<Event>>, currentValues: map<string, bool>, seenInitial: set<string>)
    requires i < |tokens| && now == Now(tokens[..i], tick)
    requires TracksAll(events0, values0, seen0, selected, tokens[..i], tick)
    ensures TracksAll(events, currentValues, seenInitial, selected, tokens[..i + 1], tick)
  {
    events, currentValues, seenInitial := events0, values0, seen0;
    if tokens[i].Change? && tokens[i].symbol in events {
      var symbol, value := tokens[i].symbol, tokens[i].value;
      events, currentValues, seenInitial :=
        RecordChange(events, currentValues, seenInitial, symbol, value, now, Recorded(tokens[..i], symbol, tick));
    }
    forall s | s in selected
      ensures Tracks(events, currentValues, seenInitial, s, Recorded(tokens[..i + 1], s, tick))
    {
      OneMoreToken(tokens, i, s, tick);
      assert Tracks(events0, values0, seen0, s, Recorded(tokens[..i], s, tick));
    }
  }

  method ParseSignalTraces(tokens: seq<Token>, selected: seq<string>, tick: nat)
    returns (endTime: nat, traces: seq<Trace>)
    ensures endTime == EndTime(tokens, tick)
    ensures |traces| == |selected| && forall i :: 0 <= i < |selected| ==>
             traces[i] == TraceOf(tokens, selected[i], tick)
  {
    var now := 0;
    endTime := 0;
    var currentValues: map<string, bool> := map s | s in selected :: false;
    var seenInitial: set<string> := {};
    var events: map<string, seq<Event>> := map s | s in selected :: [];
    for i := 0 to |tokens|
      invariant now == Now(tokens[..i], tick) && endTime == EndTime(tokens[..i], tick)
      invariant TracksAll(events, currentValues, seenInitial, selected, tokens[..i], tick)
    {
      events, currentValues, seenInitial :=
        TakeToken(events, currentValues, seenInitial, selected, tokens, i, now, tick);
      OneMoreToken(tokens, i, "", tick);
      if tokens[i].Timestamp? {
        now := tokens[i].ticks * tick;
        endTime := if now > endTime then now else endTime;
      }
    }
    assert tokens[..|tokens|] == tokens;
    traces := CollectTraces(events, currentValues, seenInitial, selected, tokens, tick);
  }

  method CollectTraces(
    events: map<string, seq<Event>>, ghost currentValues: map<string, bool>, ghost seenInitial: set<string>,
    selected: seq<string>, ghost tokens: seq<Token>, ghost tick: nat)
    returns (traces: seq<Trace>)
    requires TracksAll(events, currentValues, seenInitial, selected, tokens, tick)
    ensures |traces| == |selected| && forall i :: 0 <= i < |selected| ==>
             traces[i] == TraceOf(tokens, selected[i], tick)
  {
    traces := [];
    for i := 0 to |selected|
      invariant |traces| == i && forall j :: 0 <= j < i ==> traces[j] == TraceOf(tokens, selected[j], tick)
    {
      assert Tracks(events, currentValues, seenInitial, selected[i], Recorded(tokens, selected[i], tick));
      var e := events[selected[i]];
      traces := traces + [Trace(e, e != [] && e[0].value)];
    }
  }

  /** Recording only changes keeps the step function, for streams whose times never go back. */
  lemma {:induction false} ChangesOnlyKeepsValue(events: seq<Event>, t: int)
    requires Ordered(events)
    ensures LastAt(ChangesOnly(events), t) == LastAt(events, t)
    decreases |events|
  {
    if |events| > 1 {
      var front, last := events[..|events| - 1], events[|events| - 1];
      ChangesOnlyKeepsValue(front, t);
      if last.value == front[|front| - 1].value {
        assert last.time <= t ==> front[|front| - 1].time <= t;
      } else {
        assert (ChangesOnly(front) + [last])[..|ChangesOnly(front)|] == ChangesOnly(front);
      }
    }
  }

  lemma {:induction false} ChangesOnlyStart(events: seq<Event>)
    ensures events != [] ==> ChangesOnly(events) != [] && ChangesOnly(events)[0] == events[0]
    ensures Ordered(events) && events != [] ==>
              Ordered(ChangesOnly(events)) &&
              forall i :: 0 <= i < |ChangesOnly(events)| ==> ChangesOnly(events)[i].time <= events[|events| - 1].time
    decreases |events|
  {
    if |events| > 1 {
      ChangesOnlyStart(events[..|events| - 1]);
    }
  }

  /** The stream's own time never goes back. */
  predicate TimesForward(tokens: seq<Token>) {
    forall i, j :: 0 <= i < j < |tokens| && tokens[i].Timestamp? && tokens[j].Timestamp? ==>
      tokens[i].ticks <= tokens[j].ticks
  }

  /** In such a stream every record is ordered and ends no later than now, which is the end time. */
  lemma {:induction false} RecordedInOrder(tokens: seq<Token>, symbol: string, tick: nat)
    requires TimesForward(tokens)
    ensures Ordered(Recorded(tokens, symbol, tick)) && Now(tokens, tick) == EndTime(tokens, tick)
    ensures forall i :: 0 <= i < |Recorded(tokens, symbol, tick)| ==>
             Recorded(tokens, symbol, tick)[i].time <= Now(tokens, tick)
    ensures forall i :: 0 <= i < |tokens| && tokens[i].Timestamp? ==> tokens[i].ticks * tick <= Now(tokens, tick)
    decreases |tokens|
  {
    if tokens != [] {
      var n := |tokens| - 1;
      RecordedInOrder(tokens[..n], symbol, tick);
      if tokens[n].Timestamp? {
        NowIsAStamp(tokens[..n], tick);
        forall i | 0 <= i < n && tokens[i].Timestamp?
          ensures tokens[i].ticks * tick <= tokens[n].ticks * tick
        {
          Scales(tick, tokens[i].ticks, tokens[n].ticks);
        }
      }
    }
  }

  lemma {:induction false} NowIsAStamp(tokens: seq<Token>, tick: nat)
    ensures Now(tokens, tick) == 0 ||
            exists i :: 0 <= i < |tokens| && tokens[i].Timestamp? && Now(tokens, tick) == tokens[i].ticks * tick
    decreases |tokens|
  {
    if tokens != [] && !tokens[|tokens| - 1].Timestamp? {
      NowIsAStamp(tokens[..|tokens| - 1], tick);
    }
  }

  /** The last change recorded by time `t`, or the first one before that. */
  predicate StreamValue(record: seq<Event>, t: int) {
    match LastAt(record, t)
    case Some(v) => v
    case None => record != [] && record[0].value
  }

  /** The parsed trace reads, at every time, as the raw stream does: its last change so far, or its first value. */
  lemma TraceReadsStream(
    tokens: seq<Token>, symbol: string, tick: nat, record: seq<Event>, trace: Trace, t: int)
    requires TimesForward(tokens) && record == Recorded(tokens, symbol, tick) && trace == TraceOf(tokens, symbol, tick)
    ensures Ordered(trace.events) && (trace.events != [] ==> trace.initial == trace.events[0].value)
    ensures ValueAt(trace, t) == StreamValue(record, t)
  {
    RecordedInOrder(tokens, symbol, tick);
    ChangesOnlyStart(record);
    ChangesOnlyKeepsValue(record, t);
  }

  // ---- sampling ----

  /** Moves a cursor along the events that have happened by time `t`. */
  function Advance(events: seq<Event>, cursor: nat, t: int): (c: nat)
    ensures cursor <= c && (cursor < |events| ==> c < |events|)
    decreases |events| - cursor
  {
    if cursor + 1 < |events| && events[cursor + 1].time <= t then Advance(events, cursor + 1, t) else cursor
  }

  /** The cursor after the first n samples. */
  function CursorAfter(events: seq<Event>, n: nat, period: nat): (c: nat)
    ensures c == 0 || c < |events|
  {
    if n == 0 then 0 else Advance(events, CursorAfter(events, n - 1, period), (n - 1) * period)
  }

  /** The value at a cursor: still the initial one at the first event. */
  function CursorValue(trace: Trace, cursor: nat): bool
    requires cursor == 0 || cursor < |trace.events|
  {
    if cursor == 0 then trace.initial else trace.events[cursor].value
  }

  /** What the sampler reads from a trace in sample j. */
  function Sampled(trace: Trace, j: nat, period: nat): bool {
    CursorValue(trace, CursorAfter(trace.events, j + 1, period))
  }

  function SampledRow(traces: seq<Trace>, j: nat, period: nat): (row: seq<bool>)
    ensures |row| == |traces| && forall i :: 0 <= i < |traces| ==> row[i] == Sampled(traces[i], j, period)
  {
    seq(|traces|, i requires 0 <= i < |traces| => Sampled(traces[i], j, period))
  }

  /** The first n values packed eight to a byte, the first one highest. */
  function Packed(values: seq<bool>, n: nat, unit: nat): (row: seq<byte>)
    requires n <= |values| && n <= 8 * unit
    ensures |row| == unit
  {
    if n == 0 then Zeros(unit)
    else
      var row, k := Packed(values, n - 1, unit), n - 1;
      if values[k] then row[k / 8 := SetByteBit(row[k / 8], 7 - k % 8)] else row
  }

  function Zeros(n: nat): (row: seq<byte>)
    ensures |row| == n && forall i :: 0 <= i < n ==> row[i] == 0
  {
    seq(n, i => 0)
  }

  /** `value |= 1 << k`. */
  function SetByteBit(value: byte, k: nat): byte
    requires k < 8
  {
    WithBitStaysBelow(value, k, true, 8);
    assert Pow2(8) == 256;
    WithBit(value, k, true)
  }

  lemma {:induction false} ZeroBit(k: nat)
    ensures !BitOf(0, k)
  {
    if k > 0 {
      ZeroBit(k - 1);
    }
  }

  /** Bit 7 - b % 8 of byte b / 8 is value b; padding bits are zero. */
  lemma {:induction false} PackedBits(values: seq<bool>, n: nat, unit: nat, b: nat)
    requires n <= |values| && n <= 8 * unit && b < 8 * unit
    ensures BitOf(Packed(values, n, unit)[b / 8], 7 - b % 8) <==> b < n && values[b]
    decreases n
  {
    if n == 0 {
      ZeroBit(7 - b % 8);
    } else {
      var k := n - 1;
      PackedBits(values, k, unit, b);
      if k / 8 == b / 8 {
        WithBitSetsOneBit(Packed(values, k, unit)[k / 8], 7 - k % 8, true, 7 - b % 8);
      }
    }
  }

  /** All sample rows one after the other. */
  function PackedRows(traces: seq<Trace>, rows: nat, period: nat, unit: nat): (data: seq<byte>)
    requires |traces| <= 8 * unit
    ensures |data| == RowsSize(rows, unit)
  {
    if rows == 0 then []
    else PackedRows(traces, rows - 1, period, unit) + Packed(SampledRow(traces, rows - 1, period), |traces|, unit)
  }

  datatype Samples = Samples(data: seq<byte>, unit: nat)

  function UnitSize(n: nat): (u: nat)
    ensures u >= 1 && n <= 8 * u && (u == 1 || 8 * (u - 1) < n)
  {
    if n == 0 then 1 else (n + 7) / 8
  }

  /** One sample at 0 and one at each multiple of the period up to the end. */
  function SampleCount(duration: int, period: int): (n: int)
    requires period > 0
    ensures duration < 0 ==> n == 1
    ensures duration >= 0 ==> n >= 1 && (n - 1) * period <= duration < n * period
  {
    if duration / period + 1 < 1 then 1 else duration / period + 1
  }

  method AdvanceCursor(trace: Trace, cursor0: nat, value0: bool, t: int) returns (cursor: nat, value: bool)
    requires (cursor0 == 0 || cursor0 < |trace.events|) && value0 == CursorValue(trace, cursor0)
    ensures cursor == Advance(trace.events, cursor0, t) && value == CursorValue(trace, cursor)
  {
    cursor, value := cursor0, value0;
    while cursor + 1 < |trace.events| && trace.events[cursor + 1].time <= t
      invariant (cursor == 0 || cursor < |trace.events|) && value == CursorValue(trace, cursor)
      invariant Advance(trace.events, cursor0, t) == Advance(trace.events, cursor, t)
      decreases |trace.events| - cursor
    {
      cursor := cursor + 1;
      value := trace.events[cursor].value;
    }
  }

  /** Cursor and value of every signal after the first n samples. */
  ghost predicate CursorsAt(traces: seq<Trace>, indices: seq<nat>, values: seq<bool>, n: nat, period: nat) {
    |indices| == |values| == |traces| && forall i :: 0 <= i < |traces| ==>
      CursorAt(traces[i], indices[i], values[i], n, period)
  }

  predicate CursorAt(trace: Trace, cursor: nat, value: bool, n: nat, period: nat) {
    cursor == CursorAfter(trace.events, n, period) && value == CursorValue(trace, cursor)
  }

  /** In the middle of sample j: the first i signals have moved on. */
  ghost predicate CursorsMovedTo(
    traces: seq<Trace>, indices: seq<nat>, values: seq<bool>, i: nat, j: nat, period: nat) {
    |indices| == |values| == |traces| && forall k :: 0 <= k < |traces| ==>
      CursorAt(traces[k], indices[k], values[k], if k < i then j + 1 else j, period)
  }

  lemma CursorMoves(
    traces: seq<Trace>, indices: seq<nat>, values: seq<bool>, i: nat, j: nat, period: nat, cursor: nat, value: bool)
    requires CursorsMovedTo(traces, indices, values, i, j, period) && i < |traces|
    requires CursorAt(traces[i], cursor, value, j + 1, period)
    ensures CursorsMovedTo(traces, indices[i := cursor], values[i := value], i + 1, j, period)
  {
  }

  /** Sets one bit of the row at `start` in place. */
  method SetRowBit(samples: array<byte>, start: nat, i: nat, ghost front: seq<byte>, ghost row: seq<byte>,
      ghost back: seq<byte>)
    requires samples[..] == front + row + back && |front| == start && i < 8 * |row|
    modifies samples
    ensures samples[..] == front + row[i / 8 := SetByteBit(row[i / 8], 7 - i % 8)] + back
  {
    assert samples[start + i / 8] == row[i / 8];
    samples[start + i / 8] := SetByteBit(samples[start + i / 8], 7 - i % 8);
  }

  /** One signal of one sample. */
  method SampleSignal(
    trace: Trace, cursor0: nat, value0: bool, samples: array<byte>, start: nat, unit: nat, i: nat, j: nat,
    period: nat, ghost row: seq<bool>, ghost front: seq<byte>, ghost back: seq<byte>)
    returns (cursor: nat, value: bool)
    requires CursorAt(trace, cursor0, value0, j, period)
    requires i < |row| <= 8 * unit && row[i] == Sampled(trace, j, period)
    requires samples[..] == front + Packed(row, i, unit) + back && |front| == start
    modifies samples
    ensures CursorAt(trace, cursor, value, j + 1, period)
    ensures samples[..] == front + Packed(row, i + 1, unit) + back
  {
    cursor, value := AdvanceCursor(trace, cursor0, value0, j * period);
    if value {
      SetRowBit(samples, start, i, front, Packed(row, i, unit), back);
    }
  }

  /** One sample: every cursor moves up to the sample's time, and each high signal sets its bit in the row at
      `start`. */
  method PackRow(
    traces: seq<Trace>, indices0: seq<nat>, values0: seq<bool>, samples: array<byte>, start: nat, unit: nat, j: nat,
    period: nat, ghost front: seq<byte>, ghost back: seq<byte>)
    returns (indices: seq<nat>, values: seq<bool>)
    requires |traces| <= 8 * unit && CursorsAt(traces, indices0, values0, j, period)
    requires samples[..] == front + Zeros(unit) + back && |front| == start
    modifies samples
    ensures CursorsAt(traces, indices, values, j + 1, period)
    ensures samples[..] == front + Packed(SampledRow(traces, j, period), |traces|, unit) + back
  {
    indices, values := indices0, values0;
    ghost var row := SampledRow(traces, j, period);
    for i := 0 to |traces|
      invariant CursorsMovedTo(traces, indices, values, i, j, period)
      invariant samples[..] == front + Packed(row, i, unit) + back
    {
      var cursor, value :=
        SampleSignal(traces[i], indices[i], values[i], samples, start, unit, i, j, period, row, front, back);
      CursorMoves(traces, indices, values, i, j, period, cursor, value);
      indices, values := indices[i := cursor], values[i := value];
    }
  }

  lemma ZerosSplit(front: seq<byte>, left: nat, unit: nat)
    requires unit <= left
    ensures front + Zeros(left) == front + Zeros(unit) + Zeros(left - unit)
  {
    assert Zeros(left) == Zeros(unit) + Zeros(left - unit);
    Associates(front, Zeros(unit), Zeros(left - unit));
  }

  /** The buffer's size, row by row. */
  function RowsSize(rows: nat, unit: nat): nat {
    if rows == 0 then 0 else unit + RowsSize(rows - 1, unit)
  }

  lemma {:induction false} RowsSizeIs(rows: nat, unit: nat)
    ensures RowsSize(rows, unit) == rows * unit
  {
    if rows > 0 {
      RowsSizeIs(rows - 1, unit);
    }
  }

  method InitialCursors(traces: seq<Trace>, ghost period: nat) returns (indices: seq<nat>, values: seq<bool>)
    ensures CursorsAt(traces, indices, values, 0, period)
  {
    indices := seq(|traces|, i => 0);
    values := seq(|traces|, i requires 0 <= i < |traces| => traces[i].initial);
  }

  method FillSamples(traces: seq<Trace>, samples: array<byte>, count: nat, period: nat, unit: nat)
    requires |traces| <= 8 * unit && samples[..] == Zeros(RowsSize(count, unit))
    modifies samples
    ensures samples[..] == PackedRows(traces, count, period, unit)
  {
    var indices, values := InitialCursors(traces, period);
    var start: nat := 0;
    assert [] + Zeros(RowsSize(count, unit)) == Zeros(RowsSize(count, unit));
    for j := 0 to count
      invariant start == RowsSize(j, unit) && CursorsAt(traces, indices, values, j, period)
      invariant samples[..] == PackedRows(traces, j, period, unit) + Zeros(RowsSize(count - j, unit))
    {
      ghost var front, back := PackedRows(traces, j, period, unit), Zeros(RowsSize(count - (j + 1), unit));
      NextRow(traces, count, period, unit, j, front, back);
      indices, values := PackRow(traces, indices, values, samples, start, unit, j, period, front, back);
      start := start + unit;
    }
    assert Zeros(0) == [];
  }

  /** The row that comes next is still zero, and packing it completes one more row. */
  lemma NextRow(traces: seq<Trace>, count: nat, period: nat, unit: nat, j: nat, front: seq<byte>, back: seq<byte>)
    requires |traces| <= 8 * unit && j < count && front == PackedRows(traces, j, period, unit)
    requires back == Zeros(RowsSize(count - (j + 1), unit))
    ensures front + Zeros(RowsSize(count - j, unit)) == front + Zeros(unit) + back
    ensures front + Packed(SampledRow(traces, j, period), |traces|, unit) == PackedRows(traces, j + 1, period, unit)
  {
    ZerosSplit(front, RowsSize(count - j, unit), unit);
  }

  method BuildSamples(traces: seq<Trace>, duration: int, period: int) returns (r: Result<Samples, string>)
    ensures r.Failure? <==> period <= 0 || duration / period >= 25_000_000
    ensures r.Success? ==>
              var unit := r.value.unit; unit >= 1 && |traces| <= 8 * unit && (unit == 1 || 8 * (unit - 1) < |traces|)
    ensures r.Success? ==> |r.value.data| == r.value.unit * SampleCount(duration, period)
    ensures r.Success? ==>
              r.value == Samples(PackedRows(traces, SampleCount(duration, period), period, UnitSize(|traces|)),
                                 UnitSize(|traces|))
  {
    if period <= 0 {
      return Failure("sample period must be positive");
    }
    var unit, count := UnitSize(|traces|), SampleCount(duration, period);
    if count > MAX_SAMPLES {
      return Failure("capture would exceed 25,000,000 samples");
    }
    RowsSizeIs(count, unit);
    var samples := new byte[count * unit](_ => 0);
    FillSamples(traces, samples, count, period, unit);
    assert count * unit == unit * count;
    r := Success(Samples(samples[..], unit));
  }

  // ---- the samples are the step functions ----

  /** Row j of the data is the packed values of sample j. */
  lemma {:induction false} RowOfSamples(traces: seq<Trace>, rows: nat, period: nat, unit: nat, j: nat)
    requires |traces| <= 8 * unit && j < rows
    ensures RowsSize(j, unit) + unit <= RowsSize(rows, unit)
    ensures PackedRows(traces, rows, period, unit)[RowsSize(j, unit)..RowsSize(j, unit) + unit] ==
            Packed(SampledRow(traces, j, period), |traces|, unit)
    decreases rows
  {
    if j < rows - 1 {
      RowOfSamples(traces, rows - 1, period, unit, j);
      PrefixSlice(PackedRows(traces, rows - 1, period, unit),
                  Packed(SampledRow(traces, rows - 1, period), |traces|, unit),
                  RowsSize(j, unit), RowsSize(j, unit) + unit);
    }
  }

  lemma PrefixSlice<T>(a: seq<T>, b: seq<T>, lo: nat, hi: nat)
    requires lo <= hi <= |a|
    ensures (a + b)[lo..hi] == a[lo..hi]
  {
  }

  /** Bit 7 - b % 8 of byte b / 8 of sample j. */
  predicate BitInSample(data: seq<byte>, unit: nat, j: nat, b: nat) {
    j * unit + b / 8 < |data| && BitOf(data[j * unit + b / 8], 7 - b % 8)
  }

  /** That bit is what the sampler reads from trace b; bits past the last trace are zero. */
  lemma SampleBit(traces: seq<Trace>, rows: nat, period: nat, unit: nat, j: nat, b: nat)
    requires |traces| <= 8 * unit && j < rows && b < 8 * unit
    ensures var data := PackedRows(traces, rows, period, unit);
            && |data| == rows * unit && j * unit + b / 8 < |data|
            && (BitInSample(data, unit, j, b) <==> b < |traces| && Sampled(traces[b], j, period))
  {
    var data := PackedRows(traces, rows, period, unit);
    RowOfSamples(traces, rows, period, unit, j);
    RowsSizeIs(rows, unit);
    RowsSizeIs(j, unit);
    PackedBits(SampledRow(traces, j, period), |traces|, unit, b);
    SliceAt(data, RowsSize(j, unit), unit, b / 8);
  }

  lemma SliceAt<T>(data: seq<T>, start: nat, n: nat, k: nat)
    requires start + n <= |data| && k < n
    ensures data[start..start + n][k] == data[start + k]
  {
  }

  /** In an ordered trace the cursor stands at the last event not after the sample's time, or still at the first. */
  lemma {:induction false} AdvanceStops(events: seq<Event>, cursor: nat, t: int)
    requires cursor < |events| && (cursor == 0 || events[cursor].time <= t)
    ensures var c := Advance(events, cursor, t);
            (c == 0 || events[c].time <= t) && (c + 1 < |events| ==> events[c + 1].time > t)
    decreases |events| - cursor
  {
    if cursor + 1 < |events| && events[cursor + 1].time <= t {
      AdvanceStops(events, cursor + 1, t);
    }
  }

  lemma {:induction false} CursorStops(events: seq<Event>, j: nat, period: nat)
    requires events != []
    ensures var c := CursorAfter(events, j + 1, period);
            c < |events| && (c == 0 || events[c].time <= j * period) &&
            (c + 1 < |events| ==> events[c + 1].time > j * period)
    decreases j
  {
    if j > 0 {
      CursorStops(events, j - 1, period);
      assert (j - 1) * period <= j * period;
    }
    AdvanceStops(events, CursorAfter(events, j, period), j * period);
  }

  /** The last event not after `t`, found by its index. */
  lemma {:induction false} LastAtIndex(events: seq<Event>, c: nat, t: int)
    requires Ordered(events) && c < |events|
    requires c + 1 < |events| ==> events[c + 1].time > t
    ensures events[c].time <= t ==> LastAt(events, t) == Some(events[c].value)
    ensures c == 0 && events[c].time > t ==> LastAt(events, t) == None
    decreases |events|
  {
    if c + 1 < |events| {
      LastAtIndex(events[..|events| - 1], c, t);
    }
  }

  /** What an ordered trace is sampled as, exactly: the step function's value at the sample's time unless the trace's
      initial value differs from its first event's, that event has happened, and no later one has: the sampler starts
      its cursor on the first event and so never reads its value. */
  lemma SampledIsStepValue(trace: Trace, j: nat, period: nat)
    requires Ordered(trace.events)
    ensures Sampled(trace, j, period) == ValueAt(trace, j * period) <==> FirstEventSeen(trace, j * period)
  {
    var events, t := trace.events, j * period;
    if events != [] {
      CursorStops(events, j, period);
      LastAtIndex(events, CursorAfter(events, j + 1, period), t);
    }
  }

  predicate FirstEventSeen(trace: Trace, t: int) {
    var e := trace.events;
    e == [] || e[0].value == trace.initial || e[0].time > t || (|e| > 1 && e[1].time <= t)
  }

  /** A trace built with an initial value of its own, as the sampler allows, is misread. */
  lemma OwnInitialValueIsMisread()
    ensures var trace := Trace([Event(0, true)], false);
            Ordered(trace.events) && ValueAt(trace, 0) && !Sampled(trace, 0, 1)
  {
    assert CursorAfter([Event(0, true)], 1, 1) == 0;
  }

  // ---- the inferred period loses nothing ----

  predicate Increasing(times: seq<nat>) {
    forall i, j :: 0 <= i < j < |times| ==> times[i] < times[j]
  }

  lemma LastIsGreatest(times: seq<nat>)
    requires Increasing(times) && times != []
    ensures var front, last := times[..|times| - 1], times[|times| - 1];
            && Increasing(front) && (forall x :: x in front ==> x < last)
            && (forall x :: x in times <==> x in front || x == last)
  {
    assert times == times[..|times| - 1] + [times[|times| - 1]];
  }

  lemma Appended(times: seq<nat>, t: nat)
    requires Increasing(times) && forall x :: x in times ==> x < t
    ensures Increasing(times + [t]) && forall x :: x in times + [t] <==> x in times || x == t
  {
    forall i, j | 0 <= i < j < |times + [t]|
      ensures (times + [t])[i] < (times + [t])[j]
    {
      assert times[i] in times;
    }
  }

  /** Inserts a time into an increasing list, unless it is there. */
  function InsertTime(times: seq<nat>, t: nat): (r: seq<nat>)
    requires Increasing(times)
    ensures Increasing(r) && forall x :: x in r <==> x in times || x == t
  {
    if times == [] then [t]
    else
      var front, last := times[..|times| - 1], times[|times| - 1];
      LastIsGreatest(times);
      if t > last then Appended(times, t); times + [t]
      else if t == last then times
      else
        var r := InsertTime(front, t);
        Appended(r, last);
        r + [last]
  }

  /** The distinct positive event times of one trace, merged into a list. */
  function MergeTimes(times: seq<nat>, events: seq<Event>): (r: seq<nat>)
    requires Increasing(times)
    ensures Increasing(r)
  {
    if events == [] then times
    else
      var merged, last := MergeTimes(times, events[..|events| - 1]), events[|events| - 1];
      if last.time > 0 then InsertTime(merged, last.time) else merged
  }

  function SortedTimes(traces: seq<Trace>): (r: seq<nat>)
    ensures Increasing(r)
  {
    if traces == [] then [] else MergeTimes(SortedTimes(traces[..|traces| - 1]), traces[|traces| - 1].events)
  }

  ghost predicate IsEventTime(traces: seq<Trace>, t: nat) {
    exists i, k :: 0 <= i < |traces| && 0 <= k < |traces[i].events| && traces[i].events[k].time == t
  }

  ghost predicate HasTime(events: seq<Event>, t: nat) {
    exists k :: 0 <= k < |events| && events[k].time == t
  }

  lemma LastTime(events: seq<Event>, t: nat)
    requires events != []
    ensures HasTime(events, t) <==> HasTime(events[..|events| - 1], t) || events[|events| - 1].time == t
  {
    var front := events[..|events| - 1];
    if HasTime(front, t) {
      var k :| 0 <= k < |front| && front[k].time == t;
      assert events[k].time == t;
    }
    if HasTime(events, t) && events[|events| - 1].time != t {
      var k :| 0 <= k < |events| && events[k].time == t;
      assert front[k].time == t;
    }
  }

  lemma {:induction false} MergedTimes(times: seq<nat>, events: seq<Event>, t: nat)
    requires Increasing(times)
    ensures t in MergeTimes(times, events) <==> t in times || (t > 0 && HasTime(events, t))
    decreases |events|
  {
    if events != [] {
      MergedTimes(times, events[..|events| - 1], t);
      LastTime(events, t);
    }
  }

  /** The sorted list holds exactly the positive event times of all traces. */
  lemma {:induction false} SortedTimesAreEventTimes(traces: seq<Trace>, t: nat)
    ensures t in SortedTimes(traces) <==> t > 0 && IsEventTime(traces, t)
    decreases |traces|
  {
    if traces != [] {
      var front, last := traces[..|traces| - 1], traces[|traces| - 1];
      SortedTimesAreEventTimes(front, t);
      MergedTimes(SortedTimes(front), last.events, t);
      if HasTime(last.events, t) {
        var k :| 0 <= k < |last.events| && last.events[k].time == t;
        assert traces[|traces| - 1].events[k].time == t;
      }
      if IsEventTime(front, t) {
        var i, k :| 0 <= i < |front| && 0 <= k < |front[i].events| && front[i].events[k].time == t;
        assert traces[i] == front[i];
      }
    }
  }

  /** Time 0, the event times, and the end of the capture if it comes later. */
  function Marks(times: seq<nat>, duration: nat): seq<nat> {
    var last := if times == [] then 0 else times[|times| - 1];
    [0] + times + if duration > last then [duration] else []
  }

  /** The least gap between neighbouring marks, or 1 if there is only one mark. */
  predicate IsLeastGap(marks: seq<nat>, period: nat) {
    && (forall i :: 0 <= i < |marks| - 1 ==> marks[i + 1] - marks[i] >= period)
    && if |marks| > 1 then exists i :: 0 <= i < |marks| - 1 && marks[i + 1] - marks[i] == period else period == 1
  }

  /** The differences between neighbouring marks; with increasing marks none is skipped. */
  method Deltas(times: seq<nat>, duration: nat) returns (deltas: seq<nat>)
    requires Increasing(Marks(times, duration))
    ensures |deltas| == |Marks(times, duration)| - 1
    ensures forall k :: 0 <= k < |deltas| ==> deltas[k] == Marks(times, duration)[k + 1] - Marks(times, duration)[k] > 0
  {
    ghost var marks := Marks(times, duration);
    deltas := [];
    var previous := 0;
    for i := 0 to |times|
      invariant previous == marks[i] && |deltas| == i
      invariant forall k :: 0 <= k < i ==> deltas[k] == marks[k + 1] - marks[k] > 0
    {
      assert marks[i + 1] == times[i];
      if times[i] > previous {
        deltas := deltas + [times[i] - previous];
      }
      previous := times[i];
    }
    if duration > previous {
      deltas := deltas + [duration - previous];
    }
  }

  method InferSamplePeriod(duration: nat, traces: seq<Trace>) returns (period: nat)
    ensures period > 0 && IsLeastGap(Marks(SortedTimes(traces), duration), period)
  {
    MarksIncrease(traces, duration);
    var deltas := Deltas(SortedTimes(traces), duration);
    if deltas == [] {
      return 1;
    }
    period := deltas[0];
    ghost var at := 0;
    for i := 1 to |deltas|
      invariant at < |deltas| && period == deltas[at] && forall k :: 0 <= k < i ==> period <= deltas[k]
    {
      if deltas[i] < period {
        period, at := deltas[i], i;
      }
    }
    assert Marks(SortedTimes(traces), duration)[at + 1] - Marks(SortedTimes(traces), duration)[at] == period;
  }

  lemma MarksIncrease(traces: seq<Trace>, duration: nat)
    ensures Increasing(Marks(SortedTimes(traces), duration))
  {
    forall i | 0 <= i < |SortedTimes(traces)|
      ensures SortedTimes(traces)[i] > 0
    {
      SortedTimesAreEventTimes(traces, SortedTimes(traces)[i]);
    }
  }

  /** The sample taken at `t` or next after it. */
  function SampleAtOrAfter(t: nat, period: nat): nat
    requires period > 0
  {
    (t + period - 1) / period
  }

  lemma SampleIsNear(t: nat, period: nat)
    requires period > 0
    ensures t <= SampleAtOrAfter(t, period) * period < t + period
  {
    var j := SampleAtOrAfter(t, period);
    assert period * j <= t + period - 1 < period * j + period;
  }

  /** The next mark after one is at least a period away, and no event lies between. */
  lemma NextMark(traces: seq<Trace>, duration: nat, period: nat, t: nat) returns (next: nat)
    requires IsLeastGap(Marks(SortedTimes(traces), duration), period)
    requires t == 0 || IsEventTime(traces, t)
    requires t < duration && forall u: nat :: IsEventTime(traces, u) ==> u <= duration
    ensures t + period <= next <= duration
    ensures forall u: nat :: IsEventTime(traces, u) && u > t ==> u >= next
  {
    var times := SortedTimes(traces);
    var marks := Marks(times, duration);
    MarksIncrease(traces, duration);
    SortedTimesAreEventTimes(traces, t);
    var i := MarkIndex(times, duration, t);
    next := marks[i + 1];
    assert marks[i + 1] - marks[i] >= period;
    if next in times {
      SortedTimesAreEventTimes(traces, next);
    }
    forall u: nat | IsEventTime(traces, u) && u > t
      ensures u >= next
    {
      SortedTimesAreEventTimes(traces, u);
      LaterMark(times, duration, i, u);
    }
  }

  /** Where a mark before the end stands; it has a successor, an event time or the end. */
  lemma MarkIndex(times: seq<nat>, duration: nat, t: nat) returns (i: nat)
    requires Increasing(times) && (t == 0 || t in times) && t < duration
    ensures i + 1 < |Marks(times, duration)| && Marks(times, duration)[i] == t
    ensures Marks(times, duration)[i + 1] in times || Marks(times, duration)[i + 1] == duration
  {
    i := 0;
    if t > 0 {
      var k :| 0 <= k < |times| && times[k] == t;
      i := k + 1;
    }
  }

  lemma LaterMark(times: seq<nat>, duration: nat, i: nat, u: nat)
    requires Increasing(Marks(times, duration)) && i + 1 < |Marks(times, duration)|
    requires u in times && u > Marks(times, duration)[i]
    ensures u >= Marks(times, duration)[i + 1]
  {
    var marks := Marks(times, duration);
    var k :| 0 <= k < |times| && times[k] == u;
    assert marks[k + 1] == u;
  }

  /** Every event time before the end of the capture has a sample at or after it and before the next event of any trace,
      so that sample shows the value every trace settled on. */
  lemma SettledValuesAreSampled(traces: seq<Trace>, duration: nat, period: nat, t: nat)
    requires period > 0 && IsLeastGap(Marks(SortedTimes(traces), duration), period)
    requires t == 0 || IsEventTime(traces, t)
    requires t < duration && forall u: nat :: IsEventTime(traces, u) ==> u <= duration
    ensures var j := SampleAtOrAfter(t, period);
            && t <= j * period < duration && j < SampleCount(duration, period)
            && (forall u: nat :: IsEventTime(traces, u) && u > t ==> j * period < u)
            && (forall i :: 0 <= i < |traces| ==> ValueAt(traces[i], j * period) == ValueAt(traces[i], t))
  {
    var j := SampleAtOrAfter(t, period);
    SampleIsNear(t, period);
    var next := NextMark(traces, duration, period, t);
    SampleInCapture(j, duration, period);
    forall i | 0 <= i < |traces|
      ensures ValueAt(traces[i], j * period) == ValueAt(traces[i], t)
    {
      QuietUntil(traces, i, t, j * period, next);
    }
  }

  /** If no trace has an event after `t` and before `next`, a trace keeps its value that long. */
  lemma QuietUntil(traces: seq<Trace>, i: nat, t: nat, later: nat, next: nat)
    requires i < |traces| && t <= later < next
    requires forall u: nat :: IsEventTime(traces, u) && u > t ==> u >= next
    ensures ValueAt(traces[i], later) == ValueAt(traces[i], t)
  {
    forall k | 0 <= k < |traces[i].events| && traces[i].events[k].time > t
      ensures traces[i].events[k].time > later
    {
      assert IsEventTime(traces, traces[i].events[k].time);
    }
    NoEventBetween(traces[i].events, t, later);
  }

  lemma SampleInCapture(j: nat, duration: nat, period: nat)
    requires period > 0 && j * period < duration
    ensures j < SampleCount(duration, period)
  {
    var q := duration / period;
    assert duration < period * q + period;
    if q + 1 <= j {
      Scales(period, q + 1, j);
    }
  }

  lemma {:induction false} NoEventBetween(events: seq<Event>, t: int, later: int)
    requires t <= later && forall k :: 0 <= k < |events| && events[k].time > t ==> events[k].time > later
    ensures LastAt(events, later) == LastAt(events, t)
    decreases |events|
  {
    if events != [] {
      assert events[|events| - 1].time <= t <==> events[|events| - 1].time <= later;
      NoEventBetween(events[..|events| - 1], t, later);
    }
  }

  /** Samples of later events come later: the settled states appear in the output in their order in time. */
  lemma SettledSamplesInOrder(traces: seq<Trace>, duration: nat, period: nat, t: nat, u: nat)
    requires period > 0 && IsLeastGap(Marks(SortedTimes(traces), duration), period)
    requires (t == 0 || IsEventTime(traces, t)) && IsEventTime(traces, u) && t < u < duration
    requires forall v: nat :: IsEventTime(traces, v) ==> v <= duration
    ensures SampleAtOrAfter(t, period) < SampleAtOrAfter(u, period)
  {
    SampleIsNear(t, period);
    SampleIsNear(u, period);
    var next := NextMark(traces, duration, period, t);
    var i, j := SampleAtOrAfter(t, period), SampleAtOrAfter(u, period);
    if j <= i {
      Scales(period, j, i);
    }
  }

  /** An event at the very end of the capture is sampled exactly when the period divides the duration. */
  lemma EndIsSampledIff(duration: nat, period: nat)
    requires period > 0
    ensures (exists j: nat :: j < SampleCount(duration, period) && duration <= j * period) <==> duration % period == 0
  {
    var q := duration / period;
    assert duration == period * q + duration % period;
    assert SampleCount(duration, period) == q + 1;
    if duration % period == 0 {
      assert q < SampleCount(duration, period) && duration <= q * period;
    }
    forall j: nat | j < SampleCount(duration, period) && duration <= j * period
      ensures duration % period == 0
    {
      if j <= q {
        Scales(period, j, q);
      }
    }
  }

  /** End to end: sampling the traces of a stream whose time only moves forward, at the inferred period, puts the
      stream's own value of signal i at event time t into bit 7 - i % 8 of byte i / 8 of the sample at or after t. */
  lemma StreamIsSampledLosslessly(
    tokens: seq<Token>, selected: seq<string>, tick: nat, traces: seq<Trace>, period: nat, t: nat, i: nat)
    requires TimesForward(tokens) && i < |selected| == |traces|
    requires forall k :: 0 <= k < |selected| ==> traces[k] == TraceOf(tokens, selected[k], tick)
    requires period > 0 && IsLeastGap(Marks(SortedTimes(traces), EndTime(tokens, tick)), period)
    requires (t == 0 || IsEventTime(traces, t)) && t < EndTime(tokens, tick)
    ensures var duration := EndTime(tokens, tick);
            var unit, rows, j := UnitSize(|traces|), SampleCount(duration, period), SampleAtOrAfter(t, period);
            j < rows &&
            (BitInSample(PackedRows(traces, rows, period, unit), unit, j, i) <==>
             StreamValue(Recorded(tokens, selected[i], tick), t))
  {
    var duration := EndTime(tokens, tick);
    forall u: nat | IsEventTime(traces, u)
      ensures u <= duration
    {
      var a, k :| 0 <= a < |traces| && 0 <= k < |traces[a].events| && traces[a].events[k].time == u;
      EventsBeforeEnd(tokens, selected[a], tick, k);
    }
    var j := SampleAtOrAfter(t, period);
    SettledValuesAreSampled(traces, duration, period, t);
    SampleBit(traces, SampleCount(duration, period), period, UnitSize(|traces|), j, i);
    TraceReadsStream(tokens, selected[i], tick, Recorded(tokens, selected[i], tick),
                     TraceOf(tokens, selected[i], tick), t);
    SampledIsStepValue(traces[i], j, period);
  }

  lemma EventsBeforeEnd(tokens: seq<Token>, symbol: string, tick: nat, k: nat)
    requires TimesForward(tokens) && k < |TraceOf(tokens, symbol, tick).events|
    ensures TraceOf(tokens, symbol, tick).events[k].time <= EndTime(tokens, tick)
  {
    RecordedInOrder(tokens, symbol, tick);
    ChangesOnlyStart(Recorded(tokens, symbol, tick));
  }
}
