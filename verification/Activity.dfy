/**
 Switching activity of signals in a value-change stream: time spent at 0, 1, unknown and
 high impedance, and toggles. Accounting is conserved exactly when time never goes back.
 */
module Activity {
  import opened Bits
  import opened Text
  import opened Wrappers

  // ---- values ----

  datatype Class = Zero | One | Unknown | HighZ

  function LowerChar(c: char): char {
    if 'A' <= c <= 'Z' then c - 'A' + 'a' else c
  }

  function Lower(text: string): (r: string)
    ensures |r| == |text| && forall i :: 0 <= i < |text| ==> r[i] == LowerChar(text[i])
  {
    seq(|text|, i requires 0 <= i < |text| => LowerChar(text[i]))
  }

  /** Only the capitals of ASCII change, to the letters 32 codes on. */
  lemma LowerCodes(c: char)
    ensures LowerChar(c) as int == c as int + if 65 <= c as int <= 90 then 32 else 0
  {
  }

  predicate Only(text: string, c: char) {
    forall i :: 0 <= i < |text| ==> text[i] == c
  }

  /** Any z makes a value high impedance, any x unknown; otherwise it must be all zeros or all ones. */
  function ClassOf(text: string): Class {
    if text == "" then Unknown
    else if 'z' in text then HighZ
    else if 'x' in text then Unknown
    else if Only(text, '0') then Zero
    else if Only(text, '1') then One
    else Unknown
  }

  function ClassifyValue(value: string): Class {
    ClassOf(Lower(Strip(value)))
  }

  function Repeat(c: char, n: nat): (r: string)
    ensures |r| == n && forall i :: 0 <= i < n ==> r[i] == c
  {
    seq(n, i => c)
  }

  /** A value without white space around it, in lower case, brought to a signal's width. */
  function NormalizeValue(raw: string, width: int): string {
    ToWidth(Lower(Strip(raw)), width)
  }

  /** Cut to the last digits, or filled with the first. */
  function ToWidth(text: string, width: int): string {
    if text == "" then Repeat('x', if width > 1 then width else 1)
    else if width <= 1 then [text[|text| - 1]]
    else if |text| >= width then text[|text| - width..]
    else Repeat(text[0], width - |text|) + text
  }

  /** A normalised value is as wide as its signal (one digit at least), ends in the value's last digits as far as they
      reach, and is filled up with the value's first digit, or with unknowns if there is none. */
  lemma NormalizedDigits(text: string, width: int)
    ensures var r := ToWidth(text, width);
            var wide := if width > 1 then width else 1;
            var kept := if |text| < wide then |text| else wide;
            && |r| == wide && r[wide - kept..] == text[|text| - kept..]
            && forall i :: 0 <= i < wide - kept ==> r[i] == if text == "" then 'x' else text[0]
  {
    if width <= 1 && text != "" {
      assert text[|text| - 1..] == [text[|text| - 1]];
    } else if text != "" && |text| < width {
      assert text[0..] == text;
    }
  }

  /** Filling a value up never changes its class. */
  lemma FillingKeepsClass(text: string, width: int, filled: string)
    requires text != "" && |text| <= width && filled == ToWidth(text, width)
    ensures ClassOf(filled) == ClassOf(text)
  {
    SameDigits(text, width, filled);
    var n := width - |text|;
    forall i | 0 <= i < |text|
      ensures text[i] in filled
    {
      assert filled[n + i] == text[i];
    }
    SameClass(filled, text);
  }

  lemma SameDigits(text: string, width: int, filled: string)
    requires text != "" && |text| <= width && filled == ToWidth(text, width)
    ensures |filled| == width
    ensures forall i :: 0 <= i < width ==> filled[i] == text[if i < width - |text| then 0 else i - (width - |text|)]
  {
  }

  /** A class depends only on which digits there are. */
  lemma SameClass(a: string, b: string)
    requires a != "" && b != "" && (forall i :: 0 <= i < |a| ==> a[i] in b) && forall i :: 0 <= i < |b| ==> b[i] in a
    ensures ClassOf(a) == ClassOf(b)
  {
  }

  // ---- what filling does to numbers ----

  predicate IsBinary(text: string) {
    forall c :: c in text ==> c == '0' || c == '1'
  }

  /** The number binary digits spell, highest first. */
  function Spells(text: string): nat {
    if text == "" then 0
    else 2 * Spells(text[..|text| - 1]) + AsBit(text[|text| - 1] == '1')
  }

  /** Digits put in front keep the number exactly if they spell 0 themselves; otherwise they raise it. */
  lemma {:induction false} FrontDigits(front: string, text: string)
    ensures Spells(front) == 0 ==> Spells(front + text) == Spells(text)
    ensures Spells(front) > 0 ==> Spells(front + text) > Spells(text)
    decreases |text|
  {
    if text == "" {
      assert front + text == front;
    } else {
      var n := |text| - 1;
      FrontDigits(front, text[..n]);
      assert (front + text)[..|front| + n] == front + text[..n];
    }
  }

  lemma {:induction false} RepeatedDigit(c: char, n: nat)
    ensures Spells(Repeat(c, n)) == 0 <==> n == 0 || c != '1'
    decreases n
  {
    if n > 0 {
      RepeatedDigit(c, n - 1);
      assert Repeat(c, n)[..n - 1] == Repeat(c, n - 1);
    }
  }

  /** A short binary value keeps its number when filled up exactly if it starts with 0: the fill repeats the first
      digit, so a leading 1 is accounted as if the value had been all ones to the left. */
  lemma FillingKeepsNumberIff(text: string, width: int)
    requires text != "" && IsBinary(text) && |text| <= width
    ensures Spells(ToWidth(text, width)) == Spells(text) <==> |text| == width || text[0] == '0'
  {
    assert text[0] in text;
    if |text| == width {
      assert text[0..] == text;
      assert width == 1 ==> text == [text[|text| - 1]];
    } else {
      FrontDigits(Repeat(text[0], width - |text|), text);
      RepeatedDigit(text[0], width - |text|);
    }
  }

  /** What a class says of a value: any z makes it high impedance; otherwise binary digits are zero if the number they
      spell is 0, one if it is the greatest of its width, and everything else is unknown. */
  lemma ClassIs(text: string)
    ensures ClassOf(text) == HighZ <==> 'z' in text
    ensures ClassOf(text) == Zero <==> text != "" && IsBinary(text) && Spells(text) == 0
    ensures ClassOf(text) == One <==> text != "" && IsBinary(text) && Spells(text) == Pow2(|text|) - 1
  {
    if IsBinary(text) {
      SpellsNothing(text);
      SpellsEverything(text);
      assert text != "" ==> text[0] in text;
    }
    if Only(text, '0') || Only(text, '1') {
      assert forall c :: c in text ==> exists i :: 0 <= i < |text| && text[i] == c;
      SpellsNothing(text);
      SpellsEverything(text);
    }
  }

  lemma {:induction false} SpellsNothing(text: string)
    requires IsBinary(text)
    ensures Spells(text) == 0 <==> Only(text, '0')
    decreases |text|
  {
    if text != "" {
      var n := |text| - 1;
      assert text[n] in text;
      assert forall c :: c in text[..n] ==> c in text;
      SpellsNothing(text[..n]);
      assert Only(text, '0') <==> Only(text[..n], '0') && text[n] == '0';
    }
  }

  lemma {:induction false} SpellsEverything(text: string)
    requires IsBinary(text)
    ensures Spells(text) < Pow2(|text|)
    ensures Spells(text) == Pow2(|text|) - 1 <==> Only(text, '1')
    decreases |text|
  {
    if text != "" {
      var n := |text| - 1;
      assert text[n] in text;
      assert forall c :: c in text[..n] ==> c in text;
      SpellsEverything(text[..n]);
      assert Only(text, '1') <==> Only(text[..n], '1') && text[n] == '1';
    }
  }

  // ---- one signal ----

  datatype Observation = Observation(value: string, time: int)

  datatype SignalActivity = SignalActivity(toggles: nat, t0: int, t1: int, tx: int, tz: int)

  /** Time from one instant to a later one; going back counts nothing. */
  function Gap(start: int, end: int): nat {
    if end > start then end - start else 0
  }

  /** Time spent in a class between the first and the last observation. */
  function TimeIn(obs: seq<Observation>, k: Class): int
    decreases |obs|, 0
  {
    if |obs| <= 1 then 0 else TimeUntil(obs[..|obs| - 1], k, obs[|obs| - 1].time)
  }

  /** Time spent in a class from the first observation to a given end. */
  function TimeUntil(obs: seq<Observation>, k: Class, end: int): int
    decreases |obs|, 1
  {
    if obs == [] then 0
    else
      var last := obs[|obs| - 1];
      TimeIn(obs, k) + if ClassifyValue(last.value) == k then Gap(last.time, end) else 0
  }

  function Toggles(obs: seq<Observation>): nat
    decreases |obs|
  {
    if |obs| <= 1 then 0
    else
      var front := obs[..|obs| - 1];
      Toggles(front) + AsBit(front[|front| - 1].value != obs[|obs| - 1].value)
  }

  /** The account a signal's observations and the end time call for. */
  function Account(obs: seq<Observation>, end: int): SignalActivity {
    SignalActivity(Toggles(obs), TimeUntil(obs, Zero, end), TimeUntil(obs, One, end),
                   TimeUntil(obs, Unknown, end), TimeUntil(obs, HighZ, end))
  }

  class MutableSignal {
    const width: int
    var currentValue: Option<string>
    var lastChange: int
    var toggles: nat
    var t0: int
    var t1: int
    var tx: int
    var tz: int
    /** Everything observed so far. */
    ghost var observed: seq<Observation>

    ghost predicate Valid()
      reads this
    {
      && (currentValue == None <==> observed == [])
      && (observed != [] ==>
            currentValue == Some(observed[|observed| - 1].value) && lastChange == observed[|observed| - 1].time)
      && Holds(TimeIn(observed, Zero), TimeIn(observed, One), TimeIn(observed, Unknown), TimeIn(observed, HighZ))
      && toggles == Toggles(observed)
    }

    predicate Holds(zero: int, one: int, unknown: int, highZ: int)
      reads this
    {
      t0 == zero && t1 == one && tx == unknown && tz == highZ
    }

    constructor (width: int)
      ensures Valid() && observed == [] && this.width == width
    {
      this.width := width;
      currentValue, lastChange, toggles, t0, t1, tx, tz, observed := None, 0, 0, 0, 0, 0, 0, [];
    }

    /** Adds the time since the last change to the class of the current value. */
    method Accumulate(end: int)
      requires Valid()
      modifies this`lastChange, this`t0, this`t1, this`tx, this`tz
      ensures Holds(TimeUntil(observed, Zero, end), TimeUntil(observed, One, end),
                    TimeUntil(observed, Unknown, end), TimeUntil(observed, HighZ, end)) || observed == []
      ensures observed == [] ==> Valid()
    {
      if currentValue == None {
        return;
      }
      if end <= lastChange {
        return;
      }
      var delta := end - lastChange;
      match ClassifyValue(currentValue.value) {
        case Zero => t0 := t0 + delta;
        case One => t1 := t1 + delta;
        case HighZ => tz := tz + delta;
        case Unknown => tx := tx + delta;
      }
      lastChange := end;
    }

    method Observe(value: string, at: int)
      requires Valid()
      modifies this
      ensures Valid() && observed == old(observed) + [Observation(value, at)]
    {
      ghost var next := Observation(value, at);
      ghost var all := observed + [next];
      OneMore(observed, next);
      if currentValue.Some? {
        Accumulate(at);
        if value != currentValue.value {
          toggles := toggles + 1;
        }
      }
      assert Holds(TimeIn(all, Zero), TimeIn(all, One), TimeIn(all, Unknown), TimeIn(all, HighZ));
      assert toggles == Toggles(all) && all[|all| - 1] == next;
      currentValue, lastChange, observed := Some(value), at, all;
    }

    method Finish(end: int) returns (activity: SignalActivity)
      requires Valid()
      modifies this
      ensures activity == Account(old(observed), end)
    {
      Accumulate(end);
      activity := SignalActivity(toggles, t0, t1, tx, tz);
    }
  }

  /** What one more observation adds: its time closes the previous value, and a new value is a toggle. */
  lemma OneMore(obs: seq<Observation>, next: Observation)
    ensures TimeIn(obs + [next], Zero) == TimeUntil(obs, Zero, next.time)
    ensures TimeIn(obs + [next], One) == TimeUntil(obs, One, next.time)
    ensures TimeIn(obs + [next], Unknown) == TimeUntil(obs, Unknown, next.time)
    ensures TimeIn(obs + [next], HighZ) == TimeUntil(obs, HighZ, next.time)
    ensures Toggles(obs + [next]) == Toggles(obs) + AsBit(obs != [] && obs[|obs| - 1].value != next.value)
  {
    assert (obs + [next])[..|obs|] == obs;
  }

  // ---- the stream ----

  datatype Token = Timestamp(time: int) | Change(symbol: string, raw: string)

  function Now(tokens: seq<Token>): int {
    if tokens == [] then 0
    else
      var last := tokens[|tokens| - 1];
      if last.Timestamp? then last.time else Now(tokens[..|tokens| - 1])
  }

  /** What one signal of a given width sees of a stream. */
  function Seen(tokens: seq<Token>, symbol: string, width: int): seq<Observation> {
    if tokens == [] then []
    else
      var front, last := tokens[..|tokens| - 1], tokens[|tokens| - 1];
      if last.Change? && last.symbol == symbol
      then Seen(front, symbol, width) + [Observation(NormalizeValue(last.raw, width), Now(front))]
      else Seen(front, symbol, width)
  }

  /** The time is that of the last time stamp, or 0 before the first. */
  lemma {:induction false} NowIs(tokens: seq<Token>, k: nat)
    requires k <= |tokens| && forall m :: k <= m < |tokens| ==> !tokens[m].Timestamp?
    requires k > 0 ==> tokens[k - 1].Timestamp?
    ensures Now(tokens) == if k == 0 then 0 else tokens[k - 1].time
    decreases |tokens|
  {
    if k < |tokens| {
      NowIs(tokens[..|tokens| - 1], k);
    }
  }

  /** A signal sees exactly its own changes, each normalised and with the time it was read at. */
  lemma {:induction false} SeenHolds(tokens: seq<Token>, symbol: string, width: int, o: Observation)
    ensures o in Seen(tokens, symbol, width) <==> exists k :: ShownAt(tokens, symbol, width, o, k)
    decreases |tokens|
  {
    if tokens != [] {
      var n := |tokens| - 1;
      SeenHolds(tokens[..n], symbol, width, o);
      LastShown(tokens, symbol, width, o, n);
      ShownSomewhere(tokens, symbol, width, o, n);
    }
  }

  lemma ShownSomewhere(tokens: seq<Token>, symbol: string, width: int, o: Observation, n: nat)
    requires n == |tokens| - 1
    ensures (exists k :: ShownAt(tokens, symbol, width, o, k)) <==>
            (exists k :: ShownAt(tokens[..n], symbol, width, o, k)) || ShownAt(tokens, symbol, width, o, n)
  {
    if k :| ShownAt(tokens[..n], symbol, width, o, k) {
      ShownInFront(tokens, symbol, width, o, k);
    }
    if k :| ShownAt(tokens, symbol, width, o, k) && k < n {
      ShownInFront(tokens, symbol, width, o, k);
    }
  }

  lemma ShownInFront(tokens: seq<Token>, symbol: string, width: int, o: Observation, k: int)
    requires 0 <= k < |tokens| - 1
    ensures ShownAt(tokens[..|tokens| - 1], symbol, width, o, k) <==> ShownAt(tokens, symbol, width, o, k)
  {
    assert tokens[..|tokens| - 1][..k] == tokens[..k];
  }

  lemma LastShown(tokens: seq<Token>, symbol: string, width: int, o: Observation, n: nat)
    requires n == |tokens| - 1
    ensures o in Seen(tokens, symbol, width) <==>
            o in Seen(tokens[..n], symbol, width) || ShownAt(tokens, symbol, width, o, n)
  {
  }

  predicate ShownAt(tokens: seq<Token>, symbol: string, width: int, o: Observation, k: int) {
    0 <= k < |tokens| && tokens[k].Change? && tokens[k].symbol == symbol &&
    o.value == ToWidth(Lower(Strip(tokens[k].raw)), width) && o.time == Now(tokens[..k])
  }

  predicate Distinct(signals: map<string, MutableSignal>) {
    forall s, r :: s in signals && r in signals && s != r ==> signals[s] != signals[r]
  }

  ghost predicate Tracked(signal: MutableSignal, symbol: string, tokens: seq<Token>)
    reads signal
  {
    signal.Valid() && signal.observed == Seen(tokens, symbol, signal.width)
  }

  /** Every signal has observed just what the stream shows of it. */
  ghost predicate Tracks(signals: map<string, MutableSignal>, tokens: seq<Token>)
    reads signals.Values
  {
    forall s :: s in signals ==> Tracked(signals[s], s, tokens)
  }

  method ReadToken(signals: map<string, MutableSignal>, now: int, token: Token, ghost before: seq<Token>)
    returns (time: int)
    requires Distinct(signals) && Tracks(signals, before) && now == Now(before)
    modifies signals.Values
    ensures Tracks(signals, before + [token]) && time == Now(before + [token])
  {
    ghost var after := before + [token];
    assert after[..|before|] == before;
    time := now;
    match token
    case Timestamp(t) =>
      time := t;
      assert forall s :: s in signals ==> Tracked(signals[s], s, before) ==> Tracked(signals[s], s, after);
    case Change(symbol, raw) =>
      if symbol in signals {
        var signal := signals[symbol];
        assert Tracked(signal, symbol, before);
        signal.Observe(NormalizeValue(raw, signal.width), now);
        assert Tracked(signal, symbol, after);
      }
      forall s | s in signals && s != symbol
        ensures Tracked(signals[s], s, after)
      {
        assert old(Tracked(signals[s], s, before));
        assert symbol in signals ==> signals[s] != signals[symbol];
      }
  }

  method ReadStream(tokens: seq<Token>, signals: map<string, MutableSignal>) returns (end: int)
    requires Distinct(signals) && Tracks(signals, [])
    modifies signals.Values
    ensures Tracks(signals, tokens) && end == Now(tokens)
  {
    end := 0;
    for i := 0 to |tokens|
      invariant Tracks(signals, tokens[..i]) && end == Now(tokens[..i])
    {
      end := ReadToken(signals, end, tokens[i], tokens[..i]);
      assert tokens[..i + 1] == tokens[..i] + [tokens[i]];
    }
    assert tokens[..|tokens|] == tokens;
  }

  method FinishAll(end: int, symbols: seq<string>, signals: map<string, MutableSignal>, ghost tokens: seq<Token>)
    returns (activities: seq<SignalActivity>)
    requires forall i :: 0 <= i < |symbols| ==> symbols[i] in signals
    requires forall i, j :: 0 <= i < j < |symbols| ==> symbols[i] != symbols[j]
    requires Distinct(signals) && Tracks(signals, tokens)
    modifies signals.Values
    ensures |activities| == |symbols|
    ensures forall i :: 0 <= i < |symbols| ==>
              activities[i] == Account(Seen(tokens, symbols[i], signals[symbols[i]].width), end)
  {
    activities := [];
    for i := 0 to |symbols|
      invariant |activities| == i
      invariant forall k :: i <= k < |symbols| ==> Tracked(signals[symbols[k]], symbols[k], tokens)
      invariant forall k :: 0 <= k < i ==>
                  activities[k] == Account(Seen(tokens, symbols[k], signals[symbols[k]].width), end)
    {
      var signal := signals[symbols[i]];
      assert Tracked(signal, symbols[i], tokens);
      assert forall k :: i < k < |symbols| ==> signals[symbols[k]] != signal;
      var activity := signal.Finish(end);
      activities := activities + [activity];
    }
  }

  /** Feeds a stream to fresh signals, one object per symbol, and closes their accounts at the stream's last time. */
  method ParseVcdActivity(tokens: seq<Token>, symbols: seq<string>, signals: map<string, MutableSignal>)
    returns (end: int, activities: seq<SignalActivity>)
    requires forall i :: 0 <= i < |symbols| ==> symbols[i] in signals
    requires forall i, j :: 0 <= i < j < |symbols| ==> symbols[i] != symbols[j]
    requires Distinct(signals) && Tracks(signals, [])
    modifies signals.Values
    ensures end == Now(tokens) && |activities| == |symbols|
    ensures forall i :: 0 <= i < |symbols| ==>
              activities[i] == Account(Seen(tokens, symbols[i], signals[symbols[i]].width), end)
  {
    end := ReadStream(tokens, signals);
    activities := FinishAll(end, symbols, signals, tokens);
  }

  // ---- conservation ----

  function Total(a: SignalActivity): int {
    a.t0 + a.t1 + a.tx + a.tz
  }

  predicate Forward(obs: seq<Observation>) {
    forall i :: 0 <= i < |obs| - 1 ==> obs[i].time <= obs[i + 1].time
  }

  lemma ForwardExtends(obs: seq<Observation>)
    requires |obs| > 1
    ensures Forward(obs) <==> Forward(obs[..|obs| - 1]) && obs[|obs| - 2].time <= obs[|obs| - 1].time
  {
    var front := obs[..|obs| - 1];
    if Forward(front) && obs[|obs| - 2].time <= obs[|obs| - 1].time {
      forall i | 0 <= i < |obs| - 1
        ensures obs[i].time <= obs[i + 1].time
      {
        if i < |front| - 1 {
          assert front[i].time <= front[i + 1].time;
        }
      }
    }
    if Forward(obs) {
      assert obs[|obs| - 2].time <= obs[|obs| - 2 + 1].time;
      forall i | 0 <= i < |front| - 1
        ensures front[i].time <= front[i + 1].time
      {
        assert obs[i].time <= obs[i + 1].time;
      }
    }
  }

  /** The classes share out the gaps: together they cover at least the whole span, and exactly it if and only if
      no step goes back in time. */
  lemma {:induction false} ClassesCoverSpan(obs: seq<Observation>)
    requires obs != []
    ensures var sum := TimeIn(obs, Zero) + TimeIn(obs, One) + TimeIn(obs, Unknown) + TimeIn(obs, HighZ);
            var span := obs[|obs| - 1].time - obs[0].time;
            sum >= span && (sum == span <==> Forward(obs))
    decreases |obs|
  {
    if |obs| > 1 {
      var n := |obs| - 1;
      var front := obs[..n];
      ClassesCoverSpan(front);
      ForwardExtends(obs);
    }
  }

  /** An observed signal's times add up to the time since its first observation exactly when the stream's time, the end
      included, never goes back; otherwise they add up to more. */
  lemma TimesAreConserved(obs: seq<Observation>, end: int)
    requires obs != []
    ensures Total(Account(obs, end)) >= end - obs[0].time
    ensures Total(Account(obs, end)) == end - obs[0].time <==> Forward(obs + [Observation("", end)])
  {
    ClassesCoverSpan(obs + [Observation("", end)]);
    OneMore(obs, Observation("", end));
  }

  // ---- what a class's time means ----

  /** The class of the value a signal shows at an instant: the last observation's that is not after it. */
  function ClassAt(obs: seq<Observation>, t: int): Class
    requires obs != []
    decreases |obs|
  {
    var n := |obs| - 1;
    if n == 0 || obs[n].time <= t then ClassifyValue(obs[n].value) else ClassAt(obs[..n], t)
  }

  /** How many instants of a span show a class. */
  function Instants(obs: seq<Observation>, k: Class, start: int, end: int): nat
    requires obs != []
    decreases end - start
  {
    if end <= start then 0
    else Instants(obs, k, start, end - 1) + AsBit(ClassAt(obs, end - 1) == k)
  }

  lemma {:induction false} SameInstants(a: seq<Observation>, b: seq<Observation>, k: Class, start: int, end: int)
    requires a != [] && b != []
    requires forall t :: start <= t < end ==> ClassAt(a, t) == ClassAt(b, t)
    ensures Instants(a, k, start, end) == Instants(b, k, start, end)
    decreases end - start
  {
    if start < end {
      SameInstants(a, b, k, start, end - 1);
    }
  }

  lemma {:induction false} LastValueHolds(obs: seq<Observation>, k: Class, start: int, end: int)
    requires obs != [] && start <= obs[|obs| - 1].time <= end
    ensures Instants(obs, k, start, end) ==
            Instants(obs, k, start, obs[|obs| - 1].time) +
            if ClassifyValue(obs[|obs| - 1].value) == k then end - obs[|obs| - 1].time else 0
    decreases end - start
  {
    if obs[|obs| - 1].time < end {
      LastValueHolds(obs, k, start, end - 1);
    }
  }

  lemma {:induction false} ForwardFromFirst(obs: seq<Observation>)
    requires obs != [] && Forward(obs)
    ensures obs[0].time <= obs[|obs| - 1].time
    decreases |obs|
  {
    if |obs| > 1 {
      ForwardExtends(obs);
      ForwardFromFirst(obs[..|obs| - 1]);
    }
  }

  /** While time never goes back, the time in a class is the number of instants at which the signal shows that class. */
  lemma {:induction false} TimeInCountsInstants(obs: seq<Observation>, k: Class)
    requires obs != [] && Forward(obs)
    ensures TimeIn(obs, k) == Instants(obs, k, obs[0].time, obs[|obs| - 1].time)
    decreases |obs|
  {
    if |obs| > 1 {
      var n := |obs| - 1;
      var front := obs[..n];
      ForwardExtends(obs);
      TimeInCountsInstants(front, k);
      ForwardFromFirst(front);
      SameInstants(obs, front, k, obs[0].time, obs[n].time);
      LastValueHolds(front, k, obs[0].time, obs[n].time);
    }
  }

  /** Closing the account reads the same step function, so each total counts the instants from the first observation to
      the end at which the signal showed that class. */
  lemma TotalsCountInstants(obs: seq<Observation>, end: int, k: Class)
    requires obs != [] && Forward(obs + [Observation("", end)])
    ensures TimeUntil(obs, k, end) == Instants(obs, k, obs[0].time, end)
  {
    var closed := obs + [Observation("", end)];
    TimeInCountsInstants(closed, k);
    OneMore(obs, Observation("", end));
    assert closed[..|obs|] == obs;
    SameInstants(closed, obs, k, obs[0].time, end);
  }

  // ---- streams whose time never goes back ----

  /** From 0 on, no time stamp is before the time it replaces. */
  predicate NeverBack(tokens: seq<Token>) {
    tokens == [] ||
    var front, last := tokens[..|tokens| - 1], tokens[|tokens| - 1];
    NeverBack(front) && (last.Timestamp? ==> Now(front) <= last.time)
  }

  lemma ForwardWith(obs: seq<Observation>, next: Observation)
    requires Forward(obs) && (obs != [] ==> obs[|obs| - 1].time <= next.time)
    ensures Forward(obs + [next])
  {
    var all := obs + [next];
    forall i | 0 <= i < |all| - 1
      ensures all[i].time <= all[i + 1].time
    {
      if i < |obs| - 1 {
        assert obs[i].time <= obs[i + 1].time;
      }
    }
  }

  /** What a signal sees of such a stream goes forward and ends no later than the stream. */
  lemma {:induction false} SeenGoesForward(tokens: seq<Token>, symbol: string, width: int)
    requires NeverBack(tokens)
    ensures var obs := Seen(tokens, symbol, width);
            Forward(obs) && (obs != [] ==> obs[|obs| - 1].time <= Now(tokens))
    decreases |tokens|
  {
    if tokens != [] {
      var front, last := tokens[..|tokens| - 1], tokens[|tokens| - 1];
      SeenGoesForward(front, symbol, width);
      if last.Change? && last.symbol == symbol {
        ForwardWith(Seen(front, symbol, width), Observation(NormalizeValue(last.raw, width), Now(front)));
      }
    }
  }

  /** Conservation over streams: while time never goes back, the four times every seen signal is accounted with add up
      to the time from its first observation to the end of the stream. */
  lemma StreamConservesTime(tokens: seq<Token>, symbol: string, width: int)
    requires NeverBack(tokens) && Seen(tokens, symbol, width) != []
    ensures var obs, end := Seen(tokens, symbol, width), Now(tokens);
            Total(Account(obs, end)) == end - obs[0].time
  {
    SeenGoesForward(tokens, symbol, width);
    ForwardWith(Seen(tokens, symbol, width), Observation("", Now(tokens)));
    TimesAreConserved(Seen(tokens, symbol, width), Now(tokens));
  }

  /** And each of them is the number of instants at which the signal showed that class. */
  lemma StreamCountsInstants(tokens: seq<Token>, symbol: string, width: int, obs: seq<Observation>, end: int)
    requires NeverBack(tokens) && obs == Seen(tokens, symbol, width) && obs != [] && end == Now(tokens)
    ensures var a := Account(obs, end);
            && a.t0 == Instants(obs, Zero, obs[0].time, end) && a.t1 == Instants(obs, One, obs[0].time, end)
            && a.tx == Instants(obs, Unknown, obs[0].time, end) && a.tz == Instants(obs, HighZ, obs[0].time, end)
            && a.toggles == |Changes(obs)|
  {
    SeenGoesForward(tokens, symbol, width);
    ForwardWith(obs, Observation("", end));
    TotalsCountInstants(obs, end, Zero);
    TotalsCountInstants(obs, end, One);
    TotalsCountInstants(obs, end, Unknown);
    TotalsCountInstants(obs, end, HighZ);
    TogglesCountChanges(obs);
  }

  // ---- toggles ----

  predicate Differs(obs: seq<Observation>, i: int) {
    1 <= i < |obs| && obs[i].value != obs[i - 1].value
  }

  function Changes(obs: seq<Observation>): set<int> {
    set i | 1 <= i < |obs| && Differs(obs, i)
  }

  lemma ChangesExtend(obs: seq<Observation>)
    requires |obs| > 1
    ensures Changes(obs) == Changes(obs[..|obs| - 1]) + (if Differs(obs, |obs| - 1) then {|obs| - 1} else {})
    ensures |obs| - 1 !in Changes(obs[..|obs| - 1])
  {
    var front := obs[..|obs| - 1];
    forall i | i < |obs| - 1
      ensures i in Changes(obs) <==> i in Changes(front)
    {
      assert Differs(obs, i) <==> Differs(front, i);
    }
  }

  lemma OneMoreChange(all: set<int>, front: set<int>, i: int, more: bool)
    requires all == front + (if more then {i} else {}) && i !in front
    ensures |all| == |front| + AsBit(more)
  {
  }

  /** The toggles are the observations that differ from the one before. */
  lemma {:induction false} TogglesCountChanges(obs: seq<Observation>)
    ensures Toggles(obs) == |Changes(obs)|
    decreases |obs|
  {
    if |obs| <= 1 {
      assert Changes(obs) == {};
    } else {
      TogglesCountChanges(obs[..|obs| - 1]);
      ChangesExtend(obs);
      OneMoreChange(Changes(obs), Changes(obs[..|obs| - 1]), |obs| - 1, Differs(obs, |obs| - 1));
    }
  }
}
