/**
 Bit fields inside a register spread over 32-bit words: writing a field bit by bit,
 reading it back, and the packed PPU state that a savestate restore writes this way.
 */
module WideBits {
  import opened Arithmetic
  import opened Bits

  /** A 32-bit word. */
  type word = x: int | 0 <= x < TWO_32

  /** Bit `i` of the whole register. */
  predicate BitAt(words: seq<word>, i: nat)
    requires i < 32 * |words|
  {
    BitOf(words[i / 32], i % 32)
  }

  /** The number held in `width` bits from `lsb` up. */
  function Field(words: seq<word>, lsb: nat, width: nat): nat
    requires lsb + width <= 32 * |words|
  {
    if width == 0 then 0
    else Field(words, lsb, width - 1) + if BitAt(words, lsb + width - 1) then Pow2(width - 1) else 0
  }

  /** `after` is `before` with the low `width` payload bits written at `lsb`, and every other bit as it was. */
  ghost predicate FieldWritten(before: seq<word>, after: seq<word>, lsb: nat, width: nat, payload: nat) {
    && |after| == |before|
    && forall i: nat :: i < 32 * |before| ==>
         BitAt(after, i) == if lsb <= i < lsb + width then BitOf(payload, i - lsb) else BitAt(before, i)
  }

  // ---- the two loops ----

  method SetWideBits(words: array<word>, lsb: nat, width: nat, payload: nat)
    requires width <= 64 && lsb + width <= 32 * words.Length
    modifies words
    ensures FieldWritten(old(words[..]), words[..], lsb, width, payload)
  {
    for bit := 0 to width
      invariant FieldWritten(old(words[..]), words[..], lsb, bit, payload)
    {
      var absolute := lsb + bit;
      ghost var before := words[..];
      Pow2Of32();
      WithBitStaysBelow(words[absolute / 32], absolute % 32, BitOf(payload, bit), 32);
      words[absolute / 32] := WithBit(words[absolute / 32], absolute % 32, BitOf(payload, bit));
      OneBitWritten(before, words[..], absolute, BitOf(payload, bit));
    }
  }

  lemma OneBitWritten(before: seq<word>, after: seq<word>, at: nat, on: bool)
    requires at < 32 * |before| && |after| == |before|
    requires forall k :: 0 <= k < |before| && k != at / 32 ==> after[k] == before[k]
    requires after[at / 32] == WithBit(before[at / 32], at % 32, on)
    ensures forall i: nat :: i < 32 * |before| ==> BitAt(after, i) == if i == at then on else BitAt(before, i)
  {
    forall i: nat | i < 32 * |before|
      ensures BitAt(after, i) == if i == at then on else BitAt(before, i)
    {
      WithBitSetsOneBit(before[at / 32], at % 32, on, i % 32);
    }
  }

  /** The reader. The bits below the current one are already in `value`, so merging the next one adds its weight. */
  method ExtractBits(words: array<word>, lsb: nat, width: nat) returns (value: nat)
    requires width <= 64 && lsb + width <= 32 * words.Length
    ensures value == Field(words[..], lsb, width) < Pow2(width)
  {
    value := 0;
    for bit := 0 to width
      invariant value == Field(words[..], lsb, bit) < Pow2(bit)
    {
      var absolute := lsb + bit;
      if BitOf(words[absolute / 32], absolute % 32) {
        value := value + Pow2(bit);
      }
    }
  }

  // ---- round trip ----

  /** A number is its low bits plus the weight of the next bit, modulo the next power. */
  lemma {:induction false} LowPart(payload: nat, n: nat)
    ensures payload % Pow2(n + 1) == payload % Pow2(n) + if BitOf(payload, n) then Pow2(n) else 0
    decreases n
  {
    if n == 0 {
      assert Pow2(0) == 1 && Pow2(1) == 2;
    } else {
      LowPart(payload / 2, n - 1);
      HalveRemainder(payload, Pow2(n));
      HalveRemainder(payload, Pow2(n - 1));
    }
  }

  lemma HalveRemainder(x: nat, m: nat)
    requires m > 0
    ensures x % (2 * m) == 2 * (x / 2 % m) + x % 2
  {
    var q, r := x / 2 / m, x / 2 % m;
    assert x / 2 == m * q + r;
    assert 2 * (m * q) == 2 * m * q;
    Divides(x, 2 * m, q, 2 * r + x % 2);
  }

  /** Reading a field just written returns the payload modulo 2 to the width. */
  lemma {:induction false} WrittenFieldReadsBack(
    before: seq<word>, after: seq<word>, lsb: nat, width: nat, payload: nat, n: nat)
    requires n <= width && lsb + width <= 32 * |before| && FieldWritten(before, after, lsb, width, payload)
    ensures Field(after, lsb, n) == payload % Pow2(n)
    decreases n
  {
    if n > 0 {
      WrittenFieldReadsBack(before, after, lsb, width, payload, n - 1);
      LowPart(payload, n - 1);
      assert BitAt(after, lsb + n - 1) == BitOf(payload, n - 1);
    }
  }

  /** Equal bits make equal fields. */
  lemma {:induction false} FieldDependsOnItsBits(a: seq<word>, b: seq<word>, lsb: nat, width: nat)
    requires |a| == |b| && lsb + width <= 32 * |a|
    requires forall i: nat :: lsb <= i < lsb + width ==> BitAt(a, i) == BitAt(b, i)
    ensures Field(a, lsb, width) == Field(b, lsb, width)
  {
    if width > 0 {
      FieldDependsOnItsBits(a, b, lsb, width - 1);
    }
  }

  datatype FieldWrite = FieldWrite(lsb: nat, width: nat, payload: nat) {
    predicate Covers(i: nat) {
      lsb <= i < lsb + width
    }
  }

  /** `states` is a run of the field writes, one state more than writes. */
  ghost predicate Written(states: seq<seq<word>>, writes: seq<FieldWrite>) {
    && |states| == |writes| + 1
    && (forall k :: 0 <= k < |states| ==> |states[k]| == |states[0]|)
    && (forall k :: 0 <= k < |writes| ==> writes[k].lsb + writes[k].width <= 32 * |states[0]|)
    && (forall k :: 0 <= k < |writes| ==> WrittenBy(states[k], states[k + 1], writes[k]))
  }

  ghost predicate WrittenBy(before: seq<word>, after: seq<word>, w: FieldWrite) {
    FieldWritten(before, after, w.lsb, w.width, w.payload)
  }

  predicate Disjoint(v: FieldWrite, w: FieldWrite) {
    v.lsb + v.width <= w.lsb || w.lsb + w.width <= v.lsb
  }

  lemma {:induction false} UncoveredBitKept(states: seq<seq<word>>, writes: seq<FieldWrite>, first: nat, last: nat,
      i: nat)
    requires Written(states, writes) && first <= last <= |writes| && i < 32 * |states[0]|
    requires forall k :: first <= k < last ==> !writes[k].Covers(i)
    ensures BitAt(states[last], i) == BitAt(states[first], i)
    decreases last
  {
    if first < last {
      UncoveredBitKept(states, writes, first, last - 1, i);
      assert WrittenBy(states[last - 1], states[last - 1 + 1], writes[last - 1]);
    }
  }

  /** After any run of pairwise disjoint field writes, each field reads back as written. */
  lemma DisjointFieldsReadBack(states: seq<seq<word>>, writes: seq<FieldWrite>, k: nat)
    requires Written(states, writes) && k < |writes|
    requires forall j :: k < j < |writes| ==> Disjoint(writes[k], writes[j])
    ensures var w := writes[k];
            w.lsb + w.width <= 32 * |states[|writes|]| &&
            Field(states[|writes|], w.lsb, w.width) == w.payload % Pow2(w.width)
  {
    var w := writes[k];
    assert WrittenBy(states[k], states[k + 1], w);
    WrittenFieldReadsBack(states[k], states[k + 1], w.lsb, w.width, w.payload, w.width);
    forall i: nat | w.lsb <= i < w.lsb + w.width
      ensures BitAt(states[k + 1], i) == BitAt(states[|writes|], i)
    {
      UncoveredBitKept(states, writes, k + 1, |writes|, i);
    }
    FieldDependsOnItsBits(states[k + 1], states[|writes|], w.lsb, w.width);
  }

  lemma RunGrows(states: seq<seq<word>>, writes: seq<FieldWrite>, next: seq<word>, w: FieldWrite)
    requires Written(states, writes) && |next| == |states[0]| && w.lsb + w.width <= 32 * |next|
    requires WrittenBy(states[|writes|], next, w)
    ensures Written(states + [next], writes + [w])
  {
  }

  // ---- the packed PPU state ----

  const SAMPLED_LSB := 1035
  const STATUS_LSB := 1040
  const LY_LSB := 1064
  const OBP1_LSB := 1072
  const OBP0_LSB := 1080
  const BGP_LSB := 1088
  const WX_LSB := 1096
  const WY_LSB := 1104
  const LYC_LSB := 1112
  const SCX_LSB := 1120
  const SCY_LSB := 1128
  const STAT_SEL_LSB := 1136
  const LCDC_LSB := 1140

  /** The register bytes of a savestate. */
  datatype RestoreImage = RestoreImage(
    lcdc: byte, stat: byte, scy: byte, scx: byte, ly: byte, lyc: byte,
    bgp: byte, obp0: byte, obp1: byte, wy: byte, wx: byte)

  /** The STAT line level a savestate implies: a selected source whose condition holds. */
  predicate StatLineHigh(image: RestoreImage) {
    || (BitOf(image.stat, 6) && image.ly == image.lyc)
    || (BitOf(image.stat, 5) && image.stat % 4 == 2)
    || (BitOf(image.stat, 4) && image.stat % 4 == 1)
    || (BitOf(image.stat, 3) && image.stat % 4 == 0)
  }

  /** Run state 2, a VBlank phase holding LY and dot 456, the STAT line and the LYC match: the parts do not overlap,
      so or-ing them together adds them. */
  function StatusBits(image: RestoreImage): nat {
    var vblankPhase := 4 * 0x2_0000 + image.ly * 0x200 + 456;
    2 * 0x40_0000 + vblankPhase * 4 + AsBit(StatLineHigh(image)) * 2 + AsBit(image.ly == image.lyc)
  }

  function SampledBits(image: RestoreImage): nat {
    image.scx % 8 * 4 + AsBit(image.ly >= image.wy) * 2 + AsBit(BitOf(image.lcdc, 5))
  }

  /** The thirteen writes in the order they are made. */
  function RestoreWrites(image: RestoreImage): seq<FieldWrite> {
    [ FieldWrite(LY_LSB, 8, image.ly), FieldWrite(OBP1_LSB, 8, image.obp1), FieldWrite(OBP0_LSB, 8, image.obp0),
      FieldWrite(BGP_LSB, 8, image.bgp), FieldWrite(WX_LSB, 8, image.wx), FieldWrite(WY_LSB, 8, image.wy),
      FieldWrite(LYC_LSB, 8, image.lyc), FieldWrite(SCX_LSB, 8, image.scx), FieldWrite(SCY_LSB, 8, image.scy),
      FieldWrite(STAT_SEL_LSB, 4, image.stat / 8 % 16), FieldWrite(LCDC_LSB, 8, image.lcdc),
      FieldWrite(STATUS_LSB, 24, StatusBits(image)), FieldWrite(SAMPLED_LSB, 5, SampledBits(image)) ]
  }

  lemma PackedBitsFit(image: RestoreImage)
    ensures StatusBits(image) < 0x100_0000 && SampledBits(image) < 32
  {
  }

  lemma RestorePayloadsFit(image: RestoreImage, k: nat)
    requires k < 13
    ensures var w := RestoreWrites(image)[k]; w.payload % Pow2(w.width) == w.payload
  {
    PackedBitsFit(image);
    FieldSizes();
    var w := RestoreWrites(image)[k];
    assert w.payload < Pow2(w.width);
    Divides(w.payload, Pow2(w.width), 0, w.payload);
  }

  lemma FieldSizes()
    ensures Pow2(4) == 16 && Pow2(5) == 32 && Pow2(8) == 256 && Pow2(24) == 0x100_0000
  {
    assert Pow2(16) == 0x1_0000;
  }

  /** What any run of the thirteen writes leaves behind. */
  lemma RestoreRun(states: seq<seq<word>>, image: RestoreImage)
    requires Written(states, RestoreWrites(image)) && |states[0]| == 36
    ensures forall k :: 0 <= k < 13 ==>
              var w := RestoreWrites(image)[k]; Field(states[13], w.lsb, w.width) == w.payload
    ensures forall i: nat :: i < 1152 && !(1035 <= i <= 1147) ==> BitAt(states[13], i) == BitAt(states[0], i)
  {
    var writes := RestoreWrites(image);
    RestoreFieldsTile(image);
    forall k | 0 <= k < 13
      ensures var w := writes[k]; Field(states[13], w.lsb, w.width) == w.payload
    {
      RestorePayloadsFit(image, k);
      DisjointFieldsReadBack(states, writes, k);
    }
    forall i: nat | i < 1152 && !(1035 <= i <= 1147)
      ensures BitAt(states[13], i) == BitAt(states[0], i)
    {
      UncoveredBitKept(states, writes, 0, 13, i);
    }
  }

  /** The thirteen fields tile bits 1035 to 1147 without overlap. */
  lemma RestoreFieldsTile(image: RestoreImage)
    ensures forall j, k :: 0 <= j < k < 13 ==> Disjoint(RestoreWrites(image)[j], RestoreWrites(image)[k])
    ensures forall i: nat, k :: 0 <= k < 13 && RestoreWrites(image)[k].Covers(i) ==> 1035 <= i <= 1147
    ensures forall k :: 0 <= k < 13 ==> RestoreWrites(image)[k].lsb + RestoreWrites(image)[k].width <= 1152
  {
  }

  /** And together they cover every bit there. */
  lemma RestoreFieldsCover(image: RestoreImage, i: nat)
    requires 1035 <= i <= 1147
    ensures exists k :: 0 <= k < 13 && RestoreWrites(image)[k].Covers(i)
  {
    var w := RestoreWrites(image);
    assert || w[0].Covers(i) || w[1].Covers(i) || w[2].Covers(i) || w[3].Covers(i) || w[4].Covers(i) || w[5].Covers(i)
           || w[6].Covers(i) || w[7].Covers(i) || w[8].Covers(i) || w[9].Covers(i) || w[10].Covers(i)
           || w[11].Covers(i) || w[12].Covers(i);
  }

  /** One `set_wide_bits` call, the `k`th of the given writes, recorded in the run of states. */
  method WriteField(state: array<word>, lsb: nat, width: nat, payload: nat,
                    ghost writes: seq<FieldWrite>, ghost k: nat, ghost states: seq<seq<word>>)
    returns (ghost next: seq<seq<word>>)
    requires k < |writes| && writes[k] == FieldWrite(lsb, width, payload)
    requires width <= 64 && lsb + width <= 32 * state.Length
    requires |states| == k + 1 && Written(states, writes[..k]) && states[k] == state[..]
    modifies state
    ensures |next| == k + 2 && Written(next, writes[..k + 1])
    ensures next[0] == states[0] && next[k + 1] == state[..]
  {
    SetWideBits(state, lsb, width, payload);
    RunGrows(states, writes[..k], state[..], writes[k]);
    assert writes[..k + 1] == writes[..k] + [writes[k]];
    next := states + [state[..]];
  }

  /** Writes one to four. */
  method WriteLineAndPalettes(state: array<word>, image: RestoreImage, ghost w: seq<FieldWrite>,
      ghost states: seq<seq<word>>)
    returns (ghost next: seq<seq<word>>)
    requires state.Length == 36 && w == RestoreWrites(image)
    requires |states| == 1 && Written(states, w[..0]) && states[0] == state[..]
    modifies state
    ensures |next| == 5 && Written(next, w[..4])
    ensures next[0] == states[0] && next[4] == state[..]
  {
    next := states;
    next := WriteField(state, LY_LSB, 8, image.ly, w, 0, next);
    next := WriteField(state, OBP1_LSB, 8, image.obp1, w, 1, next);
    next := WriteField(state, OBP0_LSB, 8, image.obp0, w, 2, next);
    next := WriteField(state, BGP_LSB, 8, image.bgp, w, 3, next);
  }

  /** Writes five to nine. */
  method WriteWindowAndScroll(state: array<word>, image: RestoreImage, ghost w: seq<FieldWrite>,
      ghost states: seq<seq<word>>)
    returns (ghost next: seq<seq<word>>)
    requires state.Length == 36 && w == RestoreWrites(image)
    requires |states| == 5 && Written(states, w[..4]) && states[4] == state[..]
    modifies state
    ensures |next| == 10 && Written(next, w[..9])
    ensures next[0] == states[0] && next[9] == state[..]
  {
    next := states;
    next := WriteField(state, WX_LSB, 8, image.wx, w, 4, next);
    next := WriteField(state, WY_LSB, 8, image.wy, w, 5, next);
    next := WriteField(state, LYC_LSB, 8, image.lyc, w, 6, next);
    next := WriteField(state, SCX_LSB, 8, image.scx, w, 7, next);
    next := WriteField(state, SCY_LSB, 8, image.scy, w, 8, next);
  }

  /** Writes ten to thirteen. */
  method WriteControl(state: array<word>, image: RestoreImage, ghost w: seq<FieldWrite>, ghost states: seq<seq<word>>)
    returns (ghost next: seq<seq<word>>)
    requires state.Length == 36 && w == RestoreWrites(image)
    requires |states| == 10 && Written(states, w[..9]) && states[9] == state[..]
    modifies state
    ensures |next| == 14 && Written(next, w[..13])
    ensures next[0] == states[0] && next[13] == state[..]
  {
    next := states;
    next := WriteField(state, STAT_SEL_LSB, 4, image.stat / 8 % 16, w, 9, next);
    next := WriteField(state, LCDC_LSB, 8, image.lcdc, w, 10, next);
    next := WriteField(state, STATUS_LSB, 24, StatusBits(image), w, 11, next);
    next := WriteField(state, SAMPLED_LSB, 5, SampledBits(image), w, 12, next);
  }

  /** Where a savestate stands in the packed state, from the top: LCDC, the selected STAT sources, the registers, the
      line, the status and the samples of the line. */
  function Layout(image: RestoreImage): seq<FieldWrite> {
    [ FieldWrite(1140, 8, image.lcdc), FieldWrite(1136, 4, image.stat / 8 % 16), FieldWrite(1128, 8, image.scy),
      FieldWrite(1120, 8, image.scx), FieldWrite(1112, 8, image.lyc), FieldWrite(1104, 8, image.wy),
      FieldWrite(1096, 8, image.wx), FieldWrite(1088, 8, image.bgp), FieldWrite(1080, 8, image.obp0),
      FieldWrite(1072, 8, image.obp1), FieldWrite(1064, 8, image.ly),
      FieldWrite(1040, 24, PackedStatus(image, LineHigh(image))), FieldWrite(1035, 5, PackedSamples(image)) ]
  }

  /** From the top: run state, VBlank with LY and dot 456, the STAT line, the LYC match. */
  function PackedStatus(image: RestoreImage, lineHigh: bool): nat {
    0x80_0000 + 0x20_0000 + 0x800 * image.ly + 4 * 456 + (if lineHigh then 2 else 0) +
    if image.ly == image.lyc then 1 else 0
  }

  /** A STAT source selected by its bit, and its condition: the LYC match, or the mode in the two lowest bits. */
  predicate LineHigh(image: RestoreImage) {
    || (image.stat / 64 % 2 == 1 && image.ly == image.lyc)
    || (image.stat / 32 % 2 == 1 && image.stat % 4 == 2)
    || (image.stat / 16 % 2 == 1 && image.stat % 4 == 1)
    || (image.stat / 8 % 2 == 1 && image.stat % 4 == 0)
  }

  /** From the top: the scroll's three lowest bits, whether the window's line has come, and whether it is on. */
  function PackedSamples(image: RestoreImage): nat {
    4 * (image.scx % 8) + (if image.ly >= image.wy then 2 else 0) + image.lcdc / 32 % 2
  }

  lemma StatusIsPacked(image: RestoreImage)
    ensures StatusBits(image) == PackedStatus(image, LineHigh(image)) && SampledBits(image) == PackedSamples(image)
  {
    ByteBits(image.stat);
    ByteBits(image.lcdc);
  }

  lemma LayoutIsWritten(image: RestoreImage, k: nat)
    requires k < 13
    ensures Layout(image)[k] in RestoreWrites(image)
  {
    StatusIsPacked(image);
    var w := RestoreWrites(image);
    assert Layout(image)[k] == w[if k == 0 then 10 else if k == 1 then 9 else if k < 11 then 10 - k else k];
  }

  /** All thirteen fields of the 36-word state read back as written, and no bit outside 1035..1147 changes. */
  method ApplyRestoreVisiblePpuRegs(state: array<word>, image: RestoreImage)
    requires state.Length == 36
    modifies state
    ensures forall k :: 0 <= k < 13 ==>
              var w := RestoreWrites(image)[k]; Field(state[..], w.lsb, w.width) == w.payload
    ensures forall k :: 0 <= k < 13 ==>
              var w := Layout(image)[k]; w.lsb + w.width <= 1152 && Field(state[..], w.lsb, w.width) == w.payload
    ensures forall i: nat :: i < 1152 && !(1035 <= i <= 1147) ==> BitAt(state[..], i) == BitAt(old(state[..]), i)
  {
    ghost var w := RestoreWrites(image);
    ghost var s := [state[..]];
    s := WriteLineAndPalettes(state, image, w, s);
    s := WriteWindowAndScroll(state, image, w, s);
    s := WriteControl(state, image, w, s);
    assert w[..13] == w;
    RestoreRun(s, image);
    forall k | 0 <= k < 13
      ensures var w := Layout(image)[k]; w.lsb + w.width <= 1152 && Field(state[..], w.lsb, w.width) == w.payload
    {
      LayoutIsWritten(image, k);
    }
  }
}
