/**
 Flag policies of the SM83 arithmetic operations. Their flags are right when they make long numbers work: bytes chained
 through the carry add and subtract numbers of any length, and with decimal adjustment they do so in base 100.
 */
module Alu {
  import opened Arithmetic
  import opened Bits

  datatype Flags = Flags(z: bool, n: bool, h: bool, c: bool)

  datatype AluResult = AluResult(value: int, flags: Flags)

  function Mask8(value: int): int {
    value % 0x100
  }

  function Mask16(value: int): int {
    value % 0x10000
  }

  function SignExtendE8(value: int): int {
    var byte := Mask8(value);
    if byte >= 0x80 then byte - 0x100 else byte
  }

  function Add8(x: int, y: int): AluResult {
    var a, b := Mask8(x), Mask8(y);
    var result := Mask8(a + b);
    AluResult(result, Flags(result == 0, false, a % 16 + b % 16 > 0x0F, a + b > 0xFF))
  }

  function Adc8(x: int, y: int, carryIn: bool): AluResult {
    var a, b, carry := Mask8(x), Mask8(y), AsBit(carryIn);
    var raw := a + b + carry;
    var result := Mask8(raw);
    AluResult(result, Flags(result == 0, false, a % 16 + b % 16 + carry > 0x0F, raw > 0xFF))
  }

  function Sub8(x: int, y: int): AluResult {
    var a, b := Mask8(x), Mask8(y);
    var result := Mask8(a - b);
    AluResult(result, Flags(result == 0, true, a % 16 < b % 16, a < b))
  }

  function Sbc8(x: int, y: int, carryIn: bool): AluResult {
    var a, b, carry := Mask8(x), Mask8(y), AsBit(carryIn);
    var subtrahend := b + carry;
    var result := Mask8(a - subtrahend);
    AluResult(result, Flags(result == 0, true, a % 16 < b % 16 + carry, a < subtrahend))
  }

  function Inc8(x: int, carryIn: bool): AluResult {
    var value := Mask8(x);
    var result := Mask8(value + 1);
    AluResult(result, Flags(result == 0, false, value % 16 + 1 > 0x0F, carryIn))
  }

  function Dec8(x: int, carryIn: bool): AluResult {
    var value := Mask8(x);
    var result := Mask8(value - 1);
    AluResult(result, Flags(result == 0, true, value % 16 == 0, carryIn))
  }

  function Daa(x: int, flags: Flags): AluResult {
    var value := Mask8(x);
    if flags.n then
      var adjustment := (if flags.h then 0x06 else 0) + (if flags.c then 0x60 else 0);
      var result := Mask8(value - adjustment);
      AluResult(result, Flags(result == 0, true, false, flags.c))
    else
      var carryOut := flags.c || value > 0x99;
      var adjustment := (if flags.h || value % 16 > 0x09 then 0x06 else 0) + (if carryOut then 0x60 else 0);
      var result := Mask8(value + adjustment);
      AluResult(result, Flags(result == 0, false, false, carryOut))
  }

  function Add16Hl(hl: int, operand: int, zIn: bool): AluResult {
    var a, b := Mask16(hl), Mask16(operand);
    AluResult(Mask16(a + b), Flags(zIn, false, a % 0x1000 + b % 0x1000 > 0x0FFF, a + b > 0xFFFF))
  }

  function AddSpE8(stack: int, offset: int): AluResult {
    var sp, byte := Mask16(stack), Mask8(offset);
    AluResult(Mask16(sp + SignExtendE8(offset)),
              Flags(false, false, sp % 16 + byte % 16 > 0x0F, sp % 256 + byte > 0xFF))
  }

  // ---- numbers in little-endian digits ----

  function Number(digits: seq<int>, base: nat): int {
    if digits == [] then 0 else digits[0] + base * Number(digits[1..], base)
  }

  function Power(base: nat, n: nat): nat
  {
    if n == 0 then 1 else base * Power(base, n - 1)
  }

  /** What a carry out of a number is worth. */
  function Carried(carry: bool, weight: nat): nat {
    if carry then weight else 0
  }

  predicate Digits(digits: seq<int>, base: nat) {
    forall i :: 0 <= i < |digits| ==> 0 <= digits[i] < base
  }

  lemma {:induction false} NumberInRange(digits: seq<int>, base: nat)
    requires Digits(digits, base)
    ensures 0 <= Number(digits, base) < Power(base, |digits|)
  {
    if digits != [] {
      NumberInRange(digits[1..], base);
      LeadingDigitFits(digits[0], Number(digits[1..], base), base, Power(base, |digits| - 1));
    }
  }

  lemma LeadingDigitFits(low: int, high: int, base: nat, limit: nat)
    requires 0 <= low < base && 0 <= high < limit
    ensures 0 <= low + base * high < base * limit
  {
    assert base * high + base == base * (high + 1);
    assert base * (high + 1) <= base * limit;
  }

  lemma {:induction false} NumberDeterminesDigits(s: seq<int>, t: seq<int>, base: nat)
    requires |s| == |t| && Digits(s, base) && Digits(t, base) && Number(s, base) == Number(t, base)
    ensures s == t
  {
    if s != [] {
      SameLowDigit(base, s[0], Number(s[1..], base), t[0], Number(t[1..], base));
      NumberDeterminesDigits(s[1..], t[1..], base);
    }
  }

  function Bytes(s: seq<int>): (r: seq<int>)
    ensures |r| == |s| && Digits(r, 256)
  {
    seq(|s|, i requires 0 <= i < |s| => Mask8(s[i]))
  }

  /** The number a list of registers holds, low byte first. */
  function Value(s: seq<int>): int {
    Number(Bytes(s), 256)
  }

  lemma ValueStep(s: seq<int>)
    requires s != []
    ensures Value(s) == Mask8(s[0]) + 256 * Value(s[1..])
  {
    assert Bytes(s)[1..] == Bytes(s[1..]);
  }

  lemma ValueOfBytes(s: seq<int>)
    requires Digits(s, 256)
    ensures Value(s) == Number(s, 256) && Bytes(s) == s
  {
    assert Bytes(s) == s;
  }

  // ---- binary chains ----

  datatype Chained = Chained(digits: seq<int>, carry: bool)

  /** Adds two numbers byte by byte, each byte taking the carry of the one below. */
  function AdcChain(a: seq<int>, b: seq<int>, carryIn: bool): (r: Chained)
    requires |a| == |b|
    ensures |r.digits| == |a| && Digits(r.digits, 256)
  {
    if a == [] then Chained([], carryIn)
    else
      var low := Adc8(a[0], b[0], carryIn);
      var rest := AdcChain(a[1..], b[1..], low.flags.c);
      Chained([low.value] + rest.digits, rest.carry)
  }

  function SbcChain(a: seq<int>, b: seq<int>, borrowIn: bool): (r: Chained)
    requires |a| == |b|
    ensures |r.digits| == |a| && Digits(r.digits, 256)
  {
    if a == [] then Chained([], borrowIn)
    else
      var low := Sbc8(a[0], b[0], borrowIn);
      var rest := SbcChain(a[1..], b[1..], low.flags.c);
      Chained([low.value] + rest.digits, rest.carry)
  }

  lemma Adc8Adds(x: int, y: int, carryIn: bool)
    ensures var r := Adc8(x, y, carryIn);
            r.value + 256 * AsBit(r.flags.c) == Mask8(x) + Mask8(y) + AsBit(carryIn)
  {
  }

  lemma Sbc8Subtracts(x: int, y: int, borrowIn: bool)
    ensures var r := Sbc8(x, y, borrowIn);
            r.value - 256 * AsBit(r.flags.c) == Mask8(x) - Mask8(y) - AsBit(borrowIn)
  {
  }

  lemma {:induction false} AdcChainSum(a: seq<int>, b: seq<int>, carryIn: bool)
    requires |a| == |b|
    ensures var r := AdcChain(a, b, carryIn);
            Number(r.digits, 256) + Carried(r.carry, Power(256, |a|)) == Value(a) + Value(b) + AsBit(carryIn)
  {
    if a == [] {
      assert Number(Bytes(a), 256) == 0;
    } else {
      var low := Adc8(a[0], b[0], carryIn);
      var rest := AdcChain(a[1..], b[1..], low.flags.c);
      AdcChainSum(a[1..], b[1..], low.flags.c);
      Adc8Adds(a[0], b[0], carryIn);
      ValueStep(a);
      ValueStep(b);
      assert ([low.value] + rest.digits)[1..] == rest.digits;
    }
  }

  /** The zero flag reads the exact result: zero, or one full turn away from it. */
  lemma ZeroFlag(x: int, y: int, carryIn: bool)
    ensures var sum := Mask8(x) + Mask8(y) + AsBit(carryIn);
            Adc8(x, y, carryIn).flags.z <==> sum == 0 || sum == 256
    ensures var difference := Mask8(x) - Mask8(y) - AsBit(carryIn);
            Sbc8(x, y, carryIn).flags.z <==> difference == 0 || difference == -256
  {
    Adc8Adds(x, y, carryIn);
    Sbc8Subtracts(x, y, carryIn);
  }

  /** Chained additions add numbers of any length, and the last carry is the sum's overflow. */
  lemma AdcChainAdds(a: seq<int>, b: seq<int>, carryIn: bool)
    requires |a| == |b|
    ensures var r := AdcChain(a, b, carryIn);
            var sum := Value(a) + Value(b) + AsBit(carryIn);
            && (r.carry <==> sum >= Power(256, |a|))
            && Number(r.digits, 256) == sum - Carried(r.carry, Power(256, |a|))
  {
    AdcChainSum(a, b, carryIn);
    NumberInRange(AdcChain(a, b, carryIn).digits, 256);
  }

  lemma {:induction false} SbcChainDifference(a: seq<int>, b: seq<int>, borrowIn: bool)
    requires |a| == |b|
    ensures var r := SbcChain(a, b, borrowIn);
            Number(r.digits, 256) - Carried(r.carry, Power(256, |a|)) == Value(a) - Value(b) - AsBit(borrowIn)
  {
    if a == [] {
      assert Number(Bytes(a), 256) == 0;
    } else {
      var low := Sbc8(a[0], b[0], borrowIn);
      var rest := SbcChain(a[1..], b[1..], low.flags.c);
      SbcChainDifference(a[1..], b[1..], low.flags.c);
      Sbc8Subtracts(a[0], b[0], borrowIn);
      ValueStep(a);
      ValueStep(b);
      assert ([low.value] + rest.digits)[1..] == rest.digits;
    }
  }

  /** Chained subtractions subtract numbers of any length, and the last borrow compares them. */
  lemma SbcChainSubtracts(a: seq<int>, b: seq<int>, borrowIn: bool)
    requires |a| == |b|
    ensures var r := SbcChain(a, b, borrowIn);
            var difference := Value(a) - Value(b) - AsBit(borrowIn);
            && (r.carry <==> difference < 0)
            && Number(r.digits, 256) == difference + Carried(r.carry, Power(256, |a|))
  {
    SbcChainDifference(a, b, borrowIn);
    NumberInRange(SbcChain(a, b, borrowIn).digits, 256);
  }

  /** Subtracting what was added, with the same carry in, gives back every byte and the same carry out. */
  lemma SbcChainUndoesAdcChain(a: seq<int>, b: seq<int>, carry: bool)
    requires |a| == |b|
    ensures var sum := AdcChain(a, b, carry);
            SbcChain(sum.digits, b, carry) == Chained(Bytes(a), sum.carry)
  {
    var sum := AdcChain(a, b, carry);
    var back := SbcChain(sum.digits, b, carry);
    AdcChainSum(a, b, carry);
    SbcChainDifference(sum.digits, b, carry);
    ValueOfBytes(sum.digits);
    NumberInRange(back.digits, 256);
    NumberInRange(Bytes(a), 256);
    NumberDeterminesDigits(back.digits, Bytes(a), 256);
  }

  // ---- the operations without a carry in ----

  /** An operation without a carry in is the one with it, at zero; an increment or decrement is such an operation by one
      that leaves the carry alone. */
  lemma WithoutCarry(x: int, y: int, carry: bool)
    ensures Add8(x, y) == Adc8(x, y, false) && Sub8(x, y) == Sbc8(x, y, false)
    ensures Inc8(x, carry) == var r := Add8(x, 1); r.(flags := r.flags.(c := carry))
    ensures Dec8(x, carry) == var r := Sub8(x, 1); r.(flags := r.flags.(c := carry))
  {
  }

  /** The 16-bit addition is a two-byte chain: its value, carry and half carry are the high byte's. */
  lemma Add16IsTwoByteChain(hl: int, operand: int, zIn: bool)
    ensures var low := Adc8(hl, operand, false);
            var high := Adc8(hl / 256, operand / 256, low.flags.c);
            Add16Hl(hl, operand, zIn) == AluResult(low.value + 256 * high.value,
                                                   Flags(zIn, false, high.flags.h, high.flags.c))
  {
    SplitWord(hl);
    SplitWord(operand);
    WordSum(Mask8(hl), Mask8(hl / 256), Mask8(operand), Mask8(operand / 256));
  }

  lemma WordSum(la: int, ha: int, lb: int, hb: int)
    requires 0 <= la < 256 && 0 <= ha < 256 && 0 <= lb < 256 && 0 <= hb < 256
    ensures var sum, high := la + 256 * ha + (lb + 256 * hb), ha + hb + AsBit(la + lb > 255);
            && Mask16(sum) == Mask8(la + lb) + 256 * Mask8(high)
            && (sum > 0xFFFF <==> high > 0xFF)
  {
    var low, high := la + lb, ha + hb + AsBit(la + lb > 255);
    var c, d := AsBit(low > 255), AsBit(high > 255);
    Divides(low, 256, c, low - 256 * c);
    Divides(high, 256, d, high - 256 * d);
    Divides(low + 256 * (ha + hb), 0x10000, d, low - 256 * c + 256 * (high - 256 * d));
  }

  lemma SplitWord(x: int)
    ensures Mask16(x) == Mask8(x) + 256 * Mask8(x / 256)
    ensures Mask16(x) % 0x1000 == Mask8(x) + 256 * (Mask8(x / 256) % 16)
  {
    var low, high, rest := x % 256, x / 256 % 256, x / 256 / 256;
    assert x == low + 256 * (high + 256 * rest);
    Divides(x, 0x10000, rest, low + 256 * high);
    Divides(low + 256 * high, 0x1000, high / 16, low + 256 * (high % 16));
  }

  // ---- signed offsets ----

  lemma SignExtendKeepsByte(value: int)
    ensures -128 <= SignExtendE8(value) < 128 && Mask8(SignExtendE8(value)) == Mask8(value)
  {
  }

  lemma OppositeOffset(offset: int)
    ensures SignExtendE8(-offset) == if Mask8(offset) == 0x80 then -128 else -SignExtendE8(offset)
  {
    assert Mask8(-offset) == if Mask8(offset) == 0 then 0 else 256 - Mask8(offset);
  }

  lemma MaskedSum(x: int, y: int)
    ensures Mask16(Mask16(x) + y) == Mask16(x + y)
  {
  }

  lemma AddSpFlags(stack: int, offset: int)
    ensures AddSpE8(stack, offset).flags == Add8(stack, offset).flags.(z := false)
  {
    SplitWord(stack);
    assert Mask16(stack) % 256 == Mask8(stack);
    assert Mask16(stack) % 16 == Mask8(stack) % 16;
  }

  /** The stack addition takes its carries from the unsigned low bytes whatever the offset's sign, and the opposite
      offset undoes it except at -128, which has no opposite. */
  lemma AddSpUndone(stack: int, offset: int)
    ensures AddSpE8(stack, offset).flags == Add8(stack, offset).flags.(z := false)
    ensures AddSpE8(AddSpE8(stack, offset).value, -offset).value == Mask16(stack) <==> Mask8(offset) != 0x80
  {
    AddSpFlags(stack, offset);
    OppositeOffset(offset);
    AddSpTwice(stack, offset, -offset);
    OffsetsCancel(Mask16(stack), SignExtendE8(offset), SignExtendE8(-offset));
    SignExtendKeepsByte(offset);
  }

  lemma OffsetsCancel(sp: int, first: int, second: int)
    requires 0 <= sp < 0x10000 && (second == -first || first == second == -128)
    ensures Mask16(sp + first + second) == sp <==> second == -first
  {
    if second == -first {
      assert sp + first + second == sp;
    } else {
      HalfTurn(sp);
    }
  }

  lemma AddSpTwice(stack: int, first: int, second: int)
    ensures AddSpE8(AddSpE8(stack, first).value, second).value
            == Mask16(Mask16(stack) + SignExtendE8(first) + SignExtendE8(second))
  {
    var sum := Mask16(stack) + SignExtendE8(first);
    assert Mask16(Mask16(sum)) == Mask16(sum);
    MaskedSum(sum, SignExtendE8(second));
  }

  lemma HalfTurn(sp: int)
    requires 0 <= sp < 0x10000
    ensures Mask16(sp - 256) != sp
  {
    if sp >= 256 {
      Divides(sp - 256, 0x10000, 0, sp - 256);
    } else {
      Divides(sp - 256, 0x10000, -1, sp - 256 + 0x10000);
    }
  }

  // ---- decimal adjustment ----

  predicate Bcd(b: int) {
    0 <= b < 256 && b / 16 <= 9 && b % 16 <= 9
  }

  function Decimal(b: int): int {
    10 * (b / 16) + b % 16
  }

  /** What a byte sum stands for in decimal: its two digits' weights, sixteen more units than digits held when a half
      carry left the low one, and sixteen more tens when a carry left the high one. */
  function Stands(value: int, flags: Flags): int {
    Decimal(value) + (if flags.h then 6 else 0) + if flags.c then 160 else 0
  }

  lemma Nibbles(hi: int, lo: int)
    requires 0 <= lo < 16
    ensures (16 * hi + lo) / 16 == hi && (16 * hi + lo) % 16 == lo
    ensures 0 <= hi < 16 ==> Mask8(16 * hi + lo) == 16 * hi + lo
  {
    Divides(16 * hi + lo, 16, hi, lo);
  }

  /** The adjustment after an addition, digit by digit. */
  lemma AdjustedUp(hi: int, lo: int, flags: Flags)
    requires 0 <= hi < 16 && 0 <= lo < 16 && !flags.n
    ensures var r := Daa(16 * hi + lo, flags);
            var low := if flags.h || lo > 9 then lo + 6 else lo;
            var high := hi + AsBit(low > 15) + if r.flags.c then 6 else 0;
            && (r.flags.c <==> flags.c || hi > 9 || (hi == 9 && lo > 9))
            && r.value == 16 * (if high > 15 then high - 16 else high) + if low > 15 then low - 16 else low
  {
    Nibbles(hi, lo);
    var carryOut := flags.c || 16 * hi + lo > 0x99;
    var low := if flags.h || lo > 9 then lo + 6 else lo;
    var sum := 16 * hi + low + if carryOut then 0x60 else 0;
    Divides(sum, 256, AsBit(sum > 255), sum - 256 * AsBit(sum > 255));
  }

  /** After an addition, the adjusted byte and carry are what the sum stands for in decimal exactly when the low digit
      is one a half carry can leave and the total stays below two hundred. */
  lemma DaaAfterAddition(hi: int, lo: int, flags: Flags)
    requires 0 <= hi < 16 && 0 <= lo < 16 && !flags.n
    ensures var r := Daa(16 * hi + lo, flags);
            && Bcd(r.value) && Decimal(r.value) + 100 * AsBit(r.flags.c) == Stands(16 * hi + lo, flags)
            <==> (flags.h ==> lo <= 3) && Stands(16 * hi + lo, flags) < 200
  {
    Nibbles(hi, lo);
    AdjustedUp(hi, lo, flags);
    var r := Daa(16 * hi + lo, flags);
    var low := if flags.h || lo > 9 then lo + 6 else lo;
    var high := hi + AsBit(low > 15) + if r.flags.c then 6 else 0;
    Nibbles(if high > 15 then high - 16 else high, if low > 15 then low - 16 else low);
  }

  lemma AdcNibbles(ah: int, al: int, bh: int, bl: int, carryIn: bool)
    requires 0 <= ah < 16 && 0 <= al < 16 && 0 <= bh < 16 && 0 <= bl < 16
    ensures var r := Adc8(16 * ah + al, 16 * bh + bl, carryIn);
            var low := al + bl + AsBit(carryIn);
            var high := ah + bh + AsBit(r.flags.h);
            && (r.flags.h <==> low > 15) && (r.flags.c <==> high > 15)
            && r.value == 16 * (if r.flags.c then high - 16 else high) + if r.flags.h then low - 16 else low
  {
    Nibbles(ah, al);
    Nibbles(bh, bl);
    var raw := 16 * ah + al + 16 * bh + bl + AsBit(carryIn);
    Divides(raw, 256, AsBit(raw > 255), raw - 256 * AsBit(raw > 255));
  }

  lemma DaaAfterAdc(a: int, b: int, carryIn: bool)
    requires Bcd(a) && Bcd(b)
    ensures var r := Adc8(a, b, carryIn); var d := Daa(r.value, r.flags);
            && Bcd(d.value) && d.flags == Flags(Decimal(d.value) == 0, false, false, d.flags.c)
            && Decimal(d.value) + Carried(d.flags.c, 100) == Decimal(a) + Decimal(b) + AsBit(carryIn)
  {
    AddedDigits(a / 16, a % 16, b / 16, b % 16, carryIn);
  }

  lemma AddedDigits(ah: int, al: int, bh: int, bl: int, carryIn: bool)
    requires 0 <= ah < 10 && 0 <= al < 10 && 0 <= bh < 10 && 0 <= bl < 10
    ensures var r := Adc8(16 * ah + al, 16 * bh + bl, carryIn); var d := Daa(r.value, r.flags);
            && Bcd(d.value)
            && Decimal(d.value) + Carried(d.flags.c, 100) == 10 * (ah + bh) + al + bl + AsBit(carryIn)
  {
    AdcNibbles(ah, al, bh, bl, carryIn);
    var flags := Adc8(16 * ah + al, 16 * bh + bl, carryIn).flags;
    var low := al + bl + AsBit(carryIn);
    var high := ah + bh + AsBit(flags.h);
    var hi, lo := if flags.c then high - 16 else high, if flags.h then low - 16 else low;
    Nibbles(hi, lo);
    DaaAfterAddition(hi, lo, flags);
  }

  lemma SbcNibbles(ah: int, al: int, bh: int, bl: int, borrowIn: bool)
    requires 0 <= ah < 16 && 0 <= al < 16 && 0 <= bh < 16 && 0 <= bl < 16
    ensures var r := Sbc8(16 * ah + al, 16 * bh + bl, borrowIn);
            var low := al - bl - AsBit(borrowIn);
            var high := ah - bh - AsBit(r.flags.h);
            && (r.flags.h <==> low < 0) && (r.flags.c <==> high < 0)
            && r.value == 16 * (if r.flags.c then high + 16 else high) + if r.flags.h then low + 16 else low
  {
    Nibbles(ah, al);
    Nibbles(bh, bl);
    var raw := 16 * ah + al - (16 * bh + bl + AsBit(borrowIn));
    Divides(raw, 256, if raw < 0 then -1 else 0, raw + 256 * AsBit(raw < 0));
  }

  /** The adjustment after a subtraction, digit by digit. */
  lemma AdjustedDown(hi: int, lo: int, flags: Flags)
    requires 0 <= hi < 16 && 0 <= lo < 16 && flags.n
    requires (flags.h ==> lo >= 6) && (flags.c ==> hi >= 6)
    ensures var r := Daa(16 * hi + lo, flags);
            && r.flags.c == flags.c
            && r.value == 16 * (if flags.c then hi - 6 else hi) + if flags.h then lo - 6 else lo
  {
    Nibbles(hi, lo);
  }

  lemma DaaAfterSbc(a: int, b: int, borrowIn: bool)
    requires Bcd(a) && Bcd(b)
    ensures var r := Sbc8(a, b, borrowIn); var d := Daa(r.value, r.flags);
            && Bcd(d.value) && d.flags == Flags(Decimal(d.value) == 0, true, false, d.flags.c)
            && Decimal(d.value) - Carried(d.flags.c, 100) == Decimal(a) - Decimal(b) - AsBit(borrowIn)
  {
    SubtractedDigits(a / 16, a % 16, b / 16, b % 16, borrowIn);
  }

  lemma SubtractedDigits(ah: int, al: int, bh: int, bl: int, borrowIn: bool)
    requires 0 <= ah < 10 && 0 <= al < 10 && 0 <= bh < 10 && 0 <= bl < 10
    ensures var r := Sbc8(16 * ah + al, 16 * bh + bl, borrowIn); var d := Daa(r.value, r.flags);
            && Bcd(d.value)
            && Decimal(d.value) - Carried(d.flags.c, 100) == 10 * (ah - bh) + al - bl - AsBit(borrowIn)
  {
    SbcNibbles(ah, al, bh, bl, borrowIn);
    var flags := Sbc8(16 * ah + al, 16 * bh + bl, borrowIn).flags;
    var low := al - bl - AsBit(borrowIn);
    var high := ah - bh - AsBit(flags.h);
    var hi, lo := if flags.c then high + 10 else high, if flags.h then low + 10 else low;
    AdjustedDown(if flags.c then hi + 6 else hi, if flags.h then lo + 6 else lo, flags);
    Nibbles(hi, lo);
    assert 0 <= hi <= 9 && 0 <= lo <= 9;
  }

  predicate AllBcd(s: seq<int>) {
    forall i :: 0 <= i < |s| ==> Bcd(s[i])
  }

  function Decimals(s: seq<int>): (r: seq<int>)
    ensures |r| == |s|
  {
    seq(|s|, i requires 0 <= i < |s| => Decimal(s[i]))
  }

  /** The decimal number packed bytes hold, low byte first. */
  function DecimalValue(s: seq<int>): int {
    Number(Decimals(s), 100)
  }

  lemma DecimalStep(s: seq<int>)
    requires s != []
    ensures DecimalValue(s) == Decimal(s[0]) + 100 * DecimalValue(s[1..])
  {
    assert Decimals(s)[1..] == Decimals(s[1..]);
  }

  function DecimalAddChain(a: seq<int>, b: seq<int>, carryIn: bool): (r: Chained)
    requires |a| == |b|
    ensures |r.digits| == |a|
  {
    if a == [] then Chained([], carryIn)
    else
      var sum := Adc8(a[0], b[0], carryIn);
      var low := Daa(sum.value, sum.flags);
      var rest := DecimalAddChain(a[1..], b[1..], low.flags.c);
      Chained([low.value] + rest.digits, rest.carry)
  }

  function DecimalSubChain(a: seq<int>, b: seq<int>, borrowIn: bool): (r: Chained)
    requires |a| == |b|
    ensures |r.digits| == |a|
  {
    if a == [] then Chained([], borrowIn)
    else
      var difference := Sbc8(a[0], b[0], borrowIn);
      var low := Daa(difference.value, difference.flags);
      var rest := DecimalSubChain(a[1..], b[1..], low.flags.c);
      Chained([low.value] + rest.digits, rest.carry)
  }

  lemma {:induction false} DecimalAddChainSum(a: seq<int>, b: seq<int>, carryIn: bool, r: Chained)
    requires |a| == |b| && AllBcd(a) && AllBcd(b) && r == DecimalAddChain(a, b, carryIn)
    ensures AllBcd(r.digits)
    ensures DecimalValue(r.digits) + Carried(r.carry, Power(100, |a|))
            == DecimalValue(a) + DecimalValue(b) + AsBit(carryIn)
    decreases |a|
  {
    if a == [] {
      assert Decimals(a) == [];
    } else {
      var sum := Adc8(a[0], b[0], carryIn);
      var low := Daa(sum.value, sum.flags);
      var rest := DecimalAddChain(a[1..], b[1..], low.flags.c);
      DecimalAddChainSum(a[1..], b[1..], low.flags.c, rest);
      DaaAfterAdc(a[0], b[0], carryIn);
      DecimalSteps(a, b, low.value, rest.digits);
    }
  }

  lemma DecimalSteps(a: seq<int>, b: seq<int>, low: int, rest: seq<int>)
    requires a != [] && b != []
    ensures DecimalValue(a) == Decimal(a[0]) + 100 * DecimalValue(a[1..])
    ensures DecimalValue(b) == Decimal(b[0]) + 100 * DecimalValue(b[1..])
    ensures DecimalValue([low] + rest) == Decimal(low) + 100 * DecimalValue(rest)
  {
    DecimalStep(a);
    DecimalStep(b);
    DecimalStep([low] + rest);
    assert ([low] + rest)[1..] == rest;
  }

  lemma {:induction false} DecimalSubChainDifference(a: seq<int>, b: seq<int>, borrowIn: bool)
    requires |a| == |b| && AllBcd(a) && AllBcd(b)
    ensures var r := DecimalSubChain(a, b, borrowIn);
            && AllBcd(r.digits)
            && DecimalValue(r.digits) - Carried(r.carry, Power(100, |a|))
               == DecimalValue(a) - DecimalValue(b) - AsBit(borrowIn)
  {
    if a == [] {
      assert Decimals(a) == [];
    } else {
      var difference := Sbc8(a[0], b[0], borrowIn);
      var low := Daa(difference.value, difference.flags);
      var rest := DecimalSubChain(a[1..], b[1..], low.flags.c);
      DecimalSubChainDifference(a[1..], b[1..], low.flags.c);
      DaaAfterSbc(a[0], b[0], borrowIn);
      DecimalSteps(a, b, low.value, rest.digits);
    }
  }

  lemma DecimalInRange(s: seq<int>)
    requires AllBcd(s)
    ensures 0 <= DecimalValue(s) < Power(100, |s|)
  {
    forall i | 0 <= i < |s|
      ensures 0 <= Decimals(s)[i] < 100
    {
      assert Bcd(s[i]);
    }
    NumberInRange(Decimals(s), 100);
  }

  /** Chained additions with decimal adjustment add packed decimal numbers of any length, with an exact carry out. */
  lemma DecimalAddChainAdds(a: seq<int>, b: seq<int>, carryIn: bool)
    requires |a| == |b| && AllBcd(a) && AllBcd(b)
    ensures var r := DecimalAddChain(a, b, carryIn);
            var sum := DecimalValue(a) + DecimalValue(b) + AsBit(carryIn);
            && AllBcd(r.digits)
            && (r.carry <==> sum >= Power(100, |a|))
            && DecimalValue(r.digits) == sum - Carried(r.carry, Power(100, |a|))
  {
    DecimalAddChainSum(a, b, carryIn, DecimalAddChain(a, b, carryIn));
    DecimalInRange(DecimalAddChain(a, b, carryIn).digits);
  }

  /** Chained subtractions with decimal adjustment subtract packed decimal numbers of any length; the borrow compares
      them. */
  lemma DecimalSubChainSubtracts(a: seq<int>, b: seq<int>, borrowIn: bool)
    requires |a| == |b| && AllBcd(a) && AllBcd(b)
    ensures var r := DecimalSubChain(a, b, borrowIn);
            var difference := DecimalValue(a) - DecimalValue(b) - AsBit(borrowIn);
            && AllBcd(r.digits)
            && (r.carry <==> difference < 0)
            && DecimalValue(r.digits) == difference + Carried(r.carry, Power(100, |a|))
  {
    DecimalSubChainDifference(a, b, borrowIn);
    DecimalInRange(DecimalSubChain(a, b, borrowIn).digits);
  }

  lemma {:induction false} DecimalDeterminesBytes(s: seq<int>, t: seq<int>)
    requires |s| == |t| && AllBcd(s) && AllBcd(t) && DecimalValue(s) == DecimalValue(t)
    ensures s == t
  {
    if s != [] {
      DecimalStep(s);
      DecimalStep(t);
      SameLowDigit(100, Decimal(s[0]), DecimalValue(s[1..]), Decimal(t[0]), DecimalValue(t[1..]));
      DecimalDeterminesByte(s[0], t[0]);
      DecimalDeterminesBytes(s[1..], t[1..]);
      assert s == [s[0]] + s[1..] && t == [t[0]] + t[1..];
    }
  }

  lemma DecimalDeterminesByte(a: int, b: int)
    requires Bcd(a) && Bcd(b) && Decimal(a) == Decimal(b)
    ensures a == b
  {
  }

  /** Decimal subtraction undoes decimal addition, byte for byte and carry for borrow. */
  lemma DecimalSubUndoesDecimalAdd(a: seq<int>, b: seq<int>, carry: bool)
    requires |a| == |b| && AllBcd(a) && AllBcd(b)
    ensures var sum := DecimalAddChain(a, b, carry);
            DecimalSubChain(sum.digits, b, carry) == Chained(a, sum.carry)
  {
    var sum := DecimalAddChain(a, b, carry);
    DecimalAddChainSum(a, b, carry, sum);
    DecimalSubChainDifference(sum.digits, b, carry);
    var back := DecimalSubChain(sum.digits, b, carry);
    DecimalInRange(back.digits);
    DecimalInRange(a);
    DecimalDeterminesBytes(back.digits, a);
  }
}
