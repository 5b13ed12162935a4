/** Bytes, and single bits of natural numbers, for packed bytes and words. */
module Bits {
  import opened Arithmetic

  type byte = x: int | 0 <= x < 256

  const TWO_32 := 0x1_0000_0000

  function AsBit(b: bool): nat {
    if b then 1 else 0
  }

  function Pow2(n: nat): (p: nat)
    ensures p > 0
  {
    if n == 0 then 1 else 2 * Pow2(n - 1)
  }

  lemma Pow2Of32()
    ensures Pow2(32) == TWO_32
  {
    assert Pow2(8) == 256;
    assert Pow2(16) == 65536;
    assert Pow2(24) == 16777216;
  }

  /** Bit `k`, bit 0 lowest: shift right k times and look at the lowest bit. */
  predicate BitOf(value: nat, k: nat)
    decreases k, value
  {
    if k == 0 then value % 2 == 1 else BitOf(value / 2, k - 1)
  }

  /** The eight lowest bits as quotients. */
  lemma ByteBits(value: nat)
    ensures BitOf(value, 0) <==> value % 2 == 1
    ensures BitOf(value, 1) <==> value / 2 % 2 == 1
    ensures BitOf(value, 2) <==> value / 4 % 2 == 1
    ensures BitOf(value, 3) <==> value / 8 % 2 == 1
    ensures BitOf(value, 4) <==> value / 16 % 2 == 1
    ensures BitOf(value, 5) <==> value / 32 % 2 == 1
    ensures BitOf(value, 6) <==> value / 64 % 2 == 1
    ensures BitOf(value, 7) <==> value / 128 % 2 == 1
  {
    BitFrom(value, 1, 2);
    BitFrom(value, 2, 4);
    BitFrom(value, 3, 8);
    BitFrom(value, 4, 16);
    BitFrom(value, 5, 32);
    BitFrom(value, 6, 64);
    BitFrom(value, 7, 128);
  }

  lemma {:induction false} BitFrom(value: nat, k: nat, weight: nat)
    requires weight == Pow2(k)
    ensures BitOf(value, k) <==> value / weight % 2 == 1
    decreases k
  {
    if k > 0 {
      BitFrom(value / 2, k - 1, Pow2(k - 1));
      HalveThenDivide(value, Pow2(k - 1));
    }
  }

  /** `value | (1 << k)` if `on`, and `value & ~(1 << k)` otherwise. */
  function WithBit(value: nat, k: nat, on: bool): nat
    decreases k, value
  {
    if k == 0 then value / 2 * 2 + AsBit(on)
    else WithBit(value / 2, k - 1, on) * 2 + value % 2
  }

  lemma {:induction false} WithBitSetsOneBit(value: nat, k: nat, on: bool, j: nat)
    ensures BitOf(WithBit(value, k, on), j) == if j == k then on else BitOf(value, j)
    decreases k
  {
    if k > 0 && j > 0 {
      WithBitSetsOneBit(value / 2, k - 1, on, j - 1);
    }
  }

  lemma {:induction false} WithBitStaysBelow(value: nat, k: nat, on: bool, n: nat)
    requires value < Pow2(n) && k < n
    ensures WithBit(value, k, on) < Pow2(n)
    decreases k
  {
    var half, limit := value / 2, Pow2(n - 1);
    assert Pow2(n) == 2 * limit;
    assert half < limit;
    if k > 0 {
      WithBitStaysBelow(half, k - 1, on, n - 1);
    }
  }
}
