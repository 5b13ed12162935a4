/**
 The stored-block zlib encoder behind the PNG writer, with its Adler-32 checksum, and
 a decoder written from the formats: RFC 1950 section 2.2 around RFC 1951 section 3.2.4.
 */
module Zlib {
  import opened Arithmetic
  import opened Bits
  import opened Sequences
  import opened Wrappers

  const MAX_BLOCK := 0xFFFF
  const ADLER_BASE := 65521

  // ---- Adler-32 ----

  /** The two running sums, unreduced: 1 plus the bytes, and the sum of the first sum after each byte. */
  function SumOne(data: seq<byte>): nat {
    if data == [] then 1 else SumOne(data[..|data| - 1]) + data[|data| - 1]
  }

  function SumTwo(data: seq<byte>): nat {
    if data == [] then 0 else SumTwo(data[..|data| - 1]) + SumOne(data)
  }

  /** The bytes weighted by their distance from the end: the first byte counts |data| times. */
  function WeightedSum(data: seq<byte>): nat {
    if data == [] then 0 else |data| * data[0] + WeightedSum(data[1..])
  }

  function Adler(data: seq<byte>): nat {
    SumTwo(data) % ADLER_BASE * 0x1_0000 + SumOne(data) % ADLER_BASE
  }

  method Adler32Bytes(data: seq<byte>) returns (checksum: nat)
    ensures checksum == Adler(data) < 0x1_0000_0000
  {
    var s1, s2 := 1, 0;
    for i := 0 to |data|
      invariant s1 == SumOne(data[..i]) % ADLER_BASE && s2 == SumTwo(data[..i]) % ADLER_BASE
    {
      assert data[..i + 1][..i] == data[..i];
      ModOfSum(SumOne(data[..i]), data[i]);
      s1 := (s1 + data[i]) % ADLER_BASE;
      ModOfSum(SumTwo(data[..i]), SumOne(data[..i + 1]));
      s2 := (s2 + s1) % ADLER_BASE;
    }
    assert data[..|data|] == data;
    checksum := s2 * 0x1_0000 + s1;
  }

  /** Reducing at every byte changes nothing. */
  lemma ModOfSum(a: nat, b: nat)
    ensures (a % ADLER_BASE + b) % ADLER_BASE == (a + b) % ADLER_BASE
    ensures (a % ADLER_BASE + b % ADLER_BASE) % ADLER_BASE == (a + b) % ADLER_BASE
  {
    AddMod(a, b, ADLER_BASE);
    AddMod(a, b % ADLER_BASE, ADLER_BASE);
    AddMod(b, a, ADLER_BASE);
  }

  function Total(data: seq<byte>): nat {
    if data == [] then 0 else data[0] + Total(data[1..])
  }

  lemma {:induction false} TotalOfLast(data: seq<byte>)
    requires data != []
    ensures Total(data) == Total(data[..|data| - 1]) + data[|data| - 1]
  {
    if |data| > 1 {
      assert data[1..][..|data| - 2] == data[..|data| - 1][1..];
      TotalOfLast(data[1..]);
    }
  }

  lemma {:induction false} WeightedSumOfLast(data: seq<byte>)
    requires data != []
    ensures WeightedSum(data) == WeightedSum(data[..|data| - 1]) + Total(data)
  {
    if |data| == 1 {
      assert data[..0] == [] && data[1..] == [];
    } else {
      var front := data[..|data| - 1];
      assert data[1..][..|data| - 2] == front[1..];
      WeightedSumOfLast(data[1..]);
      assert |data| * data[0] == |front| * front[0] + data[0];
    }
  }

  /** The checksum's two halves are 1 + sum d[i] and n + sum (n - i) * d[i], each modulo 65521. */
  lemma {:induction false} AdlerClosedForm(data: seq<byte>)
    ensures SumOne(data) == 1 + Total(data)
    ensures SumTwo(data) == |data| + WeightedSum(data)
    ensures Adler(data) == (|data| + WeightedSum(data)) % 65521 * 0x1_0000 + (1 + Total(data)) % 65521
  {
    if data != [] {
      AdlerClosedForm(data[..|data| - 1]);
      TotalOfLast(data);
      WeightedSumOfLast(data);
    }
  }

  // ---- the encoder ----

  /** The low `n` bytes of a number, highest first. */
  function BigEndian(x: nat, n: nat): (bytes: seq<byte>)
    ensures |bytes| == n
    decreases n, x
  {
    if n == 0 then [] else BigEndian(x / 0x100, n - 1) + [x % 0x100]
  }

  function BigEndian32(x: nat): seq<byte> {
    BigEndian(x, 4)
  }

  /** One stored block: the final bit, LEN and its complement, low bytes first, then the bytes themselves. */
  function StoredBlock(payload: seq<byte>, last: bool): seq<byte>
    requires |payload| <= MAX_BLOCK
  {
    var len := |payload|;
    var nlen := MAX_BLOCK - len;
    BlockHeader(last, len % 0x100, len / 0x100, nlen % 0x100, nlen / 0x100) + payload
  }

  function BlockHeader(last: bool, lenLo: byte, lenHi: byte, nlenLo: byte, nlenHi: byte): (h: seq<byte>)
    ensures |h| == 5
  {
    [AsBit(last), lenLo, lenHi, nlenLo, nlenHi]
  }

  function BlockLength(remaining: nat): nat {
    if remaining < MAX_BLOCK then remaining else MAX_BLOCK
  }

  function Blocks(raw: seq<byte>): seq<byte>
    decreases |raw|
  {
    if raw == [] then []
    else
      var n := BlockLength(|raw|);
      StoredBlock(raw[..n], n == |raw|) + Blocks(raw[n..])
  }

  function Store(raw: seq<byte>): seq<byte> {
    [0x78, 0x01] + Blocks(raw) + BigEndian32(Adler(raw))
  }

  lemma BlocksFrom(raw: seq<byte>, offset: nat)
    requires offset < |raw|
    ensures var n := BlockLength(|raw| - offset);
            Blocks(raw[offset..]) == StoredBlock(raw[offset..offset + n], offset + n == |raw|) +
            Blocks(raw[offset + n..])
  {
    var n := BlockLength(|raw| - offset);
    var rest := raw[offset..];
    assert rest[..n] == raw[offset..offset + n] && rest[n..] == raw[offset + n..];
  }

  method EncodeBlock(payload: seq<byte>, finalBlock: bool) returns (block: seq<byte>)
    requires |payload| <= MAX_BLOCK
    ensures block == StoredBlock(payload, finalBlock)
  {
    var blockLen := |payload|;
    var nlen := MAX_BLOCK - blockLen;
    block := BlockHeader(finalBlock, blockLen % 0x100, blockLen / 0x100, nlen % 0x100, nlen / 0x100);
    block := block + payload;
  }

  method ZlibStore(raw: seq<byte>) returns (out: seq<byte>)
    ensures out == Store(raw)
  {
    out := [0x78, 0x01];
    ghost var start, written: seq<byte> := out, [];
    var offset := 0;
    while offset < |raw|
      invariant 0 <= offset <= |raw|
      invariant out == start + written && written + Blocks(raw[offset..]) == Blocks(raw)
    {
      var remaining := |raw| - offset;
      var blockLen := if remaining < MAX_BLOCK then remaining else MAX_BLOCK;
      var finalBlock := offset + blockLen == |raw|;
      var block := EncodeBlock(raw[offset..offset + blockLen], finalBlock);
      BlocksFrom(raw, offset);
      Associates(start, written, block);
      Associates(written, block, Blocks(raw[offset + blockLen..]));
      out, written := out + block, written + block;
      offset := offset + blockLen;
    }
    assert written + [] == written;
    var checksum := Adler32Bytes(raw);
    out := out + BigEndian32(checksum);
  }

  // ---- an independent decoder ----

  datatype Inflated = Inflated(payload: seq<byte>, rest: seq<byte>)

  datatype Block = Block(final: bool, payload: seq<byte>, rest: seq<byte>)

  /** The block at the front; nothing if it is cut short, is not a stored block, or its lengths are not
      complementary. */
  function ReadBlock(bytes: seq<byte>): (r: Option<Block>)
    ensures r.Some? ==> |r.value.rest| < |bytes|
  {
    if |bytes| < 5 then None
    else
      var final, kind := bytes[0] % 2, bytes[0] / 2 % 4;
      var len: int := LittleEndian16(bytes[1], bytes[2]);
      var nlen: int := LittleEndian16(bytes[3], bytes[4]);
      if kind != 0 || len + nlen != 0xFFFF || |bytes| < 5 + len then None
      else Some(Block(final == 1, bytes[5..5 + len], bytes[5 + len..]))
  }

  /** Stored blocks up to and including the final one. */
  function InflateStored(bytes: seq<byte>): (r: Option<Inflated>)
    decreases |bytes|
  {
    match ReadBlock(bytes)
    case None => None
    case Some(block) =>
      if block.final then Some(Inflated(block.payload, block.rest))
      else
        match InflateStored(block.rest)
        case None => None
        case Some(more) => Some(Inflated(block.payload + more.payload, more.rest))
  }

  function LittleEndian16(lo: int, hi: int): int {
    lo + 0x100 * hi
  }

  /** A zlib stream: deflate method and a valid header check, no dictionary, stored blocks, and the checksum of what
      they hold as the last four bytes. */
  function Decompress(bytes: seq<byte>): Option<seq<byte>> {
    if |bytes| < 2 || !ValidHeader(bytes[0], bytes[1]) then None
    else
      match InflateStored(bytes[2..])
      case None => None
      case Some(r) => if ChecksumIs(r.rest, Adler(r.payload)) then Some(r.payload) else None
  }

  /** The four bytes spell the checksum, the highest first. */
  predicate ChecksumIs(b: seq<byte>, checksum: int) {
    |b| == 4 && BigEndianNumber(b[0], b[1], b[2], b[3]) == checksum
  }

  function BigEndianNumber(a: int, b: int, c: int, d: int): int {
    0x100_0000 * a + 0x1_0000 * b + 0x100 * c + d
  }

  predicate ValidHeader(cmf: int, flg: int) {
    cmf % 16 == 8 && flg / 32 % 2 == 0 && (cmf * 0x100 + flg) % 31 == 0
  }

  // ---- round trip ----

  /** One block in front of a stream. */
  lemma BlockInflates(payload: seq<byte>, last: bool, rest: seq<byte>)
    requires |payload| <= MAX_BLOCK
    ensures InflateStored(StoredBlock(payload, last) + rest) ==
            if last then Some(Inflated(payload, rest))
            else
              match InflateStored(rest)
              case None => None
              case Some(more) => Some(Inflated(payload + more.payload, more.rest))
  {
    var n, m := |payload|, MAX_BLOCK - |payload|;
    var header := BlockHeader(last, n % 0x100, n / 0x100, m % 0x100, m / 0x100);
    HeaderInflates(header, payload, rest);
    Associates(header, payload, rest);
    LengthBytes(n);
  }

  /** The five header bytes decide; what follows them is the payload and the rest. */
  lemma HeaderInflates(header: seq<byte>, payload: seq<byte>, rest: seq<byte>)
    requires |header| == 5 && header[0] < 2
    requires LittleEndian16(header[1], header[2]) == |payload|
    requires LittleEndian16(header[3], header[4]) == MAX_BLOCK - |payload|
    ensures InflateStored(header + (payload + rest)) ==
            if header[0] == 1 then Some(Inflated(payload, rest))
            else
              match InflateStored(rest)
              case None => None
              case Some(more) => Some(Inflated(payload + more.payload, more.rest))
  {
    HeaderSlices(header, payload, rest);
    SlicesRead(header + (payload + rest), payload, rest);
  }

  lemma HeaderSlices(header: seq<byte>, payload: seq<byte>, rest: seq<byte>)
    requires |header| == 5
    ensures var bytes := header + (payload + rest);
            && |bytes| == 5 + |payload| + |rest| && bytes[..5] == header
            && bytes[5..5 + |payload|] == payload && bytes[5 + |payload|..] == rest
            && forall i :: 0 <= i < 5 ==> bytes[i] == header[i]
  {
  }

  lemma SlicesRead(bytes: seq<byte>, payload: seq<byte>, rest: seq<byte>)
    requires |bytes| == 5 + |payload| + |rest| && bytes[0] < 2
    requires LittleEndian16(bytes[1], bytes[2]) == |payload|
    requires LittleEndian16(bytes[3], bytes[4]) == MAX_BLOCK - |payload|
    requires bytes[5..5 + |payload|] == payload && bytes[5 + |payload|..] == rest
    ensures ReadBlock(bytes) == Some(Block(bytes[0] == 1, payload, rest))
  {
  }

  lemma {:induction false} BlocksInflate(raw: seq<byte>, tail: seq<byte>)
    requires raw != []
    ensures InflateStored(Blocks(raw) + tail) == Some(Inflated(raw, tail))
    decreases |raw|
  {
    var n := BlockLength(|raw|);
    FirstBlock(raw, tail, n);
    BlockInflates(raw[..n], n == |raw|, Blocks(raw[n..]) + tail);
    if n < |raw| {
      BlocksInflate(raw[n..], tail);
      assert raw[..n] + raw[n..] == raw;
    } else {
      assert raw[..n] == raw && [] + tail == tail;
    }
  }

  lemma FirstBlock(raw: seq<byte>, tail: seq<byte>, n: nat)
    requires raw != [] && n == BlockLength(|raw|)
    ensures Blocks(raw) + tail == StoredBlock(raw[..n], n == |raw|) + (Blocks(raw[n..]) + tail)
  {
    Associates(StoredBlock(raw[..n], n == |raw|), Blocks(raw[n..]), tail);
  }

  lemma LengthBytes(n: nat)
    requires n <= MAX_BLOCK
    ensures LittleEndian16(n % 0x100, n / 0x100) == n
    ensures LittleEndian16((MAX_BLOCK - n) % 0x100, (MAX_BLOCK - n) / 0x100) == MAX_BLOCK - n
  {
  }

  /** Two header bytes, a body and the rest after it. */
  lemma StreamDecodes(header: seq<byte>, blocks: seq<byte>, inflated: Inflated)
    requires |header| == 2 && ValidHeader(header[0], header[1])
    requires InflateStored(blocks) == Some(inflated)
    ensures Decompress(header + blocks) ==
            if ChecksumIs(inflated.rest, Adler(inflated.payload)) then Some(inflated.payload) else None
  {
    assert (header + blocks)[2..] == blocks;
  }

  lemma HeaderIsValid()
    ensures ValidHeader(0x78, 0x01)
  {
  }

  /** Decoding gives the input back exactly when the input is not empty: for no bytes the encoder writes no block at
      all, so there is no final one. */
  lemma StoreRoundTrips(raw: seq<byte>)
    ensures Decompress(Store(raw)) == Some(raw) <==> raw != []
    ensures raw == [] ==> Decompress(Store(raw)) == None
  {
    if raw != [] {
      var tail := BigEndian32(Adler(raw));
      Associates([0x78, 0x01], Blocks(raw), tail);
      BytesRoundTrip(raw, tail, Blocks(raw) + tail);
    } else {
      NothingHasNoBlock(raw, BigEndian32(Adler(raw)));
    }
  }

  lemma BytesRoundTrip(raw: seq<byte>, tail: seq<byte>, blocks: seq<byte>)
    requires raw != [] && tail == BigEndian32(Adler(raw)) && blocks == Blocks(raw) + tail
    ensures Decompress([0x78, 0x01] + blocks) == Some(raw)
  {
    BlocksInflate(raw, tail);
    HeaderIsValid();
    AdlerFits(raw);
    BytesSpell(Adler(raw));
    StreamDecodes([0x78, 0x01], blocks, Inflated(raw, tail));
  }

  lemma AdlerFits(data: seq<byte>)
    ensures Adler(data) < 0x1_0000_0000
  {
    Scales(0x1_0000, SumTwo(data) % ADLER_BASE, ADLER_BASE - 1);
  }

  lemma BytesSpell(x: nat)
    requires x < 0x1_0000_0000
    ensures ChecksumIs(BigEndian32(x), x)
  {
    var h := x / 0x100 / 0x100 / 0x100;
    assert x == 0x100 * (0x100 * (0x100 * h + x / 0x100 / 0x100 % 0x100) + x / 0x100 % 0x100) + x % 0x100;
    assert h < 0x100 && h % 0x100 == h;
    assert BigEndian(h, 1) == BigEndian(h / 0x100, 0) + [h];
    assert BigEndian(x / 0x100 / 0x100, 2) == BigEndian(h, 1) + [x / 0x100 / 0x100 % 0x100];
    assert BigEndian(x / 0x100, 3) == BigEndian(x / 0x100 / 0x100, 2) + [x / 0x100 % 0x100];
    assert BigEndian(x, 4) == BigEndian(x / 0x100, 3) + [x % 0x100];
  }

  /** The stream ends in the checksum, highest byte first. */
  lemma StoreEndsInChecksum(raw: seq<byte>)
    ensures var out := Store(raw); |out| >= 4 && ChecksumIs(out[|out| - 4..], Adler(raw))
  {
    AdlerFits(raw);
    BytesSpell(Adler(raw));
    var out, tail := Store(raw), BigEndian32(Adler(raw));
    assert out[|out| - 4..] == tail;
  }

  lemma NothingHasNoBlock(raw: seq<byte>, tail: seq<byte>)
    requires raw == [] && tail == BigEndian32(Adler(raw))
    ensures Decompress(Store(raw)) == None
  {
    assert Store(raw)[2..] == tail;
  }

  /** The output has one block per started 65535 bytes, so its length is the input's plus 5 per block plus 6. */
  lemma {:induction false} BlocksLength(raw: seq<byte>)
    ensures |Blocks(raw)| == |raw| + 5 * ((|raw| + 65534) / 65535)
    decreases |raw|
  {
    if raw != [] {
      var n := BlockLength(|raw|);
      BlocksLength(raw[n..]);
      if n == MAX_BLOCK {
        assert (|raw| + MAX_BLOCK - 1) / MAX_BLOCK == 1 + (|raw| - MAX_BLOCK + MAX_BLOCK - 1) / MAX_BLOCK;
      }
    }
  }
}
