/**
 CRC32C (util/crc32c.cc, util/crc32c.h): the striding loop against the byte-at-a-time definition.

 A word is its 32 bits, lowest first, so a shift right by eight drops the first eight bits.
 The lookup tables are a parameter: Defined states the equations that tie the four stride tables to the
 byte table, and CastagnoliTables builds tables that meet them from the polynomial of section 12.1 of RFC 3720.
 */
module Crc32c {
  import opened Keys

  // ---------------------------------------------------------------------------------------------
  // Bits
  // ---------------------------------------------------------------------------------------------

  type Bits = seq<bool>

  function Zeroes(n: nat): (r: Bits)
    ensures |r| == n
  {
    seq(n, i => false)
  }

  type Word = w: Bits | |w| == 32 witness Zeroes(32)
  type Octet = o: Bits | |o| == 8 witness Zeroes(8)

  function Xor(a: Bits, b: Bits): (r: Bits)
    requires |a| == |b|
    ensures |r| == |a| && forall i :: 0 <= i < |a| ==> r[i] == (a[i] != b[i])
  {
    seq(|a|, i requires 0 <= i < |a| => a[i] != b[i])
  }

  function ToBits(n: nat, x: nat): (r: Bits)
    ensures |r| == n
  {
    if n == 0 then [] else [x % 2 == 1] + ToBits(n - 1, x / 2)
  }

  function FromBits(a: Bits): nat {
    if a == [] then 0 else (if a[0] then 1 else 0) + 2 * FromBits(a[1..])
  }

  function Pow2(n: nat): (r: nat)
    ensures r > 0
  {
    if n == 0 then 1 else 2 * Pow2(n - 1)
  }

  lemma {:induction false} BitsRoundTrip(a: Bits)
    ensures FromBits(a) < Pow2(|a|)
    ensures ToBits(|a|, FromBits(a)) == a
  {
    if a != [] {
      BitsRoundTrip(a[1..]);
      assert FromBits(a) / 2 == FromBits(a[1..]);
      assert a == [a[0]] + a[1..];
    }
  }

  lemma {:induction false} NatRoundTrip(n: nat, x: nat)
    requires x < Pow2(n)
    ensures FromBits(ToBits(n, x)) == x
  {
    if n > 0 {
      NatRoundTrip(n - 1, x / 2);
      assert ToBits(n, x)[1..] == ToBits(n - 1, x / 2);
    }
  }

  // ---------------------------------------------------------------------------------------------
  // The definition
  // ---------------------------------------------------------------------------------------------

  /** The tables as functions of a byte; stride3 serves the lowest byte of a word. */
  datatype Tables = Tables(bytes: Octet -> Word, stride0: Octet -> Word, stride1: Octet -> Word,
                           stride2: Octet -> Word, stride3: Octet -> Word)

  function ShiftRight(l: Word): Word {
    l[8..] + Zeroes(8)
  }

  function OctetOf(b: Byte): Octet {
    ToBits(8, b)
  }

  /** One zero byte through the register. */
  function Zero(t: Tables, l: Word): Word {
    Xor(t.bytes(l[..8]), ShiftRight(l))
  }

  function Zeros(t: Tables, n: nat, l: Word): Word {
    if n == 0 then l else Zeros(t, n - 1, Zero(t, l))
  }

  /** STEP1: one byte. */
  function Step(t: Tables, l: Word, b: Byte): Word {
    Xor(t.bytes(Xor(l[..8], OctetOf(b))), ShiftRight(l))
  }

  function Steps(t: Tables, l: Word, data: Bytes): Word
    decreases data
  {
    if data == [] then l else Steps(t, Step(t, l, data[0]), data[1..])
  }

  function AllOnes(): Word {
    seq(32, i => true)
  }

  /** The CRC of A + data, given that of A. */
  function Crc(t: Tables, crc: Word, data: Bytes): Word {
    Xor(Steps(t, Xor(crc, AllOnes()), data), AllOnes())
  }

  lemma {:induction false} StepsCompose(t: Tables, l: Word, a: Bytes, b: Bytes)
    ensures Steps(t, l, a + b) == Steps(t, Steps(t, l, a), b)
    decreases a
  {
    if a == [] {
      assert a + b == b;
    } else {
      assert (a + b)[1..] == a[1..] + b;
      StepsCompose(t, Step(t, l, a[0]), a[1..], b);
    }
  }

  /** Extending a CRC continues it. */
  lemma {:induction false} CrcComposes(t: Tables, crc: Word, a: Bytes, b: Bytes)
    ensures Crc(t, Crc(t, crc, a), b) == Crc(t, crc, a + b)
  {
    var l := Steps(t, Xor(crc, AllOnes()), a);
    assert Xor(Xor(l, AllOnes()), AllOnes()) == l;
    StepsCompose(t, Xor(crc, AllOnes()), a, b);
  }

  // ---------------------------------------------------------------------------------------------
  // The defining equations of the tables
  // ---------------------------------------------------------------------------------------------

  ghost predicate LinearAt(t: Tables, a: Octet, b: Octet) {
    t.bytes(Xor(a, b)) == Xor(t.bytes(a), t.bytes(b))
  }

  /** A word that is v in byte position k and zero elsewhere. */
  function Placed(v: Octet, k: nat): Word
    requires k < 4
  {
    Zeroes(8 * k) + v + Zeroes(24 - 8 * k)
  }

  ghost predicate StridesAt(t: Tables, v: Octet) {
    && t.stride0(v) == Zeros(t, 16, Placed(v, 3))
    && t.stride1(v) == Zeros(t, 16, Placed(v, 2))
    && t.stride2(v) == Zeros(t, 16, Placed(v, 1))
    && t.stride3(v) == Zeros(t, 16, Placed(v, 0))
  }

  /** A linear byte table, and stride tables of sixteen zero bytes. */
  ghost predicate Defined(t: Tables) {
    (forall a: Octet, b: Octet :: LinearAt(t, a, b)) && (forall v: Octet :: StridesAt(t, v))
  }

  lemma {:induction false} ZeroIsLinear(t: Tables, a: Word, b: Word)
    requires Defined(t)
    ensures Zero(t, Xor(a, b)) == Xor(Zero(t, a), Zero(t, b))
  {
    assert LinearAt(t, a[..8], b[..8]);
    assert Xor(a, b)[..8] == Xor(a[..8], b[..8]);
    assert ShiftRight(Xor(a, b)) == Xor(ShiftRight(a), ShiftRight(b));
  }

  lemma {:induction false} ZerosIsLinear(t: Tables, n: nat, a: Word, b: Word)
    requires Defined(t)
    ensures Zeros(t, n, Xor(a, b)) == Xor(Zeros(t, n, a), Zeros(t, n, b))
  {
    if n > 0 {
      ZeroIsLinear(t, a, b);
      ZerosIsLinear(t, n - 1, Zero(t, a), Zero(t, b));
    }
  }

  lemma {:induction false} ZerosCompose(t: Tables, m: nat, n: nat, l: Word)
    ensures Zeros(t, m + n, l) == Zeros(t, n, Zeros(t, m, l))
  {
    if m > 0 {
      ZerosCompose(t, m - 1, n, Zero(t, l));
    }
  }

  // ---------------------------------------------------------------------------------------------
  // Four bytes at a time
  // ---------------------------------------------------------------------------------------------

  /** Up to four bytes as a little-endian word. */
  function Pad(data: Bytes): Word
    requires |data| <= 4
  {
    if data == [] then Zeroes(32) else OctetOf(data[0]) + Pad(data[1..])[..24]
  }

  lemma {:induction false} PadEnds(data: Bytes)
    requires |data| <= 4
    ensures forall i :: 8 * |data| <= i < 32 ==> !Pad(data)[i]
  {
    if data != [] {
      PadEnds(data[1..]);
    }
  }

  /** Bytes of a word put into the register together pass through it as one by one. */
  lemma {:induction false} StepsOfWord(t: Tables, l: Word, data: Bytes)
    requires |data| <= 4
    ensures Steps(t, l, data) == Zeros(t, |data|, Xor(l, Pad(data)))
    decreases data
  {
    if data == [] {
      assert Xor(l, Zeroes(32)) == l;
    } else {
      var x := Xor(l, Pad(data));
      PadEnds(data[1..]);
      assert x[..8] == Xor(l[..8], OctetOf(data[0]));
      assert ShiftRight(x) == Xor(ShiftRight(l), Pad(data[1..]));
      assert Zero(t, x) == Xor(Step(t, l, data[0]), Pad(data[1..]));
      StepsOfWord(t, Step(t, l, data[0]), data[1..]);
    }
  }

  function ReadUint32LE(data: Bytes, p: nat): Word
    requires p + 4 <= |data|
  {
    Pad(data[p..p + 4])
  }

  /** STEP4: sixteen zero bytes through one partial result, then the next word of its stride. */
  function Stride(t: Tables, crc: Word, w: Word): Word {
    Xor(w, Xor(t.stride3(crc[..8]), Xor(t.stride2(crc[8..16]), Xor(t.stride1(crc[16..24]), t.stride0(crc[24..])))))
  }

  lemma {:induction false} FourParts(t: Tables, n: nat, a: Word, b: Word, c: Word, d: Word)
    requires Defined(t)
    ensures Zeros(t, n, Xor(a, Xor(b, Xor(c, d)))) == Xor(Zeros(t, n, a), Xor(Zeros(t, n, b), Xor(Zeros(t, n, c), Zeros(t, n, d))))
  {
    ZerosIsLinear(t, n, a, Xor(b, Xor(c, d)));
    ZerosIsLinear(t, n, b, Xor(c, d));
    ZerosIsLinear(t, n, c, d);
  }

  lemma {:induction false} PartsOf(crc: Word)
    ensures crc == Xor(Placed(crc[..8], 0), Xor(Placed(crc[8..16], 1), Xor(Placed(crc[16..24], 2), Placed(crc[24..], 3))))
  {
  }

  lemma {:induction false} StrideIsSixteenZeros(t: Tables, crc: Word, w: Word)
    requires Defined(t)
    ensures Stride(t, crc, w) == Xor(w, Zeros(t, 16, crc))
  {
    PartsOf(crc);
    assert StridesAt(t, crc[..8]) && StridesAt(t, crc[8..16]) && StridesAt(t, crc[16..24]) && StridesAt(t, crc[24..]);
    FourParts(t, 16, Placed(crc[..8], 0), Placed(crc[8..16], 1), Placed(crc[16..24], 2), Placed(crc[24..], 3));
  }

  /** STEP4W: one partial result joins the register. */
  function Join(t: Tables, l: Word, w: Word): Word {
    Zeros(t, 4, Xor(w, l))
  }

  lemma {:induction false} JoinXor(t: Tables, l: Word, d: Word, w: Word)
    requires Defined(t)
    ensures Join(t, Xor(l, d), w) == Xor(Join(t, l, w), Zeros(t, 4, d))
  {
    assert Xor(w, Xor(l, d)) == Xor(Xor(w, l), d);
    ZerosIsLinear(t, 4, Xor(w, l), d);
  }

  /** The register that four partial results stand for. */
  function Combined(t: Tables, a: Word, b: Word, c: Word, d: Word): Word {
    Join(t, Join(t, Join(t, Join(t, Zeroes(32), a), b), c), d)
  }

  lemma {:induction false} StepsOfFour(t: Tables, l: Word, data: Bytes, p: nat)
    requires p + 4 <= |data|
    ensures Steps(t, l, data[p..p + 4]) == Join(t, l, ReadUint32LE(data, p))
  {
    StepsOfWord(t, l, data[p..p + 4]);
    assert Xor(l, ReadUint32LE(data, p)) == Xor(ReadUint32LE(data, p), l);
  }

  lemma {:induction false} ReadOn(t: Tables, l: Word, data: Bytes, p: nat, q: nat)
    requires p <= q <= |data|
    ensures Steps(t, l, data[..q]) == Steps(t, Steps(t, l, data[..p]), data[p..q])
  {
    assert data[..q] == data[..p] + data[p..q];
    StepsCompose(t, l, data[..p], data[p..q]);
  }

  /** One STEP4 on the oldest partial result is four bytes through the register they stand for. */
  lemma {:induction false} StrideStep(t: Tables, a: Word, b: Word, c: Word, d: Word, w: Word)
    requires Defined(t)
    ensures Combined(t, b, c, d, Stride(t, a, w)) == Join(t, Combined(t, a, b, c, d), w)
  {
    var none := Zeroes(32);
    var z := Zeros(t, 4, a);
    assert Xor(a, none) == a;
    assert Xor(none, z) == z;
    JoinXor(t, none, z, b);
    ZerosCompose(t, 4, 4, a);
    var z8 := Zeros(t, 8, a);
    JoinXor(t, Join(t, none, b), z8, c);
    ZerosCompose(t, 8, 4, a);
    var z12 := Zeros(t, 12, a);
    JoinXor(t, Join(t, Join(t, none, b), c), z12, d);
    ZerosCompose(t, 12, 4, a);
    var rest := Join(t, Join(t, Join(t, none, b), c), d);
    assert Combined(t, a, b, c, d) == Xor(rest, Zeros(t, 16, a));
    StrideIsSixteenZeros(t, a, w);
    assert Xor(w, Xor(rest, Zeros(t, 16, a))) == Xor(Xor(w, Zeros(t, 16, a)), rest);
  }

  /** The byte loops. */
  method ExtendByBytes(t: Tables, ghost start: Word, l0: Word, data: Bytes, p0: nat, q: nat) returns (l: Word)
    requires p0 <= q <= |data| && l0 == Steps(t, start, data[..p0])
    ensures l == Steps(t, start, data[..q])
  {
    l := l0;
    var p := p0;
    while p != q
      invariant p <= q && l == Steps(t, start, data[..p])
      decreases q - p
    {
      ReadOn(t, start, data, p, p + 1);
      l := Step(t, l, data[p]);
      p := p + 1;
    }
  }

  /** The swath loop: four partial results, sixteen bytes at a time. */
  method ExtendBySwaths(t: Tables, ghost start: Word, data: Bytes, p0: nat, a: Word, b: Word, c: Word, d: Word)
      returns (p: nat, crc0: Word, crc1: Word, crc2: Word, crc3: Word)
    requires Defined(t) && p0 <= |data|
    requires Combined(t, a, b, c, d) == Steps(t, start, data[..p0])
    ensures p0 <= p <= |data| && |data| - p < 16 && Combined(t, crc0, crc1, crc2, crc3) == Steps(t, start, data[..p])
  {
    p, crc0, crc1, crc2, crc3 := p0, a, b, c, d;
    while |data| - p >= 16
      invariant p0 <= p <= |data| && Combined(t, crc0, crc1, crc2, crc3) == Steps(t, start, data[..p])
    {
      NextWord(t, start, data, p, crc0, crc1, crc2, crc3);
      crc0 := Stride(t, crc0, ReadUint32LE(data, p));
      NextWord(t, start, data, p + 4, crc1, crc2, crc3, crc0);
      crc1 := Stride(t, crc1, ReadUint32LE(data, p + 4));
      NextWord(t, start, data, p + 8, crc2, crc3, crc0, crc1);
      crc2 := Stride(t, crc2, ReadUint32LE(data, p + 8));
      NextWord(t, start, data, p + 12, crc3, crc0, crc1, crc2);
      crc3 := Stride(t, crc3, ReadUint32LE(data, p + 12));
      p := p + 16;
    }
  }

  /** The word loop: one partial result at a time, the four changing places. */
  method ExtendByWords(t: Tables, ghost start: Word, data: Bytes, p0: nat, a: Word, b: Word, c: Word, d: Word)
      returns (p: nat, crc0: Word, crc1: Word, crc2: Word, crc3: Word)
    requires Defined(t) && p0 <= |data|
    requires Combined(t, a, b, c, d) == Steps(t, start, data[..p0])
    ensures p0 <= p <= |data| && |data| - p < 4 && Combined(t, crc0, crc1, crc2, crc3) == Steps(t, start, data[..p])
  {
    p, crc0, crc1, crc2, crc3 := p0, a, b, c, d;
    while |data| - p >= 4
      invariant p0 <= p <= |data| && Combined(t, crc0, crc1, crc2, crc3) == Steps(t, start, data[..p])
    {
      NextWord(t, start, data, p, crc0, crc1, crc2, crc3);
      crc0 := Stride(t, crc0, ReadUint32LE(data, p));
      crc0, crc1, crc2, crc3 := crc1, crc2, crc3, crc0;
      p := p + 4;
    }
  }

  /** Extend on the software path; address is where the buffer starts in memory. */
  method Extend(t: Tables, initCrc: Word, data: Bytes, address: nat) returns (crc: Word)
    requires Defined(t)
    ensures crc == Crc(t, initCrc, data)
  {
    ghost var start := Xor(initCrc, AllOnes());
    var l: Word := Xor(initCrc, AllOnes());
    var p := 0;
    var x := (4 - address % 4) % 4;
    if x <= |data| {
      l := ExtendByBytes(t, start, l, data, 0, x);
      p := x;
    }
    if |data| - p >= 16 {
      var crc0: Word := Xor(ReadUint32LE(data, p), l);
      var crc1, crc2, crc3 := ReadUint32LE(data, p + 4), ReadUint32LE(data, p + 8), ReadUint32LE(data, p + 12);
      FirstSwath(t, start, data, p, l);
      p, crc0, crc1, crc2, crc3 := ExtendBySwaths(t, start, data, p + 16, crc0, crc1, crc2, crc3);
      p, crc0, crc1, crc2, crc3 := ExtendByWords(t, start, data, p, crc0, crc1, crc2, crc3);
      l := Join(t, Join(t, Join(t, Join(t, Zeroes(32), crc0), crc1), crc2), crc3);
    }
    l := ExtendByBytes(t, start, l, data, p, |data|);
    assert data[..|data|] == data;
    crc := Xor(l, AllOnes());
  }

  lemma {:induction false} NextWord(t: Tables, start: Word, data: Bytes, p: nat, a: Word, b: Word, c: Word, d: Word)
    requires Defined(t) && p + 4 <= |data|
    requires Combined(t, a, b, c, d) == Steps(t, start, data[..p])
    ensures Combined(t, b, c, d, Stride(t, a, ReadUint32LE(data, p))) == Steps(t, start, data[..p + 4])
  {
    StrideStep(t, a, b, c, d, ReadUint32LE(data, p));
    StepsOfFour(t, Combined(t, a, b, c, d), data, p);
    ReadOn(t, start, data, p, p + 4);
  }

  lemma {:induction false} FirstSwath(t: Tables, start: Word, data: Bytes, p: nat, l: Word)
    requires p + 16 <= |data| && l == Steps(t, start, data[..p])
    ensures Combined(t, Xor(ReadUint32LE(data, p), l), ReadUint32LE(data, p + 4), ReadUint32LE(data, p + 8), ReadUint32LE(data, p + 12))
         == Steps(t, start, data[..p + 16])
  {
    var first := Xor(ReadUint32LE(data, p), l);
    assert Xor(first, Zeroes(32)) == first;
    StepsOfFour(t, l, data, p);
    ReadOn(t, start, data, p, p + 4);
    StepsOfFour(t, Steps(t, start, data[..p + 4]), data, p + 4);
    ReadOn(t, start, data, p + 4, p + 8);
    StepsOfFour(t, Steps(t, start, data[..p + 8]), data, p + 8);
    ReadOn(t, start, data, p + 8, p + 12);
    StepsOfFour(t, Steps(t, start, data[..p + 12]), data, p + 12);
    ReadOn(t, start, data, p + 12, p + 16);
  }

  // ---------------------------------------------------------------------------------------------
  // The tables of the Castagnoli polynomial
  // ---------------------------------------------------------------------------------------------

  /** One zero bit through the register; the polynomial is 0x82f63b78 with its highest power first. */
  function BitStep(l: Word): Word {
    if l[0] then Xor(l[1..] + [false], ToBits(32, 0x82f63b78)) else l[1..] + [false]
  }

  function BitSteps(n: nat, l: Word): Word {
    if n == 0 then l else BitSteps(n - 1, BitStep(l))
  }

  function CastagnoliBytes(v: Octet): Word {
    BitSteps(8, Placed(v, 0))
  }

  /** The byte table of the polynomial, and stride tables filled from it. */
  function CastagnoliTables(): Tables {
    var t := Tables(CastagnoliBytes, CastagnoliBytes, CastagnoliBytes, CastagnoliBytes, CastagnoliBytes);
    Tables(CastagnoliBytes, (v: Octet) => Zeros(t, 16, Placed(v, 3)), (v: Octet) => Zeros(t, 16, Placed(v, 2)),
           (v: Octet) => Zeros(t, 16, Placed(v, 1)), (v: Octet) => Zeros(t, 16, Placed(v, 0)))
  }

  lemma {:induction false} BitStepsLinear(n: nat, a: Word, b: Word)
    ensures BitSteps(n, Xor(a, b)) == Xor(BitSteps(n, a), BitSteps(n, b))
  {
    if n > 0 {
      assert BitStep(Xor(a, b)) == Xor(BitStep(a), BitStep(b));
      BitStepsLinear(n - 1, BitStep(a), BitStep(b));
    }
  }

  lemma {:induction false} SameBytesSameZeros(t: Tables, u: Tables, n: nat, l: Word)
    requires t.bytes == u.bytes
    ensures Zeros(t, n, l) == Zeros(u, n, l)
  {
    if n > 0 {
      SameBytesSameZeros(t, u, n - 1, Zero(t, l));
    }
  }

  lemma {:induction false} CastagnoliDefined()
    ensures Defined(CastagnoliTables())
  {
    var t := CastagnoliTables();
    forall a: Octet, b: Octet ensures LinearAt(t, a, b) {
      assert Placed(Xor(a, b), 0) == Xor(Placed(a, 0), Placed(b, 0));
      BitStepsLinear(8, Placed(a, 0), Placed(b, 0));
    }
    var u := Tables(CastagnoliBytes, CastagnoliBytes, CastagnoliBytes, CastagnoliBytes, CastagnoliBytes);
    forall v: Octet ensures StridesAt(t, v) {
      SameBytesSameZeros(t, u, 16, Placed(v, 0));
      SameBytesSameZeros(t, u, 16, Placed(v, 1));
      SameBytesSameZeros(t, u, 16, Placed(v, 2));
      SameBytesSameZeros(t, u, 16, Placed(v, 3));
    }
  }

  // ---------------------------------------------------------------------------------------------
  // Masking
  // ---------------------------------------------------------------------------------------------

  const MASK_DELTA: nat := 0xa282ead8
  const TWO15: nat := 0x8000
  const TWO17: nat := 0x2_0000
  const TWO32: nat := 0x1_0000_0000

  lemma {:induction false} WordFits(l: Word)
    ensures FromBits(l) < TWO32
  {
    BitsRoundTrip(l);
    assert Pow2(8) == 256;
    assert Pow2(16) == 65536;
    assert Pow2(24) == 16777216;
  }

  /** Rotates right by 15 bits and adds a constant, in 32 bits. */
  function Mask(crc: nat): (masked: nat)
    requires crc < TWO32
    ensures masked < TWO32
  {
    (crc / TWO15 + crc % TWO15 * TWO17 + MASK_DELTA) % TWO32
  }

  function Unmask(masked: nat): nat
    requires masked < TWO32
  {
    var rot := (masked + TWO32 - MASK_DELTA) % TWO32;
    rot / TWO17 + rot % TWO17 * TWO15
  }

  lemma {:induction false} UnmaskUndoesMask(crc: nat)
    requires crc < TWO32
    ensures Unmask(Mask(crc)) == crc
  {
    var low, high := crc % TWO15, crc / TWO15;
    var rot := high + low * TWO17;
    assert rot < TWO32;
    assert (Mask(crc) + TWO32 - MASK_DELTA) % TWO32 == rot;
    assert rot / TWO17 == low && rot % TWO17 == high;
  }
}
