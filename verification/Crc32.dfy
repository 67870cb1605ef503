/** The table-driven checksum of checksum/crc32.h, and the bit-serial shift register it
    stands for (section 8 of RFC 1952, clause 3.2.9 of IEEE 802.3, Appendix B of RFC 4960:
    registers reflected, so bits enter and leave at the low end). */
module Crc32 {
  import opened Bits
  import opened Integers

  const CRC32_MASK: uint32 := 0xFFFF_FFFF
  const CRC32_INITIALIZER: uint32 := CRC32_MASK

  // crc32.h:53-75, reversed polynomials.
  const CRC32: uint32 := 0xEDB8_8320
  const CRC32C: uint32 := 0x82F6_3B78
  const CRC32K: uint32 := 0xEB31_D82E
  const CRC32K2: uint32 := 0x992C_1A4C
  const CRC32Q: uint32 := 0xD582_8281

  predicate Listed(p: uint32) {
    p in {CRC32, CRC32C, CRC32K, CRC32K2, CRC32Q}
  }

  /** The highest bit of the reversed polynomial, the constant term of the polynomial. */
  predicate TopBit(p: uint32) {
    p >= 0x8000_0000
  }

  lemma ListedTopBit(p: uint32)
    requires Listed(p)
    ensures TopBit(p)
  {
  }

  // ---- The source ---------------------------------------------------------------------

  /** crc32.h:91-104. */
  function IterValue(p: uint32, x: uint32): (r: uint32) {
    Pow2At32();
    XorBound(x / 2, p, 32);
    if x % 2 == 1 then Xor(x / 2, p) else x / 2
  }

  /** crc32.h:108-134: N counts down from 7 to 0 through the recursion. */
  function TableElement(p: uint32, index: uint8, n: nat): uint32
    requires n <= 7
    decreases 7 - n
  {
    if n == 7 then IterValue(p, index) else IterValue(p, TableElement(p, index, n + 1))
  }

  function Elements(p: uint32): (elements: seq<uint32>)
    ensures |elements| == 256
  {
    seq(256, i requires 0 <= i < 256 => TableElement(p, i, 0))
  }

  /** crc32.h:137-157: elements are put in front of those already listed. */
  function TableFrom(elements: seq<uint32>, n: nat, indices: seq<uint32>): seq<uint32>
    requires n < |elements|
  {
    if n == 0 then [elements[0]] + indices else TableFrom(elements, n - 1, [elements[n]] + indices)
  }

  function Table(p: uint32): (table: seq<uint32>)
    ensures |table| == 256
    ensures forall i :: 0 <= i < 256 ==> table[i] == TableElement(p, i, 0)
  {
    var elements := Elements(p);
    TableFromIs(elements, |elements| - 1, []);
    TableFrom(elements, |elements| - 1, [])
  }

  lemma {:induction false} TableFromIs(elements: seq<uint32>, n: nat, indices: seq<uint32>)
    requires n < |elements|
    ensures TableFrom(elements, n, indices) == elements[..n + 1] + indices
  {
    if n > 0 {
      TableFromIs(elements, n - 1, [elements[n]] + indices);
      assert elements[..n] + ([elements[n]] + indices) == elements[..n + 1] + indices;
    }
  }

  /** crc32.h:193-203. */
  function Step(p: uint32, checksum: uint32, value: uint8): uint32 {
    Pow2At32();
    XorBound(Table(p)[Xor(checksum, value) % 256], checksum / 256, 32);
    Xor(Table(p)[Xor(checksum, value) % 256], checksum / 256)
  }

  /** std::accumulate over the message. */
  function Accumulate(p: uint32, checksum: uint32, message: seq<uint8>): uint32
    decreases |message|
  {
    if message == [] then checksum else Accumulate(p, Step(p, checksum, message[0]), message[1..])
  }

  /** crc32.h:220-234. `initial` may be wider than 32 bits. */
  function Crc(p: uint32, message: seq<uint8>, initial: nat): uint32 {
    CRC32_MASK - Accumulate(p, Start(initial), message)
  }

  function Start(initial: nat): uint32 {
    if initial == CRC32_INITIALIZER then initial else CRC32_MASK - initial % 0x1_0000_0000
  }

  // ---- The bit-serial register --------------------------------------------------------

  /** Feeding one message bit. */
  function Feed(p: uint32, x: uint32, bit: bool): uint32 {
    Pow2At32();
    XorBound(x, if bit then 1 else 0, 32);
    IterValue(p, Xor(x, if bit then 1 else 0))
  }

  function FeedAll(p: uint32, x: uint32, bits: seq<bool>): uint32
    decreases |bits|
  {
    if bits == [] then x else FeedAll(p, Feed(p, x, bits[0]), bits[1..])
  }

  /** The k low bits of w, lowest first. */
  function LowBits(w: nat, k: nat): (bits: seq<bool>)
    ensures |bits| == k
  {
    if k == 0 then [] else [w % 2 == 1] + LowBits(w / 2, k - 1)
  }

  function MessageBits(message: seq<uint8>): (bits: seq<bool>)
    ensures |bits| == 8 * |message|
  {
    if message == [] then [] else LowBits(message[0], 8) + MessageBits(message[1..])
  }

  /** k shifts of the register without input. */
  function Iterate(p: uint32, x: uint32, k: nat): uint32
    decreases k, x
  {
    if k == 0 then x else Iterate(p, IterValue(p, x), k - 1)
  }

  // ---- Linearity ----------------------------------------------------------------------

  lemma IterValueLinear(p: uint32, x: uint32, y: uint32)
    ensures Xor(x, y) < 0x1_0000_0000
    ensures IterValue(p, Xor(x, y)) == Xor(IterValue(p, x), IterValue(p, y))
  {
    Pow2At32();
    XorBound(x, y, 32);
    XorHalf(x, y);
    var a, b := x / 2, y / 2;
    var m, n := if x % 2 == 1 then p else 0, if y % 2 == 1 then p else 0;
    XorZero(a);
    XorZero(b);
    XorZero(p);
    XorZero(Xor(a, b));
    XorSelf(p);
    XorSwap(a, m, b, n);
    assert IterValue(p, x) == Xor(a, m) && IterValue(p, y) == Xor(b, n);
  }

  lemma {:induction false} IterateLinear(p: uint32, x: uint32, y: uint32, k: nat)
    ensures Xor(x, y) < 0x1_0000_0000
    ensures Iterate(p, Xor(x, y), k) == Xor(Iterate(p, x, k), Iterate(p, y, k))
    decreases k
  {
    IterValueLinear(p, x, y);
    if k > 0 { IterateLinear(p, IterValue(p, x), IterValue(p, y), k - 1); }
  }

  /** Bits above the lowest k only move down. */
  lemma {:induction false} IterateShifts(p: uint32, h: nat, k: nat)
    requires Pow2(k) * h < 0x1_0000_0000
    ensures Iterate(p, Pow2(k) * h, k) == h
  {
    if k > 0 {
      var half := Twice(k, h);
      IterateShifts(p, h, k - 1);
    }
  }

  lemma {:induction false} TableElementIterates(p: uint32, index: uint8, n: nat)
    requires n <= 7
    ensures TableElement(p, index, n) == Iterate(p, index, 8 - n)
    decreases 7 - n
  {
    if n < 7 {
      TableElementIterates(p, index, n + 1);
      IterateOnce(p, index, 7 - n);
    }
  }

  lemma {:induction false} IterateOnce(p: uint32, x: uint32, k: nat)
    ensures Iterate(p, x, k + 1) == IterValue(p, Iterate(p, x, k))
    decreases k
  {
    if k > 0 { IterateOnce(p, IterValue(p, x), k - 1); }
  }

  /** Adding a byte changes the low byte only. */
  lemma AddByte(c: uint32, v: uint8) returns (low: uint8)
    ensures low == Xor(c % 256, v) && Xor(c, v) == 256 * (c / 256) + low
    ensures Xor(c, v) % 256 == low && Xor(c, v) < 0x1_0000_0000
  {
    var high, l := c / 256, c % 256;
    XorLowByte(high, l, v);
    low := Xor(l, v);
    LowByte(256 * high + low, high, low);
  }

  lemma LowByte(z: nat, high: nat, low: uint8)
    requires z == 256 * high + low
    ensures z % 256 == low && z / 256 == high
  {
  }

  lemma IterateByte(p: uint32, high: nat, low: uint8)
    requires 256 * high + low < 0x1_0000_0000
    ensures Iterate(p, 256 * high + low, 8) == Xor(Iterate(p, low, 8), high)
  {
    assert Xor(256 * high, low) == 256 * high + low by { Pow2At32(); XorDisjoint(8, high, low); }
    assert Iterate(p, 256 * high, 8) == high by { Pow2At32(); IterateShifts(p, high, 8); }
    IterateLinear(p, 256 * high, low, 8);
    XorCommutes(high, Iterate(p, low, 8));
  }

  /** One table step is eight shifts of the register with the byte added at the low end. */
  lemma StepIterates(p: uint32, c: uint32, v: uint8)
    ensures Xor(c, v) < 0x1_0000_0000
    ensures Step(p, c, v) == Iterate(p, Xor(c, v), 8)
  {
    var low := AddByte(c, v);
    var high := c / 256;
    assert Step(p, c, v) == Xor(TableElement(p, low, 0), high);
    TableElementIterates(p, low, 0);
    IterateByte(p, high, low);
  }

  /** Feeding the k low bits of w one by one is adding w at the low end and shifting k
      times. */
  lemma {:induction false} FeedWord(p: uint32, x: uint32, w: uint32, k: nat)
    requires w < Pow2(k)
    ensures Xor(x, w) < 0x1_0000_0000
    ensures FeedAll(p, x, LowBits(w, k)) == Iterate(p, Xor(x, w), k)
    decreases k
  {
    Pow2At32();
    XorBound(x, w, 32);
    if k == 0 {
      XorZero(x);
    } else {
      FeedWord(p, Feed(p, x, w % 2 == 1), w / 2, k - 1);
      FeedLowBit(p, x, w);
      assert LowBits(w, k)[1..] == LowBits(w / 2, k - 1);
    }
  }

  lemma FeedLowBit(p: uint32, x: uint32, w: uint32)
    ensures Xor(x, w) < 0x1_0000_0000
    ensures IterValue(p, Xor(x, w)) == Xor(Feed(p, x, w % 2 == 1), w / 2)
  {
    var b, t := w % 2, w / 2;
    Pow2At32();
    XorBound(x, w, 32);
    XorBound(x, b, 32);
    XorDisjoint(1, t, b);
    XorCommutes(2 * t, b);
    XorAssociates(x, b, 2 * t);
    IterValueLinear(p, Xor(x, b), 2 * t);
  }

  lemma {:induction false} FeedAppend(p: uint32, x: uint32, a: seq<bool>, b: seq<bool>)
    ensures FeedAll(p, x, a + b) == FeedAll(p, FeedAll(p, x, a), b)
    decreases |a|
  {
    if a == [] {
      assert a + b == b;
    } else {
      assert (a + b)[1..] == a[1..] + b;
      FeedAppend(p, Feed(p, x, a[0]), a[1..], b);
    }
  }

  /** The table-driven checksum is the bit-serial one, for every polynomial, every start and
      every message. */
  lemma {:induction false} TableIsRegister(p: uint32, x: uint32, message: seq<uint8>)
    ensures Accumulate(p, x, message) == FeedAll(p, x, MessageBits(message))
    decreases |message|
  {
    if message == [] {
    } else {
      var v := message[0];
      StepIterates(p, x, v);
      assert Pow2(8) == 256;
      FeedWord(p, x, v, 8);
      FeedAppend(p, x, LowBits(v, 8), MessageBits(message[1..]));
      TableIsRegister(p, Step(p, x, v), message[1..]);
    }
  }

  // ---- Error detection ----------------------------------------------------------------

  lemma IterValueInjective(p: uint32, x: uint32, y: uint32)
    requires TopBit(p) && IterValue(p, x) == IterValue(p, y)
    ensures x == y
  {
    TopOfShift(p, x);
    TopOfShift(p, y);
    if x % 2 == 1 { XorCancels(x / 2, y / 2, p); }
  }

  /** The bit that is shifted out can be read off the top of the register. */
  lemma TopOfShift(p: uint32, x: uint32)
    requires TopBit(p)
    ensures x % 2 == 1 <==> IterValue(p, x) >= 0x8000_0000
  {
    if x % 2 == 1 {
      var h := x / 2;
      assert Pow2(31) == 0x8000_0000 by { Pow2At32(); }
      XorBlocks(31, 0, h, 1, p - 0x8000_0000);
      assert Xor(0, 1) == 1;
    }
  }

  lemma FeedInjective(p: uint32, x: uint32, y: uint32, bit: bool)
    requires TopBit(p) && Feed(p, x, bit) == Feed(p, y, bit)
    ensures x == y
  {
    var b := if bit then 1 else 0;
    assert Xor(x, b) < 0x1_0000_0000 && Xor(y, b) < 0x1_0000_0000 by {
      Pow2At32();
      XorBound(x, b, 32);
      XorBound(y, b, 32);
    }
    IterValueInjective(p, Xor(x, b), Xor(y, b));
    XorCancels(x, y, b);
  }

  /** Different registers stay different as long as both see the same bits. */
  lemma {:induction false} FeedAllInjective(p: uint32, x: uint32, y: uint32, bits: seq<bool>)
    requires TopBit(p) && FeedAll(p, x, bits) == FeedAll(p, y, bits)
    ensures x == y
    decreases |bits|
  {
    if bits != [] {
      FeedAllInjective(p, Feed(p, x, bits[0]), Feed(p, y, bits[0]), bits[1..]);
      FeedInjective(p, x, y, bits[0]);
    }
  }

  lemma {:induction false} IterateInjective(p: uint32, x: uint32, y: uint32, k: nat)
    requires TopBit(p) && Iterate(p, x, k) == Iterate(p, y, k)
    ensures x == y
    decreases k
  {
    if k > 0 {
      IterateInjective(p, IterValue(p, x), IterValue(p, y), k - 1);
      IterValueInjective(p, x, y);
    }
  }

  function WordOf(bits: seq<bool>): nat {
    if bits == [] then 0 else (if bits[0] then 1 else 0) + 2 * WordOf(bits[1..])
  }

  lemma {:induction false} WordOfBits(bits: seq<bool>)
    ensures WordOf(bits) < Pow2(|bits|) && LowBits(WordOf(bits), |bits|) == bits
  {
    if bits == [] {
    } else {
      WordOfBits(bits[1..]);
      assert bits == [bits[0]] + bits[1..];
    }
  }

  /** Up to 32 different bits at the same place lead one register to different states. */
  lemma WindowSeparates(p: uint32, x: uint32, a: seq<bool>, b: seq<bool>)
    requires TopBit(p) && |a| == |b| <= 32 && a != b
    ensures FeedAll(p, x, a) != FeedAll(p, x, b)
  {
    var k, v, w := |a|, WordOf(a), WordOf(b);
    WordOfBits(a);
    WordOfBits(b);
    Pow2Grows(k, 32);
    Pow2At32();
    FeedWord(p, x, v, k);
    FeedWord(p, x, w, k);
    if FeedAll(p, x, a) == FeedAll(p, x, b) {
      IterateInjective(p, Xor(x, v), Xor(x, w), k);
      XorCommutes(x, v);
      XorCommutes(x, w);
      XorCancels(v, w, x);
    }
  }

  /** Two bit strings of the same length differ, and only within `width` bits from `at`. */
  ghost predicate DifferWithin(a: seq<bool>, b: seq<bool>, at: nat, width: nat) {
    && |a| == |b| && a != b
    && forall i :: 0 <= i < |a| && a[i] != b[i] ==> at <= i < at + width
  }

  /** Burst errors of up to 32 bits are always detected, whatever the message, its length
      and the initial value. */
  lemma BurstDetected(p: uint32, m1: seq<uint8>, m2: seq<uint8>, at: nat, initial: nat)
    requires TopBit(p) && DifferWithin(MessageBits(m1), MessageBits(m2), at, 32)
    ensures Crc(p, m1, initial) != Crc(p, m2, initial)
  {
    var a, b, x := MessageBits(m1), MessageBits(m2), Start(initial);
    var end := if at + 32 <= |a| then at + 32 else |a|;
    assert at < |a|;
    var pre, wa, wb, post := a[..at], a[at..end], b[at..end], a[end..];
    assert a == pre + (wa + post);
    assert b == pre + (wb + post) by {
      assert b[..at] == pre && b[end..] == post;
    }
    var y := FeedAll(p, x, pre);
    assert wa != wb;
    WindowSeparates(p, y, wa, wb);
    FeedAppend(p, x, pre, wa + post);
    FeedAppend(p, x, pre, wb + post);
    FeedAppend(p, y, wa, post);
    FeedAppend(p, y, wb, post);
    TableIsRegister(p, x, m1);
    TableIsRegister(p, x, m2);
    if Crc(p, m1, initial) == Crc(p, m2, initial) {
      FeedAllInjective(p, FeedAll(p, y, wa), FeedAll(p, y, wb), post);
    }
  }

  /** Little-endian bytes, as a 32-bit checksum is stored behind its message. */
  function LittleEndian(w: nat, n: nat): (bytes: seq<uint8>)
    ensures |bytes| == n
  {
    if n == 0 then [] else [w % 256] + LittleEndian(w / 256, n - 1)
  }

  lemma {:induction false} LowBitsConcat(high: nat, low: nat, j: nat, k: nat)
    requires low < Pow2(j)
    ensures LowBits(Pow2(j) * high + low, j + k) == LowBits(low, j) + LowBits(high, k)
  {
    if j == 0 {
      assert LowBits(low, 0) == [];
    } else {
      var half := Twice(j, high);
      var w, rest := 2 * half + low, half + low / 2;
      assert w / 2 == rest && w % 2 == low % 2;
      LowBitsConcat(high, low / 2, j - 1, k);
    }
  }

  /** The bits of a word stored in little-endian order are its bits, lowest first. */
  lemma {:induction false} LittleEndianBits(w: nat, n: nat)
    ensures MessageBits(LittleEndian(w, n)) == LowBits(w, 8 * n)
  {
    if n > 0 {
      var k := 8 * (n - 1);
      FirstByte(w, k);
      LittleEndianBits(w / 256, n - 1);
      MessageFirst(w % 256, LittleEndian(w / 256, n - 1));
    }
  }

  lemma FirstByte(w: nat, k: nat)
    ensures LowBits(w, k + 8) == LowBits(w % 256, 8) + LowBits(w / 256, k)
  {
    assert Pow2(8) == 256;
    LowBitsConcat(w / 256, w % 256, 8, k);
  }

  lemma MessageFirst(byte: uint8, rest: seq<uint8>)
    ensures MessageBits([byte] + rest) == LowBits(byte, 8) + MessageBits(rest)
  {
    assert ([byte] + rest)[1..] == rest;
  }

  /** A one followed by the bits of the polynomial leaves no trace in the register. */
  lemma PolynomialVanishes(p: uint32, x: uint32)
    ensures FeedAll(p, x, [true] + LowBits(p, 32)) == FeedAll(p, x, [false] + LowBits(0, 32))
  {
    var y, z := Feed(p, x, true), Feed(p, x, false);
    assert y == Xor(z, p) by {
      XorZero(x);
      XorZero(p);
      IterValueLinear(p, x, 1);
    }
    assert Xor(y, p) == z by {
      XorAssociates(z, p, p);
      XorSelf(p);
      XorZero(z);
    }
    Pow2At32();
    FeedWord(p, y, p, 32);
    FeedWord(p, z, 0, 32);
    XorZero(z);
    assert ([true] + LowBits(p, 32))[1..] == LowBits(p, 32);
    assert ([false] + LowBits(0, 32))[1..] == LowBits(0, 32);
  }

  /** A bit, a word and seven zeros as a five-byte message. */
  function FiveBytes(bit: bool, w: uint32): seq<uint8> {
    LittleEndian(2 * w + if bit then 1 else 0, 5)
  }

  lemma PadBits(w: nat, j: nat, k: nat)
    requires w < Pow2(j)
    ensures LowBits(w, j + k) == LowBits(w, j) + LowBits(0, k)
  {
    LowBitsConcat(0, w, j, k);
  }

  lemma BitInFront(bit: bool, w: nat, k: nat)
    ensures LowBits(2 * w + if bit then 1 else 0, k + 1) == [bit] + LowBits(w, k)
  {
    var n := 2 * w + if bit then 1 else 0;
    assert n / 2 == w && (n % 2 == 1) == bit;
  }

  lemma PaddedBits(bit: bool, w: nat, j: nat, k: nat, n: nat)
    requires w < Pow2(j) && 8 * n == j + 1 + k
    ensures MessageBits(LittleEndian(2 * w + if bit then 1 else 0, n)) == [bit] + LowBits(w, j) + LowBits(0, k)
  {
    var m := 2 * w + if bit then 1 else 0;
    LittleEndianBits(m, n);
    PadBits(m, j + 1, k);
    BitInFront(bit, w, j);
  }

  lemma FiveBytesBits(bit: bool, w: uint32)
    ensures MessageBits(FiveBytes(bit, w)) == [bit] + LowBits(w, 32) + LowBits(0, 7)
  {
    Pow2At32();
    PaddedBits(bit, w, 32, 7, 5);
  }

  /** Up to 32 bits is as far as it goes: for every polynomial two five-byte messages that
      differ only within 33 bits have the same checksum, from any initial value. */
  lemma BurstSharp(p: uint32, initial: nat)
    ensures DifferWithin(MessageBits(FiveBytes(true, p)), MessageBits(FiveBytes(false, 0)), 0, 33)
    ensures Crc(p, FiveBytes(true, p), initial) == Crc(p, FiveBytes(false, 0), initial)
  {
    var x := Start(initial);
    var a, b, pad := [true] + LowBits(p, 32), [false] + LowBits(0, 32), LowBits(0, 7);
    FiveBytesBits(true, p);
    FiveBytesBits(false, 0);
    assert (a + pad)[0] != (b + pad)[0];
    PolynomialVanishes(p, x);
    FeedAppend(p, x, a, pad);
    FeedAppend(p, x, b, pad);
    TableIsRegister(p, x, FiveBytes(true, p));
    TableIsRegister(p, x, FiveBytes(false, 0));
  }

  // ---- Checksums in pieces ------------------------------------------------------------

  lemma {:induction false} AccumulateAppend(p: uint32, x: uint32, a: seq<uint8>, b: seq<uint8>)
    ensures Accumulate(p, x, a + b) == Accumulate(p, Accumulate(p, x, a), b)
    decreases |a|
  {
    if a == [] {
      assert a + b == b;
    } else {
      assert (a + b)[1..] == a[1..] + b;
      AccumulateAppend(p, Step(p, x, a[0]), a[1..], b);
    }
  }

  lemma AccumulateInjective(p: uint32, x: uint32, y: uint32, m: seq<uint8>)
    requires TopBit(p) && Accumulate(p, x, m) == Accumulate(p, y, m)
    ensures x == y
  {
    TableIsRegister(p, x, m);
    TableIsRegister(p, y, m);
    FeedAllInjective(p, x, y, MessageBits(m));
  }

  /** For every polynomial: continuing from a first checksum gives the checksum of the
      whole, unless the first one is the value that also means "no checksum yet". */
  lemma Continues(p: uint32, a: seq<uint8>, b: seq<uint8>, initial: nat)
    requires Crc(p, a, initial) != CRC32_INITIALIZER
    ensures Crc(p, b, Crc(p, a, initial)) == Crc(p, a + b, initial)
  {
    var x := Accumulate(p, Start(initial), a);
    AccumulateAppend(p, Start(initial), a, b);
    StartAgain(x);
    assert Crc(p, a, initial) == CRC32_MASK - x;
  }

  /** For the polynomials with the highest bit it never does otherwise. */
  lemma ContinueExactly(p: uint32, a: seq<uint8>, b: seq<uint8>, initial: nat)
    requires TopBit(p)
    ensures Crc(p, b, Crc(p, a, initial)) == Crc(p, a + b, initial) <==> Crc(p, a, initial) != CRC32_INITIALIZER
  {
    var x := Accumulate(p, Start(initial), a);
    AccumulateAppend(p, Start(initial), a, b);
    StartAgain(x);
    if Accumulate(p, Start(CRC32_MASK - x), b) == Accumulate(p, x, b) {
      AccumulateInjective(p, Start(CRC32_MASK - x), x, b);
    }
  }

  /** The register is restored from a result, unless the result is the initializer. */
  lemma StartAgain(x: uint32)
    ensures Start(CRC32_MASK - x) == x <==> CRC32_MASK - x != CRC32_INITIALIZER
  {
  }

  function Join(chunks: seq<seq<uint8>>): seq<uint8> {
    if chunks == [] then [] else chunks[0] + Join(chunks[1..])
  }

  /** Feeding each result as the next initial value. */
  function CrcChunks(p: uint32, chunks: seq<seq<uint8>>, initial: nat): nat {
    if chunks == [] then initial else CrcChunks(p, chunks[1..], Crc(p, chunks[0], initial))
  }

  /** No result that is fed on is the initializer. */
  predicate Continuable(p: uint32, chunks: seq<seq<uint8>>, initial: nat)
    decreases |chunks|
  {
    |chunks| <= 1 ||
    (Crc(p, chunks[0], initial) != CRC32_INITIALIZER && Continuable(p, chunks[1..], Crc(p, chunks[0], initial)))
  }

  /** Any number of chunks, of any sizes, for every polynomial. */
  lemma {:induction false} ChunksJoin(p: uint32, chunks: seq<seq<uint8>>, initial: nat)
    requires |chunks| > 0 && Continuable(p, chunks, initial)
    ensures CrcChunks(p, chunks, initial) == Crc(p, Join(chunks), initial)
    decreases |chunks|
  {
    var a, rest := chunks[0], chunks[1..];
    if rest == [] {
      assert a + [] == a;
    } else {
      ChunksJoin(p, rest, Crc(p, a, initial));
      Continues(p, a, Join(rest), initial);
    }
  }

  lemma {:induction false} OneMoreChunk(p: uint32, chunks: seq<seq<uint8>>, last: seq<uint8>, initial: nat)
    ensures CrcChunks(p, chunks + [last], initial) == Crc(p, last, CrcChunks(p, chunks, initial))
    ensures Join(chunks + [last]) == Join(chunks) + last
    decreases |chunks|
  {
    var all := chunks + [last];
    if chunks == [] {
      assert all[1..] == [] && last + [] == last && [] + last == last;
    } else {
      assert all[0] == chunks[0] && all[1..] == chunks[1..] + [last];
      OneMoreChunk(p, chunks[1..], last, Crc(p, chunks[0], initial));
      assert chunks[0] + (Join(chunks[1..]) + last) == (chunks[0] + Join(chunks[1..])) + last;
    }
  }

  /** As long as no result was the initializer, one more chunk goes wrong exactly when the
      last one is, if the polynomial has the highest bit. */
  lemma OneMoreExactly(p: uint32, chunks: seq<seq<uint8>>, last: seq<uint8>, initial: nat)
    requires TopBit(p) && |chunks| > 0 && Continuable(p, chunks, initial)
    ensures CrcChunks(p, chunks + [last], initial) == Crc(p, Join(chunks + [last]), initial) <==>
      CrcChunks(p, chunks, initial) != CRC32_INITIALIZER
  {
    OneMoreChunk(p, chunks, last, initial);
    ChunksJoin(p, chunks, initial);
    ContinueExactly(p, Join(chunks), last, initial);
  }

  lemma {:induction false} ZeroStays(p: uint32, k: nat)
    ensures Iterate(p, 0, k) == 0
  {
    if k > 0 { ZeroStays(p, k - 1); }
  }

  /** Every message can be continued by four bytes that make its checksum the initializer:
      its register, which empties it. */
  lemma InitializerReached(p: uint32, m: seq<uint8>, initial: nat)
    ensures Crc(p, m + LittleEndian(CRC32_MASK - Crc(p, m, initial), 4), initial) == CRC32_INITIALIZER
  {
    var x := Accumulate(p, Start(initial), m);
    StoredBytes(p, m, initial, x);
    XorSelf(x);
    ZeroStays(p, 32);
  }

  /** So for every polynomial with the highest bit, every initial value and every
      continuation there are messages after which continuing goes wrong. */
  lemma ContinueFails(p: uint32, m: seq<uint8>, b: seq<uint8>, initial: nat)
    requires TopBit(p)
    ensures var a := m + LittleEndian(CRC32_MASK - Crc(p, m, initial), 4);
      Crc(p, b, Crc(p, a, initial)) != Crc(p, a + b, initial)
  {
    InitializerReached(p, m, initial);
    ContinueExactly(p, m + LittleEndian(CRC32_MASK - Crc(p, m, initial), 4), b, initial);
  }

  /** One of them is four bytes 0xFF, whatever the polynomial. */
  lemma FullBytes(p: uint32, full: seq<uint8>)
    requires full == [0xff, 0xff, 0xff, 0xff]
    ensures Crc(p, full, CRC32_INITIALIZER) == CRC32_INITIALIZER
  {
    InitializerReached(p, [], CRC32_INITIALIZER);
    FullWord();
    assert [] + full == full;
  }

  lemma FullWord()
    ensures LittleEndian(CRC32_MASK, 4) == [0xff, 0xff, 0xff, 0xff]
  {
    assert LittleEndian(0xff, 1) == [0xff];
    assert LittleEndian(0xffff, 2) == [0xff, 0xff];
    assert LittleEndian(0xff_ffff, 3) == [0xff, 0xff, 0xff];
  }

  // ---- The residue --------------------------------------------------------------------

  lemma {:induction false} XorComplement(x: nat, k: nat)
    requires x < Pow2(k)
    ensures Xor(x, Pow2(k) - 1 - x) == Pow2(k) - 1
  {
    if k > 0 {
      XorComplement(x / 2, k - 1);
      XorHalf(x, Pow2(k) - 1 - x);
    }
  }

  /** What the checksum of a message with its own checksum behind it comes to. */
  function Residue(p: uint32): uint32 {
    CRC32_MASK - Iterate(p, CRC32_MASK, 32)
  }

  lemma StoredBytes(p: uint32, m: seq<uint8>, initial: nat, stored: uint32)
    ensures var x := Accumulate(p, Start(initial), m);
      && Xor(x, stored) < TWO_TO_THE_32
      && Crc(p, m + LittleEndian(stored, 4), initial) == CRC32_MASK - Iterate(p, Xor(x, stored), 32)
  {
    var x := Accumulate(p, Start(initial), m);
    AccumulateAppend(p, Start(initial), m, LittleEndian(stored, 4));
    TableIsRegister(p, x, LittleEndian(stored, 4));
    LittleEndianBits(stored, 4);
    Pow2At32();
    FeedWord(p, x, stored, 32);
  }

  lemma RegisterComplement(x: uint32)
    ensures Xor(x, CRC32_MASK - x) == CRC32_MASK
  {
    Pow2At32();
    XorComplement(x, 32);
  }

  /** For every polynomial, a message followed by its own checksum in little-endian order
      has the polynomial's residue as its checksum. */
  lemma ChecksumAppended(p: uint32, m: seq<uint8>, initial: nat)
    ensures Crc(p, m + LittleEndian(Crc(p, m, initial), 4), initial) == Residue(p)
  {
    StoredBytes(p, m, initial, Crc(p, m, initial));
    RegisterComplement(Accumulate(p, Start(initial), m));
  }

  /** With the highest bit in the polynomial, no other four bytes do that. */
  lemma ResidueExactly(p: uint32, m: seq<uint8>, initial: nat, stored: uint32)
    requires TopBit(p)
    ensures Crc(p, m + LittleEndian(stored, 4), initial) == Residue(p) <==> stored == Crc(p, m, initial)
  {
    var x := Accumulate(p, Start(initial), m);
    ChecksumAppended(p, m, initial);
    StoredBytes(p, m, initial, stored);
    if Crc(p, m + LittleEndian(stored, 4), initial) == Residue(p) {
      IterateInjective(p, Xor(x, stored), CRC32_MASK, 32);
      OnlyComplement(x, stored);
    }
  }

  lemma OnlyComplement(x: uint32, y: uint32)
    requires Xor(x, y) == CRC32_MASK
    ensures y == CRC32_MASK - x
  {
    RegisterComplement(x);
    XorCommutes(x, y);
    XorCommutes(x, CRC32_MASK - x);
    XorCancels(y, CRC32_MASK - x, x);
  }
}
