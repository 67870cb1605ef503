/** The checksum of checksum/crc32.h with machine words for the numbers of the model, and
    the values published for its polynomials. */
module Crc32Words {
  import opened Bits
  import opened Crc32
  import opened Integers

  // ---- Numbers and words ----------------------------------------------------------------

  predicate Odd(x: bv32) {
    x & 1 == 1
  }

  function One(b: bool): nat {
    if b then 1 else 0
  }

  /** The number in the k low bits of a word. */
  function Number(x: bv32, k: nat): (n: nat)
    ensures n < Pow2(k)
  {
    if k == 0 then 0 else 2 * Number(x >> 1, k - 1) + One(Odd(x))
  }

  function Value(x: bv32): uint32 {
    Pow2At32();
    Number(x, 32)
  }

  lemma XorParts(x: bv32, y: bv32, z: bv32)
    requires z == x ^ y
    ensures z >> 1 == (x >> 1) ^ (y >> 1)
    ensures Odd(z) <==> Odd(x) != Odd(y)
  {
  }

  lemma XorBit(u: nat, v: nat, w: nat, a: nat, i: bool, b: nat, j: bool, c: nat, l: bool)
    requires u == 2 * a + One(i) && v == 2 * b + One(j) && w == 2 * c + One(l)
    requires Xor(a, b) == c && (l <==> i != j)
    ensures Xor(u, v) == w
  {
    XorHalf(u, v);
    assert u / 2 == a && v / 2 == b;
  }

  lemma XorStep(x: bv32, y: bv32, z: bv32, k: nat)
    requires k > 0 && (Odd(z) <==> Odd(x) != Odd(y))
    requires Xor(Number(x >> 1, k - 1), Number(y >> 1, k - 1)) == Number(z >> 1, k - 1)
    ensures Xor(Number(x, k), Number(y, k)) == Number(z, k)
  {
    XorBit(Number(x, k), Number(y, k), Number(z, k),
           Number(x >> 1, k - 1), Odd(x), Number(y >> 1, k - 1), Odd(y), Number(z >> 1, k - 1), Odd(z));
  }

  lemma {:induction false} XorNumbers(x: bv32, y: bv32, z: bv32, k: nat)
    requires z == x ^ y
    ensures Xor(Number(x, k), Number(y, k)) == Number(z, k)
    decreases k
  {
    if k > 0 {
      XorParts(x, y, z);
      XorNumbers(x >> 1, y >> 1, z >> 1, k - 1);
      XorStep(x, y, z, k);
    }
  }

  /** There are no more than k bits in a word. */
  predicate Fits(x: bv32, k: nat) {
    if k == 0 then x == 0 else Fits(x >> 1, k - 1)
  }

  lemma {:induction false} Fitting(x: bv32, k: nat)
    requires Fits(x, k)
    ensures Number(x, k + 1) == Number(x, k)
    decreases k
  {
    if k > 0 { Fitting(x >> 1, k - 1); }
  }

  lemma FourMore(x: bv32, k: nat)
    requires Fits(x >> 4, k)
    ensures Fits(x, k + 4)
  {
    var a, b, c := x >> 1, (x >> 1) >> 1, ((x >> 1) >> 1) >> 1;
    assert c >> 1 == x >> 4;
    assert Fits(c, k + 1) && Fits(b, k + 2) && Fits(a, k + 3);
  }

  lemma ShiftSixteen(x: bv32)
    ensures (((x >> 4) >> 4) >> 4) >> 4 == x >> 16
    ensures (x >> 16) >> 16 == 0
  {
  }

  lemma SixteenMore(x: bv32, k: nat)
    requires Fits((((x >> 4) >> 4) >> 4) >> 4, k)
    ensures Fits(x, k + 16)
  {
    var a := x >> 4;
    var b := a >> 4;
    var c := b >> 4;
    FourMore(c, k);
    FourMore(b, k + 4);
    FourMore(a, k + 8);
    FourMore(x, k + 12);
  }

  lemma AllFit(x: bv32)
    ensures Fits(x, 32) && Fits(x >> 1, 31)
  {
    var h := x >> 16;
    ShiftSixteen(x);
    ShiftSixteen(h);
    SixteenMore(h, 0);
    SixteenMore(x, 16);
  }

  /** The language's own conversion to a number agrees. */
  lemma Halving(x: bv32, h: bv32)
    requires h == x >> 1
    ensures h < 0x8000_0000
    ensures Odd(x) ==> x == (h << 1) | 1
    ensures !Odd(x) ==> x == h << 1
  {
  }

  lemma Doubling(h: bv32, x: bv32)
    requires h < 0x8000_0000
    ensures x == h << 1 ==> x as nat == 2 * (h as nat)
    ensures x == (h << 1) | 1 ==> x as nat == 2 * (h as nat) + 1
  {
  }

  lemma NativeHalves(x: bv32, h: bv32)
    requires h < 0x8000_0000 && x == if Odd(x) then (h << 1) | 1 else h << 1
    ensures x as nat == 2 * (h as nat) + One(Odd(x))
  {
    Doubling(h, x);
  }

  lemma {:induction false} Native(x: bv32, k: nat)
    requires Fits(x, k)
    ensures Number(x, k) == x as nat
    decreases k
  {
    if k > 0 {
      Native(x >> 1, k - 1);
      Halving(x, x >> 1);
      NativeHalves(x, x >> 1);
    }
  }

  lemma Halves(x: bv32)
    ensures Value(x) == 2 * Value(x >> 1) + One(Odd(x))
  {
    AllFit(x);
    Fitting(x >> 1, 31);
  }

  lemma XorIs(x: bv32, y: bv32)
    ensures Xor(Value(x), Value(y)) == Value(x ^ y)
  {
    XorNumbers(x, y, x ^ y, 32);
  }

  // ---- The register -----------------------------------------------------------------------

  function ShiftWord(p: bv32, x: bv32): bv32 {
    if Odd(x) then (x >> 1) ^ p else x >> 1
  }

  function ShiftTwice(p: bv32, x: bv32): bv32 {
    ShiftWord(p, ShiftWord(p, x))
  }

  function ShiftByte(p: bv32, x: bv32): bv32 {
    ShiftTwice(p, ShiftTwice(p, ShiftTwice(p, ShiftTwice(p, x))))
  }

  function AddBytes(p: bv32, x: bv32, message: seq<bv32>): bv32
    decreases |message|
  {
    if message == [] then x else AddBytes(p, ShiftByte(p, x ^ message[0]), message[1..])
  }

  lemma ShiftIs(p: bv32, x: bv32)
    ensures IterValue(Value(p), Value(x)) == Value(ShiftWord(p, x))
  {
    Halves(x);
    XorIs(x >> 1, p);
  }

  lemma ShiftTwiceIs(p: bv32, x: bv32, k: nat)
    ensures Iterate(Value(p), Value(x), k + 2) == Iterate(Value(p), Value(ShiftTwice(p, x)), k)
  {
    ShiftIs(p, x);
    ShiftIs(p, ShiftWord(p, x));
  }

  lemma ShiftByteIs(p: bv32, x: bv32)
    ensures Iterate(Value(p), Value(x), 8) == Value(ShiftByte(p, x))
  {
    var a := ShiftTwice(p, x);
    var b := ShiftTwice(p, a);
    var c := ShiftTwice(p, b);
    ShiftTwiceIs(p, x, 6);
    ShiftTwiceIs(p, a, 4);
    ShiftTwiceIs(p, b, 2);
    ShiftTwiceIs(p, c, 0);
  }

  predicate Bytes(message: seq<bv32>) {
    forall i :: 0 <= i < |message| ==> Value(message[i]) < 0x100
  }

  function Values(message: seq<bv32>): (bytes: seq<uint8>)
    requires Bytes(message)
  {
    seq(|message|, i requires 0 <= i < |message| => Value(message[i]))
  }

  lemma StepIs(p: bv32, x: bv32, b: bv32)
    requires Value(b) < 0x100
    ensures Step(Value(p), Value(x), Value(b)) == Value(ShiftByte(p, x ^ b))
  {
    XorIs(x, b);
    StepIterates(Value(p), Value(x), Value(b));
    ShiftByteIs(p, x ^ b);
  }

  /** The table-driven checksum is the shift register in machine words. */
  lemma {:induction false} AccumulateIs(p: bv32, x: bv32, message: seq<bv32>)
    requires Bytes(message)
    ensures Accumulate(Value(p), Value(x), Values(message)) == Value(AddBytes(p, x, message))
    decreases |message|
  {
    if message != [] {
      StepIs(p, x, message[0]);
      AccumulateIs(p, ShiftByte(p, x ^ message[0]), message[1..]);
      assert Values(message)[1..] == Values(message[1..]);
    }
  }

  lemma ValueIs(x: bv32)
    ensures Value(x) == x as nat
  {
    AllFit(x);
    Native(x, 32);
  }

  // ---- The listed polynomials -------------------------------------------------------------

  /** The terms below x^32 of a polynomial, written as the source does: the exponent 31 is
      the lowest bit. */
  ghost predicate HasTerms(p: uint32, terms: set<nat>) {
    forall e :: 0 <= e <= 31 ==> (Bit(p, 31 - e) <==> e in terms)
  }

  function Bit(w: nat, i: nat): bool
    decreases i
  {
    if i == 0 then w % 2 == 1 else Bit(w / 2, i - 1)
  }

  /** The word with the terms up to exponent e. */
  function Reversed(terms: set<nat>, e: nat): (w: nat)
    ensures w < Pow2(e + 1)
    decreases e, terms
  {
    One(e in terms) + if e == 0 then 0 else 2 * Reversed(terms, e - 1)
  }

  lemma {:induction false} ReversedBits(terms: set<nat>, e: nat, x: nat)
    requires x <= e
    ensures Bit(Reversed(terms, e), e - x) <==> x in terms
    decreases e
  {
    if e > 0 { FirstBit(e in terms, Reversed(terms, e - 1), Reversed(terms, e)); }
    if x < e { ReversedBits(terms, e - 1, x); }
  }

  lemma FirstBit(b: bool, rest: nat, w: nat)
    requires w == One(b) + 2 * rest
    ensures w / 2 == rest && (w % 2 == 1 <==> b)
  {
  }

  /** The digit of four terms, the lowest exponent counting most. */
  function Digit(terms: set<nat>, e: nat): nat {
    One(e in terms) * 8 + One(e + 1 in terms) * 4 + One(e + 2 in terms) * 2 + One(e + 3 in terms)
  }

  lemma NextDigit(terms: set<nat>, e: nat)
    ensures Reversed(terms, e + 4) == 16 * Reversed(terms, e) + Digit(terms, e + 1)
  {
    assert Reversed(terms, e + 4) == One(e + 4 in terms) + 2 * Reversed(terms, e + 3);
    assert Reversed(terms, e + 3) == One(e + 3 in terms) + 2 * Reversed(terms, e + 2);
    assert Reversed(terms, e + 2) == One(e + 2 in terms) + 2 * Reversed(terms, e + 1);
  }

  lemma FourDigits(terms: set<nat>, e: nat)
    ensures Reversed(terms, e + 16) == 0x1_0000 * Reversed(terms, e) +
      0x1000 * Digit(terms, e + 1) + 0x100 * Digit(terms, e + 5) + 0x10 * Digit(terms, e + 9) + Digit(terms, e + 13)
  {
    NextDigit(terms, e);
    NextDigit(terms, e + 4);
    NextDigit(terms, e + 8);
    NextDigit(terms, e + 12);
  }

  lemma FirstDigit(terms: set<nat>)
    ensures Reversed(terms, 3) == Digit(terms, 0)
  {
    assert Reversed(terms, 3) == One(3 in terms) + 2 * Reversed(terms, 2);
    assert Reversed(terms, 2) == One(2 in terms) + 2 * Reversed(terms, 1);
  }

  lemma EightDigits(terms: set<nat>, a: nat, b: nat, c: nat, d: nat, e: nat, f: nat, g: nat, h: nat)
    requires Digit(terms, 0) == a && Digit(terms, 4) == b && Digit(terms, 8) == c && Digit(terms, 12) == d
    requires Digit(terms, 16) == e && Digit(terms, 20) == f && Digit(terms, 24) == g && Digit(terms, 28) == h
    ensures Reversed(terms, 31) ==
      0x1000_0000 * a + 0x100_0000 * b + 0x10_0000 * c + 0x1_0000 * d + 0x1000 * e + 0x100 * f + 0x10 * g + h
  {
    FirstDigit(terms);
    NextDigit(terms, 3);
    NextDigit(terms, 7);
    NextDigit(terms, 11);
    FourDigits(terms, 15);
  }

  lemma ReversedTerms(p: uint32, terms: set<nat>)
    requires p == Reversed(terms, 31)
    ensures HasTerms(p, terms)
  {
    forall e | 0 <= e <= 31 ensures Bit(p, 31 - e) <==> e in terms {
      ReversedBits(terms, 31, e);
    }
  }

  /** Clause 3.2.9 of IEEE 802.3, and section 8 of RFC 1952. */
  lemma IeeeTerms(terms: set<nat>)
    requires terms == {26, 23, 22, 16, 12, 11, 10, 8, 7, 5, 4, 2, 1, 0}
    ensures HasTerms(CRC32, terms)
  {
    EightDigits(terms, 0xE, 0xD, 0xB, 0x8, 0x8, 0x3, 0x2, 0x0);
    ReversedTerms(CRC32, terms);
  }

  /** Appendix B of RFC 4960. */
  lemma CastagnoliTerms(terms: set<nat>)
    requires terms == {28, 27, 26, 25, 23, 22, 20, 19, 18, 14, 13, 11, 10, 9, 8, 6, 0}
    ensures HasTerms(CRC32C, terms)
  {
    EightDigits(terms, 0x8, 0x2, 0xF, 0x6, 0x3, 0xB, 0x7, 0x8);
    ReversedTerms(CRC32C, terms);
  }

  /** Koopman's polynomial. */
  lemma KoopmanTerms(terms: set<nat>)
    requires terms == {30, 29, 28, 26, 20, 19, 17, 16, 15, 11, 10, 7, 6, 4, 2, 1, 0}
    ensures HasTerms(CRC32K, terms)
  {
    EightDigits(terms, 0xE, 0xB, 0x3, 0x1, 0xD, 0x8, 0x2, 0xE);
    ReversedTerms(CRC32K, terms);
  }

  /** Koopman's second one. */
  lemma Koopman2Terms(terms: set<nat>)
    requires terms == {29, 28, 25, 22, 20, 19, 13, 12, 10, 7, 4, 3, 0}
    ensures HasTerms(CRC32K2, terms)
  {
    EightDigits(terms, 0x9, 0x9, 0x2, 0xC, 0x1, 0xA, 0x4, 0xC);
    ReversedTerms(CRC32K2, terms);
  }

  /** The polynomial of AIXM. */
  lemma AixmTerms(terms: set<nat>)
    requires terms == {31, 24, 22, 16, 14, 8, 7, 5, 3, 1, 0}
    ensures HasTerms(CRC32Q, terms)
  {
    EightDigits(terms, 0xD, 0x5, 0x8, 0x2, 0x8, 0x2, 0x8, 0x1);
    ReversedTerms(CRC32Q, terms);
  }

  // ---- Check values -----------------------------------------------------------------------

  /** "123456789" as bytes. */
  const DIGITS: seq<uint8> := [0x31, 0x32, 0x33, 0x34, 0x35, 0x36, 0x37, 0x38, 0x39]

  predicate Spells(m: seq<bv32>, n: seq<uint8>) {
    |m| == |n| && forall i :: 0 <= i < |m| ==> m[i] as nat == n[i]
  }

  lemma SpelledOut(p: bv32, x: bv32, m: seq<bv32>, n: seq<uint8>)
    requires Spells(m, n)
    ensures Accumulate(Value(p), Value(x), n) == Value(AddBytes(p, x, m))
  {
    forall i | 0 <= i < |m| ensures Value(m[i]) == n[i] {
      ValueIs(m[i]);
    }
    assert Values(m) == n;
    AccumulateIs(p, x, m);
  }

  lemma InParts(p: bv32, start: bv32, a: seq<bv32>, x: bv32, b: seq<bv32>, y: bv32, c: seq<bv32>, z: bv32,
                k: seq<uint8>, l: seq<uint8>, m: seq<uint8>)
    requires Spells(a, k) && Spells(b, l) && Spells(c, m)
    requires AddBytes(p, start, a) == x && AddBytes(p, x, b) == y && AddBytes(p, y, c) == z
    ensures Accumulate(Value(p), Value(start), k + (l + m)) == Value(z)
  {
    SpelledOut(p, start, a, k);
    SpelledOut(p, x, b, l);
    SpelledOut(p, y, c, m);
    AccumulateAppend(Value(p), Value(start), k, l + m);
    AccumulateAppend(Value(p), Value(x), l, m);
  }

  lemma NineBytes(p: bv32, start: bv32, a: seq<bv32>, x: bv32, b: seq<bv32>, y: bv32, c: seq<bv32>, z: bv32, m: seq<uint8>)
    requires |m| == 9 && Spells(a, m[..3]) && Spells(b, m[3..6]) && Spells(c, m[6..])
    requires AddBytes(p, start, a) == x && AddBytes(p, x, b) == y && AddBytes(p, y, c) == z
    ensures Accumulate(Value(p), Value(start), m) == Value(z)
  {
    var k, l, n := m[..3], m[3..6], m[6..];
    assert m == k + (l + n);
    InParts(p, start, a, x, b, y, c, z, k, l, n);
  }

  lemma IeeeCheck(digits: seq<uint8>)
    requires digits == DIGITS
    ensures Crc(CRC32, digits, CRC32_INITIALIZER) == 0xCBF4_3926
  {
    var p: bv32, start: bv32, x: bv32, y: bv32, z: bv32 := 0xEDB8_8320, 0xFFFF_FFFF, 0x77B7_9C2D, 0xF68D_2C9E, 0x340B_C6D9;
    NineBytes(p, start, [0x31, 0x32, 0x33], x, [0x34, 0x35, 0x36], y, [0x37, 0x38, 0x39], z, digits);
    ValueIs(p);
    ValueIs(start);
    ValueIs(z);
  }

  lemma CastagnoliCheck(digits: seq<uint8>)
    requires digits == DIGITS
    ensures Crc(CRC32C, digits, CRC32_INITIALIZER) == 0xE306_9283
  {
    var p: bv32, start: bv32, x: bv32, y: bv32, z: bv32 := 0x82F6_3B78, 0xFFFF_FFFF, 0xEF84_D04D, 0xBECA_8E79, 0x1CF9_6D7C;
    NineBytes(p, start, [0x31, 0x32, 0x33], x, [0x34, 0x35, 0x36], y, [0x37, 0x38, 0x39], z, digits);
    ValueIs(p);
    ValueIs(start);
    ValueIs(z);
  }

  lemma KoopmanCheck(digits: seq<uint8>)
    requires digits == DIGITS
    ensures Crc(CRC32K, digits, CRC32_INITIALIZER) == 0x2D3D_D0AE
  {
    var p: bv32, start: bv32, x: bv32, y: bv32, z: bv32 := 0xEB31_D82E, 0xFFFF_FFFF, 0x942A_1516, 0x2276_F04E, 0xD2C2_2F51;
    NineBytes(p, start, [0x31, 0x32, 0x33], x, [0x34, 0x35, 0x36], y, [0x37, 0x38, 0x39], z, digits);
    ValueIs(p);
    ValueIs(start);
    ValueIs(z);
  }

  lemma Koopman2Check(digits: seq<uint8>)
    requires digits == DIGITS
    ensures Crc(CRC32K2, digits, CRC32_INITIALIZER) == 0xEEB7_54CC
  {
    var p: bv32, start: bv32, x: bv32, y: bv32, z: bv32 := 0x992C_1A4C, 0xFFFF_FFFF, 0xC085_4A42, 0x1616_0954, 0x1148_AB33;
    NineBytes(p, start, [0x31, 0x32, 0x33], x, [0x34, 0x35, 0x36], y, [0x37, 0x38, 0x39], z, digits);
    ValueIs(p);
    ValueIs(start);
    ValueIs(z);
  }

  lemma AixmCheck(digits: seq<uint8>)
    requires digits == DIGITS
    ensures Crc(CRC32Q, digits, CRC32_INITIALIZER) == 0xA9CC_8179
  {
    var p: bv32, start: bv32, x: bv32, y: bv32, z: bv32 := 0xD582_8281, 0xFFFF_FFFF, 0x1D6C_3942, 0x394C_F68E, 0x5633_7E86;
    NineBytes(p, start, [0x31, 0x32, 0x33], x, [0x34, 0x35, 0x36], y, [0x37, 0x38, 0x39], z, digits);
    ValueIs(p);
    ValueIs(start);
    ValueIs(z);
  }
}
