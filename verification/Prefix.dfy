/** Network prefixes as net/network.cpp masks them (section 3.1 of RFC 4632): a mask on a
    32-bit number for IPv4, sixteen byte masks for IPv6, and what both mean for addresses
    read as big-endian numbers. */
module Prefix {
  import opened Bits
  import opened Integers
  import opened SocketAddresses

  /** x with its k lowest bits dropped. */
  function High(x: nat, k: nat): nat {
    if k == 0 then x else High(x / 2, k - 1)
  }

  /** The lowest address of the block of 2^k addresses around x. */
  function First(x: nat, k: nat): nat {
    Pow2(k) * High(x, k)
  }

  /** The highest one. */
  function Last(x: nat, k: nat): nat {
    First(x, k) + Pow2(k) - 1
  }

  lemma {:induction false} BlockBounds(x: nat, k: nat)
    ensures First(x, k) <= x <= Last(x, k)
  {
    if k > 0 {
      BlockBounds(x / 2, k - 1);
      var half := Twice(k, High(x / 2, k - 1));
    }
  }

  lemma {:induction false} HighOfBlock(h: nat, l: nat, k: nat)
    requires l < Pow2(k)
    ensures High(Pow2(k) * h + l, k) == h
  {
    if k > 0 {
      var half := Twice(k, h);
      assert (2 * half + l) / 2 == half + l / 2;
      HighOfBlock(h, l / 2, k - 1);
    }
  }

  /** Two addresses agree above the lowest k bits exactly when one lies in the other's
      block. */
  lemma SameBlock(x: nat, n: nat, k: nat)
    ensures First(x, k) == First(n, k) <==> First(n, k) <= x <= Last(n, k)
  {
    BlockBounds(x, k);
    if First(n, k) <= x <= Last(n, k) {
      HighOfBlock(High(n, k), x - First(n, k), k);
    }
  }

  // ---- Masking numbers ----------------------------------------------------------------

  lemma AndHalf(x: nat, y: nat)
    ensures And(x, y) == 2 * And(x / 2, y / 2) + (if x % 2 == 1 && y % 2 == 1 then 1 else 0)
  {
  }

  lemma OrHalf(x: nat, y: nat)
    ensures Or(x, y) == 2 * Or(x / 2, y / 2) + (if x % 2 == 1 || y % 2 == 1 then 1 else 0)
  {
  }

  /** The mask of the n-bit numbers that keeps all but the k lowest bits. */
  function Mask(n: nat, k: nat): nat
    requires k <= n
  {
    Pow2Grows(k, n);
    Pow2(n) - Pow2(k)
  }

  lemma {:induction false} AndOnes(x: nat, n: nat)
    requires x < Pow2(n)
    ensures And(x, Pow2(n) - 1) == x
  {
    if n > 0 {
      AndOnes(x / 2, n - 1);
      AndHalf(x, Pow2(n) - 1);
      assert (Pow2(n) - 1) / 2 == Pow2(n - 1) - 1;
    }
  }

  /** Masking an address gives the lowest address of its block. */
  lemma {:induction false} AndMask(x: nat, n: nat, k: nat)
    requires k <= n && x < Pow2(n)
    ensures And(x, Mask(n, k)) == First(x, k)
  {
    if k == 0 {
      AndOnes(x, n);
    } else {
      AndMask(x / 2, n - 1, k - 1);
      Pow2Grows(k, n);
      AndHalf(x, Mask(n, k));
      var half := Twice(k, High(x / 2, k - 1));
      assert Mask(n, k) == 2 * Mask(n - 1, k - 1);
    }
  }

  lemma {:induction false} OrZero(x: nat)
    ensures Or(x, 0) == x && Or(0, x) == x
  {
    if x > 0 { OrZero(x / 2); }
  }

  /** Setting the bits the mask leaves out gives the highest address of the block. */
  lemma {:induction false} OrComplement(x: nat, k: nat)
    ensures Or(x, Pow2(k) - 1) == Last(x, k)
  {
    if k == 0 {
      OrZero(x);
    } else {
      OrComplement(x / 2, k - 1);
      OrHalf(x, Pow2(k) - 1);
      assert (Pow2(k) - 1) / 2 == Pow2(k - 1) - 1;
      var half := Twice(k, High(x / 2, k - 1));
    }
  }

  /** network.cpp:47-54. */
  method MakeMask32(maskSize: nat) returns (mask: uint32)
    requires maskSize <= 32
    ensures mask == Mask(32, 32 - maskSize)
  {
    var m: nat := 0;
    var i := 0;
    assert Pow2(32) - Pow2(32) == 0;
    while i < maskSize
      invariant 0 <= i <= maskSize && m == Mask(32, 32 - i)
    {
      MaskBit(32, 31 - i);
      m := Or(m, Pow2(31 - i));
      i := i + 1;
    }
    Pow2At32();
    mask := m;
  }

  /** Such a mask gives the lowest address of the block, and its complement the highest. */
  lemma LoweredNumber(x: uint32, k: nat)
    requires k <= 32
    ensures And(x, Mask(32, k)) == First(x, k) < TWO_TO_THE_32
  {
    Pow2At32();
    AndMask(x, 32, k);
    AndBound(x, Mask(32, k));
  }

  lemma RaisedNumber(x: uint32, k: nat)
    requires k <= 32
    ensures var rest := 0xffff_ffff - Mask(32, k);
      0 <= rest && Or(x, rest) == Last(x, k) && Or(x, rest) < TWO_TO_THE_32
  {
    Pow2At32();
    Pow2Grows(k, 32);
    OrComplement(x, k);
    OrBound(x, Pow2(k) - 1, 32);
  }

  /** The next lower bit of a mask. */
  lemma {:induction false} MaskBit(n: nat, k: nat)
    requires k < n
    ensures Or(Mask(n, k + 1), Pow2(k)) == Mask(n, k)
  {
    Pow2Grows(k, n);
    Pow2Grows(k + 1, n);
    if k == 0 {
      OrHalf(Mask(n, 1), 1);
      OrZero(Mask(n, 1) / 2);
      assert Pow2(n) == 2 * Pow2(n - 1);
    } else {
      MaskBit(n - 1, k - 1);
      OrHalf(Mask(n, k + 1), Pow2(k));
      assert Mask(n, k + 1) == 2 * Mask(n - 1, k) && Mask(n, k) == 2 * Mask(n - 1, k - 1);
    }
  }

  // ---- Masking bytes ------------------------------------------------------------------

  /** Byte j of the IPv6 mask. */
  function MaskByte(maskSize: nat, j: nat): uint8 {
    if 8 * (j + 1) <= maskSize then 0xff
    else if maskSize <= 8 * j then 0
    else (0xff * Pow2(8 - (maskSize - 8 * j))) % 0x100
  }

  function MaskBytes(maskSize: nat): Bytes16 {
    seq(16, j requires 0 <= j < 16 => MaskByte(maskSize, j))
  }

  /** network.cpp:57-65. */
  method MakeMask128(mask: array<uint8>, maskSize: nat)
    requires mask.Length == 16 && maskSize <= 128
    modifies mask
    ensures mask[..] == MaskBytes(maskSize)
  {
    for i := 0 to 16
      invariant forall j :: 0 <= j < i ==> mask[j] == 0
    {
      mask[i] := 0;
    }
    var i, j := maskSize as int, 0;
    while i > 0
      invariant 0 <= j <= 16 && i == maskSize - 8 * j && i > -8
      invariant forall h :: 0 <= h < j ==> mask[h] == MaskByte(maskSize, h)
      invariant forall h :: j <= h < 16 ==> mask[h] == 0
    {
      mask[j] := if i >= 8 then 0xff else (0xff * Pow2(8 - i)) % 0x100;
      i := i - 8;
      j := j + 1;
    }
  }

  function AndBytes(x: Bytes16, m: Bytes16): Bytes16 {
    seq(16, i requires 0 <= i < 16 => AndByte(x[i], m[i]))
  }

  function AndByte(x: uint8, m: uint8): uint8 {
    AndBound(x, m);
    And(x, m)
  }

  lemma {:induction false} AndBound(x: nat, y: nat)
    ensures And(x, y) <= x
  {
    if x != 0 && y != 0 { AndBound(x / 2, y / 2); AndHalf(x, y); }
  }

  /** x | ~m */
  function OrNotBytes(x: Bytes16, m: Bytes16): Bytes16 {
    seq(16, i requires 0 <= i < 16 => OrNotByte(x[i], m[i]))
  }

  function OrNotByte(x: uint8, m: uint8): uint8 {
    Pow2At32();
    OrBound(x, 0xff - m, 8);
    Or(x, 0xff - m)
  }

  lemma {:induction false} OrBound(x: nat, y: nat, k: nat)
    requires x < Pow2(k) && y < Pow2(k)
    ensures Or(x, y) < Pow2(k)
  {
    if k > 0 { OrBound(x / 2, y / 2, k - 1); OrHalf(x, y); }
  }

  // ---- Bytes as numbers ---------------------------------------------------------------

  /** High and low parts do not mix. */
  lemma {:induction false} AndBlocks(k: nat, h1: nat, l1: nat, h2: nat, l2: nat)
    requires l1 < Pow2(k) && l2 < Pow2(k)
    ensures And(Pow2(k) * h1 + l1, Pow2(k) * h2 + l2) == Pow2(k) * And(h1, h2) + And(l1, l2)
  {
    if k == 0 {
      assert And(0, 0) == 0;
    } else {
      AndBlocks(k - 1, h1, l1 / 2, h2, l2 / 2);
      var a := Twice(k, h1);
      var b := Twice(k, h2);
      var c := Twice(k, And(h1, h2));
      AndStep(a, l1, b, l2, c);
    }
  }

  lemma AndStep(high1: nat, l1: nat, high2: nat, l2: nat, high: nat)
    requires And(high1 + l1 / 2, high2 + l2 / 2) == high + And(l1 / 2, l2 / 2)
    ensures And(2 * high1 + l1, 2 * high2 + l2) == 2 * high + And(l1, l2)
  {
    AndHalf(2 * high1 + l1, 2 * high2 + l2);
    AndHalf(l1, l2);
    assert (2 * high1 + l1) / 2 == high1 + l1 / 2 && (2 * high2 + l2) / 2 == high2 + l2 / 2;
  }

  lemma {:induction false} OrBlocks(k: nat, h1: nat, l1: nat, h2: nat, l2: nat)
    requires l1 < Pow2(k) && l2 < Pow2(k)
    ensures Or(Pow2(k) * h1 + l1, Pow2(k) * h2 + l2) == Pow2(k) * Or(h1, h2) + Or(l1, l2)
  {
    if k == 0 {
      assert Or(0, 0) == 0;
    } else {
      OrBlocks(k - 1, h1, l1 / 2, h2, l2 / 2);
      var a := Twice(k, h1);
      var b := Twice(k, h2);
      var c := Twice(k, Or(h1, h2));
      OrStep(a, l1, b, l2, c);
    }
  }

  lemma OrStep(high1: nat, l1: nat, high2: nat, l2: nat, high: nat)
    requires Or(high1 + l1 / 2, high2 + l2 / 2) == high + Or(l1 / 2, l2 / 2)
    ensures Or(2 * high1 + l1, 2 * high2 + l2) == 2 * high + Or(l1, l2)
  {
    OrHalf(2 * high1 + l1, 2 * high2 + l2);
    OrHalf(l1, l2);
    assert (2 * high1 + l1) / 2 == high1 + l1 / 2 && (2 * high2 + l2) / 2 == high2 + l2 / 2;
  }

  /** Byte by byte is the same as all at once. */
  lemma {:induction false} AndNumber(x: seq<uint8>, m: seq<uint8>, r: seq<uint8>)
    requires |x| == |m| == |r| && forall i :: 0 <= i < |x| ==> r[i] == AndByte(x[i], m[i])
    ensures Number(r) == And(Number(x), Number(m))
  {
    if x != [] {
      var n := |x| - 1;
      AndNumber(x[..n], m[..n], r[..n]);
      assert Pow2(8) == 256;
      AndBlocks(8, Number(x[..n]), x[n], Number(m[..n]), m[n]);
    }
  }

  lemma {:induction false} OrNumber(x: seq<uint8>, c: seq<uint8>, r: seq<uint8>)
    requires |x| == |c| == |r| && forall i :: 0 <= i < |x| ==> r[i] == Or(x[i], c[i])
    ensures Number(r) == Or(Number(x), Number(c))
  {
    if x != [] {
      var n := |x| - 1;
      OrNumber(x[..n], c[..n], r[..n]);
      assert Pow2(8) == 256;
      OrBlocks(8, Number(x[..n]), x[n], Number(c[..n]), c[n]);
    }
  }

  lemma Pow2Byte(k: nat)
    ensures Pow2(k + 8) == 256 * Pow2(k)
  {
    assert Pow2(k + 8) == 2 * Pow2(k + 7) && Pow2(k + 7) == 2 * Pow2(k + 6);
    assert Pow2(k + 6) == 2 * Pow2(k + 5) && Pow2(k + 5) == 2 * Pow2(k + 4);
    assert Pow2(k + 4) == 2 * Pow2(k + 3) && Pow2(k + 3) == 2 * Pow2(k + 2);
    assert Pow2(k + 2) == 2 * Pow2(k + 1) && Pow2(k + 1) == 2 * Pow2(k);
  }

  lemma {:induction false} NumberBound(x: seq<uint8>)
    ensures Number(x) < Pow2(8 * |x|)
  {
    if x != [] {
      var n := |x| - 1;
      NumberBound(x[..n]);
      Pow2Byte(8 * n);
    }
  }

  /** Addresses of one length are told apart by their numbers. */
  lemma {:induction false} NumberInjective(x: seq<uint8>, y: seq<uint8>)
    requires |x| == |y| && Number(x) == Number(y)
    ensures x == y
  {
    if x != [] {
      var n := |x| - 1;
      assert x[n] == y[n];
      NumberInjective(x[..n], y[..n]);
      assert x == x[..n] + [x[n]] && y == y[..n] + [y[n]];
    }
  }

  lemma {:induction false} ComplementNumber(m: seq<uint8>, c: seq<uint8>)
    requires |m| == |c| && forall i :: 0 <= i < |m| ==> c[i] == 0xff - m[i]
    ensures Number(c) == Pow2(8 * |m|) - 1 - Number(m)
  {
    if m != [] {
      var n := |m| - 1;
      ComplementNumber(m[..n], c[..n]);
      Pow2Byte(8 * n);
    }
  }

  /** The byte mask is the 128-bit prefix mask, one leading part at a time. */
  lemma {:induction false} MaskNumber(maskSize: nat, j: nat)
    requires j <= 16
    ensures Number(MaskBytes(maskSize)[..j]) == Pow2(8 * j) - (if maskSize >= 8 * j then 1 else Pow2(8 * j - maskSize))
  {
    if j > 0 {
      var m := MaskBytes(maskSize);
      MaskNumber(maskSize, j - 1);
      assert m[..j][..j - 1] == m[..j - 1];
      Pow2Byte(8 * j - 8);
      if maskSize <= 8 * j - 8 {
        Pow2Byte(8 * j - 8 - maskSize);
      } else if maskSize < 8 * j {
        PartialByte(8 * j - maskSize);
      }
    }
  }

  lemma PartialByte(k: nat)
    requires 0 < k < 8
    ensures (0xff * Pow2(k)) % 0x100 == 0x100 - Pow2(k)
  {
    assert Pow2(4) == 16 && Pow2(7) == 128;
    Pow2Grows(k, 7);
    assert 0xff * Pow2(k) == 0x100 * (Pow2(k) - 1) + (0x100 - Pow2(k));
  }

  lemma WholeMask(maskSize: nat)
    requires maskSize <= 128
    ensures Number(MaskBytes(maskSize)) == Mask(128, 128 - maskSize)
  {
    MaskNumber(maskSize, 16);
    assert MaskBytes(maskSize)[..16] == MaskBytes(maskSize);
  }

  /** What masking sixteen bytes means for the number they spell. */
  lemma MaskedBytes(x: Bytes16, maskSize: nat)
    requires maskSize <= 128
    ensures Number(AndBytes(x, MaskBytes(maskSize))) == First(Number(x), 128 - maskSize)
  {
    AndNumber(x, MaskBytes(maskSize), AndBytes(x, MaskBytes(maskSize)));
    WholeMask(maskSize);
    NumberBound(x);
    AndMask(Number(x), 128, 128 - maskSize);
  }

  function Complement(m: Bytes16): Bytes16 {
    seq(16, i requires 0 <= i < 16 => 0xff - m[i])
  }

  lemma WholeComplement(maskSize: nat)
    requires maskSize <= 128
    ensures Number(Complement(MaskBytes(maskSize))) == Pow2(128 - maskSize) - 1
  {
    ComplementNumber(MaskBytes(maskSize), Complement(MaskBytes(maskSize)));
    WholeMask(maskSize);
  }

  lemma NotAsComplement(x: Bytes16, m: Bytes16)
    ensures forall i :: 0 <= i < 16 ==> OrNotBytes(x, m)[i] == Or(x[i], Complement(m)[i])
  {
  }

  lemma RaisedBytes(x: Bytes16, maskSize: nat)
    requires maskSize <= 128
    ensures Number(OrNotBytes(x, MaskBytes(maskSize))) == Last(Number(x), 128 - maskSize)
  {
    var m := MaskBytes(maskSize);
    NotAsComplement(x, m);
    OrNumber(x, Complement(m), OrNotBytes(x, m));
    WholeComplement(maskSize);
    OrComplement(Number(x), 128 - maskSize);
  }
}
