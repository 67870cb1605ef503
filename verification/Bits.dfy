/** Bitwise operations on unsigned integers of any width, bit by bit from the lowest. */
module Bits {
  function Pow2(k: nat): (p: nat)
    ensures p > 0
  {
    if k == 0 then 1 else 2 * Pow2(k - 1)
  }

  lemma Pow2At32()
    ensures Pow2(8) == 0x100 && Pow2(31) == 0x8000_0000 && Pow2(32) == 0x1_0000_0000
  {
    assert Pow2(8) == 0x100;
    assert Pow2(16) == 0x1_0000;
    assert Pow2(24) == 0x100_0000;
  }

  lemma {:induction false} Pow2Grows(k: nat, n: nat)
    requires k <= n
    ensures Pow2(k) <= Pow2(n)
    decreases n
  {
    if k < n { Pow2Grows(k, n - 1); }
  }

  lemma {:induction false} Pow2Exceeds(k: nat)
    ensures k < Pow2(k)
  {
    if k > 0 { Pow2Exceeds(k - 1); }
  }

  function Xor(x: nat, y: nat): nat {
    if x == 0 && y == 0 then 0 else 2 * Xor(x / 2, y / 2) + (if x % 2 == y % 2 then 0 else 1)
  }

  function And(x: nat, y: nat): nat {
    if x == 0 || y == 0 then 0 else 2 * And(x / 2, y / 2) + (if x % 2 == 1 && y % 2 == 1 then 1 else 0)
  }

  function Or(x: nat, y: nat): nat {
    if x == 0 && y == 0 then 0 else 2 * Or(x / 2, y / 2) + (if x % 2 == 1 || y % 2 == 1 then 1 else 0)
  }

  lemma {:induction false} XorCommutes(x: nat, y: nat)
    ensures Xor(x, y) == Xor(y, x)
  {
    if x != 0 || y != 0 { XorCommutes(x / 2, y / 2); }
  }

  /** How one bit of an exclusive or comes about. */
  lemma XorHalf(x: nat, y: nat)
    ensures Xor(x, y) == 2 * Xor(x / 2, y / 2) + (if x % 2 == y % 2 then 0 else 1)
    ensures Xor(x, y) / 2 == Xor(x / 2, y / 2)
    ensures Xor(x, y) % 2 == if x % 2 == y % 2 then 0 else 1
  {
  }

  lemma {:induction false} XorAssociates(x: nat, y: nat, z: nat)
    ensures Xor(Xor(x, y), z) == Xor(x, Xor(y, z))
    decreases x + y + z
  {
    if x != 0 || y != 0 || z != 0 {
      XorAssociates(x / 2, y / 2, z / 2);
      XorHalf(x, y);
      XorHalf(y, z);
      XorHalf(Xor(x, y), z);
      XorHalf(x, Xor(y, z));
    }
  }

  lemma {:induction false} XorZero(x: nat)
    ensures Xor(x, 0) == x && Xor(0, x) == x
  {
    if x != 0 { XorZero(x / 2); }
  }

  lemma {:induction false} XorSelf(x: nat)
    ensures Xor(x, x) == 0
  {
    if x != 0 { XorSelf(x / 2); }
  }

  lemma {:induction false} XorBound(x: nat, y: nat, k: nat)
    requires x < Pow2(k) && y < Pow2(k)
    ensures Xor(x, y) < Pow2(k)
  {
    if k > 0 { XorBound(x / 2, y / 2, k - 1); XorHalf(x, y); }
  }

  /** Nothing cancels but what is equal. */
  lemma XorCancels(x: nat, y: nat, z: nat)
    requires Xor(x, z) == Xor(y, z)
    ensures x == y
  {
    XorAssociates(x, z, z);
    XorAssociates(y, z, z);
    XorSelf(z);
    XorZero(x);
    XorZero(y);
  }

  /** (a ^ b) ^ (c ^ d) == (a ^ c) ^ (b ^ d). */
  lemma XorSwap(a: nat, b: nat, c: nat, d: nat)
    ensures Xor(Xor(a, b), Xor(c, d)) == Xor(Xor(a, c), Xor(b, d))
  {
    XorAssociates(a, b, Xor(c, d));
    XorAssociates(b, c, d);
    XorCommutes(b, c);
    XorAssociates(c, b, d);
    XorAssociates(a, c, Xor(b, d));
  }

  /** High and low parts do not mix. */
  lemma {:induction false} XorBlocks(k: nat, h1: nat, l1: nat, h2: nat, l2: nat)
    requires l1 < Pow2(k) && l2 < Pow2(k)
    ensures Xor(Pow2(k) * h1 + l1, Pow2(k) * h2 + l2) == Pow2(k) * Xor(h1, h2) + Xor(l1, l2)
  {
    if k == 0 {
      assert Xor(0, 0) == 0;
    } else {
      XorBlocks(k - 1, h1, l1 / 2, h2, l2 / 2);
      var a := Twice(k, h1);
      var b := Twice(k, h2);
      var c := Twice(k, Xor(h1, h2));
      XorStep(a, l1, b, l2, c);
    }
  }

  lemma Twice(k: nat, h: nat) returns (half: nat)
    requires k > 0
    ensures half == Pow2(k - 1) * h && Pow2(k) * h == 2 * half
  {
    half := Pow2(k - 1) * h;
  }

  lemma XorStep(high1: nat, l1: nat, high2: nat, l2: nat, high: nat)
    requires Xor(high1 + l1 / 2, high2 + l2 / 2) == high + Xor(l1 / 2, l2 / 2)
    ensures Xor(2 * high1 + l1, 2 * high2 + l2) == 2 * high + Xor(l1, l2)
  {
    XorHalf(2 * high1 + l1, 2 * high2 + l2);
    XorHalf(l1, l2);
    assert (2 * high1 + l1) / 2 == high1 + l1 / 2 && (2 * high2 + l2) / 2 == high2 + l2 / 2;
  }

  /** Bits that do not overlap just sit side by side. */
  lemma XorDisjoint(k: nat, high: nat, low: nat)
    requires low < Pow2(k)
    ensures Xor(Pow2(k) * high, low) == Pow2(k) * high + low
  {
    var p := Pow2(k);
    XorBlocks(k, high, 0, 0, low);
    XorZero(high);
    XorZero(low);
    assert p * high + 0 == p * high && p * 0 + low == low;
  }

  /** A byte only meets the lowest byte. */
  lemma XorLowByte(high: nat, low: nat, byte: nat)
    requires low < 256 && byte < 256
    ensures Xor(low, byte) < 256 && Xor(256 * high + low, byte) == 256 * high + Xor(low, byte)
  {
    assert Pow2(8) == 256;
    XorBound(low, byte, 8);
    XorBlocks(8, high, low, 0, byte);
    XorZero(high);
  }
}
