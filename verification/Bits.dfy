/** Bit lengths and powers of two. */
module Bits {
  import opened Bytes

  /** int.bit_length on a non-negative integer */
  function BitLength(v: nat): nat { if v == 0 then 0 else 1 + BitLength(v / 2) }

  function Pow2(n: nat): (r: int)
    ensures r >= 1
  {
    if n == 0 then 1 else 2 * Pow2(n - 1)
  }

  lemma {:induction false} BitLengthBound(v: nat, n: nat)
    ensures BitLength(v) <= n <==> v < Pow2(n)
    decreases v
  {
    if v != 0 && n != 0 { BitLengthBound(v / 2, n - 1); }
  }

  lemma Times16(k: nat)
    ensures Pow2(k + 4) == 16 * Pow2(k)
  {
    assert Pow2(k + 1) == 2 * Pow2(k) && Pow2(k + 2) == 2 * Pow2(k + 1) && Pow2(k + 3) == 2 * Pow2(k + 2);
  }

  lemma {:induction false} Pow2Bytes(n: nat)
    ensures Pow2(8 * n) == Pow256(n)
  {
    if n != 0 {
      var k := 8 * (n - 1);
      Pow2Bytes(n - 1);
      Times16(k);
      Times16(k + 4);
    }
  }

  lemma Halve(v: nat)
    ensures BitLength(v) == if v == 0 then 0 else 1 + BitLength(v / 2)
  {
  }

  lemma Halve4(v: nat)
    requires v >= 16
    ensures BitLength(v) == 4 + BitLength(v / 16)
  {
    Halve(v);
    Halve(v / 2);
    Halve(v / 4);
    Halve(v / 8);
    assert v / 2 / 2 == v / 4 && v / 4 / 2 == v / 8 && v / 8 / 2 == v / 16;
  }

  lemma BitLength256(v: nat)
    ensures v >= 256 ==> BitLength(v) == 8 + BitLength(v / 256)
    ensures 0 < v < 256 ==> 1 <= BitLength(v) <= 8
  {
    if v >= 256 {
      Halve4(v);
      Halve4(v / 16);
      assert v / 16 / 16 == v / 256;
    } else if v >= 16 {
      Halve4(v);
      NibbleBits(v / 16);
    } else if v > 0 {
      NibbleBits(v);
    }
  }

  lemma NibbleBits(v: nat)
    requires 0 < v < 16
    ensures 1 <= BitLength(v) <= 4
  {
    Halve(v);
    Halve(v / 2);
    Halve(v / 4);
    Halve(v / 8);
    Halve(v / 16);
    assert v / 2 / 2 == v / 4 && v / 4 / 2 == v / 8 && v / 8 / 2 == v / 16 == 0;
  }
}
