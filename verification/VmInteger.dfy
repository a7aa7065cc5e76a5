/** The unbounded integers of VM scripts and VM objects: the shortest
    two's-complement bytes, and the padded storage form. */
module VmInteger {
  import opened Bits
  import opened Bytes

  /** v, or ~v when v is negative: the bits that carry the magnitude. */
  function Magnitude(v: int): nat { if v >= 0 then v else -v - 1 }

  function Width(v: int): nat { Max(1, (BitLength(Magnitude(v)) + 1 + 7) / 8) }

  /** _big_int_to_csharp_bytes */
  function CSharp(v: int): (r: bytes)
    ensures r != []
  {
    if v == 0 then [0] else LE(v, Width(v))
  }

  /** big_int_to_vm_bytes */
  function Padded(v: int): bytes {
    var raw := CSharp(v);
    var last := raw[|raw| - 1];
    if v < 0 then
      if |raw| == 1 then raw + [255, 255]
      else if last == 255 then raw + [255]
      else raw
    else if last != 0 then raw + [0]
    else raw
  }

  /** vm_bytes_to_big_int */
  function FromVm(bs: bytes): int { if bs == [] then 0 else SInt(bs) }

  /** The unsigned bytes of v without a leading zero. */
  function Unsigned(v: nat): bytes { if v == 0 then [] else [v % 256] + Unsigned(v / 256) }

  // ----- the shortest form

  predicate Fits(v: int, n: nat) { -Pow256(n) <= 2 * v < Pow256(n) }

  /** n bytes hold v exactly when n is at least the computed width. */
  lemma FitsWidth(v: int, n: nat)
    requires n >= 1
    ensures Fits(v, n) <==> n >= Width(v)
  {
    var m := Magnitude(v);
    BitLengthBound(m, 8 * n - 1);
    Pow2Bytes(n);
    assert Pow2(8 * n) == 2 * Pow2(8 * n - 1);
  }

  lemma SIntFits(bs: bytes)
    ensures Fits(SInt(bs), |bs|)
  {
    SIntRange(bs);
  }

  lemma CSharpIsLE(v: int)
    ensures CSharp(v) == LE(v, Width(v))
  {
    if v == 0 { assert LE(0, 1) == [0 % 256] + LE(0 / 256, 0); }
  }

  /** The bytes are the shortest non-empty two's-complement form of v: they hold
      v, and any others that do are longer. */
  lemma CSharpShortest(v: int)
    ensures SInt(CSharp(v)) == v
    ensures forall bs: bytes :: bs != [] && SInt(bs) == v ==>
              |bs| >= |CSharp(v)| && (|bs| == |CSharp(v)| ==> bs == CSharp(v))
  {
    CSharpIsLE(v);
    FitsWidth(v, Width(v));
    SignedLE(v, Width(v));
    forall bs: bytes | bs != [] && SInt(bs) == v
      ensures |bs| >= |CSharp(v)| && (|bs| == |CSharp(v)| ==> bs == CSharp(v))
    {
      SIntFits(bs);
      FitsWidth(v, |bs|);
      SIntLE(bs);
    }
  }

  /** The padded form decodes to the same integer. */
  lemma PaddedBack(v: int)
    ensures FromVm(Padded(v)) == v && FromVm(CSharp(v)) == v
  {
    var raw := CSharp(v);
    CSharpShortest(v);
    SignByte(raw);
    if v < 0 && |raw| == 1 {
      SignExtend(raw, 2);
      assert Fill(255, 2) == [255, 255];
    } else {
      var f: byte := if v < 0 then 255 else 0;
      SignExtend(raw, 1);
      assert Fill(f, 1) == [f];
    }
  }

  // ----- the padded form of a non-negative integer

  lemma {:induction false} UnsignedUnique(bs: bytes)
    requires bs != [] ==> bs[|bs| - 1] != 0
    ensures Unsigned(UInt(bs)) == bs
  {
    if bs != [] {
      UnsignedUnique(bs[1..]);
      LastNonzero(bs);
      assert UInt(bs) % 256 == bs[0] && UInt(bs) / 256 == UInt(bs[1..]);
    }
  }

  lemma {:induction false} LastNonzero(bs: bytes)
    requires bs != [] && bs[|bs| - 1] != 0
    ensures UInt(bs) > 0
  {
    if |bs| > 1 { LastNonzero(bs[1..]); }
  }

  lemma DropZero(bs: bytes)
    requires bs != [] && bs[|bs| - 1] == 0
    ensures UInt(bs[..|bs| - 1]) == UInt(bs)
  {
    hide UInt, Pow256;
    var n := |bs| - 1;
    assert bs == bs[..n] + [0];
    UIntAppend(bs[..n], [0]);
    SingleByte(0);
  }

  lemma NonNegative(bs: bytes)
    requires bs != [] && bs[|bs| - 1] < 128
    ensures SInt(bs) == UInt(bs)
  {
    SignByte(bs);
  }

  /** For v >= 0 the padded form is the minimal unsigned bytes and one zero byte,
      never none and never two. */
  lemma PaddedUnsigned(v: nat)
    ensures Padded(v) == Unsigned(v) + [0]
  {
    var raw := CSharp(v);
    var n := |raw| - 1;
    RawUnsigned(v);
    if raw[n] != 0 {
      UnsignedUnique(raw);
    } else {
      NoSecondZero(v);
      DropZero(raw);
      UnsignedUnique(raw[..n]);
      assert raw == raw[..n] + [0];
    }
  }

  lemma RawUnsigned(v: nat)
    ensures UInt(CSharp(v)) == v
  {
    CSharpShortest(v);
    SignByte(CSharp(v));
    NonNegative(CSharp(v));
  }

  /** A second zero byte could be dropped, and the form is the shortest. */
  lemma NoSecondZero(v: nat)
    requires CSharp(v)[|CSharp(v)| - 1] == 0
    ensures |CSharp(v)| >= 2 ==> CSharp(v)[|CSharp(v)| - 2] != 0
  {
    var raw := CSharp(v);
    var low := raw[..|raw| - 1];
    if low != [] && low[|low| - 1] == 0 {
      CSharpShortest(v);
      DropZero(raw);
      NonNegative(raw);
      NonNegative(low);
    }
  }

  // ----- the padded form of a negative integer

  /** The top byte of n bytes is all ones exactly when n - 1 bytes and the sign
      suffice. */
  lemma TopOnes(bs: bytes)
    requires bs != [] && SInt(bs) < 0
    ensures bs[|bs| - 1] == 255 <==> -Pow256(|bs| - 1) <= SInt(bs)
  {
    var n := |bs| - 1;
    var low, top := bs[..n], bs[n];
    assert bs == low + [top];
    UIntAppend(low, [top]);
    SingleByte(top);
    SignByte(bs);
    PowStep(n);
    TopCases(Pow256(n), UInt(low), top);
  }

  lemma TopCases(p: int, u: int, top: byte)
    requires 0 <= u < p
    ensures top == 255 <==> -p <= u + p * top - 256 * p
  {
    if top < 255 {
      Multiple(p, 255 - top);
      assert p * (255 - top) == 255 * p - p * top;
    } else {
      assert p * top == 255 * p;
    }
  }

  /** For v < 0 the padded form is the plain one, with one more byte if that has a top
      byte of all ones, and with two more if it is a single byte: so -256 takes three
      bytes and -257 takes two. */
  lemma PaddedNegative(v: int)
    requires v < 0
    ensures var n := |CSharp(v)|;
            Padded(v) == LE(v, if n == 1 then 3 else if -Pow256(n - 1) <= v then n + 1 else n)
  {
    var raw := CSharp(v);
    CSharpShortest(v);
    TopOnes(raw);
    PaddedBack(v);
    SIntLE(Padded(v));
  }
}
