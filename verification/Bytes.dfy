/** Bytes, and integers laid out little-endian.  Every wire format of the
    repository is built on these. */
module Bytes {

  type byte = x: int | 0 <= x < 256
  type bytes = seq<byte>

  /** A writer's outcome: None stands for the exception it raises. */
  datatype Option<+T> = None | Some(value: T) {
    predicate IsFailure() { None? }

    function PropagateFailure<U>(): Option<U>
      requires None?
    {
      None
    }

    function Extract(): T
      requires Some?
    {
      value
    }
  }

  /** A reader's outcome: the value and the bytes it left, or an exception. */
  datatype Parsed<+T> = Err | Ok(v: T, rest: bytes) {
    predicate IsFailure() { Err? }

    function PropagateFailure<U>(): Parsed<U>
      requires Err?
    {
      Err
    }

    function Extract(): (T, bytes)
      requires Ok?
    {
      (v, rest)
    }
  }

  function Max(a: int, b: int): int { if a < b then b else a }

  function Min(a: int, b: int): int { if a < b then a else b }

  /** n copies of b. */
  function Fill(b: byte, n: nat): (r: bytes)
    ensures |r| == n && forall i :: 0 <= i < n ==> r[i] == b
  {
    seq(n, _ => b)
  }

  function Pow256(n: nat): (r: int)
    ensures r >= 1
  {
    if n == 0 then 1 else 256 * Pow256(n - 1)
  }

  /** The n low bytes of v in two's complement, least significant first. */
  function LE(v: int, n: nat): (r: bytes)
    ensures |r| == n
    decreases n, v
  {
    if n == 0 then [] else [v % 256] + LE(v / 256, n - 1)
  }

  /** int.from_bytes(bs, "little", signed=False) */
  function UInt(bs: bytes): (r: int)
    ensures 0 <= r < Pow256(|bs|)
  {
    if bs == [] then 0 else bs[0] + 256 * UInt(bs[1..])
  }

  /** int.from_bytes(bs, "little", signed=True) */
  function SInt(bs: bytes): int {
    var u := UInt(bs);
    if 2 * u >= Pow256(|bs|) then u - Pow256(|bs|) else u
  }

  /** What is left of v above its n low bytes. */
  ghost function High(v: int, n: nat): int
    decreases n, v
  {
    if n == 0 then v else High(v / 256, n - 1)
  }

  lemma {:induction false} PowAdd(m: nat, n: nat)
    ensures Pow256(m + n) == Pow256(m) * Pow256(n)
  {
    if m != 0 { PowAdd(m - 1, n); }
  }

  lemma PowStep(n: nat)
    ensures Pow256(n + 1) == 256 * Pow256(n)
  {
  }

  lemma {:induction false} LEHigh(v: int, n: nat)
    ensures v == UInt(LE(v, n)) + Pow256(n) * High(v, n)
    decreases n, v
  {
    if n != 0 {
      LEHigh(v / 256, n - 1);
      assert LE(v, n)[1..] == LE(v / 256, n - 1);
      assert v == 256 * (v / 256) + v % 256;
    }
  }

  /** A nonzero multiple of p is at least p away from zero. */
  lemma Multiple(p: int, q: int)
    requires p >= 0
    ensures q >= 1 ==> p * q >= p
    ensures q <= -1 ==> p * q <= -p
  {
    if q >= 1 {
      assert p * q == p * (q - 1) + p;
    } else if q <= -1 {
      assert p * q == -(p * (-q - 1)) - p;
    }
  }

  /** Two residues below p that differ by a multiple of p are equal. */
  lemma ResidueUnique(p: int, a: int, b: int, q: int)
    requires 0 <= a < p && 0 <= b < p && a - b == p * q
    ensures a == b
  {
    Multiple(p, q);
  }

  lemma ModUnique(v: int, p: int, u: int, q: int)
    requires 0 <= u < p && v == u + p * q
    ensures v % p == u
  {
    var d, m := v / p, v % p;
    assert v == p * d + m;
    assert m - u == p * (q - d);
    ResidueUnique(p, m, u, q - d);
  }

  /** LE keeps exactly the residue modulo 256^n. */
  lemma LEZero(n: nat)
    ensures LE(0, n) == Fill(0, n)
  {
    if n > 0 {
      LEZero(n - 1);
      assert Fill(0, n) == [0] + Fill(0, n - 1);
    }
  }

  lemma DivUnique(v: int, d: int, q: int, r: int)
    requires d > 0 && 0 <= r < d && v == d * q + r
    ensures v / d == q
  {
    var x := v / d;
    assert v == d * x + v % d;
    assert d * (x - q) == r - v % d;
    Multiple(d, x - q);
    Multiple(d, q - x);
    assert d * (q - x) == v % d - r;
  }

  lemma LEUInt(v: int, n: nat)
    ensures UInt(LE(v, n)) == v % Pow256(n)
  {
    LEHigh(v, n);
    ModUnique(v, Pow256(n), UInt(LE(v, n)), High(v, n));
  }

  lemma {:induction false} UIntLE(bs: bytes)
    ensures LE(UInt(bs), |bs|) == bs
  {
    if bs != [] {
      UIntLE(bs[1..]);
      assert UInt(bs) % 256 == bs[0] && UInt(bs) / 256 == UInt(bs[1..]);
    }
  }

  /** Byte strings of one length are told apart by their value. */
  lemma UIntInjective(a: bytes, b: bytes)
    requires |a| == |b| && UInt(a) == UInt(b)
    ensures a == b
  {
    UIntLE(a);
    UIntLE(b);
  }

  lemma Assoc256(p: int, u: int)
    ensures 256 * (p * u) == 256 * p * u
  {
  }

  lemma {:induction false} UIntAppend(a: bytes, b: bytes)
    ensures UInt(a + b) == UInt(a) + Pow256(|a|) * UInt(b)
  {
    if a == [] {
      assert a + b == b;
    } else {
      UIntAppend(a[1..], b);
      assert (a + b)[1..] == a[1..] + b;
      Assoc256(Pow256(|a| - 1), UInt(b));
    }
  }

  lemma SingleByte(b: byte)
    ensures UInt([b]) == b
  {
  }

  /** The sign is the top bit of the last byte. */
  lemma SignByte(bs: bytes)
    requires bs != []
    ensures SInt(bs) < 0 <==> bs[|bs| - 1] >= 128
    ensures 2 * UInt(bs) >= Pow256(|bs|) <==> bs[|bs| - 1] >= 128
  {
    hide Pow256, UInt;
    var n := |bs| - 1;
    var t := bs[n];
    assert bs == bs[..n] + [t];
    UIntAppend(bs[..n], [t]);
    SingleByte(t);
    PowStep(n);
    TopByte(Pow256(n), UInt(bs[..n]), t);
  }

  lemma TopByte(p: int, low: int, t: byte)
    requires 0 <= low < p
    ensures 2 * (low + p * t) >= 256 * p <==> t >= 128
  {
    assert p * t == p * 128 + p * (t - 128);
    Multiple(p, t - 128);
  }

  lemma SIntRange(bs: bytes)
    ensures -Pow256(|bs|) <= 2 * SInt(bs) < Pow256(|bs|)
  {
  }

  /** A signed integer that fits n bytes survives them. */
  lemma SignedLE(v: int, n: nat)
    requires -Pow256(n) <= 2 * v < Pow256(n)
    ensures SInt(LE(v, n)) == v
  {
    var p := Pow256(n);
    LEUInt(v, n);
    if v >= 0 {
      ModUnique(v, p, v, 0);
    } else {
      ModUnique(v, p, v + p, -1);
    }
  }

  /** v and w leave the same residue modulo p. */
  ghost predicate Congruent(v: int, w: int, p: int)
    requires p != 0
  {
    (v - w) % p == 0
  }

  /** At most one integer of the signed range lies in a residue class. */
  lemma SignedUnique(v: int, w: int, p: int)
    requires -p <= 2 * v < p && -p <= 2 * w < p && Congruent(v, w, p)
    ensures v == w
  {
    var k := (v - w) / p;
    assert v - w == p * k + (v - w) % p;
    Multiple(p, k);
  }

  lemma CongruentTrans(u: int, v: int, w: int, p: int)
    requires p > 0 && Congruent(u, v, p) && Congruent(u, w, p)
    ensures Congruent(v, w, p)
  {
    var a, b := (u - v) / p, (u - w) / p;
    assert u - v == p * a && u - w == p * b;
    assert v - w == p * (b - a);
    ModUnique(v - w, p, 0, b - a);
  }

  /** SInt(LE(v, n)) is congruent to v, so it is the one integer of the signed
      range that is. */
  lemma SIntOfLE(v: int, n: nat)
    ensures Congruent(v, SInt(LE(v, n)), Pow256(n))
  {
    var p, u, q := Pow256(n), UInt(LE(v, n)), High(v, n);
    LEHigh(v, n);
    ShiftOne(p, q);
    if 2 * u >= p {
      ModUnique(v - (u - p), p, 0, q + 1);
    } else {
      ModUnique(v - u, p, 0, q);
    }
  }

  lemma ShiftOne(p: int, q: int)
    ensures p * (q + 1) == p * q + p
  {
  }

  lemma SIntLE(bs: bytes)
    ensures LE(SInt(bs), |bs|) == bs
  {
    var v := SInt(bs);
    LEUInt(v, |bs|);
    ModUnique(v, Pow256(|bs|), UInt(bs), if v < 0 then -1 else 0);
    UIntInjective(LE(v, |bs|), bs);
  }

  /** Extending with the sign byte keeps the signed value. */
  lemma {:induction false} SignExtend(bs: bytes, n: nat)
    requires bs != []
    ensures SInt(bs + Fill(if bs[|bs| - 1] >= 128 then 255 else 0, n)) == SInt(bs)
  {
    var f: byte := if bs[|bs| - 1] >= 128 then 255 else 0;
    if n == 0 {
      assert bs + Fill(f, n) == bs;
    } else {
      var ext := bs + Fill(f, n - 1);
      SignExtend(bs, n - 1);
      assert bs + Fill(f, n) == ext + [f];
      SignByte(ext);
      SignOnce(ext);
    }
  }

  lemma SignOnce(bs: bytes)
    requires bs != []
    ensures SInt(bs + [if bs[|bs| - 1] >= 128 then 255 else 0]) == SInt(bs)
  {
    hide Pow256, UInt;
    var f: byte := if bs[|bs| - 1] >= 128 then 255 else 0;
    UIntAppend(bs, [f]);
    SingleByte(f);
    PowStep(|bs|);
    SignByte(bs);
    var p := Pow256(|bs|);
    if f == 255 { assert p * f == 255 * p; } else { assert p * f == 0; }
  }
}
