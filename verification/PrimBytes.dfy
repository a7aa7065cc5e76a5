/** The bytes of every primitive kind, with the widths and limits written out. */
module PrimBytes {
  import opened Bytes
  import opened Prim
  import Int256
  import Utf8

  /** 256^n for the widths in use. */
  lemma Powers()
    ensures Pow256(1) == 0x100 && Pow256(2) == 0x1_0000 && Pow256(4) == 0x1_0000_0000
    ensures Pow256(8) == 0x1_0000_0000_0000_0000
  {
    assert Pow256(2) == 256 * Pow256(1) && Pow256(3) == 256 * Pow256(2) && Pow256(4) == 256 * Pow256(3);
    PowAdd(4, 4);
  }

  /** Fixed-width integers are refused outside the width's range; only the VM's byte
      is cut to its low eight bits. */
  lemma IntegerBytes(n: int)
    ensures Enc(U8, Num(n)) == if 0 <= n <= 0xFF then Some(LE(n, 1)) else None
    ensures Enc(U32, Num(n)) == if 0 <= n <= 0xFFFF_FFFF then Some(LE(n, 4)) else None
    ensures Enc(U64, Num(n)) == if 0 <= n <= 0xFFFF_FFFF_FFFF_FFFF then Some(LE(n, 8)) else None
    ensures Enc(I8, Num(n)) == Some(LE(n, 1))
    ensures Enc(I16, Num(n)) == if -0x8000 <= n <= 0x7FFF then Some(LE(n, 2)) else None
    ensures Enc(I32, Num(n)) == if -0x8000_0000 <= n <= 0x7FFF_FFFF then Some(LE(n, 4)) else None
    ensures Enc(I64, Num(n))
         == if -0x8000_0000_0000_0000 <= n <= 0x7FFF_FFFF_FFFF_FFFF then Some(LE(n, 8)) else None
  {
    hide LE;
    Powers();
    LowByte(n);
  }

  lemma LowByte(n: int)
    ensures LE(n, 1) == [n % 256]
  {
    assert LE(n, 1) == [n % 256] + LE(n / 256, 0);
  }

  /** Little-endian, byte by byte. */
  lemma {:induction false} LEAt(v: int, n: nat, i: nat)
    requires i < n
    ensures LE(v, n)[i] == v / Pow256(i) % 256
    decreases i
  {
    if i > 0 {
      LEAt(v / 256, n - 1, i - 1);
      DivDiv(v, Pow256(i - 1));
    }
  }

  lemma DivDiv(v: int, p: int)
    requires p > 0
    ensures v / 256 / p == v / (256 * p)
  {
    var q, r := v / 256, v % 256;
    var h, s := q / p, q % p;
    assert v == 256 * q + r && q == p * h + s;
    assert 256 * (p * h) == 256 * p * h;
    DivUnique(v, 256 * p, h, 256 * s + r);
  }

  /** Hashes and signatures stand as they are; a blob has a four-byte length, a short
      text a one-byte length, and other text a zero byte behind it. */
  lemma TextBytes(b: bytes, s: string)
    ensures Enc(B16, Bin(b)) == if |b| == 16 then Some(b) else None
    ensures Enc(B32, Bin(b)) == if |b| == 32 then Some(b) else None
    ensures Enc(B64, Bin(b)) == if |b| == 64 then Some(b) else None
    ensures Enc(Blob, Bin(b)) == if |b| <= 0x7FFF_FFFF then Some(LE(|b|, 4) + b) else None
    ensures Enc(Small, Txt(s)) == if |Utf8.Encode(s)| <= 255 then Some([|Utf8.Encode(s)|] + Utf8.Encode(s)) else None
    ensures Enc(ZStr, Txt(s)) == if '\0' in s then None else Some(Utf8.Encode(s) + [0])
  {
    hide LE, Utf8.Encode;
    Powers();
  }

  /** Every other pairing of kind and payload is refused. */
  lemma Mistyped(k: Kind, x: PVal)
    ensures Enc(k, x).Some? ==>
              if k in {B16, B32, B64, Blob} then x.Bin? else if k in {Small, ZStr} then x.Txt? else x.Num?
  {
  }

  /** INT256 takes integers of up to 256 bits; INTX writes those of 64 bits as eight
      bytes behind their sign, and the others like INT256. */
  lemma WideBytes(n: int)
    ensures Enc(I256, Num(n)).Some? <==>
              -0x1_0000_0000_0000_0000_0000_0000_0000_0000_0000_0000_0000_0000_0000_0000_0000_0000 < n
              < 0x1_0000_0000_0000_0000_0000_0000_0000_0000_0000_0000_0000_0000_0000_0000_0000_0000
    ensures Enc(IntX, Num(n))
         == if 0 <= n < 0x8000_0000_0000_0000 then Some([0x08] + LE(n, 8))
            else if -0x8000_0000_0000_0000 <= n < 0 then Some([0x88] + LE(n, 8))
            else Enc(I256, Num(n))
  {
    hide LE, Int256.Word, Int256.Trimmed, Int256.Header, Pow256;
    WordPower();
  }

  lemma WordPower()
    ensures Pow256(32) == 0x1_0000_0000_0000_0000_0000_0000_0000_0000_0000_0000_0000_0000_0000_0000_0000_0000
  {
    Powers();
    PowAdd(8, 8);
    PowAdd(16, 16);
  }

  /** An array has a four-byte count in front of its elements. */
  lemma ArrayBytes(k: Kind, x: PVal, xs: seq<PVal>)
    ensures EncArray(k, xs)
         == if |xs| <= 0x7FFF_FFFF && EncAll(k, xs).Some? then Some(LE(|xs|, 4) + EncAll(k, xs).value) else None
    ensures EncAll(k, []) == Some([])
    ensures EncAll(k, [x] + xs)
         == if Enc(k, x).Some? && EncAll(k, xs).Some? then Some(Enc(k, x).value + EncAll(k, xs).value) else None
  {
    hide LE, Enc;
    Powers();
    assert ([x] + xs)[1..] == xs;
  }
}
