/** Carbon's compact signed integers: Int256, which drops the sign-fill bytes of
    a 32-byte word, and IntX, which adds a fixed eight-byte form. */
module Int256 {
  import opened Bytes

  const WORD := 32

  /** _big_int_word and back: the 32-byte two's-complement word. */
  function Word(v: int): (w: bytes)
    ensures |w| == WORD
  {
    LE(v, WORD)
  }

  function Negative(w: bytes): bool
    requires w != []
  {
    w[|w| - 1] >= 128
  }

  function FillOf(negative: bool): byte { if negative then 255 else 0 }

  /** The length left after dropping the trailing fill bytes. */
  function Trimmed(w: bytes, fill: byte): (n: nat)
    ensures n <= |w|
  {
    if w != [] && w[|w| - 1] == fill then Trimmed(w[..|w| - 1], fill) else |w|
  }

  function Header(length: nat, negative: bool): byte
    requires length <= WORD
  {
    length + if negative then 128 else 0
  }

  /** value.bit_length() <= 256 */
  predicate Writable(v: int) { -Pow256(WORD) < v < Pow256(WORD) }

  predicate Signed256(v: int) { -Pow256(WORD) <= 2 * v < Pow256(WORD) }

  /** What a written integer is read back as. */
  function Wrap(v: int): int { SInt(Word(v)) }

  function Enc(v: int): Option<bytes> {
    if v == 0 then Some([0])
    else if !Writable(v) then None
    else
      var w := Word(v);
      var n := Trimmed(w, FillOf(Negative(w)));
      Some([Header(n, Negative(w))] + w[..n])
  }

  /** header & 0x3F, header & 0x40 and header & 0x80 */
  function LengthBits(header: byte): nat { header % 64 }

  predicate OversizeBit(header: byte) { header / 64 % 2 == 1 }

  predicate SignBit(header: byte) { header >= 128 }

  function DecWithHeader(header: byte, bs: bytes): Parsed<int> {
    var n := LengthBits(header);
    if header == 0 then Ok(0, bs)
    else if OversizeBit(header) || n > WORD || n > |bs| then Err
    else
      var w := bs[..n] + Fill(FillOf(SignBit(header)), WORD - n);
      if Negative(w) != SignBit(header) then Err else Ok(SInt(w), bs[n..])
  }

  function Dec(bs: bytes): Parsed<int> {
    if bs == [] then Err else DecWithHeader(bs[0], bs[1..])
  }

  // ----- words and their trimmed form

  lemma {:induction false} TrimmedTail(w: bytes, fill: byte)
    ensures var n := Trimmed(w, fill);
            (n > 0 ==> w[n - 1] != fill) && forall i :: n <= i < |w| ==> w[i] == fill
  {
    if w != [] && w[|w| - 1] == fill { TrimmedTail(w[..|w| - 1], fill); }
  }

  lemma TrimmedSplit(w: bytes, fill: byte)
    ensures var n := Trimmed(w, fill);
            w == w[..n] + Fill(fill, |w| - n) && (n > 0 ==> w[n - 1] != fill)
  {
    TrimmedTail(w, fill);
  }

  /** Any prefix that fills up to w is at least as long as the trimmed one. */
  lemma {:induction false} TrimmedLeast(body: bytes, fill: byte, k: nat)
    ensures Trimmed(body + Fill(fill, k), fill) <= |body|
  {
    var w := body + Fill(fill, k);
    TrimmedSplit(w, fill);
    var n := Trimmed(w, fill);
    assert forall i :: |body| <= i < |w| ==> w[i] == fill;
  }

  lemma {:induction false} ZeroWord(n: nat)
    ensures UInt(Fill(0, n)) == 0
  {
    if n != 0 {
      ZeroWord(n - 1);
      assert Fill(0, n)[1..] == Fill(0, n - 1);
    }
  }

  lemma WritableResidue(v: int)
    requires Writable(v) && v % Pow256(WORD) == 0
    ensures v == 0
  {
    hide Pow256;
    var p := Pow256(WORD);
    assert v == p * (v / p);
    Multiple(p, v / p);
  }

  /** The all-zero word belongs to zero alone. */
  lemma ZeroHeader(v: int)
    requires Writable(v) && Trimmed(Word(v), 0) == 0
    ensures v == 0
  {
    TrimmedSplit(Word(v), 0);
    assert Word(v) == Fill(0, WORD);
    ZeroWord(WORD);
    LEUInt(v, WORD);
    WritableResidue(v);
  }

  lemma HeaderBits(n: nat, negative: bool)
    requires n <= WORD
    ensures var h := Header(n, negative);
            LengthBits(h) == n && !OversizeBit(h) && SignBit(h) == negative
  {
  }

  /** A header that decodes is the header of its own length and sign. */
  lemma HeaderOfBits(h: byte)
    requires !OversizeBit(h) && LengthBits(h) <= WORD
    ensures h == Header(LengthBits(h), SignBit(h))
  {
  }

  // ----- main results on Int256

  /** Reading what write_big_int wrote, whatever follows, leaves exactly what
      follows and yields the signed 256-bit representative. */
  lemma RoundTrip(v: int, rest: bytes)
    requires Enc(v).Some?
    ensures Dec(Enc(v).value + rest) == Ok(Wrap(v), rest)
  {
    hide Pow256, LE, UInt, Trimmed;
    var w := Word(v);
    var neg := Negative(w);
    var f := FillOf(neg);
    var n := Trimmed(w, f);
    if v == 0 {
      SignedLE(0, WORD);
      assert ([0] + rest)[1..] == rest;
    } else {
      TrimmedSplit(w, f);
      HeaderBits(n, neg);
      if Header(n, neg) == 0 { ZeroHeader(v); }
      var e := Enc(v).value + rest;
      assert e[1..] == w[..n] + rest;
      assert e[1..][..n] == w[..n] && e[1..][n..] == rest;
    }
  }

  /** The value read back is congruent to v modulo 2^256, lies in
      [-2^255, 2^255), and no other integer does both. */
  lemma WrapUnique(v: int)
    ensures Signed256(Wrap(v)) && Congruent(v, Wrap(v), Pow256(WORD))
    ensures forall u :: Signed256(u) && Congruent(v, u, Pow256(WORD)) ==> u == Wrap(v)
  {
    SIntOfLE(v, WORD);
    SIntRange(Word(v));
    forall u | Signed256(u) && Congruent(v, u, Pow256(WORD))
      ensures u == Wrap(v)
    {
      CongruentTrans(v, u, Wrap(v), Pow256(WORD));
      SignedUnique(u, Wrap(v), Pow256(WORD));
    }
  }

  lemma WrapSigned(v: int)
    ensures Signed256(v) ==> Wrap(v) == v
  {
    if Signed256(v) { SignedLE(v, WORD); }
  }

  /** A word is marked negative exactly if its value is. */
  lemma NegativeIsSign(w: bytes)
    requires |w| == WORD
    ensures Negative(w) <==> SInt(w) < 0
  {
    SignByte(w);
  }

  /** What the reader accepts for a value: the trimmed word, possibly with some
      of its fill bytes still written out. */
  lemma AcceptedShape(h: byte, bs: bytes)
    requires DecWithHeader(h, bs).Ok?
    ensures var r := DecWithHeader(h, bs);
            var n := LengthBits(h);
            && Signed256(r.v) && n <= |bs| && n <= WORD && r.rest == bs[n..]
            && (r.v < 0 <==> h >= 128) && h == n + (if r.v < 0 then 128 else 0)
            && Word(r.v) == bs[..n] + Fill(if r.v < 0 then 255 else 0, 32 - n)
  {
    hide Pow256, UInt, LE;
    NegativeIsSign(Word(DecWithHeader(h, bs).v));
    var n := LengthBits(h);
    if h == 0 {
      SignedLE(0, WORD);
      SIntLE(Fill(0, WORD));
      ZeroWord(WORD);
      assert bs[..0] + Fill(0, WORD) == Fill(0, WORD);
    } else {
      HeaderOfBits(h);
      var w := bs[..n] + Fill(FillOf(SignBit(h)), WORD - n);
      SIntLE(w);
      SIntRange(w);
    }
  }

  /** The writer's bytes are the unique shortest encoding of a value: whatever
      byte string the reader takes for it is longer, or is that very string. */
  lemma Shortest(e: bytes)
    requires Dec(e).Ok? && Dec(e).rest == []
    ensures var v := Dec(e).v;
            Enc(v).Some? && |Enc(v).value| <= |e| && (|Enc(v).value| == |e| ==> Enc(v).value == e)
  {
    var h, bs := e[0], e[1..];
    AcceptedShape(h, bs);
    var v, n, neg := Dec(e).v, LengthBits(h), SignBit(h);
    var w := Word(v);
    TrimmedLeast(bs[..n], FillOf(neg), WORD - n);
    assert bs[..n] == w[..n] && n == |bs|;
    assert e == [h] + w[..n];
    SignedWritable(v);
  }

  lemma SignedWritable(v: int)
    ensures Signed256(v) ==> Writable(v) && Enc(v).Some?
  {
  }

  // ----- IntX

  const WIDTH8 := 8

  predicate Int64(v: int) { -0x8000_0000_0000_0000 <= v < 0x8000_0000_0000_0000 }

  function EncX(v: int): Option<bytes> {
    if Int64(v) then Some([if v < 0 then 0x88 else 0x08] + LE(v, WIDTH8)) else Enc(v)
  }

  function DecX(bs: bytes): Parsed<int> {
    if bs == [] then Err
    else
      var h, body := bs[0], bs[1..];
      var n := LengthBits(h);
      if n < WIDTH8 then Err
      else if n == WIDTH8 then
        if |body| < WIDTH8 then Err
        else
          var raw := body[..WIDTH8];
          if SignBit(h) == (SInt(raw) < 0) then Ok(SInt(raw), body[WIDTH8..])
          else Ok(SInt(raw + Fill(FillOf(SignBit(h)), 24)), body[WIDTH8..])
      else DecWithHeader(h, body)
  }

  lemma Pow8()
    ensures Pow256(WIDTH8 - 1) == 0x100_0000_0000_0000 && Pow256(WIDTH8) == 0x1_0000_0000_0000_0000
  {
  }

  lemma Int64Signed(v: int)
    requires Int64(v)
    ensures -Pow256(WIDTH8) <= 2 * v < Pow256(WIDTH8) && Signed256(v)
  {
    hide Pow256;
    Pow8();
    PowAdd(WIDTH8, 24);
    Multiple(Pow256(24), Pow256(WIDTH8));
  }

  lemma FilledValue(body: bytes, neg: bool)
    ensures SInt(body + [FillOf(neg)]) == UInt(body) - if neg then Pow256(|body|) else 0
  {
    hide Pow256, UInt;
    var p, f := Pow256(|body|), FillOf(neg);
    UIntAppend(body, [f]);
    SingleByte(f);
    PowStep(|body|);
    if neg { assert p * f == 255 * p; } else { assert p * f == 0; }
  }

  lemma FilledWord(body: bytes, neg: bool, k: nat)
    requires k > 0
    ensures SInt(body + Fill(FillOf(neg), k)) == UInt(body) - if neg then Pow256(|body|) else 0
  {
    hide Pow256, UInt;
    var f := FillOf(neg);
    FilledValue(body, neg);
    SignExtend(body + [f], k - 1);
    assert body + [f] + Fill(f, k - 1) == body + Fill(f, k);
  }

  /** k bytes of a word are enough exactly when its value lies in
      [-256^k, 256^k): the sign has the header to itself. */
  lemma TrimmedRange(w: bytes, k: nat)
    requires |w| == WORD && k < WORD
    ensures Trimmed(w, FillOf(Negative(w))) <= k <==> -Pow256(k) <= SInt(w) < Pow256(k)
  {
    hide Pow256, UInt, LE;
    SignByte(w);
    if Trimmed(w, FillOf(Negative(w))) <= k { TrimmedFits(w, k); }
    if -Pow256(k) <= SInt(w) < Pow256(k) { FittingTrims(w, k); }
  }

  lemma TrimmedFits(w: bytes, k: nat)
    requires |w| == WORD && k < WORD && Trimmed(w, FillOf(Negative(w))) <= k
    ensures -Pow256(k) <= SInt(w) < Pow256(k)
  {
    hide Pow256, UInt, LE;
    var f := FillOf(Negative(w));
    TrimmedTail(w, f);
    assert w == w[..k] + Fill(f, WORD - k);
    FilledWord(w[..k], Negative(w), WORD - k);
  }

  lemma FittingTrims(w: bytes, k: nat)
    requires |w| == WORD && k < WORD && -Pow256(k) <= SInt(w) < Pow256(k)
    ensures Trimmed(w, FillOf(Negative(w))) <= k
  {
    hide Pow256, UInt, LE;
    var v, p, body := SInt(w), Pow256(k), LE(SInt(w), k);
    var neg := v < 0;
    LEUInt(v, k);
    ModUnique(v, p, if neg then v + p else v, if neg then -1 else 0);
    FilledWord(body, neg, WORD - k);
    SIntLE(w);
    SIntLE(body + Fill(FillOf(neg), WORD - k));
    TrimmedLeast(body, FillOf(neg), WORD - k);
  }

  /** A word whose compact form is shorter than eight bytes is an int64. */
  lemma ShortIsInt64(w: bytes)
    requires |w| == WORD && Trimmed(w, FillOf(Negative(w))) < WIDTH8
    ensures Int64(SInt(w))
  {
    TrimmedFits(w, WIDTH8 - 1);
    Pow8();
  }

  /** With at least eight length bits and bit 0x40 clear, the IntX reader and the
      general Int256 reader agree in value and in bytes consumed; with bit 0x40
      set, the general reader always refuses. */
  lemma FastPathAgrees(bs: bytes)
    requires bs != [] && LengthBits(bs[0]) >= WIDTH8
    ensures !OversizeBit(bs[0]) ==> DecX(bs) == Dec(bs)
    ensures OversizeBit(bs[0]) ==> Dec(bs).Err?
  {
    var h, body := bs[0], bs[1..];
    if LengthBits(h) == WIDTH8 && |body| >= WIDTH8 && !OversizeBit(h) {
      var raw := body[..WIDTH8];
      var w := raw + Fill(FillOf(SignBit(h)), 24);
      assert w[31] == FillOf(SignBit(h));
      if SignBit(h) == (SInt(raw) < 0) {
        SignByte(raw);
        SignExtend(raw, 24);
      }
    }
  }

  /** Among headers that announce at least eight bytes the two readers differ
      exactly where the fast path runs although bit 0x40 is set: eight length
      bits, and eight bytes there to read. */
  lemma FastPathExact(bs: bytes)
    requires bs != [] && LengthBits(bs[0]) >= WIDTH8
    ensures DecX(bs) == Dec(bs) <==> !(OversizeBit(bs[0]) && LengthBits(bs[0]) == WIDTH8 && |bs| > WIDTH8)
  {
    FastPathAgrees(bs);
  }

  /** For instance on the header 0x48. */
  lemma FastPathTakesOversizeBit()
    ensures DecX([0x48] + Fill(0, 8)) == Ok(0, []) && Dec([0x48] + Fill(0, 8)).Err?
  {
    ZeroWord(8);
    assert ([0x48] + Fill(0, 8))[1..][..8] == Fill(0, 8);
  }

  lemma RoundTripX64(v: int, rest: bytes)
    requires Int64(v)
    ensures DecX(EncX(v).value + rest) == Ok(v, rest)
  {
    hide Pow256, UInt;
    var e := EncX(v).value + rest;
    assert e[1..] == LE(v, WIDTH8) + rest;
    assert e[1..][..WIDTH8] == LE(v, WIDTH8) && e[1..][WIDTH8..] == rest;
    Int64Signed(v);
    SignedLE(v, WIDTH8);
  }

  /** A value whose residue takes fewer than eight compact bytes. */
  predicate TooShort(v: int) { -0x100_0000_0000_0000 <= Wrap(v) < 0x100_0000_0000_0000 }

  /** What the writer emits beyond int64 reads back as the residue, unless the
      residue is so small that its header announces fewer than eight bytes, which
      the reader refuses. */
  lemma RoundTripXWide(v: int, rest: bytes)
    requires EncX(v).Some? && !Int64(v)
    ensures DecX(EncX(v).value + rest) == if TooShort(v) then Err else Ok(Wrap(v), rest)
  {
    hide Pow256, UInt, LE, DecWithHeader;
    var e := Enc(v).value + rest;
    var w := Word(v);
    var n := Trimmed(w, FillOf(Negative(w)));
    HeaderBits(n, Negative(w));
    RoundTrip(v, rest);
    TrimmedRange(w, WIDTH8 - 1);
    Pow8();
    assert v != 0 && e[0] == Header(n, Negative(w));
    if n >= WIDTH8 { FastPathAgrees(e); }
  }

  /** IntX returns a written value unchanged exactly on [-2^255, 2^255). */
  lemma RoundTripX(v: int, rest: bytes)
    requires EncX(v).Some?
    ensures DecX(EncX(v).value + rest) == Ok(v, rest) <==> Signed256(v)
  {
    hide Pow256, UInt, LE;
    if Int64(v) {
      Int64Signed(v);
      RoundTripX64(v, rest);
    } else {
      RoundTripXWide(v, rest);
      WrapSigned(v);
      SIntRange(Word(v));
    }
  }
}
