/** The Carbon primitives: for each kind, what the writer emits and what the
    reader takes, as functions of the value and of the remaining bytes. */
module Prim {
  import opened Bytes
  import Int256
  import Utf8

  /** I8 is the VM's byte, which is written modulo 256; U8 is range-checked. */
  datatype Kind =
    | U8 | I8 | I16 | I32 | I64 | U32 | U64
    | B16 | B32 | B64
    | I256 | IntX
    | Blob | Small | ZStr

  datatype PVal = Num(n: int) | Bin(b: bytes) | Txt(s: string)

  // ----- fixed-width pieces

  function Width(k: Kind): nat {
    match k
    case U8 => 1
    case I8 => 1
    case I16 => 2
    case I32 => 4
    case U32 => 4
    case I64 => 8
    case U64 => 8
    case B16 => 16
    case B32 => 32
    case B64 => 64
    case _ => 0
  }

  predicate FitsSigned(v: int, n: nat) { -Pow256(n) <= 2 * v < Pow256(n) }

  predicate FitsUnsigned(v: int, n: nat) { 0 <= v < Pow256(n) }

  function EncSigned(v: int, n: nat): Option<bytes> {
    if FitsSigned(v, n) then Some(LE(v, n)) else None
  }

  function EncUnsigned(v: int, n: nat): Option<bytes> {
    if FitsUnsigned(v, n) then Some(LE(v, n)) else None
  }

  /** CarbonReader.read */
  function Take(n: nat, bs: bytes): Parsed<bytes> {
    if n > |bs| then Err else Ok(bs[..n], bs[n..])
  }

  function DecSigned(n: nat, bs: bytes): Parsed<int> {
    var (b, rest) :- Take(n, bs);
    Ok(SInt(b), rest)
  }

  function DecUnsigned(n: nat, bs: bytes): Parsed<int> {
    var (b, rest) :- Take(n, bs);
    Ok(UInt(b), rest)
  }

  /** An array length: a four-byte signed word. */
  function EncCount(n: nat): Option<bytes> { EncSigned(n, 4) }

  /** read_length: not negative, and no more than the bytes that are left. */
  function DecCount(bs: bytes): (r: Parsed<nat>)
    ensures r.Ok? ==> |r.rest| + 4 == |bs| && r.v <= |r.rest|
  {
    match DecSigned(4, bs)
    case Err => Err
    case Ok(n, rest) => if n < 0 || n > |rest| then Err else Ok(n, rest)
  }

  // ----- text and blobs

  function EncBlob(b: bytes): Option<bytes> {
    var c :- EncCount(|b|);
    Some(c + b)
  }

  function DecBlob(bs: bytes): Parsed<bytes> {
    var (n, rest) :- DecCount(bs);
    Take(n, rest)
  }

  function EncSmall(s: string): Option<bytes> {
    var raw := Utf8.Encode(s);
    if |raw| > 255 then None else Some([|raw|] + raw)
  }

  function DecText(b: bytes, rest: bytes): Parsed<string> {
    match Utf8.Decode(b)
    case None => Err
    case Some(s) => Ok(s, rest)
  }

  function DecSmall(bs: bytes): Parsed<string> {
    if bs == [] then Err
    else
      match Take(bs[0], bs[1..])
      case Err => Err
      case Ok(raw, rest) => DecText(raw, rest)
  }

  function EncZ(s: string): Option<bytes> {
    if '\0' in s then None else Some(Utf8.Encode(s) + [0])
  }

  /** The number of bytes in front of the first zero byte. */
  function UntilZero(bs: bytes): (n: nat)
    ensures n <= |bs| && 0 !in bs[..n]
    ensures n < |bs| ==> bs[n] == 0
  {
    if bs == [] || bs[0] == 0 then 0 else 1 + UntilZero(bs[1..])
  }

  function DecZ(bs: bytes): Parsed<string> {
    var n := UntilZero(bs);
    if n == |bs| then Err else DecText(bs[..n], bs[n + 1..])
  }

  // ----- all kinds together

  function MapNum(p: Parsed<int>): Parsed<PVal> {
    if p.Err? then Err else Ok(Num(p.v), p.rest)
  }

  function MapBin(p: Parsed<bytes>): Parsed<PVal> {
    if p.Err? then Err else Ok(Bin(p.v), p.rest)
  }

  function MapTxt(p: Parsed<string>): Parsed<PVal> {
    if p.Err? then Err else Ok(Txt(p.v), p.rest)
  }

  /** A payload that does not belong to the kind cannot be written. */
  function Enc(k: Kind, x: PVal): Option<bytes> {
    match x
    case Num(n) =>
      (match k
       case I8 => Some([n % 256])
       case U8 => EncUnsigned(n, Width(k))
       case U32 => EncUnsigned(n, Width(k))
       case U64 => EncUnsigned(n, Width(k))
       case I16 => EncSigned(n, Width(k))
       case I32 => EncSigned(n, Width(k))
       case I64 => EncSigned(n, Width(k))
       case I256 => Int256.Enc(n)
       case IntX => Int256.EncX(n)
       case _ => None)
    case Bin(b) =>
      (match k
       case Blob => EncBlob(b)
       case B16 => if |b| == Width(k) then Some(b) else None
       case B32 => if |b| == Width(k) then Some(b) else None
       case B64 => if |b| == Width(k) then Some(b) else None
       case _ => None)
    case Txt(s) =>
      (match k
       case Small => EncSmall(s)
       case ZStr => EncZ(s)
       case _ => None)
  }

  function Dec(k: Kind, bs: bytes): Parsed<PVal> {
    match k
    case U8 => MapNum(DecUnsigned(Width(k), bs))
    case U32 => MapNum(DecUnsigned(Width(k), bs))
    case U64 => MapNum(DecUnsigned(Width(k), bs))
    case I8 => MapNum(DecSigned(Width(k), bs))
    case I16 => MapNum(DecSigned(Width(k), bs))
    case I32 => MapNum(DecSigned(Width(k), bs))
    case I64 => MapNum(DecSigned(Width(k), bs))
    case I256 => MapNum(Int256.Dec(bs))
    case IntX => MapNum(Int256.DecX(bs))
    case B16 => MapBin(Take(Width(k), bs))
    case B32 => MapBin(Take(Width(k), bs))
    case B64 => MapBin(Take(Width(k), bs))
    case Blob => MapBin(DecBlob(bs))
    case Small => MapTxt(DecSmall(bs))
    case ZStr => MapTxt(DecZ(bs))
  }

  /** What a written payload is read back as: itself, except that the two
      kinds written modulo a power of two come back as the signed residue. */
  function Norm(k: Kind, x: PVal): PVal {
    if x.Num? && k == I8 then Num(SInt([x.n % 256]))
    else if x.Num? && k == I256 then Num(Int256.Wrap(x.n))
    else x
  }

  /** IntX writes integers it cannot read back; every other kind reads back
      whatever it writes. */
  predicate Readable(k: Kind, x: PVal) { k == IntX && x.Num? ==> Int256.Signed256(x.n) }

  // ----- arrays of one kind

  function EncAll(k: Kind, xs: seq<PVal>): Option<bytes> {
    if xs == [] then Some([])
    else
      var e :- Enc(k, xs[0]);
      var tail :- EncAll(k, xs[1..]);
      Some(e + tail)
  }

  function EncArray(k: Kind, xs: seq<PVal>): Option<bytes> {
    var c :- EncCount(|xs|);
    var body :- EncAll(k, xs);
    Some(c + body)
  }

  function DecAll(k: Kind, n: nat, bs: bytes): Parsed<seq<PVal>> {
    if n == 0 then Ok([], bs)
    else
      var (x, rest) :- Dec(k, bs);
      var (xs, rest') :- DecAll(k, n - 1, rest);
      Ok([x] + xs, rest')
  }

  function DecArray(k: Kind, bs: bytes): Parsed<seq<PVal>> {
    var (n, rest) :- DecCount(bs);
    DecAll(k, n, rest)
  }

  function NormAll(k: Kind, xs: seq<PVal>): (r: seq<PVal>)
    ensures |r| == |xs|
  {
    seq(|xs|, i requires 0 <= i < |xs| => Norm(k, xs[i]))
  }

  predicate AllReadable(k: Kind, xs: seq<PVal>) { forall x :: x in xs ==> Readable(k, x) }

  // ----- round trips

  lemma Split(a: bytes, b: bytes)
    ensures (a + b)[..|a|] == a && (a + b)[|a|..] == b
  {
  }

  lemma SignedBack(v: int, n: nat, rest: bytes)
    requires EncSigned(v, n).Some?
    ensures DecSigned(n, EncSigned(v, n).value + rest) == Ok(v, rest)
  {
    Split(LE(v, n), rest);
    SignedLE(v, n);
  }

  lemma UnsignedBack(v: int, n: nat, rest: bytes)
    requires EncUnsigned(v, n).Some?
    ensures DecUnsigned(n, EncUnsigned(v, n).value + rest) == Ok(v, rest)
  {
    Split(LE(v, n), rest);
    LEUInt(v, n);
    ModUnique(v, Pow256(n), v, 0);
  }

  /** The guard of read_length passes whenever at least n bytes follow. */
  lemma CountBack(n: nat, rest: bytes)
    requires EncCount(n).Some? && n <= |rest|
    ensures DecCount(EncCount(n).value + rest) == Ok(n, rest)
  {
    SignedBack(n, 4, rest);
  }

  lemma BlobBack(b: bytes, rest: bytes)
    requires EncBlob(b).Some?
    ensures DecBlob(EncBlob(b).value + rest) == Ok(b, rest)
  {
    var c := EncCount(|b|).value;
    assert EncBlob(b).value + rest == c + (b + rest);
    CountBack(|b|, b + rest);
    Split(b, rest);
  }

  lemma SmallBack(s: string, rest: bytes)
    requires EncSmall(s).Some?
    ensures DecSmall(EncSmall(s).value + rest) == Ok(s, rest)
  {
    var raw := Utf8.Encode(s);
    assert (EncSmall(s).value + rest)[1..] == raw + rest;
    Split(raw, rest);
    Utf8.RoundTrip(s);
  }

  lemma {:induction false} UntilZeroAt(a: bytes, rest: bytes)
    requires 0 !in a
    ensures UntilZero(a + [0] + rest) == |a|
  {
    if a == [] {
      assert (a + [0] + rest)[0] == 0;
    } else {
      UntilZeroAt(a[1..], rest);
      assert (a + [0] + rest)[1..] == a[1..] + [0] + rest;
    }
  }

  lemma ZBack(s: string, rest: bytes)
    requires EncZ(s).Some?
    ensures DecZ(EncZ(s).value + rest) == Ok(s, rest)
  {
    var raw := Utf8.Encode(s);
    Utf8.ZeroByte(s);
    UntilZeroAt(raw, rest);
    Split(raw, [0] + rest);
    assert raw + [0] + rest == raw + ([0] + rest);
    Split(raw + [0], rest);
    Utf8.RoundTrip(s);
  }

  lemma I8Back(n: int, rest: bytes)
    ensures DecSigned(1, [n % 256] + rest) == Ok(SInt([n % 256]), rest)
  {
    Split([n % 256], rest);
  }

  lemma NumBack(k: Kind, n: int, rest: bytes)
    requires Enc(k, Num(n)).Some? && Readable(k, Num(n))
    ensures Dec(k, Enc(k, Num(n)).value + rest) == Ok(Norm(k, Num(n)), rest)
  {
    hide LE, SInt, UInt, Pow256, Int256.Wrap, Int256.Enc, Int256.Dec, Int256.EncX, Int256.DecX;
    match k
    case I8 => I8Back(n, rest);
    case U8 => UnsignedBack(n, 1, rest);
    case U32 => UnsignedBack(n, 4, rest);
    case U64 => UnsignedBack(n, 8, rest);
    case I16 => SignedBack(n, 2, rest);
    case I32 => SignedBack(n, 4, rest);
    case I64 => SignedBack(n, 8, rest);
    case I256 => Int256.RoundTrip(n, rest);
    case IntX => Int256.RoundTripX(n, rest);
    case _ => assert false;
  }

  /** Every kind: reading what was written, followed by any bytes, leaves
      exactly those bytes and yields the normalised payload. */
  lemma RoundTrip(k: Kind, x: PVal, rest: bytes)
    requires Enc(k, x).Some? && Readable(k, x)
    ensures Dec(k, Enc(k, x).value + rest) == Ok(Norm(k, x), rest)
  {
    match x
    case Num(n) => NumBack(k, n, rest);
    case Bin(b) =>
      if k == Blob { BlobBack(b, rest); } else { Split(b, rest); }
    case Txt(s) =>
      if k == Small { SmallBack(s, rest); } else { ZBack(s, rest); }
  }

  /** Every primitive takes at least one byte. */
  lemma NonEmpty(k: Kind, x: PVal)
    requires Enc(k, x).Some?
    ensures Enc(k, x).value != []
  {
  }

  lemma {:induction false} AllLength(k: Kind, xs: seq<PVal>)
    requires EncAll(k, xs).Some?
    ensures |EncAll(k, xs).value| >= |xs|
  {
    if xs != [] {
      AllLength(k, xs[1..]);
      NonEmpty(k, xs[0]);
    }
  }

  lemma {:induction false} AllBack(k: Kind, xs: seq<PVal>, rest: bytes)
    requires EncAll(k, xs).Some? && AllReadable(k, xs)
    ensures DecAll(k, |xs|, EncAll(k, xs).value + rest) == Ok(NormAll(k, xs), rest)
  {
    hide Enc, Dec, Norm;
    if xs == [] {
      assert [] + rest == rest;
    } else {
      var e, tail := Enc(k, xs[0]).value, EncAll(k, xs[1..]).value;
      assert EncAll(k, xs).value + rest == e + (tail + rest);
      RoundTrip(k, xs[0], tail + rest);
      AllBack(k, xs[1..], rest);
      assert NormAll(k, xs) == [Norm(k, xs[0])] + NormAll(k, xs[1..]);
    }
  }

  /** Counted arrays of any primitive kind come back element by element. */
  lemma ArrayBack(k: Kind, xs: seq<PVal>, rest: bytes)
    requires EncArray(k, xs).Some? && AllReadable(k, xs)
    ensures DecArray(k, EncArray(k, xs).value + rest) == Ok(NormAll(k, xs), rest)
  {
    var c, body := EncCount(|xs|).value, EncAll(k, xs).value;
    assert EncArray(k, xs).value + rest == c + (body + rest);
    AllLength(k, xs);
    CountBack(|xs|, body + rest);
    AllBack(k, xs, rest);
  }

  /** The normal form is what the reader returns, so it is already normal. */
  lemma NormIdempotent(k: Kind, x: PVal)
    ensures Norm(k, Norm(k, x)) == Norm(k, x)
  {
    if x.Num? && k == I8 {
      var b: byte := x.n % 256;
      SIntLE([b]);
      assert LE(SInt([b]), 1) == [SInt([b]) % 256] + [];
    } else if x.Num? && k == I256 {
      Int256.WrapUnique(x.n);
      Int256.WrapSigned(Int256.Wrap(x.n));
    }
  }

  // ----- more input never changes a successful read

  lemma TakeExtends(n: nat, bs: bytes, q: bytes)
    requires Take(n, bs).Ok?
    ensures Take(n, bs + q) == Ok(Take(n, bs).v, Take(n, bs).rest + q)
  {
    assert (bs + q)[..n] == bs[..n] && (bs + q)[n..] == bs[n..] + q;
  }

  lemma CountExtends(bs: bytes, q: bytes)
    requires DecCount(bs).Ok?
    ensures DecCount(bs + q) == Ok(DecCount(bs).v, DecCount(bs).rest + q)
  {
    TakeExtends(4, bs, q);
  }

  lemma BlobExtends(bs: bytes, q: bytes)
    requires DecBlob(bs).Ok?
    ensures DecBlob(bs + q) == Ok(DecBlob(bs).v, DecBlob(bs).rest + q)
  {
    CountExtends(bs, q);
    TakeExtends(DecCount(bs).v, DecCount(bs).rest, q);
  }

  lemma SmallExtends(bs: bytes, q: bytes)
    requires DecSmall(bs).Ok?
    ensures DecSmall(bs + q) == Ok(DecSmall(bs).v, DecSmall(bs).rest + q)
  {
    assert (bs + q)[1..] == bs[1..] + q;
    TakeExtends(bs[0], bs[1..], q);
  }

  lemma {:induction false} UntilZeroExtends(bs: bytes, q: bytes)
    requires UntilZero(bs) < |bs|
    ensures UntilZero(bs + q) == UntilZero(bs)
  {
    if bs[0] != 0 {
      UntilZeroExtends(bs[1..], q);
      assert (bs + q)[1..] == bs[1..] + q;
    }
  }

  lemma ZExtends(bs: bytes, q: bytes)
    requires DecZ(bs).Ok?
    ensures DecZ(bs + q) == Ok(DecZ(bs).v, DecZ(bs).rest + q)
  {
    UntilZeroExtends(bs, q);
    var n := UntilZero(bs);
    assert (bs + q)[..n] == bs[..n] && (bs + q)[n + 1..] == bs[n + 1..] + q;
  }

  lemma HeaderExtends(h: byte, bs: bytes, q: bytes)
    requires Int256.DecWithHeader(h, bs).Ok?
    ensures Int256.DecWithHeader(h, bs + q)
         == Ok(Int256.DecWithHeader(h, bs).v, Int256.DecWithHeader(h, bs).rest + q)
  {
    var n := Int256.LengthBits(h);
    if h != 0 {
      assert (bs + q)[..n] == bs[..n] && (bs + q)[n..] == bs[n..] + q;
    }
  }

  lemma IntXExtends(bs: bytes, q: bytes)
    requires Int256.DecX(bs).Ok?
    ensures Int256.DecX(bs + q) == Ok(Int256.DecX(bs).v, Int256.DecX(bs).rest + q)
  {
    hide Int256.DecWithHeader;
    var body := bs[1..];
    assert (bs + q)[1..] == body + q;
    if Int256.LengthBits(bs[0]) == 8 {
      assert (body + q)[..8] == body[..8] && (body + q)[8..] == body[8..] + q;
    } else {
      HeaderExtends(bs[0], body, q);
    }
  }

  lemma Consumes(k: Kind, bs: bytes)
    requires Dec(k, bs).Ok?
    ensures |Dec(k, bs).rest| < |bs|
  {
    hide SInt, UInt, Utf8.Decode;
  }

  /** A primitive read that succeeds on bs succeeds alike on bs + q. */
  lemma Extends(k: Kind, bs: bytes, q: bytes)
    requires Dec(k, bs).Ok?
    ensures Dec(k, bs + q) == Ok(Dec(k, bs).v, Dec(k, bs).rest + q)
    ensures |Dec(k, bs).rest| < |bs|
  {
    hide SInt, UInt, Int256.DecX, Int256.DecWithHeader, DecBlob, DecSmall, DecZ;
    Consumes(k, bs);
    match k
    case I256 =>
      assert (bs + q)[1..] == bs[1..] + q;
      HeaderExtends(bs[0], bs[1..], q);
    case IntX => IntXExtends(bs, q);
    case Blob => BlobExtends(bs, q);
    case Small => SmallExtends(bs, q);
    case ZStr => ZExtends(bs, q);
    case _ => TakeExtends(Width(k), bs, q);
  }

  lemma {:induction false} AllExtends(k: Kind, n: nat, bs: bytes, q: bytes)
    requires DecAll(k, n, bs).Ok?
    ensures DecAll(k, n, bs + q) == Ok(DecAll(k, n, bs).v, DecAll(k, n, bs).rest + q)
    ensures |DecAll(k, n, bs).rest| <= |bs|
  {
    hide Dec;
    if n != 0 {
      Extends(k, bs, q);
      AllExtends(k, n - 1, Dec(k, bs).rest, q);
    }
  }

  lemma ArrayExtends(k: Kind, bs: bytes, q: bytes)
    requires DecArray(k, bs).Ok?
    ensures DecArray(k, bs + q) == Ok(DecArray(k, bs).v, DecArray(k, bs).rest + q)
    ensures |DecArray(k, bs).rest| < |bs|
  {
    CountExtends(bs, q);
    AllExtends(k, DecCount(bs).v, DecCount(bs).rest, q);
  }
}
