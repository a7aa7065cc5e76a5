/** CarbonWriter and CarbonReader: a growing buffer and a moving offset, proved
    against the functions of module Prim. */
module CarbonIO {
  import opened Bytes
  import Int256
  import Prim
  import opened Streams
  import Utf8

  /** One turn of the loop over elements, behind what has been written. */
  lemma EncAllTurn(done: bytes, k: Prim.Kind, xs: seq<Prim.PVal>, i: nat)
    requires i < |xs|
    ensures Behind(done, Prim.EncAll(k, xs[i..])) ==
            var e := Prim.Enc(k, xs[i]);
            if e.None? then None else Behind(done + e.value, Prim.EncAll(k, xs[i + 1..]))
  {
    assert xs[i..][0] == xs[i] && xs[i..][1..] == xs[i + 1..];
    var e := Prim.Enc(k, xs[i]);
    if e.Some? { BehindMore(done, e.value, Prim.EncAll(k, xs[i + 1..])); }
  }

  lemma DecAllTurn(out: seq<Prim.PVal>, k: Prim.Kind, n: nat, bs: bytes)
    requires n > 0
    ensures After(out, Prim.DecAll(k, n, bs)) ==
            var p := Prim.Dec(k, bs); if p.Err? then Err else After(out + [p.v], Prim.DecAll(k, n - 1, p.rest))
  {
    var p := Prim.Dec(k, bs);
    if p.Ok? { AfterMore(out, p.v, Prim.DecAll(k, n - 1, p.rest)); }
  }

  lemma DecAllDone(k: Prim.Kind, bs: bytes)
    ensures Prim.DecAll(k, 0, bs) == Ok([], bs)
  {
  }

  class CarbonWriter {
    var buffer: bytes

    constructor ()
      ensures buffer == []
    {
      buffer := [];
    }

    method Write(data: bytes)
      modifies this
      ensures buffer == old(buffer) + data
    {
      buffer := buffer + data;
    }

    /** write1 */
    method Write1(value: int) returns (ok: bool)
      modifies this
      ensures Emits(old(buffer), Prim.EncUnsigned(value, 1), ok, buffer)
    {
      if value < 0 || value > 0xFF { return false; }
      buffer := buffer + [value];
      assert LE(value, 1) == [value % 256] + LE(value / 256, 0);
      return true;
    }

    /** write2, write4 and write8 */
    method WriteSigned(value: int, width: nat) returns (ok: bool)
      modifies this
      ensures Emits(old(buffer), Prim.EncSigned(value, width), ok, buffer)
    {
      if !Prim.FitsSigned(value, width) { return false; }
      Write(LE(value, width));
      return true;
    }

    /** write4u and write8u */
    method WriteUnsigned(value: int, width: nat) returns (ok: bool)
      modifies this
      ensures Emits(old(buffer), Prim.EncUnsigned(value, width), ok, buffer)
    {
      if !Prim.FitsUnsigned(value, width) { return false; }
      Write(LE(value, width));
      return true;
    }

    /** write_big_int: drop the trailing fill bytes of the word. */
    method WriteBigInt(value: int) returns (ok: bool)
      modifies this
      ensures Emits(old(buffer), Int256.Enc(value), ok, buffer)
    {
      if value == 0 {
        Write([0]);
        return true;
      }
      if !Int256.Writable(value) { return false; }
      var word := Int256.Word(value);
      var fill := Int256.FillOf(Int256.Negative(word));
      var length := |word|;
      assert word[..length] == word;
      while length > 0 && word[length - 1] == fill
        invariant 0 <= length <= |word|
        invariant Int256.Trimmed(word, fill) == Int256.Trimmed(word[..length], fill)
      {
        assert word[..length][..length - 1] == word[..length - 1];
        length := length - 1;
      }
      var header := Int256.Header(length, Int256.Negative(word));
      Write([header]);
      Write(word[..length]);
      assert old(buffer) + [header] + word[..length] == old(buffer) + ([header] + word[..length]);
      return true;
    }

    /** IntX.write_carbon */
    method WriteIntX(value: int) returns (ok: bool)
      modifies this
      ensures Emits(old(buffer), Int256.EncX(value), ok, buffer)
    {
      if Int256.Int64(value) {
        var header: byte := if value < 0 then 0x88 else 0x08;
        Write([header] + LE(value, Int256.WIDTH8));
        return true;
      }
      ok := WriteBigInt(value);
    }

    /** write_byte_array */
    method WriteByteArray(data: bytes) returns (ok: bool)
      modifies this
      ensures Emits(old(buffer), Prim.EncBlob(data), ok, buffer)
    {
      ok := WriteSigned(|data|, 4);
      if ok {
        Write(data);
        var c := Prim.EncCount(|data|).value;
        assert old(buffer) + c + data == old(buffer) + (c + data);
      }
    }

    /** SmallString.write_carbon, its length check included. */
    method WriteSmall(s: string) returns (ok: bool)
      modifies this
      ensures Emits(old(buffer), Prim.EncSmall(s), ok, buffer)
    {
      var raw := Utf8.Encode(s);
      if |raw| > 255 { return false; }
      Write([|raw|]);
      Write(raw);
      assert old(buffer) + [|raw|] + raw == old(buffer) + ([|raw|] + raw);
      return true;
    }

    /** write_string_z */
    method WriteStringZ(s: string) returns (ok: bool)
      modifies this
      ensures Emits(old(buffer), Prim.EncZ(s), ok, buffer)
    {
      if '\0' in s { return false; }
      Write(Utf8.Encode(s));
      Write([0]);
      assert old(buffer) + Utf8.Encode(s) + [0] == old(buffer) + (Utf8.Encode(s) + [0]);
      return true;
    }

    method WriteNum(k: Prim.Kind, n: int) returns (ok: bool)
      modifies this
      ensures Emits(old(buffer), Prim.Enc(k, Prim.Num(n)), ok, buffer)
    {
      match k
      case I8 => Write([n % 256]); ok := true;
      case U8 => ok := Write1(n);
      case U32 => ok := WriteUnsigned(n, 4);
      case U64 => ok := WriteUnsigned(n, 8);
      case I16 => ok := WriteSigned(n, 2);
      case I32 => ok := WriteSigned(n, 4);
      case I64 => ok := WriteSigned(n, 8);
      case I256 => ok := WriteBigInt(n);
      case IntX => ok := WriteIntX(n);
      case _ => ok := false;
    }

    method WriteBin(k: Prim.Kind, b: bytes) returns (ok: bool)
      modifies this
      ensures Emits(old(buffer), Prim.Enc(k, Prim.Bin(b)), ok, buffer)
    {
      if k == Prim.Blob {
        ok := WriteByteArray(b);
      } else if k in {Prim.B16, Prim.B32, Prim.B64} && |b| == Prim.Width(k) {
        Write(b);
        ok := true;
      } else {
        ok := false;
      }
    }

    /** One primitive of any kind. */
    method WritePrim(k: Prim.Kind, x: Prim.PVal) returns (ok: bool)
      modifies this
      ensures Emits(old(buffer), Prim.Enc(k, x), ok, buffer)
    {
      match x
      case Num(n) => ok := WriteNum(k, n);
      case Bin(b) => ok := WriteBin(k, b);
      case Txt(s) =>
        if k == Prim.Small { ok := WriteSmall(s); }
        else if k == Prim.ZStr { ok := WriteStringZ(s); }
        else { ok := false; }
    }

    /** write_int_array, write_big_int_array, write_string_z_array and
        write_byte_arrays: a count, then each element. */
    method WriteArray(k: Prim.Kind, xs: seq<Prim.PVal>) returns (ok: bool)
      modifies this
      ensures Emits(old(buffer), Prim.EncArray(k, xs), ok, buffer)
    {
      ok := WriteSigned(|xs|, 4);
      if !ok { return; }
      ok := WriteEach(k, xs);
      if ok {
        ghost var c, body := Prim.EncCount(|xs|).value, Prim.EncAll(k, xs).value;
        assert old(buffer) + c + body == old(buffer) + (c + body);
      }
    }

    method WriteEach(k: Prim.Kind, xs: seq<Prim.PVal>) returns (ok: bool)
      modifies this
      ensures Emits(old(buffer), Prim.EncAll(k, xs), ok, buffer)
    {
      var i := 0;
      assert xs[i..] == xs;
      while i < |xs|
        invariant 0 <= i <= |xs|
        invariant Behind(old(buffer), Prim.EncAll(k, xs)) == Behind(buffer, Prim.EncAll(k, xs[i..]))
      {
        EncAllTurn(buffer, k, xs, i);
        ok := WritePrim(k, xs[i]);
        if !ok { return; }
        i := i + 1;
      }
      assert xs[i..] == [];
      BehindAll(buffer);
      return true;
    }
  }

  /** The word a reader rebuilds: the bytes read, then the fill byte up to 32. */
  method Refill(raw: bytes, fill: byte) returns (r: bytes)
    requires |raw| <= Int256.WORD
    ensures r == raw + Fill(fill, Int256.WORD - |raw|)
  {
    var word := new byte[Int256.WORD](_ => 0);
    forall i | 0 <= i < |raw| {
      word[i] := raw[i];
    }
    var index := |raw|;
    while index < 32
      modifies word
      invariant |raw| <= index <= 32
      invariant word[..|raw|] == raw
      invariant forall i :: |raw| <= i < index ==> word[i] == fill
    {
      word[index] := fill;
      index := index + 1;
    }
    return word[..];
  }

  class CarbonReader {
    const data: bytes
    var offset: nat

    constructor (d: bytes)
      ensures Valid() && data == d && Rest() == d
    {
      data := d;
      offset := 0;
    }

    ghost predicate Valid()
      reads this
    {
      offset <= |data|
    }

    /** The bytes not yet read. */
    ghost function Rest(): bytes
      requires Valid()
      reads this
    {
      data[offset..]
    }

    /** assert_eof */
    method AtEnd() returns (eof: bool)
      requires Valid()
      ensures eof <==> Rest() == []
    {
      eof := offset == |data|;
    }

    /** read; a failed read leaves the offset where it was. */
    method Read(count: int) returns (r: Option<bytes>)
      requires Valid()
      modifies this
      ensures Valid()
      ensures count < 0 ==> r.None?
      ensures count >= 0 ==> Takes(Prim.Take(count, old(Rest())), r, Rest())
      ensures r.None? ==> offset == old(offset)
    {
      if count < 0 || count > |data| - offset { return None; }
      var start := offset;
      offset := offset + count;
      assert data[start..][..count] == data[start..start + count];
      return Some(data[start..start + count]);
    }

    method ReadSigned(width: nat) returns (r: Option<int>)
      requires Valid()
      modifies this
      ensures Valid() && Takes(Prim.DecSigned(width, old(Rest())), r, Rest())
    {
      var raw := Read(width);
      r := if raw.None? then None else Some(SInt(raw.value));
    }

    method ReadUnsigned(width: nat) returns (r: Option<int>)
      requires Valid()
      modifies this
      ensures Valid() && Takes(Prim.DecUnsigned(width, old(Rest())), r, Rest())
    {
      var raw := Read(width);
      r := if raw.None? then None else Some(UInt(raw.value));
    }

    /** read_length */
    method ReadLength() returns (r: Option<nat>)
      requires Valid()
      modifies this
      ensures Valid() && Takes(Prim.DecCount(old(Rest())), r, Rest())
    {
      var n := ReadSigned(4);
      if n.None? || n.value < 0 || n.value > |data| - offset { return None; }
      return Some(n.value);
    }

    /** read_big_int_with_header: refill the word, then check its sign. */
    method ReadBigIntWithHeader(header: byte) returns (r: Option<int>)
      requires Valid()
      modifies this
      ensures Valid() && Takes(Int256.DecWithHeader(header, old(Rest())), r, Rest())
    {
      if header == 0 { return Some(0); }
      var length := Int256.LengthBits(header);
      if Int256.OversizeBit(header) || length > Int256.WORD { return None; }
      var fill := Int256.FillOf(Int256.SignBit(header));
      var raw := Read(length);
      if raw.None? { return None; }
      var word := Refill(raw.value, fill);
      if Int256.Negative(word) != Int256.SignBit(header) { return None; }
      return Some(SInt(word));
    }

    method ReadBigInt() returns (r: Option<int>)
      requires Valid()
      modifies this
      ensures Valid() && Takes(Int256.Dec(old(Rest())), r, Rest())
    {
      var header := Read(1);
      if header.None? { return None; }
      r := ReadBigIntWithHeader(header.value[0]);
    }

    /** IntX.read_carbon */
    method ReadIntX() returns (r: Option<int>)
      requires Valid()
      modifies this
      ensures Valid() && Takes(Int256.DecX(old(Rest())), r, Rest())
    {
      var head := Read(1);
      if head.None? { return None; }
      var header := head.value[0];
      var length := Int256.LengthBits(header);
      if length < 8 { return None; }
      if length > 8 {
        r := ReadBigIntWithHeader(header);
        return;
      }
      var raw := Read(8);
      if raw.None? { return None; }
      var value := SInt(raw.value);
      if Int256.SignBit(header) == (value < 0) { return Some(value); }
      return Some(SInt(raw.value + Fill(Int256.FillOf(Int256.SignBit(header)), 24)));
    }

    method ReadByteArray() returns (r: Option<bytes>)
      requires Valid()
      modifies this
      ensures Valid() && Takes(Prim.DecBlob(old(Rest())), r, Rest())
    {
      var n := ReadLength();
      if n.None? { return None; }
      r := Read(n.value);
    }

    /** SmallString.read_carbon */
    method ReadSmall() returns (r: Option<string>)
      requires Valid()
      modifies this
      ensures Valid() && Takes(Prim.DecSmall(old(Rest())), r, Rest())
    {
      var n := Read(1);
      if n.None? { return None; }
      var raw := Read(n.value[0]);
      if raw.None? { return None; }
      r := Utf8.Decode(raw.value);
    }

    /** read_string_z: scan for the zero byte. */
    method ReadStringZ() returns (r: Option<string>)
      requires Valid()
      modifies this
      ensures Valid() && Takes(Prim.DecZ(old(Rest())), r, Rest())
    {
      var start := offset;
      while true
        invariant start <= offset <= |data|
        invariant Prim.UntilZero(data[start..]) == offset - start + Prim.UntilZero(data[offset..])
        decreases |data| - offset
      {
        if offset >= |data| { return None; }
        if data[offset] == 0 { break; }
        assert data[offset..][1..] == data[offset + 1..];
        offset := offset + 1;
      }
      var raw := data[start..offset];
      assert data[start..][..offset - start] == raw;
      offset := offset + 1;
      r := Utf8.Decode(raw);
    }

    method ReadNum(k: Prim.Kind) returns (r: Option<int>)
      requires Valid()
      requires k !in {Prim.B16, Prim.B32, Prim.B64, Prim.Blob, Prim.Small, Prim.ZStr}
      modifies this
      ensures Valid()
      ensures Takes(Prim.Dec(k, old(Rest())), if r.None? then None else Some(Prim.Num(r.value)), Rest())
    {
      if k == Prim.I256 { r := ReadBigInt(); }
      else if k == Prim.IntX { r := ReadIntX(); }
      else if k in {Prim.U8, Prim.U32, Prim.U64} { r := ReadUnsigned(Prim.Width(k)); }
      else { r := ReadSigned(Prim.Width(k)); }
    }

    /** One primitive of any kind. */
    method ReadPrim(k: Prim.Kind) returns (r: Option<Prim.PVal>)
      requires Valid()
      modifies this
      ensures Valid() && Takes(Prim.Dec(k, old(Rest())), r, Rest())
    {
      if k in {Prim.B16, Prim.B32, Prim.B64} {
        var b := Read(Prim.Width(k));
        r := if b.None? then None else Some(Prim.Bin(b.value));
      } else if k == Prim.Blob {
        var b := ReadByteArray();
        r := if b.None? then None else Some(Prim.Bin(b.value));
      } else if k == Prim.Small {
        var s := ReadSmall();
        r := if s.None? then None else Some(Prim.Txt(s.value));
      } else if k == Prim.ZStr {
        var s := ReadStringZ();
        r := if s.None? then None else Some(Prim.Txt(s.value));
      } else {
        var n := ReadNum(k);
        r := if n.None? then None else Some(Prim.Num(n.value));
      }
    }

    /** read_int_array, read_big_int_array, read_string_z_array and
        read_byte_arrays. */
    method ReadArray(k: Prim.Kind) returns (r: Option<seq<Prim.PVal>>)
      requires Valid()
      modifies this
      ensures Valid() && Takes(Prim.DecArray(k, old(Rest())), r, Rest())
    {
      var n := ReadLength();
      if n.None? { return None; }
      r := ReadEach(k, n.value);
    }

    method ReadEach(k: Prim.Kind, n: nat) returns (r: Option<seq<Prim.PVal>>)
      requires Valid()
      modifies this
      ensures Valid() && Takes(Prim.DecAll(k, n, old(Rest())), r, Rest())
    {
      hide Prim.DecAll, Prim.Dec;
      ghost var all := Prim.DecAll(k, n, Rest());
      var out: seq<Prim.PVal> := [];
      var i := 0;
      AfterNothing(all);
      while i < n
        invariant 0 <= i <= n && Valid()
        invariant all == After(out, Prim.DecAll(k, n - i, Rest()))
      {
        DecAllTurn(out, k, n - i, Rest());
        var x := ReadPrim(k);
        if x.None? { return None; }
        out := out + [x.value];
        i := i + 1;
      }
      DecAllDone(k, Rest());
      AfterAll(out, Rest());
      return Some(out);
    }
  }
}
