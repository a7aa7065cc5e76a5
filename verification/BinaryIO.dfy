/** BinaryWriter and BinaryReader: the VM side's growing buffer and moving
    offset, proved against the functions of module VmBinary. */
module BinaryIO {
  import opened Bytes
  import opened Streams
  import Prim
  import Utf8
  import VmBinary
  import VmInteger

  class BinaryWriter {
    var buffer: bytes

    constructor ()
      ensures buffer == []
    {
      buffer := [];
    }

    method Write(data: bytes)
      modifies this
      ensures buffer == old(buffer) + data
    {
      buffer := buffer + data;
    }

    method WriteU8(value: int) returns (ok: bool)
      modifies this
      ensures ok == (0 <= value <= 0xFF)
      ensures buffer == if ok then old(buffer) + [value] else old(buffer)
    {
      ok := 0 <= value <= 0xFF;
      if ok { Write([value]); }
    }

    /** write_u16_le, write_u32_le and write_u64_le; a range error writes nothing. */
    method WriteUnsigned(value: int, width: nat) returns (ok: bool)
      modifies this
      ensures Emits(old(buffer), Prim.EncUnsigned(value, width), ok, buffer)
      ensures !ok ==> buffer == old(buffer)
    {
      ok := Prim.FitsUnsigned(value, width);
      if ok { Write(LE(value, width)); }
    }

    /** A value past 64 bits leaves its 0xFF prefix behind when it raises. */
    method WriteVarUint(value: int) returns (ok: bool)
      modifies this
      ensures Emits(old(buffer), VmBinary.EncVarUint(value), ok, buffer)
      ensures !ok ==> buffer == old(buffer) + if value < 0 then [] else [0xFF]
    {
      if value < 0 { return false; }
      VmBinary.Widths();
      if value < 0xFD {
        ok := WriteU8(value);
      } else if value <= 0xFFFF {
        ok := Tagged(0xFD, value, 2);
      } else if value <= 0xFFFF_FFFF {
        ok := Tagged(0xFE, value, 4);
      } else {
        ok := Tagged(0xFF, value, 8);
      }
    }

    method Tagged(tag: byte, value: int, width: nat) returns (ok: bool)
      modifies this
      ensures ok == Prim.FitsUnsigned(value, width)
      ensures buffer == old(buffer) + ([tag] + if ok then LE(value, width) else [])
    {
      Write([tag]);
      ok := WriteUnsigned(value, width);
    }

    method WriteVarBytes(data: bytes) returns (ok: bool)
      modifies this
      ensures Emits(old(buffer), VmBinary.EncVarBytes(data), ok, buffer)
    {
      ok := WriteVarUint(|data|);
      if ok {
        Write(data);
        ghost var n := VmBinary.EncVarUint(|data|).value;
        assert old(buffer) + n + data == old(buffer) + (n + data);
      }
    }

    method WriteString(s: string) returns (ok: bool)
      modifies this
      ensures Emits(old(buffer), VmBinary.EncString(s), ok, buffer)
    {
      ok := WriteVarBytes(Utf8.Encode(s));
    }

    method WriteBigInteger(v: int) returns (ok: bool)
      modifies this
      ensures Emits(old(buffer), VmBinary.EncInteger(v), ok, buffer)
    {
      ok := WriteVarBytes(VmInteger.Padded(v));
    }
  }

  class BinaryReader {
    const data: bytes
    var offset: nat

    constructor (d: bytes)
      ensures Valid() && data == d && Rest() == d
    {
      data := d;
      offset := 0;
    }

    ghost predicate Valid()
      reads this
    {
      offset <= |data|
    }

    /** The bytes not yet read. */
    ghost function Rest(): bytes
      requires Valid()
      reads this
    {
      data[offset..]
    }

    /** assert_eof */
    method AtEnd() returns (eof: bool)
      requires Valid()
      ensures eof <==> Rest() == []
    {
      eof := offset == |data|;
    }

    /** read; a failed read leaves the offset where it was. */
    method Read(count: nat) returns (r: Option<bytes>)
      requires Valid()
      modifies this
      ensures Valid() && Takes(Prim.Take(count, old(Rest())), r, Rest())
      ensures r.None? ==> offset == old(offset)
    {
      if count > |data| - offset { return None; }
      var start := offset;
      offset := offset + count;
      assert data[start..][..count] == data[start..start + count];
      return Some(data[start..start + count]);
    }

    /** read_u8, and its wider siblings below. */
    method ReadU8() returns (r: Option<byte>)
      requires Valid()
      modifies this
      ensures Valid()
      ensures old(Rest()) == [] ==> r.None?
      ensures old(Rest()) != [] ==> r == Some(old(Rest())[0]) && Rest() == old(Rest())[1..]
    {
      var raw := Read(1);
      r := if raw.None? then None else Some(raw.value[0]);
    }

    method ReadUnsigned(width: nat) returns (r: Option<int>)
      requires Valid()
      modifies this
      ensures Valid() && Takes(Prim.DecUnsigned(width, old(Rest())), r, Rest())
    {
      var raw := Read(width);
      r := if raw.None? then None else Some(UInt(raw.value));
    }

    method ReadVarUint() returns (r: Option<int>)
      requires Valid()
      modifies this
      ensures Valid() && Takes(VmBinary.DecVarUint(old(Rest())), r, Rest())
    {
      var first := ReadU8();
      if first.None? { return None; }
      if first.value == 0xFD { r := ReadUnsigned(2); }
      else if first.value == 0xFE { r := ReadUnsigned(4); }
      else if first.value == 0xFF { r := ReadUnsigned(8); }
      else { r := Some(first.value); }
    }

    /** read_var_bytes: the size is checked before anything is read. */
    method ReadVarBytes() returns (r: Option<bytes>)
      requires Valid()
      modifies this
      ensures Valid() && Takes(VmBinary.DecVarBytes(old(Rest())), r, Rest())
    {
      var size := ReadVarUint();
      if size.None? || size.value > VmBinary.MAX_ARRAY_SIZE { return None; }
      r := Read(size.value);
    }

    method ReadString() returns (r: Option<string>)
      requires Valid()
      modifies this
      ensures Valid() && Takes(VmBinary.DecString(old(Rest())), r, Rest())
    {
      var raw := ReadVarBytes();
      if raw.None? { return None; }
      r := Utf8.Decode(raw.value);
    }

    method ReadBigInteger() returns (r: Option<int>)
      requires Valid()
      modifies this
      ensures Valid() && Takes(VmBinary.DecInteger(old(Rest())), r, Rest())
    {
      var raw := ReadVarBytes();
      r := if raw.None? then None else Some(VmInteger.FromVm(raw.value));
    }
  }
}
