/** BinaryWriter and BinaryReader: the VM's variable-length prefixes. */
module VmBinary {
  import opened Bytes
  import Prim
  import Utf8
  import VmInteger

  const MAX_ARRAY_SIZE := 0x100_0000

  /** write_var_uint; None is the range error. */
  function EncVarUint(v: int): Option<bytes> {
    if v < 0 then None
    else if v < 0xFD then Some([v])
    else if v <= 0xFFFF then Some([0xFD] + LE(v, 2))
    else if v <= 0xFFFF_FFFF then Some([0xFE] + LE(v, 4))
    else
      var e :- Prim.EncUnsigned(v, 8);
      Some([0xFF] + e)
  }

  /** read_var_uint */
  function DecVarUint(bs: bytes): (r: Parsed<nat>)
    ensures r.Ok? ==> |r.rest| < |bs|
  {
    if bs == [] then Err
    else if bs[0] == 0xFD then Prim.DecUnsigned(2, bs[1..])
    else if bs[0] == 0xFE then Prim.DecUnsigned(4, bs[1..])
    else if bs[0] == 0xFF then Prim.DecUnsigned(8, bs[1..])
    else Ok(bs[0], bs[1..])
  }

  /** write_var_bytes */
  function EncVarBytes(b: bytes): Option<bytes> {
    var n :- EncVarUint(|b|);
    Some(n + b)
  }

  /** read_var_bytes: the size is checked before anything is read. */
  function DecVarBytes(bs: bytes): (r: Parsed<bytes>)
    ensures r.Ok? ==> |r.rest| < |bs|
  {
    var (n, rest) :- DecVarUint(bs);
    if n > MAX_ARRAY_SIZE then Err else Prim.Take(n, rest)
  }

  function EncString(s: string): Option<bytes> { EncVarBytes(Utf8.Encode(s)) }

  function DecString(bs: bytes): (r: Parsed<string>)
    ensures r.Ok? ==> |r.rest| < |bs|
  {
    var (raw, rest) :- DecVarBytes(bs);
    Prim.DecText(raw, rest)
  }

  function EncInteger(v: int): Option<bytes> { EncVarBytes(VmInteger.Padded(v)) }

  function DecInteger(bs: bytes): (r: Parsed<int>)
    ensures r.Ok? ==> |r.rest| < |bs|
  {
    var (raw, rest) :- DecVarBytes(bs);
    Ok(VmInteger.FromVm(raw), rest)
  }

  lemma Widths()
    ensures Pow256(2) == 0x1_0000 && Pow256(4) == 0x1_0000_0000
  {
  }

  lemma PrefixedBack(tag: byte, v: nat, n: nat, rest: bytes)
    requires Prim.EncUnsigned(v, n).Some?
    ensures ([tag] + LE(v, n) + rest)[0] == tag
    ensures Prim.DecUnsigned(n, ([tag] + LE(v, n) + rest)[1..]) == Ok(v, rest)
  {
    assert ([tag] + LE(v, n) + rest)[1..] == LE(v, n) + rest;
    Prim.UnsignedBack(v, n, rest);
  }

  lemma VarUintBack(v: int, rest: bytes)
    requires EncVarUint(v).Some?
    ensures DecVarUint(EncVarUint(v).value + rest) == Ok(v, rest)
  {
    Widths();
    if v < 0xFD {
      assert ([v] + rest)[1..] == rest;
    } else if v <= 0xFFFF {
      PrefixedBack(0xFD, v, 2, rest);
    } else if v <= 0xFFFF_FFFF {
      PrefixedBack(0xFE, v, 4, rest);
    } else {
      PrefixedBack(0xFF, v, 8, rest);
    }
  }

  lemma VarBytesBack(b: bytes, rest: bytes)
    requires EncVarBytes(b).Some?
    ensures DecVarBytes(EncVarBytes(b).value + rest) == if |b| <= MAX_ARRAY_SIZE then Ok(b, rest) else Err
  {
    var n := EncVarUint(|b|).value;
    assert n + b + rest == n + (b + rest);
    VarUintBack(|b|, b + rest);
    Prim.Split(b, rest);
  }

  // ----- more input changes nothing

  lemma UnsignedExtends(n: nat, bs: bytes, q: bytes)
    requires Prim.DecUnsigned(n, bs).Ok?
    ensures Prim.DecUnsigned(n, bs + q) == Ok(Prim.DecUnsigned(n, bs).v, Prim.DecUnsigned(n, bs).rest + q)
  {
    Prim.TakeExtends(n, bs, q);
  }

  lemma VarUintExtends(bs: bytes, q: bytes)
    requires DecVarUint(bs).Ok?
    ensures DecVarUint(bs + q) == Ok(DecVarUint(bs).v, DecVarUint(bs).rest + q)
  {
    assert (bs + q)[0] == bs[0] && (bs + q)[1..] == bs[1..] + q;
    if bs[0] == 0xFD { UnsignedExtends(2, bs[1..], q); }
    else if bs[0] == 0xFE { UnsignedExtends(4, bs[1..], q); }
    else if bs[0] == 0xFF { UnsignedExtends(8, bs[1..], q); }
  }

  lemma VarBytesExtends(bs: bytes, q: bytes)
    requires DecVarBytes(bs).Ok?
    ensures DecVarBytes(bs + q) == Ok(DecVarBytes(bs).v, DecVarBytes(bs).rest + q)
  {
    VarUintExtends(bs, q);
    Prim.TakeExtends(DecVarUint(bs).v, DecVarUint(bs).rest, q);
  }
}
