/** VM objects byte by byte: the type's number, then the payload. */
module ObjectBytes {
  import opened Bytes
  import opened VmObject
  import Utf8
  import VmBinary
  import VmInteger

  /** A byte string behind its size. */
  function Sized(b: bytes): Option<bytes> {
    var n :- VmBinary.EncVarUint(|b|);
    Some(n + b)
  }

  /** The bytes of an object; None where writing raises. */
  function Image(o: Obj): Option<bytes>
    decreases o
  {
    match o
    case ONone => Some([0])
    case OStruct(items) =>
      var n :- VmBinary.EncVarUint(|items|);
      var body :- Images(items);
      Some([1] + (n + body))
    case OBytes(b) => Tagged(2, Sized(b))
    case ONumber(n) => Tagged(3, Sized(VmInteger.Padded(n)))
    case OString(s) => Tagged(4, Sized(Utf8.Encode(s)))
    case OTime(t) => if 0 <= t < 0x1_0000_0000 then Some([5] + LE(t, 4)) else None
    case OBool(b) => Some(if b then [6, 1] else [6, 0])
    case OEnum(e) => if 0 <= e < 0x100 then Some([7, e]) else None
    case OObject(b) =>
      var inner :- Sized(b);
      Tagged(8, Sized(inner))
  }

  function Tagged(tag: byte, payload: Option<bytes>): Option<bytes> {
    if payload.None? then None else Some([tag] + payload.value)
  }

  /** Keys and values in turn. */
  function Images(items: seq<Pair>): Option<bytes>
    decreases items
  {
    if items == [] then Some([])
    else
      var e :- PairImage(items[0]);
      var more :- Images(items[1..]);
      Some(e + more)
  }

  function PairImage(p: Pair): Option<bytes>
    decreases p
  {
    var k :- Image(p.key);
    var v :- Image(p.value);
    Some(k + v)
  }

  /** An object is written as its image. */
  lemma {:induction false} WritesImage(o: Obj)
    ensures Write(o) == Image(o)
    decreases o
  {
    match o
    case OStruct(items) => WritesImages(items);
    case OTime(t) => assert Pow256(4) == 0x1_0000_0000;
    case OBool(b) => assert [6] + [if b then 1 else 0] == if b then [6, 1] else [6, 0];
    case OEnum(e) => if 0 <= e < 0x100 { assert [7] + [e] == [7, e]; }
    case ONone => assert [0] + [] == [0];
    case _ =>
  }

  lemma {:induction false} WritesImages(items: seq<Pair>)
    ensures WriteItems(items) == Images(items)
    decreases items
  {
    if items != [] {
      WritesPairImage(items[0]);
      WritesImages(items[1..]);
    }
  }

  lemma {:induction false} WritesPairImage(p: Pair)
    ensures WritePair(p) == PairImage(p)
    decreases p
  {
    WritesImage(p.key);
    WritesImage(p.value);
  }

  /** Bytes in a double frame are read as an OBJECT exactly if there are 34 of them. */
  lemma ObjectSize(b: bytes, rest: bytes)
    requires Write(OObject(b)).Some? && |Sized(b).value| <= 0x100_0000
    ensures Read(Write(OObject(b)).value + rest)
         == Ok(if |b| == 34 then OObject(b) else OBytes(Sized(b).value), rest)
  {
    WriteRead(OObject(b), rest);
  }

  /** Bytes are read back exactly up to 16 MiB. */
  lemma BytesLimit(b: bytes, rest: bytes)
    requires Write(OBytes(b)).Some?
    ensures Read(Write(OBytes(b)).value + rest) == if |b| <= 0x100_0000 then Ok(OBytes(b), rest) else Err
  {
    WriteRead(OBytes(b), rest);
  }
}
