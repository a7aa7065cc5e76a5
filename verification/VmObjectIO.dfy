/** VMObject.write and VMObject.read as they drive a writer and a reader. */
module VmObjectIO {
  import opened Bytes
  import opened BinaryIO
  import opened Streams
  import opened VmObject
  import Prim
  import VmBinary

  // ----- write

  method WriteObject(o: Obj, w: BinaryWriter) returns (ok: bool)
    modifies w
    ensures Emits(old(w.buffer), Write(o), ok, w.buffer)
    decreases o
  {
    hide WriteItems, WriteScalar, VmBinary.EncVarUint;
    ghost var start := w.buffer;
    w.Write([Tag(o)]);
    if o.OStruct? {
      ok := w.WriteVarUint(|o.items|);
      if !ok { return; }
      ok := WriteEntries(o.items, w);
      if ok {
        ghost var n, body := VmBinary.EncVarUint(|o.items|).value, WriteItems(o.items).value;
        assert start + [TAG_STRUCT] + n + body == start + ([TAG_STRUCT] + (n + body));
      }
    } else {
      ok := WritePayload(o, w);
      if ok { assert start + [Tag(o)] + WriteScalar(o).value == start + ([Tag(o)] + WriteScalar(o).value); }
    }
  }

  method WritePayload(o: Obj, w: BinaryWriter) returns (ok: bool)
    requires !o.OStruct?
    modifies w
    ensures Emits(old(w.buffer), WriteScalar(o), ok, w.buffer)
  {
    match o
    case ONone => return true;
    case OBytes(b) => ok := w.WriteVarBytes(b);
    case ONumber(n) => ok := w.WriteBigInteger(n);
    case OString(s) => ok := w.WriteString(s);
    case OTime(t) => ok := w.WriteUnsigned(t, 4);
    case OBool(b) => ok := w.WriteU8(if b then 1 else 0);
    case OEnum(e) => ok := w.WriteU8(e);
    case OObject(b) =>
      var inner := new BinaryWriter();
      ok := inner.WriteVarBytes(b);
      if !ok { return; }
      ok := w.WriteVarBytes(inner.buffer);
  }

  /** One turn of the loop over entries, behind what has been written. */
  lemma WriteItemsTurn(done: bytes, items: seq<Pair>, i: nat)
    requires i < |items|
    ensures Behind(done, WriteItems(items[i..])) ==
            var p := WritePair(items[i]);
            if p.None? then None else Behind(done + p.value, WriteItems(items[i + 1..]))
  {
    assert items[i..][0] == items[i] && items[i..][1..] == items[i + 1..];
    var p := WritePair(items[i]);
    if p.Some? { BehindMore(done, p.value, WriteItems(items[i + 1..])); }
  }

  method WriteEntries(items: seq<Pair>, w: BinaryWriter) returns (ok: bool)
    modifies w
    ensures Emits(old(w.buffer), WriteItems(items), ok, w.buffer)
    decreases items
  {
    var i := 0;
    assert items[i..] == items;
    while i < |items|
      invariant 0 <= i <= |items|
      invariant Behind(old(w.buffer), WriteItems(items)) == Behind(w.buffer, WriteItems(items[i..]))
    {
      WriteItemsTurn(w.buffer, items, i);
      ok := WriteEntry(items[i], w);
      if !ok { return; }
      i := i + 1;
    }
    assert items[i..] == [];
    BehindAll(w.buffer);
    return true;
  }

  method WriteEntry(p: Pair, w: BinaryWriter) returns (ok: bool)
    modifies w
    ensures Emits(old(w.buffer), WritePair(p), ok, w.buffer)
    decreases p
  {
    ok := WriteObject(p.key, w);
    if !ok { return; }
    ok := WriteObject(p.value, w);
    if ok {
      ghost var k, v := Write(p.key).value, Write(p.value).value;
      assert old(w.buffer) + k + v == old(w.buffer) + (k + v);
    }
  }

  // ----- read

  method ReadObject(r: BinaryReader) returns (out: Option<Obj>)
    requires r.Valid()
    modifies r
    ensures r.Valid() && Takes(Read(old(r.Rest())), out, r.Rest())
    decreases |r.Rest()|, 1
  {
    var tag := r.ReadU8();
    if tag.None? { return None; }
    if tag.value == TAG_STRUCT {
      out := ReadStruct(r);
    } else {
      out := ReadPayload(tag.value, r);
    }
  }

  method ReadStruct(r: BinaryReader) returns (out: Option<Obj>)
    requires r.Valid()
    modifies r
    ensures r.Valid()
    ensures var p := VmBinary.DecVarUint(old(r.Rest()));
            Takes(if p.Err? then Err else AsStruct(ReadItems(p.v, p.rest, [])), out, r.Rest())
    decreases |r.Rest()|, 1
  {
    var count := r.ReadVarUint();
    if count.None? { return None; }
    var items := ReadEntries(count.value, r);
    out := if items.None? then None else Some(OStruct(items.value));
  }

  ghost function AsStruct(p: Parsed<seq<Pair>>): Parsed<Obj> {
    if p.Err? then Err else Ok(OStruct(p.v), p.rest)
  }

  method ReadPayload(tag: byte, r: BinaryReader) returns (out: Option<Obj>)
    requires r.Valid() && tag != TAG_STRUCT
    modifies r
    ensures r.Valid() && Takes(ReadScalar(tag, old(r.Rest())), out, r.Rest())
  {
    if tag == TAG_NONE {
      out := Some(ONone);
    } else if tag == TAG_BOOL {
      var b := r.ReadU8();
      out := if b.None? then None else Some(OBool(b.value != 0));
    } else if tag == TAG_ENUM {
      var b := r.ReadU8();
      out := if b.None? then None else Some(OEnum(b.value));
    } else if tag == TAG_NUMBER {
      var n := r.ReadBigInteger();
      out := if n.None? then None else Some(ONumber(n.value));
    } else if tag == TAG_STRING {
      var s := r.ReadString();
      out := if s.None? then None else Some(OString(s.value));
    } else if tag == TAG_TIMESTAMP {
      var t := r.ReadUnsigned(4);
      out := if t.None? then None else Some(OTime(t.value));
    } else if tag == TAG_BYTES || tag == TAG_OBJECT {
      var b := r.ReadVarBytes();
      out := if b.None? then None else Some(if tag == TAG_BYTES then OBytes(b.value) else AsObject(b.value));
    } else {
      out := None;
    }
  }

  /** One entry; a struct cannot be its key. */
  ghost function NextEntry(bs: bytes): (r: Parsed<Pair>)
    ensures r.Ok? ==> |r.rest| < |bs|
  {
    var (key, rest) :- Read(bs);
    var (value, left) :- Read(rest);
    if key.OStruct? then Err else Ok(Pair(key, value), left)
  }

  method ReadEntry(r: BinaryReader) returns (out: Option<Pair>)
    requires r.Valid()
    modifies r
    ensures r.Valid() && Takes(NextEntry(old(r.Rest())), out, r.Rest())
    decreases |r.Rest()|, 2
  {
    var key := ReadObject(r);
    if key.None? { return None; }
    var value := ReadObject(r);
    if value.None? || key.value.OStruct? { return None; }
    return Some(Pair(key.value, value.value));
  }

  lemma ReadItemsTurn(n: nat, bs: bytes, done: seq<Pair>)
    requires n > 0
    ensures ReadItems(n, bs, done) ==
            var p := NextEntry(bs); if p.Err? then Err else ReadItems(n - 1, p.rest, Put(done, p.v.key, p.v.value))
  {
  }

  lemma ReadItemsDone(bs: bytes, done: seq<Pair>)
    ensures ReadItems(0, bs, done) == Ok(done, bs)
  {
  }

  /** The loop over a struct's entries, filling its dictionary. */
  method ReadEntries(n: nat, r: BinaryReader) returns (out: Option<seq<Pair>>)
    requires r.Valid()
    modifies r
    ensures r.Valid() && Takes(ReadItems(n, old(r.Rest()), []), out, r.Rest())
    decreases |r.Rest()|, 3
  {
    hide ReadItems, Put, NextEntry;
    ghost var all := ReadItems(n, r.Rest(), []);
    var items: seq<Pair> := [];
    var i := 0;
    while i < n
      invariant 0 <= i <= n && r.Valid() && |r.Rest()| <= old(|r.Rest()|)
      invariant all == ReadItems(n - i, r.Rest(), items)
    {
      ReadItemsTurn(n - i, r.Rest(), items);
      var p := ReadEntry(r);
      if p.None? { return None; }
      items := Put(items, p.value.key, p.value.value);
      i := i + 1;
    }
    ReadItemsDone(r.Rest(), items);
    return Some(items);
  }

  /** from_bytes: an object and nothing behind it. */
  method FromBytes(data: bytes) returns (out: Option<Obj>)
    ensures out.Some? <==> Read(data).Ok? && Read(data).rest == []
    ensures out.Some? ==> out.value == Read(data).v
  {
    var r := new BinaryReader(data);
    out := ReadObject(r);
    if out.Some? {
      var eof := r.AtEnd();
      if !eof { out := None; }
    }
  }
}
