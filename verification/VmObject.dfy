/** VMObject: the VM's self-describing values, as write and read see them. */
module VmObject {
  import opened Bytes
  import Prim
  import Utf8
  import VmBinary
  import VmInteger

  const TAG_NONE := 0
  const TAG_STRUCT := 1
  const TAG_BYTES := 2
  const TAG_NUMBER := 3
  const TAG_STRING := 4
  const TAG_TIMESTAMP := 5
  const TAG_BOOL := 6
  const TAG_ENUM := 7
  const TAG_OBJECT := 8

  /** The bytes an OBJECT must have to be read back as one. */
  const OBJECT_SIZE := 34

  /** A struct lists its entries in the order its dictionary keeps them. */
  datatype Obj =
    | ONone
    | OStruct(items: seq<Pair>)
    | OBytes(data: bytes)
    | ONumber(n: int)
    | OString(s: string)
    | OTime(seconds: int)
    | OBool(b: bool)
    | OEnum(e: int)
    | OObject(raw: bytes)

  datatype Pair = Pair(key: Obj, value: Obj)

  function Tag(o: Obj): byte {
    match o
    case ONone => TAG_NONE
    case OStruct(_) => TAG_STRUCT
    case OBytes(_) => TAG_BYTES
    case ONumber(_) => TAG_NUMBER
    case OString(_) => TAG_STRING
    case OTime(_) => TAG_TIMESTAMP
    case OBool(_) => TAG_BOOL
    case OEnum(_) => TAG_ENUM
    case OObject(_) => TAG_OBJECT
  }

  // ----- dictionaries

  /** items[key] = value: an equal key keeps its place and takes the new value. */
  function Put(items: seq<Pair>, key: Obj, value: Obj): seq<Pair> {
    if items == [] then [Pair(key, value)]
    else if items[0].key == key then [Pair(key, value)] + items[1..]
    else [items[0]] + Put(items[1..], key, value)
  }

  predicate HasKey(items: seq<Pair>, key: Obj) { exists i :: 0 <= i < |items| && items[i].key == key }

  ghost predicate Distinct(items: seq<Pair>) {
    forall i, j :: 0 <= i < j < |items| ==> items[i].key != items[j].key
  }

  // ----- write

  /** What follows the tag, for everything but a struct. */
  function WriteScalar(o: Obj): Option<bytes>
    requires !o.OStruct?
  {
    match o
    case ONone => Some([])
    case OBytes(b) => VmBinary.EncVarBytes(b)
    case ONumber(n) => VmBinary.EncInteger(n)
    case OString(s) => VmBinary.EncString(s)
    case OTime(t) => Prim.EncUnsigned(t, 4)
    case OBool(b) => Some([if b then 1 else 0])
    case OEnum(e) => if 0 <= e <= 0xFF then Some([e]) else None
    case OObject(b) =>
      var inner :- VmBinary.EncVarBytes(b);
      VmBinary.EncVarBytes(inner)
  }

  function Write(o: Obj): (r: Option<bytes>)
    ensures r.Some? ==> r.value != []
    decreases o
  {
    if o.OStruct? then
      var n :- VmBinary.EncVarUint(|o.items|);
      var body :- WriteItems(o.items);
      Some([TAG_STRUCT] + (n + body))
    else
      var body :- WriteScalar(o);
      Some([Tag(o)] + body)
  }

  function WriteItems(items: seq<Pair>): Option<bytes>
    decreases items
  {
    if items == [] then Some([])
    else
      var p :- WritePair(items[0]);
      var more :- WriteItems(items[1..]);
      Some(p + more)
  }

  function WritePair(p: Pair): Option<bytes>
    decreases p
  {
    var k :- Write(p.key);
    var v :- Write(p.value);
    Some(k + v)
  }

  // ----- read

  function AsObject(payload: bytes): Obj {
    if |payload| == OBJECT_SIZE + 1 && payload[0] == OBJECT_SIZE then OObject(payload[1..]) else OBytes(payload)
  }

  /** What follows a tag other than STRUCT. */
  function ReadScalar(tag: byte, bs: bytes): (r: Parsed<Obj>)
    ensures r.Ok? ==> |r.rest| <= |bs|
  {
    if tag == TAG_NONE then Ok(ONone, bs)
    else if tag == TAG_BOOL then
      if bs == [] then Err else Ok(OBool(bs[0] != 0), bs[1..])
    else if tag == TAG_BYTES then
      var (b, rest) :- VmBinary.DecVarBytes(bs);
      Ok(OBytes(b), rest)
    else if tag == TAG_ENUM then
      if bs == [] then Err else Ok(OEnum(bs[0]), bs[1..])
    else if tag == TAG_NUMBER then
      var (n, rest) :- VmBinary.DecInteger(bs);
      Ok(ONumber(n), rest)
    else if tag == TAG_STRING then
      var (s, rest) :- VmBinary.DecString(bs);
      Ok(OString(s), rest)
    else if tag == TAG_TIMESTAMP then
      var (t, rest) :- Prim.DecUnsigned(4, bs);
      Ok(OTime(t), rest)
    else if tag == TAG_OBJECT then
      var (payload, rest) :- VmBinary.DecVarBytes(bs);
      Ok(AsObject(payload), rest)
    else Err
  }

  function Read(bs: bytes): (r: Parsed<Obj>)
    ensures r.Ok? ==> |r.rest| < |bs|
    decreases |bs|, 0
  {
    if bs == [] then Err
    else if bs[0] == TAG_STRUCT then
      var (n, rest) :- VmBinary.DecVarUint(bs[1..]);
      var (items, left) :- ReadItems(n, rest, []);
      Ok(OStruct(items), left)
    else ReadScalar(bs[0], bs[1..])
  }

  /** The loop over n entries; a struct cannot be a key, being unhashable. */
  function ReadItems(n: nat, bs: bytes, done: seq<Pair>): (r: Parsed<seq<Pair>>)
    ensures r.Ok? ==> |r.rest| <= |bs|
    decreases |bs|, 1
  {
    if n == 0 then Ok(done, bs)
    else
      var (key, rest) :- Read(bs);
      var (value, left) :- Read(rest);
      if key.OStruct? then Err else ReadItems(n - 1, left, Put(done, key, value))
  }

  // ----- what reading gives back

  function NormScalar(o: Obj): Option<Obj>
    requires !o.OStruct?
  {
    match o
    case OBytes(b) => if |b| <= VmBinary.MAX_ARRAY_SIZE then Some(o) else None
    case ONumber(n) => if |VmInteger.Padded(n)| <= VmBinary.MAX_ARRAY_SIZE then Some(o) else None
    case OString(s) => if |Utf8.Encode(s)| <= VmBinary.MAX_ARRAY_SIZE then Some(o) else None
    case OObject(b) =>
      var inner :- VmBinary.EncVarBytes(b);
      if |b| == OBJECT_SIZE then Some(o)
      else if |inner| <= VmBinary.MAX_ARRAY_SIZE then Some(OBytes(inner))
      else None
    case _ => Some(o)
  }

  /** A wrong-sized OBJECT comes back as BYTES with its length prefix, and keys
      that become equal merge; None is a value that cannot be read. */
  function Norm(o: Obj): Option<Obj>
    decreases o
  {
    if o.OStruct? then
      var items :- NormItems(o.items, []);
      Some(OStruct(items))
    else NormScalar(o)
  }

  function NormItems(items: seq<Pair>, done: seq<Pair>): Option<seq<Pair>>
    decreases items
  {
    if items == [] then Some(done)
    else
      var p :- NormPair(items[0]);
      NormItems(items[1..], Put(done, p.key, p.value))
  }

  function NormPair(p: Pair): Option<Pair>
    decreases p
  {
    var key :- Norm(p.key);
    var value :- Norm(p.value);
    if key.OStruct? then None else Some(Pair(key, value))
  }

  /** Structs are dictionaries with hashable keys, OBJECTs have 34 bytes. */
  ghost predicate Proper(o: Obj)
    decreases o
  {
    match o
    case OStruct(items) =>
      && Distinct(items)
      && forall i :: 0 <= i < |items| ==>
           !items[i].key.OStruct? && Proper(items[i].key) && Proper(items[i].value)
    case OObject(b) => |b| == OBJECT_SIZE
    case _ => true
  }

  /** Every payload is within the reader's array limit. */
  ghost predicate Fits(o: Obj)
    decreases o
  {
    match o
    case OStruct(items) => forall i :: 0 <= i < |items| ==> Fits(items[i].key) && Fits(items[i].value)
    case OBytes(b) => |b| <= VmBinary.MAX_ARRAY_SIZE
    case ONumber(n) => |VmInteger.Padded(n)| <= VmBinary.MAX_ARRAY_SIZE
    case OString(s) => |Utf8.Encode(s)| <= VmBinary.MAX_ARRAY_SIZE
    case _ => true
  }

  // ----- round trip

  lemma OneByte(b: byte, rest: bytes)
    ensures ([b] + rest)[0] == b && ([b] + rest)[1..] == rest
  {
  }

  lemma PayloadOf(b: bytes)
    requires VmBinary.EncVarBytes(b).Some?
    ensures var inner := VmBinary.EncVarBytes(b).value;
            AsObject(inner) == if |b| == OBJECT_SIZE then OObject(b) else OBytes(inner)
  {
    VmBinary.Widths();
  }

  lemma ScalarBack(o: Obj, rest: bytes)
    requires !o.OStruct? && WriteScalar(o).Some?
    ensures ReadScalar(Tag(o), WriteScalar(o).value + rest)
         == match NormScalar(o) { case None => Err case Some(n) => Ok(n, rest) }
  {
    match o
    case ONone => assert [] + rest == rest;
    case OBytes(b) => VmBinary.VarBytesBack(b, rest);
    case ONumber(n) => NumberBack(n, rest);
    case OString(s) => TextBack(s, rest);
    case OTime(t) => Prim.UnsignedBack(t, 4, rest);
    case OBool(b) => OneByte(if b then 1 else 0, rest);
    case OEnum(e) => OneByte(e, rest);
    case OObject(b) => ObjectBack(b, rest);
  }

  lemma NumberBack(n: int, rest: bytes)
    requires WriteScalar(ONumber(n)).Some?
    ensures ReadScalar(TAG_NUMBER, WriteScalar(ONumber(n)).value + rest)
         == match NormScalar(ONumber(n)) { case None => Err case Some(o) => Ok(o, rest) }
  {
    VmBinary.VarBytesBack(VmInteger.Padded(n), rest);
    VmInteger.PaddedBack(n);
  }

  lemma TextBack(s: string, rest: bytes)
    requires WriteScalar(OString(s)).Some?
    ensures ReadScalar(TAG_STRING, WriteScalar(OString(s)).value + rest)
         == match NormScalar(OString(s)) { case None => Err case Some(o) => Ok(o, rest) }
  {
    VmBinary.VarBytesBack(Utf8.Encode(s), rest);
    Utf8.RoundTrip(s);
  }

  lemma ObjectBack(b: bytes, rest: bytes)
    requires WriteScalar(OObject(b)).Some?
    ensures ReadScalar(TAG_OBJECT, WriteScalar(OObject(b)).value + rest)
         == match NormScalar(OObject(b)) { case None => Err case Some(o) => Ok(o, rest) }
  {
    var inner := VmBinary.EncVarBytes(b).value;
    VmBinary.VarBytesBack(inner, rest);
    VmBinary.Widths();
    PayloadOf(b);
  }

  /** Whatever write emits, in front of any bytes, reads back as the normal form
      and leaves those bytes, or is refused where there is none. */
  lemma {:induction false} WriteRead(o: Obj, rest: bytes)
    requires Write(o).Some?
    ensures Read(Write(o).value + rest) == match Norm(o) { case None => Err case Some(n) => Ok(n, rest) }
    decreases o
  {
    if o.OStruct? {
      var n, body := VmBinary.EncVarUint(|o.items|).value, WriteItems(o.items).value;
      assert Write(o).value + rest == [TAG_STRUCT] + (n + (body + rest));
      OneByte(TAG_STRUCT, n + (body + rest));
      VmBinary.VarUintBack(|o.items|, body + rest);
      ItemsWriteRead(o.items, [], rest);
    } else {
      var body := WriteScalar(o).value;
      assert Write(o).value + rest == [Tag(o)] + (body + rest);
      OneByte(Tag(o), body + rest);
      ScalarBack(o, rest);
    }
  }

  lemma {:induction false} ItemsWriteRead(items: seq<Pair>, done: seq<Pair>, rest: bytes)
    requires WriteItems(items).Some?
    ensures ReadItems(|items|, WriteItems(items).value + rest, done)
         == match NormItems(items, done) { case None => Err case Some(r) => Ok(r, rest) }
    decreases items
  {
    if items == [] {
      assert [] + rest == rest;
    } else {
      var p, more := WritePair(items[0]).value, WriteItems(items[1..]).value;
      assert WriteItems(items).value + rest == p + (more + rest);
      PairWriteRead(|items|, items[0], done, more + rest);
      var n := NormPair(items[0]);
      if n.Some? { ItemsWriteRead(items[1..], Put(done, n.value.key, n.value.value), rest); }
    }
  }

  lemma {:induction false} PairWriteRead(n: nat, p: Pair, done: seq<Pair>, rest: bytes)
    requires n > 0 && WritePair(p).Some?
    ensures ReadItems(n, WritePair(p).value + rest, done)
         == match NormPair(p) { case None => Err case Some(q) => ReadItems(n - 1, rest, Put(done, q.key, q.value)) }
    decreases p
  {
    var k, v := Write(p.key).value, Write(p.value).value;
    assert k + v + rest == k + (v + rest);
    WriteRead(p.key, v + rest);
    WriteRead(p.value, rest);
  }

  // ----- when nothing changes

  lemma {:induction false} PutNew(items: seq<Pair>, key: Obj, value: Obj)
    ensures |Put(items, key, value)| == |items| + if HasKey(items, key) then 0 else 1
    ensures !HasKey(items, key) ==> Put(items, key, value) == items + [Pair(key, value)]
  {
    if items != [] && items[0].key != key {
      PutNew(items[1..], key, value);
      assert HasKey(items, key) <==> HasKey(items[1..], key) by {
        if HasKey(items, key) {
          var i :| 0 <= i < |items| && items[i].key == key;
          assert items[1..][i - 1].key == key;
        }
      }
    }
  }

  /** A merge costs an entry, so a result of full length merged nothing. */
  lemma {:induction false} NothingMerged(items: seq<Pair>, done: seq<Pair>)
    requires NormItems(items, done).Some?
    ensures var r := NormItems(items, done).value;
            && |r| <= |done| + |items|
            && (|r| == |done| + |items| ==>
                  done <= r && (forall i :: 0 <= i < |items| ==> NormPair(items[i]) == Some(r[|done| + i])))
    ensures Distinct(done) && |NormItems(items, done).value| == |done| + |items| ==>
              Distinct(NormItems(items, done).value)
    decreases items
  {
    if items != [] {
      var p := NormPair(items[0]).value;
      var next := Put(done, p.key, p.value);
      PutNew(done, p.key, p.value);
      NothingMerged(items[1..], next);
      var r := NormItems(items, done).value;
      if |r| == |done| + |items| {
        assert next == done + [p];
        assert r[|done|] == next[|done|];
        forall i | 0 <= i < |items| ensures NormPair(items[i]) == Some(r[|done| + i]) {
          if i > 0 { assert NormPair(items[1..][i - 1]) == Some(r[|next| + i - 1]); }
        }
      }
    }
  }

  lemma NewKey(done: seq<Pair>, p: Pair, more: seq<Pair>)
    requires Distinct(done + ([p] + more))
    ensures !HasKey(done, p.key)
  {
    var all := done + ([p] + more);
    assert all[|done|] == p && forall i :: 0 <= i < |done| ==> all[i] == done[i];
  }

  lemma {:induction false} KeepAll(items: seq<Pair>, done: seq<Pair>)
    requires Distinct(done + items)
    requires forall i :: 0 <= i < |items| ==> NormPair(items[i]) == Some(items[i])
    ensures NormItems(items, done) == Some(done + items)
    decreases items
  {
    if items == [] {
      assert done + items == done;
    } else {
      assert [items[0]] + items[1..] == items;
      NewKey(done, items[0], items[1..]);
      PutNew(done, items[0].key, items[0].value);
      assert done + [items[0]] + items[1..] == done + items;
      forall i | 0 <= i < |items[1..]| ensures NormPair(items[1..][i]) == Some(items[1..][i]) {
        assert NormPair(items[i + 1]) == Some(items[i + 1]);
      }
      KeepAll(items[1..], done + [items[0]]);
    }
  }

  /** A value survives a write and a read unchanged exactly when its structs have
      distinct keys that are not structs, its OBJECTs have 34 bytes and its
      payloads are within the reader's limit. */
  lemma {:induction false} SurvivesExactly(o: Obj)
    ensures Norm(o) == Some(o) <==> Proper(o) && Fits(o)
    decreases o
  {
    if o.OStruct? {
      forall i | 0 <= i < |o.items| ensures NormPair(o.items[i]) == Some(o.items[i]) <==> Sound(o.items[i]) {
        PairSurvives(o.items[i]);
      }
      ItemsSurvive(o.items);
    }
  }

  ghost predicate Sound(p: Pair) {
    !p.key.OStruct? && Proper(p.key) && Proper(p.value) && Fits(p.key) && Fits(p.value)
  }

  lemma {:induction false} PairSurvives(p: Pair)
    ensures NormPair(p) == Some(p) <==> Sound(p)
    decreases p
  {
    SurvivesExactly(p.key);
    SurvivesExactly(p.value);
  }

  ghost predicate AllKept(items: seq<Pair>) {
    forall i :: 0 <= i < |items| ==> NormPair(items[i]) == Some(items[i])
  }

  lemma ItemsSurvive(items: seq<Pair>)
    ensures NormItems(items, []) == Some(items) <==> Distinct(items) && AllKept(items)
  {
    if NormItems(items, []) == Some(items) { UnchangedKeeps(items); }
    assert [] + items == items;
    if Distinct(items) && AllKept(items) { KeepAll(items, []); }
  }

  lemma UnchangedKeeps(items: seq<Pair>)
    requires NormItems(items, []) == Some(items)
    ensures Distinct(items) && AllKept(items)
  {
    NothingMerged(items, []);
    forall i | 0 <= i < |items| ensures NormPair(items[i]) == Some(items[i]) {
      assert NormPair(items[i]) == Some(items[0 + i]);
    }
  }

  lemma RoundTrip(o: Obj, rest: bytes)
    requires Write(o).Some?
    ensures Read(Write(o).value + rest) == Ok(o, rest) <==> Proper(o) && Fits(o)
  {
    WriteRead(o, rest);
    SurvivesExactly(o);
  }

  // ----- what reading can produce

  lemma {:induction false} PutDistinct(items: seq<Pair>, key: Obj, value: Obj)
    requires Distinct(items)
    ensures Distinct(Put(items, key, value))
    ensures forall p :: p in Put(items, key, value) ==> p in items || p == Pair(key, value)
  {
    if items != [] && items[0].key != key {
      PutDistinct(items[1..], key, value);
      var r := Put(items[1..], key, value);
      assert forall p :: p in r ==> p.key != items[0].key;
      assert forall i :: 0 <= i < |r| ==> r[i] in r;
    }
  }

  ghost predicate ProperItems(items: seq<Pair>) {
    && Distinct(items)
    && forall p :: p in items ==> !p.key.OStruct? && Proper(p.key) && Proper(p.value)
  }

  lemma PutProper(items: seq<Pair>, key: Obj, value: Obj)
    requires ProperItems(items) && !key.OStruct? && Proper(key) && Proper(value)
    ensures ProperItems(Put(items, key, value))
  {
    PutDistinct(items, key, value);
  }

  /** Every value read is a proper one, whatever the bytes. */
  lemma {:induction false} ReadProper(bs: bytes)
    requires Read(bs).Ok?
    ensures Proper(Read(bs).v)
    decreases |bs|, 0
  {
    if bs[0] == TAG_STRUCT {
      var p := VmBinary.DecVarUint(bs[1..]);
      ReadItemsProper(p.v, p.rest, []);
    }
  }

  lemma {:induction false} ReadItemsProper(n: nat, bs: bytes, done: seq<Pair>)
    requires ReadItems(n, bs, done).Ok? && ProperItems(done)
    ensures ProperItems(ReadItems(n, bs, done).v)
    decreases |bs|, 1
  {
    hide Proper, Put, Read;
    if n > 0 {
      var k := Read(bs);
      var v := Read(k.rest);
      ReadProper(bs);
      ReadProper(k.rest);
      PutProper(done, k.v, v.v);
      ReadItemsProper(n - 1, v.rest, Put(done, k.v, v.v));
    }
  }

  // ----- more input changes nothing

  lemma ScalarExtends(tag: byte, bs: bytes, q: bytes)
    requires ReadScalar(tag, bs).Ok?
    ensures ReadScalar(tag, bs + q) == Ok(ReadScalar(tag, bs).v, ReadScalar(tag, bs).rest + q)
  {
    if tag in {TAG_BOOL, TAG_ENUM} {
      assert (bs + q)[0] == bs[0] && (bs + q)[1..] == bs[1..] + q;
    } else if tag == TAG_TIMESTAMP {
      VmBinary.UnsignedExtends(4, bs, q);
    } else if tag != TAG_NONE {
      VmBinary.VarBytesExtends(bs, q);
    }
  }

  lemma {:induction false} ReadExtends(bs: bytes, q: bytes)
    requires Read(bs).Ok?
    ensures Read(bs + q) == Ok(Read(bs).v, Read(bs).rest + q)
    decreases |bs|, 0
  {
    assert (bs + q)[0] == bs[0] && (bs + q)[1..] == bs[1..] + q;
    if bs[0] == TAG_STRUCT {
      var p := VmBinary.DecVarUint(bs[1..]);
      VmBinary.VarUintExtends(bs[1..], q);
      ReadItemsExtends(p.v, p.rest, [], q);
    } else {
      ScalarExtends(bs[0], bs[1..], q);
    }
  }

  lemma {:induction false} ReadItemsExtends(n: nat, bs: bytes, done: seq<Pair>, q: bytes)
    requires ReadItems(n, bs, done).Ok?
    ensures ReadItems(n, bs + q, done) == Ok(ReadItems(n, bs, done).v, ReadItems(n, bs, done).rest + q)
    decreases |bs|, 1
  {
    if n > 0 {
      var k := Read(bs);
      var v := Read(k.rest);
      ReadExtends(bs, q);
      ReadExtends(k.rest, q);
      ReadItemsExtends(n - 1, v.rest, Put(done, k.v, v.v), q);
    }
  }

  /** No strict prefix of bytes that are one whole object is accepted. */
  lemma NoStrictPrefix(p: bytes, q: bytes)
    requires q != [] && Read(p + q).Ok? && Read(p + q).rest == []
    ensures Read(p).Err?
  {
    if Read(p).Ok? { ReadExtends(p, q); }
  }
}
