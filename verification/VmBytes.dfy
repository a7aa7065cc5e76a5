/** Schemas, dynamic values and structs byte by byte. */
module VmBytes {
  import opened Bytes
  import opened VmData
  import opened FieldOrder
  import opened SchemaCodec
  import opened VmWire
  import opened VmRoundTrip
  import Prim

  /** One encoding after another. */
  function Both(a: Option<bytes>, b: Option<bytes>): Option<bytes> {
    if a.Some? && b.Some? then Some(a.value + b.value) else None
  }

  function Count(n: nat): Option<bytes> { if n <= 0x7FFF_FFFF then Some(LE(n, 4)) else None }

  /** The number of a type: even for a single value, odd for an array. */
  function Number(t: VMType): Option<byte> {
    match t
    case TDyn => Some(0)
    case TDyns => Some(1)
    case TOne(Blob) => Some(2)
    case TMany(Blob) => Some(3)
    case TStruct => Some(4)
    case TStructs => Some(5)
    case TOne(I8) => Some(6)
    case TMany(I8) => Some(7)
    case TOne(I16) => Some(8)
    case TMany(I16) => Some(9)
    case TOne(I32) => Some(10)
    case TMany(I32) => Some(11)
    case TOne(I64) => Some(12)
    case TMany(I64) => Some(13)
    case TOne(I256) => Some(14)
    case TMany(I256) => Some(15)
    case TOne(B16) => Some(16)
    case TMany(B16) => Some(17)
    case TOne(B32) => Some(18)
    case TMany(B32) => Some(19)
    case TOne(B64) => Some(20)
    case TMany(B64) => Some(21)
    case TOne(ZStr) => Some(22)
    case TMany(ZStr) => Some(23)
    case _ => None
  }

  lemma TagIsNumber(t: VMType)
    ensures Tag(t) == Number(t)
  {
  }

  lemma CountIs(n: nat)
    ensures Prim.EncCount(n) == Count(n)
  {
    assert Pow256(4) == 0x1_0000_0000;
  }

  // ----- schemas

  /** A schema is its fields behind their count, and its flags. */
  lemma SchemaBytes(s: Schema)
    ensures EncSchema(s) == Both(Both(Count(|s.fields|), EncSFields(s.fields)), Some([s.flags]))
  {
    CountIs(|s.fields|);
  }

  /** A field is its name, its type's number and, for STRUCT and ARRAY_STRUCT only, the
      definition of its structs, an empty schema if it has none. */
  lemma SFieldBytes(f: SField, more: seq<SField>)
    ensures EncSFields([f] + more) == Both(Prim.Enc(Prim.Small, Prim.Txt(f.name)), Both(TypeBytes(f.ty, f.def), EncSFields(more)))
    ensures EncSFields([]) == Some([])
  {
    assert ([f] + more)[1..] == more;
    EmptySchema();
    TagIsNumber(f.ty);
    NumberAlone(f.ty);
  }

  function TypeBytes(t: VMType, d: Option<Schema>): Option<bytes> {
    if t == TStruct || t == TStructs then
      Both(Some([if t == TStruct then 4 else 5]), if d.Some? then EncSchema(d.value) else Some([0, 0, 0, 0, 0]))
    else if Number(t).Some? then Some([Number(t).value])
    else None
  }

  lemma NumberAlone(t: VMType)
    ensures t == TStruct ==> Number(t) == Some(4)
    ensures t == TStructs ==> Number(t) == Some(5)
  {
  }

  lemma EmptySchema()
    ensures EncSchema(Schema([], 0)) == Some([0, 0, 0, 0, 0])
  {
    ZeroCount();
    assert [0, 0, 0, 0] + [] + [0] == [0, 0, 0, 0, 0];
  }

  lemma ZeroCount()
    ensures Prim.EncCount(0) == Some([0, 0, 0, 0])
  {
    LEZero(4);
    assert Fill(0, 4) == [0, 0, 0, 0];
  }

  // ----- values

  /** A self-describing value is its type's number and its payload: a primitive, an
      array of them, another value, values behind their count, a struct, or a struct
      array. */
  lemma VarBytes(v: Value)
    ensures EncVar(v) == Both(if Number(TypeOf(v)).Some? then Some([Number(TypeOf(v)).value]) else None, Payload(v, None))
  {
    TagIsNumber(TypeOf(v));
    PayloadBytes(v, None);
  }

  function Payload(v: Value, given: Option<Schema>): Option<bytes> {
    match v
    case VOne(k, x) => if Number(TOne(k)).Some? then Prim.Enc(k, x) else None
    case VMany(k, xs) => if Number(TMany(k)).Some? then Prim.EncArray(k, xs) else None
    case VDyn(inner) => EncVar(inner)
    case VDyns(vs) => Both(Count(|vs|), EncVars(vs))
    case VStruct(fs) => EncStruct(fs, given)
    case VStructs(own, rows) => RowArray(own, rows, given)
  }

  /** A struct array's count; its own schema unless one is given; then the rows, each
      under the given schema, or under its own if that names a field, or
      self-describing. */
  function RowArray(own: Schema, rows: seq<Row>, given: Option<Schema>): Option<bytes> {
    if given.Some? then Both(Count(|rows|), EncRows(rows, given))
    else Both(Count(|rows|), Both(EncSchema(own), EncRows(rows, if |own.fields| > 0 then Some(own) else None)))
  }

  lemma PayloadBytes(v: Value, given: Option<Schema>)
    ensures EncStatic(Some(v), TypeOf(v), given) == Payload(v, given)
  {
    match v
    case VOne(k, _) => TagIsNumber(TOne(k));
    case VMany(k, _) => TagIsNumber(TMany(k)); KindNumber(k);
    case VDyns(vs) => CountIs(|vs|);
    case VStructs(own, rows) =>
      CountIs(|rows|);
      if given.Some? && EncRows(rows, given).Some? { assert [] + EncRows(rows, given).value == EncRows(rows, given).value; }
    case _ =>
  }

  lemma KindNumber(k: Prim.Kind)
    ensures Number(TMany(k)).Some? <==> KindTag(k).Some?
  {
  }

  lemma VarsBytes(v: Value, more: seq<Value>)
    ensures EncVars([]) == Some([]) && EncVars([v] + more) == Both(EncVar(v), EncVars(more))
  {
    assert ([v] + more)[1..] == more;
  }

  lemma RowsBytes(fs: seq<Field>, more: seq<Row>, used: Option<Schema>)
    ensures EncRows([], used) == Some([])
    ensures EncRows([Row(fs)] + more, used) == Both(EncStruct(fs, used), EncRows(more, used))
  {
    assert ([Row(fs)] + more)[1..] == more;
  }

  // ----- structs

  /** Named values behind their count: each a short text and a value. */
  lemma NamedBytes(f: Field, more: seq<Field>)
    ensures EncNamed(more) == Both(Count(|more|), EncFields(more))
    ensures EncFields([]) == Some([])
    ensures EncFields([f] + more)
         == Both(Prim.Enc(Prim.Small, Prim.Txt(f.name)), Both(EncVar(f.val), EncFields(more)))
  {
    hide EncVar, Prim.EncSmall;
    assert ([f] + more)[1..] == more;
    CountIs(|more|);
  }

  /** Without a schema a struct is its named values, sorted by name.  Under one it is
      the schema's fields, and behind them its other named values if the lowest flag
      admits any. */
  lemma StructBytes(fs: seq<Field>, s: Schema)
    ensures EncStruct(fs, None) == EncNamed(Sort(fs))
    ensures s.flags % 2 == 0 ==> EncStruct(fs, Some(s)) == EncBySchema(fs, s.fields)
    ensures s.flags % 2 == 1 && DistinctSNames(s.fields) ==>
              EncStruct(fs, Some(s)) == Both(EncBySchema(fs, s.fields), EncNamed(Extras(fs, s.fields)))
  {
    if EncBySchema(fs, s.fields).Some? { assert EncBySchema(fs, s.fields).value + [] == EncBySchema(fs, s.fields).value; }
    if DistinctSNames(s.fields) { ShortcutIsExact(fs, s.fields); }
  }
}
