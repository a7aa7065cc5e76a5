/** The VM's types, schemas and self-describing values. */
module VmData {
  import opened Bytes
  import Prim

  /** VMType: an element kind, alone (One) or as an array (Many). */
  datatype VMType = TDyn | TDyns | TStruct | TStructs | TOne(k: Prim.Kind) | TMany(k: Prim.Kind)

  datatype Schema = Schema(fields: seq<SField>, flags: byte)

  /** VMNamedVariableSchema; def is the struct_def of its VMVariableSchema. */
  datatype SField = SField(name: string, ty: VMType, def: Option<Schema>)

  /** VMDynamicVariable: its type tag is its constructor. */
  datatype Value =
    | VDyn(inner: Value)
    | VDyns(vs: seq<Value>)
    | VStruct(fields: seq<Field>)
    | VStructs(own: Schema, rows: seq<Row>)
    | VOne(k: Prim.Kind, x: Prim.PVal)
    | VMany(k: Prim.Kind, xs: seq<Prim.PVal>)

  /** VMNamedDynamicVariable */
  datatype Field = Field(name: string, val: Value)

  /** VMDynamicStruct as an element of a struct array. */
  datatype Row = Row(fields: seq<Field>)

  const EMPTY_SCHEMA := Schema([], 0)

  function TypeOf(v: Value): VMType {
    match v
    case VDyn(_) => TDyn
    case VDyns(_) => TDyns
    case VStruct(_) => TStruct
    case VStructs(_, _) => TStructs
    case VOne(k, _) => TOne(k)
    case VMany(k, _) => TMany(k)
  }

  predicate DynamicExtras(s: Schema) { s.flags % 2 == 1 }

  /** Only STRUCT and ARRAY_STRUCT carry a struct definition on the wire. */
  predicate NeedsDef(t: VMType) { t == TStruct || t == TStructs }

  // ----- type tags

  /** The even tag of an element kind; the odd one after it is its array. */
  function KindTag(k: Prim.Kind): Option<byte> {
    match k
    case Blob => Some(2)
    case I8 => Some(6)
    case I16 => Some(8)
    case I32 => Some(10)
    case I64 => Some(12)
    case I256 => Some(14)
    case B16 => Some(16)
    case B32 => Some(18)
    case B64 => Some(20)
    case ZStr => Some(22)
    case _ => None
  }

  function TagKind(b: byte): Option<Prim.Kind> {
    match b
    case 2 => Some(Prim.Blob)
    case 6 => Some(Prim.I8)
    case 8 => Some(Prim.I16)
    case 10 => Some(Prim.I32)
    case 12 => Some(Prim.I64)
    case 14 => Some(Prim.I256)
    case 16 => Some(Prim.B16)
    case 18 => Some(Prim.B32)
    case 20 => Some(Prim.B64)
    case 22 => Some(Prim.ZStr)
    case _ => None
  }

  function Tag(t: VMType): Option<byte> {
    match t
    case TDyn => Some(0)
    case TDyns => Some(1)
    case TStruct => Some(4)
    case TStructs => Some(5)
    case TOne(k) => KindTag(k)
    case TMany(k) => var b :- KindTag(k); Some(b / 2 * 2 + 1)
  }

  /** VMType(tag); None is the ValueError. */
  function FromTag(b: byte): Option<VMType> {
    match b
    case 0 => Some(TDyn)
    case 1 => Some(TDyns)
    case 4 => Some(TStruct)
    case 5 => Some(TStructs)
    case _ =>
      if b % 2 == 0 then var k :- TagKind(b); Some(TOne(k))
      else var k :- TagKind(b - 1); Some(TMany(k))
  }

  lemma KindTags(k: Prim.Kind, b: byte)
    ensures KindTag(k) == Some(b) <==> TagKind(b) == Some(k)
    ensures KindTag(k).Some? ==> KindTag(k).value % 2 == 0
  {
  }

  /** Tags and types correspond one to one, and the tags are 0 to 23. */
  lemma TagsExact(t: VMType, b: byte)
    ensures Tag(t) == Some(b) <==> FromTag(b) == Some(t)
    ensures FromTag(b).Some? <==> b < 24
  {
    if t.TOne? {
      KindTags(t.k, b);
    } else if t.TMany? {
      if b >= 1 { KindTags(t.k, b - 1); }
      if KindTag(t.k).Some? { KindTags(t.k, KindTag(t.k).value); }
    }
  }

  // ----- sizes, for termination

  function SchemaSize(s: Schema): nat { 1 + SFieldsSize(s.fields) }

  function SFieldsSize(fs: seq<SField>): nat {
    if fs == [] then 0 else 2 + DefSize(fs[0].def) + SFieldsSize(fs[1..])
  }

  function DefSize(d: Option<Schema>): nat { if d.None? then 0 else 1 + SFieldsSize(d.value.fields) }

  function Size(v: Value): nat {
    match v
    case VDyn(inner) => 1 + Size(inner)
    case VDyns(vs) => SizeAll(vs)
    case VStruct(fields) => 2 + SizeFields(fields)
    case VStructs(_, rows) => 2 + SizeRows(rows)
    case VOne(_, _) => 0
    case VMany(_, _) => 0
  }

  function SizeAll(vs: seq<Value>): nat {
    if vs == [] then 0 else 1 + Size(vs[0]) + SizeAll(vs[1..])
  }

  function SizeFields(fs: seq<Field>): nat {
    if fs == [] then 0 else 1 + Size(fs[0].val) + SizeFields(fs[1..])
  }

  function SizeRows(rows: seq<Row>): nat {
    if rows == [] then 0 else 1 + SizeFields(rows[0].fields) + SizeRows(rows[1..])
  }
}
