/** Dynamic values and structs on the wire, self-describing or directed by a
    schema: what is written, what is read, and what a written value reads back as. */
module VmWire {
  import opened Bytes
  import opened VmData
  import opened FieldOrder
  import opened SchemaCodec
  import Prim

  // ----- looking fields up

  /** VMDynamicStruct.get: the first field of that name. */
  function Get(fs: seq<Field>, name: string): (r: Option<Value>)
    ensures r.Some? ==> Size(r.value) < SizeFields(fs)
  {
    if fs == [] then None
    else if fs[0].name == name then Some(fs[0].val)
    else Get(fs[1..], name)
  }

  predicate SchemaHas(s: seq<SField>, name: string) { exists i :: 0 <= i < |s| && s[i].name == name }

  /** The value a schema field finds: absent when missing or of another type. */
  function Lookup(fs: seq<Field>, f: SField): (r: Option<Value>)
    ensures r.Some? ==> Size(r.value) < SizeFields(fs) && TypeOf(r.value) == f.ty
  {
    match Get(fs, f.name)
    case None => None
    case Some(v) => if TypeOf(v) == f.ty then Some(v) else None
  }

  /** The fields a schema does not name, in the struct's own order. */
  function Extras(fs: seq<Field>, s: seq<SField>): (r: seq<Field>)
    ensures SizeFields(r) <= SizeFields(fs) && |r| <= |fs|
  {
    if fs == [] then []
    else if SchemaHas(s, fs[0].name) then Extras(fs[1..], s)
    else [fs[0]] + Extras(fs[1..], s)
  }

  /** fields_found in write_with_schema */
  function FoundCount(fs: seq<Field>, s: seq<SField>): (n: nat)
    ensures n <= |s|
  {
    if s == [] then 0 else (if Get(fs, s[0].name).Some? then 1 else 0) + FoundCount(fs, s[1..])
  }

  /** The test for writing a bare zero instead of filtering the extras. */
  predicate Shortcut(fs: seq<Field>, s: seq<SField>) { FoundCount(fs, s) == |s| && |fs| == |s| }

  function WrittenExtras(fs: seq<Field>, s: seq<SField>): (r: seq<Field>)
    ensures SizeFields(r) <= SizeFields(fs)
  {
    if Shortcut(fs, s) then [] else Extras(fs, s)
  }

  /** _default_vm_value; a missing DYNAMIC is written as an empty ARRAY_DYNAMIC. */
  function Default(t: VMType): Value {
    match t
    case TDyn => VDyn(VDyns([]))
    case TDyns => VDyns([])
    case TStruct => VStruct([])
    case TStructs => VStructs(EMPTY_SCHEMA, [])
    case TMany(k) => VMany(k, [])
    case TOne(k) => VOne(k, DefaultPayload(k))
  }

  function DefaultPayload(k: Prim.Kind): Prim.PVal {
    match k
    case Blob => Prim.Bin([])
    case B16 => Prim.Bin(Fill(0, 16))
    case B32 => Prim.Bin(Fill(0, 32))
    case B64 => Prim.Bin(Fill(0, 64))
    case ZStr => Prim.Txt("")
    case _ => Prim.Num(0)
  }

  /** The schema a struct array's elements follow: the one given, else its own
      if that names any field, else none. */
  function RowSchema(given: Option<Schema>, own: Schema): Option<Schema> {
    if given.Some? then given else if own.fields != [] then Some(own) else None
  }

  // ----- writing

  /** VMDynamicVariable.write_carbon */
  function EncVar(v: Value): Option<bytes>
    decreases Size(v) + 1, 0, 9
  {
    var tag :- Tag(TypeOf(v));
    var body :- EncStatic(Some(v), TypeOf(v), None);
    Some([tag] + body)
  }

  /** write_static on a value of the expected type, or on none at all. */
  function EncStatic(ov: Option<Value>, t: VMType, given: Option<Schema>): Option<bytes>
    requires ov.Some? ==> TypeOf(ov.value) == t
    decreases if ov.Some? then Size(ov.value) + 1 else 2, DefSize(given), 8
  {
    match if ov.Some? then ov.value else Default(t)
    case VOne(k, x) => if KindTag(k).Some? then Prim.Enc(k, x) else None
    case VMany(k, xs) => if KindTag(k).Some? then Prim.EncArray(k, xs) else None
    case VDyn(inner) => EncVar(inner)
    case VDyns(vs) => EncDyns(vs)
    case VStruct(fs) => EncStruct(fs, given)
    case VStructs(own, rows) => EncRowArray(own, rows, given)
  }

  /** A struct array carries its own schema unless one is given. */
  function EncRowArray(own: Schema, rows: seq<Row>, given: Option<Schema>): Option<bytes>
    decreases SizeRows(rows) + 2, DefSize(given), 7
  {
    var c :- Prim.EncCount(|rows|);
    var head :- if given.Some? then Some([]) else EncSchema(own);
    var body :- EncRows(rows, RowSchema(given, own));
    Some(c + (head + body))
  }

  /** _write_dynamic_variables */
  function EncDyns(vs: seq<Value>): Option<bytes>
    decreases SizeAll(vs) + 1, 0, 1
  {
    var c :- Prim.EncCount(|vs|);
    var body :- EncVars(vs);
    Some(c + body)
  }

  function EncVars(vs: seq<Value>): Option<bytes>
    decreases SizeAll(vs) + 1, 0, 0
  {
    if vs == [] then Some([])
    else
      var e :- EncVar(vs[0]);
      var tail :- EncVars(vs[1..]);
      Some(e + tail)
  }

  /** VMDynamicStruct.write_with_schema, where no schema means write_carbon:
      sorted, counted, self-describing. */
  function EncStruct(fs: seq<Field>, given: Option<Schema>): Option<bytes>
    decreases SizeFields(fs) + 2, DefSize(given), 7
  {
    if given.None? then EncNamed(Sort(fs))
    else
      var s := given.value;
      var body :- EncBySchema(fs, s.fields);
      var extras :- if DynamicExtras(s) then EncNamed(WrittenExtras(fs, s.fields)) else Some([]);
      Some(body + extras)
  }

  /** _write_named_dynamic_variables */
  function EncNamed(fs: seq<Field>): Option<bytes>
    decreases SizeFields(fs) + 1, 0, 1
  {
    var c :- Prim.EncCount(|fs|);
    var body :- EncFields(fs);
    Some(c + body)
  }

  function EncFields(fs: seq<Field>): Option<bytes>
    decreases SizeFields(fs) + 1, 0, 0
  {
    if fs == [] then Some([])
    else
      var name :- Prim.EncSmall(fs[0].name);
      var body :- EncVar(fs[0].val);
      var tail :- EncFields(fs[1..]);
      Some(name + (body + tail))
  }

  function EncBySchema(fs: seq<Field>, s: seq<SField>): Option<bytes>
    decreases SizeFields(fs) + 2, SFieldsSize(s), 6
  {
    if s == [] then Some([])
    else
      var e :- EncStatic(Lookup(fs, s[0]), s[0].ty, s[0].def);
      var tail :- EncBySchema(fs, s[1..]);
      Some(e + tail)
  }

  function EncRows(rows: seq<Row>, used: Option<Schema>): Option<bytes>
    decreases SizeRows(rows) + 2, 0, 0
  {
    if rows == [] then Some([])
    else
      var e :- EncStruct(rows[0].fields, used);
      var tail :- EncRows(rows[1..], used);
      Some(e + tail)
  }

  // ----- reading

  /** VMDynamicVariable.read_carbon */
  function DecVar(bs: bytes): (r: Parsed<Value>)
    ensures r.Ok? ==> |r.rest| < |bs|
    decreases |bs|, 0, 0, 0
  {
    if bs == [] || FromTag(bs[0]).None? then Err
    else DecStatic(FromTag(bs[0]).value, None, bs[1..])
  }

  /** read_static.  The measure is the bytes left, then the schema left. */
  function DecStatic(t: VMType, given: Option<Schema>, bs: bytes): (r: Parsed<Value>)
    ensures r.Ok? ==> |r.rest| <= |bs| && TypeOf(r.v) == t
    decreases |bs|, DefSize(given), 5, 0
  {
    match t
    case TOne(k) =>
      var (x, rest) :- DecPrim(k, bs);
      Ok(VOne(k, x), rest)
    case TMany(k) =>
      var (xs, rest) :- DecPrims(k, bs);
      Ok(VMany(k, xs), rest)
    case TDyn =>
      var (v, rest) :- DecVar(bs);
      Ok(VDyn(v), rest)
    case TDyns =>
      var (vs, rest) :- DecDyns(bs);
      Ok(VDyns(vs), rest)
    case TStruct =>
      var (fs, rest) :- DecStruct(given, bs);
      Ok(VStruct(fs), rest)
    case TStructs =>
      var (a, rest) :- DecRowArray(given, bs);
      Ok(VStructs(a.0, a.1), rest)
  }

  function DecRowArray(given: Option<Schema>, bs: bytes): (r: Parsed<(Schema, seq<Row>)>)
    ensures r.Ok? ==> |r.rest| < |bs|
    decreases |bs|, DefSize(given), 4, 0
  {
    var (n, rest) :- Prim.DecCount(bs);
    var (own, rest1) :- if given.Some? then Ok(given.value, rest) else DecSchema(rest);
    var (rows, rest2) :- DecRows(n, RowSchema(given, own), rest1);
    Ok((own, rows), rest2)
  }

  function DecPrim(k: Prim.Kind, bs: bytes): (r: Parsed<Prim.PVal>)
    ensures r.Ok? ==> |r.rest| < |bs|
  {
    if KindTag(k).Some? && Prim.Dec(k, bs).Ok? then Prim.Extends(k, bs, []); Prim.Dec(k, bs) else Err
  }

  function DecPrims(k: Prim.Kind, bs: bytes): (r: Parsed<seq<Prim.PVal>>)
    ensures r.Ok? ==> |r.rest| < |bs|
  {
    if KindTag(k).Some? && Prim.DecArray(k, bs).Ok? then Prim.ArrayExtends(k, bs, []); Prim.DecArray(k, bs) else Err
  }

  /** _read_dynamic_variables */
  function DecDyns(bs: bytes): (r: Parsed<seq<Value>>)
    ensures r.Ok? ==> |r.rest| < |bs|
    decreases |bs|, 0, 3, 0
  {
    var (n, rest) :- Prim.DecCount(bs);
    DecVars(n, rest)
  }

  function DecVars(n: nat, bs: bytes): (r: Parsed<seq<Value>>)
    ensures r.Ok? ==> |r.rest| <= |bs|
    decreases |bs|, 0, 1, n
  {
    if n == 0 then Ok([], bs)
    else
      var (v, rest) :- DecVar(bs);
      var (vs, rest') :- DecVars(n - 1, rest);
      Ok([v] + vs, rest')
  }

  /** VMDynamicStruct.read_with_schema; no schema means read_carbon.  Both sort. */
  function DecStruct(given: Option<Schema>, bs: bytes): (r: Parsed<seq<Field>>)
    ensures r.Ok? ==> |r.rest| <= |bs|
    decreases |bs|, DefSize(given), 4, 0
  {
    if given.None? then
      var (fs, rest) :- DecNamed(bs);
      Ok(Sort(fs), rest)
    else
      var s := given.value;
      var (fs, rest) :- DecBySchema(s.fields, bs);
      var (extras, rest') :- if DynamicExtras(s) then DecNamed(rest) else Ok([], rest);
      Ok(Sort(fs + extras), rest')
  }

  /** _read_named_dynamic_variables */
  function DecNamed(bs: bytes): (r: Parsed<seq<Field>>)
    ensures r.Ok? ==> |r.rest| < |bs|
    decreases |bs|, 0, 3, 0
  {
    var (n, rest) :- Prim.DecCount(bs);
    DecFields(n, rest)
  }

  function DecFields(n: nat, bs: bytes): (r: Parsed<seq<Field>>)
    ensures r.Ok? ==> |r.rest| <= |bs|
    decreases |bs|, 0, 2, n
  {
    if n == 0 then Ok([], bs)
    else
      var (name, rest) :- ReadName(bs);
      var (v, rest1) :- DecVar(rest);
      var (tail, rest2) :- DecFields(n - 1, rest1);
      Ok([Field(name, v)] + tail, rest2)
  }

  function DecBySchema(s: seq<SField>, bs: bytes): (r: Parsed<seq<Field>>)
    ensures r.Ok? ==> |r.rest| <= |bs|
    decreases |bs|, SFieldsSize(s), 6, 0
  {
    if s == [] then Ok([], bs)
    else
      var (v, rest) :- DecStatic(s[0].ty, s[0].def, bs);
      var (tail, rest') :- DecBySchema(s[1..], rest);
      Ok([Field(s[0].name, v)] + tail, rest')
  }

  function DecRows(n: nat, used: Option<Schema>, bs: bytes): (r: Parsed<seq<Row>>)
    ensures r.Ok? ==> |r.rest| <= |bs|
    decreases |bs|, DefSize(used), 7, n
  {
    if n == 0 then Ok([], bs)
    else
      var (fs, rest) :- DecStruct(used, bs);
      var (tail, rest') :- DecRows(n - 1, used, rest);
      Ok([Row(fs)] + tail, rest')
  }

  // ----- the value a written one is read back as

  function NormVar(v: Value): Value
    decreases Size(v) + 1, 0, 9
  {
    Project(Some(v), TypeOf(v), None)
  }

  /** A value projected on a type and an optional schema. */
  function Project(ov: Option<Value>, t: VMType, given: Option<Schema>): (r: Value)
    requires ov.Some? ==> TypeOf(ov.value) == t
    ensures TypeOf(r) == t
    decreases if ov.Some? then Size(ov.value) + 1 else 2, DefSize(given), 8
  {
    match if ov.Some? then ov.value else Default(t)
    case VOne(k, x) => VOne(k, Prim.Norm(k, x))
    case VMany(k, xs) => VMany(k, Prim.NormAll(k, xs))
    case VDyn(inner) => VDyn(NormVar(inner))
    case VDyns(vs) => VDyns(NormVars(vs))
    case VStruct(fs) => VStruct(ProjectStruct(fs, given))
    case VStructs(own, rows) =>
      VStructs(if given.Some? then given.value else own, ProjectRows(rows, RowSchema(given, own)))
  }

  function NormVars(vs: seq<Value>): (r: seq<Value>)
    ensures |r| == |vs|
    decreases SizeAll(vs) + 1, 0, 0
  {
    if vs == [] then [] else [NormVar(vs[0])] + NormVars(vs[1..])
  }

  /** The schema's fields, each with the struct's value of that name and type or
      the type's default, then the extras if the schema admits them; sorted. */
  function ProjectStruct(fs: seq<Field>, given: Option<Schema>): seq<Field>
    decreases SizeFields(fs) + 2, DefSize(given), 7
  {
    if given.None? then NormFields(Sort(fs))
    else
      var s := given.value;
      Sort(ProjectBySchema(fs, s.fields) + if DynamicExtras(s) then NormFields(Extras(fs, s.fields)) else [])
  }

  function NormFields(fs: seq<Field>): (r: seq<Field>)
    ensures |r| == |fs|
    decreases SizeFields(fs) + 1, 0, 0
  {
    if fs == [] then [] else [Field(fs[0].name, NormVar(fs[0].val))] + NormFields(fs[1..])
  }

  function ProjectBySchema(fs: seq<Field>, s: seq<SField>): (r: seq<Field>)
    ensures |r| == |s|
    decreases SizeFields(fs) + 2, SFieldsSize(s), 6
  {
    if s == [] then []
    else [Field(s[0].name, Project(Lookup(fs, s[0]), s[0].ty, s[0].def))] + ProjectBySchema(fs, s[1..])
  }

  function ProjectRows(rows: seq<Row>, used: Option<Schema>): (r: seq<Row>)
    ensures |r| == |rows|
    decreases SizeRows(rows) + 2, 0, 0
  {
    if rows == [] then [] else [Row(ProjectStruct(rows[0].fields, used))] + ProjectRows(rows[1..], used)
  }
}
