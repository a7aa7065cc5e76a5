/** What a schema writes where a struct has no value of the field's name and type,
    byte for byte, and what is read back there. */
module VmDefaults {
  import opened Bytes
  import opened VmData
  import opened FieldOrder
  import opened SchemaCodec
  import opened VmWire
  import opened VmRoundTrip
  import opened VmGet
  import opened VmBytes
  import Int256
  import Prim

  const NOTHING: bytes := [0, 0, 0, 0]

  /** The bytes of an absent value: zeros, or a zero count.  An absent DYNAMIC is an
      ARRAY_DYNAMIC of none, and an ARRAY_STRUCT that nothing defines brings an empty
      schema of its own. */
  function Blank(t: VMType, d: Option<Schema>): bytes
    decreases DefSize(d), 2
  {
    match t
    case TOne(I8) => [0]
    case TOne(I16) => [0, 0]
    case TOne(I32) => [0, 0, 0, 0]
    case TOne(I64) => [0, 0, 0, 0, 0, 0, 0, 0]
    case TOne(I256) => [0]
    case TOne(B16) => Fill(0, 16)
    case TOne(B32) => Fill(0, 32)
    case TOne(B64) => Fill(0, 64)
    case TOne(ZStr) => [0]
    case TDyn => [1] + NOTHING
    case TStruct =>
      if d.None? then NOTHING
      else BlankFields(d.value.fields) + if d.value.flags % 2 == 1 then NOTHING else []
    case TStructs => if d.Some? then NOTHING else NOTHING + NOTHING + [0]
    case _ => NOTHING
  }

  function BlankFields(s: seq<SField>): bytes
    decreases SFieldsSize(s), 0
  {
    if s == [] then [] else Blank(s[0].ty, s[0].def) + BlankFields(s[1..])
  }

  /** The value read back there. */
  function BlankValue(t: VMType, d: Option<Schema>): Value
    decreases DefSize(d), 2
  {
    match t
    case TOne(B16) => VOne(Prim.B16, Prim.Bin(Fill(0, 16)))
    case TOne(B32) => VOne(Prim.B32, Prim.Bin(Fill(0, 32)))
    case TOne(B64) => VOne(Prim.B64, Prim.Bin(Fill(0, 64)))
    case TOne(Blob) => VOne(Prim.Blob, Prim.Bin([]))
    case TOne(ZStr) => VOne(Prim.ZStr, Prim.Txt(""))
    case TOne(k) => VOne(k, Prim.Num(0))
    case TMany(k) => VMany(k, [])
    case TDyn => VDyn(VDyns([]))
    case TDyns => VDyns([])
    case TStruct => VStruct(if d.None? then [] else Sort(BlankValues(d.value.fields)))
    case TStructs => VStructs(if d.None? then Schema([], 0) else d.value, [])
  }

  function BlankValues(s: seq<SField>): seq<Field>
    decreases SFieldsSize(s), 0
  {
    if s == [] then [] else [Field(s[0].name, BlankValue(s[0].ty, s[0].def))] + BlankValues(s[1..])
  }

  // ----- bytes

  lemma ZeroSigned(n: nat)
    ensures Prim.EncSigned(0, n) == Some(Fill(0, n))
  {
    LEZero(n);
  }

  lemma BlankPrim(k: Prim.Kind)
    requires KindTag(k).Some?
    ensures Prim.Enc(k, DefaultPayload(k)) == Some(Blank(TOne(k), None))
  {
    hide Prim.EncSigned, Prim.EncCount, Prim.EncUnsigned;
    match k
    case I16 => ZeroSigned(2); assert Fill(0, 2) == [0, 0];
    case I32 => ZeroSigned(4); assert Fill(0, 4) == NOTHING;
    case I64 => ZeroSigned(8); assert Fill(0, 8) == [0, 0, 0, 0, 0, 0, 0, 0];
    case Blob => ZeroCount(); assert NOTHING + [] == NOTHING;
    case ZStr => assert [] + [0] == [0];
    case _ =>
  }

  lemma BlankArray(k: Prim.Kind)
    ensures Prim.EncArray(k, []) == Some(NOTHING)
  {
    ZeroCount();
    assert NOTHING + [] == NOTHING;
  }

  lemma BlankNamed()
    ensures EncNamed([]) == Some(NOTHING)
  {
    ZeroCount();
    assert NOTHING + [] == NOTHING;
  }

  lemma BlankDyn()
    ensures EncDyns([]) == Some(NOTHING) && EncVar(VDyns([])) == Some([1] + NOTHING)
  {
    ZeroCount();
    assert NOTHING + [] == NOTHING;
    assert EncStatic(Some(VDyns([])), TDyns, None) == EncDyns([]);
  }

  lemma BlankRows(d: Option<Schema>)
    ensures EncRowArray(EMPTY_SCHEMA, [], d) == Some(Blank(TStructs, d))
  {
    ZeroCount();
    assert EncSchema(EMPTY_SCHEMA) == Some(NOTHING + [] + [0]);
    assert NOTHING + ([] + []) == NOTHING;
    assert NOTHING + ((NOTHING + [] + [0]) + []) == NOTHING + NOTHING + [0];
  }

  /** An absent value is written as its blank, whatever the type. */
  lemma {:induction false} MissingBytes(t: VMType, d: Option<Schema>)
    requires EncStatic(None, t, d).Some?
    ensures EncStatic(None, t, d).value == Blank(t, d)
    decreases DefSize(d), 3
  {
    hide Prim.Enc, Prim.EncArray, EncDyns, EncStruct, EncRowArray, EncVar;
    match t
    case TOne(k) => BlankPrim(k);
    case TMany(k) => BlankArray(k);
    case TDyn => BlankDyn();
    case TDyns => BlankDyn();
    case TStruct => MissingStruct(d);
    case TStructs => BlankRows(d);
  }

  lemma {:induction false} MissingStruct(d: Option<Schema>)
    requires EncStruct([], d).Some?
    ensures EncStruct([], d).value == Blank(TStruct, d)
    decreases DefSize(d), 2
  {
    BlankNamed();
    if d.Some? { MissingFields(d.value.fields); }
  }

  lemma {:induction false} MissingFields(s: seq<SField>)
    requires EncBySchema([], s).Some?
    ensures EncBySchema([], s).value == BlankFields(s)
    decreases SFieldsSize(s), 0
  {
    if s != [] {
      MissingBytes(s[0].ty, s[0].def);
      MissingFields(s[1..]);
    }
  }

  /** The struct has no value for the field: none of the name, or its first one is of
      another type. */
  predicate Absent(fs: seq<Field>, f: SField) {
    Get(fs, f.name).None? || TypeOf(Get(fs, f.name).value) != f.ty
  }

  /** The bytes of one field: the struct's first value of that name if it has the
      type, else a blank. */
  function FieldPiece(fs: seq<Field>, f: SField): Option<bytes> {
    if Absent(fs, f) then Some(Blank(f.ty, f.def)) else EncStatic(Get(fs, f.name), f.ty, f.def)
  }

  lemma PieceWritten(fs: seq<Field>, f: SField)
    requires EncStatic(Lookup(fs, f), f.ty, f.def).Some?
    ensures FieldPiece(fs, f) == EncStatic(Lookup(fs, f), f.ty, f.def)
  {
    if Absent(fs, f) { MissingBytes(f.ty, f.def); }
  }

  /** Under a schema every field has its bytes, in the schema's order. */
  lemma {:induction false} FieldBytes(fs: seq<Field>, s: seq<SField>, i: nat)
    requires i < |s| && EncBySchema(fs, s).Some?
    ensures EncBySchema(fs, s[..i]).Some? && FieldPiece(fs, s[i]).Some? && EncBySchema(fs, s[i + 1..]).Some?
    ensures EncBySchema(fs, s).value
         == EncBySchema(fs, s[..i]).value + (FieldPiece(fs, s[i]).value + EncBySchema(fs, s[i + 1..]).value)
    decreases i
  {
    hide EncStatic, FieldPiece, Lookup;
    PieceWritten(fs, s[0]);
    var first, tail := FieldPiece(fs, s[0]).value, EncBySchema(fs, s[1..]).value;
    if i == 0 {
      assert s[..0] == [];
      assert [] + (first + tail) == first + tail;
    } else {
      assert s[1..][..i - 1] == s[..i][1..] && s[1..][i..] == s[i + 1..];
      FieldBytes(fs, s[1..], i - 1);
      var a, b := EncBySchema(fs, s[..i][1..]).value, FieldPiece(fs, s[i]).value + EncBySchema(fs, s[i + 1..]).value;
      assert first + (a + b) == first + a + b;
    }
  }

  // ----- values

  lemma {:induction false} MissingValue(t: VMType, d: Option<Schema>)
    ensures Project(None, t, d) == BlankValue(t, d)
    decreases DefSize(d), 3
  {
    match t
    case TOne(k) => BlankNorm(k);
    case TMany(k) => assert Prim.NormAll(k, []) == [];
    case TDyn => assert NormVar(VDyns([])) == VDyns([]);
    case TDyns =>
    case TStruct => assert Project(None, t, d) == VStruct(ProjectStruct([], d)); MissingProjection(d);
    case TStructs =>
  }

  lemma ZeroByte()
    ensures SInt([0]) == 0
  {
    assert UInt([0]) == 0 + 256 * UInt([]);
  }

  lemma ZeroWord()
    ensures Int256.Wrap(0) == 0
  {
    Int256.WrapSigned(0);
  }

  lemma BlankNorm(k: Prim.Kind)
    ensures VOne(k, Prim.Norm(k, DefaultPayload(k))) == BlankValue(TOne(k), None)
  {
    hide SInt, Int256.Wrap;
    ZeroByte();
    ZeroWord();
    assert 0 % 256 == 0;
  }

  lemma {:induction false} MissingProjection(d: Option<Schema>)
    ensures VStruct(ProjectStruct([], d)) == BlankValue(TStruct, d)
    decreases DefSize(d), 2
  {
    if d.Some? {
      MissingValues(d.value.fields);
      assert ProjectBySchema([], d.value.fields) + [] == ProjectBySchema([], d.value.fields);
    }
  }

  lemma {:induction false} MissingValues(s: seq<SField>)
    ensures ProjectBySchema([], s) == BlankValues(s)
    decreases SFieldsSize(s), 0
  {
    if s != [] {
      MissingValue(s[0].ty, s[0].def);
      MissingValues(s[1..]);
    }
  }

  /** A blank is read back as zero, as empty, or as a struct of blanks. */
  lemma BlankBack(t: VMType, d: Option<Schema>, rest: bytes)
    requires EncStatic(None, t, d).Some? && SoundDef(t, d)
    ensures DecStatic(t, d, Blank(t, d) + rest) == Ok(BlankValue(t, d), rest)
  {
    MissingBytes(t, d);
    MissingValue(t, d);
    StaticBack(None, t, d, rest);
  }

  /** So in a struct read back the field is blank, if the struct had no value for it. */
  lemma AbsentReadsBlank(fs: seq<Field>, s: Schema, i: nat, rest: bytes)
    requires EncStruct(fs, Some(s)).Some? && SoundFields(fs) && SoundSchema(s) && DistinctSNames(s.fields)
    requires i < |s.fields| && Absent(fs, s.fields[i])
    ensures var f := s.fields[i];
            var back := DecStruct(Some(s), EncStruct(fs, Some(s)).value + rest);
            back.Ok? && Get(back.v, f.name) == Some(BlankValue(f.ty, f.def))
  {
    var f := s.fields[i];
    StructBack(fs, Some(s), rest);
    var e := if DynamicExtras(s) then NormFields(Extras(fs, s.fields)) else [];
    GetSorted(ProjectBySchema(fs, s.fields) + e, f.name);
    GetConcat(ProjectBySchema(fs, s.fields), e, f.name);
    ProjectedGet(fs, s.fields, i);
    FieldBytes(fs, s.fields, i);
    MissingValue(f.ty, f.def);
  }
}
