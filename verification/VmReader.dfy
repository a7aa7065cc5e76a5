/** read_carbon, read_static and read_with_schema as they drive a reader. */
module VmReader {
  import opened Bytes
  import opened CarbonIO
  import opened VmData
  import opened FieldOrder
  import opened SchemaCodec
  import opened VmWire
  import Prim
  import opened Streams

  // ----- schemas

  method ReadSchema(r: CarbonReader) returns (out: Option<Schema>)
    requires r.Valid()
    modifies r
    ensures r.Valid() && Takes(DecSchema(old(r.Rest())), out, r.Rest())
    decreases |r.Rest()|, 1, 0
  {
    var n := r.ReadLength();
    if n.None? { return None; }
    var fields := ReadSFields(n.value, r);
    if fields.None? { return None; }
    var flags := r.Read(1);
    if flags.None? { return None; }
    return Some(Schema(fields.value, flags.value[0]));
  }

  method ReadVarSchema(r: CarbonReader) returns (out: Option<(VMType, Option<Schema>)>)
    requires r.Valid()
    modifies r
    ensures r.Valid() && Takes(DecVarSchema(old(r.Rest())), out, r.Rest())
    decreases |r.Rest()|, 0, 0
  {
    var tag := r.Read(1);
    if tag.None? { return None; }
    var t := FromTag(tag.value[0]);
    if t.None? { return None; }
    if !NeedsDef(t.value) { return Some((t.value, None)); }
    var s := ReadSchema(r);
    if s.None? { return None; }
    return Some((t.value, Some(s.value)));
  }

  ghost function NamedSchema(bs: bytes): (r: Parsed<SField>)
    ensures r.Ok? ==> |r.rest| < |bs|
  {
    var (name, rest) :- ReadName(bs);
    var (ty, rest1) :- DecVarSchema(rest);
    Ok(SField(name, ty.0, ty.1), rest1)
  }

  /** What the loop over fields will have read, out being what it has. */
  ghost function SFieldsLeft(out: seq<SField>, n: nat, bs: bytes): Parsed<seq<SField>> {
    After(out, DecSFields(n, bs))
  }

  lemma SFieldsTurn(out: seq<SField>, n: nat, bs: bytes)
    requires n > 0
    ensures SFieldsLeft(out, n, bs) ==
            var f := NamedSchema(bs); if f.Err? then Err else SFieldsLeft(out + [f.v], n - 1, f.rest)
  {
    var f := NamedSchema(bs);
    if f.Ok? { AfterMore(out, f.v, DecSFields(n - 1, f.rest)); }
  }

  lemma SFieldsDone(bs: bytes)
    ensures DecSFields(0, bs) == Ok([], bs)
  {
  }

  /** VMNamedVariableSchema.read_carbon */
  method ReadNamedSchema(r: CarbonReader) returns (out: Option<SField>)
    requires r.Valid()
    modifies r
    ensures r.Valid() && Takes(NamedSchema(old(r.Rest())), out, r.Rest())
    decreases |r.Rest()|, 1, 0
  {
    var name := r.ReadSmall();
    if name.None? { return None; }
    var ty := ReadVarSchema(r);
    if ty.None? { return None; }
    return Some(SField(name.value, ty.value.0, ty.value.1));
  }

  method ReadSFields(n: nat, r: CarbonReader) returns (out: Option<seq<SField>>)
    requires r.Valid()
    modifies r
    ensures r.Valid() && Takes(DecSFields(n, old(r.Rest())), out, r.Rest())
    decreases |r.Rest()|, 2, n
  {
    hide DecSFields, NamedSchema;
    var fields: seq<SField> := [];
    var i := 0;
    AfterNothing(DecSFields(n, r.Rest()));
    while i < n
      invariant 0 <= i <= n && r.Valid() && |r.Rest()| <= old(|r.Rest()|)
      invariant DecSFields(n, old(r.Rest())) == SFieldsLeft(fields, n - i, r.Rest())
    {
      SFieldsTurn(fields, n - i, r.Rest());
      var f := ReadNamedSchema(r);
      if f.None? { return None; }
      fields, i := fields + [f.value], i + 1;
    }
    SFieldsDone(r.Rest());
    AfterAll(fields, r.Rest());
    return Some(fields);
  }

  // ----- values

  /** VMDynamicVariable.read_carbon */
  method ReadVar(r: CarbonReader) returns (out: Option<Value>)
    requires r.Valid()
    modifies r
    ensures r.Valid() && Takes(DecVar(old(r.Rest())), out, r.Rest())
    decreases |r.Rest()|, 0, 0, 0
  {
    var tag := r.Read(1);
    if tag.None? { return None; }
    var t := FromTag(tag.value[0]);
    if t.None? { return None; }
    out := ReadStatic(t.value, None, r);
  }

  method ReadStatic(t: VMType, given: Option<Schema>, r: CarbonReader) returns (out: Option<Value>)
    requires r.Valid()
    modifies r
    ensures r.Valid() && Takes(DecStatic(t, given, old(r.Rest())), out, r.Rest())
    decreases |r.Rest()|, DefSize(given), 5, 0
  {
    match t
    case TOne(k) =>
      if KindTag(k).None? { return None; }
      var x := r.ReadPrim(k);
      if x.None? { return None; }
      return Some(VOne(k, x.value));
    case TMany(k) =>
      if KindTag(k).None? { return None; }
      var xs := r.ReadArray(k);
      if xs.None? { return None; }
      return Some(VMany(k, xs.value));
    case TDyn =>
      var v := ReadVar(r);
      if v.None? { return None; }
      return Some(VDyn(v.value));
    case TDyns =>
      var vs := ReadDyns(r);
      if vs.None? { return None; }
      return Some(VDyns(vs.value));
    case TStruct =>
      var fs := ReadStruct(given, r);
      if fs.None? { return None; }
      return Some(VStruct(fs.value));
    case TStructs =>
      var a := ReadRowArray(given, r);
      if a.None? { return None; }
      return Some(VStructs(a.value.0, a.value.1));
  }

  method ReadRowArray(given: Option<Schema>, r: CarbonReader) returns (out: Option<(Schema, seq<Row>)>)
    requires r.Valid()
    modifies r
    ensures r.Valid() && Takes(DecRowArray(given, old(r.Rest())), out, r.Rest())
    decreases |r.Rest()|, DefSize(given), 4, 0
  {
    var n := r.ReadLength();
    if n.None? { return None; }
    var own := given;
    if given.None? {
      own := ReadSchema(r);
      if own.None? { return None; }
    }
    var rows := ReadRows(n.value, RowSchema(given, own.value), r);
    if rows.None? { return None; }
    return Some((own.value, rows.value));
  }

  method ReadDyns(r: CarbonReader) returns (out: Option<seq<Value>>)
    requires r.Valid()
    modifies r
    ensures r.Valid() && Takes(DecDyns(old(r.Rest())), out, r.Rest())
    decreases |r.Rest()|, 0, 3, 0
  {
    var n := r.ReadLength();
    if n.None? { return None; }
    out := ReadVars(n.value, r);
  }

  lemma VarsTurn(out: seq<Value>, n: nat, bs: bytes)
    requires n > 0
    ensures After(out, DecVars(n, bs)) ==
            var v := DecVar(bs); if v.Err? then Err else After(out + [v.v], DecVars(n - 1, v.rest))
  {
    var v := DecVar(bs);
    if v.Ok? { AfterMore(out, v.v, DecVars(n - 1, v.rest)); }
  }

  lemma VarsDone(bs: bytes)
    ensures DecVars(0, bs) == Ok([], bs)
  {
  }

  method ReadVars(n: nat, r: CarbonReader) returns (out: Option<seq<Value>>)
    requires r.Valid()
    modifies r
    ensures r.Valid() && Takes(DecVars(n, old(r.Rest())), out, r.Rest())
    decreases |r.Rest()|, 0, 1, n
  {
    hide DecVars, DecVar;
    ghost var all := DecVars(n, r.Rest());
    var vs: seq<Value> := [];
    var i := 0;
    AfterNothing(all);
    while i < n
      invariant 0 <= i <= n && r.Valid() && |r.Rest()| <= old(|r.Rest()|)
      invariant all == After(vs, DecVars(n - i, r.Rest()))
    {
      VarsTurn(vs, n - i, r.Rest());
      var v := ReadVar(r);
      if v.None? { return None; }
      vs := vs + [v.value];
      i := i + 1;
    }
    VarsDone(r.Rest());
    AfterAll(vs, r.Rest());
    return Some(vs);
  }

  /** VMDynamicStruct.read_with_schema and, without a schema, read_carbon. */
  method ReadStruct(given: Option<Schema>, r: CarbonReader) returns (out: Option<seq<Field>>)
    requires r.Valid()
    modifies r
    ensures r.Valid() && Takes(DecStruct(given, old(r.Rest())), out, r.Rest())
    decreases |r.Rest()|, DefSize(given), 4, 0
  {
    if given.None? {
      var fs := ReadNamed(r);
      if fs.None? { return None; }
      return Some(Sort(fs.value));
    }
    var s := given.value;
    var fields := ReadBySchema(s.fields, r);
    if fields.None? { return None; }
    if !DynamicExtras(s) {
      assert fields.value + [] == fields.value;
      return Some(Sort(fields.value));
    }
    var extras := ReadNamed(r);
    if extras.None? { return None; }
    return Some(Sort(fields.value + extras.value));
  }

  method ReadNamed(r: CarbonReader) returns (out: Option<seq<Field>>)
    requires r.Valid()
    modifies r
    ensures r.Valid() && Takes(DecNamed(old(r.Rest())), out, r.Rest())
    decreases |r.Rest()|, 0, 3, 0
  {
    var n := r.ReadLength();
    if n.None? { return None; }
    out := ReadFields(n.value, r);
  }

  ghost function NamedValue(bs: bytes): (r: Parsed<Field>)
    ensures r.Ok? ==> |r.rest| < |bs|
  {
    var (name, rest) :- ReadName(bs);
    var (v, rest1) :- DecVar(rest);
    Ok(Field(name, v), rest1)
  }

  lemma FieldsTurn(out: seq<Field>, n: nat, bs: bytes)
    requires n > 0
    ensures After(out, DecFields(n, bs)) ==
            var f := NamedValue(bs); if f.Err? then Err else After(out + [f.v], DecFields(n - 1, f.rest))
  {
    var f := NamedValue(bs);
    if f.Ok? { AfterMore(out, f.v, DecFields(n - 1, f.rest)); }
  }

  lemma FieldsDone(bs: bytes)
    ensures DecFields(0, bs) == Ok([], bs)
  {
  }

  /** VMNamedDynamicVariable.read_carbon */
  method ReadNamedValue(r: CarbonReader) returns (out: Option<Field>)
    requires r.Valid()
    modifies r
    ensures r.Valid() && Takes(NamedValue(old(r.Rest())), out, r.Rest())
    decreases |r.Rest()|, 0, 1, 0
  {
    var name := r.ReadSmall();
    if name.None? { return None; }
    var v := ReadVar(r);
    if v.None? { return None; }
    return Some(Field(name.value, v.value));
  }

  method ReadFields(n: nat, r: CarbonReader) returns (out: Option<seq<Field>>)
    requires r.Valid()
    modifies r
    ensures r.Valid() && Takes(DecFields(n, old(r.Rest())), out, r.Rest())
    decreases |r.Rest()|, 0, 2, n
  {
    hide DecFields, NamedValue;
    ghost var all := DecFields(n, r.Rest());
    var fs: seq<Field> := [];
    var i := 0;
    AfterNothing(all);
    while i < n
      invariant 0 <= i <= n && r.Valid() && |r.Rest()| <= old(|r.Rest()|)
      invariant all == After(fs, DecFields(n - i, r.Rest()))
    {
      FieldsTurn(fs, n - i, r.Rest());
      var f := ReadNamedValue(r);
      if f.None? { return None; }
      fs := fs + [f.value];
      i := i + 1;
    }
    FieldsDone(r.Rest());
    AfterAll(fs, r.Rest());
    return Some(fs);
  }

  lemma BySchemaTurn(out: seq<Field>, s: seq<SField>, i: nat, bs: bytes)
    requires i < |s|
    ensures After(out, DecBySchema(s[i..], bs)) ==
            var v := DecStatic(s[i].ty, s[i].def, bs);
            if v.Err? then Err else After(out + [Field(s[i].name, v.v)], DecBySchema(s[i + 1..], v.rest))
    ensures SFieldsSize(s[i..]) == 2 + DefSize(s[i].def) + SFieldsSize(s[i + 1..])
  {
    assert s[i..][0] == s[i] && s[i..][1..] == s[i + 1..];
    var v := DecStatic(s[i].ty, s[i].def, bs);
    if v.Ok? { AfterMore(out, Field(s[i].name, v.v), DecBySchema(s[i + 1..], v.rest)); }
  }

  method ReadBySchema(s: seq<SField>, r: CarbonReader) returns (out: Option<seq<Field>>)
    requires r.Valid()
    modifies r
    ensures r.Valid() && Takes(DecBySchema(s, old(r.Rest())), out, r.Rest())
    decreases |r.Rest()|, SFieldsSize(s), 6, 0
  {
    ghost var all := DecBySchema(s, r.Rest());
    var fs: seq<Field> := [];
    var i := 0;
    AfterNothing(all);
    assert s[i..] == s;
    while i < |s|
      invariant 0 <= i <= |s| && r.Valid() && |r.Rest()| <= old(|r.Rest()|)
      invariant all == After(fs, DecBySchema(s[i..], r.Rest()))
      invariant SFieldsSize(s[i..]) <= SFieldsSize(s)
    {
      BySchemaTurn(fs, s, i, r.Rest());
      var v := ReadStatic(s[i].ty, s[i].def, r);
      if v.None? { return None; }
      fs := fs + [Field(s[i].name, v.value)];
      i := i + 1;
    }
    assert s[i..] == [] && fs + [] == fs;
    return Some(fs);
  }

  lemma RowsTurn(out: seq<Row>, n: nat, used: Option<Schema>, bs: bytes)
    requires n > 0
    ensures After(out, DecRows(n, used, bs)) ==
            var fs := DecStruct(used, bs);
            if fs.Err? then Err else After(out + [Row(fs.v)], DecRows(n - 1, used, fs.rest))
  {
    var fs := DecStruct(used, bs);
    if fs.Ok? { AfterMore(out, Row(fs.v), DecRows(n - 1, used, fs.rest)); }
  }

  lemma RowsDone(used: Option<Schema>, bs: bytes)
    ensures DecRows(0, used, bs) == Ok([], bs)
  {
  }

  method ReadRows(n: nat, used: Option<Schema>, r: CarbonReader) returns (out: Option<seq<Row>>)
    requires r.Valid()
    modifies r
    ensures r.Valid() && Takes(DecRows(n, used, old(r.Rest())), out, r.Rest())
    decreases |r.Rest()|, DefSize(used), 7, n
  {
    hide DecRows, DecStruct;
    ghost var all := DecRows(n, used, r.Rest());
    var rows: seq<Row> := [];
    var i := 0;
    AfterNothing(all);
    while i < n
      invariant 0 <= i <= n && r.Valid() && |r.Rest()| <= old(|r.Rest()|)
      invariant all == After(rows, DecRows(n - i, used, r.Rest()))
    {
      RowsTurn(rows, n - i, used, r.Rest());
      var fs := ReadStruct(used, r);
      if fs.None? { return None; }
      rows := rows + [Row(fs.value)];
      i := i + 1;
    }
    RowsDone(used, r.Rest());
    AfterAll(rows, r.Rest());
    return Some(rows);
  }
}
