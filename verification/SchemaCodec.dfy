/** VMStructSchema on the wire: schemas nest through their struct fields. */
module SchemaCodec {
  import opened Bytes
  import opened VmData
  import Prim

  /** `self.struct_def or VMStructSchema()` */
  function Present(d: Option<Schema>): Schema { if d.None? then EMPTY_SCHEMA else d.value }

  function EncSchema(s: Schema): Option<bytes>
    decreases SchemaSize(s), 1
  {
    var c :- Prim.EncCount(|s.fields|);
    var body :- EncSFields(s.fields);
    Some(c + body + [s.flags])
  }

  function EncVarSchema(t: VMType, d: Option<Schema>): Option<bytes>
    decreases DefSize(d) + 1, 2
  {
    var tag :- Tag(t);
    if NeedsDef(t) then
      var body :- EncSchema(Present(d));
      Some([tag] + body)
    else Some([tag])
  }

  function EncSFields(fs: seq<SField>): Option<bytes>
    decreases SFieldsSize(fs), 0
  {
    if fs == [] then Some([])
    else
      var name :- Prim.EncSmall(fs[0].name);
      var body :- EncVarSchema(fs[0].ty, fs[0].def);
      var tail :- EncSFields(fs[1..]);
      Some(name + (body + tail))
  }

  function DecSchema(bs: bytes): (r: Parsed<Schema>)
    ensures r.Ok? ==> |r.rest| < |bs|
    decreases |bs|, 1, 0
  {
    var (n, rest) :- Prim.DecCount(bs);
    var (fields, rest') :- DecSFields(n, rest);
    if rest' == [] then Err else Ok(Schema(fields, rest'[0]), rest'[1..])
  }

  function DecVarSchema(bs: bytes): (r: Parsed<(VMType, Option<Schema>)>)
    ensures r.Ok? ==> |r.rest| < |bs|
    decreases |bs|, 0, 0
  {
    if bs == [] || FromTag(bs[0]).None? then Err
    else
      var t := FromTag(bs[0]).value;
      if NeedsDef(t) then
        var (s, rest) :- DecSchema(bs[1..]);
        Ok((t, Some(s)), rest)
      else Ok((t, None), bs[1..])
  }

  function DecSFields(n: nat, bs: bytes): (r: Parsed<seq<SField>>)
    ensures r.Ok? ==> |r.rest| <= |bs| && |r.v| == n
    decreases |bs|, 2, n
  {
    if n == 0 then Ok([], bs)
    else
      var (name, rest) :- ReadName(bs);
      var (ty, rest1) :- DecVarSchema(rest);
      var (tail, rest2) :- DecSFields(n - 1, rest1);
      Ok([SField(name, ty.0, ty.1)] + tail, rest2)
  }

  function ReadName(bs: bytes): (r: Parsed<string>)
    ensures r.Ok? ==> |r.rest| < |bs|
  {
    Prim.DecSmall(bs)
  }

  // ----- what a schema is read back as

  function NormSchema(s: Schema): Schema
    decreases SchemaSize(s), 1
  {
    Schema(NormSFields(s.fields), s.flags)
  }

  function NormDef(t: VMType, d: Option<Schema>): Option<Schema>
    decreases DefSize(d) + 1, 2
  {
    if NeedsDef(t) then Some(NormSchema(Present(d))) else None
  }

  function NormSFields(fs: seq<SField>): (r: seq<SField>)
    ensures |r| == |fs|
    decreases SFieldsSize(fs), 0
  {
    if fs == [] then []
    else [SField(fs[0].name, fs[0].ty, NormDef(fs[0].ty, fs[0].def))] + NormSFields(fs[1..])
  }

  /** A struct definition stands exactly where the wire carries one. */
  predicate Canonical(s: Schema)
    decreases SchemaSize(s), 1
  {
    CanonicalFields(s.fields)
  }

  predicate CanonicalFields(fs: seq<SField>)
    decreases SFieldsSize(fs), 0
  {
    fs != [] ==> CanonicalDef(fs[0].ty, fs[0].def) && CanonicalFields(fs[1..])
  }

  predicate CanonicalDef(t: VMType, d: Option<Schema>)
    decreases DefSize(d), 2
  {
    if d.None? then !NeedsDef(t) else NeedsDef(t) && Canonical(d.value)
  }

  lemma {:induction false} FieldsLength(fs: seq<SField>)
    requires EncSFields(fs).Some?
    ensures |EncSFields(fs).value| >= |fs|
  {
    if fs != [] { FieldsLength(fs[1..]); }
  }

  lemma {:induction false} SchemaBack(s: Schema, rest: bytes)
    requires EncSchema(s).Some?
    ensures DecSchema(EncSchema(s).value + rest) == Ok(NormSchema(s), rest)
    decreases SchemaSize(s), 1
  {
    var c, body := Prim.EncCount(|s.fields|).value, EncSFields(s.fields).value;
    var tail := [s.flags] + rest;
    assert EncSchema(s).value + rest == c + (body + tail);
    FieldsLength(s.fields);
    Prim.CountBack(|s.fields|, body + tail);
    SFieldsBack(s.fields, tail);
  }

  lemma {:induction false} VarSchemaBack(t: VMType, d: Option<Schema>, rest: bytes)
    requires EncVarSchema(t, d).Some?
    ensures DecVarSchema(EncVarSchema(t, d).value + rest) == Ok((t, NormDef(t, d)), rest)
    decreases DefSize(d) + 1, 2
  {
    var tag := Tag(t).value;
    TagsExact(t, tag);
    if NeedsDef(t) {
      var body := EncSchema(Present(d)).value;
      SchemaBack(Present(d), rest);
      assert EncVarSchema(t, d).value + rest == [tag] + (body + rest);
      Prim.Split([tag], body + rest);
    } else {
      Prim.Split([tag], rest);
    }
  }

  lemma {:induction false} SFieldsBack(fs: seq<SField>, rest: bytes)
    requires EncSFields(fs).Some?
    ensures DecSFields(|fs|, EncSFields(fs).value + rest) == Ok(NormSFields(fs), rest)
    decreases SFieldsSize(fs), 0
  {
    if fs == [] {
      assert [] + rest == rest;
    } else {
      var name := Prim.EncSmall(fs[0].name).value;
      var body := EncVarSchema(fs[0].ty, fs[0].def).value;
      var tail := EncSFields(fs[1..]).value;
      assert EncSFields(fs).value + rest == name + (body + (tail + rest));
      Prim.SmallBack(fs[0].name, body + (tail + rest));
      VarSchemaBack(fs[0].ty, fs[0].def, tail + rest);
      SFieldsBack(fs[1..], rest);
    }
  }

  lemma {:induction false} NormExact(s: Schema)
    ensures NormSchema(s) == s <==> Canonical(s)
    decreases SchemaSize(s), 1
  {
    NormFieldsExact(s.fields);
  }

  lemma {:induction false} NormDefExact(t: VMType, d: Option<Schema>)
    ensures NormDef(t, d) == d <==> CanonicalDef(t, d)
    decreases DefSize(d), 2
  {
    if d.Some? { NormExact(d.value); }
  }

  lemma {:induction false} NormFieldsExact(fs: seq<SField>)
    ensures NormSFields(fs) == fs <==> CanonicalFields(fs)
    decreases SFieldsSize(fs), 0
  {
    if fs != [] {
      NormFieldsExact(fs[1..]);
      NormDefExact(fs[0].ty, fs[0].def);
      var f := SField(fs[0].name, fs[0].ty, NormDef(fs[0].ty, fs[0].def));
      assert fs == [fs[0]] + fs[1..];
      assert NormSFields(fs)[0] == f && NormSFields(fs)[1..] == NormSFields(fs[1..]);
    }
  }

  /** A schema the writer takes is returned unchanged exactly when its struct
      definitions stand where the wire carries them; otherwise an absent one
      comes back empty and a superfluous one comes back absent. */
  lemma RoundTrip(s: Schema, rest: bytes)
    requires EncSchema(s).Some?
    ensures DecSchema(EncSchema(s).value + rest) == Ok(NormSchema(s), rest)
    ensures DecSchema(EncSchema(s).value + rest) == Ok(s, rest) <==> Canonical(s)
  {
    SchemaBack(s, rest);
    NormExact(s);
  }

  // ----- more input never changes a successful read

  lemma {:induction false} SchemaExtends(bs: bytes, q: bytes)
    requires DecSchema(bs).Ok?
    ensures DecSchema(bs + q) == Ok(DecSchema(bs).v, DecSchema(bs).rest + q)
    decreases |bs|, 1, 0
  {
    hide DecSFields, Prim.DecCount;
    var c := Prim.DecCount(bs);
    var f := DecSFields(c.v, c.rest);
    Prim.CountExtends(bs, q);
    SFieldsExtends(c.v, c.rest, q);
    var rest := f.rest + q;
    assert Prim.DecCount(bs + q) == Ok(c.v, c.rest + q);
    assert DecSFields(c.v, c.rest + q) == Ok(f.v, rest);
    assert rest[0] == f.rest[0] && rest[1..] == f.rest[1..] + q;
  }

  lemma {:induction false} VarSchemaExtends(bs: bytes, q: bytes)
    requires DecVarSchema(bs).Ok?
    ensures DecVarSchema(bs + q) == Ok(DecVarSchema(bs).v, DecVarSchema(bs).rest + q)
    decreases |bs|, 0, 0
  {
    assert (bs + q)[1..] == bs[1..] + q;
    if NeedsDef(FromTag(bs[0]).value) { SchemaExtends(bs[1..], q); }
  }

  lemma {:induction false} SFieldsExtends(n: nat, bs: bytes, q: bytes)
    requires DecSFields(n, bs).Ok?
    ensures DecSFields(n, bs + q) == Ok(DecSFields(n, bs).v, DecSFields(n, bs).rest + q)
    decreases |bs|, 2, n
  {
    if n != 0 {
      Prim.SmallExtends(bs, q);
      var name := ReadName(bs);
      VarSchemaExtends(name.rest, q);
      SFieldsExtends(n - 1, DecVarSchema(name.rest).rest, q);
    }
  }
}
