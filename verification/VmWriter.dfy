/** write_carbon, write_static and write_with_schema as they drive a writer. */
module VmWriter {
  import opened Bytes
  import opened CarbonIO
  import opened VmData
  import opened FieldOrder
  import opened SchemaCodec
  import opened VmWire
  import Prim
  import opened Streams

  // ----- schemas

  method WriteSchema(s: Schema, w: CarbonWriter) returns (ok: bool)
    modifies w
    ensures Emits(old(w.buffer), EncSchema(s), ok, w.buffer)
    decreases SchemaSize(s), 1
  {
    ok := w.WriteSigned(|s.fields|, 4);
    if !ok { return; }
    ok := WriteSFields(s.fields, w);
    if !ok { return; }
    w.Write([s.flags]);
    ghost var c, body := Prim.EncCount(|s.fields|).value, EncSFields(s.fields).value;
    assert old(w.buffer) + c + body + [s.flags] == old(w.buffer) + (c + body + [s.flags]);
  }

  method WriteVarSchema(t: VMType, d: Option<Schema>, w: CarbonWriter) returns (ok: bool)
    modifies w
    ensures Emits(old(w.buffer), EncVarSchema(t, d), ok, w.buffer)
    decreases DefSize(d) + 1, 2
  {
    hide Tag, EncSchema;
    var tag := Tag(t);
    if tag.None? { return false; }
    w.Write([tag.value]);
    if !NeedsDef(t) { return true; }
    ok := WriteSchema(Present(d), w);
    if ok {
      ghost var body := EncSchema(Present(d)).value;
      assert old(w.buffer) + [tag.value] + body == old(w.buffer) + ([tag.value] + body);
    }
  }

  method WriteSFields(fs: seq<SField>, w: CarbonWriter) returns (ok: bool)
    modifies w
    ensures Emits(old(w.buffer), EncSFields(fs), ok, w.buffer)
    decreases SFieldsSize(fs), 0
  {
    var i := 0;
    assert fs[i..] == fs;
    while i < |fs|
      invariant 0 <= i <= |fs|
      invariant Behind(old(w.buffer), EncSFields(fs)) == Behind(w.buffer, EncSFields(fs[i..]))
      invariant SFieldsSize(fs[i..]) <= SFieldsSize(fs)
    {
      SFieldsTurn(w.buffer, fs, i);
      ok := WriteSField(fs[i], w);
      if !ok { return; }
      i := i + 1;
    }
    assert fs[i..] == [];
    BehindAll(w.buffer);
    return true;
  }

  ghost function SFieldBytes(f: SField): Option<bytes> {
    var name :- Prim.EncSmall(f.name);
    var body :- EncVarSchema(f.ty, f.def);
    Some(name + body)
  }

  /** One turn of the loop over fields, behind what has been written. */
  lemma SFieldsTurn(done: bytes, fs: seq<SField>, i: nat)
    requires i < |fs|
    ensures Behind(done, EncSFields(fs[i..])) ==
            var e := SFieldBytes(fs[i]); if e.None? then None else Behind(done + e.value, EncSFields(fs[i + 1..]))
    ensures SFieldsSize(fs[i..]) == 2 + DefSize(fs[i].def) + SFieldsSize(fs[i + 1..])
  {
    assert fs[i..][0] == fs[i] && fs[i..][1..] == fs[i + 1..];
    var e, tail := SFieldBytes(fs[i]), EncSFields(fs[i + 1..]);
    if e.Some? && tail.Some? {
      var name, body := Prim.EncSmall(fs[i].name).value, EncVarSchema(fs[i].ty, fs[i].def).value;
      assert done + (name + (body + tail.value)) == done + (name + body) + tail.value;
    }
  }

  method WriteSField(f: SField, w: CarbonWriter) returns (ok: bool)
    modifies w
    ensures Emits(old(w.buffer), SFieldBytes(f), ok, w.buffer)
    decreases DefSize(f.def) + 1, 3
  {
    hide EncVarSchema, Prim.EncSmall;
    ok := w.WriteSmall(f.name);
    if !ok { return; }
    ok := WriteVarSchema(f.ty, f.def, w);
    if ok {
      ghost var name, body := Prim.EncSmall(f.name).value, EncVarSchema(f.ty, f.def).value;
      assert old(w.buffer) + name + body == old(w.buffer) + (name + body);
    }
  }

  // ----- values

  /** VMDynamicVariable.write_carbon */
  method WriteVar(v: Value, w: CarbonWriter) returns (ok: bool)
    modifies w
    ensures Emits(old(w.buffer), EncVar(v), ok, w.buffer)
    decreases Size(v) + 1, 0, 9
  {
    var tag := Tag(TypeOf(v));
    if tag.None? { return false; }
    w.Write([tag.value]);
    ok := WriteStatic(Some(v), TypeOf(v), None, w);
    if ok {
      ghost var body := EncStatic(Some(v), TypeOf(v), None).value;
      assert old(w.buffer) + [tag.value] + body == old(w.buffer) + ([tag.value] + body);
    }
  }

  method WriteStatic(ov: Option<Value>, t: VMType, given: Option<Schema>, w: CarbonWriter) returns (ok: bool)
    requires ov.Some? ==> TypeOf(ov.value) == t
    modifies w
    ensures Emits(old(w.buffer), EncStatic(ov, t, given), ok, w.buffer)
    decreases if ov.Some? then Size(ov.value) + 1 else 2, DefSize(given), 8
  {
    match if ov.Some? then ov.value else Default(t)
    case VOne(k, x) =>
      if KindTag(k).None? { return false; }
      ok := w.WritePrim(k, x);
    case VMany(k, xs) =>
      if KindTag(k).None? { return false; }
      ok := w.WriteArray(k, xs);
    case VDyn(inner) => ok := WriteVar(inner, w);
    case VDyns(vs) => ok := WriteDyns(vs, w);
    case VStruct(fs) => ok := WriteStruct(fs, given, w);
    case VStructs(own, rows) => ok := WriteRowArray(own, rows, given, w);
  }

  method WriteRowArray(own: Schema, rows: seq<Row>, given: Option<Schema>, w: CarbonWriter) returns (ok: bool)
    modifies w
    ensures Emits(old(w.buffer), EncRowArray(own, rows, given), ok, w.buffer)
    decreases SizeRows(rows) + 2, DefSize(given), 7
  {
    ok := w.WriteSigned(|rows|, 4);
    if !ok { return; }
    ghost var c := Prim.EncCount(|rows|).value;
    ghost var head: bytes := [];
    if given.None? {
      ok := WriteSchema(own, w);
      if !ok { return; }
      head := EncSchema(own).value;
    }
    assert w.buffer == old(w.buffer) + c + head;
    ok := WriteRows(rows, RowSchema(given, own), w);
    if ok {
      ghost var body := EncRows(rows, RowSchema(given, own)).value;
      assert old(w.buffer) + c + head + body == old(w.buffer) + (c + (head + body));
    }
  }

  method WriteDyns(vs: seq<Value>, w: CarbonWriter) returns (ok: bool)
    modifies w
    ensures Emits(old(w.buffer), EncDyns(vs), ok, w.buffer)
    decreases SizeAll(vs) + 1, 0, 1
  {
    ok := w.WriteSigned(|vs|, 4);
    if !ok { return; }
    ok := WriteVars(vs, w);
    if ok {
      ghost var c, body := Prim.EncCount(|vs|).value, EncVars(vs).value;
      assert old(w.buffer) + c + body == old(w.buffer) + (c + body);
    }
  }

  lemma VarsTurn(done: bytes, vs: seq<Value>, i: nat)
    requires i < |vs|
    ensures Behind(done, EncVars(vs[i..])) ==
            var e := EncVar(vs[i]); if e.None? then None else Behind(done + e.value, EncVars(vs[i + 1..]))
    ensures SizeAll(vs[i..]) == 1 + Size(vs[i]) + SizeAll(vs[i + 1..])
  {
    assert vs[i..][0] == vs[i] && vs[i..][1..] == vs[i + 1..];
    var e := EncVar(vs[i]);
    if e.Some? { BehindMore(done, e.value, EncVars(vs[i + 1..])); }
  }

  method WriteVars(vs: seq<Value>, w: CarbonWriter) returns (ok: bool)
    modifies w
    ensures Emits(old(w.buffer), EncVars(vs), ok, w.buffer)
    decreases SizeAll(vs) + 1, 0, 0
  {
    var i := 0;
    assert vs[i..] == vs;
    while i < |vs|
      invariant 0 <= i <= |vs|
      invariant Behind(old(w.buffer), EncVars(vs)) == Behind(w.buffer, EncVars(vs[i..]))
      invariant SizeAll(vs[i..]) <= SizeAll(vs)
    {
      VarsTurn(w.buffer, vs, i);
      ok := WriteVar(vs[i], w);
      if !ok { return; }
      i := i + 1;
    }
    assert vs[i..] == [];
    BehindAll(w.buffer);
    return true;
  }

  /** VMDynamicStruct.write_with_schema and, without a schema, write_carbon. */
  method WriteStruct(fs: seq<Field>, given: Option<Schema>, w: CarbonWriter) returns (ok: bool)
    modifies w
    ensures Emits(old(w.buffer), EncStruct(fs, given), ok, w.buffer)
    decreases SizeFields(fs) + 2, DefSize(given), 7
  {
    hide EncNamed, EncBySchema, Sort, WrittenExtras;
    if given.None? {
      ok := WriteNamed(Sort(fs), w);
      return;
    }
    var s := given.value;
    ok := WriteBySchema(fs, s.fields, w);
    if !ok { return; }
    ghost var body := EncBySchema(fs, s.fields).value;
    if !DynamicExtras(s) {
      assert body + [] == body;
      return true;
    }
    ok := WriteNamed(WrittenExtras(fs, s.fields), w);
    if ok {
      ghost var extras := EncNamed(WrittenExtras(fs, s.fields)).value;
      assert old(w.buffer) + body + extras == old(w.buffer) + (body + extras);
    }
  }

  method WriteNamed(fs: seq<Field>, w: CarbonWriter) returns (ok: bool)
    modifies w
    ensures Emits(old(w.buffer), EncNamed(fs), ok, w.buffer)
    decreases SizeFields(fs) + 1, 0, 1
  {
    ok := w.WriteSigned(|fs|, 4);
    if !ok { return; }
    ok := WriteFields(fs, w);
    if ok {
      ghost var c, body := Prim.EncCount(|fs|).value, EncFields(fs).value;
      assert old(w.buffer) + c + body == old(w.buffer) + (c + body);
    }
  }

  ghost function NamedBytes(f: Field): Option<bytes> {
    var name :- Prim.EncSmall(f.name);
    var body :- EncVar(f.val);
    Some(name + body)
  }

  lemma FieldsTurn(done: bytes, fs: seq<Field>, i: nat)
    requires i < |fs|
    ensures Behind(done, EncFields(fs[i..])) ==
            var e := NamedBytes(fs[i]); if e.None? then None else Behind(done + e.value, EncFields(fs[i + 1..]))
    ensures SizeFields(fs[i..]) == 1 + Size(fs[i].val) + SizeFields(fs[i + 1..])
  {
    assert fs[i..][0] == fs[i] && fs[i..][1..] == fs[i + 1..];
    var e, tail := NamedBytes(fs[i]), EncFields(fs[i + 1..]);
    if e.Some? && tail.Some? {
      var name, body := Prim.EncSmall(fs[i].name).value, EncVar(fs[i].val).value;
      assert done + (name + (body + tail.value)) == done + (name + body) + tail.value;
    }
  }

  /** VMNamedDynamicVariable.write_carbon */
  method WriteNamedValue(f: Field, w: CarbonWriter) returns (ok: bool)
    modifies w
    ensures Emits(old(w.buffer), NamedBytes(f), ok, w.buffer)
    decreases Size(f.val) + 1, 0, 10
  {
    ok := w.WriteSmall(f.name);
    if !ok { return; }
    ok := WriteVar(f.val, w);
    if ok {
      ghost var name, body := Prim.EncSmall(f.name).value, EncVar(f.val).value;
      assert old(w.buffer) + name + body == old(w.buffer) + (name + body);
    }
  }

  method WriteFields(fs: seq<Field>, w: CarbonWriter) returns (ok: bool)
    modifies w
    ensures Emits(old(w.buffer), EncFields(fs), ok, w.buffer)
    decreases SizeFields(fs) + 1, 0, 0
  {
    var i := 0;
    assert fs[i..] == fs;
    while i < |fs|
      invariant 0 <= i <= |fs|
      invariant Behind(old(w.buffer), EncFields(fs)) == Behind(w.buffer, EncFields(fs[i..]))
      invariant SizeFields(fs[i..]) <= SizeFields(fs)
    {
      FieldsTurn(w.buffer, fs, i);
      ok := WriteNamedValue(fs[i], w);
      if !ok { return; }
      i := i + 1;
    }
    assert fs[i..] == [];
    BehindAll(w.buffer);
    return true;
  }

  /** What one schema field makes the struct write. */
  ghost function FieldBytes(fs: seq<Field>, f: SField): Option<bytes> {
    EncStatic(Lookup(fs, f), f.ty, f.def)
  }

  lemma BySchemaTurn(done: bytes, fs: seq<Field>, s: seq<SField>, i: nat)
    requires i < |s|
    ensures Behind(done, EncBySchema(fs, s[i..])) ==
            var e := FieldBytes(fs, s[i]);
            if e.None? then None else Behind(done + e.value, EncBySchema(fs, s[i + 1..]))
    ensures SFieldsSize(s[i..]) == 2 + DefSize(s[i].def) + SFieldsSize(s[i + 1..])
  {
    assert s[i..][0] == s[i] && s[i..][1..] == s[i + 1..];
    var e := FieldBytes(fs, s[i]);
    if e.Some? { BehindMore(done, e.value, EncBySchema(fs, s[i + 1..])); }
  }

  method WriteSchemaField(fs: seq<Field>, f: SField, w: CarbonWriter) returns (ok: bool)
    modifies w
    ensures Emits(old(w.buffer), FieldBytes(fs, f), ok, w.buffer)
    decreases SizeFields(fs) + 2, DefSize(f.def), 9
  {
    ok := WriteStatic(Lookup(fs, f), f.ty, f.def, w);
  }

  method WriteBySchema(fs: seq<Field>, s: seq<SField>, w: CarbonWriter) returns (ok: bool)
    modifies w
    ensures Emits(old(w.buffer), EncBySchema(fs, s), ok, w.buffer)
    decreases SizeFields(fs) + 2, SFieldsSize(s), 6
  {
    var i := 0;
    assert s[i..] == s;
    while i < |s|
      invariant 0 <= i <= |s|
      invariant Behind(old(w.buffer), EncBySchema(fs, s)) == Behind(w.buffer, EncBySchema(fs, s[i..]))
      invariant SFieldsSize(s[i..]) <= SFieldsSize(s)
    {
      BySchemaTurn(w.buffer, fs, s, i);
      ok := WriteSchemaField(fs, s[i], w);
      if !ok { return; }
      i := i + 1;
    }
    assert s[i..] == [];
    BehindAll(w.buffer);
    return true;
  }

  lemma RowsTurn(done: bytes, rows: seq<Row>, used: Option<Schema>, i: nat)
    requires i < |rows|
    ensures Behind(done, EncRows(rows[i..], used)) ==
            var e := EncStruct(rows[i].fields, used);
            if e.None? then None else Behind(done + e.value, EncRows(rows[i + 1..], used))
    ensures SizeRows(rows[i..]) == 1 + SizeFields(rows[i].fields) + SizeRows(rows[i + 1..])
  {
    assert rows[i..][0] == rows[i] && rows[i..][1..] == rows[i + 1..];
    var e := EncStruct(rows[i].fields, used);
    if e.Some? { BehindMore(done, e.value, EncRows(rows[i + 1..], used)); }
  }

  method WriteRows(rows: seq<Row>, used: Option<Schema>, w: CarbonWriter) returns (ok: bool)
    modifies w
    ensures Emits(old(w.buffer), EncRows(rows, used), ok, w.buffer)
    decreases SizeRows(rows) + 2, 0, 0
  {
    var i := 0;
    assert rows[i..] == rows;
    while i < |rows|
      invariant 0 <= i <= |rows|
      invariant Behind(old(w.buffer), EncRows(rows, used)) == Behind(w.buffer, EncRows(rows[i..], used))
      invariant SizeRows(rows[i..]) <= SizeRows(rows)
    {
      RowsTurn(w.buffer, rows, used, i);
      ok := WriteStruct(rows[i].fields, used, w);
      if !ok { return; }
      i := i + 1;
    }
    assert rows[i..] == [];
    BehindAll(w.buffer);
    return true;
  }
}
