/** Struct arrays whose rows take no room: a bare count that the length guard may
    refuse. */
module VmRows {
  import opened Bytes
  import opened VmData
  import opened FieldOrder
  import opened SchemaCodec
  import opened VmWire
  import opened VmRoundTrip
  import Prim

  lemma {:induction false} UnoccupiedStruct(fs: seq<Field>, s: Schema)
    requires EncStruct(fs, Some(s)).Some? && !Occupies(s)
    ensures EncStruct(fs, Some(s)).value == []
    decreases SchemaSize(s), 1
  {
    UnoccupiedFields(fs, s.fields);
  }

  lemma {:induction false} UnoccupiedFields(fs: seq<Field>, s: seq<SField>)
    requires EncBySchema(fs, s).Some? && !FieldsOccupy(s)
    ensures EncBySchema(fs, s).value == []
    decreases SFieldsSize(s), 0
  {
    if s != [] {
      var v := Lookup(fs, s[0]);
      var d := s[0].def.value;
      UnoccupiedFields(fs, s[1..]);
      assert EncStatic(v, TStruct, s[0].def).Some? && SchemaSize(d) == DefSize(s[0].def);
      UnoccupiedStruct(if v.Some? then v.value.fields else [], d);
    }
  }

  lemma {:induction false} UnoccupiedRows(rows: seq<Row>, s: Schema)
    requires EncRows(rows, Some(s)).Some? && !Occupies(s)
    ensures EncRows(rows, Some(s)).value == []
  {
    if rows != [] {
      UnoccupiedStruct(rows[0].fields, s);
      UnoccupiedRows(rows[1..], s);
    }
  }

  /** Rows that take no room at all are written as a bare count, which the guard
      of read_length takes back only if as many bytes happen to follow; here under a
      given schema. */
  lemma EmptyRowsNeedRoom(own: Schema, rows: seq<Row>, s: Schema, rest: bytes)
    requires EncRowArray(own, rows, Some(s)).Some? && SoundRows(rows) && SoundSchema(s) && !Occupies(s)
    ensures DecRowArray(Some(s), EncRowArray(own, rows, Some(s)).value + rest).Ok? <==> |rows| <= |rest|
  {
    BareCount(own, rows, s);
    CountGuard(|rows|, rest);
    RowsBack(rows, Some(s), rest);
    assert [] + rest == rest;
  }

  lemma BareCount(own: Schema, rows: seq<Row>, s: Schema)
    requires EncRowArray(own, rows, Some(s)).Some? && !Occupies(s)
    ensures EncRowArray(own, rows, Some(s)) == Prim.EncCount(|rows|) && EncRows(rows, Some(s)) == Some([])
  {
    UnoccupiedRows(rows, s);
    var c := Prim.EncCount(|rows|).value;
    assert c + ([] + []) == c;
  }

  /** Where such rows travel with their own schema, its bytes count as room. */
  lemma EmptyOwnRowsNeedRoom(own: Schema, rows: seq<Row>, rest: bytes)
    requires EncRowArray(own, rows, None).Some? && Canonical(own) && SoundSchema(own) && SoundRows(rows)
    requires own.fields != [] && !Occupies(own)
    ensures DecRowArray(None, EncRowArray(own, rows, None).value + rest).Ok?
       <==> |rows| <= |EncSchema(own).value| + |rest|
  {
    UnoccupiedRows(rows, own);
    OwnSchemaBack(own, rows, rest);
    RowsBack(rows, Some(own), rest);
    assert [] + rest == rest;
  }
}
