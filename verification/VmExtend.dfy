/** More input never changes a successful read of a dynamic value, so no strict
    prefix of a complete encoding decodes. */
module VmExtend {
  import opened Bytes
  import opened VmData
  import opened FieldOrder
  import opened SchemaCodec
  import opened VmWire
  import Prim

  lemma {:induction false} VarExtends(bs: bytes, q: bytes)
    requires DecVar(bs).Ok?
    ensures DecVar(bs + q) == Ok(DecVar(bs).v, DecVar(bs).rest + q)
    decreases |bs|, 0, 0, 0
  {
    assert (bs + q)[1..] == bs[1..] + q;
    StaticExtends(FromTag(bs[0]).value, None, bs[1..], q);
  }

  lemma {:induction false} StaticExtends(t: VMType, given: Option<Schema>, bs: bytes, q: bytes)
    requires DecStatic(t, given, bs).Ok?
    ensures DecStatic(t, given, bs + q) == Ok(DecStatic(t, given, bs).v, DecStatic(t, given, bs).rest + q)
    decreases |bs|, DefSize(given), 5, 0
  {
    match t
    case TOne(k) => Prim.Extends(k, bs, q);
    case TMany(k) => Prim.ArrayExtends(k, bs, q);
    case TDyn => VarExtends(bs, q);
    case TDyns => DynsExtends(bs, q);
    case TStruct => StructExtends(given, bs, q);
    case TStructs => RowArrayExtends(given, bs, q);
  }

  lemma {:induction false} RowArrayExtends(given: Option<Schema>, bs: bytes, q: bytes)
    requires DecRowArray(given, bs).Ok?
    ensures DecRowArray(given, bs + q) == Ok(DecRowArray(given, bs).v, DecRowArray(given, bs).rest + q)
    decreases |bs|, DefSize(given), 4, 0
  {
    var c := Prim.DecCount(bs);
    Prim.CountExtends(bs, q);
    if given.Some? {
      RowsExtends(c.v, given, c.rest, q);
    } else {
      SchemaExtends(c.rest, q);
      var s := DecSchema(c.rest);
      RowsExtends(c.v, RowSchema(None, s.v), s.rest, q);
    }
  }

  lemma {:induction false} DynsExtends(bs: bytes, q: bytes)
    requires DecDyns(bs).Ok?
    ensures DecDyns(bs + q) == Ok(DecDyns(bs).v, DecDyns(bs).rest + q)
    decreases |bs|, 0, 3, 0
  {
    Prim.CountExtends(bs, q);
    VarsExtends(Prim.DecCount(bs).v, Prim.DecCount(bs).rest, q);
  }

  lemma {:induction false} VarsExtends(n: nat, bs: bytes, q: bytes)
    requires DecVars(n, bs).Ok?
    ensures DecVars(n, bs + q) == Ok(DecVars(n, bs).v, DecVars(n, bs).rest + q)
    decreases |bs|, 0, 1, n
  {
    if n != 0 {
      VarExtends(bs, q);
      VarsExtends(n - 1, DecVar(bs).rest, q);
    }
  }

  lemma {:induction false} StructExtends(given: Option<Schema>, bs: bytes, q: bytes)
    requires DecStruct(given, bs).Ok?
    ensures DecStruct(given, bs + q) == Ok(DecStruct(given, bs).v, DecStruct(given, bs).rest + q)
    decreases |bs|, DefSize(given), 4, 0
  {
    if given.None? {
      NamedExtends(bs, q);
    } else {
      var s := given.value;
      BySchemaExtends(s.fields, bs, q);
      if DynamicExtras(s) { NamedExtends(DecBySchema(s.fields, bs).rest, q); }
    }
  }

  lemma {:induction false} NamedExtends(bs: bytes, q: bytes)
    requires DecNamed(bs).Ok?
    ensures DecNamed(bs + q) == Ok(DecNamed(bs).v, DecNamed(bs).rest + q)
    decreases |bs|, 0, 3, 0
  {
    Prim.CountExtends(bs, q);
    FieldsExtends(Prim.DecCount(bs).v, Prim.DecCount(bs).rest, q);
  }

  lemma {:induction false} FieldsExtends(n: nat, bs: bytes, q: bytes)
    requires DecFields(n, bs).Ok?
    ensures DecFields(n, bs + q) == Ok(DecFields(n, bs).v, DecFields(n, bs).rest + q)
    decreases |bs|, 0, 2, n
  {
    if n != 0 {
      Prim.SmallExtends(bs, q);
      var name := ReadName(bs);
      VarExtends(name.rest, q);
      FieldsExtends(n - 1, DecVar(name.rest).rest, q);
    }
  }

  lemma {:induction false} BySchemaExtends(s: seq<SField>, bs: bytes, q: bytes)
    requires DecBySchema(s, bs).Ok?
    ensures DecBySchema(s, bs + q) == Ok(DecBySchema(s, bs).v, DecBySchema(s, bs).rest + q)
    decreases |bs|, SFieldsSize(s), 6, 0
  {
    if s != [] {
      StaticExtends(s[0].ty, s[0].def, bs, q);
      BySchemaExtends(s[1..], DecStatic(s[0].ty, s[0].def, bs).rest, q);
    }
  }

  lemma {:induction false} RowsExtends(n: nat, used: Option<Schema>, bs: bytes, q: bytes)
    requires DecRows(n, used, bs).Ok?
    ensures DecRows(n, used, bs + q) == Ok(DecRows(n, used, bs).v, DecRows(n, used, bs).rest + q)
    decreases |bs|, DefSize(used), 7, n
  {
    if n != 0 {
      StructExtends(used, bs, q);
      RowsExtends(n - 1, used, DecStruct(used, bs).rest, q);
    }
  }

  /** If p + q is a complete encoding of a value and q is not empty, then p is
      not even the beginning of another one. */
  lemma NoStrictPrefix(p: bytes, q: bytes)
    requires q != [] && DecVar(p + q).Ok? && DecVar(p + q).rest == []
    ensures DecVar(p).Err?
  {
    if DecVar(p).Ok? { VarExtends(p, q); }
  }

  /** The same for structs, read with or without a schema. */
  lemma NoStrictPrefixOfStruct(given: Option<Schema>, p: bytes, q: bytes)
    requires q != [] && DecStruct(given, p + q).Ok? && DecStruct(given, p + q).rest == []
    ensures DecStruct(given, p).Err?
  {
    if DecStruct(given, p).Ok? { StructExtends(given, p, q); }
  }
}
