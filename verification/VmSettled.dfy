/** The values that survive the wire unchanged, by their structure. */
module VmSettled {
  import opened Bytes
  import opened VmData
  import opened FieldOrder
  import opened SchemaCodec
  import opened VmWire
  import opened VmRoundTrip
  import opened VmGet
  import opened VmSame
  import Int256
  import Prim

  predicate SettledPrim(k: Prim.Kind, x: Prim.PVal) {
    x.Num? ==> (k == Prim.I8 ==> -128 <= x.n < 128) && (k == Prim.I256 ==> Int256.Signed256(x.n))
  }

  predicate SettledPrims(k: Prim.Kind, xs: seq<Prim.PVal>) {
    forall i :: 0 <= i < |xs| ==> SettledPrim(k, xs[i])
  }

  /** Integers in their signed range, fields sorted, and structs that conform to
      their schema. */
  ghost predicate Settled(v: Value, given: Option<Schema>)
    decreases Size(v) + 1, 9
  {
    match v
    case VOne(k, x) => SettledPrim(k, x)
    case VMany(k, xs) => SettledPrims(k, xs)
    case VDyn(inner) => Settled(inner, None)
    case VDyns(vs) => SettledAll(vs)
    case VStruct(fs) => SettledStruct(fs, given)
    case VStructs(own, rows) => (given.None? || own == given.value) && SettledRows(rows, RowSchema(given, own))
  }

  ghost predicate SettledAll(vs: seq<Value>)
    decreases SizeAll(vs) + 1, 0
  {
    vs != [] ==> Settled(vs[0], None) && SettledAll(vs[1..])
  }

  ghost predicate SettledRows(rows: seq<Row>, used: Option<Schema>)
    decreases SizeRows(rows) + 2, 0
  {
    rows != [] ==> SettledStruct(rows[0].fields, used) && SettledRows(rows[1..], used)
  }

  ghost predicate SettledFields(fs: seq<Field>)
    decreases SizeFields(fs) + 1, 0
  {
    fs != [] ==> Settled(fs[0].val, None) && SettledFields(fs[1..])
  }

  ghost predicate SettledStruct(fs: seq<Field>, given: Option<Schema>)
    decreases SizeFields(fs) + 2, 7
  {
    Sorted(fs) && forall name :: Conforms(fs, given, name, Named(fs, name))
  }

  /** gs are the struct's fields of one name.  A name of the schema is there as
      often as in the schema, first with a value of its field's type that is
      settled in turn; if the schema repeats the name, the rest is what it makes of
      that value.  Any other name needs a schema that admits it. */
  ghost predicate Conforms(fs: seq<Field>, given: Option<Schema>, name: string, gs: seq<Field>)
    decreases SizeFields(gs) + 2, 0
  {
    if given.None? then SettledFields(gs)
    else if SchemaHas(given.value.fields, name) then
      var s := SNamed(given.value.fields, name);
      && s != [] && gs != []
      && TypeOf(gs[0].val) == s[0].ty && Settled(gs[0].val, s[0].def)
      && SameSlots(fs, s[1..], gs[1..]) && forall f :: f in gs[1..] ==> DeepSorted(f.val)
    else if DynamicExtras(given.value) then SettledFields(gs)
    else gs == []
  }

  // ----- they are the fixed points of the normal form

  lemma PrimSettles(k: Prim.Kind, x: Prim.PVal)
    ensures Prim.Norm(k, x) == x <==> SettledPrim(k, x)
  {
    PrimExactly(k, x, x);
  }

  lemma PrimsSettle(k: Prim.Kind, xs: seq<Prim.PVal>)
    ensures Prim.NormAll(k, xs) == xs <==> SettledPrims(k, xs)
  {
    forall i | 0 <= i < |xs| ensures Prim.Norm(k, xs[i]) == xs[i] <==> SettledPrim(k, xs[i]) {
      PrimSettles(k, xs[i]);
    }
    assert Prim.NormAll(k, xs) == xs <==> forall i :: 0 <= i < |xs| ==> Prim.NormAll(k, xs)[i] == xs[i];
  }

  lemma {:induction false} Settles(v: Value, given: Option<Schema>)
    ensures Project(Some(v), TypeOf(v), given) == v <==> Settled(v, given)
    decreases Size(v) + 1, 9
  {
    hide Prim.Norm, Prim.NormAll, SettledPrim, SettledPrims, SettledStruct, ProjectStruct;
    match v
    case VOne(k, x) => PrimSettles(k, x);
    case VMany(k, xs) => PrimsSettle(k, xs);
    case VDyn(inner) => Settles(inner, None);
    case VDyns(vs) => AllSettle(vs);
    case VStruct(fs) => StructSettles(fs, given);
    case VStructs(own, rows) => RowsSettle(rows, RowSchema(given, own));
  }

  lemma {:induction false} AllSettle(vs: seq<Value>)
    ensures NormVars(vs) == vs <==> SettledAll(vs)
    decreases SizeAll(vs) + 1, 0
  {
    if vs != [] {
      Settles(vs[0], None);
      AllSettle(vs[1..]);
      assert vs == [vs[0]] + vs[1..] && NormVars(vs)[1..] == NormVars(vs[1..]);
    }
  }

  lemma {:induction false} FieldsSettle(fs: seq<Field>)
    ensures NormFields(fs) == fs <==> SettledFields(fs)
    decreases SizeFields(fs) + 1, 0
  {
    if fs != [] {
      Settles(fs[0].val, None);
      FieldsSettle(fs[1..]);
      assert fs == [fs[0]] + fs[1..] && NormFields(fs)[1..] == NormFields(fs[1..]);
    }
  }

  lemma {:induction false} RowsSettle(rows: seq<Row>, used: Option<Schema>)
    ensures ProjectRows(rows, used) == rows <==> SettledRows(rows, used)
    decreases SizeRows(rows) + 2, 0
  {
    hide ProjectStruct, SettledStruct;
    if rows != [] {
      StructSettles(rows[0].fields, used);
      RowsSettle(rows[1..], used);
      assert rows == [rows[0]] + rows[1..] && ProjectRows(rows, used)[1..] == ProjectRows(rows[1..], used);
    }
  }

  lemma {:induction false} StructSettles(fs: seq<Field>, given: Option<Schema>)
    ensures ProjectStruct(fs, given) == fs <==> SettledStruct(fs, given)
    decreases SizeFields(fs) + 2, 7
  {
    ProjectionExactly(fs, given, fs);
    forall name
      ensures Named(fs, name) == ProjectNamed(fs, given, name) <==> Conforms(fs, given, name, Named(fs, name))
    {
      NamedSettles(fs, given, name);
    }
  }

  lemma {:induction false} NamedSettles(fs: seq<Field>, given: Option<Schema>, name: string)
    ensures Named(fs, name) == ProjectNamed(fs, given, name) <==> Conforms(fs, given, name, Named(fs, name))
    decreases SizeFields(fs) + 2, 1
  {
    var gs := Named(fs, name);
    if given.None? || !SchemaHas(given.value.fields, name) {
      FieldsSettle(gs);
    } else {
      var s := SNamed(given.value.fields, name);
      SNamedSome(given.value.fields, name);
      GetFirst(fs, name);
      NamedIn(fs, name);
      if gs != [] {
        assert gs[0] in gs && gs == [gs[0]] + gs[1..];
        var p := ProjectBySchema(fs, s);
        assert p[0] == Field(name, Project(Lookup(fs, s[0]), s[0].ty, s[0].def)) && p[1..] == ProjectBySchema(fs, s[1..]);
        SlotsExactly(fs, s[1..], gs[1..]);
        if TypeOf(gs[0].val) == s[0].ty { Settles(gs[0].val, s[0].def); }
      }
    }
  }

  lemma {:induction false} SNamedSome(s: seq<SField>, name: string)
    requires SchemaHas(s, name)
    ensures SNamed(s, name) != [] && SNamed(s, name)[0].name == name
  {
    if s[0].name != name {
      var i :| 0 <= i < |s| && s[i].name == name;
      assert s[1..][i - 1].name == name;
      SNamedSome(s[1..], name);
    }
  }

  /** A written value survives unchanged exactly when it is settled. */
  lemma SurvivesExactly(v: Value, rest: bytes)
    requires EncVar(v).Some? && Sound(v)
    ensures DecVar(EncVar(v).value + rest) == Ok(v, rest) <==> Settled(v, None)
  {
    VarBack(v, rest);
    Settles(v, None);
  }

  lemma StructSurvivesExactly(fs: seq<Field>, given: Option<Schema>, rest: bytes)
    requires EncStruct(fs, given).Some? && SoundFields(fs) && (given.Some? ==> SoundSchema(given.value))
    ensures DecStruct(given, EncStruct(fs, given).value + rest) == Ok(fs, rest) <==> SettledStruct(fs, given)
  {
    StructBack(fs, given, rest);
    StructSettles(fs, given);
  }
}
