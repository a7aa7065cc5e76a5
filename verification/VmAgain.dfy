/** What was read back can be written again, and is read back exactly. */
module VmAgain {
  import opened Bytes
  import opened VmData
  import opened FieldOrder
  import opened SchemaCodec
  import opened VmWire
  import opened VmRoundTrip
  import opened VmLaws
  import opened VmGet
  import opened VmCanonical
  import opened VmSettled
  import Int256
  import Prim

  // ----- primitives

  lemma PrimAgain(k: Prim.Kind, x: Prim.PVal)
    requires Prim.Enc(k, x).Some?
    ensures Prim.Enc(k, Prim.Norm(k, x)).Some?
  {
    if x.Num? && k == Prim.I256 { Int256.WrapUnique(x.n); }
  }

  lemma {:induction false} PrimsAgain(k: Prim.Kind, xs: seq<Prim.PVal>)
    requires Prim.EncAll(k, xs).Some?
    ensures Prim.EncAll(k, Prim.NormAll(k, xs)).Some?
  {
    if xs != [] {
      PrimAgain(k, xs[0]);
      PrimsAgain(k, xs[1..]);
      assert Prim.NormAll(k, xs)[1..] == Prim.NormAll(k, xs[1..]);
    }
  }

  // ----- lists of named fields

  lemma {:induction false} FieldsWritten(fs: seq<Field>)
    ensures EncFields(fs).Some? <==> forall f :: f in fs ==> Prim.EncSmall(f.name).Some? && EncVar(f.val).Some?
  {
    if fs != [] {
      FieldsWritten(fs[1..]);
      assert fs == [fs[0]] + fs[1..];
    }
  }

  lemma SortWritten(fs: seq<Field>)
    ensures EncFields(Sort(fs)).Some? <==> EncFields(fs).Some?
  {
    FieldsWritten(fs);
    FieldsWritten(Sort(fs));
    forall f ensures f in Sort(fs) <==> f in fs { SortIn(fs, f); }
  }

  // ----- it can be written

  lemma {:induction false} VarAgain(v: Value)
    requires EncVar(v).Some? && Tidy(v)
    ensures EncVar(NormVar(v)).Some?
    decreases Size(v) + 1, 0, 9
  {
    StaticAgain(Some(v), TypeOf(v), None);
  }

  lemma {:induction false} StaticAgain(ov: Option<Value>, t: VMType, given: Option<Schema>)
    requires ov.Some? ==> TypeOf(ov.value) == t && Tidy(ov.value)
    requires DistinctDef(given) && EncStatic(ov, t, given).Some?
    ensures EncStatic(Some(Project(ov, t, given)), t, given).Some?
    decreases if ov.Some? then Size(ov.value) + 1 else 2, DefSize(given), 8
  {
    hide EncStruct, ProjectStruct, Prim.Enc, Prim.Norm, Prim.NormAll;
    match if ov.Some? then ov.value else Default(t)
    case VOne(k, x) => PrimAgain(k, x);
    case VMany(k, xs) => PrimsAgain(k, xs);
    case VDyn(inner) => VarAgain(inner);
    case VDyns(vs) => VarsAgain(vs);
    case VStruct(fs) => StructAgain(fs, given);
    case VStructs(own, rows) => RowsAgain(rows, RowSchema(given, own));
  }

  lemma {:induction false} VarsAgain(vs: seq<Value>)
    requires EncVars(vs).Some? && TidyAll(vs)
    ensures EncVars(NormVars(vs)).Some?
    decreases SizeAll(vs) + 1, 0, 0
  {
    if vs != [] {
      VarAgain(vs[0]);
      VarsAgain(vs[1..]);
      assert NormVars(vs)[1..] == NormVars(vs[1..]);
    }
  }

  lemma {:induction false} FieldsAgain(fs: seq<Field>)
    requires EncFields(fs).Some? && TidyFields(fs)
    ensures EncFields(NormFields(fs)).Some?
    decreases SizeFields(fs) + 1, 0, 0
  {
    if fs != [] {
      assert fs[0] in fs;
      VarAgain(fs[0].val);
      FieldsAgain(fs[1..]);
      assert NormFields(fs)[1..] == NormFields(fs[1..]);
    }
  }

  lemma {:induction false} RowsAgain(rows: seq<Row>, used: Option<Schema>)
    requires TidyRows(rows) && DistinctDef(used) && EncRows(rows, used).Some?
    ensures EncRows(ProjectRows(rows, used), used).Some?
    decreases SizeRows(rows) + 2, 0, 0
  {
    if rows != [] {
      StructAgain(rows[0].fields, used);
      RowsAgain(rows[1..], used);
      assert ProjectRows(rows, used)[1..] == ProjectRows(rows[1..], used);
    }
  }

  lemma {:induction false} StructAgain(fs: seq<Field>, given: Option<Schema>)
    requires TidyFields(fs) && DistinctDef(given) && EncStruct(fs, given).Some?
    ensures EncStruct(ProjectStruct(fs, given), given).Some?
    decreases SizeFields(fs) + 2, DefSize(given), 7
  {
    if given.None? {
      TidySort(fs);
      FieldsAgain(Sort(fs));
      SortSorted(fs);
      NormSorted(Sort(fs));
    } else {
      var s := given.value;
      BySchemaAgain(fs, s, s.fields);
      if DynamicExtras(s) { ExtrasAgain(fs, s); }
    }
  }

  /** The projection's own schema fields, any tail of them. */
  lemma {:induction false} BySchemaAgain(fs: seq<Field>, s: Schema, tail: seq<SField>)
    requires TidyFields(fs) && DistinctDeep(s) && DistinctDefs(tail) && EncBySchema(fs, tail).Some?
    requires forall f :: f in tail ==> f in s.fields
    ensures EncBySchema(ProjectStruct(fs, Some(s)), tail).Some?
    decreases SizeFields(fs) + 2, SFieldsSize(tail), 6
  {
    if tail != [] {
      var f := tail[0];
      assert f in s.fields;
      TidyLookup(fs, f);
      ProjectionFinds(fs, s, f);
      StaticAgain(Lookup(fs, f), f.ty, f.def);
      BySchemaAgain(fs, s, tail[1..]);
    }
  }

  lemma ProjectionFinds(fs: seq<Field>, s: Schema, f: SField)
    requires DistinctSNames(s.fields) && f in s.fields
    ensures Lookup(ProjectStruct(fs, Some(s)), f) == Some(Project(Lookup(fs, f), f.ty, f.def))
  {
    var p := ProjectBySchema(fs, s.fields);
    var e := if DynamicExtras(s) then NormFields(Extras(fs, s.fields)) else [];
    var i :| 0 <= i < |s.fields| && s.fields[i] == f;
    GetSorted(p + e, f.name);
    GetConcat(p, e, f.name);
    ProjectedGet(fs, s.fields, i);
  }

  lemma ExtrasProjected(fs: seq<Field>, s: Schema)
    requires DynamicExtras(s)
    ensures Extras(ProjectStruct(fs, Some(s)), s.fields) == Sort(NormFields(Extras(fs, s.fields)))
  {
    var p, e := ProjectBySchema(fs, s.fields), NormFields(Extras(fs, s.fields));
    NormNotInSchema(fs, s.fields);
    ExtrasSort(p + e, s.fields);
    ExtrasConcat(p, e, s.fields);
    ProjectedInSchema(fs, s.fields);
    ExtrasAll(e, s.fields);
    assert [] + e == e;
  }

  lemma {:induction false} ExtrasAgain(fs: seq<Field>, s: Schema)
    requires TidyFields(fs) && DistinctDeep(s) && DynamicExtras(s) && EncNamed(WrittenExtras(fs, s.fields)).Some?
    ensures var p := ProjectStruct(fs, Some(s)); EncNamed(WrittenExtras(p, s.fields)).Some?
    decreases SizeFields(fs) + 2, 0, 0
  {
    var p := ProjectStruct(fs, Some(s));
    ShortcutIsExact(fs, s.fields);
    ShortcutIsExact(p, s.fields);
    ExtrasProjected(fs, s);
    TidyExtras(fs, s.fields);
    FieldsAgain(Extras(fs, s.fields));
    SortWritten(NormFields(Extras(fs, s.fields)));
  }

  // ----- and it is sound

  lemma {:induction false} SoundNorm(v: Value)
    requires Sound(v)
    ensures Sound(NormVar(v))
    decreases Size(v) + 1, 0, 9
  {
    SoundProject(Some(v), TypeOf(v), None);
  }

  /** The schema a projection carries on is canonical and sound. */
  ghost predicate SoundGiven(t: VMType, given: Option<Schema>) {
    SoundDef(t, given) && (given.Some? ==> Canonical(given.value))
  }

  lemma {:induction false} SoundProject(ov: Option<Value>, t: VMType, given: Option<Schema>)
    requires ov.Some? ==> TypeOf(ov.value) == t && Sound(ov.value)
    requires SoundGiven(t, given)
    ensures Sound(Project(ov, t, given))
    decreases if ov.Some? then Size(ov.value) + 1 else 2, DefSize(given), 8
  {
    match if ov.Some? then ov.value else Default(t)
    case VOne(k, x) =>
    case VMany(k, xs) =>
    case VDyn(inner) => SoundNorm(inner);
    case VDyns(vs) => SoundVars(vs);
    case VStruct(fs) => SoundStruct(fs, given);
    case VStructs(own, rows) => SoundProjectRows(rows, RowSchema(given, own));
  }

  lemma {:induction false} SoundVars(vs: seq<Value>)
    requires SoundAll(vs)
    ensures SoundAll(NormVars(vs))
    decreases SizeAll(vs) + 1, 0, 0
  {
    if vs != [] {
      SoundNorm(vs[0]);
      SoundVars(vs[1..]);
      assert NormVars(vs)[1..] == NormVars(vs[1..]);
    }
  }

  lemma {:induction false} SoundNormFields(fs: seq<Field>)
    requires SoundFields(fs)
    ensures SoundFields(NormFields(fs))
    decreases SizeFields(fs) + 1, 0, 0
  {
    if fs != [] {
      SoundNorm(fs[0].val);
      SoundNormFields(fs[1..]);
      assert NormFields(fs)[1..] == NormFields(fs[1..]);
    }
  }

  lemma {:induction false} SoundProjectRows(rows: seq<Row>, used: Option<Schema>)
    requires SoundRows(rows) && SoundGiven(TStruct, used)
    ensures SoundRows(ProjectRows(rows, used))
    decreases SizeRows(rows) + 2, 0, 0
  {
    if rows != [] {
      SoundStruct(rows[0].fields, used);
      SoundProjectRows(rows[1..], used);
      assert ProjectRows(rows, used)[1..] == ProjectRows(rows[1..], used);
    }
  }

  lemma {:induction false} SoundStruct(fs: seq<Field>, given: Option<Schema>)
    requires SoundFields(fs) && SoundGiven(TStruct, given)
    ensures SoundFields(ProjectStruct(fs, given))
    decreases SizeFields(fs) + 2, DefSize(given), 7
  {
    if given.None? {
      SoundSort(fs);
      SoundNormFields(Sort(fs));
    } else {
      var s := given.value;
      assert SoundSchema(s) && Canonical(s);
      SoundBySchema(fs, s.fields);
      SoundExtras(fs, s.fields);
      SoundNormFields(Extras(fs, s.fields));
      var p := ProjectBySchema(fs, s.fields);
      var e := if DynamicExtras(s) then NormFields(Extras(fs, s.fields)) else [];
      SoundConcat(p, e);
      SoundSort(p + e);
    }
  }

  lemma {:induction false} SoundConcat(a: seq<Field>, b: seq<Field>)
    requires SoundFields(a) && SoundFields(b)
    ensures SoundFields(a + b)
  {
    if a == [] {
      assert a + b == b;
    } else {
      assert (a + b)[1..] == a[1..] + b;
      SoundConcat(a[1..], b);
    }
  }

  lemma {:induction false} SoundBySchema(fs: seq<Field>, s: seq<SField>)
    requires SoundFields(fs) && SoundSFields(s) && CanonicalFields(s)
    ensures SoundFields(ProjectBySchema(fs, s))
    decreases SizeFields(fs) + 2, SFieldsSize(s), 6
  {
    if s != [] {
      SoundGet(fs, s[0].name);
      SoundProject(Lookup(fs, s[0]), s[0].ty, s[0].def);
      SoundBySchema(fs, s[1..]);
      assert ProjectBySchema(fs, s)[1..] == ProjectBySchema(fs, s[1..]);
    }
  }

  // ----- so reading back settles a value for good

  /** A value read back is settled, can be written again, and comes back exactly. */
  lemma ReadBackExact(u: Value, rest: bytes)
    requires EncVar(u).Some? && Sound(u) && Tidy(u)
    ensures EncVar(NormVar(u)).Some? && Settled(NormVar(u), None)
    ensures DecVar(EncVar(NormVar(u)).value + rest) == Ok(NormVar(u), rest)
  {
    VarAgain(u);
    SoundNorm(u);
    NormTwice(u);
    Settles(NormVar(u), None);
    VarBack(NormVar(u), rest);
  }
}
