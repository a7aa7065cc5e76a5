/** What was read back is canonical: normalising it again changes nothing, at any
    depth. */
module VmCanonical {
  import opened Bytes
  import opened VmData
  import opened FieldOrder
  import opened SchemaCodec
  import opened VmWire
  import opened VmRoundTrip
  import opened VmLaws
  import opened VmGet
  import Prim

  /** Struct arrays that carry their own schema carry distinct names in it. */
  ghost predicate Tidy(v: Value) {
    match v
    case VDyn(inner) => Tidy(inner)
    case VDyns(vs) => TidyAll(vs)
    case VStruct(fs) => TidyFields(fs)
    case VStructs(own, rows) => DistinctDeep(own) && TidyRows(rows)
    case _ => true
  }

  ghost predicate TidyAll(vs: seq<Value>) { vs != [] ==> Tidy(vs[0]) && TidyAll(vs[1..]) }

  ghost predicate TidyFields(fs: seq<Field>) { forall f :: f in fs ==> Tidy(f.val) }

  ghost predicate TidyRows(rows: seq<Row>) { rows != [] ==> TidyFields(rows[0].fields) && TidyRows(rows[1..]) }

  lemma TidyLookup(fs: seq<Field>, f: SField)
    requires TidyFields(fs)
    ensures Lookup(fs, f).Some? ==> Tidy(Lookup(fs, f).value)
  {
    if Get(fs, f.name).Some? { GetFrom(fs, f.name); }
  }

  lemma TidyExtras(fs: seq<Field>, s: seq<SField>)
    requires TidyFields(fs)
    ensures TidyFields(Extras(fs, s))
  {
    ExtrasIn(fs, s);
  }

  lemma TidySort(fs: seq<Field>)
    requires TidyFields(fs)
    ensures TidyFields(Sort(fs))
  {
    forall f | f in Sort(fs) ensures Tidy(f.val) { SortIn(fs, f); }
  }

  // ----- extras of what was projected

  lemma {:induction false} ExtrasConcat(a: seq<Field>, b: seq<Field>, s: seq<SField>)
    ensures Extras(a + b, s) == Extras(a, s) + Extras(b, s)
  {
    if a == [] {
      assert a + b == b;
    } else {
      assert (a + b)[1..] == a[1..] + b;
      ExtrasConcat(a[1..], b, s);
    }
  }

  lemma {:induction false} ExtrasAll(fs: seq<Field>, s: seq<SField>)
    requires forall f :: f in fs ==> !SchemaHas(s, f.name)
    ensures Extras(fs, s) == fs
  {
    if fs != [] {
      assert fs[0] in fs;
      ExtrasAll(fs[1..], s);
      assert [fs[0]] + fs[1..] == fs;
    }
  }

  lemma ProjectedInSchema(fs: seq<Field>, s: seq<SField>)
    ensures Extras(ProjectBySchema(fs, s), s) == []
  {
    var p := ProjectBySchema(fs, s);
    ExtrasIn(p, s);
    if Extras(p, s) != [] {
      var f := Extras(p, s)[0];
      assert f in Extras(p, s);
      var i :| 0 <= i < |p| && p[i] == f;
      BySchemaAt(fs, s, i);
    }
  }

  lemma NormNotInSchema(fs: seq<Field>, s: seq<SField>)
    ensures forall f :: f in NormFields(Extras(fs, s)) ==> !SchemaHas(s, f.name)
  {
    var x := Extras(fs, s);
    ExtrasIn(fs, s);
    forall f | f in NormFields(x) ensures !SchemaHas(s, f.name) {
      var i :| 0 <= i < |x| && NormFields(x)[i] == f;
      NormNames(x, i);
      assert x[i] in x;
    }
  }

  // ----- twice is once

  /** A value read back reads back as itself. */
  lemma {:induction false} NormTwice(v: Value)
    requires Tidy(v)
    ensures NormVar(NormVar(v)) == NormVar(v)
    decreases Size(v) + 1, 0, 9
  {
    ProjectTwice(Some(v), TypeOf(v), None);
  }

  lemma {:induction false} ProjectTwice(ov: Option<Value>, t: VMType, given: Option<Schema>)
    requires ov.Some? ==> TypeOf(ov.value) == t && Tidy(ov.value)
    requires DistinctDef(given)
    ensures Project(Some(Project(ov, t, given)), t, given) == Project(ov, t, given)
    decreases if ov.Some? then Size(ov.value) + 1 else 2, DefSize(given), 8
  {
    hide ProjectStruct, Prim.Norm, Prim.NormAll, Prim.Dec;
    match if ov.Some? then ov.value else Default(t)
    case VOne(k, x) => Prim.NormIdempotent(k, x);
    case VMany(k, xs) => ManyTwice(k, xs);
    case VDyn(inner) => NormTwice(inner);
    case VDyns(vs) => VarsTwice(vs);
    case VStruct(fs) => StructTwice(fs, given);
    case VStructs(own, rows) => RowsTwice(rows, RowSchema(given, own));
  }

  lemma ManyTwice(k: Prim.Kind, xs: seq<Prim.PVal>)
    ensures Prim.NormAll(k, Prim.NormAll(k, xs)) == Prim.NormAll(k, xs)
  {
    forall i | 0 <= i < |xs| ensures Prim.NormAll(k, Prim.NormAll(k, xs))[i] == Prim.NormAll(k, xs)[i] {
      Prim.NormIdempotent(k, xs[i]);
    }
  }

  lemma {:induction false} VarsTwice(vs: seq<Value>)
    requires TidyAll(vs)
    ensures NormVars(NormVars(vs)) == NormVars(vs)
    decreases SizeAll(vs) + 1, 0, 0
  {
    if vs != [] {
      NormTwice(vs[0]);
      VarsTwice(vs[1..]);
      assert NormVars(vs)[1..] == NormVars(vs[1..]);
    }
  }

  lemma {:induction false} FieldsTwice(fs: seq<Field>)
    requires TidyFields(fs)
    ensures NormFields(NormFields(fs)) == NormFields(fs)
    decreases SizeFields(fs) + 1, 0, 0
  {
    if fs != [] {
      assert fs[0] in fs;
      NormTwice(fs[0].val);
      FieldsTwice(fs[1..]);
      assert NormFields(fs)[1..] == NormFields(fs[1..]);
    }
  }

  lemma {:induction false} RowsTwice(rows: seq<Row>, used: Option<Schema>)
    requires TidyRows(rows) && DistinctDef(used)
    ensures ProjectRows(ProjectRows(rows, used), used) == ProjectRows(rows, used)
    decreases SizeRows(rows) + 2, 0, 0
  {
    if rows != [] {
      StructTwice(rows[0].fields, used);
      RowsTwice(rows[1..], used);
      assert ProjectRows(rows, used)[1..] == ProjectRows(rows[1..], used);
    }
  }

  /** The same for a struct under a schema, defaults and extras included. */
  lemma {:induction false} StructTwice(fs: seq<Field>, given: Option<Schema>)
    requires TidyFields(fs) && DistinctDef(given)
    ensures ProjectStruct(ProjectStruct(fs, given), given) == ProjectStruct(fs, given)
    decreases SizeFields(fs) + 2, DefSize(given), 7
  {
    if given.None? {
      TidySort(fs);
      FieldsTwice(Sort(fs));
      SortSorted(fs);
      NormSorted(Sort(fs));
    } else {
      var s := given.value;
      var extras := if DynamicExtras(s) then Extras(fs, s.fields) else [];
      TidyExtras(fs, s.fields);
      FieldsTwice(extras);
      if DynamicExtras(s) { NormNotInSchema(fs, s.fields); }
      SchemaPart(fs, s, NormFields(extras));
      ExtrasPart(fs, s, NormFields(extras));
      SortTail(ProjectBySchema(fs, s.fields), NormFields(extras));
    }
  }

  /** The schema's fields of the projection are found and kept. */
  lemma {:induction false} SchemaPart(fs: seq<Field>, s: Schema, e: seq<Field>)
    requires TidyFields(fs) && DistinctDeep(s)
    ensures ProjectBySchema(Sort(ProjectBySchema(fs, s.fields) + e), s.fields) == ProjectBySchema(fs, s.fields)
    decreases SizeFields(fs) + 2, DefSize(Some(s)), 6
  {
    var p := ProjectBySchema(fs, s.fields);
    forall i | 0 <= i < |s.fields|
      ensures Get(Sort(p + e), s.fields[i].name)
           == Some(Project(Lookup(fs, s.fields[i]), s.fields[i].ty, s.fields[i].def))
    {
      GetSorted(p + e, s.fields[i].name);
      GetConcat(p, e, s.fields[i].name);
      ProjectedGet(fs, s.fields, i);
    }
    BySchemaTwice(fs, Sort(p + e), s.fields);
  }

  lemma {:induction false} BySchemaTwice(fs: seq<Field>, r: seq<Field>, s: seq<SField>)
    requires TidyFields(fs) && DistinctDefs(s)
    requires forall i :: 0 <= i < |s| ==>
               Get(r, s[i].name) == Some(Project(Lookup(fs, s[i]), s[i].ty, s[i].def))
    ensures ProjectBySchema(r, s) == ProjectBySchema(fs, s)
    decreases SizeFields(fs) + 2, SFieldsSize(s), 6
  {
    if s != [] {
      TidyLookup(fs, s[0]);
      ProjectTwice(Lookup(fs, s[0]), s[0].ty, s[0].def);
      forall i | 0 <= i < |s[1..]|
        ensures Get(r, s[1..][i].name) == Some(Project(Lookup(fs, s[1..][i]), s[1..][i].ty, s[1..][i].def))
      {
        assert s[1..][i] == s[i + 1];
      }
      BySchemaTwice(fs, r, s[1..]);
    }
  }

  /** The extras of the projection are the extras, sorted. */
  lemma ExtrasPart(fs: seq<Field>, s: Schema, e: seq<Field>)
    requires NormFields(e) == e && forall f :: f in e ==> !SchemaHas(s.fields, f.name)
    ensures NormFields(Extras(Sort(ProjectBySchema(fs, s.fields) + e), s.fields)) == Sort(e)
  {
    var p := ProjectBySchema(fs, s.fields);
    ExtrasSort(p + e, s.fields);
    ExtrasConcat(p, e, s.fields);
    ProjectedInSchema(fs, s.fields);
    ExtrasAll(e, s.fields);
    assert [] + e == e;
    NormSort(e);
  }
}
