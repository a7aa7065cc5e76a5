/** What a value read back has to do with the one written, stated without
    computing it: the same value up to the order of fields and the residue of
    integers, sorted at every level.  The two together determine it. */
module VmSame {
  import opened Bytes
  import opened VmData
  import opened FieldOrder
  import opened SchemaCodec
  import opened VmWire
  import opened VmRoundTrip
  import opened VmLaws
  import opened VmGet
  import Int256
  import Prim

  // ----- sorted at every level

  ghost predicate DeepSorted(v: Value) {
    match v
    case VDyn(inner) => DeepSorted(inner)
    case VDyns(vs) => forall i :: 0 <= i < |vs| ==> DeepSorted(vs[i])
    case VStruct(fs) => SortedStruct(fs)
    case VStructs(_, rows) => forall i :: 0 <= i < |rows| ==> SortedStruct(rows[i].fields)
    case _ => true
  }

  ghost predicate SortedStruct(fs: seq<Field>) { Sorted(fs) && forall f :: f in fs ==> DeepSorted(f.val) }

  // ----- the same value

  /** y is x, or its signed representative for the two kinds that wrap. */
  ghost predicate SamePrim(k: Prim.Kind, x: Prim.PVal, y: Prim.PVal) {
    if x.Num? && k == Prim.I8 then y.Num? && Prim.FitsSigned(y.n, 1) && Congruent(x.n, y.n, Pow256(1))
    else if x.Num? && k == Prim.I256 then
      y.Num? && Int256.Signed256(y.n) && Congruent(x.n, y.n, Pow256(Int256.WORD))
    else y == x
  }

  ghost predicate SamePrims(k: Prim.Kind, xs: seq<Prim.PVal>, ys: seq<Prim.PVal>) {
    |xs| == |ys| && forall i :: 0 <= i < |xs| ==> SamePrim(k, xs[i], ys[i])
  }

  /** w is the value, or the type's default if there is none, under an optional
      schema. */
  ghost predicate Same(ov: Option<Value>, t: VMType, given: Option<Schema>, w: Value)
    decreases Size(w) + 1, 9
  {
    match (if ov.Some? then ov.value else Default(t), w)
    case (VOne(k, x), VOne(k', y)) => k' == k && SamePrim(k, x, y)
    case (VMany(k, xs), VMany(k', ys)) =>
      k' == k && SamePrims(k, xs, ys)
    case (VDyn(v), VDyn(w')) => SameVar(v, w')
    case (VDyns(vs), VDyns(ws)) => SameVars(vs, ws)
    case (VStruct(fs), VStruct(gs)) => SameStruct(fs, given, gs)
    case (VStructs(own, rows), VStructs(own', rows')) =>
      own' == (if given.Some? then given.value else own) && SameRows(rows, RowSchema(given, own), rows')
    case _ => false
  }

  ghost predicate SameVar(v: Value, w: Value)
    decreases Size(w) + 1, 10
  {
    Same(Some(v), TypeOf(v), None, w)
  }

  ghost predicate SameVars(vs: seq<Value>, ws: seq<Value>)
    decreases SizeAll(ws) + 1, 0
  {
    |ws| == |vs| && (vs != [] ==> SameVar(vs[0], ws[0]) && SameVars(vs[1..], ws[1..]))
  }

  /** Name by name: without a schema the fields of the name in their order; under
      a schema that has the name one field for each time it has it, else the
      fields of the name if extras are admitted. */
  ghost predicate SameStruct(fs: seq<Field>, given: Option<Schema>, gs: seq<Field>)
    decreases SizeFields(gs) + 2, 7
  {
    forall name :: SameNamed(fs, given, name, Named(gs, name))
  }

  ghost predicate SameNamed(fs: seq<Field>, given: Option<Schema>, name: string, gs: seq<Field>)
    decreases SizeFields(gs) + 2, 6
  {
    if given.None? then SameFields(Named(fs, name), gs)
    else if SchemaHas(given.value.fields, name) then SameSlots(fs, SNamed(given.value.fields, name), gs)
    else if DynamicExtras(given.value) then SameFields(Named(fs, name), gs)
    else gs == []
  }

  ghost predicate SameFields(fs: seq<Field>, gs: seq<Field>)
    decreases SizeFields(gs) + 1, 0
  {
    |gs| == |fs|
    && (fs != [] ==> gs[0].name == fs[0].name && SameVar(fs[0].val, gs[0].val) && SameFields(fs[1..], gs[1..]))
  }

  ghost predicate SameSlots(fs: seq<Field>, s: seq<SField>, gs: seq<Field>)
    decreases SizeFields(gs) + 1, 0
  {
    |gs| == |s|
    && (s != [] ==>
          && gs[0].name == s[0].name
          && Same(Lookup(fs, s[0]), s[0].ty, s[0].def, gs[0].val)
          && SameSlots(fs, s[1..], gs[1..]))
  }

  ghost predicate SameRows(rows: seq<Row>, used: Option<Schema>, rows': seq<Row>)
    decreases SizeRows(rows') + 2, 0
  {
    |rows'| == |rows|
    && (rows != [] ==> SameStruct(rows[0].fields, used, rows'[0].fields) && SameRows(rows[1..], used, rows'[1..]))
  }

  // ----- fields of one name

  function SNamed(s: seq<SField>, name: string): (r: seq<SField>) {
    if s == [] then []
    else if s[0].name == name then [s[0]] + SNamed(s[1..], name)
    else SNamed(s[1..], name)
  }

  lemma {:induction false} SNamedNone(s: seq<SField>, name: string)
    requires !SchemaHas(s, name)
    ensures SNamed(s, name) == []
  {
    if s != [] {
      assert s[0].name != name;
      assert forall i :: 0 <= i < |s[1..]| ==> s[1..][i] == s[i + 1];
      SNamedNone(s[1..], name);
    }
  }

  lemma {:induction false} NamedProjected(fs: seq<Field>, s: seq<SField>, name: string)
    ensures Named(ProjectBySchema(fs, s), name) == ProjectBySchema(fs, SNamed(s, name))
  {
    if s != [] {
      var p := ProjectBySchema(fs, s);
      assert p[0].name == s[0].name && p[1..] == ProjectBySchema(fs, s[1..]);
      NamedProjected(fs, s[1..], name);
      if s[0].name == name { assert SNamed(s, name)[1..] == SNamed(s[1..], name); }
    }
  }

  lemma {:induction false} NamedNorm(fs: seq<Field>, name: string)
    ensures Named(NormFields(fs), name) == NormFields(Named(fs, name))
  {
    if fs != [] {
      assert NormFields(fs)[0].name == fs[0].name && NormFields(fs)[1..] == NormFields(fs[1..]);
      NamedNorm(fs[1..], name);
      if fs[0].name == name { assert Named(fs, name)[1..] == Named(fs[1..], name); }
    }
  }

  lemma {:induction false} NamedExtras(fs: seq<Field>, s: seq<SField>, name: string)
    ensures Named(Extras(fs, s), name) == if SchemaHas(s, name) then [] else Named(fs, name)
  {
    if fs != [] {
      NamedExtras(fs[1..], s, name);
      if !SchemaHas(s, fs[0].name) { assert Extras(fs, s)[1..] == Extras(fs[1..], s); }
    }
  }

  /** The fields of one name in a projection. */
  function ProjectNamed(fs: seq<Field>, given: Option<Schema>, name: string): seq<Field> {
    if given.None? then NormFields(Named(fs, name))
    else if SchemaHas(given.value.fields, name) then ProjectBySchema(fs, SNamed(given.value.fields, name))
    else if DynamicExtras(given.value) then NormFields(Named(fs, name))
    else []
  }

  lemma ProjectedByName(fs: seq<Field>, given: Option<Schema>, name: string)
    ensures Named(ProjectStruct(fs, given), name) == ProjectNamed(fs, given, name)
  {
    if given.None? {
      NamedNorm(Sort(fs), name);
      SortStable(fs, name);
    } else {
      var s := given.value;
      var p := ProjectBySchema(fs, s.fields);
      var e := if DynamicExtras(s) then NormFields(Extras(fs, s.fields)) else [];
      SortStable(p + e, name);
      NamedConcat(p, e, name);
      NamedProjected(fs, s.fields, name);
      NamedNorm(Extras(fs, s.fields), name);
      NamedExtras(fs, s.fields, name);
      if !SchemaHas(s.fields, name) { SNamedNone(s.fields, name); }
    }
  }

  lemma ProjectionSorted(fs: seq<Field>, given: Option<Schema>)
    ensures Sorted(ProjectStruct(fs, given))
  {
    if given.None? {
      SortSorted(fs);
      NormSorted(Sort(fs));
      SortSorted(NormFields(Sort(fs)));
    } else {
      var s := given.value;
      SortSorted(ProjectBySchema(fs, s.fields) + if DynamicExtras(s) then NormFields(Extras(fs, s.fields)) else []);
    }
  }

  /** A struct is the projection exactly when it is sorted and has the
      projection's fields of each name. */
  lemma ProjectionExactly(fs: seq<Field>, given: Option<Schema>, gs: seq<Field>)
    ensures gs == ProjectStruct(fs, given)
       <==> Sorted(gs) && forall name :: Named(gs, name) == ProjectNamed(fs, given, name)
  {
    var p := ProjectStruct(fs, given);
    ProjectionSorted(fs, given);
    forall name ensures Named(p, name) == ProjectNamed(fs, given, name) { ProjectedByName(fs, given, name); }
    if Sorted(gs) && forall name :: Named(gs, name) == ProjectNamed(fs, given, name) { SortedByNamed(gs, p); }
  }

  // ----- the two together determine what is read back

  /** One byte stands for exactly one integer of its signed range. */
  lemma ByteExactly(n: int, r: int)
    ensures r == SInt([n % 256]) <==> Prim.FitsSigned(r, 1) && Congruent(n, r, Pow256(1))
  {
    var b: byte := n % 256;
    assert LE(n, 1) == [b] by { assert LE(n, 1) == [n % 256] + LE(n / 256, 0); }
    SIntOfLE(n, 1);
    SIntRange([b]);
    Representative(n, SInt([b]), r, Pow256(1));
  }

  lemma Representative(n: int, u: int, r: int, p: int)
    requires p > 0 && -p <= 2 * u < p && Congruent(n, u, p)
    ensures r == u <==> -p <= 2 * r < p && Congruent(n, r, p)
  {
    if -p <= 2 * r < p && Congruent(n, r, p) {
      CongruentTrans(n, r, u, p);
      SignedUnique(r, u, p);
    }
  }

  lemma WordExactly(n: int, r: int)
    ensures r == Int256.Wrap(n) <==> Int256.Signed256(r) && Congruent(n, r, Pow256(Int256.WORD))
  {
    Int256.WrapUnique(n);
  }

  lemma PrimExactly(k: Prim.Kind, x: Prim.PVal, y: Prim.PVal)
    ensures y == Prim.Norm(k, x) <==> SamePrim(k, x, y)
  {
    hide Congruent, Pow256, SInt, Int256.Wrap, Int256.Signed256, Prim.FitsSigned;
    if x.Num? && y.Num? && k == Prim.I8 {
      ByteExactly(x.n, y.n);
    } else if x.Num? && y.Num? && k == Prim.I256 {
      WordExactly(x.n, y.n);
    }
  }

  lemma PrimsExactly(k: Prim.Kind, xs: seq<Prim.PVal>, ys: seq<Prim.PVal>)
    ensures ys == Prim.NormAll(k, xs) <==> SamePrims(k, xs, ys)
  {
    if |ys| == |xs| {
      forall i | 0 <= i < |xs| ensures ys[i] == Prim.Norm(k, xs[i]) <==> SamePrim(k, xs[i], ys[i]) {
        PrimExactly(k, xs[i], ys[i]);
      }
      assert (forall i :: 0 <= i < |xs| ==> ys[i] == Prim.NormAll(k, xs)[i]) ==> ys == Prim.NormAll(k, xs);
    }
  }

  lemma {:induction false} Exactly(ov: Option<Value>, t: VMType, given: Option<Schema>, w: Value)
    requires ov.Some? ==> TypeOf(ov.value) == t
    ensures w == Project(ov, t, given) <==> Same(ov, t, given, w) && DeepSorted(w)
    decreases Size(w) + 1, 9
  {
    hide Prim.Norm, Prim.NormAll, SamePrim, SamePrims, SameStruct, ProjectStruct, SameVars, SameRows, NormVars, ProjectRows, SortedStruct;
    match (if ov.Some? then ov.value else Default(t), w)
    case (VOne(k, x), VOne(k', y)) => PrimExactly(k, x, y);
    case (VMany(k, xs), VMany(k', ys)) => PrimsExactly(k, xs, ys);
    case (VDyn(v), VDyn(w')) => Exactly(Some(v), TypeOf(v), None, w');
    case (VDyns(vs), VDyns(ws)) => VarsExactly(vs, ws);
    case (VStruct(fs), VStruct(gs)) => StructExactly(fs, given, gs);
    case (VStructs(own, rows), VStructs(own', rows')) => RowsExactly(rows, RowSchema(given, own), rows');
    case _ =>
  }

  lemma {:induction false} VarsExactly(vs: seq<Value>, ws: seq<Value>)
    ensures ws == NormVars(vs) <==> SameVars(vs, ws) && forall i :: 0 <= i < |ws| ==> DeepSorted(ws[i])
    decreases SizeAll(ws) + 1, 0
  {
    if vs != [] && |ws| == |vs| {
      Exactly(Some(vs[0]), TypeOf(vs[0]), None, ws[0]);
      VarsExactly(vs[1..], ws[1..]);
      assert ws == [ws[0]] + ws[1..];
      assert forall i :: 0 < i < |ws| ==> ws[i] == ws[1..][i - 1];
    }
  }

  lemma {:induction false} FieldsExactly(fs: seq<Field>, gs: seq<Field>)
    ensures gs == NormFields(fs) <==> SameFields(fs, gs) && forall f :: f in gs ==> DeepSorted(f.val)
    decreases SizeFields(gs) + 1, 0
  {
    if fs != [] && |gs| == |fs| {
      Exactly(Some(fs[0].val), TypeOf(fs[0].val), None, gs[0].val);
      FieldsExactly(fs[1..], gs[1..]);
      assert gs == [gs[0]] + gs[1..];
    }
  }

  lemma {:induction false} SlotsExactly(fs: seq<Field>, s: seq<SField>, gs: seq<Field>)
    ensures gs == ProjectBySchema(fs, s) <==> SameSlots(fs, s, gs) && forall f :: f in gs ==> DeepSorted(f.val)
    decreases SizeFields(gs) + 1, 0
  {
    if s != [] && |gs| == |s| {
      Exactly(Lookup(fs, s[0]), s[0].ty, s[0].def, gs[0].val);
      SlotsExactly(fs, s[1..], gs[1..]);
      assert gs == [gs[0]] + gs[1..];
    }
  }

  lemma {:induction false} NamedExactly(fs: seq<Field>, given: Option<Schema>, name: string, gs: seq<Field>)
    ensures gs == ProjectNamed(fs, given, name)
       <==> SameNamed(fs, given, name, gs) && forall f :: f in gs ==> DeepSorted(f.val)
    decreases SizeFields(gs) + 2, 6
  {
    if given.Some? && SchemaHas(given.value.fields, name) {
      SlotsExactly(fs, SNamed(given.value.fields, name), gs);
    } else {
      FieldsExactly(Named(fs, name), gs);
    }
  }

  lemma {:induction false} StructExactly(fs: seq<Field>, given: Option<Schema>, gs: seq<Field>)
    ensures gs == ProjectStruct(fs, given) <==> SameStruct(fs, given, gs) && SortedStruct(gs)
    decreases SizeFields(gs) + 2, 7
  {
    ProjectionExactly(fs, given, gs);
    forall name
      ensures Named(gs, name) == ProjectNamed(fs, given, name)
         <==> SameNamed(fs, given, name, Named(gs, name)) && forall f :: f in Named(gs, name) ==> DeepSorted(f.val)
    {
      NamedExactly(fs, given, name, Named(gs, name));
    }
    forall name ensures forall f :: f in Named(gs, name) <==> f in gs && f.name == name { NamedIn(gs, name); }
    if forall name :: Named(gs, name) == ProjectNamed(fs, given, name) {
      forall f | f in gs ensures DeepSorted(f.val) { assert f in Named(gs, f.name); }
    }
  }

  lemma {:induction false} RowsExactly(rows: seq<Row>, used: Option<Schema>, rows': seq<Row>)
    ensures rows' == ProjectRows(rows, used)
       <==> SameRows(rows, used, rows') && forall i :: 0 <= i < |rows'| ==> SortedStruct(rows'[i].fields)
    decreases SizeRows(rows') + 2, 0
  {
    hide SameStruct, SortedStruct, ProjectStruct;
    if rows != [] && |rows'| == |rows| {
      StructExactly(rows[0].fields, used, rows'[0].fields);
      RowsExactly(rows[1..], used, rows'[1..]);
      assert rows' == [rows'[0]] + rows'[1..];
      assert forall i :: 0 < i < |rows'| ==> rows'[i] == rows'[1..][i - 1];
    }
  }

  // ----- so a value that is written

  /** What is read is the same value, sorted at every level, and nothing else. */
  lemma VarReads(v: Value, rest: bytes, w: Value)
    requires EncVar(v).Some? && Sound(v)
    ensures DecVar(EncVar(v).value + rest) == Ok(w, rest) <==> SameVar(v, w) && DeepSorted(w)
  {
    VarBack(v, rest);
    Exactly(Some(v), TypeOf(v), None, w);
  }

  lemma StructReads(fs: seq<Field>, given: Option<Schema>, rest: bytes, gs: seq<Field>)
    requires EncStruct(fs, given).Some? && SoundFields(fs) && (given.Some? ==> SoundSchema(given.value))
    ensures DecStruct(given, EncStruct(fs, given).value + rest) == Ok(gs, rest)
       <==> SameStruct(fs, given, gs) && SortedStruct(gs)
  {
    hide EncStruct, DecStruct, ProjectStruct, SameStruct, SortedStruct;
    StructBack(fs, given, rest);
    StructExactly(fs, given, gs);
  }

  /** The normal form is sorted at every level and the same value, written or not. */
  lemma NormSame(v: Value)
    ensures DeepSorted(NormVar(v)) && SameVar(v, NormVar(v))
  {
    Exactly(Some(v), TypeOf(v), None, NormVar(v));
  }
}
