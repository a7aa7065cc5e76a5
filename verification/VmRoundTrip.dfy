/** Round trips of dynamic values, to any nesting depth. */
module VmRoundTrip {
  import opened Bytes
  import opened VmData
  import opened FieldOrder
  import opened SchemaCodec
  import opened VmWire
  import Prim

  // ----- well-formedness

  ghost predicate DistinctSNames(s: seq<SField>) {
    forall i, j :: 0 <= i < j < |s| ==> s[i].name != s[j].name
  }

  /** Every struct written under the schema takes at least one byte. */
  predicate Occupies(s: Schema)
    decreases SchemaSize(s), 1
  {
    DynamicExtras(s) || FieldsOccupy(s.fields)
  }

  predicate FieldsOccupy(s: seq<SField>)
    decreases SFieldsSize(s), 0
  {
    s != [] && (FieldOccupies(s[0].ty, s[0].def) || FieldsOccupy(s[1..]))
  }

  predicate FieldOccupies(t: VMType, d: Option<Schema>)
    decreases DefSize(d), 2
  {
    t != TStruct || d.None? || Occupies(d.value)
  }

  /** Names are distinct where extras are admitted, and struct arrays have rows
      that take room; so at every level. */
  ghost predicate SoundSchema(s: Schema)
    decreases SchemaSize(s), 1
  {
    (DynamicExtras(s) ==> DistinctSNames(s.fields)) && SoundSFields(s.fields)
  }

  ghost predicate SoundSFields(s: seq<SField>)
    decreases SFieldsSize(s), 0
  {
    s != [] ==> SoundDef(s[0].ty, s[0].def) && SoundSFields(s[1..])
  }

  ghost predicate SoundDef(t: VMType, d: Option<Schema>)
    decreases DefSize(d), 2
  {
    d.Some? ==> SoundSchema(d.value) && (t == TStructs ==> Occupies(d.value))
  }

  /** Field names are distinct at every level of the schema. */
  ghost predicate DistinctDeep(s: Schema)
    decreases SchemaSize(s), 1
  {
    DistinctSNames(s.fields) && DistinctDefs(s.fields)
  }

  ghost predicate DistinctDefs(s: seq<SField>)
    decreases SFieldsSize(s), 0
  {
    s != [] ==> DistinctDef(s[0].def) && DistinctDefs(s[1..])
  }

  ghost predicate DistinctDef(d: Option<Schema>)
    decreases DefSize(d), 2
  {
    d.Some? ==> DistinctDeep(d.value)
  }

  /** Struct arrays that carry their own schema carry a sound one. */
  ghost predicate Sound(v: Value) {
    match v
    case VDyn(inner) => Sound(inner)
    case VDyns(vs) => SoundAll(vs)
    case VStruct(fs) => SoundFields(fs)
    case VStructs(own, rows) => SoundOwn(own, |rows|) && SoundRows(rows)
    case _ => true
  }

  /** The schema's own bytes lie behind the row count too, so they make room for
      as many rows that take none. */
  ghost predicate SoundOwn(own: Schema, rows: nat) {
    && Canonical(own) && SoundSchema(own)
    && (own.fields != [] && !Occupies(own) && EncSchema(own).Some? ==> rows <= |EncSchema(own).value|)
  }

  ghost predicate SoundAll(vs: seq<Value>) {
    vs != [] ==> Sound(vs[0]) && SoundAll(vs[1..])
  }

  ghost predicate SoundFields(fs: seq<Field>) {
    fs != [] ==> Sound(fs[0].val) && SoundFields(fs[1..])
  }

  ghost predicate SoundRows(rows: seq<Row>) {
    rows != [] ==> SoundFields(rows[0].fields) && SoundRows(rows[1..])
  }

  lemma {:induction false} SoundInsert(f: Field, fs: seq<Field>)
    requires Sound(f.val) && SoundFields(fs)
    ensures SoundFields(Insert(f, fs))
  {
    if fs != [] && !Le(f.name, fs[0].name) {
      SoundInsert(f, fs[1..]);
    } else {
      assert ([f] + fs)[1..] == fs;
    }
  }

  lemma {:induction false} SoundSort(fs: seq<Field>)
    requires SoundFields(fs)
    ensures SoundFields(Sort(fs))
  {
    if fs != [] {
      SoundSort(fs[1..]);
      SoundInsert(fs[0], Sort(fs[1..]));
    }
  }

  lemma {:induction false} SoundGet(fs: seq<Field>, name: string)
    requires SoundFields(fs)
    ensures Get(fs, name).Some? ==> Sound(Get(fs, name).value)
  {
    if fs != [] { SoundGet(fs[1..], name); }
  }

  lemma {:induction false} SoundExtras(fs: seq<Field>, s: seq<SField>)
    requires SoundFields(fs)
    ensures SoundFields(Extras(fs, s))
  {
    if fs != [] {
      SoundExtras(fs[1..], s);
      assert ([fs[0]] + Extras(fs[1..], s))[1..] == Extras(fs[1..], s);
    }
  }

  // ----- the extras shortcut

  function SNames(s: seq<SField>): set<string> {
    if s == [] then {} else {s[0].name} + SNames(s[1..])
  }

  function FNames(fs: seq<Field>): set<string> {
    if fs == [] then {} else {fs[0].name} + FNames(fs[1..])
  }

  lemma {:induction false} SNamesHas(s: seq<SField>, name: string)
    ensures name in SNames(s) <==> SchemaHas(s, name)
  {
    if s != [] {
      SNamesHas(s[1..], name);
      if SchemaHas(s[1..], name) {
        var i :| 0 <= i < |s[1..]| && s[1..][i].name == name;
        assert s[i + 1].name == name;
      }
      if SchemaHas(s, name) && s[0].name != name {
        var i :| 0 <= i < |s| && s[i].name == name;
        assert s[1..][i - 1].name == name;
      }
    }
  }

  lemma {:induction false} SNamesCount(s: seq<SField>)
    requires DistinctSNames(s)
    ensures |SNames(s)| == |s|
  {
    if s != [] {
      SNamesCount(s[1..]);
      SNamesHas(s[1..], s[0].name);
      forall i | 0 <= i < |s[1..]| ensures s[1..][i].name != s[0].name {
        assert s[1..][i] == s[i + 1];
      }
    }
  }

  lemma {:induction false} FNamesCount(fs: seq<Field>)
    ensures |FNames(fs)| <= |fs|
  {
    if fs != [] { FNamesCount(fs[1..]); }
  }

  lemma {:induction false} GetNamed(fs: seq<Field>, name: string)
    ensures Get(fs, name).Some? <==> name in FNames(fs)
  {
    if fs != [] { GetNamed(fs[1..], name); }
  }

  lemma {:induction false} AllFound(fs: seq<Field>, s: seq<SField>)
    requires FoundCount(fs, s) == |s|
    ensures SNames(s) <= FNames(fs)
  {
    if s != [] {
      GetNamed(fs, s[0].name);
      AllFound(fs, s[1..]);
    }
  }

  lemma SubsetFull<T>(a: set<T>, b: set<T>)
    requires a <= b && |b| <= |a|
    ensures a == b
  {
    var d := b - a;
    assert |b| == |a| + |d| by { assert b == a + d; }
  }

  lemma {:induction false} NoExtras(fs: seq<Field>, s: seq<SField>)
    requires FNames(fs) <= SNames(s)
    ensures Extras(fs, s) == []
  {
    if fs != [] {
      SNamesHas(s, fs[0].name);
      NoExtras(fs[1..], s);
    }
  }

  /** With distinct schema names the bare-zero shortcut is taken only when there
      are no extras: as many fields as names, and every name found. */
  lemma ShortcutIsExact(fs: seq<Field>, s: seq<SField>)
    requires DistinctSNames(s)
    ensures WrittenExtras(fs, s) == Extras(fs, s)
    ensures EncNamed(WrittenExtras(fs, s)) == EncNamed(Extras(fs, s))
  {
    if Shortcut(fs, s) {
      AllFound(fs, s);
      SNamesCount(s);
      FNamesCount(fs);
      SubsetFull(SNames(s), FNames(fs));
      NoExtras(fs, s);
    }
  }

  /** For a given struct the shortcut goes wrong exactly when it is taken although
      some field is not in the schema. */
  lemma ShortcutWrong(fs: seq<Field>, s: seq<SField>)
    ensures WrittenExtras(fs, s) == Extras(fs, s) <==> !Shortcut(fs, s) || FNames(fs) <= SNames(s)
  {
    if FNames(fs) <= SNames(s) { NoExtras(fs, s); } else { SomeExtra(fs, s); }
  }

  lemma {:induction false} SomeExtra(fs: seq<Field>, s: seq<SField>)
    requires !(FNames(fs) <= SNames(s))
    ensures Extras(fs, s) != []
  {
    SNamesHas(s, fs[0].name);
    if SchemaHas(s, fs[0].name) { SomeExtra(fs[1..], s); }
  }

  /** A text longer than every name of the schema. */
  function Fresh(s: seq<SField>): (r: string)
    ensures !SchemaHas(s, r)
    ensures forall i :: 0 <= i < |s| ==> |s[i].name| < |r|
  {
    if s == [] then "x"
    else
      var longer := Fresh(s[1..]);
      var r := longer + s[0].name + "x";
      assert forall i :: 0 < i < |s| ==> s[i] == s[1..][i - 1];
      r
  }

  /** One field for each schema name but the j-th, and one the schema lacks. */
  function Substituted(s: seq<SField>, j: nat, v: Value): seq<Field>
    requires j < |s|
  {
    seq(|s|, k requires 0 <= k < |s| => Field(if k == j then Fresh(s) else s[k].name, v))
  }

  lemma {:induction false} FoundAll(fs: seq<Field>, s: seq<SField>)
    requires forall i :: 0 <= i < |s| ==> s[i].name in FNames(fs)
    ensures FoundCount(fs, s) == |s|
  {
    if s != [] {
      assert forall i :: 0 <= i < |s[1..]| ==> s[1..][i] == s[i + 1];
      GetNamed(fs, s[0].name);
      FoundAll(fs, s[1..]);
    }
  }

  lemma {:induction false} NameIn(fs: seq<Field>, k: nat)
    requires k < |fs|
    ensures fs[k].name in FNames(fs)
  {
    if k > 0 { NameIn(fs[1..], k - 1); }
  }

  /** With a repeated name there is always a struct that loses a field. */
  lemma {:induction false} RepeatedNameDrops(s: seq<SField>, i: nat, j: nat, v: Value)
    requires i < j < |s| && s[i].name == s[j].name
    ensures WrittenExtras(Substituted(s, j, v), s) != Extras(Substituted(s, j, v), s)
  {
    var fs := Substituted(s, j, v);
    assert |fs| == |s| && fs[j].name == Fresh(s);
    StillFound(s, i, j, v);
    FoundAll(fs, s);
    NameIn(fs, j);
    SNamesHas(s, Fresh(s));
    ShortcutWrong(fs, s);
  }

  lemma {:induction false} StillFound(s: seq<SField>, i: nat, j: nat, v: Value)
    requires i < j < |s| && s[i].name == s[j].name
    ensures forall k :: 0 <= k < |s| ==> s[k].name in FNames(Substituted(s, j, v))
  {
    var fs := Substituted(s, j, v);
    forall k | 0 <= k < |s| ensures s[k].name in FNames(fs) {
      var at := if k == j then i else k;
      assert fs[at].name == s[k].name;
      NameIn(fs, at);
    }
  }

  /** The shortcut writes what the general path writes, for every struct, exactly
      under the schemas whose names are distinct. */
  lemma ShortcutExactly(s: seq<SField>)
    ensures DistinctSNames(s) <==> forall fs: seq<Field> :: WrittenExtras(fs, s) == Extras(fs, s)
  {
    if DistinctSNames(s) {
      forall fs: seq<Field> ensures WrittenExtras(fs, s) == Extras(fs, s) { ShortcutIsExact(fs, s); }
    } else {
      var i, j :| 0 <= i < j < |s| && s[i].name == s[j].name;
      RepeatedNameDrops(s, i, j, VDyns([]));
    }
  }

  /** The smallest case. */
  lemma ShortcutCanDrop(v: Value, w: Value)
    ensures var a := SField("a", TOne(Prim.I8), None);
            var fs := [Field("a", v), Field("b", w)];
            WrittenExtras(fs, [a, a]) == [] && Extras(fs, [a, a]) == [Field("b", w)]
  {
    var a := SField("a", TOne(Prim.I8), None);
    var fs := [Field("a", v), Field("b", w)];
    assert Get(fs, "a") == Some(v);
    assert FoundCount(fs, [a, a][1..]) == 1 + FoundCount(fs, [a][1..]);
    assert [a, a][0].name == "a";
    assert SchemaHas([a, a], "a");
    assert fs[1..] == [Field("b", w)];
    assert fs[1..][1..] == [];
  }

  // ----- lengths: what keeps the guard of read_length quiet

  lemma {:induction false} VarsLength(vs: seq<Value>)
    requires EncVars(vs).Some?
    ensures |EncVars(vs).value| >= |vs|
  {
    if vs != [] { VarsLength(vs[1..]); }
  }

  lemma {:induction false} FieldsLength(fs: seq<Field>)
    requires EncFields(fs).Some?
    ensures |EncFields(fs).value| >= |fs|
  {
    if fs != [] { FieldsLength(fs[1..]); }
  }

  lemma {:induction false} StaticLength(ov: Option<Value>, t: VMType, given: Option<Schema>)
    requires ov.Some? ==> TypeOf(ov.value) == t
    requires EncStatic(ov, t, given).Some? && FieldOccupies(t, given)
    ensures EncStatic(ov, t, given).value != []
    decreases DefSize(given), 3
  {
    match if ov.Some? then ov.value else Default(t)
    case VOne(k, x) => Prim.NonEmpty(k, x);
    case VStruct(fs) => StructLength(fs, given);
    case _ =>
  }

  lemma {:induction false} StructLength(fs: seq<Field>, given: Option<Schema>)
    requires EncStruct(fs, given).Some? && (given.None? || Occupies(given.value))
    ensures EncStruct(fs, given).value != []
    decreases DefSize(given), 2
  {
    if given.Some? && !DynamicExtras(given.value) { BySchemaLength(fs, given.value.fields); }
  }

  lemma {:induction false} BySchemaLength(fs: seq<Field>, s: seq<SField>)
    requires EncBySchema(fs, s).Some? && FieldsOccupy(s)
    ensures EncBySchema(fs, s).value != []
    decreases SFieldsSize(s), 0
  {
    if FieldOccupies(s[0].ty, s[0].def) {
      StaticLength(Lookup(fs, s[0]), s[0].ty, s[0].def);
    } else {
      BySchemaLength(fs, s[1..]);
    }
  }

  lemma {:induction false} RowsLength(rows: seq<Row>, used: Option<Schema>)
    requires EncRows(rows, used).Some? && (used.None? || Occupies(used.value))
    ensures |EncRows(rows, used).value| >= |rows|
  {
    if rows != [] {
      StructLength(rows[0].fields, used);
      RowsLength(rows[1..], used);
    }
  }

  // ----- normalising keeps names, so it keeps the order

  lemma {:induction false} NormNames(fs: seq<Field>, i: nat)
    requires i < |fs|
    ensures NormFields(fs)[i].name == fs[i].name
  {
    if i > 0 { NormNames(fs[1..], i - 1); }
  }

  lemma NormSorted(fs: seq<Field>)
    requires Sorted(fs)
    ensures Sort(NormFields(fs)) == NormFields(fs)
  {
    var r := NormFields(fs);
    forall i, j | 0 <= i < j < |r| ensures Le(r[i].name, r[j].name) {
      NormNames(fs, i);
      NormNames(fs, j);
    }
    SortFixed(r);
  }

  // ----- round trips

  lemma {:induction false} VarBack(v: Value, rest: bytes)
    requires EncVar(v).Some? && Sound(v)
    ensures DecVar(EncVar(v).value + rest) == Ok(NormVar(v), rest)
    decreases Size(v) + 1, 0, 9
  {
    var tag := Tag(TypeOf(v)).value;
    var body := EncStatic(Some(v), TypeOf(v), None).value;
    TagsExact(TypeOf(v), tag);
    StaticBack(Some(v), TypeOf(v), None, rest);
    assert EncVar(v).value + rest == [tag] + (body + rest);
    Prim.Split([tag], body + rest);
  }

  lemma {:induction false} StaticBack(ov: Option<Value>, t: VMType, given: Option<Schema>, rest: bytes)
    requires ov.Some? ==> TypeOf(ov.value) == t && Sound(ov.value)
    requires EncStatic(ov, t, given).Some? && SoundDef(t, given)
    ensures DecStatic(t, given, EncStatic(ov, t, given).value + rest) == Ok(Project(ov, t, given), rest)
    decreases if ov.Some? then Size(ov.value) + 1 else 2, DefSize(given), 8
  {
    hide EncVar, DecVar, EncDyns, DecDyns, EncStruct, DecStruct, EncRowArray, DecRowArray;
    var v := if ov.Some? then ov.value else Default(t);
    match v
    case VOne(k, x) => OneBack(k, x, rest);
    case VMany(k, xs) => ManyBack(k, xs, rest);
    case VDyn(inner) => VarBack(inner, rest);
    case VDyns(vs) => DynsBack(vs, rest);
    case VStruct(fs) => StructBack(fs, given, rest);
    case VStructs(own, rows) => RowArrayBack(own, rows, given, rest);
  }

  lemma OneBack(k: Prim.Kind, x: Prim.PVal, rest: bytes)
    requires Prim.Enc(k, x).Some? && KindTag(k).Some?
    ensures DecPrim(k, Prim.Enc(k, x).value + rest) == Ok(Prim.Norm(k, x), rest)
  {
    Prim.RoundTrip(k, x, rest);
  }

  lemma ManyBack(k: Prim.Kind, xs: seq<Prim.PVal>, rest: bytes)
    requires Prim.EncArray(k, xs).Some? && KindTag(k).Some?
    ensures DecPrims(k, Prim.EncArray(k, xs).value + rest) == Ok(Prim.NormAll(k, xs), rest)
  {
    Prim.ArrayBack(k, xs, rest);
  }

  lemma {:induction false} RowArrayBack(own: Schema, rows: seq<Row>, given: Option<Schema>, rest: bytes)
    requires EncRowArray(own, rows, given).Some? && SoundRows(rows)
    requires if given.Some? then SoundDef(TStructs, given) else SoundOwn(own, |rows|)
    ensures DecRowArray(given, EncRowArray(own, rows, given).value + rest)
         == Ok((if given.Some? then given.value else own, ProjectRows(rows, RowSchema(given, own))), rest)
    decreases SizeRows(rows) + 2, DefSize(given), 7
  {
    hide EncRows, DecRows, ProjectRows, Prim.EncCount, Prim.DecCount, EncSchema, DecSchema;
    var used := RowSchema(given, own);
    var c, body := Prim.EncCount(|rows|).value, EncRows(rows, used).value;
    RowsBack(rows, used, rest);
    if given.Some? {
      RowsLength(rows, used);
      assert EncRowArray(own, rows, given).value + rest == c + (body + rest);
      Prim.CountBack(|rows|, body + rest);
    } else {
      if used.None? || Occupies(own) { RowsLength(rows, used); }
      OwnSchemaBack(own, rows, rest);
    }
  }

  /** The guard on the row count looks at everything behind it, the schema
      included. */
  lemma OwnSchemaBack(own: Schema, rows: seq<Row>, rest: bytes)
    requires EncRowArray(own, rows, None).Some? && Canonical(own)
    ensures var head, body := EncSchema(own).value, EncRows(rows, RowSchema(None, own)).value;
            && Prim.DecCount(EncRowArray(own, rows, None).value + rest)
            == (if |rows| <= |head| + |body| + |rest| then Ok(|rows|, head + (body + rest)) else Err)
            && DecSchema(head + (body + rest)) == Ok(own, body + rest)
  {
    var c, head := Prim.EncCount(|rows|).value, EncSchema(own).value;
    var body := EncRows(rows, RowSchema(None, own)).value;
    assert c + (head + body) + rest == c + (head + (body + rest));
    CountGuard(|rows|, head + (body + rest));
    SchemaCodec.RoundTrip(own, body + rest);
  }

  lemma CountGuard(n: nat, rest: bytes)
    requires Prim.EncCount(n).Some?
    ensures Prim.DecCount(Prim.EncCount(n).value + rest) == if n <= |rest| then Ok(n, rest) else Err
  {
    Prim.SignedBack(n, 4, rest);
  }

  lemma {:induction false} DynsBack(vs: seq<Value>, rest: bytes)
    requires EncDyns(vs).Some? && SoundAll(vs)
    ensures DecDyns(EncDyns(vs).value + rest) == Ok(NormVars(vs), rest)
    decreases SizeAll(vs) + 1, 0, 1
  {
    var c, body := Prim.EncCount(|vs|).value, EncVars(vs).value;
    assert c + body + rest == c + (body + rest);
    VarsLength(vs);
    Prim.CountBack(|vs|, body + rest);
    VarsBack(vs, rest);
  }

  lemma {:induction false} VarsBack(vs: seq<Value>, rest: bytes)
    requires EncVars(vs).Some? && SoundAll(vs)
    ensures DecVars(|vs|, EncVars(vs).value + rest) == Ok(NormVars(vs), rest)
    decreases SizeAll(vs) + 1, 0, 0
  {
    hide EncVar, DecVar, NormVar;
    if vs == [] {
      assert [] + rest == rest;
    } else {
      var e, tail := EncVar(vs[0]).value, EncVars(vs[1..]).value;
      assert e + tail + rest == e + (tail + rest);
      VarBack(vs[0], tail + rest);
      VarsBack(vs[1..], rest);
    }
  }

  lemma {:induction false} StructBack(fs: seq<Field>, given: Option<Schema>, rest: bytes)
    requires EncStruct(fs, given).Some? && SoundFields(fs) && (given.Some? ==> SoundSchema(given.value))
    ensures DecStruct(given, EncStruct(fs, given).value + rest) == Ok(ProjectStruct(fs, given), rest)
    decreases SizeFields(fs) + 2, DefSize(given), 7
  {
    if given.None? {
      SoundSort(fs);
      NamedBack(Sort(fs), rest);
      SortSorted(fs);
      NormSorted(Sort(fs));
    } else if DynamicExtras(given.value) {
      ExtrasBack(fs, given.value, rest);
    } else {
      var body := EncBySchema(fs, given.value.fields).value;
      assert body + [] + rest == body + rest;
      BySchemaBack(fs, given.value.fields, rest);
    }
  }

  lemma {:induction false} ExtrasBack(fs: seq<Field>, s: Schema, rest: bytes)
    requires EncStruct(fs, Some(s)).Some? && SoundFields(fs) && SoundSchema(s) && DynamicExtras(s)
    ensures DecStruct(Some(s), EncStruct(fs, Some(s)).value + rest) == Ok(ProjectStruct(fs, Some(s)), rest)
    decreases SizeFields(fs) + 2, DefSize(Some(s)), 7, 0
  {
    ShortcutIsExact(fs, s.fields);
    var body := EncBySchema(fs, s.fields).value;
    var ex := Extras(fs, s.fields);
    var extras := EncNamed(ex).value;
    assert body + extras + rest == body + (extras + rest);
    BySchemaBack(fs, s.fields, extras + rest);
    SoundExtras(fs, s.fields);
    NamedBack(ex, rest);
  }

  lemma {:induction false} NamedBack(fs: seq<Field>, rest: bytes)
    requires EncNamed(fs).Some? && SoundFields(fs)
    ensures DecNamed(EncNamed(fs).value + rest) == Ok(NormFields(fs), rest)
    decreases SizeFields(fs) + 1, 0, 1
  {
    hide EncFields, DecFields, NormFields, Prim.EncCount, Prim.DecCount;
    var c, body := Prim.EncCount(|fs|).value, EncFields(fs).value;
    assert c + body + rest == c + (body + rest);
    FieldsLength(fs);
    Prim.CountBack(|fs|, body + rest);
    FieldsBack(fs, rest);
  }

  lemma {:induction false} FieldsBack(fs: seq<Field>, rest: bytes)
    requires EncFields(fs).Some? && SoundFields(fs)
    ensures DecFields(|fs|, EncFields(fs).value + rest) == Ok(NormFields(fs), rest)
    decreases SizeFields(fs) + 1, 0, 0
  {
    hide EncVar, DecVar, Prim.EncSmall, Prim.DecSmall, NormVar, Sound;
    if fs == [] {
      assert [] + rest == rest;
    } else {
      var name := Prim.EncSmall(fs[0].name).value;
      var body := EncVar(fs[0].val).value;
      var tail := EncFields(fs[1..]).value;
      assert name + (body + tail) + rest == name + (body + (tail + rest));
      Prim.SmallBack(fs[0].name, body + (tail + rest));
      VarBack(fs[0].val, tail + rest);
      FieldsBack(fs[1..], rest);
    }
  }

  lemma {:induction false} BySchemaBack(fs: seq<Field>, s: seq<SField>, rest: bytes)
    requires EncBySchema(fs, s).Some? && SoundFields(fs) && SoundSFields(s)
    ensures DecBySchema(s, EncBySchema(fs, s).value + rest) == Ok(ProjectBySchema(fs, s), rest)
    decreases SizeFields(fs) + 2, SFieldsSize(s), 6
  {
    hide EncStatic, DecStatic, Project;
    if s == [] {
      assert [] + rest == rest;
    } else {
      var found := Lookup(fs, s[0]);
      var e, tail := EncStatic(found, s[0].ty, s[0].def).value, EncBySchema(fs, s[1..]).value;
      assert e + tail + rest == e + (tail + rest);
      SoundGet(fs, s[0].name);
      StaticBack(found, s[0].ty, s[0].def, tail + rest);
      BySchemaBack(fs, s[1..], rest);
    }
  }

  lemma {:induction false} RowsBack(rows: seq<Row>, used: Option<Schema>, rest: bytes)
    requires EncRows(rows, used).Some? && SoundRows(rows) && (used.Some? ==> SoundSchema(used.value))
    ensures DecRows(|rows|, used, EncRows(rows, used).value + rest) == Ok(ProjectRows(rows, used), rest)
    decreases SizeRows(rows) + 2, 0, 0
  {
    hide EncStruct, DecStruct, ProjectStruct;
    if rows == [] {
      assert [] + rest == rest;
    } else {
      var e, tail := EncStruct(rows[0].fields, used).value, EncRows(rows[1..], used).value;
      assert e + tail + rest == e + (tail + rest);
      StructBack(rows[0].fields, used, tail + rest);
      RowsBack(rows[1..], used, rest);
    }
  }
}
