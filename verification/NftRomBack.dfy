/** A ROM reads back as what the metadata means, at every depth of the schema. */
module NftRomBack {
  import opened Bytes
  import opened FieldOrder
  import opened NftRom
  import opened SchemaCodec
  import opened VmData
  import opened VmRoundTrip
  import opened VmWire
  import Int256
  import Prim
  import VmGet

  /** Every field coerced carries a schema name. */
  lemma {:induction false} CoercedNames(h: Host, s: seq<SField>, std: seq<Field>, entries: seq<Entry>)
    requires CoerceFields(h, s, std, entries).Some?
    ensures FNames(CoerceFields(h, s, std, entries).value) <= SNames(s)
    decreases |s|
  {
    if s != [] { CoercedNames(h, s[1..], std, entries); }
  }

  lemma {:induction false} CoercedAt(h: Host, s: seq<SField>, std: seq<Field>, entries: seq<Entry>, i: nat)
    requires DistinctSNames(s) && i < |s| && CoerceFields(h, s, std, entries).Some? && Get(std, s[i].name).None?
    ensures CoerceField(h, s[i], entries).Some?
    ensures Get(CoerceFields(h, s, std, entries).value, s[i].name) == CoerceField(h, s[i], entries)
    decreases |s|
  {
    if i > 0 {
      assert s[1..][i - 1] == s[i] && s[0].name != s[i].name;
      CoercedAt(h, s[1..], std, entries, i - 1);
    }
  }

  /** The standard fields are in the schema, with their own types. */
  ghost predicate Carries(s: seq<SField>, std: seq<Field>) {
    && FNames(std) <= SNames(s)
    && forall i :: 0 <= i < |s| && Get(std, s[i].name).Some? ==>
         Get(std, s[i].name).value.VOne? && TypeOf(Get(std, s[i].name).value) == s[i].ty
  }

  // ----- meaning

  lemma {:induction false} ValueMeans(h: Host, t: VMType, def: Option<Schema>, m: Meta)
    requires Coerce(h, t, def, m).Some? && DistinctDef(def)
    ensures Means(h, t, def, m, Project(Coerce(h, t, def, m), t, def))
    decreases MetaSize(m), 1, 0
  {
    match t
    case TOne(k) => OneMeans(h, k, m);
    case TMany(k) => ManyMean(h, k, m.items);
    case TDyn => assert Project(Some(VDyns([])), TDyns, None) == VDyns([]);
    case TDyns => assert NormVars([]) == [];
    case TStruct => StructMeans(h, def, m);
    case TStructs => RowsMean(h, def.value, m.items);
  }

  lemma {:induction false} StructMeans(h: Host, def: Option<Schema>, m: Meta)
    requires CoerceStruct(h, def, m).Some? && DistinctDef(def)
    ensures MeansStruct(h, def, m, ProjectStruct(CoerceStruct(h, def, m).value, def))
    decreases MetaSize(m), 0, 0
  {
    hide ProjectStruct, MeansFields, CoerceFields;
    var fs := CoerceStruct(h, def, m).value;
    assert [] + fs == fs;
    FieldsMean(h, def.value, [], Inputs(m).value);
  }

  lemma {:induction false} RowsMean(h: Host, s: Schema, items: seq<Meta>)
    requires CoerceRows(h, s, items).Some? && DistinctDeep(s)
    ensures MeansRows(h, Some(s), items, ProjectRows(CoerceRows(h, s, items).value, Some(s)))
    decreases ListSize(items), 0, 0
  {
    if items != [] {
      StructMeans(h, Some(s), items[0]);
      RowsMean(h, s, items[1..]);
      var rows := CoerceRows(h, s, items).value;
      assert rows[1..] == CoerceRows(h, s, items[1..]).value;
    }
  }

  lemma {:induction false} FieldsMean(h: Host, s: Schema, std: seq<Field>, entries: seq<Entry>)
    requires CoerceFields(h, s.fields, std, entries).Some? && DistinctDeep(s) && Carries(s.fields, std)
    ensures MeansFields(h, s.fields, std, entries,
                        ProjectStruct(std + CoerceFields(h, s.fields, std, entries).value, Some(s)))
    decreases EntriesSize(entries), 2, 0
  {
    var fs := std + CoerceFields(h, s.fields, std, entries).value;
    var p := ProjectBySchema(fs, s.fields);
    AllNamed(h, s.fields, std, entries);
    assert p + [] == p && NormFields([]) == [];
    SortSorted(p);
    forall i | 0 <= i < |s.fields|
      ensures MeansField(h, s.fields[i], std, entries, Get(Sort(p), s.fields[i].name))
    {
      VmGet.ProjectedGet(fs, s.fields, i);
      VmGet.GetSorted(p, s.fields[i].name);
      FieldMeans(h, s, std, entries, i);
    }
  }

  lemma AllNamed(h: Host, s: seq<SField>, std: seq<Field>, entries: seq<Entry>)
    requires CoerceFields(h, s, std, entries).Some? && Carries(s, std)
    ensures Extras(std + CoerceFields(h, s, std, entries).value, s) == []
  {
    var out := CoerceFields(h, s, std, entries).value;
    CoercedNames(h, s, std, entries);
    NamesConcat(std, out);
    NoExtras(std + out, s);
  }

  lemma {:induction false} NamesConcat(a: seq<Field>, b: seq<Field>)
    ensures FNames(a + b) == FNames(a) + FNames(b)
  {
    if a == [] {
      assert a + b == b;
    } else {
      assert (a + b)[1..] == a[1..] + b;
      NamesConcat(a[1..], b);
    }
  }

  lemma {:induction false} FieldMeans(h: Host, s: Schema, std: seq<Field>, entries: seq<Entry>, i: nat)
    requires CoerceFields(h, s.fields, std, entries).Some? && DistinctDeep(s) && Carries(s.fields, std)
    requires i < |s.fields|
    ensures var f := s.fields[i];
            var fs := std + CoerceFields(h, s.fields, std, entries).value;
            MeansField(h, f, std, entries, Some(Project(Lookup(fs, f), f.ty, f.def)))
    decreases EntriesSize(entries), 1, 0
  {
    var f := s.fields[i];
    var out := CoerceFields(h, s.fields, std, entries).value;
    VmGet.GetConcat(std, out, f.name);
    if Get(std, f.name).None? {
      CoercedAt(h, s.fields, std, entries, i);
      VmGet.DistinctDefAt(s.fields, i);
      ValueMeans(h, f.ty, f.def, Exact(entries, f.name).value);
    }
  }

  // ----- soundness of what was coerced

  lemma {:induction false} CoercedSound(h: Host, t: VMType, def: Option<Schema>, m: Meta)
    requires Coerce(h, t, def, m).Some? && CanonicalDef(t, def) && SoundDef(t, def)
    ensures Sound(Coerce(h, t, def, m).value)
    decreases MetaSize(m), 1, 0
  {
    match t
    case TStruct => StructSound(h, def, m);
    case TStructs => RowsSound(h, def.value, m.items);
    case TDyn => assert SoundAll([]);
    case _ =>
  }

  lemma {:induction false} StructSound(h: Host, def: Option<Schema>, m: Meta)
    requires CoerceStruct(h, def, m).Some? && Canonical(def.value) && SoundSchema(def.value)
    ensures SoundFields(CoerceStruct(h, def, m).value)
    decreases MetaSize(m), 0, 0
  {
    FieldsSound(h, def.value.fields, [], Inputs(m).value);
  }

  lemma {:induction false} RowsSound(h: Host, s: Schema, items: seq<Meta>)
    requires CoerceRows(h, s, items).Some? && Canonical(s) && SoundSchema(s)
    ensures SoundRows(CoerceRows(h, s, items).value)
    decreases ListSize(items), 0, 0
  {
    if items != [] {
      StructSound(h, Some(s), items[0]);
      RowsSound(h, s, items[1..]);
      var rows := CoerceRows(h, s, items).value;
      assert rows[1..] == CoerceRows(h, s, items[1..]).value;
    }
  }

  lemma {:induction false} FieldsSound(h: Host, s: seq<SField>, std: seq<Field>, entries: seq<Entry>)
    requires CoerceFields(h, s, std, entries).Some? && CanonicalFields(s) && SoundSFields(s)
    ensures SoundFields(CoerceFields(h, s, std, entries).value)
    decreases EntriesSize(entries), 2, |s|
  {
    if s != [] {
      FieldsSound(h, s[1..], std, entries);
      if Get(std, s[0].name).None? {
        CoercedSound(h, s[0].ty, s[0].def, Exact(entries, s[0].name).value);
        var out := CoerceFields(h, s, std, entries).value;
        assert out[1..] == CoerceFields(h, s[1..], std, entries).value;
      }
    }
  }

  lemma {:induction false} SoundConcat(a: seq<Field>, b: seq<Field>)
    requires SoundFields(a) && SoundFields(b)
    ensures SoundFields(a + b)
  {
    if a == [] {
      assert a + b == b;
    } else {
      assert (a + b)[1..] == a[1..] + b;
      SoundConcat(a[1..], b);
    }
  }

  // ----- the ROM

  /** A schema with the standard fields `_i` and `rom`, that survives its own
      serialisation, whose names are distinct and whose struct arrays have rows
      that take room. */
  ghost predicate RomSchema(s: Schema) {
    && Canonical(s) && SoundSchema(s) && DistinctDeep(s)
    && SField("_i", TOne(Prim.I256), None) in s.fields
    && SField("rom", TOne(Prim.Blob), None) in s.fields
  }

  lemma StandardCarried(s: Schema, id: int, rom: bytes)
    requires RomSchema(s)
    ensures Carries(s.fields, Standard(id, rom)) && SoundFields(Standard(id, rom))
  {
    var std := Standard(id, rom);
    SNamesHas(s.fields, META_ID);
    SNamesHas(s.fields, ROM);
    assert std[1..] == [std[1]] && std[1..][1..] == [];
    assert META_ID != ROM by { assert META_ID[0] != ROM[0]; }
    assert FNames(std) == {META_ID, ROM} by { assert FNames(std[1..]) == {ROM}; }
    forall i | 0 <= i < |s.fields| && Get(std, s.fields[i].name).Some?
      ensures Get(std, s.fields[i].name).value.VOne?
      ensures TypeOf(Get(std, s.fields[i].name).value) == s.fields[i].ty
    {
      StandardType(s.fields, std, i);
    }
  }

  lemma StandardType(s: seq<SField>, std: seq<Field>, i: nat)
    requires DistinctSNames(s) && i < |s| && |std| == 2 && std[0].name == META_ID && std[1].name == ROM
    requires std[0].val.VOne? && std[0].val.k == Prim.I256 && std[1].val.VOne? && std[1].val.k == Prim.Blob
    requires SField(META_ID, TOne(Prim.I256), None) in s && SField(ROM, TOne(Prim.Blob), None) in s
    requires Get(std, s[i].name).Some?
    ensures Get(std, s[i].name).value.VOne? && TypeOf(Get(std, s[i].name).value) == s[i].ty
  {
    var j :| 0 <= j < |s| && s[j] == SField(META_ID, TOne(Prim.I256), None);
    var k :| 0 <= k < |s| && s[k] == SField(ROM, TOne(Prim.Blob), None);
    if s[i].name == META_ID { assert i == j; } else { assert s[i].name == ROM && i == k; }
  }

  /** Decoding a ROM yields the schema's names in order, each with what was
      given for it: integers as their signed representatives, at every depth. */
  lemma RomReadsBack(h: Host, s: Schema, id: int, entries: seq<Entry>, rest: bytes)
    requires RomSchema(s) && BuildRom(h, s, id, entries).Some?
    ensures var p := DecStruct(Some(s), BuildRom(h, s, id, entries).value + rest);
            && p.Ok? && p.rest == rest
            && MeansFields(h, s.fields, Standard(id, RomBytes(h, entries).value), entries, p.v)
  {
    var std := Standard(id, RomBytes(h, entries).value);
    var out := CoerceFields(h, s.fields, std, entries).value;
    StandardCarried(s, id, RomBytes(h, entries).value);
    FieldsSound(h, s.fields, std, entries);
    SoundConcat(std, out);
    StructBack(std + out, Some(s), rest);
    FieldsMean(h, s, std, entries);
  }

  /** In particular the id comes back as its signed 256-bit representative and
      the rom bytes unchanged. */
  lemma StandardReadsBack(h: Host, s: Schema, id: int, entries: seq<Entry>, rest: bytes)
    requires RomSchema(s) && BuildRom(h, s, id, entries).Some?
    ensures var p := DecStruct(Some(s), BuildRom(h, s, id, entries).value + rest);
            && p.Ok?
            && Get(p.v, "_i") == Some(VOne(Prim.I256, Prim.Num(Int256.Wrap(id))))
            && Get(p.v, "rom") == Some(VOne(Prim.Blob, Prim.Bin(RomBytes(h, entries).value)))
  {
    RomReadsBack(h, s, id, entries, rest);
    var p := DecStruct(Some(s), BuildRom(h, s, id, entries).value + rest);
    StandardOf(h, s, id, RomBytes(h, entries).value, entries, p.v);
  }

  lemma StandardOf(h: Host, s: Schema, id: int, rom: bytes, entries: seq<Entry>, fs: seq<Field>)
    requires RomSchema(s) && MeansFields(h, s.fields, Standard(id, rom), entries, fs)
    ensures Get(fs, META_ID) == Some(VOne(Prim.I256, Prim.Num(Int256.Wrap(id))))
    ensures Get(fs, ROM) == Some(VOne(Prim.Blob, Prim.Bin(rom)))
  {
    hide Standard, NormVar, Means;
    var std := Standard(id, rom);
    var j :| 0 <= j < |s.fields| && s.fields[j] == SField(META_ID, TOne(Prim.I256), None);
    var k :| 0 <= k < |s.fields| && s.fields[k] == SField(ROM, TOne(Prim.Blob), None);
    StandardGets(id, rom);
    assert MeansField(h, s.fields[j], std, entries, Get(fs, META_ID));
    assert MeansField(h, s.fields[k], std, entries, Get(fs, ROM));
  }

  lemma StandardGets(id: int, rom: bytes)
    ensures var std := Standard(id, rom);
            && Get(std, META_ID).Some? && Get(std, ROM).Some?
            && NormVar(Get(std, META_ID).value) == VOne(Prim.I256, Prim.Num(Int256.Wrap(id)))
            && NormVar(Get(std, ROM).value) == VOne(Prim.Blob, Prim.Bin(rom))
  {
    hide Int256.Wrap;
    var std := Standard(id, rom);
    assert META_ID[0] != ROM[0] && std[1..][0] == std[1];
  }

  /** One integer is never read back in two ways: the representative is unique. */
  lemma RepresentativeUnique(n: int, r: int, q: int, w: nat)
    requires Represents(n, r, w) && Represents(n, q, w)
    ensures r == q
  {
    CongruentTrans(n, r, q, Pow256(w));
    SignedUnique(r, q, Pow256(w));
  }

  // ----- what the ROM does not hold

  /** A name under which the schema has nothing but DYNAMIC fields. */
  ghost predicate OnlyDynamic(s: seq<SField>, name: string) {
    name != ROM && forall i :: 0 <= i < |s| && s[i].name == name ==> s[i].ty == TDyn
  }

  /** Two values given under one name: equal, or both given for DYNAMIC fields. */
  ghost predicate Alike(s: seq<SField>, name: string, x: Meta, y: Meta) {
    x == y || (OnlyDynamic(s, name) && !x.MNone? && !y.MNone?)
  }

  ghost predicate AllAlike(s: seq<SField>, a: seq<Entry>, b: seq<Entry>) {
    |a| == |b| && forall i :: 0 <= i < |a| ==> a[i].name == b[i].name && Alike(s, a[i].name, a[i].val, b[i].val)
  }

  lemma {:induction false} ExactAlike(s: seq<SField>, a: seq<Entry>, b: seq<Entry>, name: string)
    requires AllAlike(s, a, b)
    ensures Exact(a, name).Some? == Exact(b, name).Some?
    ensures Exact(a, name).Some? ==> Alike(s, name, Exact(a, name).value, Exact(b, name).value)
  {
    if a != [] { ExactAlike(s, a[1..], b[1..], name); }
  }

  lemma FindAlike(h: Host, s: seq<SField>, a: seq<Entry>, b: seq<Entry>, name: string)
    requires AllAlike(s, a, b)
    ensures Find(h, a, name) == Find(h, b, name)
         || (Find(h, a, name).Hit? && Find(h, b, name).Hit? && Alike(s, name, Find(h, a, name).m, Find(h, b, name).m))
  {
    ExactAlike(s, a, b, name);
    assert forall i :: 0 <= i < |a| ==>
        (h.lower(a[i].name) == h.lower(name) <==> h.lower(b[i].name) == h.lower(name));
  }

  lemma FieldAlike(h: Host, s: seq<SField>, f: SField, a: seq<Entry>, b: seq<Entry>)
    requires AllAlike(s, a, b) && f in s
    ensures CoerceField(h, f, a) == CoerceField(h, f, b)
  {
    FindAlike(h, s, a, b, f.name);
    if Find(h, a, f.name) != Find(h, b, f.name) {
      var i :| 0 <= i < |s| && s[i] == f;
      assert f.ty == TDyn;
    }
  }

  lemma {:induction false} FieldsAlike(
    h: Host, s: seq<SField>, tail: seq<SField>, std: seq<Field>, a: seq<Entry>, b: seq<Entry>)
    requires AllAlike(s, a, b) && forall f :: f in tail ==> f in s
    ensures CoerceFields(h, tail, std, a) == CoerceFields(h, tail, std, b)
    decreases |tail|
  {
    if tail != [] {
      assert tail[0] in s;
      FieldAlike(h, s, tail[0], a, b);
      FieldsAlike(h, s, tail[1..], std, a, b);
    }
  }

  /** What is given for a DYNAMIC field leaves no trace: any two values, or lists
      that differ only in such values, give the same ROM. */
  lemma DynamicLeavesNoTrace(h: Host, s: Schema, id: int, a: seq<Entry>, b: seq<Entry>)
    requires AllAlike(s.fields, a, b)
    ensures BuildRom(h, s, id, a) == BuildRom(h, s, id, b)
  {
    FindAlike(h, s.fields, a, b, ROM);
    var rom := RomBytes(h, a);
    if rom.Some? { FieldsAlike(h, s.fields, s.fields, Standard(id, rom.value), a, b); }
  }
}
