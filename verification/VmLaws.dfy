/** Laws of the dynamic codec that relate several values: order of fields does
    not matter, what a projection contains, and where the well-formedness
    conditions of the round trip are needed. */
module VmLaws {
  import opened Bytes
  import opened VmData
  import opened FieldOrder
  import opened SchemaCodec
  import opened VmWire
  import opened VmGet
  import opened VmRoundTrip
  import Prim

  // ----- the order of distinctly named fields

  /** write_carbon emits the same bytes for every arrangement of a struct. */
  lemma ReorderSelfDescribing(a: seq<Field>, b: seq<Field>)
    requires DistinctNames(a) && multiset(a) == multiset(b)
    ensures EncVar(VStruct(a)) == EncVar(VStruct(b))
  {
    DistinctPermutation(a, b);
    assert EncStruct(a, None) == EncStruct(b, None);
  }

  lemma {:induction false} BySchemaReorder(a: seq<Field>, b: seq<Field>, s: seq<SField>)
    requires DistinctNames(a) && DistinctNames(b) && multiset(a) == multiset(b)
    ensures EncBySchema(a, s) == EncBySchema(b, s)
    ensures ProjectBySchema(a, s) == ProjectBySchema(b, s)
  {
    if s != [] {
      GetReorder(a, b, s[0].name);
      BySchemaReorder(a, b, s[1..]);
    }
  }

  /** Under a schema without extras the bytes do not depend on the order. */
  lemma ReorderUnderSchema(a: seq<Field>, b: seq<Field>, s: Schema)
    requires DistinctNames(a) && DistinctNames(b) && multiset(a) == multiset(b)
    requires !DynamicExtras(s)
    ensures EncStruct(a, Some(s)) == EncStruct(b, Some(s))
  {
    BySchemaReorder(a, b, s.fields);
  }

  /** Extras, in contrast, go out in the struct's own order, behind the schema's
      fields. */
  lemma ExtrasInOwnOrder(fs: seq<Field>, s: Schema)
    requires DynamicExtras(s) && DistinctSNames(s.fields) && EncStruct(fs, Some(s)).Some?
    ensures EncNamed(Extras(fs, s.fields)).Some?
    ensures EncStruct(fs, Some(s)).value == EncBySchema(fs, s.fields).value + EncNamed(Extras(fs, s.fields)).value
  {
    ShortcutIsExact(fs, s.fields);
  }

  /** So rearranging a struct keeps the bytes exactly if it keeps its extras in
      order. */
  lemma ExtrasKeepOrder(a: seq<Field>, b: seq<Field>, s: Schema)
    requires DistinctNames(a) && DistinctNames(b) && multiset(a) == multiset(b)
    requires DynamicExtras(s) && DistinctSNames(s.fields) && EncStruct(a, Some(s)).Some? && SoundFields(a)
    ensures EncStruct(a, Some(s)) == EncStruct(b, Some(s)) <==> Extras(a, s.fields) == Extras(b, s.fields)
  {
    ShortcutIsExact(a, s.fields);
    ShortcutIsExact(b, s.fields);
    BySchemaReorder(a, b, s.fields);
    var x, y := Extras(a, s.fields), Extras(b, s.fields);
    if EncStruct(a, Some(s)) == EncStruct(b, Some(s)) {
      var body := EncBySchema(a, s.fields).value;
      assert EncNamed(x).value == (body + EncNamed(x).value)[|body|..];
      assert EncNamed(y).value == (body + EncNamed(y).value)[|body|..];
      ExtrasPermuted(a, b, s.fields);
      SoundExtras(a, s.fields);
      NamedInjective(a, x, y);
    }
  }

  lemma ExtrasPermuted(a: seq<Field>, b: seq<Field>, s: seq<SField>)
    requires multiset(a) == multiset(b) && SoundFields(a)
    ensures forall f :: f in Extras(a, s) + Extras(b, s) ==> f in a
    ensures SoundFields(Extras(b, s))
  {
    ExtrasIn(a, s);
    ExtrasIn(b, s);
    forall f | f in b ensures f in a { assert f in multiset(a); }
    SoundMembers(a);
    SoundMembers(Extras(b, s));
  }

  lemma {:induction false} SoundMembers(fs: seq<Field>)
    ensures SoundFields(fs) <==> forall f :: f in fs ==> Sound(f.val)
  {
    if fs != [] {
      SoundMembers(fs[1..]);
      assert fs == [fs[0]] + fs[1..];
    }
  }

  /** Different lists of fields of one struct have different bytes. */
  lemma NamedInjective(of: seq<Field>, x: seq<Field>, y: seq<Field>)
    requires DistinctNames(of) && (forall f :: f in x + y ==> f in of)
    requires EncNamed(x).Some? && EncNamed(x) == EncNamed(y) && SoundFields(x) && SoundFields(y)
    ensures x == y
  {
    NamedBack(x, []);
    NamedBack(y, []);
    assert NormFields(x) == NormFields(y);
    forall i | 0 <= i < |x| ensures x[i] == y[i] {
      NormNames(x, i);
      NormNames(y, i);
      assert (x + y)[i] == x[i] && (x + y)[|x| + i] == y[i];
      GetIn(of, x[i]);
      GetIn(of, y[i]);
    }
  }

  lemma {:induction false} SortTail(p: seq<Field>, x: seq<Field>)
    ensures Sort(p + Sort(x)) == Sort(p + x)
  {
    if p == [] {
      assert p + x == x && p + Sort(x) == Sort(x);
      SortIdempotent(x);
    } else {
      hide Insert;
      var a, b := p + x, p + Sort(x);
      assert a[0] == b[0] == p[0] && a[1..] == p[1..] + x && b[1..] == p[1..] + Sort(x);
      SortTail(p[1..], x);
      assert Sort(a[1..]) == Sort(b[1..]);
    }
  }

  lemma {:induction false} NormInsert(f: Field, fs: seq<Field>)
    ensures NormFields(Insert(f, fs)) == Insert(Field(f.name, NormVar(f.val)), NormFields(fs))
  {
    if fs != [] && !Le(f.name, fs[0].name) {
      NormInsert(f, fs[1..]);
    } else {
      assert ([f] + fs)[1..] == fs;
    }
  }

  /** Normalising the values commutes with sorting by name. */
  lemma {:induction false} NormSort(fs: seq<Field>)
    ensures NormFields(Sort(fs)) == Sort(NormFields(fs))
  {
    if fs != [] {
      NormSort(fs[1..]);
      NormInsert(fs[0], Sort(fs[1..]));
      assert NormFields(fs)[1..] == NormFields(fs[1..]);
    }
  }

  lemma {:induction false} ExtrasInsert(f: Field, fs: seq<Field>, s: seq<SField>)
    requires Sorted(fs)
    ensures Extras(Insert(f, fs), s) == if SchemaHas(s, f.name) then Extras(fs, s) else Insert(f, Extras(fs, s))
  {
    if fs == [] {
      assert Insert(f, fs)[1..] == [];
    } else if Le(f.name, fs[0].name) {
      assert ([f] + fs)[1..] == fs;
      var e := Extras(fs, s);
      ExtrasIn(fs, s);
      if e != [] {
        assert Le(fs[0].name, e[0].name) by { LeastFirst(fs, e[0]); }
        LeTrans(f.name, fs[0].name, e[0].name);
      }
    } else {
      ExtrasInsert(f, fs[1..], s);
      assert ([fs[0]] + Insert(f, fs[1..]))[1..] == Insert(f, fs[1..]);
    }
  }

  lemma {:induction false} ExtrasIn(fs: seq<Field>, s: seq<SField>)
    ensures forall f :: f in Extras(fs, s) <==> f in fs && !SchemaHas(s, f.name)
  {
    if fs != [] {
      ExtrasIn(fs[1..], s);
      assert fs == [fs[0]] + fs[1..];
    }
  }

  /** Filtering the extras commutes with sorting by name. */
  lemma {:induction false} ExtrasSort(fs: seq<Field>, s: seq<SField>)
    ensures Extras(Sort(fs), s) == Sort(Extras(fs, s))
  {
    if fs != [] {
      ExtrasSort(fs[1..], s);
      SortSorted(fs[1..]);
      ExtrasInsert(fs[0], Sort(fs[1..]), s);
      if !SchemaHas(s, fs[0].name) {
        assert Extras(fs, s)[1..] == Extras(fs[1..], s);
      }
    }
  }

  /** What is read back never depends on the order of distinctly named fields,
      extras or not, because every reader sorts. */
  lemma ReorderReadBack(a: seq<Field>, b: seq<Field>, given: Option<Schema>)
    requires DistinctNames(a) && DistinctNames(b) && multiset(a) == multiset(b)
    ensures ProjectStruct(a, given) == ProjectStruct(b, given)
  {
    DistinctPermutation(a, b);
    if given.Some? {
      var s := given.value;
      BySchemaReorder(a, b, s.fields);
      SortedExtras(a, s.fields);
      SortedExtras(b, s.fields);
    }
  }

  lemma SortedExtras(fs: seq<Field>, s: seq<SField>)
    ensures var p := ProjectBySchema(fs, s);
            Sort(p + NormFields(Extras(fs, s))) == Sort(p + NormFields(Extras(Sort(fs), s)))
  {
    var p, e := ProjectBySchema(fs, s), Extras(fs, s);
    SortTail(p, NormFields(e));
    NormSort(e);
    ExtrasSort(fs, s);
  }

  // ----- what a projection holds

  /** g is the schema's i-th field as the struct supplies it. */
  ghost predicate FromSchema(g: Field, fs: seq<Field>, s: seq<SField>, i: nat)
    requires i < |s|
  {
    g == Field(s[i].name, Project(Lookup(fs, s[i]), s[i].ty, s[i].def))
  }

  /** g is the extra field f, normalised. */
  ghost predicate FromExtra(g: Field, f: Field, s: seq<SField>) {
    !SchemaHas(s, f.name) && g == Field(f.name, NormVar(f.val))
  }

  /** A struct read back under a schema is sorted, and holds exactly the schema's
      fields and, if the schema admits them, the extras: nothing is lost,
      nothing is added. */
  lemma ProjectionHolds(fs: seq<Field>, s: Schema, g: Field)
    ensures Sorted(ProjectStruct(fs, Some(s)))
    ensures |ProjectStruct(fs, Some(s))|
         == |s.fields| + if DynamicExtras(s) then |Extras(fs, s.fields)| else 0
    ensures g in ProjectStruct(fs, Some(s)) <==>
            || (exists i :: 0 <= i < |s.fields| && FromSchema(g, fs, s.fields, i))
            || (DynamicExtras(s) && exists f :: f in fs && FromExtra(g, f, s.fields))
  {
    var p := ProjectBySchema(fs, s.fields);
    var ex := Extras(fs, s.fields);
    var e := if DynamicExtras(s) then NormFields(ex) else [];
    SortSorted(p + e);
    SortIn(p + e, g);
    forall i | 0 <= i < |p| ensures FromSchema(p[i], fs, s.fields, i) {
      BySchemaAt(fs, s.fields, i);
    }
    forall i | 0 <= i < |s.fields| && FromSchema(g, fs, s.fields, i) ensures g in p {
      BySchemaAt(fs, s.fields, i);
    }
    if DynamicExtras(s) {
      ExtrasIn(fs, s.fields);
      forall i | 0 <= i < |ex| ensures ex[i] in fs && FromExtra(e[i], ex[i], s.fields) {
        NormAt(ex, i);
        assert ex[i] in ex;
      }
      forall f | f in fs && FromExtra(g, f, s.fields) ensures g in e {
        assert f in ex;
        var i :| 0 <= i < |ex| && ex[i] == f;
        NormAt(ex, i);
      }
    }
  }
}
