/** Which field a lookup finds: after sorting, reordering, concatenating and
    projecting. */
module VmGet {
  import opened Bytes
  import opened VmData
  import opened FieldOrder
  import opened SchemaCodec
  import opened VmWire
  import opened VmRoundTrip

  lemma {:induction false} GetIn(fs: seq<Field>, f: Field)
    requires DistinctNames(fs) && f in fs
    ensures Get(fs, f.name) == Some(f.val)
  {
    if fs[0] != f {
      assert f in fs[1..];
      GetIn(fs[1..], f);
    }
  }

  lemma {:induction false} GetFrom(fs: seq<Field>, name: string)
    requires Get(fs, name).Some?
    ensures Field(name, Get(fs, name).value) in fs
  {
    if fs[0].name != name { GetFrom(fs[1..], name); }
  }

  lemma GetReorder(a: seq<Field>, b: seq<Field>, name: string)
    requires DistinctNames(a) && DistinctNames(b) && multiset(a) == multiset(b)
    ensures Get(a, name) == Get(b, name)
  {
    if Get(a, name).Some? {
      GetFrom(a, name);
      var f := Field(name, Get(a, name).value);
      assert f in multiset(b);
      GetIn(b, f);
    } else if Get(b, name).Some? {
      GetFrom(b, name);
      var f := Field(name, Get(b, name).value);
      assert f in multiset(a);
      GetIn(a, f);
    }
  }

  lemma {:induction false} BySchemaAt(fs: seq<Field>, s: seq<SField>, i: nat)
    requires i < |s|
    ensures ProjectBySchema(fs, s)[i] == Field(s[i].name, Project(Lookup(fs, s[i]), s[i].ty, s[i].def))
  {
    if i > 0 { BySchemaAt(fs, s[1..], i - 1); }
  }

  lemma {:induction false} GetConcat(a: seq<Field>, b: seq<Field>, name: string)
    ensures Get(a + b, name) == if Get(a, name).Some? then Get(a, name) else Get(b, name)
  {
    if a == [] {
      assert a + b == b;
    } else {
      assert (a + b)[1..] == a[1..] + b;
      GetConcat(a[1..], b, name);
    }
  }

  lemma ProjectedNames(fs: seq<Field>, s: seq<SField>)
    requires DistinctSNames(s)
    ensures DistinctNames(ProjectBySchema(fs, s))
  {
    forall i | 0 <= i < |s| ensures ProjectBySchema(fs, s)[i].name == s[i].name {
      BySchemaAt(fs, s, i);
    }
  }

  /** Sorting does not change which field of a name comes first. */
  lemma {:induction false} GetFirst(fs: seq<Field>, name: string)
    ensures Get(fs, name) == if Named(fs, name) == [] then None else Some(Named(fs, name)[0].val)
  {
    if fs != [] { GetFirst(fs[1..], name); }
  }

  lemma GetSorted(fs: seq<Field>, name: string)
    ensures Get(Sort(fs), name) == Get(fs, name)
  {
    SortStable(fs, name);
    GetFirst(fs, name);
    GetFirst(Sort(fs), name);
  }

  lemma ProjectedGet(fs: seq<Field>, s: seq<SField>, i: nat)
    requires DistinctSNames(s) && i < |s|
    ensures Get(ProjectBySchema(fs, s), s[i].name) == Some(Project(Lookup(fs, s[i]), s[i].ty, s[i].def))
  {
    var p := ProjectBySchema(fs, s);
    ProjectedNames(fs, s);
    BySchemaAt(fs, s, i);
    assert p[i] in p;
    GetIn(p, p[i]);
  }

  lemma {:induction false} DistinctDefAt(s: seq<SField>, i: nat)
    requires DistinctDefs(s) && i < |s|
    ensures DistinctDef(s[i].def)
  {
    if i > 0 { DistinctDefAt(s[1..], i - 1); }
  }

  lemma {:induction false} NormAt(fs: seq<Field>, i: nat)
    requires i < |fs|
    ensures NormFields(fs)[i] == Field(fs[i].name, NormVar(fs[i].val))
  {
    if i > 0 { NormAt(fs[1..], i - 1); }
  }
}
