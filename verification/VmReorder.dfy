/** The order of fields, at any depth: which rearrangements leave the bytes
    alone. */
module VmReorder {
  import opened Bytes
  import opened VmData
  import opened FieldOrder
  import opened SchemaCodec
  import opened VmWire
  import opened VmRoundTrip
  import opened VmLaws
  import opened VmGet

  // ----- rearranged values

  /** w is v with the fields of its structs in another order, at any depth, as far
      as the optional schema leaves the order open. */
  ghost predicate Reordered(v: Value, w: Value, given: Option<Schema>)
    decreases Size(w) + 1, 9, 0
  {
    match (v, w)
    case (VDyn(x), VDyn(y)) => Reordered(x, y, None)
    case (VDyns(vs), VDyns(ws)) => ReorderedAll(vs, ws)
    case (VStruct(a), VStruct(b)) => ReorderedStruct(a, b, given)
    case (VStructs(own, rows), VStructs(own', rows')) =>
      (given.Some? || own' == own) && ReorderedRows(rows, rows', RowSchema(given, own))
    case _ => w == v
  }

  ghost predicate ReorderedAll(vs: seq<Value>, ws: seq<Value>)
    decreases SizeAll(ws) + 1, 0, 0
  {
    |ws| == |vs| && (vs != [] ==> Reordered(vs[0], ws[0], None) && ReorderedAll(vs[1..], ws[1..]))
  }

  ghost predicate ReorderedRows(rows: seq<Row>, rows': seq<Row>, used: Option<Schema>)
    decreases SizeRows(rows') + 2, 0, 0
  {
    && |rows'| == |rows|
    && (rows != [] ==>
          && ReorderedStruct(rows[0].fields, rows'[0].fields, used)
          && ReorderedRows(rows[1..], rows'[1..], used))
  }

  /** Without a schema fields of different names may trade places.  Under a schema
      its fields may stand anywhere, but extras keep their order. */
  ghost predicate ReorderedStruct(a: seq<Field>, b: seq<Field>, given: Option<Schema>)
    decreases SizeFields(b) + 2, 7, 0
  {
    if given.None? then forall name :: ReorderedFields(Named(a, name), Named(b, name))
    else
      && ReorderedSlots(a, b, given.value.fields)
      && (DynamicExtras(given.value) ==>
            |b| == |a| && ReorderedFields(Extras(a, given.value.fields), Extras(b, given.value.fields)))
  }

  ghost predicate ReorderedFields(a: seq<Field>, b: seq<Field>)
    decreases SizeFields(b) + 1, 0, 0
  {
    && |b| == |a|
    && (a != [] ==>
          && b[0].name == a[0].name
          && Reordered(a[0].val, b[0].val, None)
          && ReorderedFields(a[1..], b[1..]))
  }

  ghost predicate ReorderedSlots(a: seq<Field>, b: seq<Field>, s: seq<SField>)
    decreases SizeFields(b) + 1, 0, |s|
  {
    s != [] ==>
      && Get(a, s[0].name).Some? == Get(b, s[0].name).Some?
      && ReorderedSlot(Lookup(a, s[0]), Lookup(b, s[0]), s[0].def)
      && ReorderedSlots(a, b, s[1..])
  }

  ghost predicate ReorderedSlot(x: Option<Value>, y: Option<Value>, d: Option<Schema>)
    decreases if y.Some? then Size(y.value) + 1 else 0, 10, 0
  {
    if y.None? then x.None? else x.Some? && Reordered(x.value, y.value, d)
  }

  // ----- have the same bytes

  lemma {:induction false} SortedReordered(a: seq<Field>, b: seq<Field>)
    requires Sorted(a) && Sorted(b)
    requires forall name :: ReorderedFields(Named(a, name), Named(b, name))
    ensures ReorderedFields(a, b)
  {
    assert b != [] ==> Named(b, b[0].name) != Named([], b[0].name);
    if a != [] {
      AlignedHeads(a, b);
      forall name ensures ReorderedFields(Named(a[1..], name), Named(b[1..], name)) {
        assert ReorderedFields(Named(a, name), Named(b, name));
        NamedTail(a, name);
        NamedTail(b, name);
      }
      SortedReordered(a[1..], b[1..]);
      assert ReorderedFields(Named(a, a[0].name), Named(b, a[0].name));
    }
  }

  /** So do they when sorted, which is how they are written. */
  lemma SortsReordered(a: seq<Field>, b: seq<Field>)
    requires ReorderedStruct(a, b, None)
    ensures ReorderedFields(Sort(a), Sort(b))
  {
    SortSorted(a);
    SortSorted(b);
    forall name ensures ReorderedFields(Named(Sort(a), name), Named(Sort(b), name)) {
      SortStable(a, name);
      SortStable(b, name);
    }
    SortedReordered(Sort(a), Sort(b));
  }

  lemma {:induction false} StaticReordered(v: Value, w: Value, given: Option<Schema>)
    requires Reordered(v, w, given)
    ensures TypeOf(w) == TypeOf(v)
    ensures EncStatic(Some(v), TypeOf(v), given) == EncStatic(Some(w), TypeOf(v), given)
    decreases Size(w) + 1, 9, 0
  {
    match (v, w)
    case (VDyn(x), VDyn(y)) => VarReordered(x, y);
    case (VDyns(vs), VDyns(ws)) => AllReordered(vs, ws);
    case (VStruct(a), VStruct(b)) => StructReordered(a, b, given);
    case (VStructs(own, rows), VStructs(own', rows')) => RowsReordered(rows, rows', RowSchema(given, own));
    case _ =>
  }

  /** Two values that differ only in the order of fields, at any depth, have the same
      bytes. */
  lemma {:induction false} VarReordered(v: Value, w: Value)
    requires Reordered(v, w, None)
    ensures EncVar(v) == EncVar(w)
    decreases Size(w) + 1, 10, 0
  {
    StaticReordered(v, w, None);
  }

  lemma {:induction false} AllReordered(vs: seq<Value>, ws: seq<Value>)
    requires ReorderedAll(vs, ws)
    ensures EncVars(vs) == EncVars(ws)
    decreases SizeAll(ws) + 1, 0, 0
  {
    if vs != [] {
      VarReordered(vs[0], ws[0]);
      AllReordered(vs[1..], ws[1..]);
    }
  }

  lemma {:induction false} FieldsReordered(a: seq<Field>, b: seq<Field>)
    requires ReorderedFields(a, b)
    ensures EncNamed(a) == EncNamed(b) && EncFields(a) == EncFields(b)
    decreases SizeFields(b) + 1, 0, 0
  {
    if a != [] {
      VarReordered(a[0].val, b[0].val);
      FieldsReordered(a[1..], b[1..]);
    }
  }

  lemma {:induction false} SlotsReordered(a: seq<Field>, b: seq<Field>, s: seq<SField>)
    requires ReorderedSlots(a, b, s)
    ensures EncBySchema(a, s) == EncBySchema(b, s) && FoundCount(a, s) == FoundCount(b, s)
    decreases SizeFields(b) + 1, 0, |s|
  {
    if s != [] {
      if Lookup(b, s[0]).Some? { StaticReordered(Lookup(a, s[0]).value, Lookup(b, s[0]).value, s[0].def); }
      SlotsReordered(a, b, s[1..]);
    }
  }

  lemma {:induction false} StructReordered(a: seq<Field>, b: seq<Field>, given: Option<Schema>)
    requires ReorderedStruct(a, b, given)
    ensures EncStruct(a, given) == EncStruct(b, given)
    decreases SizeFields(b) + 2, 7, 0
  {
    if given.None? {
      SortsReordered(a, b);
      FieldsReordered(Sort(a), Sort(b));
    } else {
      SlotsReordered(a, b, given.value.fields);
      if DynamicExtras(given.value) {
        FieldsReordered(Extras(a, given.value.fields), Extras(b, given.value.fields));
      }
    }
  }

  lemma {:induction false} RowsReordered(rows: seq<Row>, rows': seq<Row>, used: Option<Schema>)
    requires ReorderedRows(rows, rows', used)
    ensures EncRows(rows, used) == EncRows(rows', used)
    decreases SizeRows(rows') + 2, 0, 0
  {
    if rows != [] {
      StructReordered(rows[0].fields, rows'[0].fields, used);
      RowsReordered(rows[1..], rows'[1..], used);
    }
  }

  // ----- with distinct names

  lemma {:induction false} NamedOnce(fs: seq<Field>, name: string)
    requires DistinctNames(fs)
    ensures |Named(fs, name)| <= 1
  {
    if fs != [] {
      NamedOnce(fs[1..], name);
      NamedIn(fs[1..], name);
      assert forall i :: 0 <= i < |fs[1..]| ==> fs[1..][i].name != fs[0].name;
      assert Named(fs[1..], name) != [] ==> Named(fs[1..], name)[0] in Named(fs[1..], name);
    }
  }

  /** Distinctly named fields may stand in any order: it is enough that each finds
      its like in the other struct. */
  lemma DistinctReordered(a: seq<Field>, b: seq<Field>)
    requires DistinctNames(a) && DistinctNames(b)
    requires forall name :: Get(a, name).Some? == Get(b, name).Some?
    requires forall name :: Get(a, name).Some? ==> Reordered(Get(a, name).value, Get(b, name).value, None)
    ensures ReorderedStruct(a, b, None)
  {
    forall name ensures ReorderedFields(Named(a, name), Named(b, name)) {
      NamedOnce(a, name);
      NamedOnce(b, name);
      GetFirst(a, name);
      GetFirst(b, name);
      NamedIn(a, name);
      NamedIn(b, name);
      assert Get(a, name).Some? ==> Named(a, name)[0] in Named(a, name) && Named(b, name)[0] in Named(b, name);
    }
  }
}
