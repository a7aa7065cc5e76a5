/** VMDynamicStruct._sort: a stable sort of fields by name, and what it implies. */
module FieldOrder {
  import opened Bytes
  import opened VmData

  /** Python's order on text: by code point, then by length. */
  predicate Le(a: string, b: string) {
    a == [] || (b != [] && (a[0] < b[0] || (a[0] == b[0] && Le(a[1..], b[1..]))))
  }

  /** One text stands before another if it is a prefix of it, or has the smaller
      character where they first differ. */
  predicate Before(a: string, b: string) {
    || (|a| <= |b| && a == b[..|a|])
    || exists i :: 0 <= i < |a| && i < |b| && DifferAt(a, b, i) && a[i] < b[i]
  }

  predicate DifferAt(a: string, b: string, i: nat)
    requires i < |a| && i < |b|
  {
    a[..i] == b[..i] && a[i] != b[i]
  }

  lemma {:induction false} LeExactly(a: string, b: string)
    ensures Le(a, b) <==> Before(a, b)
  {
    if a != [] && b != [] {
      if a[0] == b[0] {
        LeExactly(a[1..], b[1..]);
        BeforeTail(a, b);
      } else {
        assert DifferAt(a, b, 0);
      }
    }
  }

  lemma DifferTail(a: string, b: string, i: nat)
    requires a != [] && b != [] && a[0] == b[0] && 0 < i < |a| && i < |b|
    ensures DifferAt(a, b, i) <==> DifferAt(a[1..], b[1..], i - 1)
  {
    var x, y := a[1..][..i - 1], b[1..][..i - 1];
    assert a[..i] == [a[0]] + x && b[..i] == [b[0]] + y;
    assert a[..i][1..] == x && b[..i][1..] == y;
  }

  lemma PrefixTail(a: string, b: string)
    requires a != [] && b != [] && a[0] == b[0] && |a| <= |b|
    ensures a == b[..|a|] <==> a[1..] == b[1..][..|a| - 1]
  {
    assert a == [a[0]] + a[1..] && b[..|a|] == [b[0]] + b[1..][..|a| - 1];
    assert b[..|a|][1..] == b[1..][..|a| - 1];
  }

  lemma BeforeTail(a: string, b: string)
    requires a != [] && b != [] && a[0] == b[0]
    ensures Before(a[1..], b[1..]) <==> Before(a, b)
  {
    hide DifferAt;
    if |a| <= |b| { PrefixTail(a, b); }
    if i :| 0 <= i < |a[1..]| && i < |b[1..]| && DifferAt(a[1..], b[1..], i) && a[1..][i] < b[1..][i] {
      DifferTail(a, b, i + 1);
      assert DifferAt(a, b, i + 1) && a[i + 1] < b[i + 1];
    }
    if i :| 0 <= i < |a| && i < |b| && DifferAt(a, b, i) && a[i] < b[i] {
      DifferTail(a, b, i);
      assert DifferAt(a[1..], b[1..], i - 1) && a[1..][i - 1] < b[1..][i - 1];
    }
  }

  lemma {:induction false} LeTotal(a: string, b: string)
    ensures Le(a, b) || Le(b, a)
    ensures Le(a, b) && Le(b, a) ==> a == b
  {
    if a != [] && b != [] {
      LeTotal(a[1..], b[1..]);
      assert a == [a[0]] + a[1..] && b == [b[0]] + b[1..];
    }
  }

  lemma {:induction false} LeTrans(a: string, b: string, c: string)
    requires Le(a, b) && Le(b, c)
    ensures Le(a, c)
  {
    if a != [] && a[0] == b[0] == c[0] { LeTrans(a[1..], b[1..], c[1..]); }
  }

  /** f goes in front of the first field whose name is not smaller. */
  function Insert(f: Field, fs: seq<Field>): (r: seq<Field>)
    ensures |r| == |fs| + 1 && SizeFields(r) == 1 + Size(f.val) + SizeFields(fs)
  {
    if fs == [] || Le(f.name, fs[0].name) then [f] + fs
    else [fs[0]] + Insert(f, fs[1..])
  }

  function Sort(fs: seq<Field>): (r: seq<Field>)
    ensures |r| == |fs| && SizeFields(r) == SizeFields(fs)
  {
    if fs == [] then [] else Insert(fs[0], Sort(fs[1..]))
  }

  ghost predicate Sorted(fs: seq<Field>) {
    forall i, j :: 0 <= i < j < |fs| ==> Le(fs[i].name, fs[j].name)
  }

  ghost predicate DistinctNames(fs: seq<Field>) {
    forall i, j :: 0 <= i < j < |fs| ==> fs[i].name != fs[j].name
  }

  lemma {:induction false} InsertMembers(f: Field, fs: seq<Field>)
    ensures multiset(Insert(f, fs)) == multiset{f} + multiset(fs)
  {
    if fs != [] {
      assert fs == [fs[0]] + fs[1..];
      if !Le(f.name, fs[0].name) { InsertMembers(f, fs[1..]); }
    }
  }

  lemma {:induction false} SortMembers(fs: seq<Field>)
    ensures multiset(Sort(fs)) == multiset(fs)
  {
    if fs != [] {
      SortMembers(fs[1..]);
      InsertMembers(fs[0], Sort(fs[1..]));
      assert fs == [fs[0]] + fs[1..];
    }
  }

  lemma SortIn(fs: seq<Field>, f: Field)
    ensures f in Sort(fs) <==> f in fs
  {
    SortMembers(fs);
    assert f in multiset(Sort(fs)) <==> f in multiset(fs);
  }

  lemma PrependSorted(f: Field, fs: seq<Field>)
    requires Sorted(fs) && forall g :: g in fs ==> Le(f.name, g.name)
    ensures Sorted([f] + fs)
  {
    hide Le;
    var r := [f] + fs;
    forall i, j | 0 <= i < j < |r| ensures Le(r[i].name, r[j].name) {
      if i > 0 { assert r[i] == fs[i - 1]; }
      assert r[j] == fs[j - 1] && fs[j - 1] in fs;
    }
  }

  lemma {:induction false} InsertSorted(f: Field, fs: seq<Field>)
    requires Sorted(fs)
    ensures Sorted(Insert(f, fs))
  {
    hide Le;
    if fs == [] {
      PrependSorted(f, fs);
    } else {
      LeTotal(f.name, fs[0].name);
      forall g | g in fs ensures Le(fs[0].name, g.name) { LeastFirst(fs, g); }
      if Le(f.name, fs[0].name) {
        forall g | g in fs ensures Le(f.name, g.name) { LeTrans(f.name, fs[0].name, g.name); }
        PrependSorted(f, fs);
      } else {
        TailSorted(fs);
        InsertSorted(f, fs[1..]);
        InsertMembers(f, fs[1..]);
        forall g | g in Insert(f, fs[1..]) ensures Le(fs[0].name, g.name) {
          assert g in multiset(Insert(f, fs[1..]));
          assert g == f || g in fs[1..];
        }
        PrependSorted(fs[0], Insert(f, fs[1..]));
      }
    }
  }

  lemma {:induction false} SortSorted(fs: seq<Field>)
    ensures Sorted(Sort(fs))
  {
    if fs != [] {
      SortSorted(fs[1..]);
      InsertSorted(fs[0], Sort(fs[1..]));
    }
  }

  /** A sorted list is a fixed point, equal names included. */
  lemma {:induction false} SortFixed(fs: seq<Field>)
    requires Sorted(fs)
    ensures Sort(fs) == fs
  {
    if fs != [] {
      SortFixed(fs[1..]);
      assert fs == [fs[0]] + fs[1..];
      if |fs| > 1 { assert Le(fs[0].name, fs[1].name); }
    }
  }

  lemma SortIdempotent(fs: seq<Field>)
    ensures Sort(Sort(fs)) == Sort(fs)
  {
    SortSorted(fs);
    SortFixed(Sort(fs));
  }

  /** Stability: fields of one name keep their relative order. */
  function Named(fs: seq<Field>, name: string): (r: seq<Field>)
    ensures SizeFields(r) <= SizeFields(fs)
  {
    if fs == [] then []
    else if fs[0].name == name then [fs[0]] + Named(fs[1..], name)
    else Named(fs[1..], name)
  }

  lemma {:induction false} NamedIn(fs: seq<Field>, name: string)
    ensures forall f :: f in Named(fs, name) <==> f in fs && f.name == name
  {
    if fs != [] {
      NamedIn(fs[1..], name);
      assert fs == [fs[0]] + fs[1..];
    }
  }

  lemma {:induction false} NamedConcat(a: seq<Field>, b: seq<Field>, name: string)
    ensures Named(a + b, name) == Named(a, name) + Named(b, name)
  {
    if a == [] {
      assert a + b == b;
    } else {
      assert (a + b)[1..] == a[1..] + b;
      NamedConcat(a[1..], b, name);
    }
  }

  /** The two heads have the same name, the least one. */
  lemma AlignedHeads(a: seq<Field>, b: seq<Field>)
    requires Sorted(a) && Sorted(b) && a != []
    requires forall name :: |Named(a, name)| == |Named(b, name)|
    ensures b != [] && a[0].name == b[0].name
  {
    NamedIn(b, a[0].name);
    assert Named(a, a[0].name) != [] && Named(b, a[0].name)[0] in b;
    assert |Named(a, b[0].name)| == |Named(b, b[0].name)| != 0;
    NamedIn(a, b[0].name);
    LeastFirst(b, Named(b, a[0].name)[0]);
    LeastFirst(a, Named(a, b[0].name)[0]);
    LeTotal(a[0].name, b[0].name);
  }

  /** A sorted list is determined by its fields of each name. */
  lemma {:induction false} SortedByNamed(a: seq<Field>, b: seq<Field>)
    requires Sorted(a) && Sorted(b)
    requires forall name :: Named(a, name) == Named(b, name)
    ensures a == b
  {
    assert b != [] ==> Named(b, b[0].name) != Named([], b[0].name);
    if a != [] {
      AlignedHeads(a, b);
      forall name ensures Named(a[1..], name) == Named(b[1..], name) {
        assert Named(a, name) == Named(b, name);
        NamedTail(a, name);
        NamedTail(b, name);
      }
      SortedByNamed(a[1..], b[1..]);
      assert Named(a, a[0].name)[0] == Named(b, a[0].name)[0];
      assert a == [a[0]] + a[1..] && b == [b[0]] + b[1..];
    }
  }

  lemma NamedTail(fs: seq<Field>, name: string)
    requires fs != []
    ensures Named(fs[1..], name) == if fs[0].name == name then Named(fs, name)[1..] else Named(fs, name)
    ensures fs[0].name == name ==> Named(fs, name) != [] && Named(fs, name)[0] == fs[0]
  {
  }

  lemma {:induction false} InsertStable(f: Field, fs: seq<Field>, name: string)
    ensures Named(Insert(f, fs), name) == Named([f] + fs, name)
  {
    assert ([f] + fs)[1..] == fs;
    if fs != [] && !Le(f.name, fs[0].name) {
      InsertStable(f, fs[1..], name);
      assert ([f] + fs[1..])[1..] == fs[1..];
      LeTotal(f.name, f.name);
      assert f.name != fs[0].name;
    }
  }

  lemma {:induction false} SortStable(fs: seq<Field>, name: string)
    ensures Named(Sort(fs), name) == Named(fs, name)
  {
    if fs != [] {
      SortStable(fs[1..], name);
      InsertStable(fs[0], Sort(fs[1..]), name);
      assert ([fs[0]] + Sort(fs[1..]))[1..] == Sort(fs[1..]);
    }
  }

  lemma LeastFirst(a: seq<Field>, f: Field)
    requires Sorted(a) && f in a
    ensures Le(a[0].name, f.name)
  {
    LeTotal(f.name, f.name);
  }

  lemma SameHead(a: seq<Field>, b: seq<Field>)
    requires a != [] && b != [] && Sorted(a) && Sorted(b) && DistinctNames(a)
    requires a[0] in b && b[0] in a
    ensures a[0] == b[0]
  {
    LeastFirst(a, b[0]);
    LeastFirst(b, a[0]);
    LeTotal(a[0].name, b[0].name);
  }

  lemma TailMembers(a: seq<Field>)
    requires a != []
    ensures multiset(a[1..]) == multiset(a) - multiset{a[0]}
  {
    assert a == [a[0]] + a[1..];
  }

  lemma TailSorted(a: seq<Field>)
    requires a != [] && Sorted(a)
    ensures Sorted(a[1..]) && (DistinctNames(a) ==> DistinctNames(a[1..]))
  {
    hide Le;
    assert forall i :: 0 <= i < |a[1..]| ==> a[1..][i] == a[i + 1];
  }

  /** Two sorted arrangements of the same distinctly named fields are equal. */
  lemma {:induction false} SortedUnique(a: seq<Field>, b: seq<Field>)
    requires Sorted(a) && Sorted(b) && DistinctNames(a)
    requires multiset(a) == multiset(b)
    ensures a == b
  {
    hide Le;
    assert |a| == |multiset(a)| == |multiset(b)| == |b|;
    if a != [] {
      assert a[0] in multiset(a) && b[0] in multiset(b);
      SameHead(a, b);
      TailMembers(a);
      TailMembers(b);
      TailSorted(a);
      TailSorted(b);
      SortedUnique(a[1..], b[1..]);
      assert a == [a[0]] + a[1..] && b == [b[0]] + b[1..];
    }
  }

  lemma DistinctPermutation(a: seq<Field>, b: seq<Field>)
    requires DistinctNames(a) && multiset(a) == multiset(b)
    ensures Sort(a) == Sort(b)
  {
    SortMembers(a);
    SortMembers(b);
    SortSorted(a);
    SortSorted(b);
    DistinctSort(a);
    SortedUnique(Sort(a), Sort(b));
  }

  lemma {:induction false} DistinctInsert(f: Field, fs: seq<Field>)
    requires DistinctNames(fs) && forall g :: g in fs ==> g.name != f.name
    ensures DistinctNames(Insert(f, fs))
  {
    if fs != [] && !Le(f.name, fs[0].name) {
      DistinctInsert(f, fs[1..]);
      var r := Insert(f, fs[1..]);
      InsertMembers(f, fs[1..]);
      forall j | 0 <= j < |r| ensures r[j].name != fs[0].name {
        assert r[j] in multiset(r);
        assert r[j] == f || r[j] in fs[1..];
      }
    }
  }

  lemma {:induction false} DistinctSort(fs: seq<Field>)
    requires DistinctNames(fs)
    ensures DistinctNames(Sort(fs))
  {
    if fs != [] {
      DistinctSort(fs[1..]);
      forall g | g in Sort(fs[1..]) ensures g.name != fs[0].name {
        SortIn(fs[1..], g);
      }
      DistinctInsert(fs[0], Sort(fs[1..]));
    }
  }
}
