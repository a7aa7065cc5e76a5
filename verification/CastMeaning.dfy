/** What each conversion of a VM object yields, as a relation between the object and
    the result. */
module CastMeaning {
  import opened Bytes
  import opened VmCast
  import opened VmObject
  import Utf8
  import VmInteger

  /** n is 1 for true and 0 for false. */
  predicate Truth(n: int, b: bool) { (n == 1 && b) || (n == 0 && !b) }

  /** The number an object stands for. */
  ghost predicate NumberOf(lib: Library, o: Obj, n: int) {
    || (o.ONumber? && o.n == n)
    || (o.OTime? && o.seconds == n)
    || (o.OEnum? && o.e == n)
    || (o.ONone? && n == 0)
    || (o.OBool? && Truth(n, o.b))
    || (o.OBytes? && if o.data == [] then n == 0 else SInt(o.data) == n)
    || (o.OObject? && |o.raw| == 32 && UInt(o.raw) == n)
    || (o.OString? && lib.parse(o.s) == Some(n))
  }

  /** A conversion to a number succeeds exactly for the objects that stand for one. */
  lemma NumberExactly(lib: Library, o: Obj, n: int)
    ensures AsNumber(lib, o) == Some(n) <==> NumberOf(lib, o, n)
    ensures !o.ONumber? ==> (CastTo(lib, o, 3) == Some(ONumber(n)) <==> NumberOf(lib, o, n))
  {
  }

  /** The bytes an object stands for.  Only numbers change: they take a byte more than
      the shortest form, or two. */
  ghost predicate BytesOf(o: Obj, b: bytes) {
    || (o.OBytes? && o.data == b)
    || (o.OObject? && o.raw == b)
    || (o.OString? && Utf8.Decode(b) == Some(o.s))
    || (o.OBool? && |b| == 1 && Truth(b[0], o.b))
    || (o.OTime? && |b| == 4 && UInt(b) == o.seconds)
    || (o.OEnum? && |b| == 4 && UInt(b) == o.e)
    || (o.ONumber? && b == VmInteger.Padded(o.n))
    || (o.OStruct? && Write(o) == Some(b))
  }

  lemma BytesExactly(lib: Library, o: Obj, b: bytes)
    ensures AsBytes(o) == Some(b) <==> BytesOf(o, b)
    ensures !o.OBytes? ==> (CastTo(lib, o, 2) == Some(OBytes(b)) <==> BytesOf(o, b))
  {
    assert |b| == 1 ==> b == [b[0]];
    if o.OString? { Utf8.DecodeExact(b, o.s); }
    if o.OTime? { WordExactly(o.seconds, b); }
    if o.OEnum? { WordExactly(o.e, b); }
  }

  lemma WordExactly(v: int, b: bytes)
    ensures Word(v) == Some(b) <==> |b| == 4 && UInt(b) == v
  {
    hide LE, UInt, Pow256;
    if |b| == 4 {
      UIntLE(b);
      FourBytes(UInt(b));
    }
    if 0 <= v <= 0xFFFF_FFFF { FourBytes(v); }
  }

  lemma FourBytes(v: int)
    ensures 0 <= v <= 0xFFFF_FFFF ==> |LE(v, 4)| == 4 && UInt(LE(v, 4)) == v
    ensures 0 <= v < Pow256(4) <==> 0 <= v <= 0xFFFF_FFFF
  {
    assert Pow256(4) == 0x1_0000_0000;
    LEUInt(v, 4);
  }

  /** A dictionary of the numbers 0 to n-1 in any order, all of one kind. */
  ghost predicate ArrayOf(items: seq<Pair>, kind: byte) {
    && items != []
    && forall i :: 0 <= i < |items| ==> Find(items, ONumber(i)).Some? && Tag(Find(items, ONumber(i)).value) == kind
  }

  /** array_type finds that kind, and NONE for everything else. */
  lemma ArrayTypeExactly(o: Obj, kind: byte)
    requires kind != 0
    ensures ArrayType(o) == kind <==> o.OStruct? && ArrayOf(o.items, kind)
  {
    if o.OStruct? { ArrayFromExactly(o.items, 0, None, kind); }
  }

  lemma {:induction false} ArrayFromExactly(items: seq<Pair>, index: nat, detected: Option<byte>, kind: byte)
    requires kind != 0 && index <= |items|
    ensures ArrayFrom(items, index, detected) == kind <==>
            && (detected.Some? ==> detected.value == kind)
            && (detected.None? ==> index < |items|)
            && forall i :: index <= i < |items| ==>
               Find(items, ONumber(i)).Some? && Tag(Find(items, ONumber(i)).value) == kind
    decreases |items| - index
  {
    if index < |items| && Find(items, ONumber(index)).Some? {
      ArrayFromExactly(items, index + 1, Some(Tag(Find(items, ONumber(index)).value)), kind);
    }
  }

  /** The text whose code units stand in the entries 0 to n-1. */
  ghost predicate Spelled(lib: Library, items: seq<Pair>, s: string) {
    var units := Units(s);
    && |units| == |items|
    && forall i :: 0 <= i < |items| ==>
         Find(items, ONumber(i)).Some? && NumberOf(lib, Find(items, ONumber(i)).value, units[i])
  }

  /** The text an object stands for. */
  ghost predicate TextOf(lib: Library, o: Obj, s: string) {
    || (o.OString? && o.s == s)
    || (o.OBytes? && Utf8.Encode(s) == o.data)
    || (o.OBool? && s == if o.b then "true" else "false")
    || (o.ONumber? && s == lib.show(o.n))
    || (o.OEnum? && s == lib.show(o.e))
    || (o.OTime? && s == lib.show(o.seconds))
    || (o.ONone? && s == "Null")
    || (o.OStruct? && ArrayOf(o.items, 3) && Spelled(lib, o.items, s))
    || (o.OStruct? && !ArrayOf(o.items, 3) && exists b :: Write(o) == Some(b) && s == lib.base64(b))
  }

  lemma TextExactly(lib: Library, o: Obj, s: string)
    ensures AsString(lib, o) == Some(s) <==> TextOf(lib, o, s)
    ensures !o.OString? ==> (CastTo(lib, o, 4) == Some(OString(s)) <==> TextOf(lib, o, s))
  {
    if o.OBytes? { Utf8.DecodeExact(o.data, s); }
    if o.OStruct? {
      ArrayTypeExactly(o, 3);
      if ArrayOf(o.items, 3) { SpelledExactly(lib, o.items, s); }
    }
  }

  lemma SpelledAt(lib: Library, items: seq<Pair>, s: string)
    ensures Spelled(lib, items, s) <==> UnitsAt(lib, items, 0, Units(s))
  {
    hide NumberOf, Units, UnitsAt, Find;
    var units := Units(s);
    UnitsAtEach(lib, items, 0, units);
    assert |units| == |items| ==> forall i {:trigger ONumber(i)} :: 0 <= i < |items| ==> units[i - 0] == units[i];
  }

  lemma SpelledExactly(lib: Library, items: seq<Pair>, s: string)
    ensures (var units := UnitsFrom(lib, items, 0); units.Some? && FromUnits(units.value) == Some(s))
       <==> Spelled(lib, items, s)
  {
    hide Units, FromUnits, UnitsFrom, Spelled, UnitsAt;
    UnitsExactly(lib, items, 0, Units(s));
    SpelledAt(lib, items, s);
    UnitsBack(s);
    var units := UnitsFrom(lib, items, 0);
    if units.Some? && FromUnits(units.value) == Some(s) { UnitsOnly(units.value, s); }
  }

  /** The units stand in the entries from index on. */
  ghost predicate UnitsAt(lib: Library, items: seq<Pair>, index: nat, units: seq<codeUnit>)
    requires index <= |items|
    decreases |items| - index
  {
    if index == |items| then units == []
    else
      && units != [] && Find(items, ONumber(index)).Some?
      && NumberOf(lib, Find(items, ONumber(index)).value, units[0])
      && UnitsAt(lib, items, index + 1, units[1..])
  }

  lemma {:induction false} UnitsExactly(lib: Library, items: seq<Pair>, index: nat, units: seq<codeUnit>)
    requires index <= |items|
    ensures UnitsFrom(lib, items, index) == Some(units) <==> UnitsAt(lib, items, index, units)
    decreases |items| - index
  {
    hide AsNumber, NumberOf;
    if index < |items| && Find(items, ONumber(index)).Some? && units != [] {
      NumberExactly(lib, Find(items, ONumber(index)).value, units[0]);
      UnitsExactly(lib, items, index + 1, units[1..]);
      assert units == [units[0]] + units[1..];
    }
  }

  lemma {:induction false} UnitsAtEach(lib: Library, items: seq<Pair>, index: nat, units: seq<codeUnit>)
    requires index <= |items|
    ensures UnitsAt(lib, items, index, units) <==>
            && |units| == |items| - index
            && forall i {:trigger ONumber(i)} :: index <= i < |items| ==>
                 Find(items, ONumber(i)).Some? && NumberOf(lib, Find(items, ONumber(i)).value, units[i - index])
    decreases |items| - index
  {
    hide NumberOf;
    if index < |items| && units != [] {
      UnitsAtEach(lib, items, index + 1, units[1..]);
      assert |units| == |items| - index ==>
        forall i {:trigger ONumber(i)} :: index < i < |items| ==> units[1..][i - (index + 1)] == units[i - index];
    }
  }

  /** Code units that decode to a text are the text's. */
  lemma {:induction false} UnitsOnly(units: seq<codeUnit>, s: string)
    requires FromUnits(units) == Some(s)
    ensures units == Units(s)
    decreases |units|
  {
    if units != [] {
      var u := units[0];
      if u < 0xD800 || u >= 0xE000 {
        assert s[1..] == FromUnits(units[1..]).value && s[0] == u as char;
        UnitsOnly(units[1..], s[1..]);
        assert units == [u] + units[1..];
      } else {
        assert s[1..] == FromUnits(units[2..]).value && s[0] == Joined(u, units[1]) as char;
        UnitsOnly(units[2..], s[1..]);
        Split(u, units[1]);
        assert units == [u, units[1]] + units[2..];
      }
    }
  }

  lemma Split(high: codeUnit, low: codeUnit)
    requires 0xD800 <= high < 0xDC00 <= low < 0xE000
    ensures CharUnits(Joined(high, low) as char) == [high, low]
  {
  }

  /** The truth value of an object: bytes have one only if they are a single byte. */
  ghost predicate BoolOf(o: Obj, b: bool) {
    || (o.OBool? && o.b == b)
    || (o.OBytes? && |o.data| == 1 && (b <==> o.data != [0]))
    || (o.ONumber? && (b <==> o.n != 0))
  }

  lemma BoolExactly(lib: Library, o: Obj, b: bool)
    ensures AsBool(o) == Some(b) <==> BoolOf(o, b)
    ensures !o.OBool? ==> (CastTo(lib, o, 6) == Some(OBool(b)) <==> BoolOf(o, b))
  {
  }

  /** Text becomes a struct of its code units at 0 to n-1; an OBJECT stays one, and
      everything becomes NONE. */
  lemma StructExactly(lib: Library, o: Obj)
    ensures CastTo(lib, o, 0) == Some(ONone)
    ensures var r := CastTo(lib, o, 1);
            && (o.OStruct? || o.OObject? ==> r == Some(o))
            && (o.OString? ==> r.Some? && r.value.OStruct? && Spelled(lib, r.value.items, o.s))
            && (r.Some? ==> o.OStruct? || o.OObject? || o.OString?)
  {
    if o.OString? { SpellsOut(lib, o.s); }
  }

  lemma SpellsOut(lib: Library, s: string)
    ensures Spelled(lib, Entries(Units(s)), s)
  {
    var units := Units(s);
    forall i | 0 <= i < |units| ensures Find(Entries(units), ONumber(i)) == Some(ONumber(units[i])) {
      EntryAt(units, i);
    }
  }

  /** Nothing is cast to a timestamp, an enum or an OBJECT but what is one. */
  lemma NoOtherCast(lib: Library, o: Obj, target: byte)
    requires target == 5 || target >= 7
    ensures CastTo(lib, o, target).Some? <==> Tag(o) == target
  {
  }
}
