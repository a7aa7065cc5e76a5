/** VMObject conversions: the as_ functions, array_type and cast_to. */
module VmCast {
  import opened Bytes
  import opened VmObject
  import Utf8
  import VmInteger

  /** Conversions that Python's own library performs: str(int), int(str) and
      base64. */
  datatype Library = Library(show: int -> string, parse: string -> Option<int>, base64: bytes -> string)

  // ----- UTF-16 (section 2 of RFC 2781)

  type codeUnit = u: int | 0 <= u <= 0xFFFF

  function CharUnits(c: char): (r: seq<codeUnit>)
    ensures r != []
  {
    var v := c as int;
    if v < 0x1_0000 then [v] else [0xD800 + (v - 0x1_0000) / 0x400, 0xDC00 + (v - 0x1_0000) % 0x400]
  }

  function Units(s: string): (r: seq<codeUnit>)
    ensures r == [] <==> s == []
  {
    if s == [] then [] else CharUnits(s[0]) + Units(s[1..])
  }

  /** The code point of a surrogate pair. */
  function Joined(high: int, low: int): int { 0x1_0000 + (high - 0xD800) * 0x400 + (low - 0xDC00) }

  /** Strict decoding: surrogates come in pairs, high before low. */
  function FromUnits(units: seq<codeUnit>): Option<string>
    decreases |units|
  {
    if units == [] then Some([])
    else
      var u := units[0];
      if u < 0xD800 || u >= 0xE000 then
        var more :- FromUnits(units[1..]);
        Some([u as char] + more)
      else if u < 0xDC00 && |units| >= 2 && 0xDC00 <= units[1] < 0xE000 then
        var more :- FromUnits(units[2..]);
        Some([Joined(u, units[1]) as char] + more)
      else None
  }

  // ----- structs as arrays

  function Find(items: seq<Pair>, key: Obj): Option<Obj> {
    if items == [] then None
    else if items[0].key == key then Some(items[0].value)
    else Find(items[1..], key)
  }

  /** The loop of array_type from index on; detected is the type seen so far. */
  function ArrayFrom(items: seq<Pair>, index: nat, detected: Option<byte>): byte
    requires index <= |items|
    decreases |items| - index
  {
    if index == |items| then (if detected.None? then TAG_NONE else detected.value)
    else
      match Find(items, ONumber(index))
      case None => TAG_NONE
      case Some(v) =>
        if detected.Some? && detected.value != Tag(v) then TAG_NONE
        else ArrayFrom(items, index + 1, Some(Tag(v)))
  }

  function ArrayType(o: Obj): byte { if o.OStruct? then ArrayFrom(o.items, 0, None) else TAG_NONE }

  /** The code units of a number array from index on. */
  function UnitsFrom(lib: Library, items: seq<Pair>, index: nat): (r: Option<seq<codeUnit>>)
    requires index <= |items|
    decreases |items| - index
  {
    if index == |items| then Some([])
    else
      var v :- Find(items, ONumber(index));
      var u :- AsNumber(lib, v);
      if u < 0 || u > 0xFFFF then None
      else
        var more :- UnitsFrom(lib, items, index + 1);
        Some([u] + more)
  }

  // ----- the conversions

  function AsNumber(lib: Library, o: Obj): Option<int> {
    match o
    case ONumber(n) => Some(n)
    case OBytes(b) => Some(VmInteger.FromVm(b))
    case OObject(b) => if |b| == 32 then Some(UInt(b)) else None
    case OBool(b) => Some(if b then 1 else 0)
    case OString(s) => lib.parse(s)
    case OEnum(e) => Some(e)
    case OTime(t) => Some(t)
    case ONone => Some(0)
    case OStruct(_) => None
  }

  function AsBytes(o: Obj): Option<bytes> {
    match o
    case ONone => None
    case OString(s) => Some(Utf8.Encode(s))
    case OBytes(b) => Some(b)
    case OObject(b) => Some(b)
    case OBool(b) => Some([if b then 1 else 0])
    case OEnum(e) => Word(e)
    case OTime(t) => Word(t)
    case ONumber(n) => Some(VmInteger.Padded(n))
    case OStruct(_) => Write(o)
  }

  function Word(v: int): Option<bytes> { if 0 <= v <= 0xFFFF_FFFF then Some(LE(v, 4)) else None }

  function AsString(lib: Library, o: Obj): Option<string> {
    match o
    case OString(s) => Some(s)
    case OBytes(b) => Utf8.Decode(b)
    case OBool(b) => Some(if b then "true" else "false")
    case ONumber(n) => Some(lib.show(n))
    case OEnum(e) => Some(lib.show(e))
    case OTime(t) => Some(lib.show(t))
    case ONone => Some("Null")
    case OStruct(items) =>
      if ArrayType(o) == TAG_NUMBER then
        var units :- UnitsFrom(lib, items, 0);
        FromUnits(units)
      else
        var raw :- AsBytes(o);
        Some(lib.base64(raw))
    case OObject(_) => None
  }

  function AsBool(o: Obj): Option<bool> {
    match o
    case OBool(b) => Some(b)
    case OBytes(b) => if |b| == 1 then Some(b[0] != 0) else None
    case ONumber(n) => Some(n != 0)
    case _ => None
  }

  /** The entries 0..n-1 of the code units. */
  function Entries(units: seq<codeUnit>): (r: seq<Pair>)
    ensures |r| == |units|
  {
    seq(|units|, i requires 0 <= i < |units| => Pair(ONumber(i), ONumber(units[i])))
  }

  function CastTo(lib: Library, o: Obj, target: byte): Option<Obj> {
    if Tag(o) == target then Some(o)
    else if target == TAG_NONE then Some(ONone)
    else if target == TAG_STRING then
      var s :- AsString(lib, o);
      Some(OString(s))
    else if target == TAG_BYTES then
      var b :- AsBytes(o);
      Some(OBytes(b))
    else if target == TAG_NUMBER then
      var n :- AsNumber(lib, o);
      Some(ONumber(n))
    else if target == TAG_BOOL then
      var b :- AsBool(o);
      Some(OBool(b))
    else if target == TAG_STRUCT then
      if o.OString? then Some(OStruct(Entries(Units(o.s))))
      else if o.OObject? then Some(o)
      else None
    else None
  }

  /** Casting there and back. */
  function ThereAndBack(lib: Library, o: Obj, target: byte): Option<Obj> {
    var there :- CastTo(lib, o, target);
    CastTo(lib, there, Tag(o))
  }

  // ----- what the casts keep

  /** A cast that succeeds yields the type asked for, except that an OBJECT asked
      to be a struct stays itself; casting again changes nothing. */
  lemma CastSettles(lib: Library, o: Obj, target: byte)
    requires CastTo(lib, o, target).Some?
    ensures var r := CastTo(lib, o, target).value;
            && (Tag(r) == target || (target == TAG_STRUCT && o.OObject? && r == o))
            && CastTo(lib, r, target) == Some(r)
  {
  }

  /** Seconds and enum values are written as unsigned words but bytes are read
      as signed ones: going through bytes agrees with the direct cast to a
      number exactly below 2^31. */
  lemma WordThroughBytes(lib: Library, o: Obj, v: int)
    requires 0 <= v <= 0xFFFF_FFFF && (o == OTime(v) || o == OEnum(v))
    ensures var bs := CastTo(lib, o, TAG_BYTES);
            bs.Some? && (CastTo(lib, bs.value, TAG_NUMBER) == CastTo(lib, o, TAG_NUMBER) <==> v < 0x8000_0000)
  {
    assert Pow256(4) == 0x1_0000_0000;
    LEUInt(v, 4);
    assert |LE(v, 4)| == 4;
  }

  /** No bytes cast loses anything, where both directions are defined: numbers of
      any size, text and booleans. */
  lemma ThroughBytes(lib: Library, o: Obj)
    requires o.ONumber? || o.OString? || o.OBool?
    ensures ThereAndBack(lib, o, TAG_BYTES) == Some(o)
  {
    match o
    case ONumber(n) => VmInteger.PaddedBack(n);
    case OString(s) => Utf8.RoundTrip(s);
    case OBool(b) =>
  }

  /** Text survives a struct of code units whenever it has any. */
  lemma {:induction false} UnitsBack(s: string)
    ensures FromUnits(Units(s)) == Some(s)
  {
    if s != [] {
      UnitsBack(s[1..]);
      var c, more := CharUnits(s[0]), Units(s[1..]);
      assert [s[0]] + s[1..] == s;
      if |c| == 1 {
        assert (c + more)[1..] == more && c == [s[0] as int];
      } else {
        assert (c + more)[2..] == more;
        Surrogates(s[0]);
      }
    }
  }

  lemma Surrogates(c: char)
    requires c as int >= 0x1_0000
    ensures var u := CharUnits(c);
            && 0xD800 <= u[0] < 0xDC00 <= u[1] < 0xE000
            && Joined(u[0], u[1]) == c as int
  {
  }

  lemma {:induction false} FindEntry(items: seq<Pair>, i: nat)
    requires i < |items| && Distinct(items)
    ensures Find(items, items[i].key) == Some(items[i].value)
  {
    if i > 0 {
      assert items[0].key != items[i].key;
      FindEntry(items[1..], i - 1);
    }
  }

  lemma EntryAt(units: seq<codeUnit>, i: nat)
    requires i < |units|
    ensures Find(Entries(units), ONumber(i)) == Some(ONumber(units[i]))
  {
    assert Distinct(Entries(units));
    FindEntry(Entries(units), i);
  }

  lemma {:induction false} EntriesAreNumbers(units: seq<codeUnit>, index: nat, detected: Option<byte>)
    requires index <= |units| && (detected.Some? ==> detected.value == TAG_NUMBER)
    requires index < |units| || detected.Some?
    ensures ArrayFrom(Entries(units), index, detected) == TAG_NUMBER
    decreases |units| - index
  {
    if index < |units| {
      EntryAt(units, index);
      EntriesAreNumbers(units, index + 1, Some(TAG_NUMBER));
    }
  }

  lemma {:induction false} EntriesHold(lib: Library, units: seq<codeUnit>, index: nat)
    requires index <= |units|
    ensures UnitsFrom(lib, Entries(units), index) == Some(units[index..])
    decreases |units| - index
  {
    if index < |units| {
      EntryAt(units, index);
      EntriesHold(lib, units, index + 1);
      var u := units[index];
      UnitsStep(lib, Entries(units), index, ONumber(u), u);
      assert [u] + units[index + 1..] == units[index..];
    } else {
      assert units[index..] == [];
    }
  }

  /** Text to struct and back is the same text, unless it is empty: an empty
      struct is no number array, so it comes back as base64 of its bytes. */
  lemma ThroughStruct(lib: Library, s: string)
    ensures ThereAndBack(lib, OString(s), TAG_STRUCT)
         == Some(OString(if s == [] then lib.base64([TAG_STRUCT, 0]) else s))
  {
    var units := Units(s);
    if s == [] {
      assert Write(OStruct(Entries(units))) == Some([TAG_STRUCT] + ([0] + []));
      assert [TAG_STRUCT] + ([0] + []) == [TAG_STRUCT, 0];
    } else {
      UnitsBack(s);
      EntriesAreNumbers(units, 0, None);
      EntriesHold(lib, units, 0);
    }
  }

  // ----- the loops

  method ComputeArrayType(o: Obj) returns (r: byte)
    ensures r == ArrayType(o)
  {
    if !o.OStruct? { return TAG_NONE; }
    var detected: Option<byte> := None;
    var index := 0;
    while index < |o.items|
      invariant 0 <= index <= |o.items|
      invariant ArrayType(o) == ArrayFrom(o.items, index, detected)
    {
      var value := Find(o.items, ONumber(index));
      if value.None? { return TAG_NONE; }
      if detected.Some? && detected.value != Tag(value.value) { return TAG_NONE; }
      detected := Some(Tag(value.value));
      index := index + 1;
    }
    return if detected.None? then TAG_NONE else detected.value;
  }

  ghost function Onto(done: seq<codeUnit>, more: Option<seq<codeUnit>>): Option<seq<codeUnit>> {
    if more.None? then None else Some(done + more.value)
  }

  lemma OntoMore(done: seq<codeUnit>, u: codeUnit, more: Option<seq<codeUnit>>)
    ensures Onto(done, Onto([u], more)) == Onto(done + [u], more)
  {
    if more.Some? { assert done + ([u] + more.value) == done + [u] + more.value; }
  }

  lemma UnitsStep(lib: Library, items: seq<Pair>, index: nat, v: Obj, u: codeUnit)
    requires index < |items| && Find(items, ONumber(index)) == Some(v) && AsNumber(lib, v) == Some(u)
    ensures UnitsFrom(lib, items, index) == Onto([u], UnitsFrom(lib, items, index + 1))
  {
  }

  method CollectUnits(lib: Library, items: seq<Pair>) returns (r: Option<seq<codeUnit>>)
    ensures r == UnitsFrom(lib, items, 0)
  {
    var payload: seq<codeUnit> := [];
    var index := 0;
    ghost var all := UnitsFrom(lib, items, 0);
    assert all.Some? ==> [] + all.value == all.value;
    while index < |items|
      invariant 0 <= index <= |items|
      invariant all == Onto(payload, UnitsFrom(lib, items, index))
    {
      var value := Find(items, ONumber(index));
      if value.None? { return None; }
      var unit := AsNumber(lib, value.value);
      if unit.None? || unit.value < 0 || unit.value > 0xFFFF { return None; }
      var u: codeUnit := unit.value;
      UnitsStep(lib, items, index, value.value, u);
      OntoMore(payload, u, UnitsFrom(lib, items, index + 1));
      payload := payload + [u];
      index := index + 1;
    }
    assert payload + [] == payload;
    return Some(payload);
  }

  /** The loop of a cast to a struct. */
  method SpellOut(s: string) returns (items: seq<Pair>)
    ensures items == Entries(Units(s))
  {
    var units := Units(s);
    items := [];
    var index := 0;
    while index < |units|
      invariant 0 <= index <= |units|
      invariant items == Entries(units)[..index]
    {
      var key := ONumber(index);
      Fresh(units, index);
      items := Put(items, key, ONumber(units[index]));
      index := index + 1;
    }
  }

  lemma Fresh(units: seq<codeUnit>, index: nat)
    requires index < |units|
    ensures Put(Entries(units)[..index], ONumber(index), ONumber(units[index])) == Entries(units)[..index + 1]
  {
    var items := Entries(units)[..index];
    assert !HasKey(items, ONumber(index));
    PutNew(items, ONumber(index), ONumber(units[index]));
  }
}
