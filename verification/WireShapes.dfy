/** Strict decoding and encoding of modelled shapes. */
module WireShapes {
  import opened Bytes
  import opened Json

  // ----- wire names

  function Upper(c: char): char { if 'a' <= c <= 'z' then (c as int - 32) as char else c }

  /** The characters after an underscore are capitalised, the underscore goes. */
  function Camel(s: string, up: bool): string {
    if s == [] then []
    else if s[0] == '_' then Camel(s[1..], true)
    else [if up then Upper(s[0]) else s[0]] + Camel(s[1..], false)
  }

  /** snake_to_camel */
  function SnakeToCamel(s: string): string { Camel(s, false) }

  predicate Lower(c: char) { 'a' <= c <= 'z' }

  predicate Word(c: char) { Lower(c) || '0' <= c <= '9' }

  /** Lower-case words of letters and digits; what follows an underscore is a
      letter.  up says that an underscore has just been read. */
  predicate Snake(s: string, up: bool) {
    if s == [] then !up
    else if s[0] == '_' then !up && Snake(s[1..], true)
    else (if up then Lower(s[0]) else Word(s[0])) && Snake(s[1..], false)
  }

  /** The name a camel-case name came from. */
  function Uncamel(s: string): string {
    if s == [] then []
    else (if 'A' <= s[0] <= 'Z' then ['_', (s[0] as int + 32) as char] else [s[0]]) + Uncamel(s[1..])
  }

  lemma {:induction false} UncamelCamel(s: string, up: bool)
    requires Snake(s, up)
    ensures Uncamel(Camel(s, up)) == (if up then ['_'] else []) + s
    decreases |s|
  {
    if s != [] {
      assert [s[0]] + s[1..] == s;
      if s[0] == '_' {
        UncamelCamel(s[1..], true);
      } else {
        UncamelCamel(s[1..], false);
        var c := if up then Upper(s[0]) else s[0];
        assert ([c] + Camel(s[1..], false))[1..] == Camel(s[1..], false);
        assert ['_'] + [s[0]] == ['_', s[0]];
        assert ['_'] + ([s[0]] + s[1..]) == ['_', s[0]] + s[1..];
      }
    }
  }

  lemma {:induction false} UncamelSnake(s: string, up: bool)
    requires Snake(s, up)
    ensures Uncamel(s) == s
    decreases |s|
  {
    if s != [] {
      assert [s[0]] + s[1..] == s;
      UncamelSnake(s[1..], s[0] == '_');
    }
  }

  /** Different field names have different wire names, and the wire name of one
      is never the name of another. */
  lemma CamelDistinct(a: string, b: string)
    requires Snake(a, false) && Snake(b, false) && a != b
    ensures SnakeToCamel(a) != SnakeToCamel(b) && SnakeToCamel(a) != b
  {
    UncamelCamel(a, false);
    UncamelCamel(b, false);
    UncamelSnake(b, false);
    assert [] + a == a && [] + b == b;
  }

  // ----- shapes and decoded data

  /** The annotations a modelled field can have. */
  datatype Ty =
    | TText | TBool | TInt | TVm
    | TList(elem: Ty)
    | TDict(elem: Ty)
    | TShape(shape: Shape)
    | TOptional(inner: Ty)

  datatype Shape = Shape(fields: seq<Decl>)

  /** A dataclass field; wire is the override from its metadata, if any. */
  datatype Decl = Decl(name: string, override: Option<string>, ty: Ty, default: Data)

  /** Decoded values; DNull is None.  An object holds its fields in the order of
      its shape. */
  datatype Data =
    | DNull
    | DText(s: string)
    | DBool(b: bool)
    | DInt(n: int)
    | DVm(v: VmValue)
    | DList(items: seq<Data>)
    | DDict(entries: seq<Slot>)
    | DObject(shape: Shape, values: seq<Data>)

  datatype Slot = Slot(name: string, val: Data)

  predicate Overridden(f: Decl) { f.override.Some? && f.override.value != "" }

  /** wire_name_of */
  function Wire(f: Decl): string {
    if Overridden(f) then f.override.value else SnakeToCamel(f.name)
  }

  // ----- decoding

  /** decode_shape; None is ShapeMismatch. */
  function DecodeShape(show: int -> string, shape: Shape, j: Json): Option<Data>
    decreases Size(j), 1, shape, 0
  {
    if !j.JObj? then None
    else
      var values :- DecodeFields(show, shape.fields, j.members);
      Some(DObject(shape, values))
  }

  /** The value a field is decoded from: its wire name first, else its own. */
  function Raw(f: Decl, members: seq<Member>): (r: Option<Json>)
    ensures r.Some? ==> Size(r.value) < SizeMembers(members)
  {
    if Get(members, Wire(f)).Some? then Get(members, Wire(f)) else Get(members, f.name)
  }

  function DecodeFields(show: int -> string, fs: seq<Decl>, members: seq<Member>): (r: Option<seq<Data>>)
    ensures r.Some? ==> |r.value| == |fs|
    decreases SizeMembers(members), 3, fs, 0
  {
    if fs == [] then Some([])
    else
      var d :- DecodeMember(show, fs[0], members);
      var more :- DecodeFields(show, fs[1..], members);
      Some([d] + more)
  }

  function DecodeMember(show: int -> string, f: Decl, members: seq<Member>): Option<Data>
    decreases SizeMembers(members), 2, f, 0
  {
    var raw := Raw(f, members);
    if raw.None? then Some(f.default) else DecodeField(show, f.ty, raw.value)
  }

  /** _decode_field */
  function DecodeField(show: int -> string, ty: Ty, j: Json): Option<Data>
    decreases Size(j), 1, ty, 0
  {
    match ty
    case TOptional(inner) => if j.JNull? then Some(DNull) else DecodeField(show, inner, j)
    case TVm => Some(DVm(FromWire(show, j)))
    case TText => if j.JText? then Some(DText(j.s)) else None
    case TBool => if j.JBool? then Some(DBool(j.b)) else None
    case TInt => if j.JInt? then Some(DInt(j.n)) else None
    case TList(elem) =>
      if !j.JList? then None
      else
        var items :- DecodeItems(show, elem, j.items);
        Some(DList(items))
    case TDict(elem) =>
      if !j.JObj? then None
      else
        var entries :- DecodeEntries(show, elem, j.members);
        Some(DDict(entries))
    case TShape(shape) => DecodeShape(show, shape, j)
  }

  function DecodeItems(show: int -> string, ty: Ty, items: seq<Json>): (r: Option<seq<Data>>)
    ensures r.Some? ==> |r.value| == |items|
    decreases SizeAll(items), 1, ty, 0
  {
    if items == [] then Some([])
    else
      var d :- DecodeField(show, ty, items[0]);
      var more :- DecodeItems(show, ty, items[1..]);
      Some([d] + more)
  }

  function DecodeEntries(show: int -> string, ty: Ty, members: seq<Member>): (r: Option<seq<Slot>>)
    ensures r.Some? ==> |r.value| == |members|
    decreases SizeMembers(members), 1, ty, 0
  {
    if members == [] then Some([])
    else
      var d :- DecodeField(show, ty, members[0].val);
      var more :- DecodeEntries(show, ty, members[1..]);
      Some([Slot(members[0].name, d)] + more)
  }

  // ----- writing

  /** shape_to_wire */
  function WriteData(d: Data): Json
    decreases d
  {
    match d
    case DNull => JNull
    case DText(s) => JText(s)
    case DBool(b) => JBool(b)
    case DInt(n) => JInt(n)
    case DVm(v) => ToWire(v)
    case DList(items) => JList(WriteItems(items))
    case DDict(entries) => JObj(WriteEntries(entries))
    case DObject(shape, values) => JObj(WriteFields(shape.fields, values))
  }

  function WriteItems(items: seq<Data>): (r: seq<Json>)
    ensures |r| == |items|
    decreases items
  {
    if items == [] then [] else [WriteData(items[0])] + WriteItems(items[1..])
  }

  function WriteEntries(entries: seq<Slot>): (r: seq<Member>)
    ensures |r| == |entries|
    decreases entries
  {
    if entries == [] then [] else [WriteSlot(entries[0])] + WriteEntries(entries[1..])
  }

  function WriteSlot(e: Slot): Member
    decreases e
  {
    Member(e.name, WriteData(e.val))
  }

  /** A field that holds None is left out. */
  function WriteFields(fs: seq<Decl>, values: seq<Data>): seq<Member>
    decreases values
  {
    if fs == [] || values == [] then []
    else if values[0].DNull? then WriteFields(fs[1..], values[1..])
    else [Member(Wire(fs[0]), WriteData(values[0]))] + WriteFields(fs[1..], values[1..])
  }

  // ----- shapes that decode what they write

  /** No field is written under a name that another field is read from. */
  ghost predicate Clean(fs: seq<Decl>) {
    forall i, j :: 0 <= i < |fs| && 0 <= j < |fs| && i != j ==> Apart(fs[i], fs[j])
  }

  predicate Apart(f: Decl, g: Decl) { Wire(f) != Wire(g) && Wire(f) != g.name }

  /** Defaults decode back to themselves where they are written, and only
      optional fields default to None. */
  ghost predicate GoodTy(show: int -> string, ty: Ty)
    decreases ty
  {
    match ty
    case TOptional(inner) => GoodTy(show, inner) && !inner.TOptional?
    case TList(elem) => GoodTy(show, elem) && !elem.TOptional?
    case TDict(elem) => GoodTy(show, elem) && !elem.TOptional?
    case TShape(shape) => GoodShape(show, shape)
    case _ => true
  }

  ghost predicate GoodShape(show: int -> string, shape: Shape)
    decreases shape
  {
    Clean(shape.fields) && forall i :: 0 <= i < |shape.fields| ==> GoodDecl(show, shape.fields[i])
  }

  ghost predicate GoodDecl(show: int -> string, f: Decl)
    decreases f
  {
    && GoodTy(show, f.ty)
    && if f.ty.TOptional? then f.default == DNull else DecodeField(show, f.ty, WriteData(f.default)) == Some(f.default)
  }

  // ----- decode, write, decode

  /** Only an optional field decodes to None. */
  lemma NotNull(show: int -> string, ty: Ty, j: Json)
    requires !ty.TOptional? && DecodeField(show, ty, j).Some?
    ensures !DecodeField(show, ty, j).value.DNull?
  {
  }

  lemma {:induction false} FieldAgain(show: int -> string, ty: Ty, j: Json)
    requires GoodTy(show, ty) && DecodeField(show, ty, j).Some?
    ensures DecodeField(show, ty, WriteData(DecodeField(show, ty, j).value)) == DecodeField(show, ty, j)
    decreases Size(j), 1, ty, 0
  {
    match ty
    case TOptional(inner) =>
      if !j.JNull? {
        FieldAgain(show, inner, j);
        NotNull(show, inner, j);
        NotJsonNull(DecodeField(show, inner, j).value);
      }
    case TVm => VmBack(show, FromWire(show, j));
    case TList(elem) => ItemsAgain(show, elem, j.items);
    case TDict(elem) => EntriesAgain(show, elem, j.members);
    case TShape(shape) => ShapeAgain(show, shape, j);
    case _ =>
  }

  lemma NotJsonNull(d: Data)
    requires !d.DNull?
    ensures !WriteData(d).JNull?
  {
  }

  lemma {:induction false} ItemsAgain(show: int -> string, ty: Ty, items: seq<Json>)
    requires GoodTy(show, ty) && DecodeItems(show, ty, items).Some?
    ensures DecodeItems(show, ty, WriteItems(DecodeItems(show, ty, items).value)) == DecodeItems(show, ty, items)
    decreases SizeAll(items), 1, ty, 0
  {
    if items != [] {
      FieldAgain(show, ty, items[0]);
      ItemsAgain(show, ty, items[1..]);
      var ds := DecodeItems(show, ty, items).value;
      assert ds[1..] == DecodeItems(show, ty, items[1..]).value;
      assert WriteItems(ds)[1..] == WriteItems(ds[1..]);
    }
  }

  lemma {:induction false} EntriesAgain(show: int -> string, ty: Ty, members: seq<Member>)
    requires GoodTy(show, ty) && DecodeEntries(show, ty, members).Some?
    ensures DecodeEntries(show, ty, WriteEntries(DecodeEntries(show, ty, members).value))
         == DecodeEntries(show, ty, members)
    decreases SizeMembers(members), 1, ty, 0
  {
    if members != [] {
      FieldAgain(show, ty, members[0].val);
      EntriesAgain(show, ty, members[1..]);
      var ds := DecodeEntries(show, ty, members).value;
      assert ds[1..] == DecodeEntries(show, ty, members[1..]).value;
      assert WriteEntries(ds)[1..] == WriteEntries(ds[1..]);
      assert WriteEntries(ds)[0] == WriteSlot(ds[0]);
    }
  }

  /** What is written for a field is found again by every field, and by no other. */
  lemma {:induction false} WrittenGet(fs: seq<Decl>, values: seq<Data>, name: string)
    requires |fs| == |values| && forall i :: 0 <= i < |fs| ==> Wire(fs[i]) != name
    ensures Get(WriteFields(fs, values), name) == None
    decreases |fs|
  {
    if fs != [] {
      assert forall i :: 0 <= i < |fs[1..]| ==> fs[1..][i] == fs[i + 1];
      WrittenGet(fs[1..], values[1..], name);
    }
  }

  lemma {:induction false} WrittenAt(fs: seq<Decl>, values: seq<Data>, i: nat)
    requires |fs| == |values| && i < |fs| && Clean(fs)
    ensures Get(WriteFields(fs, values), Wire(fs[i]))
         == if values[i].DNull? then None else Some(WriteData(values[i]))
    decreases |fs|
  {
    CleanTail(fs);
    if i == 0 {
      forall j | 0 <= j < |fs[1..]| ensures Wire(fs[1..][j]) != Wire(fs[0]) { assert Apart(fs[j + 1], fs[0]); }
      WrittenGet(fs[1..], values[1..], Wire(fs[0]));
    } else {
      assert Apart(fs[0], fs[i]);
      WrittenAt(fs[1..], values[1..], i - 1);
    }
  }

  lemma CleanTail(fs: seq<Decl>)
    requires Clean(fs) && fs != []
    ensures Clean(fs[1..])
  {
    forall i, j | 0 <= i < |fs[1..]| && 0 <= j < |fs[1..]| && i != j ensures Apart(fs[1..][i], fs[1..][j]) {
      assert Apart(fs[i + 1], fs[j + 1]);
    }
  }

  /** A field left out is not found under its own name either. */
  lemma WrittenRaw(fs: seq<Decl>, values: seq<Data>, i: nat)
    requires |fs| == |values| && i < |fs| && Clean(fs)
    ensures Raw(fs[i], WriteFields(fs, values)) == if values[i].DNull? then None else Some(WriteData(values[i]))
  {
    WrittenAt(fs, values, i);
    if values[i].DNull? && Wire(fs[i]) != fs[i].name {
      forall j | 0 <= j < |fs| ensures Wire(fs[j]) != fs[i].name {
        if j != i { assert Apart(fs[j], fs[i]); }
      }
      WrittenGet(fs, values, fs[i].name);
    }
  }

  lemma {:induction false} ShapeAgain(show: int -> string, shape: Shape, j: Json)
    requires GoodShape(show, shape) && DecodeShape(show, shape, j).Some?
    ensures DecodeShape(show, shape, WriteData(DecodeShape(show, shape, j).value)) == DecodeShape(show, shape, j)
    decreases Size(j), 1, shape, 0
  {
    var values := DecodeFields(show, shape.fields, j.members).value;
    var written := WriteFields(shape.fields, values);
    forall i | 0 <= i < |shape.fields|
      ensures DecodeMember(show, shape.fields[i], written) == Some(values[i])
    {
      DecodedAt(show, shape.fields, j.members, i);
      WrittenRaw(shape.fields, values, i);
      MemberAgain(show, shape.fields[i], j.members);
    }
    DecodedFrom(show, shape.fields, written, values);
  }

  lemma {:induction false} DecodedAt(show: int -> string, fs: seq<Decl>, members: seq<Member>, i: nat)
    requires DecodeFields(show, fs, members).Some? && i < |fs|
    ensures DecodeMember(show, fs[i], members) == Some(DecodeFields(show, fs, members).value[i])
    decreases |fs|
  {
    if i > 0 { DecodedAt(show, fs[1..], members, i - 1); }
  }

  lemma {:induction false} DecodedFrom(show: int -> string, fs: seq<Decl>, members: seq<Member>, values: seq<Data>)
    requires |fs| == |values| && forall i :: 0 <= i < |fs| ==> DecodeMember(show, fs[i], members) == Some(values[i])
    ensures DecodeFields(show, fs, members) == Some(values)
    decreases |fs|
  {
    if fs != [] {
      assert forall i :: 0 <= i < |fs[1..]| ==> fs[1..][i] == fs[i + 1] && values[1..][i] == values[i + 1];
      DecodedFrom(show, fs[1..], members, values[1..]);
      assert [values[0]] + values[1..] == values;
    }
  }

  /** One field: written and found again, or left out and defaulted to None. */
  lemma {:induction false} MemberAgain(show: int -> string, f: Decl, members: seq<Member>)
    requires GoodDecl(show, f) && DecodeMember(show, f, members).Some?
    ensures var d := DecodeMember(show, f, members).value;
            if d.DNull? then f.default == DNull else DecodeField(show, f.ty, WriteData(d)) == Some(d)
    decreases SizeMembers(members), 2, f, 0
  {
    var raw := Raw(f, members);
    if raw.Some? {
      FieldAgain(show, f.ty, raw.value);
      if !f.ty.TOptional? { NotNull(show, f.ty, raw.value); }
    }
  }

  // ----- shapes whose names keep them clean

  function Key(f: Decl): string { if Overridden(f) then f.override.value else f.name }

  /** b may follow a in a snake-case name. */
  predicate Follows(a: char, b: char) { Lower(b) || (a != '_' && (b == '_' || Word(b))) }

  predicate StepAt(s: string, i: nat)
    requires i + 1 < |s|
  {
    Follows(s[i], s[i + 1])
  }

  predicate SnakeName(s: string) {
    s != [] && Word(s[0]) && s[|s| - 1] != '_' && forall i :: 0 <= i < |s| - 1 ==> StepAt(s, i)
  }

  /** A dataclass field's name. */
  type FieldName = s: string | SnakeName(s) witness "a"

  lemma {:induction false} SnakeFrom(s: string, k: nat)
    requires SnakeName(s) && k <= |s|
    ensures Snake(s[k..], k > 0 && s[k - 1] == '_')
    decreases |s| - k
  {
    if k < |s| {
      if k > 0 { assert StepAt(s, k - 1); }
      SnakeFrom(s, k + 1);
      assert s[k..][1..] == s[k + 1..];
    }
  }

  /** A snake-case name, or a one-word override for a name that has an underscore. */
  predicate Named(f: Decl) {
    && SnakeName(Key(f))
    && (Overridden(f) ==> '_' !in Key(f) && '_' in f.name)
  }

  lemma {:induction false} CamelDrops(s: string, up: bool)
    ensures '_' !in Camel(s, up)
    ensures '_' !in s && !up ==> Camel(s, up) == s
    decreases |s|
  {
    if s != [] {
      assert [s[0]] + s[1..] == s;
      CamelDrops(s[1..], s[0] == '_');
    }
  }

  lemma WireOfKey(f: Decl)
    requires Overridden(f) ==> '_' !in Key(f)
    ensures Wire(f) == SnakeToCamel(Key(f))
  {
    CamelDrops(Key(f), false);
  }

  predicate DistinctKeys(fs: seq<Decl>) { forall i, j :: 0 <= i < j < |fs| ==> Key(fs[i]) != Key(fs[j]) }

  lemma KeysApart(f: Decl, g: Decl)
    requires Named(f) && Named(g) && Key(f) != Key(g)
    ensures Apart(f, g)
  {
    WireOfKey(f);
    WireOfKey(g);
    SnakeFrom(Key(f), 0);
    SnakeFrom(Key(g), 0);
    assert Key(f)[0..] == Key(f) && Key(g)[0..] == Key(g);
    CamelDistinct(Key(f), Key(g));
    CamelDrops(Key(f), false);
  }

  /** Distinct snake-case names are all the modelled shapes need: their wire
      names never meet one another or another field's name. */
  lemma NamesSuffice(fs: seq<Decl>)
    requires (forall i :: 0 <= i < |fs| ==> Named(fs[i])) && DistinctKeys(fs)
    ensures Clean(fs)
  {
    forall i, j | 0 <= i < |fs| && 0 <= j < |fs| && i != j ensures Apart(fs[i], fs[j]) {
      KeysApart(fs[i], fs[j]);
    }
  }

  /** The default the dataclasses give a field of each annotation. */
  predicate Usual(f: Decl) {
    match f.ty
    case TText => f.default.DText?
    case TBool => f.default.DBool?
    case TInt => f.default.DInt?
    case TVm => false
    case TList(_) => f.default == DList([])
    case TDict(_) => f.default == DDict([])
    case TShape(_) => false
    case TOptional(_) => f.default == DNull
  }

  lemma UsualGood(show: int -> string, f: Decl)
    requires Usual(f) && GoodTy(show, f.ty)
    ensures GoodDecl(show, f)
  {
    if f.ty.TList? { assert WriteItems([]) == []; }
    if f.ty.TDict? { assert WriteEntries([]) == []; }
  }

  ghost predicate Tabled(show: int -> string, f: Decl) { Named(f) && Usual(f) && GoodTy(show, f.ty) }

  lemma TableGood(show: int -> string, shape: Shape)
    requires (forall i :: 0 <= i < |shape.fields| ==> Tabled(show, shape.fields[i])) && DistinctKeys(shape.fields)
    ensures GoodShape(show, shape)
  {
    NamesSuffice(shape.fields);
    forall i | 0 <= i < |shape.fields| ensures GoodDecl(show, shape.fields[i]) {
      UsualGood(show, shape.fields[i]);
    }
  }

  // ----- the loops

  /** decode_shape, filling its keyword arguments field by field. */
  method DecodeByFields(show: int -> string, shape: Shape, j: Json) returns (r: Option<Data>)
    ensures r == DecodeShape(show, shape, j)
  {
    if !j.JObj? { return None; }
    var values: seq<Data> := [];
    var i := 0;
    while i < |shape.fields|
      invariant 0 <= i <= |shape.fields| && |values| == i
      invariant forall k :: 0 <= k < i ==> DecodeMember(show, shape.fields[k], j.members) == Some(values[k])
    {
      var f := shape.fields[i];
      var value := f.default;
      var raw := Raw(f, j.members);
      if raw.Some? {
        var d := DecodeField(show, f.ty, raw.value);
        if d.None? {
          Undecoded(show, shape.fields, j.members, i);
          return None;
        }
        value := d.value;
      }
      values := values + [value];
      i := i + 1;
    }
    DecodedFrom(show, shape.fields, j.members, values);
    return Some(DObject(shape, values));
  }

  lemma Undecoded(show: int -> string, fs: seq<Decl>, members: seq<Member>, i: nat)
    requires i < |fs| && DecodeMember(show, fs[i], members).None?
    ensures DecodeFields(show, fs, members).None?
  {
    if DecodeFields(show, fs, members).Some? { DecodedAt(show, fs, members, i); }
  }

  /** shape_to_wire on an object, filling a dictionary field by field. */
  method WriteByFields(shape: Shape, values: seq<Data>) returns (j: Json)
    requires |shape.fields| == |values|
    ensures j == WriteData(DObject(shape, values))
  {
    var fs := shape.fields;
    var written: seq<Member> := [];
    var i := 0;
    assert fs[0..] == fs && values[0..] == values;
    while i < |fs|
      invariant 0 <= i <= |fs|
      invariant WriteFields(fs, values) == written + WriteFields(fs[i..], values[i..])
    {
      assert fs[i..][0] == fs[i] && fs[i..][1..] == fs[i + 1..];
      assert values[i..][0] == values[i] && values[i..][1..] == values[i + 1..];
      if !values[i].DNull? {
        written := written + [Member(Wire(fs[i]), WriteData(values[i]))];
      }
      i := i + 1;
    }
    return JObj(written);
  }
}
