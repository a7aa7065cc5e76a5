/** build_nft_rom: metadata coerced to a schema's types and written under it. */
module NftRom {
  import opened Bytes
  import opened FieldOrder
  import opened SchemaCodec
  import opened VmData
  import opened VmRoundTrip
  import opened VmWire
  import Int256
  import Prim

  /** The Python values metadata can be given as.  MOther is anything else, a
      bool included. */
  datatype Meta =
    | MNone
    | MInt(n: int)
    | MBytes(b: bytes)
    | MText(s: string)
    | MList(items: seq<Meta>)
    | MMap(entries: seq<Entry>)
    | MOther

  datatype Entry = Entry(name: string, val: Meta)

  /** str.lower, the test for blank text, and _decode_flexible_hex. */
  datatype Host = Host(lower: string -> string, blank: string -> bool, hex: string -> Option<bytes>)

  const META_ID := "_i"
  const ROM := "rom"

  // ----- sizes, for termination

  function MetaSize(m: Meta): nat {
    match m
    case MList(items) => 1 + ListSize(items)
    case MMap(entries) => 1 + EntriesSize(entries)
    case _ => 0
  }

  function ListSize(items: seq<Meta>): nat {
    if items == [] then 0 else 1 + MetaSize(items[0]) + ListSize(items[1..])
  }

  function EntriesSize(entries: seq<Entry>): nat {
    if entries == [] then 0 else 1 + MetaSize(entries[0].val) + EntriesSize(entries[1..])
  }

  // ----- finding metadata

  datatype Found = Missing | WrongCase | Hit(m: Meta)

  function Exact(entries: seq<Entry>, name: string): (r: Option<Meta>)
    ensures r.Some? ==> MetaSize(r.value) < EntriesSize(entries)
  {
    if entries == [] then None
    else if entries[0].name == name then Some(entries[0].val)
    else Exact(entries[1..], name)
  }

  /** _find_metadata_field */
  function Find(h: Host, entries: seq<Entry>, name: string): (r: Found)
    ensures r.Hit? ==> MetaSize(r.m) < EntriesSize(entries)
  {
    var exact := Exact(entries, name);
    if exact.Some? then Hit(exact.value)
    else if exists i :: 0 <= i < |entries| && h.lower(entries[i].name) == h.lower(name) then WrongCase
    else Missing
  }

  // ----- coercing scalars

  function EnsureBytes(h: Host, m: Meta): Option<bytes> {
    match m
    case MBytes(b) => Some(b)
    case MText(s) => if h.blank(s) then None else h.hex(s)
    case _ => None
  }

  /** _coerce_integer_for_vm_type for an integer of w bytes. */
  function CoerceInt(n: int, w: nat): Option<int> {
    var signed := -Pow256(w) <= 2 * n < Pow256(w);
    var unsigned := 0 <= n < Pow256(w);
    if !signed && !unsigned then None
    else if w == 1 || 2 * n < Pow256(w) then Some(n)
    else Some(n - Pow256(w))
  }

  /** _coerce_int256 */
  function Coerce256(n: int): Option<int> {
    if -Pow256(Int256.WORD) <= 2 * n < Pow256(Int256.WORD) || 0 <= n < Pow256(Int256.WORD) then Some(n) else None
  }

  function CoerceOne(h: Host, k: Prim.Kind, m: Meta): Option<Prim.PVal> {
    match k
    case Blob =>
      var b :- EnsureBytes(h, m);
      Some(Prim.Bin(b))
    case ZStr => if m.MText? && !h.blank(m.s) then Some(Prim.Txt(m.s)) else None
    case I256 =>
      if !m.MInt? then None
      else
        var n :- Coerce256(m.n);
        Some(Prim.Num(n))
    case B16 => Fixed(h, k, m)
    case B32 => Fixed(h, k, m)
    case B64 => Fixed(h, k, m)
    case I8 => Sized(k, m)
    case I16 => Sized(k, m)
    case I32 => Sized(k, m)
    case I64 => Sized(k, m)
    case _ => None
  }

  function Sized(k: Prim.Kind, m: Meta): Option<Prim.PVal> {
    if !m.MInt? then None
    else
      var n :- CoerceInt(m.n, Prim.Width(k));
      Some(Prim.Num(n))
  }

  function Fixed(h: Host, k: Prim.Kind, m: Meta): Option<Prim.PVal> {
    var b :- EnsureBytes(h, m);
    if |b| == Prim.Width(k) then Some(Prim.Bin(b)) else None
  }

  function CoerceMany(h: Host, k: Prim.Kind, items: seq<Meta>): Option<seq<Prim.PVal>> {
    if items == [] then Some([])
    else
      var x :- CoerceOne(h, k, items[0]);
      var xs :- CoerceMany(h, k, items[1..]);
      Some([x] + xs)
  }

  // ----- coercing structs

  /** A list of [name, value] pairs read as fields. */
  function Pairs(items: seq<Meta>): (r: Option<seq<Entry>>)
    ensures r.Some? ==> EntriesSize(r.value) <= ListSize(items)
  {
    if items == [] then Some([])
    else
      var p := items[0];
      if !p.MList? || |p.items| != 2 || !p.items[0].MText? then None
      else
        var more :- Pairs(items[1..]);
        assert ListSize(p.items) >= MetaSize(p.items[1]) by { assert p.items[1..][0] == p.items[1]; }
        Some([Entry(p.items[0].s, p.items[1])] + more)
  }

  /** _metadata_struct_input_to_fields */
  function Inputs(m: Meta): (r: Option<seq<Entry>>)
    ensures r.Some? ==> EntriesSize(r.value) < MetaSize(m)
  {
    match m
    case MMap(entries) => Some(entries)
    case MList(items) => Pairs(items)
    case _ => None
  }

  predicate Allowed(h: Host, s: seq<SField>, name: string) {
    exists i :: 0 <= i < |s| && h.lower(s[i].name) == h.lower(name)
  }

  /** _coerce_metadata_value.  A DYNAMIC field takes any value, but one that is
      no dynamic variable is written as an empty array. */
  function Coerce(h: Host, t: VMType, def: Option<Schema>, m: Meta): (r: Option<Value>)
    ensures r.Some? ==> TypeOf(r.value) == t
    decreases MetaSize(m), 1, 0
  {
    if m.MNone? then None
    else
      match t
      case TOne(k) =>
        var x :- CoerceOne(h, k, m);
        Some(VOne(k, x))
      case TMany(k) =>
        if !m.MList? then None
        else
          var xs :- CoerceMany(h, k, m.items);
          Some(VMany(k, xs))
      case TDyn => Some(Default(TDyn))
      case TDyns => if m == MList([]) then Some(VDyns([])) else None
      case TStruct =>
        var fs :- CoerceStruct(h, def, m);
        Some(VStruct(fs))
      case TStructs =>
        if !m.MList? || def.None? then None
        else
          var rows :- CoerceRows(h, def.value, m.items);
          Some(VStructs(def.value, rows))
  }

  /** _coerce_metadata_struct */
  function CoerceStruct(h: Host, def: Option<Schema>, m: Meta): Option<seq<Field>>
    decreases MetaSize(m), 0, 0
  {
    var s :- def;
    var entries :- Inputs(m);
    var fs :- CoerceFields(h, s.fields, [], entries);
    if forall i :: 0 <= i < |entries| ==> Allowed(h, s.fields, entries[i].name) then Some(fs) else None
  }

  function CoerceRows(h: Host, s: Schema, items: seq<Meta>): Option<seq<Row>>
    decreases ListSize(items), 0, 0
  {
    if items == [] then Some([])
    else
      var fs :- CoerceStruct(h, Some(s), items[0]);
      var rows :- CoerceRows(h, s, items[1..]);
      Some([Row(fs)] + rows)
  }

  /** _metadata_dynamic_fields_for_schema: the schema's fields other than the
      standard ones, each of them mandatory. */
  function CoerceFields(h: Host, s: seq<SField>, std: seq<Field>, entries: seq<Entry>): Option<seq<Field>>
    decreases EntriesSize(entries), 2, |s|
  {
    if s == [] then Some([])
    else if Get(std, s[0].name).Some? then CoerceFields(h, s[1..], std, entries)
    else
      var v :- CoerceField(h, s[0], entries);
      var more :- CoerceFields(h, s[1..], std, entries);
      Some([Field(s[0].name, v)] + more)
  }

  function CoerceField(h: Host, f: SField, entries: seq<Entry>): (r: Option<Value>)
    ensures r.Some? ==> TypeOf(r.value) == f.ty
    decreases EntriesSize(entries), 1, 0
  {
    var found := Find(h, entries, f.name);
    if found.Hit? then Coerce(h, f.ty, f.def, found.m) else None
  }

  /** The fields build_nft_rom adds itself. */
  function Standard(id: int, rom: bytes): seq<Field> {
    [Field(META_ID, VOne(Prim.I256, Prim.Num(id))), Field(ROM, VOne(Prim.Blob, Prim.Bin(rom)))]
  }

  /** _metadata_bytes */
  function RomBytes(h: Host, entries: seq<Entry>): Option<bytes> {
    match Find(h, entries, ROM)
    case Missing => Some([])
    case WrongCase => None
    case Hit(m) => EnsureBytes(h, m)
  }

  function BuildRom(h: Host, s: Schema, id: int, entries: seq<Entry>): Option<bytes> {
    var rom :- RomBytes(h, entries);
    var std := Standard(id, rom);
    var more :- CoerceFields(h, s.fields, std, entries);
    EncStruct(std + more, Some(s))
  }

  // ----- what the metadata means

  /** r is the signed two's-complement representative of n in w bytes. */
  ghost predicate Represents(n: int, r: int, w: nat) {
    -Pow256(w) <= 2 * r < Pow256(w) && Congruent(n, r, Pow256(w))
  }

  ghost predicate MeansOne(h: Host, k: Prim.Kind, m: Meta, x: Prim.PVal) {
    if k in {Prim.I8, Prim.I16, Prim.I32, Prim.I64} then m.MInt? && x.Num? && Represents(m.n, x.n, Prim.Width(k))
    else if k == Prim.I256 then m.MInt? && x.Num? && Represents(m.n, x.n, Int256.WORD)
    else if k == Prim.ZStr then m.MText? && x == Prim.Txt(m.s)
    else x.Bin? && EnsureBytes(h, m) == Some(x.b)
  }

  /** v is what is read back where m was given for type t. */
  ghost predicate Means(h: Host, t: VMType, def: Option<Schema>, m: Meta, v: Value)
    decreases MetaSize(m), 1, 0
  {
    match t
    case TOne(k) => v.VOne? && v.k == k && MeansOne(h, k, m, v.x)
    case TMany(k) =>
      && m.MList? && v.VMany? && v.k == k && |v.xs| == |m.items|
      && forall i :: 0 <= i < |m.items| ==> MeansOne(h, k, m.items[i], v.xs[i])
    case TDyn => v == VDyn(VDyns([]))
    case TDyns => v == VDyns([])
    case TStruct => v.VStruct? && MeansStruct(h, def, m, v.fields)
    case TStructs =>
      m.MList? && v.VStructs? && def == Some(v.own) && MeansRows(h, def, m.items, v.rows)
  }

  ghost predicate MeansStruct(h: Host, def: Option<Schema>, m: Meta, fs: seq<Field>)
    decreases MetaSize(m), 0, 0
  {
    def.Some? && Inputs(m).Some? && MeansFields(h, def.value.fields, [], Inputs(m).value, fs)
  }

  ghost predicate MeansRows(h: Host, def: Option<Schema>, items: seq<Meta>, rows: seq<Row>)
    decreases ListSize(items), 0, 0
  {
    if items == [] then rows == []
    else rows != [] && MeansStruct(h, def, items[0], rows[0].fields) && MeansRows(h, def, items[1..], rows[1..])
  }

  /** fs has the schema's names, in order of name, and each holds what was given
      for it: a standard value or the metadata of that very name. */
  ghost predicate MeansFields(h: Host, s: seq<SField>, std: seq<Field>, entries: seq<Entry>, fs: seq<Field>)
    decreases EntriesSize(entries), 2, 0
  {
    && Sorted(fs) && |fs| == |s|
    && forall i :: 0 <= i < |s| ==> MeansField(h, s[i], std, entries, Get(fs, s[i].name))
  }

  ghost predicate MeansField(h: Host, f: SField, std: seq<Field>, entries: seq<Entry>, v: Option<Value>)
    decreases EntriesSize(entries), 1, 0
  {
    v.Some? &&
    if Get(std, f.name).Some? then v.value == NormVar(Get(std, f.name).value)
    else Exact(entries, f.name).Some? && Means(h, f.ty, f.def, Exact(entries, f.name).value, v.value)
  }

  // ----- proofs: scalars

  lemma ByteRep(n: int)
    requires CoerceInt(n, 1).Some?
    ensures CoerceInt(n, 1).value == n
    ensures Represents(n, SInt([n % 256]), 1)
  {
    var b: byte := n % 256;
    SIntRange([b]);
    assert LE(n, 1) == [b] by { assert LE(n, 1) == [n % 256] + LE(n / 256, 0); }
    SIntOfLE(n, 1);
  }

  lemma Whole(p: int, q: int)
    requires p > 0 && (q == 0 || q == p)
    ensures q % p == 0
  {
  }

  lemma IntRep(n: int, w: nat)
    requires CoerceInt(n, w).Some? && w > 1
    ensures Represents(n, CoerceInt(n, w).value, w)
  {
    Whole(Pow256(w), n - CoerceInt(n, w).value);
  }

  lemma WordRep(n: int)
    ensures Represents(n, Int256.Wrap(n), Int256.WORD)
  {
    Int256.WrapUnique(n);
  }

  lemma OneMeans(h: Host, k: Prim.Kind, m: Meta)
    requires CoerceOne(h, k, m).Some?
    ensures MeansOne(h, k, m, Prim.Norm(k, CoerceOne(h, k, m).value))
  {
    hide Represents, CoerceInt, Pow256, Int256.Wrap;
    if k == Prim.I8 { ByteRep(m.n); }
    else if k in {Prim.I16, Prim.I32, Prim.I64} { IntRep(m.n, Prim.Width(k)); }
    else if k == Prim.I256 { WordRep(m.n); }
  }

  lemma {:induction false} ManyMean(h: Host, k: Prim.Kind, items: seq<Meta>)
    requires CoerceMany(h, k, items).Some?
    ensures var xs := CoerceMany(h, k, items).value;
            |xs| == |items| && forall i :: 0 <= i < |items| ==> MeansOne(h, k, items[i], Prim.Norm(k, xs[i]))
  {
    if items != [] {
      OneMeans(h, k, items[0]);
      ManyMean(h, k, items[1..]);
      var xs := CoerceMany(h, k, items).value;
      forall i | 0 <= i < |items| ensures MeansOne(h, k, items[i], Prim.Norm(k, xs[i])) {
        if i > 0 { assert items[i] == items[1..][i - 1] && xs[i] == xs[1..][i - 1]; }
      }
    }
  }
}
