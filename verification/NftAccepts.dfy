/** Which metadata a ROM is built from: the values each type takes. */
module NftAccepts {
  import opened Bytes
  import opened NftRom
  import opened VmData
  import opened VmWire
  import Prim
  import PrimBytes

  /** b is given by m, as bytes or as text in hexadecimal. */
  predicate Gives(h: Host, m: Meta, b: bytes) {
    m == MBytes(b) || (m.MText? && !h.blank(m.s) && h.hex(m.s) == Some(b))
  }

  lemma GivesExactly(h: Host, m: Meta, b: bytes)
    ensures EnsureBytes(h, m) == Some(b) <==> Gives(h, m, b)
  {
  }

  predicate Between(m: Meta, low: int, high: int) { m.MInt? && low <= m.n <= high }

  /** Integers may be given signed or unsigned; bytes of the right size, text that is
      not blank. */
  ghost predicate OneFits(h: Host, k: Prim.Kind, m: Meta) {
    match k
    case I8 => Between(m, -0x80, 0xFF)
    case I16 => Between(m, -0x8000, 0xFFFF)
    case I32 => Between(m, -0x8000_0000, 0xFFFF_FFFF)
    case I64 => Between(m, -0x8000_0000_0000_0000, 0xFFFF_FFFF_FFFF_FFFF)
    case I256 => m.MInt? && (-Pow256(32) <= 2 * m.n < 0 || 0 <= m.n < Pow256(32))
    case ZStr => m.MText? && !h.blank(m.s)
    case Blob => exists b :: Gives(h, m, b)
    case B16 => exists b :: Gives(h, m, b) && |b| == 16
    case B32 => exists b :: Gives(h, m, b) && |b| == 32
    case B64 => exists b :: Gives(h, m, b) && |b| == 64
    case _ => false
  }

  /** Structs are given name by name, every field of the schema and no other; an array
      of values of any kind must be empty. */
  ghost predicate Fits(h: Host, t: VMType, def: Option<Schema>, m: Meta)
    decreases MetaSize(m), 1, 0
  {
    !m.MNone? &&
    match t
    case TOne(k) => OneFits(h, k, m)
    case TMany(k) => m.MList? && forall i :: 0 <= i < |m.items| ==> OneFits(h, k, m.items[i])
    case TDyn => true
    case TDyns => m.MList? && m.items == []
    case TStruct => StructFits(h, def, m)
    case TStructs => m.MList? && def.Some? && RowsFit(h, def, m.items)
  }

  /** The schema has the name in some spelling. */
  ghost predicate Known(h: Host, s: seq<SField>, name: string) {
    exists f :: f in s && h.lower(f.name) == h.lower(name)
  }

  ghost predicate StructFits(h: Host, def: Option<Schema>, m: Meta)
    decreases MetaSize(m), 0, 0
  {
    && def.Some? && Inputs(m).Some? && FieldsFit(h, def.value.fields, [], Inputs(m).value)
    && forall e :: e in Inputs(m).value ==> Known(h, def.value.fields, e.name)
  }

  ghost predicate RowsFit(h: Host, def: Option<Schema>, items: seq<Meta>)
    decreases ListSize(items), 0, 0
  {
    items != [] ==> StructFits(h, def, items[0]) && RowsFit(h, def, items[1..])
  }

  /** Every field that is not a standard one has an entry of exactly its name. */
  ghost predicate FieldsFit(h: Host, s: seq<SField>, std: seq<Field>, entries: seq<Entry>)
    decreases EntriesSize(entries), 2, |s|
  {
    s != [] ==>
      && (Get(std, s[0].name).None? ==>
            Exact(entries, s[0].name).Some? && Fits(h, s[0].ty, s[0].def, Exact(entries, s[0].name).value))
      && FieldsFit(h, s[1..], std, entries)
  }

  lemma OneExactly(h: Host, k: Prim.Kind, m: Meta)
    ensures CoerceOne(h, k, m).Some? <==> OneFits(h, k, m)
  {
    hide EnsureBytes;
    PrimBytes.Powers();
    if EnsureBytes(h, m).Some? { GivesExactly(h, m, EnsureBytes(h, m).value); }
    forall b ensures Gives(h, m, b) <==> EnsureBytes(h, m) == Some(b) { GivesExactly(h, m, b); }
  }

  lemma {:induction false} ManyExactly(h: Host, k: Prim.Kind, items: seq<Meta>)
    ensures CoerceMany(h, k, items).Some? <==> forall i :: 0 <= i < |items| ==> OneFits(h, k, items[i])
  {
    hide CoerceOne, OneFits;
    if items != [] {
      OneExactly(h, k, items[0]);
      ManyExactly(h, k, items[1..]);
      assert forall i :: 0 < i < |items| ==> items[i] == items[1..][i - 1];
    }
  }

  /** A value is taken exactly if it fits the type. */
  lemma {:induction false} CoerceExactly(h: Host, t: VMType, def: Option<Schema>, m: Meta)
    ensures Coerce(h, t, def, m).Some? <==> Fits(h, t, def, m)
    decreases MetaSize(m), 1, 0
  {
    hide CoerceOne, OneFits, CoerceMany;
    if !m.MNone? {
      match t
      case TOne(k) => OneExactly(h, k, m);
      case TMany(k) => if m.MList? { ManyExactly(h, k, m.items); }
      case TDyn =>
      case TDyns =>
      case TStruct => StructExactly(h, def, m);
      case TStructs => if m.MList? && def.Some? { RowsExactly(h, def.value, m.items); }
    }
  }

  lemma {:induction false} StructExactly(h: Host, def: Option<Schema>, m: Meta)
    ensures CoerceStruct(h, def, m).Some? <==> StructFits(h, def, m)
    decreases MetaSize(m), 0, 0
  {
    hide Allowed, Known;
    if def.Some? && Inputs(m).Some? {
      var entries := Inputs(m).value;
      forall name ensures Allowed(h, def.value.fields, name) <==> Known(h, def.value.fields, name) {
        KnownExactly(h, def.value.fields, name);
      }
      FieldsExactly(h, def.value.fields, [], entries);
      assert forall i :: 0 <= i < |entries| ==> entries[i] in entries;
    }
  }

  lemma KnownExactly(h: Host, s: seq<SField>, name: string)
    ensures Allowed(h, s, name) <==> Known(h, s, name)
  {
    if i :| 0 <= i < |s| && h.lower(s[i].name) == h.lower(name) { assert s[i] in s; }
  }

  /** A struct is given as a mapping, or as a list of pairs of a name and a value. */
  predicate Entries(m: Meta, entries: seq<Entry>) {
    if m.MList? then
      && |m.items| == |entries|
      && forall i :: 0 <= i < |entries| ==> m.items[i] == MList([MText(entries[i].name), entries[i].val])
    else m == MMap(entries)
  }

  lemma InputsExactly(m: Meta, entries: seq<Entry>)
    ensures Inputs(m) == Some(entries) <==> Entries(m, entries)
  {
    if m.MList? { PairsExactly(m.items, entries); }
  }

  lemma {:induction false} PairsExactly(items: seq<Meta>, entries: seq<Entry>)
    ensures Pairs(items) == Some(entries) <==>
            && |items| == |entries|
            && forall i :: 0 <= i < |entries| ==> items[i] == MList([MText(entries[i].name), entries[i].val])
  {
    if items != [] && entries != [] {
      PairsExactly(items[1..], entries[1..]);
      var p, e := items[0], entries[0];
      assert entries == [e] + entries[1..];
      assert forall i :: 0 < i < |entries| ==> entries[i] == entries[1..][i - 1];
      assert forall i :: 0 < i < |items| ==> items[i] == items[1..][i - 1];
      assert p.MList? && |p.items| == 2 ==> p.items == [p.items[0], p.items[1]];
    }
  }

  lemma {:induction false} RowsExactly(h: Host, s: Schema, items: seq<Meta>)
    ensures CoerceRows(h, s, items).Some? <==> RowsFit(h, Some(s), items)
    decreases ListSize(items), 0, 0
  {
    if items != [] {
      StructExactly(h, Some(s), items[0]);
      RowsExactly(h, s, items[1..]);
    }
  }

  lemma {:induction false} FieldsExactly(h: Host, s: seq<SField>, std: seq<Field>, entries: seq<Entry>)
    ensures CoerceFields(h, s, std, entries).Some? <==> FieldsFit(h, s, std, entries)
    decreases EntriesSize(entries), 2, |s|
  {
    if s != [] {
      var m := Exact(entries, s[0].name);
      if m.Some? { CoerceExactly(h, s[0].ty, s[0].def, m.value); }
      FieldsExactly(h, s[1..], std, entries);
    }
  }

  /** The rom bytes are what is given under "rom", or none where no entry is called so
      in any spelling. */
  predicate RomGiven(h: Host, entries: seq<Entry>, b: bytes) {
    if Exact(entries, "rom").Some? then Gives(h, Exact(entries, "rom").value, b)
    else b == [] && forall i :: 0 <= i < |entries| ==> h.lower(entries[i].name) != h.lower("rom")
  }

  lemma RomExactly(h: Host, entries: seq<Entry>, b: bytes)
    ensures RomBytes(h, entries) == Some(b) <==> RomGiven(h, entries, b)
  {
    if Exact(entries, "rom").Some? { GivesExactly(h, Exact(entries, "rom").value, b); }
  }

  /** A ROM is built exactly from rom bytes and fields that fit, if the struct of them
      can be written. */
  lemma BuildExactly(h: Host, s: Schema, id: int, entries: seq<Entry>)
    ensures BuildRom(h, s, id, entries).Some? <==>
            exists b :: RomGiven(h, entries, b) && FieldsFit(h, s.fields, Standard(id, b), entries)
                        && Written(h, s, id, entries, b).Some?
    ensures forall b :: RomGiven(h, entries, b) && FieldsFit(h, s.fields, Standard(id, b), entries) ==>
              BuildRom(h, s, id, entries) == Written(h, s, id, entries, b)
  {
    forall b ensures RomGiven(h, entries, b) <==> RomBytes(h, entries) == Some(b) { RomExactly(h, entries, b); }
    forall b ensures CoerceFields(h, s.fields, Standard(id, b), entries).Some?
                <==> FieldsFit(h, s.fields, Standard(id, b), entries)
    {
      FieldsExactly(h, s.fields, Standard(id, b), entries);
    }
    if BuildRom(h, s, id, entries).Some? {
      var b := RomBytes(h, entries).value;
      assert RomGiven(h, entries, b);
    }
  }

  /** The id and the rom, then the coerced fields, under the schema. */
  function Written(h: Host, s: Schema, id: int, entries: seq<Entry>, rom: bytes): Option<bytes> {
    var std := [Field("_i", VOne(Prim.I256, Prim.Num(id))), Field("rom", VOne(Prim.Blob, Prim.Bin(rom)))];
    var more :- CoerceFields(h, s.fields, std, entries);
    EncStruct(std + more, Some(s))
  }
}
