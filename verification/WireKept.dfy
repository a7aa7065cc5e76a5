/** What decoding a shape and writing it back keeps of the JSON, member by member. */
module WireKept {
  import opened Bytes
  import opened Json
  import opened WireShapes

  // ----- VM values

  /** Scalars become their text; arrays and objects keep their places and names. */
  ghost predicate VmKeeps(show: int -> string, j: Json, w: Json)
    decreases Size(j), 1
  {
    match j
    case JText(_) => w == j
    case JNull => w == JText("")
    case JBool(b) => w == JText(if b then "true" else "false")
    case JInt(n) => w == JText(show(n))
    case JFloat(printed) => w == JText(printed)
    case JList(items) => w.JList? && VmKeepsAll(show, items, w.items)
    case JObj(members) => w.JObj? && VmKeepsMembers(show, members, w.members)
  }

  ghost predicate VmKeepsAll(show: int -> string, items: seq<Json>, ws: seq<Json>)
    decreases SizeAll(items), 0
  {
    |ws| == |items| && (items != [] ==> VmKeeps(show, items[0], ws[0]) && VmKeepsAll(show, items[1..], ws[1..]))
  }

  ghost predicate VmKeepsMembers(show: int -> string, members: seq<Member>, ws: seq<Member>)
    decreases SizeMembers(members), 0
  {
    && |ws| == |members|
    && (members != [] ==>
          && ws[0].name == members[0].name
          && VmKeeps(show, members[0].val, ws[0].val)
          && VmKeepsMembers(show, members[1..], ws[1..]))
  }

  lemma {:induction false} VmKept(show: int -> string, j: Json)
    ensures VmKeeps(show, j, ToWire(FromWire(show, j)))
    decreases Size(j), 1
  {
    match j
    case JList(items) => VmAllKept(show, items);
    case JObj(members) => VmMembersKept(show, members);
    case _ =>
  }

  lemma {:induction false} VmAllKept(show: int -> string, items: seq<Json>)
    ensures VmKeepsAll(show, items, ItemsTo(ItemsFrom(show, items)))
    decreases SizeAll(items), 0
  {
    if items != [] {
      VmKept(show, items[0]);
      VmAllKept(show, items[1..]);
      var r := ItemsFrom(show, items);
      assert r[1..] == ItemsFrom(show, items[1..]) && ItemsTo(r)[1..] == ItemsTo(r[1..]);
    }
  }

  lemma {:induction false} VmMembersKept(show: int -> string, members: seq<Member>)
    ensures VmKeepsMembers(show, members, FieldsTo(FieldsFrom(show, members)))
    decreases SizeMembers(members), 0
  {
    if members != [] {
      VmKept(show, members[0].val);
      VmMembersKept(show, members[1..]);
      var r := FieldsFrom(show, members);
      assert r[0] == VmField(members[0].name, FromWire(show, members[0].val));
      assert r[1..] == FieldsFrom(show, members[1..]) && FieldsTo(r)[1..] == FieldsTo(r[1..]);
      assert FieldsTo(r)[0] == FieldTo(r[0]);
    }
  }

  // ----- which JSON a type takes

  predicate Takes(ty: Ty, j: Json)
    decreases Size(j), 1, ty, 0
  {
    match ty
    case TOptional(inner) => j.JNull? || Takes(inner, j)
    case TVm => true
    case TText => j.JText?
    case TBool => j.JBool?
    case TInt => j.JInt?
    case TList(elem) => j.JList? && TakesAll(elem, j.items)
    case TDict(elem) => j.JObj? && TakesMembers(elem, j.members)
    case TShape(shape) => j.JObj? && TakesFields(shape.fields, j.members)
  }

  predicate TakesAll(ty: Ty, items: seq<Json>)
    decreases SizeAll(items), 1, ty, 0
  {
    items != [] ==> Takes(ty, items[0]) && TakesAll(ty, items[1..])
  }

  predicate TakesMembers(ty: Ty, members: seq<Member>)
    decreases SizeMembers(members), 1, ty, 0
  {
    members != [] ==> Takes(ty, members[0].val) && TakesMembers(ty, members[1..])
  }

  /** What a field is read from: the member of its wire name, or else of its own. */
  function Source(f: Decl, members: seq<Member>): (r: Option<Json>)
    ensures r.Some? ==> Size(r.value) < SizeMembers(members)
  {
    var first := Get(members, Wire(f));
    if first.None? then Get(members, f.name) else first
  }

  /** A field may be missing, but not there with what its type does not take. */
  predicate TakesFields(fs: seq<Decl>, members: seq<Member>)
    decreases SizeMembers(members), 3, fs, 0
  {
    fs != [] ==>
      && (Source(fs[0], members).Some? ==> Takes(fs[0].ty, Source(fs[0], members).value))
      && TakesFields(fs[1..], members)
  }

  lemma {:induction false} DecodesTaken(show: int -> string, ty: Ty, j: Json)
    ensures DecodeField(show, ty, j).Some? <==> Takes(ty, j)
    decreases Size(j), 1, ty, 0
  {
    match ty
    case TOptional(inner) => DecodesTaken(show, inner, j);
    case TList(elem) => if j.JList? { DecodesAll(show, elem, j.items); }
    case TDict(elem) => if j.JObj? { DecodesMembers(show, elem, j.members); }
    case TShape(shape) => if j.JObj? { DecodesFields(show, shape.fields, j.members); }
    case _ =>
  }

  lemma {:induction false} DecodesAll(show: int -> string, ty: Ty, items: seq<Json>)
    ensures DecodeItems(show, ty, items).Some? <==> TakesAll(ty, items)
    decreases SizeAll(items), 1, ty, 0
  {
    if items != [] {
      DecodesTaken(show, ty, items[0]);
      DecodesAll(show, ty, items[1..]);
    }
  }

  lemma {:induction false} DecodesMembers(show: int -> string, ty: Ty, members: seq<Member>)
    ensures DecodeEntries(show, ty, members).Some? <==> TakesMembers(ty, members)
    decreases SizeMembers(members), 1, ty, 0
  {
    if members != [] {
      DecodesTaken(show, ty, members[0].val);
      DecodesMembers(show, ty, members[1..]);
    }
  }

  lemma {:induction false} DecodesFields(show: int -> string, fs: seq<Decl>, members: seq<Member>)
    ensures DecodeFields(show, fs, members).Some? <==> TakesFields(fs, members)
    decreases SizeMembers(members), 3, fs, 0
  {
    if fs != [] {
      if Source(fs[0], members).Some? { DecodesTaken(show, fs[0].ty, Source(fs[0], members).value); }
      DecodesFields(show, fs[1..], members);
    }
  }

  // ----- what is kept

  /** w is what j comes out as: scalars as they are, containers place by place, and an
      object of a shape as that shape's members. */
  ghost predicate Keeps(show: int -> string, ty: Ty, j: Json, w: Json)
    decreases Size(j), 1, ty, 0
  {
    match ty
    case TOptional(inner) => if j.JNull? then w.JNull? else Keeps(show, inner, j, w)
    case TVm => VmKeeps(show, j, w)
    case TText => w == j
    case TBool => w == j
    case TInt => w == j
    case TList(elem) => j.JList? && w.JList? && KeepsAll(show, elem, j.items, w.items)
    case TDict(elem) => j.JObj? && w.JObj? && KeepsMembers(show, elem, j.members, w.members)
    case TShape(shape) => j.JObj? && w.JObj? && KeepsFields(show, shape.fields, j.members, w.members)
  }

  ghost predicate KeepsAll(show: int -> string, ty: Ty, items: seq<Json>, ws: seq<Json>)
    decreases SizeAll(items), 1, ty, 0
  {
    |ws| == |items| && (items != [] ==> Keeps(show, ty, items[0], ws[0]) && KeepsAll(show, ty, items[1..], ws[1..]))
  }

  ghost predicate KeepsMembers(show: int -> string, ty: Ty, members: seq<Member>, ws: seq<Member>)
    decreases SizeMembers(members), 1, ty, 0
  {
    && |ws| == |members|
    && (members != [] ==>
          && ws[0].name == members[0].name
          && Keeps(show, ty, members[0].val, ws[0].val)
          && KeepsMembers(show, ty, members[1..], ws[1..]))
  }

  /** Whether the field is left out: its member is null, or there is none and the
      field's default is None. */
  predicate LeftOut(f: Decl, members: seq<Member>) {
    match Source(f, members)
    case None => f.default.DNull?
    case Some(j) => j.JNull? && f.ty.TOptional?
  }

  /** One member for each field that is not left out, in the shape's order and under its
      wire name: what was there, or the default. */
  ghost predicate KeepsFields(show: int -> string, fs: seq<Decl>, members: seq<Member>, ws: seq<Member>)
    decreases SizeMembers(members), 3, fs, 0
  {
    if fs == [] then ws == []
    else if LeftOut(fs[0], members) then KeepsFields(show, fs[1..], members, ws)
    else
      && ws != [] && ws[0].name == Wire(fs[0])
      && (match Source(fs[0], members)
          case None => ws[0].val == WriteData(fs[0].default)
          case Some(j) => Keeps(show, fs[0].ty, j, ws[0].val))
      && KeepsFields(show, fs[1..], members, ws[1..])
  }

  lemma {:induction false} NullOnlyOptional(show: int -> string, ty: Ty, j: Json)
    ensures DecodeField(show, ty, j) == Some(DNull) <==> ty.TOptional? && j.JNull?
    decreases ty
  {
    if ty.TOptional? { NullOnlyOptional(show, ty.inner, j); }
  }

  /** What a type decodes comes out again as it was. */
  lemma {:induction false} FieldKept(show: int -> string, ty: Ty, j: Json)
    requires DecodeField(show, ty, j).Some?
    ensures Keeps(show, ty, j, WriteData(DecodeField(show, ty, j).value))
    decreases Size(j), 1, ty, 0
  {
    match ty
    case TOptional(inner) => if !j.JNull? { FieldKept(show, inner, j); }
    case TVm => VmKept(show, j);
    case TList(elem) => AllKept(show, elem, j.items);
    case TDict(elem) => MembersKept(show, elem, j.members);
    case TShape(shape) => FieldsKept(show, shape.fields, j.members);
    case _ =>
  }

  lemma {:induction false} AllKept(show: int -> string, ty: Ty, items: seq<Json>)
    requires DecodeItems(show, ty, items).Some?
    ensures KeepsAll(show, ty, items, WriteItems(DecodeItems(show, ty, items).value))
    decreases SizeAll(items), 1, ty, 0
  {
    if items != [] {
      FieldKept(show, ty, items[0]);
      AllKept(show, ty, items[1..]);
      var r := DecodeItems(show, ty, items).value;
      assert r[1..] == DecodeItems(show, ty, items[1..]).value && WriteItems(r)[1..] == WriteItems(r[1..]);
    }
  }

  lemma {:induction false} MembersKept(show: int -> string, ty: Ty, members: seq<Member>)
    requires DecodeEntries(show, ty, members).Some?
    ensures KeepsMembers(show, ty, members, WriteEntries(DecodeEntries(show, ty, members).value))
    decreases SizeMembers(members), 1, ty, 0
  {
    if members != [] {
      FieldKept(show, ty, members[0].val);
      MembersKept(show, ty, members[1..]);
      var r := DecodeEntries(show, ty, members).value;
      assert r[1..] == DecodeEntries(show, ty, members[1..]).value && WriteEntries(r)[1..] == WriteEntries(r[1..]);
      assert WriteEntries(r)[0] == WriteSlot(r[0]);
    }
  }

  lemma {:induction false} FieldsKept(show: int -> string, fs: seq<Decl>, members: seq<Member>)
    requires DecodeFields(show, fs, members).Some?
    ensures KeepsFields(show, fs, members, WriteFields(fs, DecodeFields(show, fs, members).value))
    decreases SizeMembers(members), 3, fs, 0
  {
    if fs != [] {
      var source := Source(fs[0], members);
      if source.Some? {
        NullOnlyOptional(show, fs[0].ty, source.value);
        FieldKept(show, fs[0].ty, source.value);
      }
      FieldsKept(show, fs[1..], members);
      var r := DecodeFields(show, fs, members).value;
      assert r[1..] == DecodeFields(show, fs[1..], members).value;
      assert !LeftOut(fs[0], members) ==> WriteFields(fs, r)[1..] == WriteFields(fs[1..], r[1..]);
    }
  }

  /** A shape takes the objects whose members its fields take, and writes them back
      member by member. */
  lemma ShapeKept(show: int -> string, shape: Shape, j: Json)
    ensures DecodeShape(show, shape, j).Some? <==> Takes(TShape(shape), j)
    ensures DecodeShape(show, shape, j).Some? ==>
              Keeps(show, TShape(shape), j, WriteData(DecodeShape(show, shape, j).value))
  {
    assert DecodeField(show, TShape(shape), j) == DecodeShape(show, shape, j);
    DecodesTaken(show, TShape(shape), j);
    if DecodeShape(show, shape, j).Some? { FieldKept(show, TShape(shape), j); }
  }

  /** So the member a field was read from stands under the field's wire name again. */
  lemma MemberKept(show: int -> string, shape: Shape, members: seq<Member>, i: nat)
    requires Clean(shape.fields) && i < |shape.fields| && DecodeShape(show, shape, JObj(members)).Some?
    requires Source(shape.fields[i], members).Some? && !LeftOut(shape.fields[i], members)
    ensures var f := shape.fields[i];
            var w := WriteData(DecodeShape(show, shape, JObj(members)).value);
            && w.JObj? && Get(w.members, Wire(f)).Some?
            && Keeps(show, f.ty, Source(f, members).value, Get(w.members, Wire(f)).value)
  {
    ShapeKept(show, shape, JObj(members));
    var w := WriteData(DecodeShape(show, shape, JObj(members)).value);
    MemberAt(show, shape.fields, members, w.members, i);
  }

  lemma {:induction false} MemberAt(show: int -> string, fs: seq<Decl>, members: seq<Member>, ws: seq<Member>, i: nat)
    requires i < |fs| && KeepsFields(show, fs, members, ws)
    requires forall k :: 0 <= k < i ==> Wire(fs[k]) != Wire(fs[i])
    requires Source(fs[i], members).Some? && !LeftOut(fs[i], members)
    ensures Get(ws, Wire(fs[i])).Some?
    ensures Keeps(show, fs[i].ty, Source(fs[i], members).value, Get(ws, Wire(fs[i])).value)
    decreases i
  {
    if i > 0 {
      assert Wire(fs[0]) != Wire(fs[i]);
      assert forall k :: 0 <= k < |fs[1..]| ==> fs[1..][k] == fs[k + 1];
      MemberAt(show, fs[1..], members, if LeftOut(fs[0], members) then ws else ws[1..], i - 1);
    }
  }
}
