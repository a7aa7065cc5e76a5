/** Parsed JSON as Python holds it, and the VM values decoded from it. */
module Json {
  import opened Bytes

  /** A float is known by the text Python prints for it.  Objects list their
      members in the order the dictionary keeps them. */
  datatype Json =
    | JNull
    | JBool(b: bool)
    | JInt(n: int)
    | JFloat(printed: string)
    | JText(s: string)
    | JList(items: seq<Json>)
    | JObj(members: seq<Member>)

  datatype Member = Member(name: string, val: Json)

  function Size(j: Json): nat {
    match j
    case JList(items) => 1 + SizeAll(items)
    case JObj(members) => 1 + SizeMembers(members)
    case _ => 0
  }

  function SizeAll(items: seq<Json>): nat {
    if items == [] then 0 else 1 + Size(items[0]) + SizeAll(items[1..])
  }

  function SizeMembers(members: seq<Member>): nat {
    if members == [] then 0 else 1 + Size(members[0].val) + SizeMembers(members[1..])
  }

  /** raw.get(name) */
  function Get(members: seq<Member>, name: string): (r: Option<Json>)
    ensures r.Some? ==> Size(r.value) < SizeMembers(members)
  {
    if members == [] then None
    else if members[0].name == name then Some(members[0].val)
    else Get(members[1..], name)
  }

  // ----- VmValue

  datatype VmValue = VText(text: string) | VItems(items: seq<VmValue>) | VFields(fields: seq<VmField>)

  datatype VmField = VmField(name: string, val: VmValue)

  /** VmValue.from_wire; show is str on integers. */
  function FromWire(show: int -> string, j: Json): VmValue
    decreases Size(j), 1
  {
    match j
    case JText(s) => VText(s)
    case JObj(members) => VFields(FieldsFrom(show, members))
    case JList(items) => VItems(ItemsFrom(show, items))
    case JNull => VText("")
    case JBool(b) => VText(if b then "true" else "false")
    case JInt(n) => VText(show(n))
    case JFloat(printed) => VText(printed)
  }

  function ItemsFrom(show: int -> string, items: seq<Json>): (r: seq<VmValue>)
    ensures |r| == |items|
    decreases SizeAll(items), 0
  {
    if items == [] then [] else [FromWire(show, items[0])] + ItemsFrom(show, items[1..])
  }

  function FieldsFrom(show: int -> string, members: seq<Member>): (r: seq<VmField>)
    ensures |r| == |members|
    decreases SizeMembers(members), 0
  {
    if members == [] then []
    else [VmField(members[0].name, FromWire(show, members[0].val))] + FieldsFrom(show, members[1..])
  }

  /** VmValue.to_wire */
  function ToWire(v: VmValue): Json
    decreases v
  {
    match v
    case VText(s) => JText(s)
    case VItems(items) => JList(ItemsTo(items))
    case VFields(fields) => JObj(FieldsTo(fields))
  }

  function ItemsTo(items: seq<VmValue>): (r: seq<Json>)
    ensures |r| == |items|
    decreases items
  {
    if items == [] then [] else [ToWire(items[0])] + ItemsTo(items[1..])
  }

  function FieldsTo(fields: seq<VmField>): (r: seq<Member>)
    ensures |r| == |fields|
    decreases fields
  {
    if fields == [] then [] else [FieldTo(fields[0])] + FieldsTo(fields[1..])
  }

  function FieldTo(f: VmField): Member
    decreases f
  {
    Member(f.name, ToWire(f.val))
  }

  /** Every VM value is read back from what it is written as. */
  lemma {:induction false} VmBack(show: int -> string, v: VmValue)
    ensures FromWire(show, ToWire(v)) == v
    decreases v
  {
    match v
    case VText(_) =>
    case VItems(items) => ItemsBack(show, items);
    case VFields(fields) => FieldsBack(show, fields);
  }

  lemma {:induction false} ItemsBack(show: int -> string, items: seq<VmValue>)
    ensures ItemsFrom(show, ItemsTo(items)) == items
    decreases items
  {
    if items != [] {
      VmBack(show, items[0]);
      ItemsBack(show, items[1..]);
      assert ItemsTo(items)[1..] == ItemsTo(items[1..]);
      assert [items[0]] + items[1..] == items;
    }
  }

  lemma {:induction false} FieldsBack(show: int -> string, fields: seq<VmField>)
    ensures FieldsFrom(show, FieldsTo(fields)) == fields
    decreases fields
  {
    if fields != [] {
      FieldBack(show, fields[0]);
      FieldsBack(show, fields[1..]);
      assert FieldsTo(fields)[1..] == FieldsTo(fields[1..]);
      assert [fields[0]] + fields[1..] == fields;
    }
  }

  lemma {:induction false} FieldBack(show: int -> string, f: VmField)
    ensures FromWire(show, FieldTo(f).val) == f.val
    decreases f
  {
    VmBack(show, f.val);
  }

  // ----- JSON that means itself

  /** Text, arrays and objects only: what the node writes for a VM value. */
  predicate Plain(j: Json)
    decreases Size(j), 1
  {
    match j
    case JText(_) => true
    case JList(items) => PlainAll(items)
    case JObj(members) => PlainMembers(members)
    case _ => false
  }

  predicate PlainAll(items: seq<Json>)
    decreases SizeAll(items), 0
  {
    items != [] ==> Plain(items[0]) && PlainAll(items[1..])
  }

  predicate PlainMembers(members: seq<Member>)
    decreases SizeMembers(members), 0
  {
    members != [] ==> Plain(members[0].val) && PlainMembers(members[1..])
  }

  /** JSON is written back as it came exactly when all its scalars are text. */
  lemma {:induction false} SameWire(show: int -> string, j: Json)
    ensures ToWire(FromWire(show, j)) == j <==> Plain(j)
    decreases Size(j), 1
  {
    match j
    case JList(items) => SameItems(show, items);
    case JObj(members) => SameMembers(show, members);
    case _ =>
  }

  lemma {:induction false} SameItems(show: int -> string, items: seq<Json>)
    ensures ItemsTo(ItemsFrom(show, items)) == items <==> PlainAll(items)
    decreases SizeAll(items), 0
  {
    if items != [] {
      SameWire(show, items[0]);
      SameItems(show, items[1..]);
      var r := ItemsTo(ItemsFrom(show, items));
      assert ItemsFrom(show, items)[1..] == ItemsFrom(show, items[1..]);
      assert r[0] == ToWire(FromWire(show, items[0])) && r[1..] == ItemsTo(ItemsFrom(show, items[1..]));
      assert r == [r[0]] + r[1..] && items == [items[0]] + items[1..];
    }
  }

  lemma {:induction false} SameMembers(show: int -> string, members: seq<Member>)
    ensures FieldsTo(FieldsFrom(show, members)) == members <==> PlainMembers(members)
    decreases SizeMembers(members), 0
  {
    if members != [] {
      SameWire(show, members[0].val);
      SameMembers(show, members[1..]);
      var r := FieldsTo(FieldsFrom(show, members));
      var f := VmField(members[0].name, FromWire(show, members[0].val));
      assert FieldsFrom(show, members)[0] == f && FieldsFrom(show, members)[1..] == FieldsFrom(show, members[1..]);
      assert r[0] == FieldTo(f) == Member(members[0].name, ToWire(FromWire(show, members[0].val)));
      assert r[1..] == FieldsTo(FieldsFrom(show, members[1..]));
      assert r == [r[0]] + r[1..] && members == [members[0]] + members[1..];
    }
  }
}
