/** How ScriptBuilder turns call arguments into register code, and what that
    code does on a machine with the four opcodes it uses. */
module ArgLoader {
  import opened Bytes
  import Utf8
  import VmBinary
  import VmInteger

  const PUSH := 3
  const LOAD := 13
  const CAST := 14
  const PUT := 47

  const TYPE_NONE := 0
  const TYPE_BYTES := 2
  const TYPE_NUMBER := 3
  const TYPE_STRING := 4
  const TYPE_TIMESTAMP := 5
  const TYPE_BOOL := 6

  const REGISTERS := 32

  /** The Python values an argument can be.  ABytes stands for byte strings and
      for the prefixed bytes of an address, ATime for Unix seconds. */
  datatype Arg =
    | ANull
    | ABytes(data: bytes)
    | AText(s: string)
    | ABool(b: bool)
    | ANum(n: int)
    | ATime(seconds: int)
    | AList(items: seq<Arg>)
    | AOther

  /** What a builder call appends, and whether it records an error. */
  datatype Emission = Emission(code: bytes, failed: bool)

  function Then(a: Emission, b: Emission): Emission { Emission(a.code + b.code, a.failed || b.failed) }

  const NOTHING := Emission([], false)
  const FAILURE := Emission([], true)

  function Raw(code: bytes): Emission { Emission(code, false) }

  /** The length prefix of a LOAD, which is at most 0xFFFF. */
  function SizePrefix(n: nat): bytes
    requires n <= 0xFFFF
  {
    VmBinary.EncVarUint(n).value
  }

  /** emit_load */
  function EmitLoad(reg: byte, data: bytes, ty: byte): Emission {
    if |data| > 0xFFFF then FAILURE
    else Raw([LOAD, reg, ty] + (SizePrefix(|data|) + data))
  }

  /** The type and bytes a scalar is loaded with; None records an error. */
  function Scalar(a: Arg): Option<(byte, bytes)> {
    match a
    case ABytes(data) => Some((TYPE_BYTES, data))
    case AText(s) => Some((TYPE_STRING, Utf8.Encode(s)))
    case ABool(b) => Some((TYPE_BOOL, [if b then 1 else 0]))
    case ANum(n) => Some((TYPE_NUMBER, VmInteger.CSharp(n)))
    case ATime(t) => if 0 <= t <= 0xFFFF_FFFF then Some((TYPE_TIMESTAMP, LE(t, 4))) else None
    case _ => None
  }

  /** _load_into_register */
  function Load(reg: nat, a: Arg): Emission
    requires reg < REGISTERS
    decreases a, 1
  {
    if a.AList? then
      if reg > REGISTERS - 3 then FAILURE
      else Then(Raw([CAST, reg, reg, TYPE_NONE]), LoadItems(reg, a.items, 0))
    else
      var s := Scalar(a);
      if s.None? then FAILURE else EmitLoad(reg, s.value.1, s.value.0)
  }

  /** The loop over a list's items: load the item, load its index, PUT. */
  function LoadItems(reg: nat, items: seq<Arg>, index: nat): Emission
    requires reg <= REGISTERS - 3
    decreases items, 0
  {
    if items == [] then NOTHING
    else
      Then(ItemCode(reg, items[0], index), LoadItems(reg, items[1..], index + 1))
  }

  function ItemCode(reg: nat, item: Arg, index: nat): Emission
    requires reg <= REGISTERS - 3
    decreases item, 2
  {
    Then(Load(reg + 1, item),
         Then(EmitLoad(reg + 2, VmInteger.CSharp(index), TYPE_NUMBER), Raw([PUT, reg + 1, reg, reg + 2])))
  }

  /** _insert_method_args: last argument first, so that the first ends on top. */
  function InsertArgs(args: seq<Arg>): Emission {
    if args == [] then NOTHING
    else Then(InsertArgs(args[1..]), Then(Load(0, args[0]), Raw([PUSH, 0])))
  }

  // ----- the machine

  datatype Val = Nothing | Const(ty: byte, data: bytes) | Struct(items: map<int, Val>)

  datatype Machine = Machine(regs: seq<Val>, stack: seq<Val>)

  datatype Instr =
    | ILoad(reg: byte, ty: byte, data: bytes)
    | ICast(src: byte, dst: byte, ty: byte)
    | IPut(src: byte, dst: byte, key: byte)
    | IPush(reg: byte)

  function DecodeInstr(bs: bytes): (r: Parsed<Instr>)
    ensures r.Ok? ==> |r.rest| < |bs|
  {
    if |bs| >= 3 && bs[0] == LOAD then
      var (data, rest) :- VmBinary.DecVarBytes(bs[3..]);
      Ok(ILoad(bs[1], bs[2], data), rest)
    else if |bs| >= 4 && bs[0] == CAST then Ok(ICast(bs[1], bs[2], bs[3]), bs[4..])
    else if |bs| >= 4 && bs[0] == PUT then Ok(IPut(bs[1], bs[2], bs[3]), bs[4..])
    else if |bs| >= 2 && bs[0] == PUSH then Ok(IPush(bs[1]), bs[2..])
    else Err
  }

  /** The fields of a value that is a struct or has yet to become one. */
  function Fields(v: Val): Option<map<int, Val>> {
    match v
    case Nothing => Some(map[])
    case Struct(items) => Some(items)
    case Const(_, _) => None
  }

  /** One step; None is a fault: a register that does not exist, a cast other
      than to None, or a PUT with a bad key or target. */
  function Step(i: Instr, m: Machine): (r: Option<Machine>)
    requires |m.regs| == REGISTERS
    ensures r.Some? ==> |r.value.regs| == REGISTERS
  {
    match i
    case ILoad(reg, ty, data) =>
      if reg >= REGISTERS then None else Some(m.(regs := m.regs[reg := Const(ty, data)]))
    case ICast(src, dst, ty) =>
      if src >= REGISTERS || dst >= REGISTERS || ty != TYPE_NONE then None
      else Some(m.(regs := m.regs[dst := Nothing]))
    case IPut(src, dst, key) =>
      if src >= REGISTERS || dst >= REGISTERS || key >= REGISTERS then None
      else
        var k := m.regs[key];
        if !k.Const? || k.ty != TYPE_NUMBER then None
        else
          var items :- Fields(m.regs[dst]);
          Some(m.(regs := m.regs[dst := Struct(items[VmInteger.FromVm(k.data) := m.regs[src]])]))
    case IPush(reg) =>
      if reg >= REGISTERS then None else Some(m.(stack := [m.regs[reg]] + m.stack))
  }

  /** Run byte code to its end. */
  function Exec(bs: bytes, m: Machine): Option<Machine>
    requires |m.regs| == REGISTERS
    decreases |bs|
  {
    if bs == [] then Some(m)
    else
      match DecodeInstr(bs)
      case Err => None
      case Ok(i, rest) =>
        match Step(i, m)
        case None => None
        case Some(n) => Exec(rest, n)
  }

  /** What an argument means to the contract: a scalar is its typed bytes, a
      non-empty list the struct 0..n-1 of its items, an empty list nothing. */
  function Meaning(a: Arg): Val
    decreases a, 1
  {
    if a.AList? then
      if a.items == [] then Nothing else Struct(Indexed(a.items, 0))
    else
      var s := Scalar(a);
      if s.None? then Nothing else Const(s.value.0, s.value.1)
  }

  function Indexed(items: seq<Arg>, index: nat): map<int, Val>
    decreases items, 0
  {
    if items == [] then map[] else Indexed(items[1..], index + 1)[index := Meaning(items[0])]
  }

  /** n is m with register reg and some above it changed. */
  predicate Above(m: Machine, n: Machine, reg: nat) {
    && |m.regs| == REGISTERS == |n.regs| && n.stack == m.stack
    && forall i :: 0 <= i < reg && i < REGISTERS ==> n.regs[i] == m.regs[i]
  }

  // ----- proofs

  lemma LoadDecodes(reg: byte, data: bytes, ty: byte, rest: bytes)
    requires !EmitLoad(reg, data, ty).failed
    ensures DecodeInstr(EmitLoad(reg, data, ty).code + rest) == Ok(ILoad(reg, ty, data), rest)
  {
    var body := SizePrefix(|data|) + data;
    var bs := EmitLoad(reg, data, ty).code + rest;
    assert bs == [LOAD, reg, ty] + (body + rest);
    assert bs[3..] == body + rest;
    VmBinary.VarBytesBack(data, rest);
  }

  lemma LoadRuns(reg: nat, data: bytes, ty: byte, m: Machine, rest: bytes)
    requires reg < REGISTERS && |m.regs| == REGISTERS && !EmitLoad(reg, data, ty).failed
    ensures Exec(EmitLoad(reg, data, ty).code + rest, m)
         == Exec(rest, m.(regs := m.regs[reg := Const(ty, data)]))
  {
    LoadDecodes(reg, data, ty, rest);
  }

  /** The code for one argument leaves its meaning in its register and touches
      no register below and no stack entry. */
  lemma {:induction false} ArgRuns(reg: nat, a: Arg, m: Machine, rest: bytes) returns (n: Machine)
    requires reg < REGISTERS && |m.regs| == REGISTERS && !Load(reg, a).failed
    ensures Above(m, n, reg) && n.regs[reg] == Meaning(a)
    ensures Exec(Load(reg, a).code + rest, m) == Exec(rest, n)
    decreases a, 1
  {
    if a.AList? {
      var cleared := m.(regs := m.regs[reg := Nothing]);
      CastRuns(reg, m, LoadItems(reg, a.items, 0).code + rest);
      ListCode(reg, a, rest);
      n := ItemsRun(reg, a.items, 0, map[], cleared, rest);
      assert map[] + Indexed(a.items, 0) == Indexed(a.items, 0);
    } else {
      var s := Scalar(a).value;
      LoadRuns(reg, s.1, s.0, m, rest);
      n := m.(regs := m.regs[reg := Const(s.0, s.1)]);
    }
  }

  lemma ListCode(reg: nat, a: Arg, rest: bytes)
    requires reg < REGISTERS && a.AList? && !Load(reg, a).failed
    ensures reg <= REGISTERS - 3 && !LoadItems(reg, a.items, 0).failed
    ensures Load(reg, a).code + rest == [CAST, reg, reg, TYPE_NONE] + (LoadItems(reg, a.items, 0).code + rest)
  {
  }

  lemma CastRuns(reg: nat, m: Machine, rest: bytes)
    requires reg < REGISTERS && |m.regs| == REGISTERS
    ensures Exec([CAST, reg, reg, TYPE_NONE] + rest, m) == Exec(rest, m.(regs := m.regs[reg := Nothing]))
  {
    assert ([CAST, reg, reg, TYPE_NONE] + rest)[4..] == rest;
  }

  lemma PutRuns(reg: nat, index: nat, done: map<int, Val>, m: Machine, rest: bytes)
    requires reg <= REGISTERS - 3 && |m.regs| == REGISTERS
    requires Fields(m.regs[reg]) == Some(done)
    requires m.regs[reg + 2] == Const(TYPE_NUMBER, VmInteger.CSharp(index))
    ensures Exec([PUT, reg + 1, reg, reg + 2] + rest, m)
         == Exec(rest, m.(regs := m.regs[reg := Struct(done[index := m.regs[reg + 1]])]))
  {
    VmInteger.PaddedBack(index);
    assert ([PUT, reg + 1, reg, reg + 2] + rest)[4..] == rest;
  }

  /** One turn of the loop. */
  lemma {:induction false} ItemRuns(
    reg: nat, item: Arg, index: nat, done: map<int, Val>, m: Machine, rest: bytes) returns (n: Machine)
    requires reg <= REGISTERS - 3 && |m.regs| == REGISTERS && !ItemCode(reg, item, index).failed
    requires Fields(m.regs[reg]) == Some(done)
    ensures Above(m, n, reg) && n.regs[reg] == Struct(done[index := Meaning(item)])
    ensures Exec(ItemCode(reg, item, index).code + rest, m) == Exec(rest, n)
    decreases item, 2
  {
    var key := VmInteger.CSharp(index);
    var put := [PUT, reg + 1, reg, reg + 2];
    var tail := EmitLoad(reg + 2, key, TYPE_NUMBER).code + (put + rest);
    ItemText(reg, item, index, rest);
    var m1 := ArgRuns(reg + 1, item, m, tail);
    n := KeyRuns(reg, index, done, m1, rest);
  }

  lemma ItemText(reg: nat, item: Arg, index: nat, rest: bytes)
    requires reg <= REGISTERS - 3 && !ItemCode(reg, item, index).failed
    ensures !Load(reg + 1, item).failed && !EmitLoad(reg + 2, VmInteger.CSharp(index), TYPE_NUMBER).failed
    ensures ItemCode(reg, item, index).code + rest
         == Load(reg + 1, item).code
            + (EmitLoad(reg + 2, VmInteger.CSharp(index), TYPE_NUMBER).code + ([PUT, reg + 1, reg, reg + 2] + rest))
  {
  }

  lemma KeyRuns(reg: nat, index: nat, done: map<int, Val>, m: Machine, rest: bytes) returns (n: Machine)
    requires reg <= REGISTERS - 3 && |m.regs| == REGISTERS
    requires !EmitLoad(reg + 2, VmInteger.CSharp(index), TYPE_NUMBER).failed
    requires Fields(m.regs[reg]) == Some(done)
    ensures Above(m, n, reg) && n.regs[reg] == Struct(done[index := m.regs[reg + 1]])
    ensures Exec(EmitLoad(reg + 2, VmInteger.CSharp(index), TYPE_NUMBER).code
                 + ([PUT, reg + 1, reg, reg + 2] + rest), m)
         == Exec(rest, n)
  {
    var key := Const(TYPE_NUMBER, VmInteger.CSharp(index));
    LoadRuns(reg + 2, key.data, TYPE_NUMBER, m, [PUT, reg + 1, reg, reg + 2] + rest);
    var mid := m.(regs := m.regs[reg + 2 := key]);
    PutRuns(reg, index, done, mid, rest);
    n := mid.(regs := mid.regs[reg := Struct(done[index := m.regs[reg + 1]])]);
  }

  /** The loop adds the remaining items to what the register already holds. */
  lemma {:induction false} ItemsRun(
    reg: nat, items: seq<Arg>, index: nat, done: map<int, Val>, m: Machine, rest: bytes) returns (n: Machine)
    requires reg <= REGISTERS - 3 && |m.regs| == REGISTERS && !LoadItems(reg, items, index).failed
    requires Fields(m.regs[reg]) == Some(done)
    ensures Above(m, n, reg)
    ensures n.regs[reg] == if items == [] then m.regs[reg] else Struct(done + Indexed(items, index))
    ensures Exec(LoadItems(reg, items, index).code + rest, m) == Exec(rest, n)
    decreases items, 0
  {
    hide Exec, ItemCode, Meaning;
    if items == [] {
      assert [] + rest == rest;
      n := m;
    } else {
      var head := ItemCode(reg, items[0], index).code;
      var tail := LoadItems(reg, items[1..], index + 1).code;
      assert LoadItems(reg, items, index).code + rest == head + (tail + rest);
      var m1 := ItemRuns(reg, items[0], index, done, m, tail + rest);
      n := ItemsRun(reg, items[1..], index + 1, done[index := Meaning(items[0])], m1, rest);
      IndexedMerge(done, items, index);
    }
  }

  lemma {:induction false} IndexedFrom(items: seq<Arg>, index: nat)
    ensures forall k :: k in Indexed(items, index) ==> index <= k < index + |items|
  {
    if items != [] { IndexedFrom(items[1..], index + 1); }
  }

  lemma IndexedMerge(done: map<int, Val>, items: seq<Arg>, index: nat)
    requires items != []
    ensures done + Indexed(items, index) == done[index := Meaning(items[0])] + Indexed(items[1..], index + 1)
    ensures items[1..] == [] ==> done + Indexed(items, index) == done[index := Meaning(items[0])]
  {
    IndexedFrom(items[1..], index + 1);
  }

  function Meanings(args: seq<Arg>): (r: seq<Val>)
    ensures |r| == |args|
  {
    if args == [] then [] else [Meaning(args[0])] + Meanings(args[1..])
  }

  lemma PushRuns(m: Machine, rest: bytes)
    requires |m.regs| == REGISTERS
    ensures Exec([PUSH, 0] + rest, m) == Exec(rest, m.(stack := [m.regs[0]] + m.stack))
  {
    assert ([PUSH, 0] + rest)[2..] == rest;
  }

  /** Unless an error was recorded, the code for an argument tuple runs without
      fault (so every register operand is below 32) and leaves the arguments on
      the stack, first on top. */
  lemma {:induction false} ArgsRun(args: seq<Arg>, m: Machine, rest: bytes) returns (n: Machine)
    requires |m.regs| == REGISTERS && !InsertArgs(args).failed
    ensures |n.regs| == REGISTERS && n.stack == Meanings(args) + m.stack
    ensures Exec(InsertArgs(args).code + rest, m) == Exec(rest, n)
  {
    if args == [] {
      assert [] + rest == rest && [] + m.stack == m.stack;
      n := m;
    } else {
      var tail := InsertArgs(args[1..]).code;
      var head := Load(0, args[0]).code;
      assert InsertArgs(args).code + rest == tail + (head + ([PUSH, 0] + rest));
      var m1 := ArgsRun(args[1..], m, head + ([PUSH, 0] + rest));
      var m2 := ArgRuns(0, args[0], m1, [PUSH, 0] + rest);
      PushRuns(m2, rest);
      n := m2.(stack := [m2.regs[0]] + m2.stack);
      assert n.stack == Meanings(args) + m.stack;
    }
  }

  /** The whole argument code, from any state to its end. */
  lemma ArgsRunToEnd(args: seq<Arg>, m: Machine)
    requires |m.regs| == REGISTERS && !InsertArgs(args).failed
    ensures Exec(InsertArgs(args).code, m).Some?
    ensures Exec(InsertArgs(args).code, m).value.stack == Meanings(args) + m.stack
  {
    var n := ArgsRun(args, m, []);
    assert InsertArgs(args).code + [] == InsertArgs(args).code;
  }

  lemma {:induction false} MeaningAt(items: seq<Arg>, index: nat, i: nat)
    requires i < |items|
    ensures index + i in Indexed(items, index) && Indexed(items, index)[index + i] == Meaning(items[i])
  {
    if i > 0 { MeaningAt(items[1..], index + 1, i - 1); }
  }

  lemma {:induction false} IndexedKeys(items: seq<Arg>, index: nat)
    ensures forall k :: k in Indexed(items, index) <==> index <= k < index + |items|
  {
    if items != [] { IndexedKeys(items[1..], index + 1); }
  }

  /** A non-empty list is the struct whose keys are 0..n-1 and whose fields are
      the items in order. */
  lemma ListMeaning(items: seq<Arg>, i: nat)
    requires i < |items|
    ensures Meaning(AList(items)).Struct?
    ensures forall k :: k in Meaning(AList(items)).items <==> 0 <= k < |items|
    ensures i in Meaning(AList(items)).items && Meaning(AList(items)).items[i] == Meaning(items[i])
  {
    MeaningAt(items, 0, i);
    IndexedKeys(items, 0);
  }

  // ----- when an error is recorded

  /** How deep lists nest inside an argument. */
  function Depth(a: Arg): nat
    decreases a, 1
  {
    if a.AList? then 1 + DepthAll(a.items) else 0
  }

  function DepthAll(items: seq<Arg>): nat
    decreases items, 0
  {
    if items == [] then 0 else Max(Depth(items[0]), DepthAll(items[1..]))
  }

  predicate Loadable(data: bytes) { |data| <= 0xFFFF }

  /** Every scalar inside is of a supported kind and size, and so is every index. */
  predicate Supported(a: Arg)
    decreases a, 1
  {
    match a
    case ABytes(data) => Loadable(data)
    case AText(s) => Loadable(Utf8.Encode(s))
    case ANum(n) => Loadable(VmInteger.CSharp(n))
    case ATime(t) => 0 <= t < 0x1_0000_0000
    case ABool(_) => true
    case AList(items) => SupportedAll(items, 0)
    case ANull => false
    case AOther => false
  }

  predicate SupportedAll(items: seq<Arg>, index: nat)
    decreases items, 0
  {
    items != [] ==>
      Supported(items[0]) && Loadable(VmInteger.CSharp(index)) && SupportedAll(items[1..], index + 1)
  }

  /** An error is recorded exactly for an unsupported or oversized scalar, or for
      lists nested past register 29. */
  lemma {:induction false} LoadFails(reg: nat, a: Arg)
    requires reg < REGISTERS
    ensures Load(reg, a).failed <==> !Supported(a) || (a.AList? && reg + Depth(a) > REGISTERS - 2)
    decreases a, 1
  {
    if a.AList? && reg <= REGISTERS - 3 { ItemsFail(reg, a.items, 0); }
  }

  lemma ItemFails(reg: nat, item: Arg, index: nat)
    requires reg <= REGISTERS - 3
    ensures ItemCode(reg, item, index).failed
       <==> Load(reg + 1, item).failed || !Loadable(VmInteger.CSharp(index))
  {
    hide Load;
  }

  lemma {:induction false} ItemsFail(reg: nat, items: seq<Arg>, index: nat)
    requires reg <= REGISTERS - 3
    ensures LoadItems(reg, items, index).failed <==>
            !SupportedAll(items, index) || reg + 1 + DepthAll(items) > REGISTERS - 2
    decreases items, 0
  {
    hide ItemCode, Supported, Load, Loadable;
    if items != [] {
      ItemFails(reg, items[0], index);
      LoadFails(reg + 1, items[0]);
      ItemsFail(reg, items[1..], index + 1);
    }
  }
}
