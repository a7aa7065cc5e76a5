/** What each builder call appends, byte by byte, whatever was there before. */
module ScriptText {
  import opened Bytes
  import opened ScriptModel
  import ArgLoader
  import Utf8
  import VmBinary

  /** The bytes appended, where among them a jump target is left open, and whether the
      call records an error or raises. */
  datatype Text = Text(code: bytes, slot: Option<nat>, failed: bool, raised: bool)

  function Plain(code: bytes): Text { Text(code, None, false, false) }

  const REFUSED := Text([], None, true, false)

  /** The bytes that load data of a type into a register: opcode 13. */
  function LoadCode(reg: byte, data: bytes, ty: byte): bytes
    requires |data| <= 0xFFFF
  {
    [13, reg, ty] + (VmBinary.EncVarUint(|data|).value + data)
  }

  /** Text loaded into register 0; too long a text records an error instead. */
  function LoadString(text: string): Text {
    var data := Utf8.Encode(text);
    if |data| <= 0xFFFF then Plain(LoadCode(0, data, 4)) else REFUSED
  }

  predicate Register(v: int) { 0 <= v <= 0xFF }

  /** The bytes up to the first that is none. */
  function Prefix(vs: seq<int>): Text {
    if vs == [] then Plain([])
    else if !Register(vs[0]) then Text([], None, false, true)
    else
      var t := Prefix(vs[1..]);
      Text([vs[0]] + t.code, None, false, t.raised)
  }

  /** One text after another; a raised call goes no further. */
  function Then(a: Text, b: Text): Text {
    if a.raised then a else Text(a.code + b.code, None, a.failed || b.failed, b.raised)
  }

  function Args(args: seq<ArgLoader.Arg>): Text {
    var e := ArgLoader.InsertArgs(args);
    Text(e.code, None, e.failed, false)
  }

  function TextOf(op: Op): Text {
    match op
    case Emit(opcode) => Plain([opcode])
    case EmitRaw(data) => Plain(data)
    case EmitRegs(opcode, regs) => Then(Plain([opcode]), Prefix(regs))
    case EmitLoad(reg, data, ty) =>
      if |data| > 0xFFFF then REFUSED
      else if Register(reg) then Plain(LoadCode(reg, data, ty))
      else Text([13], None, false, true)
    case EmitExtCall(callee, reg) =>
      var data := Utf8.Encode(callee);
      if |data| > 0xFFFF then Then(Then(REFUSED, Plain([7])), Prefix([reg]))
      else if Register(reg) then Plain(LoadCode(reg, data, 4) + [7, reg])
      else Text([13], None, false, true)
    case EmitLabel(_) => Plain([0])
    case EmitJump(opcode, _, reg) =>
      if opcode == 8 then Text([8, 0, 0], Some(1), false, false)
      else if opcode != 9 && opcode != 10 then REFUSED
      else if Register(reg) then Text([opcode, reg, 0, 0], Some(2), false, false)
      else Text([opcode], None, false, true)
    case EmitCall(_, count) =>
      if 1 <= count <= 32 then Text([6, count, 0, 0], Some(2), false, false) else REFUSED
    case EmitVarBytes(v) =>
      if v < 0 then Text([], None, false, true)
      else if v < 0x1_0000_0000_0000_0000 then Plain(VmBinary.EncVarUint(v).value)
      else Text([0xFF], None, false, true)
    case CallInterop(callee, args) => Then(Args(args), Then(LoadString(callee), Plain([7, 0])))
    case CallContract(contract, callee, args) =>
      Then(Args(args), Then(LoadString(callee),
        Then(Plain([3, 0]), Then(LoadString(contract), Plain([45, 0, 1, 46, 1])))))
    case Fail => REFUSED
  }

  function Slots(s: State, t: Text, name: string): seq<(nat, string)> {
    if t.slot.Some? then [(|s.code| + t.slot.value, name)] else []
  }

  /** The state after appending the text of a call. */
  function After(lower: string -> string, s: State, op: Op): State {
    var t := TextOf(op);
    var name := if op.EmitJump? || op.EmitCall? then op.name else "";
    State(s.code + t.code, s.jumps + Slots(s, t, name),
          if op.EmitLabel? then s.labels[lower(op.name) := |s.code| + 1] else s.labels,
          s.failed || t.failed)
  }

  lemma WideUint(v: int)
    ensures VmBinary.EncVarUint(v).Some? <==> 0 <= v < 0x1_0000_0000_0000_0000
  {
    assert Pow256(8) == 0x1_0000_0000_0000_0000 by { assert Pow256(4) == 0x1_0000_0000; PowAdd(4, 4); }
  }

  lemma {:induction false} BytesAll(s: State, vs: seq<int>)
    ensures ByteAll(Outcome(s, false), vs) == Outcome(Put(s, Prefix(vs).code), Prefix(vs).raised)
    decreases |vs|
  {
    if vs == [] {
      assert s.code + [] == s.code;
    } else if Register(vs[0]) {
      BytesAll(Put(s, [vs[0]]), vs[1..]);
      assert s.code + [vs[0]] + Prefix(vs[1..]).code == s.code + ([vs[0]] + Prefix(vs[1..]).code);
    } else {
      Stopped(s, vs[1..]);
      assert s.code + [] == s.code;
    }
  }

  lemma {:induction false} Stopped(s: State, vs: seq<int>)
    ensures ByteAll(Outcome(s, true), vs) == Outcome(s, true)
    decreases |vs|
  {
    if vs != [] { Stopped(s, vs[1..]); }
  }

  lemma LoadPuts(s: State, text: string)
    ensures LoadText(s, 0, text) == State(s.code + LoadString(text).code, s.jumps, s.labels, s.failed || LoadString(text).failed)
  {
  }

  lemma ThenPuts(s: State, a: Text, b: Text)
    requires !a.raised
    ensures s.code + Then(a, b).code == s.code + a.code + b.code
  {
    assert s.code + (a.code + b.code) == s.code + a.code + b.code;
  }

  lemma LoadStep(s: State, reg: int, data: bytes, ty: byte)
    requires |data| <= 0xFFFF
    ensures LoadOp(s, reg, data, ty)
         == if Register(reg) then Done(Put(s, LoadCode(reg, data, ty))) else Outcome(Put(s, [13]), true)
  {
    if Register(reg) {
      var body := VmBinary.EncVarUint(|data|).value + data;
      assert s.code + [13] + [reg] + ([ty] + body) == s.code + ([13, reg, ty] + body);
    }
  }

  lemma ExtCallStep(s: State, callee: string, reg: int)
    ensures var t := TextOf(EmitExtCall(callee, reg));
            ExtCallOp(s, callee, reg) == Outcome(s.(code := s.code + t.code, failed := s.failed || t.failed), t.raised)
  {
    hide LoadOp, LoadCode;
    var data := Utf8.Encode(callee);
    if |data| <= 0xFFFF {
      LoadStep(s, reg, data, 4);
      if Register(reg) {
        assert s.code + LoadCode(reg, data, 4) + [7] + [reg] == s.code + (LoadCode(reg, data, 4) + [7, reg]);
      }
    } else {
      assert LoadOp(s, reg, data, 4) == Done(Error(s)) by { TooLong(s, reg, data, 4); }
      if Register(reg) {
        assert Prefix([reg]) == Text([reg] + [], None, false, false) by { assert [reg][1..] == []; }
        assert s.code + [7] + [reg] == s.code + ([] + [7] + ([reg] + []));
      } else {
        assert s.code + [7] == s.code + ([] + [7] + []);
      }
    }
  }

  lemma TooLong(s: State, reg: int, data: bytes, ty: byte)
    requires |data| > 0xFFFF
    ensures LoadOp(s, reg, data, ty) == Done(Error(s))
  {
  }

  lemma InteropStep(s: State, callee: string, args: seq<ArgLoader.Arg>)
    ensures var t := TextOf(CallInterop(callee, args));
            InteropOp(s, callee, args) == s.(code := s.code + t.code, failed := s.failed || t.failed) && !t.raised
  {
    hide LoadText, LoadString, ArgLoader.InsertArgs;
    var e := ArgLoader.InsertArgs(args);
    LoadPuts(Append(s, e), callee);
    LoadNeverRaises(callee);
    assert s.code + e.code + LoadString(callee).code + [7, 0] == s.code + (e.code + (LoadString(callee).code + [7, 0]));
  }

  lemma LoadNeverRaises(text: string)
    ensures !LoadString(text).raised
  {
  }

  lemma ContractStep(s: State, contract: string, callee: string, args: seq<ArgLoader.Arg>)
    ensures var t := TextOf(CallContract(contract, callee, args));
            ContractOp(s, contract, callee, args) == s.(code := s.code + t.code, failed := s.failed || t.failed) && !t.raised
  {
    hide LoadText, LoadString, ArgLoader.InsertArgs;
    var e := ArgLoader.InsertArgs(args);
    var a, b := LoadString(callee), LoadString(contract);
    var s1 := Append(s, e);
    LoadPuts(s1, callee);
    LoadNeverRaises(callee);
    var s2 := Put(LoadText(s1, 0, callee), [3, 0]);
    LoadPuts(s2, contract);
    LoadNeverRaises(contract);
    var tail: bytes := [45, 0, 1, 46, 1];
    assert s.code + e.code + a.code + [3, 0] + b.code + tail
        == s.code + (e.code + (a.code + ([3, 0] + (b.code + tail))));
  }

  lemma JumpStep(s: State, opcode: byte, name: string, reg: int)
    ensures var t := TextOf(EmitJump(opcode, name, reg));
            var after := State(s.code + t.code, s.jumps + Slots(s, t, name), s.labels, s.failed || t.failed);
            JumpOp(s, opcode, name, reg) == Outcome(after, t.raised)
  {
    if opcode == 8 { assert s.code + [8] + [0, 0] == s.code + [8, 0, 0]; }
    if (opcode == 9 || opcode == 10) && Register(reg) {
      assert s.code + [opcode] + [reg] + [0, 0] == s.code + [opcode, reg, 0, 0];
    }
  }

  lemma CallStep(s: State, name: string, count: int)
    ensures var t := TextOf(EmitCall(name, count));
            var after := State(s.code + t.code, s.jumps + Slots(s, t, name), s.labels, s.failed || t.failed);
            CallOp(s, name, count) == after && !t.raised
  {
    if 1 <= count <= 32 { assert s.code + [6, count] + [0, 0] == s.code + [6, count, 0, 0]; }
  }

  /** Every builder call appends its text, opens its slot, defines its label and
      records its error, whatever came before. */
  lemma StepText(lower: string -> string, s: State, op: Op)
    ensures Step(lower, s, op) == Outcome(After(lower, s, op), TextOf(op).raised)
  {
    hide LoadOp, ExtCallOp, InteropOp, ContractOp, JumpOp, CallOp, LoadCode, LoadString, ByteAll, Prefix;
    assert s.jumps + [] == s.jumps;
    match op
    case Emit(opcode) =>
    case EmitRaw(data) =>
    case EmitRegs(opcode, regs) =>
      BytesAll(Put(s, [opcode]), regs);
      assert s.code + [opcode] + Prefix(regs).code == s.code + ([opcode] + Prefix(regs).code);
      PrefixNeverFails(regs);
    case EmitLoad(reg, data, ty) =>
      if |data| <= 0xFFFF { LoadStep(s, reg, data, ty); } else { TooLong(s, reg, data, ty); }
    case EmitExtCall(callee, reg) => ExtCallStep(s, callee, reg); NoSlot(op);
    case EmitLabel(name) =>
    case EmitJump(opcode, name, reg) => JumpStep(s, opcode, name, reg);
    case EmitCall(name, count) => CallStep(s, name, count);
    case EmitVarBytes(v) => WideUint(v);
    case CallInterop(callee, args) => InteropStep(s, callee, args); NoSlot(op);
    case CallContract(contract, callee, args) => ContractStep(s, contract, callee, args); NoSlot(op);
    case Fail =>
  }

  lemma PrefixNeverFails(vs: seq<int>)
    ensures !Prefix(vs).failed && Prefix(vs).slot.None?
  {
  }

  lemma NoSlot(op: Op)
    requires op.EmitExtCall? || op.CallInterop? || op.CallContract?
    ensures TextOf(op).slot.None?
  {
  }
}
