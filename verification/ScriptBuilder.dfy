/** ScriptBuilder itself: every method moves the builder's state as the model's
    step says, and end_script patches a byte array in place. */
module ScriptBuilder {
  import opened Bytes
  import opened BinaryIO
  import opened ScriptModel
  import ArgLoader
  import Utf8
  import VmBinary
  import VmInteger

  class Builder {
    const lower: string -> string
    const writer: BinaryWriter
    var jumps: seq<(nat, string)>
    var labels: map<string, nat>
    var failed: bool

    constructor (lower: string -> string)
      ensures State() == START && this.lower == lower && fresh(writer)
    {
      this.lower := lower;
      writer := new BinaryWriter();
      jumps, labels, failed := [], map[], false;
    }

    ghost function State(): ScriptModel.State
      reads this, writer
    {
      ScriptModel.State(writer.buffer, jumps, labels, failed)
    }

    /** _fail */
    method Fail()
      modifies this
      ensures State() == Step(lower, old(State()), Op.Fail).s
    {
      failed := true;
    }

    /** _byte */
    method Byte(value: int) returns (raised: bool)
      modifies writer
      ensures Outcome(State(), raised) == ScriptModel.Byte(Done(old(State())), value)
    {
      var ok := writer.WriteU8(value);
      raised := !ok;
    }

    method Emit(opcode: byte)
      modifies writer
      ensures State() == Step(lower, old(State()), Op.Emit(opcode)).s
    {
      writer.Write([opcode]);
    }

    method EmitRaw(data: bytes)
      modifies writer
      ensures State() == Step(lower, old(State()), Op.EmitRaw(data)).s
    {
      writer.Write(data);
    }

    /** emit_push, emit_pop and emit_throw */
    method EmitOne(opcode: byte, reg: int) returns (raised: bool)
      modifies writer
      ensures Outcome(State(), raised) == Step(lower, old(State()), Op.EmitRegs(opcode, [reg]))
    {
      Emit(opcode);
      raised := Byte(reg);
      OneByte(Done(Put(old(State()), [opcode])), reg);
    }

    /** emit_move and emit_copy */
    method EmitTwo(opcode: byte, src: int, dst: int) returns (raised: bool)
      modifies writer
      ensures Outcome(State(), raised) == Step(lower, old(State()), Op.EmitRegs(opcode, [src, dst]))
    {
      Emit(opcode);
      TwoBytes(Done(Put(old(State()), [opcode])), src, dst);
      raised := Byte(src);
      if !raised { raised := Byte(dst); }
    }

    method EmitLoad(reg: int, data: bytes, ty: byte) returns (raised: bool)
      modifies this, writer
      ensures Outcome(State(), raised) == Step(lower, old(State()), Op.EmitLoad(reg, data, ty))
    {
      if |data| > 0xFFFF {
        Fail();
        return false;
      }
      Emit(ArgLoader.LOAD);
      raised := Byte(reg);
      if raised { return; }
      ghost var mid := writer.buffer;
      writer.Write([ty]);
      var ok := writer.WriteVarUint(|data|);
      writer.Write(data);
      ghost var size := ArgLoader.SizePrefix(|data|);
      assert mid + [ty] + size + data == mid + ([ty] + (size + data));
    }

    /** emit_load where the register is known to be one. */
    method LoadInto(reg: byte, data: bytes, ty: byte)
      modifies this, writer
      ensures State() == Append(old(State()), ArgLoader.EmitLoad(reg, data, ty))
    {
      var raised := EmitLoad(reg, data, ty);
      LoadFits(old(State()), reg, data, ty);
    }

    method EmitExtCall(callee: string, reg: int) returns (raised: bool)
      modifies this, writer
      ensures Outcome(State(), raised) == Step(lower, old(State()), Op.EmitExtCall(callee, reg))
    {
      raised := EmitLoad(reg, Utf8.Encode(callee), ArgLoader.TYPE_STRING);
      if raised { return; }
      Emit(EXTCALL);
      raised := Byte(reg);
    }

    method EmitLabel(name: string)
      modifies this, writer
      ensures State() == Step(lower, old(State()), Op.EmitLabel(name)).s
    {
      Emit(NOP);
      labels := labels[lower(name) := |writer.buffer|];
    }

    /** The placeholder shared by emit_jump and emit_call. */
    method AddSlot(name: string)
      modifies this, writer
      ensures State() == Slot(old(State()), name)
    {
      var offset := |writer.buffer|;
      var ok := writer.WriteUnsigned(0, 2);
      ZeroSlot();
      jumps := jumps + [(offset, name)];
    }

    method EmitJump(opcode: byte, name: string, reg: int) returns (raised: bool)
      modifies this, writer
      ensures Outcome(State(), raised) == Step(lower, old(State()), Op.EmitJump(opcode, name, reg))
    {
      if opcode != JMP && opcode != JMPIF && opcode != JMPNOT {
        Fail();
        return false;
      }
      Emit(opcode);
      if opcode != JMP {
        raised := Byte(reg);
        if raised { return; }
      }
      AddSlot(name);
      raised := false;
    }

    /** emit_conditional_jump: an unconditional opcode is refused too. */
    method EmitConditionalJump(opcode: byte, reg: int, name: string) returns (raised: bool)
      modifies this, writer
      ensures Outcome(State(), raised) == Step(lower, old(State()),
                if opcode == JMP then Op.Fail else Op.EmitJump(opcode, name, reg))
    {
      if opcode != JMPIF && opcode != JMPNOT {
        Fail();
        return false;
      }
      raised := EmitJump(opcode, name, reg);
    }

    method EmitCall(name: string, count: int)
      modifies this, writer
      ensures State() == Step(lower, old(State()), Op.EmitCall(name, count)).s
    {
      if count < 1 || count > MAX_REGISTER_COUNT {
        Fail();
        return;
      }
      Emit(CALL);
      var raised := Byte(count);
      assert old(writer.buffer) + [CALL] + [count] == old(writer.buffer) + [CALL, count];
      AddSlot(name);
    }

    method EmitVarBytes(value: int) returns (raised: bool)
      modifies writer
      ensures Outcome(State(), raised) == Step(lower, old(State()), Op.EmitVarBytes(value))
    {
      var ok := writer.WriteVarUint(value);
      raised := !ok;
    }

    /** _load_into_register */
    method LoadIntoRegister(reg: nat, a: ArgLoader.Arg)
      requires reg < ArgLoader.REGISTERS
      modifies this, writer
      ensures State() == Append(old(State()), ArgLoader.Load(reg, a))
      decreases a, 1
    {
      if a.AList? {
        if reg > ArgLoader.REGISTERS - 3 {
          Fail();
          return;
        }
        var cast := ArgLoader.Raw([ArgLoader.CAST, reg, reg, ArgLoader.TYPE_NONE]);
        EmitRaw(cast.code);
        LoadEach(reg, a.items);
        AppendThen(old(State()), cast, ArgLoader.LoadItems(reg, a.items, 0));
      } else {
        var s := ArgLoader.Scalar(a);
        if s.None? { Fail(); } else { LoadInto(reg, s.value.1, s.value.0); }
      }
    }

    /** The loop over a list's items. */
    method LoadEach(reg: nat, items: seq<ArgLoader.Arg>)
      requires reg <= ArgLoader.REGISTERS - 3
      modifies this, writer
      ensures State() == Append(old(State()), ArgLoader.LoadItems(reg, items, 0))
      decreases items, 0
    {
      ghost var done := ArgLoader.NOTHING;
      ghost var all := ArgLoader.LoadItems(reg, items, 0);
      ThenNothing(all);
      var index := 0;
      assert items[0..] == items;
      while index < |items|
        invariant 0 <= index <= |items|
        invariant State() == Append(old(State()), done)
        invariant all == ArgLoader.Then(done, ArgLoader.LoadItems(reg, items[index..], index))
      {
        ghost var item := ArgLoader.ItemCode(reg, items[index], index);
        assert items[index..][0] == items[index] && items[index..][1..] == items[index + 1..];
        LoadItem(reg, items[index], index);
        AppendThen(old(State()), done, item);
        ThenThen(done, item, ArgLoader.LoadItems(reg, items[index + 1..], index + 1));
        done := ArgLoader.Then(done, item);
        index := index + 1;
      }
      ThenNothing(done);
    }

    method LoadItem(reg: nat, item: ArgLoader.Arg, index: nat)
      requires reg <= ArgLoader.REGISTERS - 3
      modifies this, writer
      ensures State() == Append(old(State()), ArgLoader.ItemCode(reg, item, index))
      decreases item, 2
    {
      LoadIntoRegister(reg + 1, item);
      LoadInto(reg + 2, VmInteger.CSharp(index), ArgLoader.TYPE_NUMBER);
      EmitRaw([ArgLoader.PUT, reg + 1, reg, reg + 2]);
      ghost var load := ArgLoader.Load(reg + 1, item);
      ghost var key := ArgLoader.EmitLoad(reg + 2, VmInteger.CSharp(index), ArgLoader.TYPE_NUMBER);
      ghost var put := ArgLoader.Raw([ArgLoader.PUT, reg + 1, reg, reg + 2]);
      AppendThen(Append(old(State()), load), key, put);
      AppendThen(old(State()), load, ArgLoader.Then(key, put));
    }

    /** _insert_method_args: from the last argument to the first. */
    method InsertMethodArgs(args: seq<ArgLoader.Arg>)
      modifies this, writer
      ensures State() == Append(old(State()), ArgLoader.InsertArgs(args))
    {
      var i := |args|;
      AppendNothing(State());
      while i > 0
        invariant 0 <= i <= |args|
        invariant State() == Append(old(State()), ArgLoader.InsertArgs(args[i..]))
      {
        ghost var before := State();
        i := i - 1;
        LoadIntoRegister(0, args[i]);
        EmitRaw([ArgLoader.PUSH, 0]);
        ghost var load, push := ArgLoader.Load(0, args[i]), ArgLoader.Raw([ArgLoader.PUSH, 0]);
        assert args[i..][0] == args[i] && args[i..][1..] == args[i + 1..];
        AppendThen(before, load, push);
        AppendThen(old(State()), ArgLoader.InsertArgs(args[i + 1..]), ArgLoader.Then(load, push));
      }
      assert args[0..] == args;
    }

    method CallInterop(callee: string, args: seq<ArgLoader.Arg>)
      modifies this, writer
      ensures State() == Step(lower, old(State()), Op.CallInterop(callee, args)).s
    {
      InsertMethodArgs(args);
      LoadInto(0, Utf8.Encode(callee), ArgLoader.TYPE_STRING);
      EmitRaw([EXTCALL, 0]);
    }

    method CallContract(contract: string, callee: string, args: seq<ArgLoader.Arg>)
      modifies this, writer
      ensures State() == Step(lower, old(State()), Op.CallContract(contract, callee, args)).s
    {
      InsertMethodArgs(args);
      LoadInto(0, Utf8.Encode(callee), ArgLoader.TYPE_STRING);
      EmitRaw([ArgLoader.PUSH, 0]);
      LoadInto(0, Utf8.Encode(contract), ArgLoader.TYPE_STRING);
      EmitRaw([CTX, 0, 1, SWITCH, 1]);
    }

    /** to_script: copy the code and patch each slot in place. */
    method ToScript() returns (r: Option<bytes>)
      ensures r == PatchAll(lower, writer.buffer, jumps, labels)
    {
      var script := new byte[|writer.buffer|](i requires 0 <= i < |writer.buffer| reads writer => writer.buffer[i]);
      assert script[..] == writer.buffer;
      var i := 0;
      assert jumps[0..] == jumps;
      while i < |jumps|
        modifies script
        invariant 0 <= i <= |jumps|
        invariant PatchAll(lower, writer.buffer, jumps, labels) == PatchAll(lower, script[..], jumps[i..], labels)
      {
        var (offset, name) := jumps[i];
        assert jumps[i..][0] == jumps[i] && jumps[i..][1..] == jumps[i + 1..];
        var key := lower(name);
        if key !in labels { return None; }
        var target := labels[key];
        if offset + 1 >= script.Length || target > 0xFFFF { return None; }
        ghost var before: bytes := script[..];
        var low: byte, high: byte := target % 256, target / 256;
        script[offset] := low;
        script[offset + 1] := high;
        assert script[..] == (before[offset := low])[offset + 1 := high];
        i := i + 1;
      }
      return Some(script[..]);
    }

    /** end_script: None stands for either exception. */
    method EndScript() returns (r: Option<bytes>)
      modifies writer
      ensures State() == Step(lower, old(State()), Op.Emit(RET)).s
      ensures r == Finish(lower, old(State()))
    {
      Emit(RET);
      if failed { return None; }
      r := ToScript();
    }
  }

  // ----- how emissions add up

  lemma AppendThen(s: ScriptModel.State, a: ArgLoader.Emission, b: ArgLoader.Emission)
    ensures Append(Append(s, a), b) == Append(s, ArgLoader.Then(a, b))
  {
    assert s.code + a.code + b.code == s.code + (a.code + b.code);
  }

  lemma AppendNothing(s: ScriptModel.State)
    ensures Append(s, ArgLoader.NOTHING) == s
  {
    assert s.code + [] == s.code;
  }

  lemma ThenNothing(a: ArgLoader.Emission)
    ensures ArgLoader.Then(a, ArgLoader.NOTHING) == a == ArgLoader.Then(ArgLoader.NOTHING, a)
  {
    assert a.code + [] == a.code == [] + a.code;
  }

  lemma ThenThen(a: ArgLoader.Emission, b: ArgLoader.Emission, c: ArgLoader.Emission)
    ensures ArgLoader.Then(a, ArgLoader.Then(b, c)) == ArgLoader.Then(ArgLoader.Then(a, b), c)
  {
    assert a.code + (b.code + c.code) == a.code + b.code + c.code;
  }

  lemma LoadFits(s: ScriptModel.State, reg: byte, data: bytes, ty: byte)
    ensures LoadOp(s, reg, data, ty) == Done(Append(s, ArgLoader.EmitLoad(reg, data, ty)))
  {
    if |data| > 0xFFFF {
      assert s.code + [] == s.code;
    } else {
      var body := ArgLoader.SizePrefix(|data|) + data;
      assert s.code + [ArgLoader.LOAD] + [reg] + ([ty] + body) == s.code + ([ArgLoader.LOAD, reg, ty] + body);
    }
  }

  lemma OneByte(o: Outcome, v: int)
    ensures ByteAll(o, [v]) == ScriptModel.Byte(o, v)
  {
    assert [v][1..] == [] && [v][0] == v;
    assert ByteAll(ScriptModel.Byte(o, v), []) == ScriptModel.Byte(o, v);
  }

  lemma TwoBytes(o: Outcome, v: int, w: int)
    ensures ByteAll(o, [v, w]) == ScriptModel.Byte(ScriptModel.Byte(o, v), w)
  {
    assert [v, w][1..] == [w] && [v, w][0] == v;
    OneByte(ScriptModel.Byte(o, v), w);
  }

  lemma ZeroSlot()
    ensures LE(0, 2) == [0, 0]
  {
    assert LE(0, 1) == [0] + LE(0, 0);
    assert LE(0, 2) == [0] + LE(0, 1);
  }
}
