/** ScriptBuilder as a state machine: the emitted code, the jump slots waiting
    for a target, the label positions and the recorded error. */
module ScriptModel {
  import opened Bytes
  import ArgLoader
  import Utf8
  import VmBinary

  const NOP := 0
  const CALL := 6
  const EXTCALL := 7
  const JMP := 8
  const JMPIF := 9
  const JMPNOT := 10
  const RET := 11
  const CTX := 45
  const SWITCH := 46
  const MAX_REGISTER_COUNT := 32

  /** jumps lists the slots in the order they were emitted, as the dictionary
      keeps them. */
  datatype State = State(code: bytes, jumps: seq<(nat, string)>, labels: map<string, nat>, failed: bool)

  /** A builder call that raises leaves whatever it had emitted so far. */
  datatype Outcome = Outcome(s: State, raised: bool)

  datatype Op =
    | Emit(opcode: byte)
    | EmitRaw(data: bytes)
    | EmitRegs(opcode: byte, regs: seq<int>)
    | EmitLoad(reg: int, data: bytes, ty: byte)
    | EmitExtCall(callee: string, reg: int)
    | EmitLabel(name: string)
    | EmitJump(opcode: byte, name: string, reg: int)
    | EmitCall(name: string, count: int)
    | EmitVarBytes(value: int)
    | CallInterop(callee: string, args: seq<ArgLoader.Arg>)
    | CallContract(contract: string, callee: string, args: seq<ArgLoader.Arg>)
    | Fail

  const START := State([], [], map[], false)

  // ----- building blocks

  function Put(s: State, bs: bytes): State { s.(code := s.code + bs) }

  function Error(s: State): State { s.(failed := true) }

  function Append(s: State, e: ArgLoader.Emission): State {
    s.(code := s.code + e.code, failed := s.failed || e.failed)
  }

  function Done(s: State): Outcome { Outcome(s, false) }

  /** _byte: out of range raises, and a raised call goes no further. */
  function Byte(o: Outcome, v: int): Outcome {
    if o.raised then o
    else if 0 <= v <= 0xFF then Done(Put(o.s, [v]))
    else Outcome(o.s, true)
  }

  function ByteAll(o: Outcome, vs: seq<int>): Outcome
    decreases |vs|
  {
    if vs == [] then o else ByteAll(Byte(o, vs[0]), vs[1..])
  }

  function PutIfOk(o: Outcome, bs: bytes): Outcome { if o.raised then o else Done(Put(o.s, bs)) }

  /** emit_load with a register that may be out of range. */
  function LoadOp(s: State, reg: int, data: bytes, ty: byte): Outcome {
    if |data| > 0xFFFF then Done(Error(s))
    else PutIfOk(Byte(Done(Put(s, [ArgLoader.LOAD])), reg), [ty] + (ArgLoader.SizePrefix(|data|) + data))
  }

  function LoadText(s: State, reg: byte, text: string): State {
    Append(s, ArgLoader.EmitLoad(reg, Utf8.Encode(text), ArgLoader.TYPE_STRING))
  }

  /** Two zero bytes to patch later, remembered with their label. */
  function Slot(s: State, name: string): State {
    s.(code := s.code + [0, 0], jumps := s.jumps + [(|s.code|, name)])
  }

  function JumpOp(s: State, opcode: byte, name: string, reg: int): Outcome {
    if opcode != JMP && opcode != JMPIF && opcode != JMPNOT then Done(Error(s))
    else
      var o := Done(Put(s, [opcode]));
      var p := if opcode == JMP then o else Byte(o, reg);
      if p.raised then p else Done(Slot(p.s, name))
  }

  function CallOp(s: State, name: string, count: int): State {
    if count < 1 || count > MAX_REGISTER_COUNT then Error(s)
    else Slot(Put(s, [CALL, count]), name)
  }

  function ExtCallOp(s: State, callee: string, reg: int): Outcome {
    var o := LoadOp(s, reg, Utf8.Encode(callee), ArgLoader.TYPE_STRING);
    Byte(PutIfOk(o, [EXTCALL]), reg)
  }

  function InteropOp(s: State, callee: string, args: seq<ArgLoader.Arg>): State {
    Put(LoadText(Append(s, ArgLoader.InsertArgs(args)), 0, callee), [EXTCALL, 0])
  }

  function ContractOp(s: State, contract: string, callee: string, args: seq<ArgLoader.Arg>): State {
    var a := Put(LoadText(Append(s, ArgLoader.InsertArgs(args)), 0, callee), [ArgLoader.PUSH, 0]);
    Put(LoadText(a, 0, contract), [CTX, 0, 1, SWITCH, 1])
  }

  function LabelOp(s: State, key: string): State {
    s.(code := s.code + [NOP], labels := s.labels[key := |s.code| + 1])
  }

  /** One builder call.  lower stands for str.lower, which the builder applies to
      labels when it defines and when it resolves them. */
  function Step(lower: string -> string, s: State, op: Op): Outcome {
    match op
    case Emit(opcode) => Done(Put(s, [opcode]))
    case EmitRaw(data) => Done(Put(s, data))
    case EmitRegs(opcode, regs) => ByteAll(Done(Put(s, [opcode])), regs)
    case EmitLoad(reg, data, ty) => LoadOp(s, reg, data, ty)
    case EmitExtCall(callee, reg) => ExtCallOp(s, callee, reg)
    case EmitLabel(name) => Done(LabelOp(s, lower(name)))
    case EmitJump(opcode, name, reg) => JumpOp(s, opcode, name, reg)
    case EmitCall(name, count) => Done(CallOp(s, name, count))
    case EmitVarBytes(v) =>
      var e := VmBinary.EncVarUint(v);
      if e.Some? then Done(Put(s, e.value)) else Outcome(Put(s, if v < 0 then [] else [0xFF]), true)
    case CallInterop(callee, args) => Done(InteropOp(s, callee, args))
    case CallContract(contract, callee, args) => Done(ContractOp(s, contract, callee, args))
    case Fail => Done(Error(s))
  }

  /** Any sequence of builder calls, those that raised included. */
  function Run(lower: string -> string, ops: seq<Op>): State {
    if ops == [] then START
    else Step(lower, Run(lower, ops[..|ops| - 1]), ops[|ops| - 1]).s
  }

  // ----- finishing

  /** One slot; None is a missing label or a target beyond two bytes. */
  function Patch(
    lower: string -> string, script: bytes, jump: (nat, string), labels: map<string, nat>): (r: Option<bytes>)
    ensures r.Some? ==> |r.value| == |script|
  {
    var (offset, name) := jump;
    if lower(name) !in labels then None
    else
      var target := labels[lower(name)];
      if offset + 1 >= |script| || target > 0xFFFF then None
      else Some(script[offset := target % 256][offset + 1 := target / 256])
  }

  /** to_script */
  function PatchAll(
    lower: string -> string, script: bytes, jumps: seq<(nat, string)>, labels: map<string, nat>): (r: Option<bytes>)
    ensures r.Some? ==> |r.value| == |script|
    decreases |jumps|
  {
    if jumps == [] then Some(script)
    else
      var once :- Patch(lower, script, jumps[0], labels);
      PatchAll(lower, once, jumps[1..], labels)
  }

  /** end_script: a RET, then the patched script unless an error was recorded. */
  function Finish(lower: string -> string, s: State): Option<bytes> {
    if s.failed then None else PatchAll(lower, s.code + [RET], s.jumps, s.labels)
  }

  // ----- what every run keeps

  predicate InSlot(k: int, slot: nat) { slot <= k < slot + 2 }

  /** Slots lie inside the code, one after the other without touching; every
      label stands just after a NOP that is in no slot. */
  ghost predicate Good(s: State) {
    && (forall i :: 0 <= i < |s.jumps| ==> s.jumps[i].0 + 2 <= |s.code|)
    && (forall i, j :: 0 <= i < j < |s.jumps| ==> s.jumps[i].0 + 2 <= s.jumps[j].0)
    && (forall l :: l in s.labels ==> LabelStands(s, s.labels[l]))
  }

  ghost predicate LabelStands(s: State, at: nat) {
    && 1 <= at <= |s.code| && s.code[at - 1] == NOP
    && forall i :: 0 <= i < |s.jumps| ==> !InSlot(at - 1, s.jumps[i].0)
  }

  /** t is s with more code. */
  ghost predicate Grown(s: State, t: State) {
    && s.code <= t.code && t.jumps == s.jumps && t.labels == s.labels && (s.failed ==> t.failed)
  }

  lemma GrownGood(s: State, t: State)
    requires Good(s) && Grown(s, t)
    ensures Good(t)
  {
    forall l | l in t.labels ensures LabelStands(t, t.labels[l]) {
      assert LabelStands(s, s.labels[l]);
    }
  }

  lemma SlotGood(s: State, name: string)
    requires Good(s)
    ensures Good(Slot(s, name))
  {
    var t := Slot(s, name);
    forall l | l in t.labels ensures LabelStands(t, t.labels[l]) {
      assert LabelStands(s, s.labels[l]);
    }
  }

  lemma LabelGood(s: State, key: string)
    requires Good(s)
    ensures Good(LabelOp(s, key))
  {
    var t := LabelOp(s, key);
    forall l | l in t.labels ensures LabelStands(t, t.labels[l]) {
      if l != key { assert LabelStands(s, s.labels[l]); }
    }
  }

  lemma {:induction false} BytesGrow(o: Outcome, vs: seq<int>)
    ensures Grown(o.s, ByteAll(o, vs).s)
    decreases |vs|
  {
    if vs != [] { BytesGrow(Byte(o, vs[0]), vs[1..]); }
  }

  /** Every call but a label, a jump and a call only adds code. */
  lemma PlainGrows(lower: string -> string, s: State, op: Op)
    requires !op.EmitLabel? && !op.EmitJump? && !op.EmitCall?
    ensures Grown(s, Step(lower, s, op).s)
  {
    match op
    case EmitRegs(opcode, regs) => BytesGrow(Done(Put(s, [opcode])), regs);
    case EmitLoad(reg, data, ty) => LoadGrows(s, reg, data, ty);
    case EmitExtCall(callee, reg) => LoadGrows(s, reg, Utf8.Encode(callee), ArgLoader.TYPE_STRING);
    case _ =>
  }

  lemma LoadGrows(s: State, reg: int, data: bytes, ty: byte)
    ensures Grown(s, LoadOp(s, reg, data, ty).s)
  {
  }

  lemma StepGood(lower: string -> string, s: State, op: Op)
    requires Good(s)
    ensures Good(Step(lower, s, op).s)
  {
    match op
    case EmitLabel(name) => LabelGood(s, lower(name));
    case EmitJump(opcode, name, reg) =>
      var o := Done(Put(s, [opcode]));
      GrownGood(s, o.s);
      var p := if opcode == JMP then o else Byte(o, reg);
      GrownGood(s, p.s);
      SlotGood(p.s, name);
      GrownGood(s, Error(s));
    case EmitCall(name, count) =>
      GrownGood(s, Error(s));
      if 1 <= count <= MAX_REGISTER_COUNT {
        GrownGood(s, Put(s, [CALL, count]));
        SlotGood(Put(s, [CALL, count]), name);
      }
    case _ =>
      PlainGrows(lower, s, op);
      GrownGood(s, Step(lower, s, op).s);
  }

  /** Over every sequence of builder calls the slots stay in bounds and pairwise
      disjoint, and every label stands just after its NOP, outside every slot. */
  lemma {:induction false} RunGood(lower: string -> string, ops: seq<Op>)
    ensures Good(Run(lower, ops))
  {
    if ops != [] {
      RunGood(lower, ops[..|ops| - 1]);
      StepGood(lower, Run(lower, ops[..|ops| - 1]), ops[|ops| - 1]);
    }
  }

  // ----- a label means its latest definition

  predicate Defines(lower: string -> string, op: Op, key: string) { op.EmitLabel? && lower(op.name) == key }

  lemma StepLabels(lower: string -> string, s: State, op: Op)
    ensures Step(lower, s, op).s.labels == if op.EmitLabel? then s.labels[lower(op.name) := |s.code| + 1] else s.labels
    ensures s.code <= Step(lower, s, op).s.code
  {
    if !op.EmitLabel? && !op.EmitJump? && !op.EmitCall? { PlainGrows(lower, s, op); }
  }

  /** A label's position is the one just after the NOP of its latest definition. */
  lemma {:induction false} LatestDefinition(lower: string -> string, pre: seq<Op>, name: string, post: seq<Op>)
    requires forall op :: op in post ==> !Defines(lower, op, lower(name))
    ensures var s := Run(lower, pre + [EmitLabel(name)] + post);
            lower(name) in s.labels && s.labels[lower(name)] == |Run(lower, pre).code| + 1
    decreases |post|
  {
    var ops := pre + [EmitLabel(name)] + post;
    hide Step;
    if post == [] {
      assert ops[..|ops| - 1] == pre;
      StepLabels(lower, Run(lower, pre), EmitLabel(name));
    } else {
      var init := post[..|post| - 1];
      assert ops[..|ops| - 1] == pre + [EmitLabel(name)] + init;
      LatestDefinition(lower, pre, name, init);
      StepLabels(lower, Run(lower, ops[..|ops| - 1]), ops[|ops| - 1]);
      assert ops[|ops| - 1] in post;
    }
  }

  /** A label that was never defined has no position. */
  lemma {:induction false} NeverDefined(lower: string -> string, ops: seq<Op>, key: string)
    ensures key in Run(lower, ops).labels <==> exists op :: op in ops && Defines(lower, op, key)
  {
    if ops != [] {
      var init, last := ops[..|ops| - 1], ops[|ops| - 1];
      NeverDefined(lower, init, key);
      StepLabels(lower, Run(lower, init), last);
      assert last in ops && forall op :: op in ops <==> op in init || op == last by {
        assert ops == init + [last];
      }
    }
  }

  // ----- patching

  /** Slots in order, two bytes each, all inside n bytes. */
  ghost predicate Spaced(jumps: seq<(nat, string)>, n: nat) {
    && (forall i :: 0 <= i < |jumps| ==> jumps[i].0 + 2 <= n)
    && (forall i, j :: 0 <= i < j < |jumps| ==> jumps[i].0 + 2 <= jumps[j].0)
  }

  predicate Resolvable(lower: string -> string, jump: (nat, string), labels: map<string, nat>) {
    lower(jump.1) in labels && labels[lower(jump.1)] <= 0xFFFF
  }

  /** The slot holds the target, low byte first. */
  predicate Holds(lower: string -> string, script: bytes, jump: (nat, string), labels: map<string, nat>)
    requires jump.0 + 2 <= |script|
  {
    lower(jump.1) in labels && UInt(script[jump.0..jump.0 + 2]) == labels[lower(jump.1)]
  }

  lemma {:induction false} PatchOutside(
    lower: string -> string, script: bytes, jumps: seq<(nat, string)>, labels: map<string, nat>, k: nat)
    requires k < |script| && PatchAll(lower, script, jumps, labels).Some?
    requires forall i :: 0 <= i < |jumps| ==> !InSlot(k, jumps[i].0)
    ensures PatchAll(lower, script, jumps, labels).value[k] == script[k]
    decreases |jumps|
  {
    if jumps != [] {
      assert !InSlot(k, jumps[0].0);
      PatchOutside(lower, Patch(lower, script, jumps[0], labels).value, jumps[1..], labels, k);
    }
  }

  lemma {:induction false} PatchFails(
    lower: string -> string, script: bytes, jumps: seq<(nat, string)>, labels: map<string, nat>)
    requires Spaced(jumps, |script|)
    ensures PatchAll(lower, script, jumps, labels).Some? <==>
            forall i :: 0 <= i < |jumps| ==> Resolvable(lower, jumps[i], labels)
    decreases |jumps|
  {
    if jumps != [] {
      var once := Patch(lower, script, jumps[0], labels);
      if once.Some? { PatchFails(lower, once.value, jumps[1..], labels); }
      assert forall i :: 0 < i < |jumps| ==> jumps[i] == jumps[1..][i - 1];
    }
  }

  lemma {:induction false} PatchHolds(
    lower: string -> string, script: bytes, jumps: seq<(nat, string)>, labels: map<string, nat>, i: nat)
    requires Spaced(jumps, |script|) && i < |jumps| && PatchAll(lower, script, jumps, labels).Some?
    ensures Holds(lower, PatchAll(lower, script, jumps, labels).value, jumps[i], labels)
    decreases |jumps|
  {
    var once := Patch(lower, script, jumps[0], labels).value;
    if i == 0 {
      PatchOutside(lower, once, jumps[1..], labels, jumps[0].0);
      PatchOutside(lower, once, jumps[1..], labels, jumps[0].0 + 1);
    } else {
      PatchHolds(lower, once, jumps[1..], labels, i - 1);
    }
  }

  /** Finishing fails exactly on a recorded error, a label that was never
      defined, or a target that two bytes cannot hold. */
  lemma FinishFails(lower: string -> string, ops: seq<Op>)
    ensures var s := Run(lower, ops);
            Finish(lower, s).None? <==>
              s.failed || exists i :: 0 <= i < |s.jumps| && !Resolvable(lower, s.jumps[i], s.labels)
  {
    RunGood(lower, ops);
    var s := Run(lower, ops);
    PatchFails(lower, s.code + [RET], s.jumps, s.labels);
  }

  /** The finished script is the emitted code and a RET outside the slots; each
      slot holds its label's position, which lies strictly inside the script,
      right after a NOP. */
  lemma FinishedScript(lower: string -> string, ops: seq<Op>)
    requires Finish(lower, Run(lower, ops)).Some?
    ensures var s := Run(lower, ops);
            var script := Finish(lower, s).value;
            && |script| == |s.code| + 1
            && (forall k :: 0 <= k < |script| && (forall i :: 0 <= i < |s.jumps| ==> !InSlot(k, s.jumps[i].0))
                            ==> script[k] == (s.code + [11])[k])
            && (forall i :: 0 <= i < |s.jumps| ==>
                  s.jumps[i].0 + 2 <= |script| && Holds(lower, script, s.jumps[i], s.labels)
                  && 0 < s.labels[lower(s.jumps[i].1)] < |script|
                  && script[s.labels[lower(s.jumps[i].1)] - 1] == 0)
  {
    RunGood(lower, ops);
    var s := Run(lower, ops);
    var code := s.code + [RET];
    var script := Finish(lower, s).value;
    forall k | 0 <= k < |script| && (forall i :: 0 <= i < |s.jumps| ==> !InSlot(k, s.jumps[i].0))
      ensures script[k] == code[k]
    {
      PatchOutside(lower, code, s.jumps, s.labels, k);
    }
    forall i | 0 <= i < |s.jumps|
      ensures Holds(lower, script, s.jumps[i], s.labels)
      ensures 0 < s.labels[lower(s.jumps[i].1)] < |script|
      ensures script[s.labels[lower(s.jumps[i].1)] - 1] == NOP
    {
      PatchHolds(lower, code, s.jumps, s.labels, i);
      var at := s.labels[lower(s.jumps[i].1)];
      assert LabelStands(s, at);
      PatchOutside(lower, code, s.jumps, s.labels, at - 1);
    }
  }
}
