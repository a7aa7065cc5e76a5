/** What the register a call argument is loaded into stands for, type by type, and
    the code that puts it there, byte by byte. */
module ArgDenotes {
  import opened ArgLoader
  import opened Bytes
  import Utf8
  import VmBinary
  import VmInteger

  /** data is n in two's complement, and a byte less would not hold it. */
  predicate Holds(data: bytes, n: int) {
    data != [] && SInt(data) == n
    && (|data| > 1 ==> !(-Pow256(|data| - 1) <= 2 * n < Pow256(|data| - 1)))
  }

  /** The value stands for the argument. */
  ghost predicate Denotes(v: Val, a: Arg)
    decreases a
  {
    match a
    case ABytes(data) => v == Const(2, data)
    case ANum(n) => v.Const? && v.ty == 3 && Holds(v.data, n)
    case AText(s) => v.Const? && v.ty == 4 && Utf8.Decode(v.data) == Some(s)
    case ATime(t) => v.Const? && v.ty == 5 && |v.data| == 4 && UInt(v.data) == t
    case ABool(b) => v == Const(6, if b then [1] else [0])
    case AList(items) =>
      if items == [] then v == Nothing
      else
        && v.Struct? && (forall k :: k in v.items <==> 0 <= k < |items|)
        && forall i :: 0 <= i < |items| ==> Denotes(v.items[i], items[i])
    case ANull => false
    case AOther => false
  }

  lemma NumberHolds(n: int)
    ensures Holds(VmInteger.CSharp(n), n)
  {
    var data := VmInteger.CSharp(n);
    VmInteger.CSharpShortest(n);
    if |data| > 1 && -Pow256(|data| - 1) <= 2 * n < Pow256(|data| - 1) {
      SignedLE(n, |data| - 1);
    }
  }

  /** Holding is exact: no other bytes do. */
  lemma HoldsUnique(data: bytes, n: int)
    requires Holds(data, n)
    ensures data == VmInteger.CSharp(n)
  {
    VmInteger.CSharpShortest(n);
    NumberHolds(n);
    var least := VmInteger.CSharp(n);
    if |data| > |least| {
      SIntRange(least);
      PowGrows(|least|, |data| - 1);
    }
  }

  lemma {:induction false} PowGrows(m: nat, n: nat)
    requires m <= n
    ensures Pow256(m) <= Pow256(n)
  {
    if m < n { PowGrows(m, n - 1); }
  }

  /** The meaning of a supported argument stands for it. */
  lemma {:induction false} MeaningDenotes(a: Arg)
    requires Supported(a)
    ensures Denotes(Meaning(a), a)
    decreases a
  {
    match a
    case ANum(n) => NumberHolds(n);
    case AText(s) => Utf8.RoundTrip(s);
    case ATime(t) => WordHolds(t);
    case AList(items) => if items != [] { ItemsDenote(items); }
    case _ =>
  }

  lemma WordHolds(t: int)
    requires 0 <= t <= 0xFFFF_FFFF
    ensures |LE(t, 4)| == 4 && UInt(LE(t, 4)) == t
  {
    LEUInt(t, 4);
    assert Pow256(4) == 0x1_0000_0000;
  }

  lemma {:induction false} ItemsDenote(items: seq<Arg>)
    requires items != [] && SupportedAll(items, 0)
    ensures Denotes(Meaning(AList(items)), AList(items))
    decreases items
  {
    forall i | 0 <= i < |items|
      ensures i in Meaning(AList(items)).items && Denotes(Meaning(AList(items)).items[i], items[i])
    {
      ListMeaning(items, i);
      SupportedAt(items, 0, i);
      MeaningDenotes(items[i]);
    }
    ListMeaning(items, 0);
  }

  lemma {:induction false} SupportedAt(items: seq<Arg>, index: nat, i: nat)
    requires SupportedAll(items, index) && i < |items|
    ensures Supported(items[i])
    decreases i
  {
    hide Supported;
    if i > 0 { SupportedAt(items[1..], index + 1, i - 1); }
  }

  /** No value stands for two arguments, the argument for None and lists apart. */
  lemma DenotesOne(v: Val, a: Arg, b: Arg)
    requires Denotes(v, a) && Denotes(v, b) && !a.AList? && !b.AList?
    ensures a == b
  {
  }

  /** The code for one argument leaves its value in the register, and the registers
      below and the stack alone. */
  lemma ArgLoaded(reg: nat, a: Arg, m: Machine, rest: bytes) returns (n: Machine)
    requires reg < REGISTERS && |m.regs| == REGISTERS && !Load(reg, a).failed
    ensures |n.regs| == REGISTERS && Denotes(n.regs[reg], a)
    ensures n.stack == m.stack && forall i :: 0 <= i < reg ==> n.regs[i] == m.regs[i]
    ensures Exec(Load(reg, a).code + rest, m) == Exec(rest, n)
  {
    n := ArgRuns(reg, a, m, rest);
    LoadFails(reg, a);
    MeaningDenotes(a);
  }

  /** Unless an error was recorded, running the code for an argument tuple to its end
      leaves the arguments' values on the stack, first on top. */
  lemma ArgsLoaded(args: seq<Arg>, m: Machine)
    requires |m.regs| == REGISTERS && !InsertArgs(args).failed
    ensures Exec(InsertArgs(args).code, m).Some?
    ensures var stack := Exec(InsertArgs(args).code, m).value.stack;
            && |stack| == |args| + |m.stack| && stack[|args|..] == m.stack
            && forall i :: 0 <= i < |args| ==> Denotes(stack[i], args[i])
  {
    ArgsRunToEnd(args, m);
    forall i | 0 <= i < |args| ensures Denotes(Meanings(args)[i], args[i]) {
      MeaningOf(args, i);
      MeaningDenotes(args[i]);
    }
  }

  lemma {:induction false} MeaningOf(args: seq<Arg>, i: nat)
    requires i < |args| && !InsertArgs(args).failed
    ensures Meanings(args)[i] == Meaning(args[i]) && Supported(args[i])
    decreases i
  {
    if i == 0 { LoadFails(0, args[0]); } else { MeaningOf(args[1..], i - 1); }
  }

  // ----- the code itself

  /** A scalar is opcode 13, register, type, size and bytes. */
  lemma ScalarCode(reg: nat, a: Arg, v: Val)
    requires reg < REGISTERS && !a.AList? && !Load(reg, a).failed && Denotes(v, a)
    ensures |v.data| <= 0xFFFF && VmBinary.EncVarUint(|v.data|).Some?
    ensures Load(reg, a).code == [13, reg, v.ty] + (VmBinary.EncVarUint(|v.data|).value + v.data)
  {
    match a
    case ANum(n) => HoldsUnique(v.data, n);
    case AText(s) => Utf8.DecodeExact(v.data, s);
    case ATime(t) => UIntLE(v.data);
    case _ =>
  }

  /** A list clears its register with opcode 14 and is filled entry by entry: item and
      index in the two registers above, then opcode 47. */
  lemma ListText(reg: nat, items: seq<Arg>)
    requires reg < REGISTERS && !Load(reg, AList(items)).failed
    ensures reg + 2 < REGISTERS
    ensures Load(reg, AList(items)).code == [14, reg, reg, 0] + EntriesText(reg, items, |items|)
  {
    EntriesMatch(reg, items, 0);
    assert items[0..] == items;
  }

  /** The code for the last n items. */
  function EntriesText(reg: nat, items: seq<Arg>, n: nat): bytes
    requires reg + 2 < REGISTERS && n <= |items|
    decreases n
  {
    if n == 0 then []
    else
      var i := |items| - n;
      EntryText(reg, items[i], i) + EntriesText(reg, items, n - 1)
  }

  function EntryText(reg: nat, item: Arg, index: nat): bytes
    requires reg + 2 < REGISTERS
  {
    Load(reg + 1, item).code + (Load(reg + 2, ANum(index)).code + [47, reg + 1, reg, reg + 2])
  }

  lemma EntryMatches(reg: nat, item: Arg, index: nat)
    requires reg + 2 < REGISTERS
    ensures ItemCode(reg, item, index).code == EntryText(reg, item, index)
  {
  }

  lemma {:induction false} EntriesMatch(reg: nat, items: seq<Arg>, i: nat)
    requires reg + 2 < REGISTERS && i <= |items|
    ensures LoadItems(reg, items[i..], i).code == EntriesText(reg, items, |items| - i)
    decreases |items| - i
  {
    hide ItemCode, EntryText, Load;
    if i < |items| {
      EntriesMatch(reg, items, i + 1);
      assert items[i..][0] == items[i] && items[i..][1..] == items[i + 1..];
      EntryMatches(reg, items[i], i);
    }
  }

  /** Arguments are loaded into register 0 and pushed with opcode 3, last to first. */
  lemma ArgsText(first: Arg, others: seq<Arg>)
    ensures InsertArgs([]).code == []
    ensures InsertArgs([first] + others).code == InsertArgs(others).code + Load(0, first).code + [3, 0]
  {
    assert ([first] + others)[1..] == others;
  }
}
