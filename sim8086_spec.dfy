/**
 * The execution engine of sim8086_example.js as functions on a value-level CPU
 * state. The decoding addon is an oracle: it hands over, for the bytes from
 * ip on, an instruction kind, a size, a mnemonic and operands with register
 * names already resolved.
 */
module Sim8086Spec {
  import opened Wrappers
  import opened Tables

  /** The length of the Uint8Array that backs the CPU's memory. */
  const MemorySize: nat := 0xffff

  /**
   * A JavaScript number as the engine sees it. `Undefined` stands for a read
   * of a register or byte that does not exist and for the NaN such a read
   * turns into under `+`; bitwise operators turn it into 0.
   */
  datatype Value = Num(n: int) | Undefined

  function Plus(a: Value, b: Value): (r: Value)
    ensures r.Num? <==> a.Num? && b.Num?
  {
    if a.Num? && b.Num? then Num(a.n + b.n) else Undefined
  }

  function Minus(a: Value, b: Value): (r: Value)
    ensures r.Num? <==> a.Num? && b.Num?
  {
    if a.Num? && b.Num? then Num(a.n - b.n) else Undefined
  }

  /** `v & 0xffff`: two's-complement low 16 bits; undefined and NaN give 0. */
  function Low16(v: Value): (r: nat)
    ensures r < 0x10000
    ensures v.Num? && 0 <= v.n < 0x10000 ==> r == v.n
    ensures v.Undefined? ==> r == 0
  {
    if v.Num? then v.n % 0x10000 else 0
  }

  /** `v & 0xff`. */
  function LowByte(v: Value): (r: Byte)
    ensures v.Num? && 0 <= v.n < 0x100 ==> r == v.n
  {
    if v.Num? then v.n % 0x100 else 0
  }

  /** `(v >> 8) & 0xff`: arithmetic shift, so a negative value keeps its high bits. */
  function SecondByte(v: Value): Byte
  {
    if v.Num? then (v.n / 0x100) % 0x100 else 0
  }

  /** A memory operand: two base register names ("" for none) and a displacement. */
  datatype Address = Address(base1: string, base2: string, displacement: int)

  /** The operand kinds the addon reports: Type 0 (none), 1, 2 and 3. */
  datatype Operand =
    | NoOperand
    | RegisterOperand(name: string)
    | MemoryOperand(address: Address)
    | ImmediateOperand(value: int)

  function TypeOf(op: Operand): nat
  {
    match op
    case NoOperand => 0
    case RegisterOperand(_) => 1
    case MemoryOperand(_) => 2
    case ImmediateOperand(_) => 3
  }

  /** The exceptions the engine throws. */
  datatype Error =
    | UnknownOperandType(operandType: nat)  // `Unknown operand type: ${operand.Type}`
    | MissingOperand(index: nat)            // a TypeError reading a field of operands[index]
    | MissingImmediate                      // a TypeError reading `.Immediate.Value` of a non-immediate

  /** The `cpu` record: registers, the two flags and the memory bytes. */
  datatype State = State(registers: map<string, int>, zf: nat, sf: nat, memory: seq<Byte>)

  /** The invariant every state reached from createCPU keeps. */
  predicate Valid(s: State)
  {
    "ip" in s.registers && |s.memory| == MemorySize && s.zf < 2 && s.sf < 2
  }

  const RegisterNames: seq<string> := ["ax", "bx", "cx", "dx", "sp", "bp", "si", "di", "ip"]

  /** createCPU. */
  function CreateCpu(): State
  {
    State(map["ax" := 0, "bx" := 0, "cx" := 0, "dx" := 0, "sp" := 0, "bp" := 0, "si" := 0, "di" := 0, "ip" := 0],
          0, 0, seq(MemorySize, _ => 0))
  }

  /** createCPU starts with the nine registers, both flags and every memory byte at zero. */
  lemma CreateCpuState()
    ensures Valid(CreateCpu())
    ensures forall name :: name in CreateCpu().registers <==> name in RegisterNames
    ensures forall name :: name in CreateCpu().registers ==> CreateCpu().registers[name] == 0
    ensures forall i :: 0 <= i < |CreateCpu().memory| ==> CreateCpu().memory[i] == 0
  {
  }

  function Ip(s: State): int
    requires Valid(s)
  {
    s.registers["ip"]
  }

  /** getRegister: `cpu.registers[name]`, undefined for a name it does not hold. */
  function GetRegister(s: State, name: string): (r: Value)
    ensures r.Num? <==> name in s.registers
  {
    if name in s.registers then Num(s.registers[name]) else Undefined
  }

  /** setRegister: stores `value & 0xffff`; nothing else changes. */
  function SetRegister(s: State, name: string, value: Value): (r: State)
    ensures name in r.registers && 0 <= r.registers[name] < 0x10000
    ensures r.registers[name] == Low16(value)
    ensures forall other :: other != name ==> GetRegister(r, other) == GetRegister(s, other)
    ensures r.zf == s.zf && r.sf == s.sf && r.memory == s.memory
    ensures Valid(s) ==> Valid(r)
  {
    s.(registers := s.registers[name := Low16(value)])
  }

  /** A base register term: the empty name contributes 0, a name the registers lack is undefined. */
  function BaseValue(s: State, name: string): (r: Value)
    ensures name == "" ==> r == Num(0)
    ensures name != "" ==> r == GetRegister(s, name)
  {
    if name == "" then Num(0) else GetRegister(s, name)
  }

  /** calculateAddress: base1 + base2 + displacement. */
  function CalculateAddress(s: State, a: Address): (r: Value)
    ensures r.Num? <==> BaseValue(s, a.base1).Num? && BaseValue(s, a.base2).Num?
    ensures r.Num? ==> r.n == BaseValue(s, a.base1).n + BaseValue(s, a.base2).n + a.displacement
  {
    Plus(Plus(BaseValue(s, a.base1), BaseValue(s, a.base2)), Num(a.displacement))
  }

  predicate InMemory(memory: seq<Byte>, at: Value)
  {
    at.Num? && 0 <= at.n < |memory|
  }

  /** `memory[at]` under a bitwise operator: a read outside the array is undefined, which counts as 0. */
  function ByteAt(memory: seq<Byte>, at: Value): (r: Byte)
    ensures InMemory(memory, at) ==> r == memory[at.n]
    ensures !InMemory(memory, at) ==> r == 0
  {
    if InMemory(memory, at) then memory[at.n] else 0
  }

  /** `memory[at] = b`: a typed array ignores writes outside its bounds. */
  function StoreByte(memory: seq<Byte>, at: Value, b: Byte): (r: seq<Byte>)
    ensures |r| == |memory|
    ensures InMemory(memory, at) ==> r[at.n] == b
  {
    if InMemory(memory, at) then memory[at.n := b] else memory
  }

  /** The 16-bit little-endian word at `at`, with missing bytes read as 0. */
  function ReadWord(memory: seq<Byte>, at: Value): (r: nat)
    ensures r < 0x10000
    ensures at.Num? && 0 <= at.n && at.n + 1 < |memory| ==> r == memory[at.n] as int + 0x100 * memory[at.n + 1] as int
    ensures at.Num? && 0 <= at.n && at.n + 1 == |memory| ==> r == memory[at.n] as int
  {
    assert at.Num? ==> Plus(at, Num(1)) == Num(at.n + 1);
    ByteAt(memory, at) + 0x100 * ByteAt(memory, Plus(at, Num(1)))
  }

  /** getMemory: `memory[r] | (memory[r + 1] << 8)` at the operand's address. */
  function GetMemory(s: State, a: Address): (r: Value)
    ensures r.Num? && 0 <= r.n < 0x10000
    ensures r == Num(ReadWord(s.memory, CalculateAddress(s, a)))
  {
    Num(ReadWord(s.memory, CalculateAddress(s, a)))
  }

  /** The two bytes a 16-bit write at `at` covers. */
  predicate Touches(at: Value, i: int)
  {
    at.Num? && (i == at.n || i == at.n + 1)
  }

  /** The low byte of `value` at `at`, its second byte at `at + 1`; stores outside the memory are dropped. */
  function WriteWord(memory: seq<Byte>, at: Value, value: Value): (r: seq<Byte>)
    ensures |r| == |memory|
    ensures InMemory(memory, at) ==> r[at.n] == LowByte(value)
    ensures at.Num? && 0 <= at.n + 1 < |memory| ==> r[at.n + 1] == SecondByte(value)
    ensures forall i :: 0 <= i < |memory| && !Touches(at, i) ==> r[i] == memory[i]
  {
    assert at.Num? ==> Plus(at, Num(1)) == Num(at.n + 1);
    StoreByte(StoreByte(memory, at, LowByte(value)), Plus(at, Num(1)), SecondByte(value))
  }

  /** setMemory: writes the word at the operand's address; registers and flags stay. */
  function SetMemory(s: State, a: Address, value: Value): (r: State)
    ensures r.registers == s.registers && r.zf == s.zf && r.sf == s.sf
    ensures r.memory == WriteWord(s.memory, CalculateAddress(s, a), value)
  {
    s.(memory := WriteWord(s.memory, CalculateAddress(s, a), value))
  }

  /** updateFlags: zf is 1 exactly for zero, sf is bit 15. */
  function UpdateFlags(s: State, value: int): (r: State)
    ensures r.zf == 1 <==> value == 0
    ensures r.sf == 1 <==> value % 0x10000 >= 0x8000
    ensures r.zf < 2 && r.sf < 2
    ensures r.registers == s.registers && r.memory == s.memory
    ensures Valid(s) ==> Valid(r)
  {
    Bit15(value);
    s.(zf := if value == 0 then 1 else 0, sf := if (value / 0x8000) % 2 == 1 then 1 else 0)
  }

  /** Bit 15 of a two's-complement integer is set exactly when its low 16 bits are at least 0x8000. */
  lemma Bit15(value: int)
    ensures (value / 0x8000) % 2 == 1 <==> value % 0x10000 >= 0x8000
  {
    var q := value / 0x10000;
    var r := value % 0x10000;
    assert value == 0x10000 * q + r;
    assert value / 0x8000 == 2 * q + r / 0x8000;
  }

  /** getOperandValue. */
  function GetOperandValue(s: State, op: Operand): (r: Result<Value, Error>)
    ensures r.Err? <==> op.NoOperand?
    ensures r.Err? ==> r.error == UnknownOperandType(0)
    ensures op.ImmediateOperand? ==> r == Ok(Num(op.value))
  {
    match op
    case RegisterOperand(name) => Ok(GetRegister(s, name))
    case MemoryOperand(a) => Ok(GetMemory(s, a))
    case ImmediateOperand(v) => Ok(Num(v))
    case NoOperand => Err(UnknownOperandType(0))
  }

  /** setOperandValue: only a register or a memory operand can be written. */
  function SetOperandValue(s: State, op: Operand, value: Value): (r: Result<State, Error>)
    ensures r.Ok? <==> op.RegisterOperand? || op.MemoryOperand?
    ensures r.Err? ==> r.error == UnknownOperandType(TypeOf(op))
    ensures r.Ok? ==> r.value.zf == s.zf && r.value.sf == s.sf
    ensures r.Ok? && Valid(s) ==> Valid(r.value)
  {
    match op
    case RegisterOperand(name) => Ok(SetRegister(s, name, value))
    case MemoryOperand(a) => Ok(SetMemory(s, a, value))
    case _ => Err(UnknownOperandType(TypeOf(op)))
  }

  /** `operands[i]`: reading a field of a missing operand throws. */
  function OperandAt(operands: seq<Operand>, i: nat): (r: Result<Operand, Error>)
    ensures r.Ok? <==> i < |operands|
  {
    if i < |operands| then Ok(operands[i]) else Err(MissingOperand(i))
  }

  /** The three arithmetic handlers; they share one body up to the operator and the store. */
  datatype ArithmeticOp = AddOp | SubOp | CmpOp

  /** The handlers of the `instructions` table; jne and jnz have the same body. */
  datatype Handler = MovHandler | ArithmeticHandler(op: ArithmeticOp) | JumpHandler

  /** A three-letter name, compared letter by letter. */
  predicate Spelled(name: string, a: char, b: char, c: char)
  {
    |name| == 3 && name[0] == a && name[1] == b && name[2] == c
  }

  /** `instructions[mnemonic]`; every key of the table has three letters. */
  function HandlerOf(mnemonic: string): Option<Handler>
  {
    if Spelled(mnemonic, 'm', 'o', 'v') then Some(MovHandler)
    else if Spelled(mnemonic, 'a', 'd', 'd') then Some(ArithmeticHandler(AddOp))
    else if Spelled(mnemonic, 's', 'u', 'b') then Some(ArithmeticHandler(SubOp))
    else if Spelled(mnemonic, 'c', 'm', 'p') then Some(ArithmeticHandler(CmpOp))
    else if Spelled(mnemonic, 'j', 'n', 'e') || Spelled(mnemonic, 'j', 'n', 'z') then Some(JumpHandler)
    else None
  }

  lemma SpelledIs(name: string, a: char, b: char, c: char)
    ensures Spelled(name, a, b, c) <==> name == [a, b, c]
  {
    if Spelled(name, a, b, c) {
      assert name == [name[0], name[1], name[2]];
    }
  }

  /** The handler table: which name selects which handler, and that no other name has one. */
  lemma InstructionTable(mnemonic: string)
    ensures HandlerOf(mnemonic) == Some(MovHandler) <==> mnemonic == "mov"
    ensures HandlerOf(mnemonic) == Some(ArithmeticHandler(AddOp)) <==> mnemonic == "add"
    ensures HandlerOf(mnemonic) == Some(ArithmeticHandler(SubOp)) <==> mnemonic == "sub"
    ensures HandlerOf(mnemonic) == Some(ArithmeticHandler(CmpOp)) <==> mnemonic == "cmp"
    ensures HandlerOf(mnemonic) == Some(JumpHandler) <==> mnemonic == "jne" || mnemonic == "jnz"
    ensures HandlerOf(mnemonic).Some? <==> mnemonic in {"mov", "add", "sub", "cmp", "jne", "jnz"}
  {
    SpelledIs(mnemonic, 'm', 'o', 'v');
    SpelledIs(mnemonic, 'a', 'd', 'd');
    SpelledIs(mnemonic, 's', 'u', 'b');
    SpelledIs(mnemonic, 'c', 'm', 'p');
    SpelledIs(mnemonic, 'j', 'n', 'e');
    SpelledIs(mnemonic, 'j', 'n', 'z');
  }

  /**
   * mov: read the source, then write it to the destination. It succeeds
   * exactly when both operands are there, the source is readable and the
   * destination writable; what it stores is stated by MovEffect.
   */
  function Mov(s: State, operands: seq<Operand>): (r: Result<State, Error>)
    ensures r.Ok? ==> r.value.zf == s.zf && r.value.sf == s.sf
    ensures r.Ok? && Valid(s) ==> Valid(r.value)
  {
    match OperandAt(operands, 1)
    case Err(e) => Err(e)
    case Ok(srcOp) =>
      match GetOperandValue(s, srcOp)
      case Err(e) => Err(e)
      case Ok(value) =>
        match OperandAt(operands, 0)
        case Err(e) => Err(e)
        case Ok(destOp) => SetOperandValue(s, destOp, value)
  }

  /** `(dest + src) & 0xffff` for add, `(dest - src) & 0xffff` for sub and cmp; 0 when an operand cannot be read. */
  function ArithmeticResult(s: State, op: ArithmeticOp, destOp: Operand, srcOp: Operand): (r: nat)
    ensures r < 0x10000
  {
    var dest, src := GetOperandValue(s, destOp), GetOperandValue(s, srcOp);
    if dest.Err? || src.Err? then 0
    else Low16(if op == AddOp then Plus(dest.value, src.value) else Minus(dest.value, src.value))
  }

  /**
   * add, sub and cmp: source read first, then destination. The result is the
   * sum or difference masked to 16 bits; add and sub store it into the
   * destination, cmp stores nothing, and all three set zf and sf from it
   * (ArithmeticEffect).
   */
  function Arithmetic(s: State, op: ArithmeticOp, operands: seq<Operand>): (r: Result<State, Error>)
    ensures r.Ok? && Valid(s) ==> Valid(r.value)
  {
    match OperandAt(operands, 1)
    case Err(e) => Err(e)
    case Ok(srcOp) =>
      match GetOperandValue(s, srcOp)
      case Err(e) => Err(e)
      case Ok(src) =>
        match OperandAt(operands, 0)
        case Err(e) => Err(e)
        case Ok(destOp) =>
          match GetOperandValue(s, destOp)
          case Err(e) => Err(e)
          case Ok(dest) =>
            var result := Low16(if op == AddOp then Plus(dest, src) else Minus(dest, src));
            if op == CmpOp then Ok(UpdateFlags(s, result))
            else
              match SetOperandValue(s, destOp, Num(result))
              case Err(e) => Err(e)
              case Ok(s') => Ok(UpdateFlags(s', result))
  }

  /** jne and jnz: when zf is 0, ip grows by the immediate of the first operand. */
  function Jump(s: State, operands: seq<Operand>): (r: Result<State, Error>)
    requires Valid(s)
    ensures r.Ok? ==> Valid(r.value) && r.value.zf == s.zf && r.value.sf == s.sf && r.value.memory == s.memory
  {
    if s.zf != 0 then Ok(s)
    else if |operands| == 0 then Err(MissingOperand(0))
    else if !operands[0].ImmediateOperand? then Err(MissingImmediate)
    else Ok(s.(registers := s.registers["ip" := Ip(s) + operands[0].value]))
  }

  /** executeInstruction: the handler for the mnemonic, or nothing for a mnemonic without one. */
  function Execute(s: State, mnemonic: string, operands: seq<Operand>): (r: Result<State, Error>)
    requires Valid(s)
    ensures r.Ok? ==> Valid(r.value)
    ensures HandlerOf(mnemonic).None? ==> r == Ok(s)
  {
    match HandlerOf(mnemonic)
    case None => Ok(s)
    case Some(MovHandler) => Mov(s, operands)
    case Some(ArithmeticHandler(op)) => Arithmetic(s, op, operands)
    case Some(JumpHandler) => Jump(s, operands)
  }

  /** What the addon's decode8086Instruction reports for the bytes from ip on. */
  datatype Decoded = Decoded(kind: nat, size: nat, mnemonic: string, operands: seq<Operand>)

  /** `instructionBytes.slice(ip)` for an ip below the length: a negative start counts from the end. */
  function SliceFrom(bytes: seq<Byte>, start: int): (r: seq<Byte>)
    requires start < |bytes|
    ensures |r| <= |bytes|
  {
    if start >= 0 then bytes[start..]
    else if |bytes| + start >= 0 then bytes[|bytes| + start..]
    else bytes
  }

  /** How the decodeAndExecute loop ends. */
  datatype Outcome =
    | Halted          // ip reached the end of the bytes
    | Unrecognized    // the decoder reported Type 0
    | Failed(e: Error)
    | OutOfSteps      // the step bound of the model ran out first

  /** decodeAndExecute, with at most `fuel` instructions executed. */
  function Run(s: State, bytes: seq<Byte>, decode: seq<Byte> -> Decoded, fuel: nat): (r: (Outcome, State))
    requires Valid(s)
    ensures Valid(r.1)
    ensures r.0 == Halted ==> Ip(r.1) >= |bytes|
    decreases fuel, 1
  {
    if Ip(s) >= |bytes| then (Halted, s)
    else if fuel == 0 then (OutOfSteps, s)
    else
      var d := decode(SliceFrom(bytes, Ip(s)));
      if d.kind == 0 then (Unrecognized, s)
      else
        var advanced := Advance(s, d.size);
        Resume(Execute(advanced, d.mnemonic, d.operands), advanced, bytes, decode, fuel)
  }

  /**
   * The rest of a loop turn, once ip has moved past the instruction and its
   * handler has run: the loop goes on from the new state with one step fewer,
   * or ends with the error the handler threw.
   */
  function Resume(executed: Result<State, Error>, advanced: State, bytes: seq<Byte>, decode: seq<Byte> -> Decoded, fuel: nat)
      : (r: (Outcome, State))
    requires Valid(advanced) && fuel > 0
    requires executed.Ok? ==> Valid(executed.value)
    ensures Valid(r.1)
    ensures r.0 == Halted ==> Ip(r.1) >= |bytes|
    ensures executed.Err? ==> r == (Failed(executed.error), advanced)
    decreases fuel, 0
  {
    match executed
    case Err(e) => (Failed(e), advanced)
    case Ok(next) => Run(next, bytes, decode, fuel - 1)
  }

  /** `cpu.registers.ip += size`, before the handler runs. */
  function Advance(s: State, size: nat): (r: State)
    requires Valid(s)
    ensures Valid(r) && Ip(r) == Ip(s) + size
  {
    s.(registers := s.registers["ip" := Ip(s) + size])
  }

  /** The state after one executeInstruction call: the new state, or the old one with the error thrown. */
  function Effect(r: Result<State, Error>, s: State): (Option<Error>, State)
  {
    match r
    case Ok(s') => (None, s')
    case Err(e) => (Some(e), s)
  }

  // -----------------------------------------------------------------------
  // Properties of the engine.

  /** The low and the high byte of a value together make its low 16 bits. */
  lemma BytesMakeLow16(v: Value)
    ensures LowByte(v) + 0x100 * SecondByte(v) == Low16(v)
  {
    if v.Num? {
      var n := v.n;
      var q, r := n / 0x10000, n % 0x10000;
      var h, l := r / 0x100, r % 0x100;
      assert n == 0x10000 * q + 0x100 * h + l;
      assert n / 0x100 == 0x100 * q + h;
      assert (n / 0x100) % 0x100 == h;
      assert n % 0x100 == l;
    }
  }

  /** The address of an operand depends on the registers only. */
  lemma AddressOfRegisters(s: State, s': State, a: Address)
    requires s'.registers == s.registers
    ensures CalculateAddress(s', a) == CalculateAddress(s, a)
  {
    assert BaseValue(s', a.base1) == BaseValue(s, a.base1);
    assert BaseValue(s', a.base2) == BaseValue(s, a.base2);
  }

  /**
   * setMemory then getMemory at the same address gives back `value & 0xffff`
   * when both bytes fall inside the memory.
   */
  lemma MemoryRoundTrip(s: State, a: Address, value: Value)
    requires Valid(s)
    requires CalculateAddress(s, a).Num?
    requires 0 <= CalculateAddress(s, a).n && CalculateAddress(s, a).n + 1 < MemorySize
    ensures GetMemory(SetMemory(s, a, value), a) == Num(Low16(value))
  {
    AddressOfRegisters(s, SetMemory(s, a, value), a);
    WordRoundTrip(s.memory, CalculateAddress(s, a), value);
  }

  lemma WordRoundTrip(memory: seq<Byte>, at: Value, value: Value)
    requires at.Num? && 0 <= at.n && at.n + 1 < |memory|
    ensures ReadWord(WriteWord(memory, at, value), at) == Low16(value)
  {
    BytesMakeLow16(value);
  }

  /** The last byte of memory takes the low byte; the high byte written past the end is lost. */
  lemma MemoryLastByte(s: State, a: Address, value: Value)
    requires Valid(s)
    requires CalculateAddress(s, a) == Num(MemorySize - 1)
    ensures GetMemory(SetMemory(s, a, value), a) == Num(LowByte(value))
  {
    AddressOfRegisters(s, SetMemory(s, a, value), a);
  }

  /** mov writes the source value, masked by its destination, and leaves the flags alone. */
  lemma MovToRegister(s: State, dest: string, src: Operand)
    requires Valid(s) && !src.NoOperand?
    ensures var value := GetOperandValue(s, src).value;
            Execute(s, "mov", [RegisterOperand(dest), src]) == Ok(SetRegister(s, dest, value))
  {
    var operands := [RegisterOperand(dest), src];
    assert HandlerOf("mov") == Some(MovHandler);
    assert Execute(s, "mov", operands) == Mov(s, operands);
    assert OperandAt(operands, 1) == Ok(src) && OperandAt(operands, 0) == Ok(RegisterOperand(dest));
  }

  /**
   * What mov does: it succeeds exactly when both operands are there, the
   * source is readable and the destination is a register or memory. Then a
   * register destination holds the source value masked to 16 bits, a memory
   * destination the source's two bytes at its address, and the flags stay.
   */
  lemma MovEffect(s: State, operands: seq<Operand>)
    ensures Mov(s, operands).Ok? <==>
              |operands| >= 2 && !operands[1].NoOperand? && (operands[0].RegisterOperand? || operands[0].MemoryOperand?)
    ensures Mov(s, operands).Ok? ==>
              var r, value := Mov(s, operands).value, GetOperandValue(s, operands[1]).value;
              && r.zf == s.zf && r.sf == s.sf
              && (operands[0].RegisterOperand? ==>
                    r.registers == s.registers[operands[0].name := Low16(value)] && r.memory == s.memory)
              && (operands[0].MemoryOperand? ==>
                    r.registers == s.registers
                    && r.memory == WriteWord(s.memory, CalculateAddress(s, operands[0].address), value))
  {
  }

  /**
   * What add, sub and cmp do: they succeed exactly when both operands are
   * there and readable and, except for cmp, the destination is a register or
   * memory. Then zf and sf come from the masked result; add and sub store it
   * into the register or at the memory address; cmp keeps the registers and
   * the memory.
   */
  lemma ArithmeticEffect(s: State, op: ArithmeticOp, operands: seq<Operand>)
    ensures Arithmetic(s, op, operands).Ok? <==>
              |operands| >= 2 && !operands[1].NoOperand? && !operands[0].NoOperand?
              && (op == CmpOp || operands[0].RegisterOperand? || operands[0].MemoryOperand?)
    ensures Arithmetic(s, op, operands).Ok? ==>
              var r, result := Arithmetic(s, op, operands).value, ArithmeticResult(s, op, operands[0], operands[1]);
              && (r.zf == 1 <==> result == 0) && (r.sf == 1 <==> result >= 0x8000)
              && (op == CmpOp ==> r.registers == s.registers && r.memory == s.memory)
              && (op != CmpOp && operands[0].RegisterOperand? ==>
                    r.registers == s.registers[operands[0].name := result] && r.memory == s.memory)
              && (op != CmpOp && operands[0].MemoryOperand? ==>
                    r.registers == s.registers
                    && r.memory == WriteWord(s.memory, CalculateAddress(s, operands[0].address), Num(result)))
  {
    ArithmeticSucceeds(s, op, operands);
    if Arithmetic(s, op, operands).Ok? {
      ArithmeticFlags(s, op, operands);
      ArithmeticStores(s, op, operands);
    }
  }

  lemma ArithmeticSucceeds(s: State, op: ArithmeticOp, operands: seq<Operand>)
    ensures Arithmetic(s, op, operands).Ok? <==>
              |operands| >= 2 && !operands[1].NoOperand? && !operands[0].NoOperand?
              && (op == CmpOp || operands[0].RegisterOperand? || operands[0].MemoryOperand?)
  {
    if |operands| >= 2 && !operands[1].NoOperand? && !operands[0].NoOperand? {
      ArithmeticUnfold(s, op, operands);
    }
  }

  lemma ArithmeticFlags(s: State, op: ArithmeticOp, operands: seq<Operand>)
    requires |operands| >= 2 && !operands[1].NoOperand? && !operands[0].NoOperand?
    requires Arithmetic(s, op, operands).Ok?
    ensures var r, result := Arithmetic(s, op, operands).value, ArithmeticResult(s, op, operands[0], operands[1]);
            (r.zf == 1 <==> result == 0) && (r.sf == 1 <==> result >= 0x8000)
  {
    ArithmeticUnfold(s, op, operands);
    var result := ArithmeticResult(s, op, operands[0], operands[1]);
    SixteenBitsKept(result);
    if op != CmpOp {
      var stored := SetOperandValue(s, operands[0], Num(result)).value;
      assert Arithmetic(s, op, operands) == Ok(UpdateFlags(stored, result));
    }
  }

  lemma SixteenBitsKept(x: int)
    requires 0 <= x < 0x10000
    ensures x % 0x10000 == x
  {
  }

  lemma ArithmeticStores(s: State, op: ArithmeticOp, operands: seq<Operand>)
    requires |operands| >= 2 && !operands[1].NoOperand? && !operands[0].NoOperand?
    requires Arithmetic(s, op, operands).Ok?
    ensures var r, result := Arithmetic(s, op, operands).value, ArithmeticResult(s, op, operands[0], operands[1]);
            && (op == CmpOp ==> r.registers == s.registers && r.memory == s.memory)
            && (op != CmpOp && operands[0].RegisterOperand? ==>
                  r.registers == s.registers[operands[0].name := result] && r.memory == s.memory)
            && (op != CmpOp && operands[0].MemoryOperand? ==>
                  r.registers == s.registers
                  && r.memory == WriteWord(s.memory, CalculateAddress(s, operands[0].address), Num(result)))
  {
    ArithmeticUnfold(s, op, operands);
  }

  /** The arithmetic handler once both operands are known to be readable. */
  lemma ArithmeticUnfold(s: State, op: ArithmeticOp, operands: seq<Operand>)
    requires |operands| >= 2 && !operands[1].NoOperand? && !operands[0].NoOperand?
    ensures var result := ArithmeticResult(s, op, operands[0], operands[1]);
            Arithmetic(s, op, operands) ==
              if op == CmpOp then Ok(UpdateFlags(s, result))
              else match SetOperandValue(s, operands[0], Num(result))
                   case Err(e) => Err(e)
                   case Ok(s') => Ok(UpdateFlags(s', result))
  {
    assert OperandAt(operands, 1) == Ok(operands[1]) && OperandAt(operands, 0) == Ok(operands[0]);
  }

  /** mov into memory writes the source value's two bytes at the operand's address and keeps the registers. */
  lemma MovToMemory(s: State, a: Address, src: Operand)
    requires Valid(s) && !src.NoOperand?
    ensures var value := GetOperandValue(s, src).value;
            Execute(s, "mov", [MemoryOperand(a), src]) == Ok(SetMemory(s, a, value))
  {
    var operands := [MemoryOperand(a), src];
    assert HandlerOf("mov") == Some(MovHandler);
    assert Execute(s, "mov", operands) == Mov(s, operands);
    assert OperandAt(operands, 1) == Ok(src) && OperandAt(operands, 0) == Ok(MemoryOperand(a));
  }

  /**
   * After mov the destination reads back as the source value masked to 16
   * bits: always for a register, and for memory when both bytes lie inside it.
   */
  lemma MovCopies(s: State, operands: seq<Operand>)
    requires Valid(s)
    requires Execute(s, "mov", operands).Ok?
    ensures var r := Execute(s, "mov", operands).value;
            var dest, value := operands[0], GetOperandValue(s, operands[1]).value;
            var at := if dest.MemoryOperand? then CalculateAddress(s, dest.address) else Num(0);
            dest.RegisterOperand? || (at.Num? && 0 <= at.n && at.n + 1 < MemorySize) ==>
              GetOperandValue(r, dest) == Ok(Num(Low16(value)))
  {
    assert HandlerOf("mov") == Some(MovHandler);
    var dest, src := operands[0], operands[1];
    var value := GetOperandValue(s, src).value;
    if dest.MemoryOperand? {
      MovToMemory(s, dest.address, src);
      assert Execute(s, "mov", operands) == Execute(s, "mov", [dest, src]) by {
        assert operands[..2] == [dest, src];
      }
      var at := CalculateAddress(s, dest.address);
      if at.Num? && 0 <= at.n && at.n + 1 < MemorySize {
        MemoryRoundTrip(s, dest.address, value);
      }
    }
  }

  lemma MovLeavesFlags(s: State, operands: seq<Operand>)
    requires Valid(s)
    requires Execute(s, "mov", operands).Ok?
    ensures Execute(s, "mov", operands).value.zf == s.zf
    ensures Execute(s, "mov", operands).value.sf == s.sf
  {
    assert HandlerOf("mov") == Some(MovHandler);
  }

  /**
   * add and sub on a register destination store the 16-bit wrapped sum or
   * difference and set zf and sf from it.
   */
  lemma ArithmeticOnRegister(s: State, mnemonic: string, dest: string, src: Operand)
    requires Valid(s)
    requires mnemonic == "add" || mnemonic == "sub"
    requires dest in s.registers && !src.NoOperand? && GetOperandValue(s, src).value.Num?
    ensures var d, v := s.registers[dest], GetOperandValue(s, src).value.n;
            var result := (if mnemonic == "add" then d + v else d - v) % 0x10000;
            var r := Execute(s, mnemonic, [RegisterOperand(dest), src]);
            && r.Ok?
            && r.value.registers == s.registers[dest := result]
            && r.value.memory == s.memory
            && (r.value.zf == 1 <==> result == 0)
            && (r.value.sf == 1 <==> result >= 0x8000)
  {
    var op := if mnemonic == "add" then AddOp else SubOp;
    assert HandlerOf(mnemonic) == Some(ArithmeticHandler(op));
    var v := GetOperandValue(s, src).value;
    var d := GetRegister(s, dest);
    var result := Low16(if op == AddOp then Plus(d, v) else Minus(d, v));
    assert Arithmetic(s, op, [RegisterOperand(dest), src]) == Ok(UpdateFlags(SetRegister(s, dest, Num(result)), result));
  }

  /**
   * add and sub on a memory destination store the 16-bit wrapped result at
   * the operand's address, keep the registers, and set zf and sf from it;
   * the stored word reads back when both bytes lie inside memory.
   */
  lemma ArithmeticOnMemory(s: State, mnemonic: string, a: Address, src: Operand)
    requires Valid(s)
    requires mnemonic == "add" || mnemonic == "sub"
    requires !src.NoOperand?
    ensures var d, v := GetMemory(s, a), GetOperandValue(s, src).value;
            var result := Low16(if mnemonic == "add" then Plus(d, v) else Minus(d, v));
            var r := Execute(s, mnemonic, [MemoryOperand(a), src]);
            var at := CalculateAddress(s, a);
            && r.Ok?
            && r.value.registers == s.registers
            && r.value.memory == WriteWord(s.memory, at, Num(result))
            && (r.value.zf == 1 <==> result == 0)
            && (r.value.sf == 1 <==> result >= 0x8000)
            && (at.Num? && 0 <= at.n && at.n + 1 < MemorySize ==> GetMemory(r.value, a) == Num(result))
  {
    var op := if mnemonic == "add" then AddOp else SubOp;
    var operands := [MemoryOperand(a), src];
    assert HandlerOf(mnemonic) == Some(ArithmeticHandler(op));
    assert Execute(s, mnemonic, operands) == Arithmetic(s, op, operands);
    assert GetOperandValue(s, MemoryOperand(a)) == Ok(GetMemory(s, a));
    ArithmeticEffect(s, op, operands);
    var r, result := Arithmetic(s, op, operands).value, ArithmeticResult(s, op, MemoryOperand(a), src);
    StoredWordReadsBack(s, r, a, result);
  }

  /** A state whose memory is `s`'s with a 16-bit word written at the address, and whose registers are `s`'s, reads that word back. */
  lemma StoredWordReadsBack(s: State, r: State, a: Address, result: nat)
    requires result < 0x10000
    requires r.registers == s.registers && r.memory == WriteWord(s.memory, CalculateAddress(s, a), Num(result))
    ensures var at := CalculateAddress(s, a);
            at.Num? && 0 <= at.n && at.n + 1 < |s.memory| ==> GetMemory(r, a) == Num(result)
  {
    var at := CalculateAddress(s, a);
    AddressOfRegisters(s, r, a);
    if at.Num? && 0 <= at.n && at.n + 1 < |s.memory| {
      WordRoundTrip(s.memory, at, Num(result));
    }
  }

  /** The cmp handler: both operands read, the flags set from their wrapped difference. */
  lemma CmpResult(s: State, operands: seq<Operand>)
    requires Arithmetic(s, CmpOp, operands).Ok?
    ensures |operands| >= 2 && !operands[0].NoOperand? && !operands[1].NoOperand?
    ensures Arithmetic(s, CmpOp, operands)
              == Ok(UpdateFlags(s, Low16(Minus(GetOperandValue(s, operands[0]).value, GetOperandValue(s, operands[1]).value))))
  {
  }

  /** Two 16-bit values have a zero wrapped difference exactly when they are equal. */
  lemma WrappedDifference(x: int, y: int)
    requires 0 <= x < 0x10000 && 0 <= y < 0x10000
    ensures Low16(Minus(Num(x), Num(y))) == 0 <==> x == y
  {
    var diff := x - y;
    if diff < 0 {
      assert diff % 0x10000 == diff + 0x10000;
    }
  }

  /** cmp changes the flags only; zf is set exactly when the two 16-bit operands are equal. */
  lemma CmpOnlyFlags(s: State, operands: seq<Operand>)
    requires Valid(s)
    requires Execute(s, "cmp", operands).Ok?
    ensures var r := Execute(s, "cmp", operands).value;
            r.registers == s.registers && r.memory == s.memory
    ensures var r := Execute(s, "cmp", operands).value;
            var dest := GetOperandValue(s, operands[0]).value;
            var src := GetOperandValue(s, operands[1]).value;
            dest.Num? && src.Num? && 0 <= dest.n < 0x10000 && 0 <= src.n < 0x10000 ==>
              (r.zf == 1 <==> dest.n == src.n)
  {
    assert HandlerOf("cmp") == Some(ArithmeticHandler(CmpOp));
    assert Execute(s, "cmp", operands) == Arithmetic(s, CmpOp, operands);
    CmpResult(s, operands);
    var dest := GetOperandValue(s, operands[0]).value;
    var src := GetOperandValue(s, operands[1]).value;
    if dest.Num? && src.Num? && 0 <= dest.n < 0x10000 && 0 <= src.n < 0x10000 {
      WrappedDifference(dest.n, src.n);
    }
  }

  /** jne and jnz add the displacement to ip exactly when zf is 0; nothing else changes. */
  lemma JumpIfNotZero(s: State, mnemonic: string, k: int)
    requires Valid(s) && (mnemonic == "jne" || mnemonic == "jnz")
    ensures var r := Execute(s, mnemonic, [ImmediateOperand(k)]);
            && r.Ok?
            && r.value.registers == s.registers["ip" := if s.zf == 0 then Ip(s) + k else Ip(s)]
            && r.value.zf == s.zf && r.value.sf == s.sf && r.value.memory == s.memory
  {
    assert HandlerOf(mnemonic) == Some(JumpHandler);
    if s.zf == 0 {
      assert Jump(s, [ImmediateOperand(k)]) == Ok(s.(registers := s.registers["ip" := Ip(s) + k]));
    } else {
      assert s.registers["ip" := Ip(s)] == s.registers;
    }
  }

  /**
   * What jne and jnz do: they succeed exactly when zf is set or the first
   * operand is an immediate; then ip grows by that immediate when zf is 0 and
   * stays otherwise, and everything else is kept.
   */
  lemma JumpEffect(s: State, operands: seq<Operand>)
    requires Valid(s)
    ensures Jump(s, operands).Ok? <==> s.zf != 0 || (|operands| > 0 && operands[0].ImmediateOperand?)
    ensures Jump(s, operands).Ok? ==>
              var r := Jump(s, operands).value;
              && r.registers == s.registers["ip" := if s.zf == 0 then Ip(s) + operands[0].value else Ip(s)]
              && r.zf == s.zf && r.sf == s.sf && r.memory == s.memory
  {
    if s.zf != 0 {
      assert s.registers["ip" := Ip(s)] == s.registers;
    }
  }

  /** An immediate destination throws before anything changes. */
  lemma ImmediateDestination(s: State, mnemonic: string, k: int, src: Operand)
    requires Valid(s) && (mnemonic == "mov" || mnemonic == "add" || mnemonic == "sub") && !src.NoOperand?
    ensures Execute(s, mnemonic, [ImmediateOperand(k), src]) == Err(UnknownOperandType(3))
  {
    if mnemonic == "mov" {
      assert HandlerOf(mnemonic) == Some(MovHandler);
    } else {
      assert HandlerOf(mnemonic) == Some(ArithmeticHandler(if mnemonic == "add" then AddOp else SubOp));
    }
  }

  /** A run that ended before its step bound ends the same way with a larger bound. */
  lemma {:induction false} RunMoreFuel(s: State, bytes: seq<Byte>, decode: seq<Byte> -> Decoded, fuel: nat, more: nat)
    requires Valid(s)
    requires Run(s, bytes, decode, fuel).0 != OutOfSteps
    ensures Run(s, bytes, decode, fuel + more) == Run(s, bytes, decode, fuel)
    decreases fuel, 1
  {
    if Ip(s) < |bytes| && fuel > 0 {
      var d := decode(SliceFrom(bytes, Ip(s)));
      if d.kind != 0 {
        var advanced := Advance(s, d.size);
        ResumeMoreFuel(Execute(advanced, d.mnemonic, d.operands), advanced, bytes, decode, fuel, more);
      }
    }
  }

  /** The same for the rest of a loop turn, whatever the handler returned. */
  lemma {:induction false} ResumeMoreFuel(executed: Result<State, Error>, advanced: State, bytes: seq<Byte>,
                                          decode: seq<Byte> -> Decoded, fuel: nat, more: nat)
    requires Valid(advanced) && fuel > 0
    requires executed.Ok? ==> Valid(executed.value)
    requires Resume(executed, advanced, bytes, decode, fuel).0 != OutOfSteps
    ensures Resume(executed, advanced, bytes, decode, fuel + more) == Resume(executed, advanced, bytes, decode, fuel)
    decreases fuel, 0
  {
    if executed.Ok? {
      RunMoreFuel(executed.value, bytes, decode, fuel - 1, more);
      assert fuel + more - 1 == fuel - 1 + more;
    }
  }

  /** One iteration of decodeAndExecute: ip moves past the instruction before its handler runs. */
  lemma RunStep(s: State, bytes: seq<Byte>, decode: seq<Byte> -> Decoded, fuel: nat)
    requires Valid(s) && Ip(s) < |bytes| && fuel > 0
    requires decode(SliceFrom(bytes, Ip(s))).kind != 0
    ensures var d := decode(SliceFrom(bytes, Ip(s)));
            var r := Execute(Advance(s, d.size), d.mnemonic, d.operands);
            && (r.Err? ==> Run(s, bytes, decode, fuel) == (Failed(r.error), Advance(s, d.size)))
            && (r.Ok? ==> Run(s, bytes, decode, fuel) == Run(r.value, bytes, decode, fuel - 1))
  {
    var d := decode(SliceFrom(bytes, Ip(s)));
    var advanced := Advance(s, d.size);
    assert Run(s, bytes, decode, fuel) == Resume(Execute(advanced, d.mnemonic, d.operands), advanced, bytes, decode, fuel);
  }
}
