/**
 * The `cpu` record of sim8086_example.js as an object updated in place: the
 * register dictionary and the flags are fields, the memory a fixed-size byte
 * array. Every method is tied to its function in Sim8086Spec; the properties
 * are proved there.
 */
module Sim8086 {
  import opened Wrappers
  import opened Tables
  import opened Sim8086Spec

  class Cpu {
    var registers: map<string, int>
    var zf: nat
    var sf: nat
    const memory: array<Byte>

    /** The value-level view of the object. */
    function Snapshot(): State
      reads this, memory
    {
      State(registers, zf, sf, memory[..])
    }

    predicate Ok()
      reads this, memory
    {
      Valid(Snapshot())
    }

    /** createCPU. */
    constructor ()
      ensures Snapshot() == CreateCpu() && Ok()
      ensures fresh(memory)
    {
      registers := map["ax" := 0, "bx" := 0, "cx" := 0, "dx" := 0, "sp" := 0, "bp" := 0, "si" := 0, "di" := 0, "ip" := 0];
      zf, sf := 0, 0;
      memory := new Byte[MemorySize](_ => 0);
      new;
      assert memory[..] == seq(MemorySize, _ => 0);
    }

    /** setRegister. */
    method SetRegister(name: string, value: Value)
      modifies this
      ensures Snapshot() == Sim8086Spec.SetRegister(old(Snapshot()), name, value)
    {
      registers := registers[name := Low16(value)];
    }

    /** `cpu.memory[at] = b` on the Uint8Array: a store outside its bounds is dropped. */
    method StoreByteAt(at: Value, b: Byte)
      modifies memory
      ensures memory[..] == StoreByte(old(memory[..]), at, b)
    {
      if at.Num? && 0 <= at.n < memory.Length {
        memory[at.n] := b;
      }
    }

    /** setMemory: the low byte at the address, then the high byte after it. */
    method SetMemory(address: Address, value: Value)
      modifies memory
      ensures Snapshot() == Sim8086Spec.SetMemory(old(Snapshot()), address, value)
    {
      var result := CalculateAddress(Snapshot(), address);
      StoreByteAt(result, LowByte(value));
      StoreByteAt(Plus(result, Num(1)), SecondByte(value));
    }

    /** updateFlags. */
    method UpdateFlags(value: int)
      modifies this
      ensures Snapshot() == Sim8086Spec.UpdateFlags(old(Snapshot()), value)
    {
      zf := if value == 0 then 1 else 0;
      sf := if (value / 0x8000) % 2 == 1 then 1 else 0;
    }

    /** setOperandValue: the error it throws, if any. */
    method SetOperandValue(operand: Operand, value: Value) returns (err: Option<Error>)
      modifies this, memory
      ensures (err, Snapshot()) == Effect(Sim8086Spec.SetOperandValue(old(Snapshot()), operand, value), old(Snapshot()))
    {
      match operand
      case RegisterOperand(name) =>
        SetRegister(name, value);
        err := None;
      case MemoryOperand(address) =>
        SetMemory(address, value);
        err := None;
      case _ =>
        err := Some(UnknownOperandType(TypeOf(operand)));
    }

    /** The mov handler. */
    method Mov(operands: seq<Operand>) returns (err: Option<Error>)
      modifies this, memory
      ensures (err, Snapshot()) == Effect(Sim8086Spec.Mov(old(Snapshot()), operands), old(Snapshot()))
    {
      if |operands| < 2 {
        return Some(MissingOperand(1));
      }
      var value := GetOperandValue(Snapshot(), operands[1]);
      if value.Err? {
        return Some(value.error);
      }
      err := SetOperandValue(operands[0], value.value);
    }

    /** The add, sub and cmp handlers. */
    method Arithmetic(op: ArithmeticOp, operands: seq<Operand>) returns (err: Option<Error>)
      modifies this, memory
      ensures (err, Snapshot()) == Effect(Sim8086Spec.Arithmetic(old(Snapshot()), op, operands), old(Snapshot()))
    {
      if |operands| < 2 {
        return Some(MissingOperand(1));
      }
      var src := GetOperandValue(Snapshot(), operands[1]);
      if src.Err? {
        return Some(src.error);
      }
      var dest := GetOperandValue(Snapshot(), operands[0]);
      if dest.Err? {
        return Some(dest.error);
      }
      var result := Low16(if op == AddOp then Plus(dest.value, src.value) else Minus(dest.value, src.value));
      if op != CmpOp {
        err := SetOperandValue(operands[0], Num(result));
        if err.Some? {
          return;
        }
      }
      UpdateFlags(result);
      err := None;
    }

    /** The jne and jnz handlers. */
    method Jump(operands: seq<Operand>) returns (err: Option<Error>)
      requires Ok()
      modifies this
      ensures (err, Snapshot()) == Effect(Sim8086Spec.Jump(old(Snapshot()), operands), old(Snapshot()))
    {
      if zf == 0 {
        if |operands| == 0 {
          return Some(MissingOperand(0));
        }
        if !operands[0].ImmediateOperand? {
          return Some(MissingImmediate);
        }
        registers := registers["ip" := registers["ip"] + operands[0].value];
      }
      err := None;
    }

    /** `cpu.registers.ip += size`. */
    method AdvanceIp(size: nat)
      requires Ok()
      modifies this
      ensures Snapshot() == Advance(old(Snapshot()), size) && Ok()
    {
      registers := registers["ip" := registers["ip"] + size];
    }

    /** executeInstruction: look the mnemonic up in the handler table; one without a handler changes nothing. */
    method ExecuteInstruction(mnemonic: string, operands: seq<Operand>) returns (err: Option<Error>)
      requires Ok()
      modifies this, memory
      ensures (err, Snapshot()) == Effect(Execute(old(Snapshot()), mnemonic, operands), old(Snapshot()))
    {
      var handler := HandlerOf(mnemonic);
      match handler
      case None => err := None;
      case Some(MovHandler) => err := Mov(operands);
      case Some(ArithmeticHandler(op)) => err := Arithmetic(op, operands);
      case Some(JumpHandler) => err := Jump(operands);
    }

    /**
     * One pass of the decodeAndExecute loop with ip below the length: decode
     * from ip, advance ip by the size and run the handler. Returns how the
     * loop ends, or None when it goes on with one step fewer.
     */
    method Cycle(bytes: seq<Byte>, decode: seq<Byte> -> Decoded, steps: nat) returns (stop: Option<Outcome>)
      requires Ok() && registers["ip"] < |bytes|
      modifies this, memory
      ensures Ok()
      ensures stop.Some? ==> (stop.value, Snapshot()) == Run(old(Snapshot()), bytes, decode, steps)
      ensures stop.None? ==> steps > 0 && Run(old(Snapshot()), bytes, decode, steps) == Run(Snapshot(), bytes, decode, steps - 1)
    {
      if steps == 0 {
        return Some(OutOfSteps);
      }
      var decodedInstruction := decode(SliceFrom(bytes, registers["ip"]));
      if decodedInstruction.kind == 0 {
        return Some(Unrecognized);
      }
      ghost var before := Snapshot();
      RunStep(before, bytes, decode, steps);
      AdvanceIp(decodedInstruction.size);
      var err := ExecuteInstruction(decodedInstruction.mnemonic, decodedInstruction.operands);
      if err.Some? {
        return Some(Failed(err.value));
      }
      stop := None;
    }

    /**
     * decodeAndExecute: while ip is below the length, decode from ip, advance
     * ip by the size and run the handler; stop on a Type 0 decode. At most
     * `fuel` instructions are executed.
     */
    method DecodeAndExecute(bytes: seq<Byte>, decode: seq<Byte> -> Decoded, fuel: nat) returns (outcome: Outcome)
      requires Ok()
      modifies this, memory
      ensures (outcome, Snapshot()) == Run(old(Snapshot()), bytes, decode, fuel)
    {
      var steps := fuel;
      while registers["ip"] < |bytes|
        invariant Ok()
        invariant Run(old(Snapshot()), bytes, decode, fuel) == Run(Snapshot(), bytes, decode, steps)
        decreases steps
      {
        var stop := Cycle(bytes, decode, steps);
        if stop.Some? {
          return stop.value;
        }
        steps := steps - 1;
      }
      outcome := Halted;
    }
  }
}
