/**
 * Properties of the instruction decoder of part1/index.ts: when it yields an
 * instruction at all, which bytes it can read, register widths, and, for a
 * registry holding the 8086 manual's MOV/ADD register-or-memory and
 * MOV immediate-to-register encodings, a reference encoder whose output the
 * decoder maps back to the encoded instruction and to the text the source
 * prints, and exactly where that text departs from Intel syntax.
 */
module DecoderProperties {
  import opened Wrappers
  import opened Text
  import opened Tables
  import opened Decoder

  // -----------------------------------------------------------------------
  // Any registry.

  /** An instruction comes out exactly when the buffer is non-empty and some format accepts its first byte. */
  lemma DecodeDefinedIff(formats: seq<Format>, stream: seq<Byte>)
    requires WellFormedRegistry(formats)
    ensures Decode(formats, stream).Some? <==>
              |stream| > 0 && exists i :: 0 <= i < |formats| && Selects(formats[i], stream[0])
    ensures Decode(formats, stream).Some? ==>
              exists k :: 0 <= k < |formats| && Selects(formats[k], stream[0])
                && (forall j :: 0 <= j < k ==> !Selects(formats[j], stream[0]))
                && Decode(formats, stream).value.mnemonic == formats[k].mnemonic
  {
    if |stream| > 0 {
      var r := FindFormat(formats, stream[0]);
      if r.None? {
        assert forall j :: 0 <= j < |formats| ==> !Selects(formats[j], stream[0]);
      }
    }
  }

  lemma RenderNotInvalid(instr: DecodedInstruction)
    ensures Render(instr) != "Invalid instruction"
  {
    var t := Render(instr);
    assert t[0] == MnemonicText(instr.mnemonic)[0];
    assert t[0] in {'m', 'a'};
  }

  /** printInstruction answers 'Invalid instruction' exactly when the decoder yields nothing. */
  lemma PrintInvalidIff(formats: seq<Format>, stream: seq<Byte>)
    requires WellFormedRegistry(formats)
    ensures PrintInstruction(formats, stream) == "Invalid instruction" <==> Decode(formats, stream).None?
  {
    if Decode(formats, stream).Some? {
      RenderNotInvalid(Decode(formats, stream).value);
    }
  }

  function CountRm(roles: seq<OperandType>): nat
  {
    if roles == [] then 0 else CountRm(roles[..|roles| - 1]) + (if roles[|roles| - 1] == Rm then 1 else 0)
  }

  lemma {:induction false} ResolveAllWindow(f: Format, roles: seq<OperandType>, fl: Fields, stream: seq<Byte>, start: nat)
    requires fl.w <= 1 && fl.reg <= 7 && fl.mod <= 3 && fl.rm <= 7
    requires |stream| >= 4 && start == 3 && CountRm(roles) <= 1
    ensures ResolveAll(f, roles, fl, stream, start) == ResolveAll(f, roles, fl, stream[..4], start)
    ensures start <= ResolveAll(f, roles, fl, stream, start).1 <= start + CountRm(roles)
  {
    if roles != [] {
      var init := roles[..|roles| - 1];
      ResolveAllWindow(f, init, fl, stream, start);
      var c := ResolveAll(f, init, fl, stream, start).1;
      assert c <= 3 + CountRm(init);
      assert forall i :: i < 4 ==> At(stream, i) == At(stream[..4], i);
      if roles[|roles| - 1] == Rm {
        assert c == 3;
      }
    }
  }

  /**
   * With at most one RM role per format, the decoding depends on the first
   * four bytes only: whatever follows them is never read.
   */
  lemma DecodeReadsFourBytes(formats: seq<Format>, stream: seq<Byte>)
    requires WellFormedRegistry(formats)
    requires forall i :: 0 <= i < |formats| ==> CountRm(formats[i].operands) <= 1
    requires |stream| >= 4
    ensures Decode(formats, stream) == Decode(formats, stream[..4])
  {
    var r := FindFormat(formats, stream[0]);
    assert stream[..4][0] == stream[0];
    if r.Some? {
      var f := formats[r.value];
      assert At(stream, 1) == At(stream[..4], 1);
      var fl := ReadFields(f, stream[0], At(stream, 1));
      ResolveAllWindow(f, f.operands, fl, stream, 3);
    }
  }

  predicate RegistersAre(ops: seq<Operand>, word: bool)
  {
    forall i :: 0 <= i < |ops| && ops[i].RegisterOperand? ==> IsWord(ops[i].register) == word
  }

  lemma {:induction false} ResolveAllWidth(f: Format, roles: seq<OperandType>, fl: Fields, stream: seq<Byte>, start: nat)
    requires fl.w <= 1 && fl.reg <= 7 && fl.mod <= 3 && fl.rm <= 7
    ensures RegistersAre(ResolveAll(f, roles, fl, stream, start).0, fl.w == 1)
  {
    if roles != [] {
      ResolveAllWidth(f, roles[..|roles| - 1], fl, stream, start);
    }
  }

  /**
   * Every register operand of one instruction comes from the same row of
   * registerEncoding, the one W selects; without a W extractor that is the
   * byte-register row.
   */
  lemma RegisterOperandsShareWidth(formats: seq<Format>, stream: seq<Byte>)
    requires WellFormedRegistry(formats)
    requires Decode(formats, stream).Some?
    ensures var ops := Decode(formats, stream).value.operands;
            forall i, j :: 0 <= i < |ops| && 0 <= j < |ops| && ops[i].RegisterOperand? && ops[j].RegisterOperand?
              ==> IsWord(ops[i].register) == IsWord(ops[j].register)
    ensures formats[FindFormat(formats, stream[0]).value].w.None? ==>
              RegistersAre(Decode(formats, stream).value.operands, false)
  {
    var f := formats[FindFormat(formats, stream[0]).value];
    var fl := ReadFields(f, stream[0], At(stream, 1));
    ResolveAllWidth(f, f.operands, fl, stream, 3);
  }

  // -----------------------------------------------------------------------
  // A registry with the 8086 manual's encodings: 100010dw (MOV r/m, reg),
  // 1011wreg (MOV immediate to register) and 000000dw (ADD r/m, reg).

  function NoImmediate(s: nat, w: nat, lo: Option<Byte>, hi: Option<Byte>): int
  {
    0
  }

  /** Immediate data: one byte, or two little-endian bytes when w is 1. */
  function ImmediateData(s: nat, w: nat, lo: Option<Byte>, hi: Option<Byte>): int
  {
    if w == 1 then Combine(Num(hi), Num(lo)) else Num(lo)
  }

  const ExampleFormats: seq<Format> := [
    Format(Mov, 0x22, 2, [Rm, Reg], Some(D(1)), Some(W(0)), Some(REG(3)), None, NoImmediate, None),
    Format(Mov, 0x0b, 4, [Reg, Imm], None, Some(W(3)), Some(REG(8)), None, ImmediateData, None),
    Format(Add, 0x00, 2, [Rm, Reg], Some(D(1)), Some(W(0)), Some(REG(3)), None, NoImmediate, None)
  ]

  lemma ExampleWellFormed()
    ensures WellFormedRegistry(ExampleFormats)
  {
  }

  /** An effective address as an assembler names it (rm 110 with a base register is left out, see the lemmas below). */
  datatype Ea =
    | RegisterEa(rm: nat)
    | IndirectEa(rm: nat)
    | Disp8Ea(rm: nat, d8: Byte)
    | Disp16Ea(rm: nat, d16: nat)

  /** An instruction as an assembler would be asked for it. */
  datatype Asm =
    | RegMem(m: Mnemonic, toReg: bool, wide: bool, reg: nat, ea: Ea)
    | MovImmediate(wide: bool, reg: nat, value: nat)

  predicate EncodableEa(ea: Ea)
  {
    match ea
    case RegisterEa(rm) => rm <= 7
    case IndirectEa(rm) => rm <= 7 && rm != 6
    case Disp8Ea(rm, _) => rm <= 7 && rm != 6
    case Disp16Ea(rm, d) => rm <= 7 && rm != 6 && d < 0x10000
  }

  predicate Encodable(a: Asm)
  {
    match a
    case RegMem(_, _, _, reg, ea) => reg <= 7 && EncodableEa(ea)
    case MovImmediate(wide, reg, v) => reg <= 7 && v < (if wide then 0x10000 else 0x100)
  }

  function Bit(b: bool): nat { if b then 1 else 0 }

  function ModOf(ea: Ea): nat
  {
    match ea
    case RegisterEa(_) => 3
    case IndirectEa(_) => 0
    case Disp8Ea(_, _) => 1
    case Disp16Ea(_, _) => 2
  }

  function DisplacementBytes(ea: Ea): seq<Byte>
    requires EncodableEa(ea)
  {
    match ea
    case Disp8Ea(_, d) => [d]
    case Disp16Ea(_, d) => [d % 256, d / 256]
    case _ => []
  }

  /** The reference encoder: opcode byte, ModRM byte, then displacement or data, low byte first. */
  function Encode(a: Asm): seq<Byte>
    requires Encodable(a)
  {
    match a
    case RegMem(m, toReg, wide, reg, ea) =>
      var opcode := (if m == Mov then 0x88 else 0x00) + 2 * Bit(toReg) + Bit(wide);
      [opcode, ModOf(ea) * 64 + reg * 8 + ea.rm] + DisplacementBytes(ea)
    case MovImmediate(wide, reg, v) =>
      [0xb0 + 8 * Bit(wide) + reg] + (if wide then [v % 256, v / 256] else [v])
  }

  /**
   * The address terms the decoder lists for an r/m field other than 110, by
   * the field's bits: below 100 the base is bx or bp (bit 1) and the index si
   * or di (bit 0), followed by the displacement; 100, 101 and 111 are si, di
   * and bx alone, without the displacement.
   */
  function AddressTerms(rm: nat, disp: Term): seq<Term>
    requires rm <= 7 && rm != 6
  {
    if rm < 4 then [TReg(if rm / 2 == 0 then BX else BP), TReg(if rm % 2 == 0 then SI else DI), disp]
    else [TReg([SI, DI, BX, BX][rm - 4])]
  }

  /** The operand an effective address denotes, in the decoder's terms. */
  function EaOperand(ea: Ea, wide: bool): Operand
    requires EncodableEa(ea)
  {
    match ea
    case RegisterEa(rm) => RegisterOperand(RegisterEncoding(Bit(wide), rm))
    case IndirectEa(rm) => Memory(AddressTerms(rm, TUndefined))
    case Disp8Ea(rm, d) => Memory(AddressTerms(rm, TNum(d)))
    case Disp16Ea(rm, d) => Memory(AddressTerms(rm, TNum(d)))
  }

  /** Destination first: the REG operand is the destination exactly when the direction bit says "to register". */
  function Expected(a: Asm): DecodedInstruction
    requires Encodable(a)
  {
    match a
    case RegMem(m, toReg, wide, reg, ea) =>
      var r := RegisterOperand(RegisterEncoding(Bit(wide), reg));
      var e := EaOperand(ea, wide);
      DecodedInstruction(m, if toReg then [r, e] else [e, r])
    case MovImmediate(wide, reg, v) =>
      DecodedInstruction(Mov, [RegisterOperand(RegisterEncoding(Bit(wide), reg)), Immediate(v)])
  }

  lemma ModRmFields(mod: nat, reg: nat, rm: nat, first: Byte)
    requires mod <= 3 && reg <= 7 && rm <= 7
    ensures var b := mod * 64 + reg * 8 + rm;
            0 <= b < 256 && b / 64 == mod && b % 8 == rm && (Combine(first, b) / 8) % 8 == reg
  {
    var b := mod * 64 + reg * 8 + rm;
    assert b / 64 == mod;
    assert Combine(first, b) == (first * 32 + mod * 8 + reg) * 8 + rm;
    assert Combine(first, b) / 8 == first * 32 + mod * 8 + reg;
  }

  lemma RegMemOpcodeFields(m: Mnemonic, toReg: bool, wide: bool)
    ensures var b := (if m == Mov then 0x88 else 0x00) + 2 * Bit(toReg) + Bit(wide);
            0 <= b < 256
            && FindFormat(ExampleFormats, b) == Some(if m == Mov then 0 else 2)
            && Extract(D(1), b) == Bit(toReg) && Extract(W(0), b) == Bit(wide)
  {
    Pow2Small();
    assert Pow2(4) == 16;
    var b := (if m == Mov then 0x88 else 0x00) + 2 * Bit(toReg) + Bit(wide);
    assert b / 4 == if m == Mov then 0x22 else 0;
    assert b / 16 == if m == Mov then 8 else 0;
    assert (b / 2) % 2 == Bit(toReg);
    if m == Mov {
      assert Selects(ExampleFormats[0], b);
    } else {
      assert !Selects(ExampleFormats[0], b) && !Selects(ExampleFormats[1], b) && Selects(ExampleFormats[2], b);
      assert FindFormat(ExampleFormats, b, 2) == Some(2);
      assert FindFormat(ExampleFormats, b, 1) == Some(2);
    }
  }

  lemma MovImmediateFields(wide: bool, reg: nat)
    requires reg <= 7
    ensures var b := 0xb0 + 8 * Bit(wide) + reg;
            0 <= b < 256
            && FindFormat(ExampleFormats, b) == Some(1)
            && Extract(W(3), b) == Bit(wide)
  {
    Pow2Small();
    assert Pow2(4) == 16;
    var b := 0xb0 + 8 * Bit(wide) + reg;
    assert b / 4 != 0x22;
    assert b / 16 == 0x0b;
    assert (b / 8) % 2 == Bit(wide);
    assert !Selects(ExampleFormats[0], b) && Selects(ExampleFormats[1], b);
    assert FindFormat(ExampleFormats, b, 1) == Some(1);
  }

  lemma ResolveTwo(f: Format, x: OperandType, y: OperandType, fl: Fields, stream: seq<Byte>, start: nat)
    requires fl.w <= 1 && fl.reg <= 7 && fl.mod <= 3 && fl.rm <= 7
    ensures var first := ResolveOperand(f, x, fl, stream, start);
            var second := ResolveOperand(f, y, fl, stream, first.1);
            ResolveAll(f, [x, y], fl, stream, start) == ([first.0, second.0], second.1)
  {
    var first := ResolveOperand(f, x, fl, stream, start);
    var second := ResolveOperand(f, y, fl, stream, first.1);
    ResolveOne(f, x, fl, stream, start);
    assert [x, y][..1] == [x];
    assert ResolveAll(f, [x, y], fl, stream, start) == ([first.0] + [second.0], second.1);
    assert [first.0] + [second.0] == [first.0, second.0];
  }

  lemma ResolveOne(f: Format, x: OperandType, fl: Fields, stream: seq<Byte>, start: nat)
    requires fl.w <= 1 && fl.reg <= 7 && fl.mod <= 3 && fl.rm <= 7
    ensures var only := ResolveOperand(f, x, fl, stream, start);
            ResolveAll(f, [x], fl, stream, start) == ([only.0], only.1)
  {
    var roles := [x];
    assert roles[..|roles| - 1] == [];
    var p := ResolveAll(f, roles[..|roles| - 1], fl, stream, start);
    assert p == ([], start);
    var q := ResolveOperand(f, x, fl, stream, p.1);
    assert ResolveAll(f, roles, fl, stream, start) == (p.0 + [q.0], q.1);
    assert p.0 + [q.0] == [q.0];
  }

  lemma RegMemFields(m: Mnemonic, toReg: bool, wide: bool, reg: nat, ea: Ea)
    requires Encodable(RegMem(m, toReg, wide, reg, ea))
    ensures var bytes := Encode(RegMem(m, toReg, wide, reg, ea));
            var k := if m == Mov then 0 else 2;
            FindFormat(ExampleFormats, bytes[0]) == Some(k)
            && ReadFields(ExampleFormats[k], bytes[0], At(bytes, 1)) == Fields(Bit(toReg), Bit(wide), reg, ModOf(ea), ea.rm, 0)
  {
    var bytes := Encode(RegMem(m, toReg, wide, reg, ea));
    RegMemOpcodeFields(m, toReg, wide);
    ModRmFields(ModOf(ea), reg, ea.rm, bytes[0]);
    Pow2Small();
    assert Extract(REG(3), Combine(bytes[0], bytes[1])) == reg;
  }

  lemma EaOfEncoding(m: Mnemonic, toReg: bool, wide: bool, reg: nat, ea: Ea)
    requires Encodable(RegMem(m, toReg, wide, reg, ea))
    ensures var bytes := Encode(RegMem(m, toReg, wide, reg, ea));
            var f := ExampleFormats[if m == Mov then 0 else 2];
            var fl := Fields(Bit(toReg), Bit(wide), reg, ModOf(ea), ea.rm, 0);
            ResolveOperand(f, Rm, fl, bytes, 3).0 == EaOperand(ea, wide)
  {
    var bytes := Encode(RegMem(m, toReg, wide, reg, ea));
    match ea
    case RegisterEa(_) =>
    case IndirectEa(_) =>
    case Disp8Ea(_, d) => assert At(bytes, 2) == Some(d);
    case Disp16Ea(_, d) =>
      assert At(bytes, 2) == Some(d % 256) && At(bytes, 3) == Some(d / 256);
      assert Combine(d / 256, d % 256) == d;
  }

  /** Decode, once the format, the fields and the operands are known. */
  lemma DecodeVia(formats: seq<Format>, stream: seq<Byte>, i: nat, fl: Fields, ops: seq<Operand>, c: nat)
    requires WellFormedRegistry(formats) && |stream| > 0
    requires FindFormat(formats, stream[0]) == Some(i)
    requires ReadFields(formats[i], stream[0], At(stream, 1)) == fl
    requires ResolveAll(formats[i], formats[i].operands, fl, stream, 3) == (ops, c)
    ensures |ops| == 2
    ensures Decode(formats, stream) == Some(DecodedInstruction(formats[i].mnemonic,
              if formats[i].d.Some? && fl.d != 0 then [ops[1], ops[0]] else ops))
  {
    assert WellFormed(formats[i]);
  }

  lemma DecodeEncodeRegMem(m: Mnemonic, toReg: bool, wide: bool, reg: nat, ea: Ea)
    requires Encodable(RegMem(m, toReg, wide, reg, ea))
    ensures Decode(ExampleFormats, Encode(RegMem(m, toReg, wide, reg, ea))) == Some(Expected(RegMem(m, toReg, wide, reg, ea)))
  {
    ExampleWellFormed();
    var bytes := Encode(RegMem(m, toReg, wide, reg, ea));
    var k := if m == Mov then 0 else 2;
    var f := ExampleFormats[k];
    var fl := Fields(Bit(toReg), Bit(wide), reg, ModOf(ea), ea.rm, 0);
    RegMemFields(m, toReg, wide, reg, ea);
    EaOfEncoding(m, toReg, wide, reg, ea);
    ResolveTwo(f, Rm, Reg, fl, bytes, 3);
    var e := EaOperand(ea, wide);
    var r := RegisterOperand(RegisterEncoding(Bit(wide), reg));
    var c := ResolveAll(f, [Rm, Reg], fl, bytes, 3).1;
    assert f.operands == [Rm, Reg] && f.d == Some(D(1)) && f.mnemonic == m;
    DecodeVia(ExampleFormats, bytes, k, fl, [e, r], c);
  }

  /** The data bytes of MOV immediate read back as the value. */
  lemma ImmediateBytes(wide: bool, v: nat, first: Byte)
    requires v < (if wide then 0x10000 else 0x100)
    ensures var bytes: seq<Byte> := [first] + (if wide then [v % 256, v / 256] else [v]);
            ImmediateData(0, Bit(wide), At(bytes, 1), At(bytes, 2)) == v
  {
    if wide {
      assert Combine(v / 256, v % 256) == v;
    }
  }

  lemma ImmediateFieldsRead(wide: bool, reg: nat, v: nat)
    requires Encodable(MovImmediate(wide, reg, v))
    ensures var bytes := Encode(MovImmediate(wide, reg, v));
            var fl := ReadFields(ExampleFormats[1], bytes[0], At(bytes, 1));
            FindFormat(ExampleFormats, bytes[0]) == Some(1)
            && fl.w == Bit(wide) && fl.reg == reg && fl.s == 0
  {
    ExampleWellFormed();
    var bytes := Encode(MovImmediate(wide, reg, v));
    MovImmediateFields(wide, reg);
    Pow2Small();
    RegOnCombined(bytes[0], At(bytes, 1).value);
    assert bytes[0] % 8 == reg;
  }

  lemma DecodeEncodeImmediate(wide: bool, reg: nat, v: nat)
    requires Encodable(MovImmediate(wide, reg, v))
    ensures Decode(ExampleFormats, Encode(MovImmediate(wide, reg, v))) == Some(Expected(MovImmediate(wide, reg, v)))
  {
    ExampleWellFormed();
    var bytes := Encode(MovImmediate(wide, reg, v));
    var f := ExampleFormats[1];
    ImmediateFieldsRead(wide, reg, v);
    var fl := ReadFields(f, bytes[0], At(bytes, 1));
    ImmediateBytes(wide, v, bytes[0]);
    ResolveTwo(f, Reg, Imm, fl, bytes, 3);
    assert f.operands == [Reg, Imm] && f.d.None?;
    DecodeVia(ExampleFormats, bytes, 1, fl, [RegisterOperand(RegisterEncoding(Bit(wide), reg)), Immediate(v)], 3);
  }

  /** Decoding the reference encoding gives back the encoded instruction. */
  lemma DecodeEncode(a: Asm)
    requires Encodable(a)
    ensures Decode(ExampleFormats, Encode(a)) == Some(Expected(a))
  {
    match a
    case RegMem(m, toReg, wide, reg, ea) => DecodeEncodeRegMem(m, toReg, wide, reg, ea);
    case MovImmediate(wide, reg, v) => DecodeEncodeImmediate(wide, reg, v);
  }

  // The printed text, and Intel syntax.

  function BaseText(rm: nat): string
    requires rm <= 7 && rm != 6
  {
    ["bx+si", "bx+di", "bp+si", "bp+di", "si", "di", "", "bx"][rm]
  }

  function DisplacementText(d: nat): string
  {
    if d == 0 then "" else "+" + NatToString(d)
  }

  /** baseRegister keeps the displacement only after a base+index pair (rm 0..3); for si, di and bx it is dropped. */
  function IndexedDisplacementText(rm: nat, d: nat): string
  {
    if rm <= 3 then DisplacementText(d) else ""
  }

  /**
   * An effective address as printInstruction writes it: the displacement after
   * si, di or bx is dropped, and an 8-bit displacement is written unsigned.
   */
  function PrintedEaText(ea: Ea, wide: bool): string
    requires EncodableEa(ea)
  {
    match ea
    case RegisterEa(rm) => Name(RegisterEncoding(Bit(wide), rm))
    case IndirectEa(rm) => "[" + BaseText(rm) + "]"
    case Disp8Ea(rm, d) => "[" + BaseText(rm) + IndexedDisplacementText(rm, d) + "]"
    case Disp16Ea(rm, d) => "[" + BaseText(rm) + IndexedDisplacementText(rm, d) + "]"
  }

  /** Mnemonic, destination, source: the register first exactly when the direction bit says "to register". */
  function Line(m: Mnemonic, toReg: bool, r: string, e: string): string
  {
    MnemonicText(m) + " " + (if toReg then r + ", " + e else e + ", " + r)
  }

  /** The line printInstruction writes for an encoded instruction; a zero displacement is not written. */
  function PrintedText(a: Asm): string
    requires Encodable(a)
  {
    match a
    case RegMem(m, toReg, wide, reg, ea) =>
      Line(m, toReg, Name(RegisterEncoding(Bit(wide), reg)), PrintedEaText(ea, wide))
    case MovImmediate(wide, reg, v) =>
      "mov " + Name(RegisterEncoding(Bit(wide), reg)) + ", " + NatToString(v)
  }

  /** An 8-bit displacement is a two's-complement byte. */
  function Signed8(d: Byte): int
  {
    if d < 0x80 then d else d - 0x100
  }

  function SignedDisplacementText(d: int): string
  {
    if d == 0 then "" else if d > 0 then "+" + NatToString(d) else "-" + NatToString(-d)
  }

  /**
   * An effective address in Intel syntax: every base keeps its displacement
   * and an 8-bit displacement is signed. A 16-bit displacement is written
   * unsigned, which 16-bit address arithmetic makes equivalent.
   */
  function IntelEaText(ea: Ea, wide: bool): string
    requires EncodableEa(ea)
  {
    match ea
    case RegisterEa(rm) => Name(RegisterEncoding(Bit(wide), rm))
    case IndirectEa(rm) => "[" + BaseText(rm) + "]"
    case Disp8Ea(rm, d) => "[" + BaseText(rm) + SignedDisplacementText(Signed8(d)) + "]"
    case Disp16Ea(rm, d) => "[" + BaseText(rm) + DisplacementText(d) + "]"
  }

  function IntelText(a: Asm): string
    requires Encodable(a)
  {
    match a
    case RegMem(m, toReg, wide, reg, ea) =>
      Line(m, toReg, Name(RegisterEncoding(Bit(wide), reg)), IntelEaText(ea, wide))
    case MovImmediate(wide, reg, v) =>
      "mov " + Name(RegisterEncoding(Bit(wide), reg)) + ", " + NatToString(v)
  }

  /** Where the printed effective address is Intel syntax: no displacement after si, di or bx, no 8-bit one of 0x80 or more. */
  predicate PrintsAsIntel(ea: Ea)
  {
    match ea
    case Disp8Ea(rm, d) => (rm <= 3 || d == 0) && d < 0x80
    case Disp16Ea(rm, d) => rm <= 3 || d == 0
    case _ => true
  }

  lemma RenderTwo(m: Mnemonic, x: Operand, y: Operand)
    ensures Render(DecodedInstruction(m, [x, y])) == MnemonicText(m) + " " + OperandText(x) + ", " + OperandText(y)
  {
    var texts := OperandTexts([x, y]);
    assert texts == [OperandText(x), OperandText(y)];
    assert texts[1..] == [OperandText(y)];
    assert Join(texts, ", ") == OperandText(x) + ", " + OperandText(y);
  }

  lemma MemoryText(rm: nat, val: Term)
    requires rm <= 7 && rm != 6
    requires val == TUndefined || (val.TNum? && val.n >= 0)
    ensures OperandText(Memory(BaseRegister(rm, val))) ==
              "[" + BaseText(rm) + (if rm <= 3 && val.TNum? then DisplacementText(val.n) else "") + "]"
  {
    var tail := if rm <= 3 && val.TNum? then DisplacementText(val.n) else "";
    BaseTermsText(rm, val, tail);
    Bracketed(BaseRegister(rm, val), BaseText(rm), tail);
  }

  /** A memory operand is its truthy terms joined by `+` between brackets. */
  lemma Bracketed(ts: seq<Term>, base: string, tail: string)
    requires Join(TermsText(FilterTruthy(ts)), "+") == base + tail
    ensures OperandText(Memory(ts)) == "[" + base + tail + "]"
  {
  }

  /** The terms of a base-register operand, with its displacement when it has one. */
  lemma BaseTermsText(rm: nat, val: Term, tail: string)
    requires rm <= 7 && rm != 6
    requires val == TUndefined || (val.TNum? && val.n >= 0)
    requires tail == if rm <= 3 && val.TNum? then DisplacementText(val.n) else ""
    ensures Join(TermsText(FilterTruthy(BaseRegister(rm, val))), "+") == BaseText(rm) + tail
  {
    if rm <= 3 {
      PairText(rm, val);
    } else {
      SingleBaseText(rm, val);
      assert BaseText(rm) + "" == BaseText(rm);
    }
  }

  /** si, di and bx alone: the argument is dropped. */
  lemma SingleBaseText(rm: nat, val: Term)
    requires rm in {4, 5, 7}
    ensures Join(TermsText(FilterTruthy(BaseRegister(rm, val))), "+") == BaseText(rm)
  {
    var ts := BaseRegister(rm, val);
    var t := ts[0];
    assert ts == [t] && ts[1..] == [];
    assert FilterTruthy(ts) == [t];
    assert TermsText([t]) == [TermText(t)];
  }

  lemma JoinTwo(x: string, y: string)
    ensures Join([x, y], "+") == x + "+" + y
  {
    assert [x, y][1..] == [y];
  }

  lemma JoinThree(x: string, y: string, z: string)
    ensures Join([x, y, z], "+") == (x + "+" + y) + ("+" + z)
  {
    assert [x, y, z][1..] == [y, z];
    JoinTwo(y, z);
  }

  lemma PairText(rm: nat, val: Term)
    requires rm <= 3
    requires val == TUndefined || (val.TNum? && val.n >= 0)
    ensures Join(TermsText(FilterTruthy(BaseRegister(rm, val))), "+") ==
              BaseText(rm) + (if val.TNum? then DisplacementText(val.n) else "")
  {
    var ts := BaseRegister(rm, val);
    var a, b := ts[0], ts[1];
    assert ts[1..] == [b, val] && ts[1..][1..] == [val];
    assert FilterTruthy(ts) == [a, b] + FilterTruthy([val]);
    var x, y := TermText(a), TermText(b);
    var base := BaseText(rm);
    assert base == x + "+" + y;
    assert [val][1..] == [];
    if Truthy(val) {
      assert FilterTruthy(ts) == [a, b, val];
      var z := TermText(val);
      assert TermsText([a, b, val]) == [x, y, z];
      JoinThree(x, y, z);
      assert z == NatToString(val.n) && DisplacementText(val.n) == "+" + z;
    } else {
      assert FilterTruthy(ts) == [a, b];
      assert TermsText([a, b]) == [x, y];
      JoinTwo(x, y);
      assert val.TNum? ==> DisplacementText(val.n) == "";
      assert base + "" == base;
    }
  }

  lemma EaOperandText(ea: Ea, wide: bool)
    requires EncodableEa(ea)
    ensures OperandText(EaOperand(ea, wide)) == PrintedEaText(ea, wide)
  {
    match ea
    case RegisterEa(_) =>
    case IndirectEa(rm) => AddressText(rm, TUndefined);
    case Disp8Ea(rm, d) => AddressText(rm, TNum(d));
    case Disp16Ea(rm, d) => AddressText(rm, TNum(d));
  }

  /** The terms of a memory effective address are the table's base terms, and print the same. */
  lemma AddressText(rm: nat, disp: Term)
    requires rm <= 7 && rm != 6
    requires disp == TUndefined || (disp.TNum? && disp.n >= 0)
    ensures OperandText(Memory(AddressTerms(rm, disp))) ==
              "[" + BaseText(rm) + (if rm <= 3 && disp.TNum? then DisplacementText(disp.n) else "") + "]"
  {
    assert AddressTerms(rm, disp) == BaseRegister(rm, disp);
    MemoryText(rm, disp);
  }

  /** Decoding and rendering the reference encoding gives the reference assembly text. */
  lemma PrintEncode(a: Asm)
    requires Encodable(a)
    ensures PrintInstruction(ExampleFormats, Encode(a)) == PrintedText(a)
  {
    ExampleWellFormed();
    match a
    case RegMem(m, toReg, wide, reg, ea) =>
      DecodeEncodeRegMem(m, toReg, wide, reg, ea);
      RegMemText(m, toReg, wide, reg, ea);
    case MovImmediate(wide, reg, v) =>
      DecodeEncodeImmediate(wide, reg, v);
      ImmediateText(wide, reg, v);
  }

  lemma ImmediateText(wide: bool, reg: nat, v: nat)
    requires Encodable(MovImmediate(wide, reg, v))
    ensures Render(Expected(MovImmediate(wide, reg, v))) == PrintedText(MovImmediate(wide, reg, v))
  {
    var name := Name(RegisterEncoding(Bit(wide), reg));
    RenderTwo(Mov, RegisterOperand(RegisterEncoding(Bit(wide), reg)), Immediate(v));
    assert IntToString(v) == NatToString(v);
    assert "mov" + " " == "mov ";
  }

  lemma RegMemText(m: Mnemonic, toReg: bool, wide: bool, reg: nat, ea: Ea)
    requires Encodable(RegMem(m, toReg, wide, reg, ea))
    ensures Render(Expected(RegMem(m, toReg, wide, reg, ea))) == PrintedText(RegMem(m, toReg, wide, reg, ea))
  {
    var r := RegisterOperand(RegisterEncoding(Bit(wide), reg));
    var e := EaOperand(ea, wide);
    var x, y := if toReg then r else e, if toReg then e else r;
    assert Expected(RegMem(m, toReg, wide, reg, ea)) == DecodedInstruction(m, [x, y]);
    RenderTwo(m, x, y);
    EaOperandText(ea, wide);
    LineShape(MnemonicText(m) + " ", OperandText(x), OperandText(y));
  }

  lemma LineShape(head: string, x: string, y: string)
    ensures head + x + ", " + y == head + (x + ", " + y)
  {
  }

  /** The printed effective address is its Intel-syntax text exactly where it PrintsAsIntel. */
  lemma PrintedEaTextIntel(ea: Ea, wide: bool)
    requires EncodableEa(ea)
    ensures PrintedEaText(ea, wide) == IntelEaText(ea, wide) <==> PrintsAsIntel(ea)
  {
    match ea
    case RegisterEa(_) =>
    case IndirectEa(_) =>
    case Disp8Ea(rm, d) =>
      if rm > 3 && d != 0 {
        DroppedIsShorter(BaseText(rm), SignedDisplacementText(Signed8(d)));
      } else if d >= 0x80 {
        SignDiffers(BaseText(rm), NatToString(d), NatToString(0x100 - d));
      }
    case Disp16Ea(rm, d) =>
      if rm > 3 && d != 0 {
        DroppedIsShorter(BaseText(rm), DisplacementText(d));
      }
  }

  /** A dropped displacement makes the text shorter. */
  lemma DroppedIsShorter(base: string, disp: string)
    requires disp != ""
    ensures "[" + base + "" + "]" != "[" + base + disp + "]"
  {
    assert |"[" + base + "" + "]"| < |"[" + base + disp + "]"|;
  }

  /** "+252" and "-4" differ at the sign. */
  lemma SignDiffers(base: string, x: string, y: string)
    ensures "[" + base + ("+" + x) + "]" != "[" + base + ("-" + y) + "]"
  {
    var b := "[" + base;
    assert ("[" + base + ("+" + x) + "]")[|b|] == '+';
    assert ("[" + base + ("-" + y) + "]")[|b|] == '-';
  }

  /** The line is equal for two effective-address texts exactly when the texts are. */
  lemma LineDetermines(m: Mnemonic, toReg: bool, r: string, e: string, e': string)
    ensures Line(m, toReg, r, e) == Line(m, toReg, r, e') <==> e == e'
  {
    var h := MnemonicText(m) + " ";
    if Line(m, toReg, r, e) == Line(m, toReg, r, e') {
      if toReg {
        var p := h + r + ", ";
        assert Line(m, toReg, r, e) == p + e && Line(m, toReg, r, e') == p + e';
        assert e == (p + e)[|p|..] && e' == (p + e')[|p|..];
      } else {
        var t := ", " + r;
        assert Line(m, toReg, r, e) == h + e + t && Line(m, toReg, r, e') == h + e' + t;
        assert |e| == |e'|;
        assert e == (h + e + t)[|h|..|h| + |e|] && e' == (h + e' + t)[|h|..|h| + |e'|];
      }
    }
  }

  /**
   * Decoding and printing an encoded instruction gives its Intel-syntax text
   * exactly when its effective address PrintsAsIntel.
   */
  lemma PrintEncodeIntel(a: Asm)
    requires Encodable(a)
    ensures PrintInstruction(ExampleFormats, Encode(a)) == IntelText(a) <==> (a.RegMem? ==> PrintsAsIntel(a.ea))
  {
    PrintEncode(a);
    match a
    case RegMem(m, toReg, wide, reg, ea) =>
      PrintedEaTextIntel(ea, wide);
      LineDetermines(m, toReg, Name(RegisterEncoding(Bit(wide), reg)), PrintedEaText(ea, wide), IntelEaText(ea, wide));
    case MovImmediate(_, _, _) =>
  }

  /** 8a 44 04 prints "mov al, [si]"; in Intel syntax it is "mov al, [si+4]". */
  lemma DroppedDisplacement()
    ensures PrintInstruction(ExampleFormats, [0x8a, 0x44, 0x04]) == "mov al, [si]"
    ensures IntelText(RegMem(Mov, true, false, 0, Disp8Ea(4, 4))) == "mov al, [si+4]"
  {
    var a := RegMem(Mov, true, false, 0, Disp8Ea(4, 4));
    assert Encode(a) == [0x8a, 0x44, 0x04];
    PrintEncode(a);
    DroppedDisplacementText();
  }

  lemma DroppedDisplacementText()
    ensures PrintedText(RegMem(Mov, true, false, 0, Disp8Ea(4, 4))) == "mov al, [si]"
    ensures IntelText(RegMem(Mov, true, false, 0, Disp8Ea(4, 4))) == "mov al, [si+4]"
  {
    assert NatToString(4) == "4";
    assert SignedDisplacementText(Signed8(4)) == "+4";
    assert Name(RegisterEncoding(0, 0)) == "al" && MnemonicText(Mov) == "mov";
  }

  /** 8a 40 fc prints "mov al, [bx+si+252]"; in Intel syntax it is "mov al, [bx+si-4]". */
  lemma UnsignedDisplacement()
    ensures PrintInstruction(ExampleFormats, [0x8a, 0x40, 0xfc]) == "mov al, [bx+si+252]"
    ensures IntelText(RegMem(Mov, true, false, 0, Disp8Ea(0, 0xfc))) == "mov al, [bx+si-4]"
  {
    var a := RegMem(Mov, true, false, 0, Disp8Ea(0, 0xfc));
    assert Encode(a) == [0x8a, 0x40, 0xfc];
    PrintEncode(a);
    UnsignedDisplacementEa();
    UnsignedDisplacementLine(PrintedEaText(Disp8Ea(0, 0xfc), false), IntelEaText(Disp8Ea(0, 0xfc), false));
  }

  lemma Digits252()
    ensures NatToString(252) == "252"
  {
    assert NatToString(2) == "2";
    assert NatToString(25) == NatToString(2) + [DigitChar(5)];
    assert NatToString(252) == NatToString(25) + [DigitChar(2)];
  }

  lemma UnsignedDisplacementEa()
    ensures PrintedEaText(Disp8Ea(0, 0xfc), false) == "[bx+si+252]"
    ensures IntelEaText(Disp8Ea(0, 0xfc), false) == "[bx+si-4]"
  {
    Digits252();
    assert NatToString(4) == "4";
    assert IndexedDisplacementText(0, 0xfc) == "+252";
    assert SignedDisplacementText(Signed8(0xfc)) == "-4";
  }

  lemma UnsignedDisplacementLine(printed: string, intel: string)
    requires printed == "[bx+si+252]" && intel == "[bx+si-4]"
    ensures Line(Mov, true, Name(RegisterEncoding(0, 0)), printed) == "mov al, [bx+si+252]"
    ensures Line(Mov, true, Name(RegisterEncoding(0, 0)), intel) == "mov al, [bx+si-4]"
  {
    assert Name(RegisterEncoding(0, 0)) == "al" && MnemonicText(Mov) == "mov";
  }

  // -----------------------------------------------------------------------
  // Concrete instructions.

  lemma MovRegisterToRegister()
    ensures PrintInstruction(ExampleFormats, [0x89, 0xd9]) == "mov cx, bx"
  {
    var a := RegMem(Mov, false, true, 3, RegisterEa(1));
    assert Encode(a) == [0x89, 0xd9];
    PrintEncode(a);
    RegisterToRegisterText();
  }

  lemma RegisterToRegisterText()
    ensures PrintedText(RegMem(Mov, false, true, 3, RegisterEa(1))) == "mov cx, bx"
  {
    assert Name(RegisterEncoding(1, 1)) == "cx" && Name(RegisterEncoding(1, 3)) == "bx";
  }

  lemma MovImmediateToByteRegister()
    ensures PrintInstruction(ExampleFormats, [0xb1, 0x0c]) == "mov cl, 12"
  {
    var a := MovImmediate(false, 1, 12);
    assert Encode(a) == [0xb1, 0x0c];
    PrintEncode(a);
    ByteImmediateText();
  }

  lemma ByteImmediateText()
    ensures PrintedText(MovImmediate(false, 1, 12)) == "mov cl, 12"
  {
    assert NatToString(1) == "1";
    assert NatToString(12) == NatToString(1) + [DigitChar(2)];
    assert Name(RegisterEncoding(0, 1)) == "cl";
  }

  lemma MovEightBitDisplacement()
    ensures PrintInstruction(ExampleFormats, [0x8a, 0x60, 0x04]) == "mov ah, [bx+si+4]"
  {
    var a := RegMem(Mov, true, false, 4, Disp8Ea(0, 4));
    PrintEncode(a);
    EightBitDisplacementText();
    EightBitDisplacementBytes();
  }

  lemma EightBitDisplacementEa()
    ensures PrintedEaText(Disp8Ea(0, 4), false) == "[bx+si+4]"
  {
    assert NatToString(4) == "4";
    assert IndexedDisplacementText(0, 4) == "+4";
  }

  lemma EightBitDisplacementText()
    ensures PrintedText(RegMem(Mov, true, false, 4, Disp8Ea(0, 4))) == "mov ah, [bx+si+4]"
  {
    EightBitDisplacementEa();
    EightBitDisplacementLine(PrintedEaText(Disp8Ea(0, 4), false));
  }

  lemma EightBitDisplacementLine(e: string)
    requires e == "[bx+si+4]"
    ensures Line(Mov, true, Name(RegisterEncoding(0, 4)), e) == "mov ah, [bx+si+4]"
  {
    assert Name(RegisterEncoding(0, 4)) == "ah" && MnemonicText(Mov) == "mov";
  }

  lemma EightBitDisplacementBytes()
    ensures Encode(RegMem(Mov, true, false, 4, Disp8Ea(0, 4))) == [0x8a, 0x60, 0x04]
  {
  }

  lemma MovToIndirectMemory()
    ensures PrintInstruction(ExampleFormats, [0x89, 0x09]) == "mov [bx+di], cx"
  {
    var a := RegMem(Mov, false, true, 1, IndirectEa(1));
    IndirectMemoryBytes();
    PrintEncode(a);
    IndirectMemoryText();
  }

  lemma IndirectMemoryBytes()
    ensures Encode(RegMem(Mov, false, true, 1, IndirectEa(1))) == [0x89, 0x09]
  {
  }

  lemma IndirectMemoryText()
    ensures PrintedText(RegMem(Mov, false, true, 1, IndirectEa(1))) == "mov [bx+di], cx"
  {
    assert PrintedEaText(IndirectEa(1), true) == "[bx+di]";
    assert Name(RegisterEncoding(1, 1)) == "cx";
  }

  lemma MovSixteenBitDisplacement()
    ensures PrintInstruction(ExampleFormats, [0x8a, 0x80, 0x87, 0x13]) == "mov al, [bx+si+4999]"
  {
    var a := RegMem(Mov, true, false, 0, Disp16Ea(0, 4999));
    PrintEncode(a);
    SixteenBitDisplacementText();
    SixteenBitDisplacementBytes();
  }

  lemma Digits4999()
    ensures NatToString(4999) == "4999"
  {
    assert NatToString(4) == "4";
    assert NatToString(49) == NatToString(4) + [DigitChar(9)];
    assert NatToString(499) == NatToString(49) + [DigitChar(9)];
    assert NatToString(4999) == NatToString(499) + [DigitChar(9)];
  }

  lemma SixteenBitDisplacementEa()
    ensures PrintedEaText(Disp16Ea(0, 4999), false) == "[bx+si+4999]"
  {
    Digits4999();
    assert IndexedDisplacementText(0, 4999) == "+4999";
  }

  lemma SixteenBitDisplacementText()
    ensures PrintedText(RegMem(Mov, true, false, 0, Disp16Ea(0, 4999))) == "mov al, [bx+si+4999]"
  {
    var a := RegMem(Mov, true, false, 0, Disp16Ea(0, 4999));
    var r, e := Name(RegisterEncoding(0, 0)), PrintedEaText(Disp16Ea(0, 4999), false);
    assert PrintedText(a) == MnemonicText(Mov) + " " + (r + ", " + e);
    SixteenBitDisplacementEa();
    assert r == "al" && MnemonicText(Mov) == "mov";
    SixteenBitDisplacementLine();
  }

  lemma SixteenBitDisplacementLine()
    ensures "mov" + " " + ("al" + ", " + "[bx+si+4999]") == "mov al, [bx+si+4999]"
  {
  }

  lemma SixteenBitDisplacementBytes()
    ensures Encode(RegMem(Mov, true, false, 0, Disp16Ea(0, 4999))) == [0x8a, 0x80, 0x87, 0x13]
  {
  }

  lemma BasePointerDecode(reg: nat, disp: Byte)
    requires reg <= 7
    ensures Decode(ExampleFormats, [0x03, 0x46 + 8 * reg, disp])
            == Some(DecodedInstruction(Add, [RegisterOperand(RegisterEncoding(1, reg)), Memory([TReg(BP)])]))
  {
    ExampleWellFormed();
    var bytes: seq<Byte> := [0x03, 0x46 + 8 * reg, disp];
    RegMemOpcodeFields(Add, true, true);
    ModRmFields(1, reg, 6, 0x03);
    Pow2Small();
    var f := ExampleFormats[2];
    var fl := Fields(1, 1, reg, 1, 6, 0);
    assert ReadFields(f, 0x03, At(bytes, 1)) == fl;
    ResolveTwo(f, Rm, Reg, fl, bytes, 3);
    assert f.operands == [Rm, Reg];
    DecodeVia(ExampleFormats, bytes, 2, fl, [Memory([TReg(BP)]), RegisterOperand(RegisterEncoding(1, reg))], 3);
  }

  lemma BasePointerOperand()
    ensures OperandText(Memory([TReg(BP)])) == "[bp]"
  {
    assert FilterTruthy([TReg(BP)]) == [TReg(BP)] by {
      assert [TReg(BP)][1..] == [];
    }
    assert TermsText([TReg(BP)]) == ["bp"];
  }

  lemma BasePointerText(name: string)
    ensures "add" + " " + name + ", " + OperandText(Memory([TReg(BP)])) == "add " + name + ", [bp]"
  {
    BasePointerOperand();
    var head := "add" + " " + name;
    assert head == "add " + name;
    assert head + ", " + "[bp]" == head + ", [bp]";
  }

  /**
   * MOD 01 with RM 110 names [bp] whatever the displacement byte holds: the
   * decoder does not read it.
   */
  lemma BpIgnoresDisplacement(reg: nat, disp: Byte)
    requires reg <= 7
    ensures PrintInstruction(ExampleFormats, [0x03, 0x46 + 8 * reg, disp])
              == "add " + Name(RegisterEncoding(1, reg)) + ", [bp]"
  {
    ExampleWellFormed();
    BasePointerDecode(reg, disp);
    RenderTwo(Add, RegisterOperand(RegisterEncoding(1, reg)), Memory([TReg(BP)]));
    BasePointerText(Name(RegisterEncoding(1, reg)));
  }

  lemma AddFromBasePointer()
    ensures PrintInstruction(ExampleFormats, [0x03, 0x5e, 0x00]) == "add bx, [bp]"
  {
    BpIgnoresDisplacement(3, 0);
  }

  /**
   * MOD 00 with RM 110 (direct addressing) of a word operation takes the
   * address from the ModRM byte (low) and the byte after it (high); the
   * last byte of the instruction is not read.
   */
  lemma DirectAddressUsesModRm(reg: nat, lo: Byte, hi: Byte)
    requires reg <= 7
    ensures var modrm := 0x06 + 8 * reg;
            Decode(ExampleFormats, [0x8b, modrm, lo, hi])
              == Some(DecodedInstruction(Mov, [RegisterOperand(RegisterEncoding(1, reg)), DirectMemory(lo * 256 + modrm)]))
  {
    ExampleWellFormed();
    var modrm := 0x06 + 8 * reg;
    var bytes: seq<Byte> := [0x8b, modrm, lo, hi];
    RegMemOpcodeFields(Mov, true, true);
    ModRmFields(0, reg, 6, 0x8b);
    Pow2Small();
    var f := ExampleFormats[0];
    var fl := Fields(1, 1, reg, 0, 6, 0);
    assert ReadFields(f, 0x8b, At(bytes, 1)) == fl;
    ResolveTwo(f, Rm, Reg, fl, bytes, 3);
  }

  /**
   * MOD 10 with RM 110 names the 16-bit displacement alone: the table entry
   * for RM 110 keeps only the value, so bp is not written.
   */
  lemma WordDisplacementDropsBp(reg: nat, lo: Byte, hi: Byte)
    requires reg <= 7
    ensures Decode(ExampleFormats, [0x8a, 0x86 + 8 * reg, lo, hi])
              == Some(DecodedInstruction(Mov, [RegisterOperand(RegisterEncoding(0, reg)), Memory([TNum(hi * 256 + lo)])]))
  {
    ExampleWellFormed();
    var bytes: seq<Byte> := [0x8a, 0x86 + 8 * reg, lo, hi];
    RegMemOpcodeFields(Mov, true, false);
    ModRmFields(2, reg, 6, 0x8a);
    Pow2Small();
    var f := ExampleFormats[0];
    var fl := Fields(1, 0, reg, 2, 6, 0);
    assert ReadFields(f, 0x8a, At(bytes, 1)) == fl;
    ResolveTwo(f, Rm, Reg, fl, bytes, 3);
  }

  /** MOD 10 with RM 110 prints the nonzero 16-bit displacement alone in brackets, with no bp. */
  lemma WordDisplacementText(reg: nat, lo: Byte, hi: Byte)
    requires reg <= 7 && hi * 256 + lo > 0
    ensures PrintInstruction(ExampleFormats, [0x8a, 0x86 + 8 * reg, lo, hi])
              == "mov " + Name(RegisterEncoding(0, reg)) + ", [" + NatToString(hi * 256 + lo) + "]"
  {
    ExampleWellFormed();
    var n := hi * 256 + lo;
    WordDisplacementDropsBp(reg, lo, hi);
    RenderTwo(Mov, RegisterOperand(RegisterEncoding(0, reg)), Memory([TNum(n)]));
    DisplacementOnlyText(n);
    assert MnemonicText(Mov) == "mov";
    MovLine(Name(RegisterEncoding(0, reg)), NatToString(n));
  }

  lemma MovLine(name: string, digits: string)
    ensures "mov" + " " + name + ", " + ("[" + digits + "]") == "mov " + name + ", [" + digits + "]"
  {
    var head := "mov" + " " + name;
    assert head == "mov " + name;
    assert head + ", " + ("[" + digits + "]") == head + ", [" + digits + "]";
  }

  /** A memory operand holding one nonzero number prints as that number in brackets. */
  lemma DisplacementOnlyText(n: nat)
    requires n > 0
    ensures OperandText(Memory([TNum(n)])) == "[" + NatToString(n) + "]"
  {
    assert FilterTruthy([TNum(n)]) == [TNum(n)] by {
      assert [TNum(n)][1..] == [];
    }
    assert TermsText([TNum(n)]) == [NatToString(n)];
  }

  /** 8a 86 34 12 prints "mov al, [4660]"; in Intel syntax it is "mov al, [bp+4660]". */
  lemma WordDisplacementWithoutBp()
    ensures PrintInstruction(ExampleFormats, [0x8a, 0x86, 0x34, 0x12]) == "mov al, [4660]"
  {
    WordDisplacementText(0, 0x34, 0x12);
    Digits4660();
    assert Name(RegisterEncoding(0, 0)) == "al";
  }

  lemma Digits4660()
    ensures NatToString(4660) == "4660"
  {
    assert NatToString(4) == "4";
    assert NatToString(46) == NatToString(4) + [DigitChar(6)];
    assert NatToString(466) == NatToString(46) + [DigitChar(6)];
    assert NatToString(4660) == NatToString(466) + [DigitChar(0)];
  }

  /**
   * MOD 00 with RM 110 of a byte operation takes the address to be the ModRM
   * byte itself; neither byte after it is read.
   */
  lemma ByteDirectAddressIsModRm(reg: nat, lo: Byte, hi: Byte)
    requires reg <= 7
    ensures var modrm := 0x06 + 8 * reg;
            Decode(ExampleFormats, [0x8a, modrm, lo, hi])
              == Some(DecodedInstruction(Mov, [RegisterOperand(RegisterEncoding(0, reg)), DirectMemory(modrm)]))
  {
    ExampleWellFormed();
    var modrm := 0x06 + 8 * reg;
    var bytes: seq<Byte> := [0x8a, modrm, lo, hi];
    RegMemOpcodeFields(Mov, true, false);
    ModRmFields(0, reg, 6, 0x8a);
    Pow2Small();
    var f := ExampleFormats[0];
    var fl := Fields(1, 0, reg, 0, 6, 0);
    assert ReadFields(f, 0x8a, At(bytes, 1)) == fl;
    ResolveTwo(f, Rm, Reg, fl, bytes, 3);
  }

  /** 8a 06 34 12 prints "mov al, [6]"; in Intel syntax it is "mov al, [4660]". */
  lemma ByteDirectAddressText()
    ensures PrintInstruction(ExampleFormats, [0x8a, 0x06, 0x34, 0x12]) == "mov al, [6]"
  {
    ByteDirectAddressIsModRm(0, 0x34, 0x12);
    RenderTwo(Mov, RegisterOperand(RegisterEncoding(0, 0)), DirectMemory(6));
    assert IntToString(6) == "6";
    assert Name(RegisterEncoding(0, 0)) == "al" && MnemonicText(Mov) == "mov";
  }
}
