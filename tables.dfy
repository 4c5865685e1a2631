/**
 * Static data of the 8086 MOV/ADD decoder: the register name table, the
 * effective-address table, the D/W/REG field extractors and the ordered
 * registry of instruction formats matched by `(byte & mask) == opcode`.
 * Encodings follow the 8086 Family User's Manual, Table 4-12.
 */
module Tables {
  import opened Wrappers

  type Byte = x: int | 0 <= x < 256

  datatype Mnemonic = Mov | Add

  function MnemonicText(m: Mnemonic): string
  {
    match m
    case Mov => "mov"
    case Add => "add"
  }

  /** The sixteen general registers: eight byte halves and eight words. */
  datatype Register = AL | CL | DL | BL | AH | CH | DH | BH
                    | AX | CX | DX | BX | SP | BP | SI | DI

  function Name(r: Register): string
  {
    match r
    case AL => "al" case CL => "cl" case DL => "dl" case BL => "bl"
    case AH => "ah" case CH => "ch" case DH => "dh" case BH => "bh"
    case AX => "ax" case CX => "cx" case DX => "dx" case BX => "bx"
    case SP => "sp" case BP => "bp" case SI => "si" case DI => "di"
  }

  predicate IsWord(r: Register)
  {
    r in {AX, CX, DX, BX, SP, BP, SI, DI}
  }

  /**
   * For a byte register, the word register it is part of and whether it is
   * the high half (al is the low byte of ax, ah its high byte, and so on).
   */
  function ByteHalfOf(r: Register): (Register, bool)
    requires !IsWord(r)
  {
    match r
    case AL => (AX, false) case CL => (CX, false) case DL => (DX, false) case BL => (BX, false)
    case AH => (AX, true)  case CH => (CX, true)  case DH => (DX, true)  case BH => (BX, true)
  }

  /** The manual's word-register numbering: ax cx dx bx sp bp si di. */
  function WordCode(r: Register): nat
    requires IsWord(r)
  {
    match r
    case AX => 0 case CX => 1 case DX => 2 case BX => 3
    case SP => 4 case BP => 5 case SI => 6 case DI => 7
  }

  /**
   * registerEncoding[w][code]. A word register is numbered by WordCode; the
   * byte codes 0-3 name the low halves and 4-7 the high halves of ax, cx,
   * dx and bx.
   */
  function RegisterEncoding(w: nat, code: nat): (r: Register)
    requires w <= 1 && code <= 7
    ensures IsWord(r) <==> w == 1
    ensures w == 1 ==> WordCode(r) == code
    ensures w == 0 ==> WordCode(ByteHalfOf(r).0) == code % 4 && ByteHalfOf(r).1 == (code >= 4)
  {
    if w == 1 then [AX, CX, DX, BX, SP, BP, SI, DI][code]
    else [AL, CL, DL, BL, AH, CH, DH, BH][code]
  }

  /** The table reaches every register, from exactly one (w, code) pair. */
  lemma RegisterEncodingBijective(r: Register)
    ensures exists w: nat, code: nat :: w <= 1 && code <= 7 && RegisterEncoding(w, code) == r
    ensures forall w: nat, code: nat, w': nat, code': nat ::
              (w <= 1 && code <= 7 && w' <= 1 && code' <= 7 && RegisterEncoding(w, code) == RegisterEncoding(w', code'))
              ==> w == w' && code == code'
  {
    var w: nat := if IsWord(r) then 1 else 0;
    var code: nat :=
      if IsWord(r) then WordCode(r)
      else WordCode(ByteHalfOf(r).0) + (if ByteHalfOf(r).1 then 4 else 0);
    assert RegisterEncoding(w, code) == r;
  }

  /** All sixteen names are different. */
  lemma NamesDistinct(r: Register, r': Register)
    requires Name(r) == Name(r')
    ensures r == r'
  {
  }

  // ---------------------------------------------------------------------
  // Field extractors: D(shift), W(shift) and REG(shift) are `(x >> shift) & mask`.

  function Pow2(n: nat): (r: nat)
    ensures r >= 1
  {
    if n == 0 then 1 else 2 * Pow2(n - 1)
  }

  /**
   * An extractor reads `width` bits of its argument starting at bit `shift`
   * (`(x >> shift) & (2^width - 1)` on a non-negative x), or ignores its
   * argument and yields a constant, as the `() => 1` W of the 0xb8 entry.
   */
  datatype Extractor = Field(shift: nat, width: nat) | Constant(value: nat)

  function Extract(e: Extractor, x: nat): (r: nat)
    ensures e.Field? ==> r < Pow2(e.width)
  {
    match e
    case Field(shift, width) => (x / Pow2(shift)) % Pow2(width)
    case Constant(v) => v
  }

  function D(shift: nat): Extractor { Field(shift, 1) }
  function W(shift: nat): Extractor { Field(shift, 1) }
  function REG(shift: nat): Extractor { Field(shift, 3) }

  /** D and W read one bit, so they yield 0 or 1; REG reads three bits, so it yields 0..7. */
  lemma ExtractorRanges(shift: nat, x: nat)
    ensures Extract(D(shift), x) <= 1 && Extract(W(shift), x) <= 1
    ensures Extract(REG(shift), x) <= 7
  {
    assert Pow2(1) == 2;
    assert Pow2(3) == 8;
  }

  /** `(first << 8) | second`: the two bits ranges do not overlap, so OR is addition. */
  function Combine(first: Byte, second: Byte): nat
  {
    first * 256 + second
  }

  /** On the combined first and second byte, REG(3) reads bits 3-5 of the second byte and REG(8) the low three bits of the first. */
  lemma RegOnCombined(first: Byte, second: Byte)
    ensures Extract(REG(3), Combine(first, second)) == (second / 8) % 8
    ensures Extract(REG(8), Combine(first, second)) == first % 8
  {
    assert Pow2(3) == 8;
    assert Pow2(8) == 256;
    var c := Combine(first, second);
    assert c / 8 == first * 32 + second / 8;
    assert (first * 32 + second / 8) % 8 == (second / 8) % 8;
    assert c / 256 == first;
  }

  /** W(3) on the immediate-to-register opcodes: 0 for b0-b7 (byte registers), 1 for b8-bf (words). */
  lemma WidthOfImmediateOpcodes(b: Byte)
    requires 0xb0 <= b <= 0xbf
    ensures Extract(W(3), b) == if b >= 0xb8 then 1 else 0
  {
    assert Pow2(3) == 8;
    assert Pow2(1) == 2;
    assert b / 8 == if b >= 0xb8 then 23 else 22;
  }

  // ---------------------------------------------------------------------
  // Effective-address table.

  /**
   * One element of a memory operand's address array: a register, a number,
   * JavaScript's `undefined` (a displacement argument that was never given
   * or a byte read past the end of the buffer), or a nested array.
   */
  datatype Term = TReg(reg: Register) | TNum(n: int) | TUndefined | TList(items: seq<Term>)

  /**
   * baseRegister[rm](val). For rm 0-3 the base is bx or bp (bit 1 of rm) and
   * the index si or di (bit 0), followed by the argument; 4, 5 and 7 give si, di
   * and bx alone and ignore the argument; 6 yields the argument alone.
   */
  function BaseRegister(rm: nat, val: Term): (r: seq<Term>)
    requires rm <= 7
    ensures rm <= 3 ==> r == [TReg(if rm < 2 then BX else BP), TReg(if rm % 2 == 0 then SI else DI), val]
    ensures rm == 4 ==> r == [TReg(SI)]
    ensures rm == 5 ==> r == [TReg(DI)]
    ensures rm == 7 ==> r == [TReg(BX)]
    ensures rm == 6 ==> r == [val]
  {
    match rm
    case 0 => [TReg(BX), TReg(SI), val]
    case 1 => [TReg(BX), TReg(DI), val]
    case 2 => [TReg(BP), TReg(SI), val]
    case 3 => [TReg(BP), TReg(DI), val]
    case 4 => [TReg(SI)]
    case 5 => [TReg(DI)]
    case 6 => [val]
    case 7 => [TReg(BX)]
  }

  // ---------------------------------------------------------------------
  // The instruction-format registry.

  /** The source's OperandType enum: REG, RM and imm. */
  datatype OperandType = Reg | Rm | Imm

  datatype InstructionFormat = InstructionFormat(
    opcode: bv8,
    mask: bv8,
    mnemonic: Mnemonic,
    operands: seq<OperandType>,
    d: Option<Extractor>,
    w: Extractor,
    reg: Extractor)

  const instructionFormats: seq<InstructionFormat> := [
    // register/memory to/from register
    InstructionFormat(0x88, 0xfc, Mov, [Rm, Reg], Some(D(1)), W(0), REG(3)),
    InstructionFormat(0x89, 0xfc, Mov, [Rm, Reg], Some(D(1)), W(0), REG(3)),
    InstructionFormat(0x8a, 0xfc, Mov, [Reg, Rm], Some(D(1)), W(0), REG(3)),
    InstructionFormat(0x8b, 0xfc, Mov, [Reg, Rm], Some(D(1)), W(0), REG(3)),
    // immediate to register
    InstructionFormat(0xb0, 0xf0, Mov, [Reg, Imm], None, W(3), REG(8)),
    InstructionFormat(0xb8, 0xf8, Mov, [Reg, Imm], None, Constant(1), Field(0, 3)),
    // add
    InstructionFormat(0x00, 0xfe, Add, [Rm, Reg], Some(D(1)), W(0), REG(3)),
    InstructionFormat(0x01, 0xfe, Add, [Rm, Reg], Some(D(1)), W(0), REG(3)),
    InstructionFormat(0x02, 0xfe, Add, [Rm, Reg], Some(D(1)), W(0), REG(3))
  ]

  predicate Matches(f: InstructionFormat, b: bv8)
  {
    b & f.mask == f.opcode
  }

  /** The index of the first format, from position `from` on, that accepts b. */
  function FirstMatchFrom(formats: seq<InstructionFormat>, b: bv8, from: nat): (r: Option<nat>)
    requires from <= |formats|
    ensures r.Some? ==> from <= r.value < |formats| && Matches(formats[r.value], b)
                        && forall j :: from <= j < r.value ==> !Matches(formats[j], b)
    ensures r.None? ==> forall j :: from <= j < |formats| ==> !Matches(formats[j], b)
    decreases |formats| - from
  {
    if from == |formats| then None
    else if Matches(formats[from], b) then Some(from)
    else FirstMatchFrom(formats, b, from + 1)
  }

  /** First-match lookup in registry order: the entry that decodes a first byte. */
  function FirstMatch(formats: seq<InstructionFormat>, b: bv8): (r: Option<nat>)
    ensures r.Some? ==> r.value < |formats| && Matches(formats[r.value], b)
                        && forall j :: 0 <= j < r.value ==> !Matches(formats[j], b)
    ensures r.None? ==> forall j :: 0 <= j < |formats| ==> !Matches(formats[j], b)
  {
    FirstMatchFrom(formats, b, 0)
  }

  /**
   * What first-match lookup does with every byte: 88-8b select entry 0,
   * b0-bf entry 4, 00-01 entry 6 and 02-03 entry 8; everything else is
   * unknown.
   */
  lemma FirstMatchTable(b: bv8)
    ensures FirstMatch(instructionFormats, b) ==
      if 0x88 <= b <= 0x8b then Some(0)
      else if 0xb0 <= b <= 0xbf then Some(4)
      else if b <= 0x01 then Some(6)
      else if 0x02 <= b <= 0x03 then Some(8)
      else None
  {
    var fs := instructionFormats;
    MaskFacts(b);
    var m0, m1, m2, m3, m4 := Matches(fs[0], b), Matches(fs[1], b), Matches(fs[2], b), Matches(fs[3], b), Matches(fs[4], b);
    var m5, m6, m7, m8 := Matches(fs[5], b), Matches(fs[6], b), Matches(fs[7], b), Matches(fs[8], b);
    assert m0 == (0x88 <= b <= 0x8b) && !m1 && !m2 && !m3;
    assert m4 == (0xb0 <= b <= 0xbf) && m5 == (0xb8 <= b <= 0xbf);
    assert m6 == (b <= 0x01) && !m7 && m8 == (0x02 <= b <= 0x03);
    var r := FirstMatchFrom(fs, b, 0);
    if r.Some? {
      var k := r.value;
      assert k < 9;
      assert k == 0 || k == 4 || k == 6 || k == 8;
    }
  }

  /** The byte ranges each (opcode, mask) pair of the registry accepts. */
  lemma MaskFacts(b: bv8)
    ensures b & 0xfc == 0x88 <==> 0x88 <= b <= 0x8b
    ensures b & 0xfc != 0x89 && b & 0xfc != 0x8a && b & 0xfc != 0x8b
    ensures b & 0xf0 == 0xb0 <==> 0xb0 <= b <= 0xbf
    ensures b & 0xf8 == 0xb8 <==> 0xb8 <= b <= 0xbf
    ensures b & 0xfe == 0x00 <==> b <= 0x01
    ensures b & 0xfe != 0x01
    ensures b & 0xfe == 0x02 <==> 0x02 <= b <= 0x03
  {
  }

  /** Entries 1, 2, 3 (0x89, 0x8a, 0x8b), 5 (0xb8, shadowed by 0xb0) and 7 (0x01) are never selected. */
  lemma UnreachableEntries(b: bv8)
    ensures FirstMatch(instructionFormats, b) !in {Some(1), Some(2), Some(3), Some(5), Some(7)}
  {
    FirstMatchTable(b);
  }

  /**
   * Every entry has two operand roles; the register/memory entries read D
   * from bit 1, W from bit 0 and REG from bits 3-5 of the ModRM byte; the
   * two immediate entries have no D.
   */
  lemma RegistryShape(i: nat)
    requires i < |instructionFormats|
    ensures |instructionFormats[i].operands| == 2
    ensures Rm in instructionFormats[i].operands ==>
              instructionFormats[i].d == Some(D(1)) && instructionFormats[i].w == W(0) && instructionFormats[i].reg == REG(3)
    ensures Imm in instructionFormats[i].operands <==> instructionFormats[i].d.None?
  {
  }
}
