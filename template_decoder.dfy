/**
 * The template-substitution decoder (index.ts): each opcode byte is looked
 * up in a decoding guide; entries with operand descriptors consume a second
 * byte and substitute register names for the {a}/{b} placeholders of the
 * entry's template.
 */
module TemplateDecoder {
  import opened Wrappers
  import opened Text
  import opened Tables
  import Decoder
  import Disassembler

  datatype RegisterMap = R8 | R16

  const r8: map<string, string> := map[
    "000" := "AL", "001" := "CL", "010" := "DL", "011" := "BL",
    "100" := "AH", "101" := "CH", "110" := "DH", "111" := "BH"]

  const r16: map<string, string> := map[
    "000" := "AX", "001" := "CX", "010" := "DX", "011" := "BX",
    "100" := "SP", "101" := "BP", "110" := "SI", "111" := "DI"]

  function Table(m: RegisterMap): map<string, string>
  {
    if m == R8 then r8 else r16
  }

  /** One (target, registerMap, shiftAmount) triple of an operand descriptor. */
  datatype Descriptor = Descriptor(target: string, registers: RegisterMap, shift: nat)

  /** A guide entry: a template and, when present, the descriptor triples (possibly none). */
  datatype GuideEntry = GuideEntry(template: string, reg: Option<seq<Descriptor>>)

  const regSourceByte: seq<Descriptor> := [Descriptor("a", R8, 0), Descriptor("b", R8, 3)]
  const regSourceWord: seq<Descriptor> := [Descriptor("a", R16, 0), Descriptor("b", R16, 3)]
  const regDestWord: seq<Descriptor> := [Descriptor("a", R16, 3), Descriptor("b", R16, 0)]
  const segRegSourceWord: seq<Descriptor> := []

  /** MachineInstructionDecodingGuide[opcode]: None where the guide has no entry (every key lies in 0x88..0xc7). */
  function Guide(opcode: Byte): Option<GuideEntry>
  {
    if opcode < 0x88 || 0xc7 < opcode then None
    else match opcode
    case 0x88 => Some(GuideEntry("MOV {a}, {b}", Some(regSourceByte)))
    case 0x89 => Some(GuideEntry("MOV {a}, {b}", Some(regSourceWord)))
    case 0x8b => Some(GuideEntry("MOV {a}, {b}", Some(regDestWord)))
    case 0x8c => Some(GuideEntry("MOV {a}, {b}", Some(segRegSourceWord)))
    case 0xa0 => Some(GuideEntry("MOV AL, {mem8}", None))
    case 0xa1 => Some(GuideEntry("MOV AX, {mem16}", None))
    case 0xa2 => Some(GuideEntry("MOV {mem8}, AL", None))
    case 0xa3 => Some(GuideEntry("MOV {mem16}, AL", None))
    case 0xa4 => Some(GuideEntry("MOVS DEST-STR8, SRC-STR8", None))
    case 0xa5 => Some(GuideEntry("MOVS DEST-STR16, SRC-STR16", None))
    case 0xb0 => Some(GuideEntry("MOV AL, {immed8}", None))
    case 0xb1 => Some(GuideEntry("MOV CL, {immed8}", None))
    case 0xb2 => Some(GuideEntry("MOV DL, {immed8}", None))
    case 0xb3 => Some(GuideEntry("MOV BL, {immed8}", None))
    case 0xb4 => Some(GuideEntry("MOV AH, {immed8}", None))
    case 0xb5 => Some(GuideEntry("MOV CH, {immed8}", None))
    case 0xb6 => Some(GuideEntry("MOV DH, {immed8}", None))
    case 0xb7 => Some(GuideEntry("MOV BH, {immed8}", None))
    case 0xb8 => Some(GuideEntry("MOV AX, {immed16}", None))
    case 0xb9 => Some(GuideEntry("MOV CX, {immed16}", None))
    case 0xba => Some(GuideEntry("MOV DX, {immed16}", None))
    case 0xbb => Some(GuideEntry("MOV BX, {immed16}", None))
    case 0xbc => Some(GuideEntry("MOV SP, {immed16}", None))
    case 0xbd => Some(GuideEntry("MOV BP, {immed16}", None))
    case 0xbe => Some(GuideEntry("MOV SI, {immed16}", None))
    case 0xbf => Some(GuideEntry("MOV DI, {immed16}", None))
    case 0xc6 => Some(GuideEntry("MOV {a}, {b}", None))
    case 0xc7 => Some(GuideEntry("MOV {a}, {b}", None))
    case _ => None
  }

  /** Upper-case rendering of a lower-case register name. */
  function Upper(s: string): (u: string)
    ensures |u| == |s|
  {
    seq(|s|, i requires 0 <= i < |s| => if 'a' <= s[i] <= 'z' then (s[i] as int - 32) as char else s[i])
  }

  lemma UpperName(r: Register)
    ensures Upper(Name(r)) == [Name(r)[0] - 32 as char, Name(r)[1] - 32 as char]
  {
  }

  lemma KeyOf(code: nat)
    requires code < 8
    ensures Disassembler.Bits(code, 3) == ["000", "001", "010", "011", "100", "101", "110", "111"][code]
  {
    if code == 0 { assert Disassembler.Bits(0, 3) == "000"; }
    else if code == 1 { assert Disassembler.Bits(1, 3) == "001"; }
    else if code == 2 { assert Disassembler.Bits(2, 3) == "010"; }
    else if code == 3 { assert Disassembler.Bits(3, 3) == "011"; }
    else if code == 4 { assert Disassembler.Bits(4, 3) == "100"; }
    else if code == 5 { assert Disassembler.Bits(5, 3) == "101"; }
    else if code == 6 { assert Disassembler.Bits(6, 3) == "110"; }
    else { assert Disassembler.Bits(7, 3) == "111"; }
  }

  /** Each row of r8 and r16 is registerEncoding's row, in upper case. */
  lemma TableAgrees(m: RegisterMap, code: nat)
    requires code < 8
    ensures Disassembler.Bits(code, 3) in Table(m)
    ensures Table(m)[Disassembler.Bits(code, 3)] == Upper(Name(RegisterEncoding(if m == R8 then 0 else 1, code)))
  {
    KeyOf(code);
    var key := ["000", "001", "010", "011", "100", "101", "110", "111"][code];
    UpperName(RegisterEncoding(if m == R8 then 0 else 1, code));
    if m == R8 {
      ByteRow(code, key);
    } else {
      WordRow(code, key);
    }
  }

  lemma ByteRow(code: nat, key: string)
    requires code < 8 && key == ["000", "001", "010", "011", "100", "101", "110", "111"][code]
    ensures key in r8 && r8[key] == [Name(RegisterEncoding(0, code))[0] - 32 as char, Name(RegisterEncoding(0, code))[1] - 32 as char]
  {
  }

  lemma WordRow(code: nat, key: string)
    requires code < 8 && key == ["000", "001", "010", "011", "100", "101", "110", "111"][code]
    ensures key in r16 && r16[key] == [Name(RegisterEncoding(1, code))[0] - 32 as char, Name(RegisterEncoding(1, code))[1] - 32 as char]
  {
  }

  /** `registerMap[registerCode.toString(2).padStart(3, '0')]`. */
  function RegisterName(m: RegisterMap, code: nat): (name: string)
    requires code < 8
    ensures name == Upper(Name(RegisterEncoding(if m == R8 then 0 else 1, code)))
  {
    TableAgrees(m, code);
    Table(m)[Disassembler.Bits(code, 3)]
  }

  /** A descriptor substitutes when its target is 'a', or 'b' with a non-zero shift. */
  predicate Applies(d: Descriptor)
  {
    d.target == "a" || (d.target == "b" && d.shift != 0)
  }

  function Substitute(template: string, d: Descriptor, operandByte: Byte): string
  {
    if Applies(d) then
      ReplaceFirst(template, "{" + d.target + "}", RegisterName(d.registers, (operandByte / Pow2(d.shift)) % 8))
    else template
  }

  /** The template after the first |descs| triples, in order. */
  function ApplyAll(template: string, descs: seq<Descriptor>, operandByte: Byte): string
  {
    if descs == [] then template
    else Substitute(ApplyAll(template, descs[..|descs| - 1], operandByte), descs[|descs| - 1], operandByte)
  }

  /** Reading `.template` of a missing guide entry throws. */
  datatype DecodeError = MissingEntry(opcode: Byte)

  /** The line emitted for the opcode at `cursor`, and the cursor after it. */
  function Step(instruction: seq<Byte>, cursor: nat): (r: (string, nat))
    requires cursor < |instruction| && Guide(instruction[cursor]).Some?
    ensures r.1 == cursor + 1 || r.1 == cursor + 2
  {
    var entry := Guide(instruction[cursor]).value;
    if entry.reg.Some? then
      (ApplyAll(entry.template, entry.reg.value, Decoder.Num(Decoder.At(instruction, cursor + 1))), cursor + 2)
    else (entry.template, cursor + 1)
  }

  /** The lines for every opcode from `cursor` on; one or two bytes are consumed per line. */
  function DecodeFrom(instruction: seq<Byte>, cursor: nat): (r: Result<seq<string>, DecodeError>)
    ensures r.Ok? && cursor <= |instruction| ==>
              2 * |r.value| >= |instruction| - cursor && |r.value| <= |instruction| - cursor
    decreases |instruction| - cursor
  {
    if cursor >= |instruction| then Ok([])
    else if Guide(instruction[cursor]).None? then Err(MissingEntry(instruction[cursor]))
    else
      var (line, next) := Step(instruction, cursor);
      match DecodeFrom(instruction, next)
      case Ok(rest) => Ok([line] + rest)
      case Err(e) => Err(e)
  }

  /** Unfolds one line of DecodeFrom. */
  lemma DecodeFromStep(instruction: seq<Byte>, cursor: nat)
    requires cursor < |instruction| && Guide(instruction[cursor]).Some?
    ensures DecodeFrom(instruction, cursor) == Prepend([Step(instruction, cursor).0], DecodeFrom(instruction, Step(instruction, cursor).1))
  {
  }

  function Prepend(lines: seq<string>, r: Result<seq<string>, DecodeError>): Result<seq<string>, DecodeError>
  {
    match r
    case Ok(rest) => Ok(lines + rest)
    case Err(e) => Err(e)
  }

  /** The line before the remaining lines, appended to those already emitted. */
  lemma PrependLine(lines: seq<string>, line: string, r: Result<seq<string>, DecodeError>)
    ensures Prepend(lines, Prepend([line], r)) == Prepend(lines + [line], r)
  {
    if r.Ok? {
      assert lines + ([line] + r.value) == (lines + [line]) + r.value;
    }
  }

  /** An opcode without a guide entry ends decoding with an error. */
  lemma MissingAt(instruction: seq<Byte>, cursor: nat)
    requires cursor < |instruction| && Guide(instruction[cursor]).None?
    ensures DecodeFrom(instruction, cursor) == Err(MissingEntry(instruction[cursor]))
  {
  }

  /** The descriptor loop of decodeInstruction: triples applied in order to the template. */
  method FillTemplate(template: string, descs: seq<Descriptor>, operandByte: Byte) returns (mnemonicTemplate: string)
    ensures mnemonicTemplate == ApplyAll(template, descs, operandByte)
  {
    mnemonicTemplate := template;
    var i := 0;
    while i < |descs|
      invariant 0 <= i <= |descs|
      invariant mnemonicTemplate == ApplyAll(template, descs[..i], operandByte)
    {
      assert descs[..i + 1][..i] == descs[..i];
      var d := descs[i];
      if d.target == "a" || (d.target == "b" && d.shift != 0) {
        var registerCode := (operandByte / Pow2(d.shift)) % 8;
        var registerName := RegisterName(d.registers, registerCode);
        mnemonicTemplate := ReplaceFirst(mnemonicTemplate, "{" + d.target + "}", registerName);
      }
      i := i + 1;
    }
    assert descs[..i] == descs;
  }

  /** decodeInstruction: the cursor loop, one template per opcode. */
  method DecodeInstruction(instruction: seq<Byte>) returns (r: Result<seq<string>, DecodeError>)
    ensures r == DecodeFrom(instruction, 0)
  {
    var assemblyCode: seq<string> := [];
    var cursor := 0;
    if DecodeFrom(instruction, 0).Ok? {
      assert [] + DecodeFrom(instruction, 0).value == DecodeFrom(instruction, 0).value;
    }
    while cursor < |instruction|
      invariant DecodeFrom(instruction, 0) == Prepend(assemblyCode, DecodeFrom(instruction, cursor))
      decreases |instruction| - cursor
    {
      ghost var start := cursor;
      var opcode := instruction[cursor];
      cursor := cursor + 1;
      var decodedInstruction := Guide(opcode);
      if decodedInstruction.None? {
        MissingAt(instruction, start);
        return Err(MissingEntry(opcode));
      }
      var entry := decodedInstruction.value;
      var mnemonicTemplate := entry.template;
      if entry.reg.Some? {
        var operandByte := Decoder.Num(Decoder.At(instruction, cursor));
        cursor := cursor + 1;
        mnemonicTemplate := FillTemplate(mnemonicTemplate, entry.reg.value, operandByte);
      }
      assert (mnemonicTemplate, cursor) == Step(instruction, start);
      DecodeFromStep(instruction, start);
      PrependLine(assemblyCode, mnemonicTemplate, DecodeFrom(instruction, cursor));
      assemblyCode := assemblyCode + [mnemonicTemplate];
    }
    r := Ok(assemblyCode);
    assert assemblyCode + [] == assemblyCode;
  }

  // -----------------------------------------------------------------------
  // What the guide's entries render.

  lemma NoBrace(r: Register)
    ensures forall i :: 0 <= i < |Upper(Name(r))| ==> Upper(Name(r))[i] != '{'
  {
    UpperName(r);
  }

  lemma ApplyTwo(template: string, x: Descriptor, y: Descriptor, b: Byte)
    ensures ApplyAll(template, [x, y], b) == Substitute(Substitute(template, x, b), y, b)
  {
    assert [x, y][..1] == [x];
    assert [x][..0] == [];
    assert ApplyAll(template, [x], b) == Substitute(template, x, b);
  }

  /** A descriptor that applies puts its register name where the first '{' of the template opens its placeholder. */
  lemma SubstituteAt(p: string, q: string, d: Descriptor, b: Byte)
    requires Applies(d)
    requires forall i :: 0 <= i < |p| ==> p[i] != '{'
    ensures Substitute(p + ("{" + d.target + "}") + q, d, b)
              == p + RegisterName(d.registers, (b / Pow2(d.shift)) % 8) + q
  {
    var pat := "{" + d.target + "}";
    assert pat[0] == '{';
    ReplaceFirstAfter(p, pat, q, RegisterName(d.registers, (b / Pow2(d.shift)) % 8));
  }

  /** The {a} substitution on the template "MOV {a}, {b}". */
  lemma FirstSubstitution(x: Descriptor, b: Byte)
    requires x.target == "a"
    ensures Substitute("MOV {a}, {b}", x, b) == "MOV " + RegisterName(x.registers, (b / Pow2(x.shift)) % 8) + ", {b}"
  {
    assert "MOV {a}, {b}" == "MOV " + ("{" + x.target + "}") + ", {b}";
    SubstituteAt("MOV ", ", {b}", x, b);
  }

  /** The {b} substitution, once {a} holds a register name. */
  lemma SecondSubstitution(rm: string, y: Descriptor, b: Byte)
    requires y.target == "b" && y.shift != 0
    requires forall i :: 0 <= i < |rm| ==> rm[i] != '{'
    ensures Substitute("MOV " + rm + ", {b}", y, b) == "MOV " + rm + ", " + RegisterName(y.registers, (b / Pow2(y.shift)) % 8)
  {
    var p := "MOV " + rm + ", ";
    assert forall i :: 0 <= i < |p| ==> p[i] != '{';
    assert "MOV " + rm + ", {b}" == p + ("{" + y.target + "}") + "";
    SubstituteAt(p, "", y, b);
    assert p + RegisterName(y.registers, (b / Pow2(y.shift)) % 8) + "" == p + RegisterName(y.registers, (b / Pow2(y.shift)) % 8);
  }

  /** The two substitutions of a source-register entry, on the template "MOV {a}, {b}". */
  lemma FillSourceTemplate(x: Descriptor, y: Descriptor, b: Byte)
    requires x.target == "a" && y.target == "b" && y.shift != 0
    requires x.registers == y.registers
    ensures var rm := RegisterName(x.registers, (b / Pow2(x.shift)) % 8);
            var reg := RegisterName(y.registers, (b / Pow2(y.shift)) % 8);
            ApplyAll("MOV {a}, {b}", [x, y], b) == "MOV " + rm + ", " + reg
  {
    ApplyTwo("MOV {a}, {b}", x, y, b);
    FirstSubstitution(x, b);
    NoBrace(RegisterEncoding(if x.registers == R8 then 0 else 1, (b / Pow2(x.shift)) % 8));
    SecondSubstitution(RegisterName(x.registers, (b / Pow2(x.shift)) % 8), y, b);
  }

  /** The guide entries of 0x88 and 0x89. */
  lemma SourceEntry(opcode: Byte)
    requires opcode == 0x88 || opcode == 0x89
    ensures var m := if opcode == 0x88 then R8 else R16;
            Guide(opcode) == Some(GuideEntry("MOV {a}, {b}", Some([Descriptor("a", m, 0), Descriptor("b", m, 3)])))
  {
  }

  /** An entry with descriptors reads the next byte as its operand byte. */
  lemma StepWithOperand(instruction: seq<Byte>, cursor: nat, entry: GuideEntry)
    requires cursor + 1 < |instruction| && Guide(instruction[cursor]) == Some(entry) && entry.reg.Some?
    ensures Step(instruction, cursor) == (ApplyAll(entry.template, entry.reg.value, instruction[cursor + 1]), cursor + 2)
  {
    assert Decoder.Num(Decoder.At(instruction, cursor + 1)) == instruction[cursor + 1];
  }

  /**
   * 0x88 and 0x89 render "MOV rm, reg": {a} takes the register in bits 0-2
   * of the operand byte and {b} the one in bits 3-5, both in upper case, from
   * the 8-bit row for 0x88 and the 16-bit row for 0x89.
   */
  lemma RegisterSourceLine(instruction: seq<Byte>, cursor: nat)
    requires cursor + 1 < |instruction|
    requires instruction[cursor] == 0x88 || instruction[cursor] == 0x89
    ensures var w := instruction[cursor] - 0x88;
            var b := instruction[cursor + 1];
            Step(instruction, cursor)
              == ("MOV " + Upper(Name(RegisterEncoding(w, b % 8))) + ", " + Upper(Name(RegisterEncoding(w, (b / 8) % 8))), cursor + 2)
  {
    var op := instruction[cursor];
    var b := instruction[cursor + 1];
    var m := if op == 0x88 then R8 else R16;
    var x, y := Descriptor("a", m, 0), Descriptor("b", m, 3);
    SourceEntry(op);
    StepWithOperand(instruction, cursor, GuideEntry("MOV {a}, {b}", Some([x, y])));
    var line := ApplyAll("MOV {a}, {b}", [x, y], b);
    assert Step(instruction, cursor) == (line, cursor + 2);
    ShiftCodes(b);
    FillSourceTemplate(x, y, b);
    var w := op - 0x88;
    assert (if m == R8 then 0 else 1) == w;
    var rm, reg := RegisterName(m, b % 8), RegisterName(m, (b / 8) % 8);
    assert line == "MOV " + rm + ", " + reg;
    assert rm == Upper(Name(RegisterEncoding(w, b % 8)));
    assert reg == Upper(Name(RegisterEncoding(w, (b / 8) % 8)));
  }

  lemma ShiftCodes(b: Byte)
    ensures (b / Pow2(0)) % 8 == b % 8 && (b / Pow2(3)) % 8 == (b / 8) % 8
  {
    assert Pow2(0) == 1 && Pow2(3) == 8;
  }

  /** 0x8b substitutes only {a}: its {b} triple has shift 0, so the literal '{b}' stays. */
  lemma RegisterDestinationLine(instruction: seq<Byte>, cursor: nat)
    requires cursor + 1 < |instruction| && instruction[cursor] == 0x8b
    ensures var b := instruction[cursor + 1];
            Step(instruction, cursor) == ("MOV " + Upper(Name(RegisterEncoding(1, (b / 8) % 8))) + ", {b}", cursor + 2)
  {
    var b := instruction[cursor + 1];
    var x, y := Descriptor("a", R16, 3), Descriptor("b", R16, 0);
    assert Guide(instruction[cursor]) == Some(GuideEntry("MOV {a}, {b}", Some([x, y])));
    StepWithOperand(instruction, cursor, GuideEntry("MOV {a}, {b}", Some([x, y])));
    ApplyTwo("MOV {a}, {b}", x, y, b);
    assert Pow2(3) == 8;
    FirstSubstitution(x, b);
  }

  /** 0x8c has an empty descriptor list: it consumes the operand byte and keeps its template. */
  lemma SegmentLine(instruction: seq<Byte>, cursor: nat)
    requires cursor < |instruction| && instruction[cursor] == 0x8c
    ensures Step(instruction, cursor) == ("MOV {a}, {b}", cursor + 2)
  {
    assert Guide(instruction[cursor]) == Some(GuideEntry("MOV {a}, {b}", Some([])));
  }

  /** Entries without descriptors consume the opcode alone and emit their template unchanged. */
  lemma TemplateOnlyLine(instruction: seq<Byte>, cursor: nat)
    requires cursor < |instruction| && Guide(instruction[cursor]).Some?
    requires Guide(instruction[cursor]).value.reg.None?
    ensures Step(instruction, cursor) == (Guide(instruction[cursor]).value.template, cursor + 1)
  {
  }

  /** Bytes 88 fd decode to the single line MOV CH, BH. */
  lemma MovChBh(instruction: seq<Byte>)
    requires |instruction| == 2 && instruction[0] == 0x88 && instruction[1] == 0xfd
    ensures DecodeFrom(instruction, 0) == Ok(["MOV CH, BH"])
  {
    ChBhStep(instruction);
    DecodeFromStep(instruction, 0);
    assert DecodeFrom(instruction, 2) == Ok([]);
    assert ["MOV CH, BH"] + [] == ["MOV CH, BH"];
  }

  lemma ChBhStep(instruction: seq<Byte>)
    requires |instruction| == 2 && instruction[0] == 0x88 && instruction[1] == 0xfd
    ensures Step(instruction, 0) == ("MOV CH, BH", 2)
  {
    ChBhCodes(instruction[1]);
    RegisterSourceLine(instruction, 0);
    ChBhNames();
    ChBhLine();
  }

  lemma ChBhCodes(b: int)
    requires b == 0xfd
    ensures b % 8 == 5 && (b / 8) % 8 == 7
  {
  }

  lemma ChBhNames()
    ensures Upper(Name(RegisterEncoding(0, 5))) == "CH" && Upper(Name(RegisterEncoding(0, 7))) == "BH"
  {
    assert RegisterEncoding(0, 5) == CH && RegisterEncoding(0, 7) == BH;
    UpperName(CH);
    UpperName(BH);
  }

  lemma ChBhLine()
    ensures "MOV " + "CH" + ", " + "BH" == "MOV CH, BH"
  {
  }

  /** An immediate entry does not consume its data byte, which is then read as an opcode. */
  lemma ImmediateDataReadAsOpcode(instruction: seq<Byte>)
    requires |instruction| >= 2 && instruction[0] == 0xb1 && instruction[1] == 0x0c
    ensures DecodeFrom(instruction, 0) == Err(MissingEntry(0x0c))
  {
    assert Guide(0xb1) == Some(GuideEntry("MOV CL, {immed8}", None));
    TemplateOnlyLine(instruction, 0);
    DecodeFromStep(instruction, 0);
    MissingAt(instruction, 1);
  }

}
