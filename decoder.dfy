/**
 * The table-driven decoder and renderer of one 8086 MOV/ADD instruction
 * (part1/index.ts). The decoder's own format registry is given as a
 * parameter: each format names a mnemonic, an opcode compared with
 * `firstByte >> shiftLeft`, an ordered list of operand roles, optional
 * D/W/REG/S extractors, an immediate-value function IMM and an optional
 * displacement function DISP.
 */
module Decoder {
  import opened Wrappers
  import opened Text
  import opened Tables

  datatype Format = Format(
    mnemonic: Mnemonic,
    opcode: nat,
    shiftLeft: nat,
    operands: seq<OperandType>,
    d: Option<Extractor>,
    w: Option<Extractor>,
    reg: Option<Extractor>,
    s: Option<Extractor>,
    imm: (nat, nat, Option<Byte>, Option<Byte>) -> int,
    disp: Option<(Option<Byte>, Option<Byte>) -> int>)

  /** A W extractor yields 0 or 1 and a REG extractor 0..7, so registerEncoding[w][reg] is always defined. */
  predicate WidthExtractor(e: Option<Extractor>)
  {
    e.None? || (e.value.Field? && e.value.width <= 1) || (e.value.Constant? && e.value.value <= 1)
  }

  predicate RegisterExtractor(e: Option<Extractor>)
  {
    e.None? || (e.value.Field? && e.value.width <= 3) || (e.value.Constant? && e.value.value <= 7)
  }

  /** What the decoder relies on in every format of its registry: two operand roles and in-range W and REG. */
  predicate WellFormed(f: Format)
  {
    |f.operands| == 2 && WidthExtractor(f.w) && RegisterExtractor(f.reg)
  }

  predicate WellFormedRegistry(formats: seq<Format>)
  {
    forall i :: 0 <= i < |formats| ==> WellFormed(formats[i])
  }

  datatype Operand =
    | RegisterOperand(register: Register)
    | Immediate(value: int)
    | Memory(terms: seq<Term>)
    | DirectMemory(address: int)

  datatype DecodedInstruction = DecodedInstruction(mnemonic: Mnemonic, operands: seq<Operand>)

  /** `instructionStream[i]`: undefined past the end of the buffer. */
  function At(stream: seq<Byte>, i: nat): Option<Byte>
  {
    if i < |stream| then Some(stream[i]) else None
  }

  /** A possibly undefined byte as a bitwise operator sees it: undefined becomes 0. */
  function Num(b: Option<Byte>): Byte
  {
    if b.Some? then b.value else 0
  }

  /** A possibly undefined byte passed on as an array element. */
  function TermOf(b: Option<Byte>): Term
  {
    if b.Some? then TNum(b.value) else TUndefined
  }

  predicate Selects(f: Format, firstByte: Byte)
  {
    firstByte / Pow2(f.shiftLeft) == f.opcode
  }

  /** `instructionFormats.find(...)`: the first format, from `from` on, whose opcode equals `firstByte >> shiftLeft`. */
  function FindFormat(formats: seq<Format>, firstByte: Byte, from: nat := 0): (r: Option<nat>)
    requires from <= |formats|
    ensures r.Some? ==> from <= r.value < |formats| && Selects(formats[r.value], firstByte)
                        && forall j :: from <= j < r.value ==> !Selects(formats[j], firstByte)
    ensures r.None? ==> forall j :: from <= j < |formats| ==> !Selects(formats[j], firstByte)
    decreases |formats| - from
  {
    if from == |formats| then None
    else if Selects(formats[from], firstByte) then Some(from)
    else FindFormat(formats, firstByte, from + 1)
  }

  lemma Pow2Small()
    ensures Pow2(0) == 1 && Pow2(1) == 2 && Pow2(2) == 4 && Pow2(3) == 8
  {
  }

  function ExtractOr0(e: Option<Extractor>, x: nat): nat
  {
    if e.Some? then Extract(e.value, x) else 0
  }

  /** The fields the decoder pulls out of the first two bytes; a missing extractor yields 0. */
  datatype Fields = Fields(d: nat, w: nat, reg: nat, mod: nat, rm: nat, s: nat)

  function ReadFields(f: Format, first: Byte, second: Option<Byte>): (fl: Fields)
    requires WellFormed(f)
    ensures fl.w <= 1 && fl.reg <= 7 && fl.mod <= 3 && fl.rm <= 7
  {
    Pow2Small();
    Fields(
      ExtractOr0(f.d, first),
      ExtractOr0(f.w, first),
      ExtractOr0(f.reg, Combine(first, Num(second))),
      Num(second) / 64,
      Num(second) % 8,
      ExtractOr0(f.s, first))
  }

  /**
   * One operand role, resolved with the cursor at `cursor`; returns the
   * operand and the cursor after any byte it consumed.
   */
  function ResolveOperand(f: Format, role: OperandType, fl: Fields, stream: seq<Byte>, cursor: nat): (Operand, nat)
    requires fl.w <= 1 && fl.reg <= 7 && fl.mod <= 3 && fl.rm <= 7
  {
    match role
    case Reg => (RegisterOperand(RegisterEncoding(fl.w, fl.reg)), cursor)
    case Rm =>
      if fl.mod == 3 then (RegisterOperand(RegisterEncoding(fl.w, fl.rm)), cursor)
      else if fl.mod == 1 && fl.rm == 6 then (Memory([TReg(RegisterEncoding(1, 5))]), cursor)
      else if fl.mod == 1 then
        var val := BaseRegister(fl.rm, TermOf(At(stream, 2)));
        if f.disp.Some? then (Memory([TList(val), TNum(f.disp.value(At(stream, 2), At(stream, cursor)))]), cursor + 1)
        else (Memory(val), cursor)
      else if fl.mod == 2 then
        (Memory(BaseRegister(fl.rm, TNum(Combine(Num(At(stream, cursor)), Num(At(stream, 2)))))), cursor + 1)
      else if fl.rm == 6 then
        if fl.w == 1 then (DirectMemory(Combine(Num(At(stream, 2)), Num(At(stream, 1)))), cursor)
        else (DirectMemory(Num(At(stream, 1))), cursor)
      else (Memory(BaseRegister(fl.rm, TUndefined)), cursor)
    case Imm => (Immediate(f.imm(fl.s, fl.w, At(stream, 1), At(stream, 2))), cursor)
  }

  /** `format.operands.map(...)`: roles resolved left to right, sharing one cursor. */
  function ResolveAll(f: Format, roles: seq<OperandType>, fl: Fields, stream: seq<Byte>, start: nat): (r: (seq<Operand>, nat))
    requires fl.w <= 1 && fl.reg <= 7 && fl.mod <= 3 && fl.rm <= 7
    ensures |r.0| == |roles|
  {
    if roles == [] then ([], start)
    else
      var (ops, c) := ResolveAll(f, roles[..|roles| - 1], fl, stream, start);
      var (op, c') := ResolveOperand(f, roles[|roles| - 1], fl, stream, c);
      (ops + [op], c')
  }

  /** The decoding of the instruction at the start of the buffer, or None (undefined). */
  function Decode(formats: seq<Format>, stream: seq<Byte>): Option<DecodedInstruction>
    requires WellFormedRegistry(formats)
  {
    if |stream| == 0 then None
    else match FindFormat(formats, stream[0])
      case None => None
      case Some(i) =>
        var f := formats[i];
        var fl := ReadFields(f, stream[0], At(stream, 1));
        var ops := ResolveAll(f, f.operands, fl, stream, 3).0;
        var ordered := if f.d.Some? && fl.d != 0 then [ops[1], ops[0]] else ops;
        Some(DecodedInstruction(f.mnemonic, ordered))
  }

  /**
   * decodInstruction. The source wraps the body in a `while (cursor <
   * length)` loop whose body declares a second `cursor` and always returns,
   * so it runs at most once: an empty buffer gives undefined.
   */
  method DecodInstruction(formats: seq<Format>, stream: seq<Byte>) returns (r: Option<DecodedInstruction>)
    requires WellFormedRegistry(formats)
    ensures r == Decode(formats, stream)
  {
    if |stream| == 0 {
      return None;
    }
    var cursor := 0;
    var firstByte := stream[cursor];
    cursor := cursor + 1;
    var found := FindFormat(formats, firstByte);
    if found.None? {
      return None;
    }
    var format := formats[found.value];
    var secondByte := At(stream, cursor);
    cursor := cursor + 1;
    var thirdByte := At(stream, cursor);
    cursor := cursor + 1;

    var d := ExtractOr0(format.d, firstByte);
    var w := ExtractOr0(format.w, firstByte);
    var reg := ExtractOr0(format.reg, Combine(firstByte, Num(secondByte)));
    var mod := Num(secondByte) / 64;
    var rm := Num(secondByte) % 8;
    var s := ExtractOr0(format.s, firstByte);
    ghost var fl := ReadFields(format, firstByte, secondByte);
    assert fl == Fields(d, w, reg, mod, rm, s);

    var operands: seq<Operand> := [];
    var i := 0;
    while i < |format.operands|
      invariant 0 <= i <= |format.operands|
      invariant (operands, cursor) == ResolveAll(format, format.operands[..i], fl, stream, 3)
      decreases |format.operands| - i
    {
      assert format.operands[..i + 1][..i] == format.operands[..i];
      var operand: Operand;
      match format.operands[i] {
      case Reg =>
        operand := RegisterOperand(RegisterEncoding(w, reg));
      case Rm =>
        if mod == 3 {
          operand := RegisterOperand(RegisterEncoding(w, rm));
        } else if mod == 1 && rm == 6 {
          operand := Memory([TReg(RegisterEncoding(1, 5))]);
        } else if mod == 1 {
          var val := BaseRegister(rm, TermOf(thirdByte));
          if format.disp.Some? {
            var fourth := At(stream, cursor);
            cursor := cursor + 1;
            operand := Memory([TList(val), TNum(format.disp.value(thirdByte, fourth))]);
          } else {
            operand := Memory(val);
          }
        } else if mod == 2 {
          var fourthByte := At(stream, cursor);
          cursor := cursor + 1;
          operand := Memory(BaseRegister(rm, TNum(Combine(Num(fourthByte), Num(thirdByte)))));
        } else if rm == 6 {
          if w == 1 {
            operand := DirectMemory(Combine(Num(thirdByte), Num(secondByte)));
          } else {
            operand := DirectMemory(Num(secondByte));
          }
        } else {
          operand := Memory(BaseRegister(rm, TUndefined));
        }
      case Imm =>
        operand := Immediate(format.imm(s, w, secondByte, thirdByte));
      }
      operands := operands + [operand];
      i := i + 1;
    }
    assert format.operands[..i] == format.operands;
    assert WellFormed(format) && |operands| == 2;

    // swap the two operands when the format has a D bit and it is set
    ghost var unswapped := operands;
    if format.d.Some? && d != 0 {
      operands := operands[0 := operands[1]][1 := operands[0]];
      assert operands == [unswapped[1], unswapped[0]];
    }
    r := Some(DecodedInstruction(format.mnemonic, operands));
    assert Decode(formats, stream) == Some(DecodedInstruction(format.mnemonic,
      if format.d.Some? && fl.d != 0 then [unswapped[1], unswapped[0]] else unswapped));
  }

  // -----------------------------------------------------------------------
  // Rendering (printInstruction).

  /** JavaScript truthiness of an address-array element, as `filter(Boolean)` sees it. */
  predicate Truthy(t: Term)
  {
    match t
    case TReg(_) => true
    case TNum(n) => n != 0
    case TUndefined => false
    case TList(_) => true
  }

  function FilterTruthy(ts: seq<Term>): (r: seq<Term>)
    ensures forall i :: 0 <= i < |r| ==> Truthy(r[i])
  {
    if ts == [] then []
    else if Truthy(ts[0]) then [ts[0]] + FilterTruthy(ts[1..])
    else FilterTruthy(ts[1..])
  }

  /** `filter(Boolean)` keeps exactly the truthy terms, and a list of truthy terms as it is. */
  lemma {:induction false} FilterTruthyKeeps(ts: seq<Term>)
    ensures forall t :: t in FilterTruthy(ts) <==> t in ts && Truthy(t)
    ensures (forall i :: 0 <= i < |ts| ==> Truthy(ts[i])) ==> FilterTruthy(ts) == ts
  {
    if ts != [] {
      FilterTruthyKeeps(ts[1..]);
      assert ts == [ts[0]] + ts[1..];
    }
  }

  /** How `join` turns one array element into text: undefined is empty, a nested array is joined with ','. */
  function TermText(t: Term): string
  {
    match t
    case TReg(r) => Name(r)
    case TNum(n) => IntToString(n)
    case TUndefined => ""
    case TList(items) => Join(seq(|items|, i requires 0 <= i < |items| => TermText(items[i])), ",")
  }

  function TermsText(ts: seq<Term>): seq<string>
  {
    seq(|ts|, i requires 0 <= i < |ts| => TermText(ts[i]))
  }

  function OperandText(op: Operand): string
  {
    match op
    case RegisterOperand(r) => Name(r)
    case Immediate(v) => IntToString(v)
    case DirectMemory(a) => "[" + IntToString(a) + "]"
    case Memory(ts) => "[" + Join(TermsText(FilterTruthy(ts)), "+") + "]"
  }

  function OperandTexts(ops: seq<Operand>): seq<string>
  {
    seq(|ops|, i requires 0 <= i < |ops| => OperandText(ops[i]))
  }

  function Render(instr: DecodedInstruction): string
  {
    MnemonicText(instr.mnemonic) + " " + Join(OperandTexts(instr.operands), ", ")
  }

  /** printInstruction: the rendered first instruction, or 'Invalid instruction'. */
  function PrintInstruction(formats: seq<Format>, stream: seq<Byte>): string
    requires WellFormedRegistry(formats)
  {
    match Decode(formats, stream)
    case None => "Invalid instruction"
    case Some(instr) => Render(instr)
  }
}
