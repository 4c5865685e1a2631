# performance-aware-course in Dafny

This project models the core of a course repository with two parts.

**Part 1** holds decoders for the Intel 8086 `mov`/`add` encodings, and the execution engine of the Node.js example simulator:

- `Tables` holds the register encoding table, the effective-address base registers, the field extractors and the instruction-format registry of `tables.ts`.
- `Decoder` is the table-driven decoder and printer of `part1/index.ts`. The instruction-format registry of that file lives in `part1/tables.ts`, which is not part of this model, so the decoder takes the registry as a parameter. `DecoderProperties` proves its properties, and its worked examples run on a small registry of our own (`ExampleFormats`: mov and add register/memory, mov immediate-to-register).
- `Disassembler` is the bit-string disassembler of `disassemble.ts`.
- `TemplateDecoder` is the template-filling decoder of `index.ts`.
- `Sim8086Spec` and `Sim8086` model the engine of `part1/contrib-nodejs-decoder/sim8086_example.js`:
  - `Sim8086Spec` states the CPU as a value and each operation as a function on it;
  - the class `Sim8086.Cpu` is the mutable `cpu` record, with its register dictionary, its flags and a fixed-size memory `array`. Each of its methods is proved to leave exactly the state the matching function computes.

The text `printInstruction` writes is not always Intel syntax, and the model keeps the difference:

- `baseRegister` ignores its argument for si, di and bx (the model takes the table of `part1/index.ts` to be the one at `tables.ts:72-81`). So `8a 44 04` prints `mov al, [si]` where Intel syntax has `mov al, [si+4]` (`DecoderProperties.DroppedDisplacement`).
- The 8-bit displacement is printed unsigned. So `8a 40 fc` prints `mov al, [bx+si+252]` where Intel syntax has `[bx+si-4]` (`DecoderProperties.UnsignedDisplacement`).
- `DecoderProperties.PrintEncode` proves the printed line equal to `PrintedText`, the source's rendering. `DecoderProperties.PrintEncodeIntel` proves it equal to the Intel-syntax line `IntelText` exactly when neither of the two cases occurs, for effective addresses other than rm 110.
- The rm 110 forms are further from Intel syntax, and have lemmas of their own. With mod 10 the entry for rm 110 keeps the displacement alone, so `8a 86 34 12` prints `mov al, [4660]` where Intel syntax has `[bp+4660]` (`DecoderProperties.WordDisplacementWithoutBp`). With mod 01 it prints `[bp]` and drops the displacement (`DecoderProperties.BpIgnoresDisplacement`). With mod 00 the address is taken from the ModRM byte, so `8a 06 34 12` prints `mov al, [6]` where Intel syntax has `[4660]` (`DecoderProperties.ByteDirectAddressText`).

**Part 2** holds two JSON tokenizers and parsers, `toPairs`, a set of summation loops and a C byte-writing loop:

- `JsonTokenizer`, `JsonParserSpec`, `JsonValue` and `JsonParser` model `part2/parser/tokenizer.ts` and `part2/parser/json-parser.ts`. The parser is a class over the token list whose shared `current` index the recursive methods move. Each method is proved equal to a recursive-descent function, and the functions are proved to invert a token emitter.
- `WordTokenizer` models the tokenizer of `part2/json-parser/tokenizer.ts`.
- `LabelTokenizer` models the tokenizer of `part2/json-parser/parser.ts`.
- `Pairs` models `toPairs` of `part2/utils.ts`.
- `Sums` models the summation loops of `part2/sum.ts`.
- `WriteBytes` models `WriteAllBytes` of `part2/loop.c`.

Two small modules are shared:

- `Wrappers` holds `Option` and `Result`.
- `Text` holds decimal rendering, `join`, first-occurrence `replace`, JavaScript `slice` and a first-match search.

Each loop of the source is a `method` with loop invariants. Its `ensures` ties the result, or the new state, to a specification function. The properties are then lemmas about that function.

A read of `undefined` past the end of a buffer or an array is modelled explicitly as an `Option`:

- under bitwise operators it becomes 0;
- under `+` it becomes NaN (`Sim8086Spec.Value.Undefined`, `Sums.Add`);
- as an operand it stays `undefined`.

Two JavaScript loops in the tokenizers run past the end of the input on some inputs. These are an unterminated string (`part2/parser/tokenizer.ts:66-68`), and a word at the very end of the input (`part2/json-parser/tokenizer.ts:81-83`). Past the end, `input[cursor]` is undefined, so each turn appends the text "undefined" to the value until the engine throws a RangeError (Invalid string length). A third case is a label at the end of the input in `part2/json-parser/parser.ts`, which throws a TypeError. All three are modelled as error values (`InvalidStringLength`, `LabelAtEnd`), not as preconditions, so every input has a defined outcome.

The `decodeAndExecute` loop of the simulator need not end, because jumps can loop. `Run` therefore takes a step bound `fuel` and reports `OutOfSteps` when the bound runs out.

## Where the tests expect otherwise

The model follows the code. At three places the repository's own tests expect something else, and the model proves what the code does:

- `index.test.ts:78-81` expects `b5 f4` to disassemble as `mov ch, -12`. `disassemble.ts` reads the data byte with `parseInt(…, 2)`, which is unsigned, so it gives `mov ch, 244` (`Disassembler.ImmediateIsUnsigned`).
- `part2/json-parser/tokenizer.test.ts:19-27` expects a STRING token whose value ends in a quote. The scan in `part2/json-parser/tokenizer.ts` stops at the closing quote, so the values carry no quote (`WordTokenizerExamples.KeyValue`).
- `part2/json-parser/parser.test.ts:49-75` expects LABEL tokens `x0` and `123`. The scan in `part2/json-parser/parser.ts` reads only lower-case letters and skips digits, so it emits `Label("x")` and no token for `0` or `123` (`LabelTokenizerExamples.NumberMemberTest`).

## Model

| member | source | states |
|---|---|---|
| Tables.RegisterEncoding | tables.ts:48-69 | w = 1 selects a 16-bit register with that code; w = 0 selects the byte half (code mod 4, high half iff code ≥ 4) |
| Tables.RegisterEncodingBijective | tables.ts:48-69 | every register has an encoding, and distinct (w, code) pairs give distinct registers |
| Tables.NamesDistinct | tables.ts:48-69 | no two registers share a printed name |
| Tables.Extract | tables.ts:100-103 | a field extractor of width k yields a value below 2^k |
| Tables.ExtractorRanges | tables.ts:100-103 | D and W yield at most 1; REG yields at most 7 |
| Tables.RegOnCombined | tables.ts:103-150 | REG(3) on the combined first and second byte reads bits 3-5 of the second byte; REG(8) reads bits 0-2 of the first |
| Tables.WidthOfImmediateOpcodes | tables.ts:149 | on opcodes 0xb0-0xbf, W(3) is 1 exactly from 0xb8 on |
| Tables.BaseRegister | tables.ts:72-81 | rm 0-3 give bx or bp then si or di then the displacement; rm 4, 5 and 7 give [si], [di] and [bx] and drop the displacement; rm 6 gives only the displacement |
| Tables.FirstMatchFrom | tables.ts:105-188 | the result is the first format at or after `from` whose masked opcode matches, or none matches |
| Tables.FirstMatch | tables.ts:105-188 | `instructionFormats.find`: the result matches the byte and no earlier format does, or no format matches |
| Tables.FirstMatchTable | tables.ts:105-188 | the format chosen for each byte range of the registry, written out |
| Tables.MaskFacts | tables.ts:107-187 | the opcode masks of the registry expressed as byte ranges; `b & 0xfc` is never 0x89, 0x8a or 0x8b and `b & 0xfe` is never 0x01, so those entries can never match |
| Tables.UnreachableEntries | tables.ts:116-178 | entries 1, 2, 3, 5 and 7 are never the first match for any byte |
| Tables.RegistryShape | tables.ts:105-188 | every entry has two operands; an entry with an r/m operand carries D, W and REG; an entry has an immediate operand iff it has no D extractor |
| Decoder.FindFormat | part1/index.ts:35 | the chosen format selects the first byte and no earlier one does, or none does |
| Decoder.ReadFields | part1/index.ts:42-48 | w ≤ 1, reg ≤ 7, mod ≤ 3 and rm ≤ 7 for any bytes, including a missing second byte |
| Decoder.ResolveAll | part1/index.ts:50-97 | one operand per operand role of the format |
| Decoder.DecodInstruction | part1/index.ts:29-109 | the imperative decoder (with its shadowed cursor) returns exactly `Decode` of the stream |
| Decoder.FilterTruthy | part1/index.ts:21 | `filter(Boolean)` keeps only truthy terms |
| Decoder.FilterTruthyKeeps | part1/index.ts:21 | `filter(Boolean)` keeps exactly the truthy terms of the list, and a list of truthy terms unchanged |
| DecoderProperties.DecodeDefinedIff | part1/index.ts:30-38 | an instruction is decoded iff the stream is non-empty and some format selects its first byte; the mnemonic is that of the first selecting format |
| DecoderProperties.RenderNotInvalid | part1/index.ts:3-7 | a decoded instruction never prints as "Invalid instruction" |
| DecoderProperties.PrintInvalidIff | part1/index.ts:3-7 | printInstruction yields "Invalid instruction" iff decoding fails |
| DecoderProperties.ResolveAllWindow | part1/index.ts:30-107 | with at most one r/m operand, the operands depend only on the first four bytes, and the cursor advances by at most one |
| DecoderProperties.DecodeReadsFourBytes | part1/index.ts:30-107 | decoding a stream equals decoding its first four bytes |
| DecoderProperties.ResolveAllWidth | part1/index.ts:43-57 | every register operand is 16-bit iff w = 1 |
| DecoderProperties.RegisterOperandsShareWidth | part1/index.ts:43-57 | all register operands of a decoded instruction have the same width; without a W extractor they are byte registers |
| DecoderProperties.ExampleWellFormed | part1/index.ts:35-48 | the example registry meets the decoder's well-formedness requirement |
| DecoderProperties.ModRmFields | part1/index.ts:44-48 | a ModRM byte mod·64 + reg·8 + rm reads back as mod, reg and rm |
| DecoderProperties.RegMemOpcodeFields | part1/index.ts:35-43 | a mov/add register-memory opcode selects its format and reads back its d and w bits |
| DecoderProperties.MovImmediateFields | part1/index.ts:35-45 | 0xb0 + 8w + reg selects the immediate format and reads back w and reg |
| DecoderProperties.RegMemFields | part1/index.ts:39-48 | an encoded register-memory instruction reads back the fields it was built from |
| DecoderProperties.EaOfEncoding | part1/index.ts:54-89 | the r/m operand decoded from an encoded effective address |
| DecoderProperties.DecodeVia | part1/index.ts:29-109 | Decode unfolded through the format it selects, with the d-bit swap |
| DecoderProperties.DecodeEncodeRegMem | part1/index.ts:29-109 | decoding an encoded register-memory instruction gives its expected operands, swapped when d = 1 |
| DecoderProperties.ImmediateBytes | part1/index.ts:39-93 | the data bytes of an immediate instruction are where the decoder reads them |
| DecoderProperties.ImmediateFieldsRead | part1/index.ts:90-93 | an encoded immediate instruction reads back its width, register and value |
| DecoderProperties.DecodeEncodeImmediate | part1/index.ts:29-109 | decoding an encoded immediate-to-register mov gives its register and value |
| DecoderProperties.DecodeEncode | part1/index.ts:29-109 | for every encodable instruction, decoding its encoding gives the REG register and the r/m register or address terms (listed by the r/m bits, independently of baseRegister) in direction-bit order |
| DecoderProperties.RenderTwo | part1/index.ts:10-26 | a two-operand instruction prints as "mnemonic x, y" |
| DecoderProperties.MemoryText | part1/index.ts:17-21 | a base-register memory operand prints as "[" + base + displacement + "]", with falsy terms dropped |
| DecoderProperties.BaseTermsText | part1/index.ts:21 | the terms of a base-register address joined by "+" |
| DecoderProperties.PairText | part1/index.ts:21 | the two-register bases (rm 0-3) print as "bx+si" etc., with the displacement when it is truthy |
| DecoderProperties.SingleBaseText | part1/index.ts:21 | the one-register bases (rm 4, 5, 7) print without a displacement |
| DecoderProperties.EaOperandText | part1/index.ts:10-26 | a decoded effective address prints as PrintedEaText: brackets around the base registers and a nonzero displacement after a base+index pair only; the displacement after si/di/bx is dropped |
| DecoderProperties.PrintEncode | part1/index.ts:3-109 | for every encodable instruction, printInstruction of its encoding is PrintedText: mnemonic then destination and source, as the source renders them |
| DecoderProperties.PrintedEaTextIntel | part1/index.ts:10-26 | for an effective address other than rm 110, the printed text equals its Intel-syntax text exactly when no displacement follows si/di/bx and no 8-bit displacement is 0x80 or more |
| DecoderProperties.PrintEncodeIntel | part1/index.ts:3-109 | for an instruction whose effective address is not rm 110, printInstruction of its encoding is the Intel-syntax line exactly when the same condition holds |
| DecoderProperties.DroppedDisplacement | tables.ts:77-80 | 8a 44 04 prints "mov al, [si]"; the Intel-syntax line is "mov al, [si+4]" |
| DecoderProperties.UnsignedDisplacement | part1/index.ts:61-67 | 8a 40 fc prints "mov al, [bx+si+252]"; the Intel-syntax line is "mov al, [bx+si-4]" |
| DecoderProperties.ImmediateText | part1/index.ts:10-26 | an immediate-to-register mov prints as "mov reg, value" |
| DecoderProperties.RegMemText | part1/index.ts:10-26 | a register-memory instruction prints with destination and source in d-bit order |
| DecoderProperties.MovRegisterToRegister | part1/index.ts:133 | 89 d9 prints as "mov cx, bx" |
| DecoderProperties.MovImmediateToByteRegister | part1/index.ts:134 | b1 0c prints as "mov cl, 12" |
| DecoderProperties.MovEightBitDisplacement | part1/index.ts:61-67 | 8a 60 04 prints as "mov ah, [bx+si+4]" |
| DecoderProperties.MovToIndirectMemory | part1/index.ts:84-88 | 89 09 prints as "mov [bx+di], cx" |
| DecoderProperties.MovSixteenBitDisplacement | part1/index.ts:68-72 | 8a 80 87 13 prints as "mov al, [bx+si+4999]" |
| DecoderProperties.BasePointerDecode | part1/index.ts:58-60 | mod 01 with rm 110 decodes to the memory operand [bp] whatever the displacement byte |
| DecoderProperties.BpIgnoresDisplacement | part1/index.ts:58-60 | 03, 0x46 + 8·reg, disp prints as "add reg, [bp]" for every disp |
| DecoderProperties.AddFromBasePointer | part1/index.ts:136 | 03 5e 00 prints as "add bx, [bp]" |
| DecoderProperties.DirectAddressUsesModRm | part1/index.ts:74-83 | direct addressing with w = 1 combines the third byte with the ModRM byte, not with the fourth |
| DecoderProperties.ByteDirectAddressIsModRm | part1/index.ts:74-83 | direct addressing with w = 0 takes the ModRM byte itself as the address, for every reg and whatever follows |
| DecoderProperties.ByteDirectAddressText | part1/index.ts:74-83 | 8a 06 34 12 prints "mov al, [6]", the ModRM byte as the address |
| DecoderProperties.WordDisplacementDropsBp | part1/index.ts:68-72 | mod 10 with rm 110 decodes to a memory operand holding only the 16-bit displacement, with no bp, for every reg and both bytes |
| DecoderProperties.WordDisplacementText | part1/index.ts:68-72 | for every reg and nonzero 16-bit displacement, mod 10 with rm 110 prints "mov reg, [d16]": the number alone, with no bp |
| DecoderProperties.WordDisplacementWithoutBp | tables.ts:79 | 8a 86 34 12 prints "mov al, [4660]", the displacement without bp |
| Disassembler.Bits | disassemble.ts:126-135 | `toString(2).padStart(k, '0')`: a binary string of length k |
| Disassembler.BitsValue | disassemble.ts:126-135 | the binary string of v < 2^k reads back as v |
| Disassembler.BitsInjective | disassemble.ts:126-135 | for values below 2^k, equal bit strings iff equal values |
| Disassembler.BinaryString | disassemble.ts:126-135 | eight characters per byte |
| Disassembler.BufferToBinaryString | disassemble.ts:126-135 | the hex-to-binary loop returns exactly BinaryString of the buffer |
| Disassembler.HexBitsOfHexString | disassemble.ts:126-135 | expanding the hex string nibble by nibble equals the bytes' binary string |
| Disassembler.BinaryStringBinary | disassemble.ts:126-135 | the result holds only '0' and '1' |
| Disassembler.BinaryStringByte | disassemble.ts:126-135 | byte i occupies characters 8i to 8i + 8 |
| Disassembler.BinaryStringBit | disassemble.ts:126-135 | character 8i + j is bit 7 - j of byte i, most significant first |
| Disassembler.BinaryStringRoundTrip | disassemble.ts:126-135 | the binary string reads back, eight characters at a time, as the bytes |
| Disassembler.RegRow | disassemble.ts:91-124 | REG-table row c holds the byte and word register names of code c |
| Disassembler.RegTableAgrees | disassemble.ts:91-124 | the disassembler's REG table agrees with registerEncoding for every code and width |
| Disassembler.RegisterToRegisterText | disassemble.ts:56-89 | the result echoes op, d, w, mod, reg and rm |
| Disassembler.FirstByteFields | disassemble.ts:13-18 | op, d and w are the bits of the first byte |
| Disassembler.SecondByteFields | disassemble.ts:19-26 | mod, reg and rm are the bits of the second byte |
| Disassembler.ImmediateFieldsOf | disassemble.ts:33-37 | w and reg come from the first byte; the data bits are the second byte |
| Disassembler.OpcodeTests | disassemble.ts:29-32 | the string tests on op and mod are tests on the byte values |
| Disassembler.DisassembleRegisterToRegister | disassemble.ts:29-89 | with d = 0 the text is "mov rm, reg"; with d = 1 it is "mov reg, rm" |
| Disassembler.DisassembleImmediate | disassemble.ts:32-54 | the data byte is printed unsigned; "NaN" when it is missing |
| Disassembler.DisassembleUndefinedIff | disassemble.ts:29-41 | the result is undefined iff the bytes are neither register-to-register mov nor immediate mov |
| Disassembler.DisassembleReadsTwoBytes | disassemble.ts:13-33 | bytes after the second do not change the result |
| Disassembler.MovCxBx | index.test.ts:5-9 | 89 d9 gives "mov cx, bx" |
| Disassembler.MovChAh | index.test.ts:11-14 | 88 e5 gives "mov ch, ah" |
| Disassembler.ImmediateIsUnsigned | index.test.ts:78-81 | b5 f4 gives "mov ch, 244" |
| Disassembler.WordImmediateReadsOneByte | index.test.ts:83-86 | b9 0c gives "mov cx, 12", reading one data byte though w = 1 |
| TemplateDecoder.TableAgrees | index.ts:5-25 | the r8 and r16 tables are the upper-case registerEncoding names for every code |
| TemplateDecoder.RegisterName | index.ts:94-96 | a table lookup yields the upper-case name of registerEncoding |
| TemplateDecoder.Step | index.ts:80-106 | one loop turn consumes one byte, or two when the entry names operands |
| TemplateDecoder.DecodeFrom | index.ts:76-110 | on success, the number of lines is between half of and all of the bytes from the cursor on |
| TemplateDecoder.DecodeFromStep | index.ts:76-110 | the decoded lines are the line of the first step followed by those of the rest |
| TemplateDecoder.MissingAt | index.ts:80-82 | a byte with no guide entry stops decoding with MissingEntry(byte) |
| TemplateDecoder.FillTemplate | index.ts:88-102 | the substitution loop returns ApplyAll of the template |
| TemplateDecoder.DecodeInstruction | index.ts:76-110 | the imperative loop returns exactly DecodeFrom(instruction, 0) |
| TemplateDecoder.ApplyTwo | index.ts:93-100 | two descriptors substitute in order |
| TemplateDecoder.SubstituteAt | index.ts:97-100 | `replace` substitutes the first `{target}` |
| TemplateDecoder.FirstSubstitution | index.ts:93-100 | "{a}" becomes the register the shifted code names |
| TemplateDecoder.SecondSubstitution | index.ts:93-100 | "{b}" becomes the register the shifted code names |
| TemplateDecoder.FillSourceTemplate | index.ts:93-100 | "MOV {a}, {b}" becomes "MOV rm, reg" |
| TemplateDecoder.RegisterSourceLine | index.ts:32-100 | 88/89 followed by a ModRM byte decodes to "MOV RM, REG" of the matching width |
| TemplateDecoder.RegisterDestinationLine | index.ts:35-93 | for 8b only "{a}" is filled and the literal "{b}" stays |
| TemplateDecoder.SegmentLine | index.ts:36-87 | 8c consumes two bytes and leaves the template unfilled |
| TemplateDecoder.TemplateOnlyLine | index.ts:44-85 | an entry without operands yields its template and consumes one byte |
| TemplateDecoder.MovChBh | index.ts:113 | 88 fd decodes to ["MOV CH, BH"] |
| TemplateDecoder.ImmediateDataReadAsOpcode | index.ts:51-82 | b1 0c fails with MissingEntry(0x0c): the data byte is read as the next opcode |
| Sim8086Spec.Plus | part1/contrib-nodejs-decoder/sim8086_example.js:135-141 | the sum is a number iff both operands are (NaN propagates) |
| Sim8086Spec.Minus | part1/contrib-nodejs-decoder/sim8086_example.js:146-153 | the difference is a number iff both operands are |
| Sim8086Spec.Low16 | part1/contrib-nodejs-decoder/sim8086_example.js:34 | `& 0xffff` is below 2^16, keeps values already in range and maps undefined to 0 |
| Sim8086Spec.LowByte | part1/contrib-nodejs-decoder/sim8086_example.js:53 | `& 0xff` keeps a byte value |
| Sim8086Spec.CreateCpuState | part1/contrib-nodejs-decoder/sim8086_example.js:12-31 | createCPU has the nine registers, all zero, and zeroed memory |
| Sim8086Spec.GetRegister | part1/contrib-nodejs-decoder/sim8086_example.js:37-39 | a register reads as a number iff it exists |
| Sim8086Spec.SetRegister | part1/contrib-nodejs-decoder/sim8086_example.js:33-35 | the register takes the value masked to 16 bits; other registers, flags and memory are unchanged |
| Sim8086Spec.BaseValue | part1/contrib-nodejs-decoder/sim8086_example.js:45-46 | an empty base name counts 0, any other reads the register |
| Sim8086Spec.CalculateAddress | part1/contrib-nodejs-decoder/sim8086_example.js:41-50 | the address is base1 + base2 + displacement, and NaN iff a base is undefined |
| Sim8086Spec.ByteAt | part1/contrib-nodejs-decoder/sim8086_example.js:58-61 | a byte outside memory reads as 0 |
| Sim8086Spec.StoreByte | part1/contrib-nodejs-decoder/sim8086_example.js:52-54 | a store inside memory sets that byte; memory keeps its size |
| Sim8086Spec.ReadWord | part1/contrib-nodejs-decoder/sim8086_example.js:58-61 | little-endian word; at the last byte only the low byte is read |
| Sim8086Spec.GetMemory | part1/contrib-nodejs-decoder/sim8086_example.js:57-61 | a memory read is the word at the calculated address |
| Sim8086Spec.WriteWord | part1/contrib-nodejs-decoder/sim8086_example.js:51-55 | low byte at the address, high byte after it, every other byte unchanged |
| Sim8086Spec.SetMemory | part1/contrib-nodejs-decoder/sim8086_example.js:51-55 | writes the word at the calculated address; registers and flags unchanged |
| Sim8086Spec.UpdateFlags | part1/contrib-nodejs-decoder/sim8086_example.js:63-67 | ZF is set iff the value is 0; SF is bit 15 of the value |
| Sim8086Spec.Bit15 | part1/contrib-nodejs-decoder/sim8086_example.js:65-66 | `(v >> 15) & 1` is 1 iff the low 16 bits are at least 0x8000 |
| Sim8086Spec.GetOperandValue | part1/contrib-nodejs-decoder/sim8086_example.js:69-85 | an operand of Type 0 throws "Unknown operand type: 0"; an immediate yields its value |
| Sim8086Spec.SetOperandValue | part1/contrib-nodejs-decoder/sim8086_example.js:113-128 | only register and memory operands can be written; the others throw with their type; flags unchanged |
| Sim8086Spec.OperandAt | part1/contrib-nodejs-decoder/sim8086_example.js:132-163 | reading an operand past the list fails |
| Sim8086Spec.InstructionTable | part1/contrib-nodejs-decoder/sim8086_example.js:130-166 | mov, add, sub, cmp, jne and jnz have handlers, and nothing else has |
| Sim8086Spec.Mov | part1/contrib-nodejs-decoder/sim8086_example.js:131-134 | mov leaves the flags unchanged and the state valid |
| Sim8086Spec.MovEffect | part1/contrib-nodejs-decoder/sim8086_example.js:131-134 | mov succeeds exactly when the source is readable and the destination is a register or memory; a register receives the source masked to 16 bits and memory the source's two bytes at the operand's address; the other registers or the memory stay and so do the flags |
| Sim8086Spec.ArithmeticResult | part1/contrib-nodejs-decoder/sim8086_example.js:138-153 | the sum or difference masked with 0xffff lies below 0x10000 |
| Sim8086Spec.Arithmetic | part1/contrib-nodejs-decoder/sim8086_example.js:135-155 | add, sub and cmp keep the state valid |
| Sim8086Spec.ArithmeticEffect | part1/contrib-nodejs-decoder/sim8086_example.js:135-155 | add, sub and cmp succeed exactly when both operands are readable and, except for cmp, the destination is a register or memory; ZF and SF come from the masked result; add and sub store it into the register or at the memory address; cmp keeps registers and memory |
| Sim8086Spec.Jump | part1/contrib-nodejs-decoder/sim8086_example.js:156-165 | a successful jump keeps the flags and the memory |
| Sim8086Spec.Execute | part1/contrib-nodejs-decoder/sim8086_example.js:168-174 | an unknown mnemonic leaves the state unchanged |
| Sim8086Spec.SliceFrom | part1/contrib-nodejs-decoder/sim8086_example.js:179 | `slice(ip)`, where a negative start counts from the end |
| Sim8086Spec.Run | part1/contrib-nodejs-decoder/sim8086_example.js:176-194 | the state stays valid; halting means ip has reached the end of the bytes |
| Sim8086Spec.Advance | part1/contrib-nodejs-decoder/sim8086_example.js:186 | ip grows by the instruction size before the handler runs |
| Sim8086Spec.BytesMakeLow16 | part1/contrib-nodejs-decoder/sim8086_example.js:53-54 | the two stored bytes make up the value's low 16 bits |
| Sim8086Spec.AddressOfRegisters | part1/contrib-nodejs-decoder/sim8086_example.js:41-50 | the address depends only on the registers |
| Sim8086Spec.MemoryRoundTrip | part1/contrib-nodejs-decoder/sim8086_example.js:51-61 | reading a word just written yields the written value's low 16 bits |
| Sim8086Spec.WordRoundTrip | part1/contrib-nodejs-decoder/sim8086_example.js:51-61 | writeWord then readWord at the same in-range address returns the low 16 bits |
| Sim8086Spec.MemoryLastByte | part1/contrib-nodejs-decoder/sim8086_example.js:29-61 | memory has 0xffff bytes, so at 0xfffe only the low byte survives a word write |
| Sim8086Spec.MovToMemory | part1/contrib-nodejs-decoder/sim8086_example.js:131-134 | mov into memory is setMemory of the source value at the operand's address |
| Sim8086Spec.MovCopies | part1/contrib-nodejs-decoder/sim8086_example.js:131-134 | after mov the destination reads back as the source value masked to 16 bits: always for a register, for memory when both bytes lie inside it |
| Sim8086Spec.MovToRegister | part1/contrib-nodejs-decoder/sim8086_example.js:131-134 | mov into a register sets it to the source value masked to 16 bits |
| Sim8086Spec.MovLeavesFlags | part1/contrib-nodejs-decoder/sim8086_example.js:131-134 | executing mov never changes ZF or SF |
| Sim8086Spec.ArithmeticOnMemory | part1/contrib-nodejs-decoder/sim8086_example.js:135-149 | add/sub into memory write the 16-bit wrapped result at the address and keep the registers; ZF and SF come from the result; the word reads back when it lies inside memory |
| Sim8086Spec.ArithmeticOnRegister | part1/contrib-nodejs-decoder/sim8086_example.js:135-149 | add/sub into a register store the 16-bit wrapped result and set ZF and SF from it; memory is unchanged |
| Sim8086Spec.CmpResult | part1/contrib-nodejs-decoder/sim8086_example.js:150-155 | cmp reads both operands and only updates the flags from their wrapped difference |
| Sim8086Spec.WrappedDifference | part1/contrib-nodejs-decoder/sim8086_example.js:150-155 | the masked difference of two 16-bit values is 0 iff they are equal |
| Sim8086Spec.CmpOnlyFlags | part1/contrib-nodejs-decoder/sim8086_example.js:150-155 | cmp keeps registers and memory; ZF is set iff the two 16-bit operands are equal |
| Sim8086Spec.JumpEffect | part1/contrib-nodejs-decoder/sim8086_example.js:156-165 | for any operand list, jne/jnz succeeds iff ZF is set or the first operand is an immediate; then ip grows by it iff ZF is 0, and flags and memory are unchanged |
| Sim8086Spec.JumpIfNotZero | part1/contrib-nodejs-decoder/sim8086_example.js:156-165 | jne/jnz adds the offset to ip iff ZF is 0; flags and memory are unchanged |
| Sim8086Spec.ImmediateDestination | part1/contrib-nodejs-decoder/sim8086_example.js:113-128 | writing to an immediate destination throws "Unknown operand type: 3" |
| Sim8086Spec.RunMoreFuel | part1/contrib-nodejs-decoder/sim8086_example.js:176-194 | a run that ends within the bound ends the same way with any larger bound |
| Sim8086Spec.RunStep | part1/contrib-nodejs-decoder/sim8086_example.js:176-194 | one loop turn: decode from ip, advance ip, execute, continue |
| Sim8086.Cpu.constructor | part1/contrib-nodejs-decoder/sim8086_example.js:12-31 | the new object is createCPU |
| Sim8086.Cpu.SetRegister | part1/contrib-nodejs-decoder/sim8086_example.js:33-35 | the object's new state is SetRegister of the old one |
| Sim8086.Cpu.StoreByteAt | part1/contrib-nodejs-decoder/sim8086_example.js:52-54 | the memory array becomes StoreByte of the old memory |
| Sim8086.Cpu.SetMemory | part1/contrib-nodejs-decoder/sim8086_example.js:51-55 | the new state is SetMemory of the old one |
| Sim8086.Cpu.UpdateFlags | part1/contrib-nodejs-decoder/sim8086_example.js:63-67 | the new state is UpdateFlags of the old one |
| Sim8086.Cpu.SetOperandValue | part1/contrib-nodejs-decoder/sim8086_example.js:113-128 | the new state and error are those of SetOperandValue; a throw leaves the state unchanged |
| Sim8086.Cpu.Mov | part1/contrib-nodejs-decoder/sim8086_example.js:131-134 | new state and error as the Mov function computes |
| Sim8086.Cpu.Arithmetic | part1/contrib-nodejs-decoder/sim8086_example.js:135-155 | new state and error as the Arithmetic function computes |
| Sim8086.Cpu.Jump | part1/contrib-nodejs-decoder/sim8086_example.js:156-165 | new state and error as the Jump function computes |
| Sim8086.Cpu.AdvanceIp | part1/contrib-nodejs-decoder/sim8086_example.js:186 | the new state is Advance of the old one |
| Sim8086.Cpu.ExecuteInstruction | part1/contrib-nodejs-decoder/sim8086_example.js:168-174 | new state and error as Execute computes |
| Sim8086.Cpu.Cycle | part1/contrib-nodejs-decoder/sim8086_example.js:177-193 | one turn of the loop: either the run stops here with Run's outcome, or Run continues from the new state with one step less |
| Sim8086.Cpu.DecodeAndExecute | part1/contrib-nodejs-decoder/sim8086_example.js:176-194 | the loop's outcome and final state are those of Run |
| JsonTokenizer.RunLength | part2/parser/tokenizer.ts:92-111 | the longest prefix of number characters |
| JsonTokenizer.LexemeLength | part2/parser/tokenizer.ts:81-111 | the scanned number never runs past the input |
| JsonTokenizer.Classify | part2/parser/tokenizer.ts:113-149 | a value is a NUMBER token carrying its text, or fails with "Unexpected value" |
| JsonTokenizer.Step | part2/parser/tokenizer.ts:25-130 | one loop turn consumes at least one character and emits at most one token |
| JsonTokenizer.StringTurn | part2/parser/tokenizer.ts:63-73 | a string turn consumes both quotes and emits one STRING |
| JsonTokenizer.NumberTurn | part2/parser/tokenizer.ts:81-121 | a number turn emits one token |
| JsonTokenizer.Tokenize | part2/parser/tokenizer.ts:20-133 | the imperative tokenizer returns exactly Lex of the input |
| JsonTokenizer.ScanAt | part2/parser/tokenizer.ts:25-130 | the loop body at the cursor computes Step of the rest |
| JsonTokenizer.ScanString | part2/parser/tokenizer.ts:63-73 | the string branch computes StringTurn |
| JsonTokenizer.ScanNumber | part2/parser/tokenizer.ts:81-121 | the number branch computes NumberTurn |
| JsonTokenizer.ReadString | part2/parser/tokenizer.ts:66-70 | the inner loop stops at the first quote, or at the end of the input |
| JsonTokenizer.ReadNumber | part2/parser/tokenizer.ts:92-111 | the inner loop reads exactly the number lexeme |
| JsonTokenizer.DecimalLexeme | part2/parser/tokenizer.ts:137 | digits "." digits is a number lexeme |
| JsonTokenizer.LexEmittable | part2/parser/tokenizer.ts:113-129 | every emitted token is of a kind the scan can produce: TRUE, FALSE and NULL are never emitted |
| JsonTokenizer.NoKeyword | part2/parser/tokenizer.ts:129 | a number-start lexeme is never true, false or null |
| JsonTokenizer.SpaceIsNothingElse | part2/parser/tokenizer.ts:76-127 | whitespace starts no token |
| JsonTokenizer.LexSkipsSpace | part2/parser/tokenizer.ts:76-79 | leading whitespace does not change the tokens |
| JsonTokenizer.LexToken | part2/parser/tokenizer.ts:25-130 | the source text of an emittable token lexes back to that token |
| JsonTokenizer.LexRender | part2/parser/tokenizer.ts:20-133 | rendering emittable tokens and lexing the text gives the tokens back |
| JsonTokenizer.LexLayout | part2/parser/tokenizer.ts:20-133 | the same with whitespace between tokens, where a NUMBER is followed by a non-number character |
| JsonTokenizer.LexNormalizes | part2/parser/tokenizer.ts:20-133 | lexing the rendering of a successful lex gives the same tokens |
| JsonParserSpec.Assign | part2/parser/json-parser.ts:65-74 | assigning keeps the length for a known key, or appends a new member |
| JsonParserSpec.AssignLookup | part2/parser/json-parser.ts:65-74 | after assigning, the key reads back the new value and other keys are unchanged |
| JsonParserSpec.AssignPlace | part2/parser/json-parser.ts:65-74 | a new key is appended at the end; a known key keeps its place |
| JsonParserSpec.AssignDistinct | part2/parser/json-parser.ts:65-74 | keys stay distinct |
| JsonParserSpec.ValueOf | part2/parser/json-parser.ts:31-51 | a parsed value ends inside the token list; errors are parse errors |
| JsonParserSpec.MembersOf | part2/parser/json-parser.ts:53-85 | the object loop ends on a token inside the list |
| JsonParserSpec.MemberOf | part2/parser/json-parser.ts:57-81 | one member moves strictly forward |
| JsonParserSpec.ElementsOf | part2/parser/json-parser.ts:87-100 | the array loop ends on a token inside the list |
| JsonParserSpec.ElementOf | part2/parser/json-parser.ts:91-97 | one element moves strictly forward |
| JsonParserSpec.Ast | part2/parser/json-parser.ts:21-104 | "Nothing to parse" iff the token list is empty |
| JsonParserSpec.MembersStep | part2/parser/json-parser.ts:57-81 | one turn of the object loop assigns the key, and skips a COLON after the value |
| JsonParserSpec.ElementsStep | part2/parser/json-parser.ts:91-97 | one turn of the array loop appends the value, and skips a COMMA |
| JsonParserSpec.ValueOfEmit | part2/parser/json-parser.ts:31-100 | a tree with distinct keys, emitted anywhere in a token list, parses back to itself, ending on its last token |
| JsonParserSpec.ObjectOfEmit | part2/parser/json-parser.ts:53-85 | the same for objects |
| JsonParserSpec.ArrayOfEmit | part2/parser/json-parser.ts:87-100 | the same for arrays |
| JsonParserSpec.MembersOfEmit | part2/parser/json-parser.ts:53-85 | emitted members followed by "}" parse back in order |
| JsonParserSpec.ElementsOfEmit | part2/parser/json-parser.ts:87-100 | emitted elements followed by "]" parse back in order |
| JsonParserSpec.ValueOfPrefix | part2/parser/json-parser.ts:31-51 | a parse reads no token after the one it ends on |
| JsonParserSpec.MembersOfPrefix | part2/parser/json-parser.ts:53-85 | the same for the object loop |
| JsonParserSpec.ElementsOfPrefix | part2/parser/json-parser.ts:87-100 | the same for the array loop |
| JsonParserSpec.AstIgnoresRest | part2/parser/json-parser.ts:102-104 | tokens after the first complete value are ignored |
| JsonParserSpec.AstEmit | part2/parser/json-parser.ts:21-104 | ast of an emitted tree, followed by anything, is that tree |
| JsonValue.ToObject | part2/parser/json-parser.ts:107-123 | objects become objects with the same keys in the same order; arrays keep their length |
| JsonValue.ToEntries | part2/parser/json-parser.ts:110-114 | entries keep the members' keys and order |
| JsonValue.ToItems | part2/parser/json-parser.ts:116 | items keep the elements' number |
| JsonValue.FromToObject | part2/parser/json-parser.ts:107-123 | the conversion loses nothing: converting back gives the tree |
| JsonValue.ToFromObject | part2/parser/json-parser.ts:107-123 | every plain value is the conversion of a tree |
| JsonValue.FromToEntries | part2/parser/json-parser.ts:110-114 | entries convert back to the members |
| JsonValue.ToFromEntries | part2/parser/json-parser.ts:110-114 | members convert back to the entries |
| JsonValue.FromToItems | part2/parser/json-parser.ts:116 | items convert back to the elements |
| JsonValue.ToFromItems | part2/parser/json-parser.ts:116 | elements convert back to the items |
| JsonValue.Parse | part2/parser/json-parser.ts:125-127 | a lexical error iff the tokenizer fails; "Nothing to parse" iff the input has no tokens |
| JsonValue.EmitEmittable | part2/parser/json-parser.ts:125-127 | a tree with quote-free keys and number lexemes emits only tokens the tokenizer produces |
| JsonValue.ParseLayout | part2/parser/json-parser.ts:125-127 | parse of an emitted tree, laid out with any whitespace, is that tree's plain value |
| JsonParser.Parser.constructor | part2/parser/json-parser.ts:21-29 | the parser starts at token 0 |
| JsonParser.Parser.At | part2/parser/json-parser.ts:28 | `tokens[i]` is undefined past the end |
| JsonParser.Parser.Advance | part2/parser/json-parser.ts:27-29 | `current` grows by one and the token there is returned |
| JsonParser.Parser.ParseValue | part2/parser/json-parser.ts:31-51 | returns ValueOf at the old `current` and leaves `current` on the value's last token |
| JsonParser.Parser.ParseObject | part2/parser/json-parser.ts:53-85 | returns the object MembersOf computes and leaves `current` on the "}" |
| JsonParser.Parser.ParseMember | part2/parser/json-parser.ts:57-81 | one loop turn returns the member MemberOf reads and stops where it stops |
| JsonParser.Parser.ParseArray | part2/parser/json-parser.ts:87-100 | returns the array ElementsOf computes and leaves `current` on the "]" |
| JsonParser.BuildAst | part2/parser/json-parser.ts:21-105 | returns exactly Ast of the tokens |
| JsonParser.Parse | part2/parser/json-parser.ts:125-127 | returns exactly JsonValue.Parse of the input |
| JsonParserExamples.ParsePairs | part2/parser.test.ts:5-9 | the test's input, with any number lexeme for x0, parses to { pairs: [{ x0 }] } |
| JsonParserExamples.TestNumber | part2/parser.test.ts:5-9 | 2.888 is a number lexeme |
| JsonParserExamples.TestInput | part2/parser.test.ts:5-9 | the test's input is the layout used by ParsePairs |
| JsonParserExamples.DuplicateKey | part2/parser/json-parser.ts:65-74 | a repeated key keeps one member with the later value |
| JsonParserExamples.KeyAfterComma | part2/parser/json-parser.ts:66-68 | after a COMMA the next token is the key whatever its type |
| JsonParserExamples.ColonAfterValue | part2/parser/json-parser.ts:80-81 | a COLON after a value is skipped |
| JsonParserExamples.UnclosedArray | part2/parser/json-parser.ts:91-97 | an array without "]" runs out of tokens |
| JsonParserExamples.ParseTrue | part2/parser/tokenizer.ts:129 | "true" is refused by the tokenizer at 't' |
| JsonParserExamples.ParseNothing | part2/parser/json-parser.ts:22-24 | blank input gives "Nothing to parse" |
| WordTokenizer.WordEnd | part2/json-parser/tokenizer.ts:76-90 | the end of a word is the first non-word character, if any |
| WordTokenizer.Classify | part2/json-parser/tokenizer.ts:92-98 | a word becomes a token carrying its text, or "Unexpected value" |
| WordTokenizer.Step | part2/json-parser/tokenizer.ts:25-109 | one loop turn consumes at least one character and emits at most one token |
| WordTokenizer.Tokenize | part2/json-parser/tokenizer.ts:20-112 | the imperative tokenizer returns exactly Lex of the input |
| WordTokenizer.ScanAt | part2/json-parser/tokenizer.ts:25-109 | the loop body computes Step of the rest |
| WordTokenizer.ReadWord | part2/json-parser/tokenizer.ts:76-90 | the inner loop stops at WordEnd, and reports when there is none |
| WordTokenizer.WordEndLexeme | part2/json-parser/tokenizer.ts:76-90 | a word read is a word lexeme |
| WordTokenizer.LexEmittable | part2/json-parser/tokenizer.ts:20-112 | every token emitted is one the scan can produce |
| WordTokenizer.KeywordsAreWords | part2/json-parser/tokenizer.ts:92-98 | true, false and null are words |
| WordTokenizer.SpaceIsNothingElse | part2/json-parser/tokenizer.ts:102-106 | whitespace starts no token and ends a word |
| WordTokenizer.LexSkipsSpace | part2/json-parser/tokenizer.ts:102-106 | leading whitespace does not change the tokens |
| WordTokenizer.LexToken | part2/json-parser/tokenizer.ts:25-109 | an emittable token's text lexes back to it |
| WordTokenizer.LexRender | part2/json-parser/tokenizer.ts:20-112 | rendering emittable tokens and lexing the text gives the tokens back |
| WordTokenizer.WordAtEnd | part2/json-parser/tokenizer.ts:80-83 | a word at the very end of the input ends in the RangeError of an over-long string |
| WordTokenizer.Refused | part2/json-parser/tokenizer.ts:102-108 | a character that starts nothing throws "Unexpected character" |
| WordTokenizer.SignsRefused | part2/json-parser/tokenizer.ts:102-108 | a leading sign is refused |
| WordTokenizerExamples.Brackets | part2/json-parser/tokenizer.test.ts:5-10 | "[]" gives BRACKET_OPEN, BRACKET_CLOSE |
| WordTokenizerExamples.Braces | part2/json-parser/tokenizer.test.ts:12-17 | "{}" gives CURLY_OPEN, CURLY_CLOSE |
| WordTokenizerExamples.LexJoined | part2/json-parser/tokenizer.ts:20-112 | non-word tokens written back to back lex back to themselves |
| WordTokenizerExamples.KeyValue | part2/json-parser/tokenizer.test.ts:19-27 | {"k":"v"} gives a STRING k and a STRING v, without a trailing quote |
| LabelTokenizer.LowerRun | part2/json-parser/parser.ts:62-68 | the longest prefix of lower-case letters |
| LabelTokenizer.Step | part2/json-parser/parser.ts:33-72 | one loop turn consumes at least one character and emits at most one token |
| LabelTokenizer.Tokenize | part2/json-parser/parser.ts:27-76 | the imperative tokenizer returns exactly Lex of the input |
| LabelTokenizer.LabelStep | part2/json-parser/parser.ts:62-70 | a label turn reads the letter run, or throws when it reaches the end of the input |
| LabelTokenizer.LexAdvance | part2/json-parser/parser.ts:33-72 | the tokens are those of one turn followed by those of the rest |
| LabelTokenizer.ReadLabel | part2/json-parser/parser.ts:63-67 | the inner loop reads exactly the letter run |
| LabelTokenizer.LexEmittable | part2/json-parser/parser.ts:50-72 | COMMA, NUMBER and SPACE are never emitted |
| LabelTokenizer.LexLabel | part2/json-parser/parser.ts:62-70 | a letter run followed by a non-letter becomes one LABEL |
| LabelTokenizer.LexSingle | part2/json-parser/parser.ts:35-60 | a punctuation character becomes its token |
| LabelTokenizer.LexToken | part2/json-parser/parser.ts:33-72 | an emittable token's text lexes back to it |
| LabelTokenizer.LexIgnores | part2/json-parser/parser.ts:50-72 | digits, commas, spaces and other skipped characters leave the tokens unchanged |
| LabelTokenizer.LexLayoutThen | part2/json-parser/parser.ts:27-76 | laid-out tokens lex back to themselves, followed by what the rest gives |
| LabelTokenizer.LexLayout | part2/json-parser/parser.ts:27-76 | laid-out tokens lex back to themselves |
| LabelTokenizer.LexLetters | part2/json-parser/parser.ts:64 | input that is only letters throws |
| LabelTokenizer.LabelAtEndThrows | part2/json-parser/parser.ts:64 | any input ending in a letter run throws |
| LabelTokenizerExamples.Brackets | part2/json-parser/parser.test.ts:5-10 | "[]" gives BRACKET_OPEN, BRACKET_CLOSE |
| LabelTokenizerExamples.Braces | part2/json-parser/parser.test.ts:12-17 | "{}" gives CURLY_OPEN, CURLY_CLOSE |
| LabelTokenizerExamples.EmptyMember | part2/json-parser/parser.test.ts:19-47 | {"k":""} gives CURLY_OPEN, QUOTES, LABEL k, QUOTES, COLON, QUOTES, QUOTES, CURLY_CLOSE for any letter key |
| LabelTokenizerExamples.EmptyMemberTest | part2/json-parser/parser.test.ts:19-47 | the test's input {"pairs":""} gives the token list the test expects |
| LabelTokenizerExamples.NumberMember | part2/json-parser/parser.test.ts:49-75 | a key with trailing digits and a number value: the digits give no tokens |
| LabelTokenizerExamples.NumberMemberTest | part2/json-parser/parser.test.ts:49-75 | { "x0": 123 } gives CURLY_OPEN, QUOTES, LABEL x, QUOTES, COLON, CURLY_CLOSE |
| LabelTokenizerExamples.KeyAtEnd | part2/json-parser/parser.ts:64 | an unterminated key at the end throws |
| Pairs.At | part2/utils.ts:26 | `flattened[i]` is undefined past the end |
| Pairs.Chunks | part2/utils.ts:22-31 | one chunk per four elements, rounding up |
| Pairs.ToPairs | part2/utils.ts:19-33 | the loop returns exactly Chunks of the array |
| Pairs.FlattenFours | part2/utils.ts:22-31 | concatenating chunks of four puts element i at chunk i/4, place i mod 4 |
| Pairs.ChunksFlatten | part2/utils.ts:22-31 | the chunks hold the array in order, padded with fewer than four undefined |
| Pairs.ChunksRoundTrip | part2/utils.ts:22-31 | for a length divisible by four, flattening the chunks gives the array back |
| Pairs.LastChunkPadded | part2/utils.ts:22-31 | otherwise the last chunk ends in undefined |
| Sums.SumAppend | part2/sum.ts:6-66 | the sum of a concatenation is the sum of the sums |
| Sums.ReduceSum | part2/sum.ts:6-8 | reduce with a starting accumulator adds the sum to it |
| Sums.TestReduce | part2/sum.ts:6-8 | reduce from 0 is the sum |
| Sums.TestForLoop | part2/sum.ts:10-16 | the indexed loop returns the sum |
| Sums.TestWhileLoop | part2/sum.ts:42-50 | the while loop returns the sum |
| Sums.SumForOf | part2/sum.ts:60-66 | the for-of loop returns the sum |
| Sums.Add | part2/sum.ts:18-40 | a sum is defined iff both operands are |
| Sums.PairStep | part2/sum.ts:18-26 | one turn of the two-accumulator loop keeps the running sum |
| Sums.BiSum | part2/sum.ts:18-26 | an even length gives the sum; an odd one reads undefined and gives NaN |
| Sums.QuadStep | part2/sum.ts:28-40 | one turn of the four-accumulator loop keeps the running sum |
| Sums.QuadSum | part2/sum.ts:28-40 | a length divisible by four gives the sum; any other gives NaN |
| Sums.Widen | part2/sum.ts:52-58 | reading an Int32Array yields its entries as numbers |
| Sums.SumTypedArray | part2/sum.ts:52-58 | the loop returns the sum of the entries |
| Sums.SumZeros | part2/sum.ts:75-81 | a zero-filled array sums to 0 |
| Sums.TypedArrayEntry | part2/sum.ts:75-81 | the sum over a fresh typed array is 0 |
| WriteBytes.LowByte | part2/loop.c:16 | the `(u8)` cast keeps the value mod 256 |
| WriteBytes.Pattern | part2/loop.c:13-17 | byte i of the pattern is i mod 256 |
| WriteBytes.WriteAllBytes | part2/loop.c:13-17 | the first count bytes become the pattern and the rest of the buffer is unchanged |
| WriteBytes.PatternPeriodic | part2/loop.c:16 | the pattern repeats every 256 bytes |
| WriteBytes.PatternPrefix | part2/loop.c:13-17 | writing fewer bytes gives a prefix of the same pattern |
| WriteBytes.PatternCovers | part2/loop.c:16 | a buffer of 256 bytes or more holds every byte value |
| Text.NatToString | part1/index.ts:16 | decimal digits without a leading zero |
| Text.NatToStringRoundTrip | part1/index.ts:16 | the digits read back as the number |
| Text.NatToStringInjective | part1/index.ts:16 | distinct numbers print differently |
| Text.IntToString | part1/index.ts:16 | a minus sign iff the number is negative |
| Text.ReplaceFirstAfter | index.ts:97-100 | `replace` substitutes the first occurrence of the pattern |
| Text.JsSlice | disassemble.ts:14-26 | `slice(a, b)` clamps to the string, and is empty when a > b |
| Text.FindFirst | part2/parser/tokenizer.ts:66-70 | the first position holding one of the characters, or none |

## Left out

- Numbers in the JSON tokenizers are kept as their source text. `Number(value)` is a floating-point conversion that is not modelled. In `part2/json-parser/tokenizer.ts` the `isNumber` test is a parameter.
- JavaScript object key order for integer-like keys, and the `__proto__` key, are not modelled. An object's keys are kept in insertion order.
- The PerformanceObserver and timing code of `part2/parser/json-parser.ts:129-138` is not modelled.
- A scan that runs past the end of the input is modelled as the error value `InvalidStringLength` at once, not as the many turns that append "undefined" before the engine throws; the string length limit itself is not modelled. These are the unterminated string in `part2/parser/tokenizer.ts`, the word at the end of the input in `part2/json-parser/tokenizer.ts`. The label at the end of the input in `part2/json-parser/parser.ts` is different: there `.match` is called on undefined and throws a TypeError at once, modelled as `LabelAtEnd`.
- The native `decode8086Instruction` addon is not modelled. It is a function parameter `decode` of `Run` and `DecodeAndExecute`.
- Sim8086Spec.Run: takes a step bound and reports `OutOfSteps` when it runs out, where the JavaScript loop would run on.
- The console output of the simulator is not modelled: `printOperand`, `printInstruction` and `printCPUState`.
- Command-line arguments and file reading (`sim8086_example.js:1-10`) are not modelled. The instruction bytes are a parameter.
- Strings are sequences of characters. UTF-16 code units, surrogate pairs and the encoding of `Buffer` are not modelled.
- The sums in `part2/sum.ts` are over integers. Floating-point addition and rounding are not modelled.
- `runBenchmark`, the timing and the top-level driver loop in `part2/sum.ts` are not modelled.
- WriteBytes.WriteAllBytes: does not state the number of loop turns.
- Mov: its own contract states only the flags and validity. When it succeeds and what it stores are stated by `MovEffect` beside it, so that proofs about whole runs do not carry them.
- Arithmetic: its own contract states only validity. When it succeeds, what it stores and the flags are stated by `ArithmeticEffect` beside it, for the same reason.
- PrintEncode: states that the printed line is the source's own rendering (`PrintedText`), which is not Intel syntax after si, di or bx with a displacement, or for an 8-bit displacement of 0x80 or more. `PrintEncodeIntel` states exactly where it is Intel syntax.
- PrintedEaTextIntel: covers only effective addresses other than rm 110. The rm 110 forms depart from Intel syntax in three ways: mod 10 prints the 16-bit displacement without bp, mod 01 prints [bp] without the displacement, and mod 00 takes the address from the ModRM byte (and for w = 0 prints that byte). These are stated by `WordDisplacementDropsBp`, `BasePointerDecode` and `DirectAddressUsesModRm` with `ByteDirectAddressIsModRm`, and shown by examples.
- PrintEncodeIntel: covers only instructions whose effective address is not rm 110, for the same reason.
- EaOperandText: states that the printed effective address is `PrintedEaText`, the source's rendering, not Intel syntax. `PrintedEaTextIntel` states exactly where the two agree.
- Decoder.WellFormed: the decoder is modelled only for registries whose formats have two operand roles, a W extractor yielding at most 1 and a REG extractor yielding at most 7. On other formats `part1/index.ts:53` and `part1/index.ts:99-102` would throw, give an undefined register or swap in an undefined operand. `part1/tables.ts` is not part of this model, so whether its registry meets this cannot be checked.
- `part1/index.ts:1` imports `registerEncoding` and `baseRegister` from `part1/tables.ts`, which is not part of this model. The model takes them to be the tables of `tables.ts:48-81`.
- The format registry of `part1/index.ts` comes from `part1/tables.ts`, which is not part of this model. The decoder takes the registry as a parameter, and `ExampleFormats` is our own registry, used only for the worked examples.
- The `execute` demo and the `console.log` calls of `part1/index.ts:111-142` are not modelled.
- The top-level `console.log` of `index.ts:112-117` and of `disassemble.ts:28` is not modelled.
- `floatArrayToBinary` and `binaryToFloatArray` in `part2/utils.ts` are floating-point helpers. They are not modelled.
- The timing and profiling files, the haversine generators and `part1/my-decoder` are not modelled. They are outside the core.
