# MIPS instruction decoder and opcode dispatch

This project models, in Dafny, the core of a small MIPS CPU simulator written in C. It covers two things:

- **The instruction decoder** (`decodeInstruction`). It slices a 32-bit instruction word into the eight fields of the `Instruction` record:
  - `opcode`, `rs`, `rt`, `rd`, `shamt` and `funct`, the R-format fields;
  - the 16-bit `immediate`;
  - the 26-bit jump `address`.
- **The opcode-class dispatch** (`executeInstruction`). It sends the decoded instruction to exactly one of three handlers: R-type, J-type or I-type. The handlers are stubs that only print a trace line. They never change the processor's registers.

Module `Decoder` (`decoder.dfy`) holds:

- the `Instruction` datatype;
- `Decode`;
- `InstructionRecord`, the caller-owned record that `DecodeInto` fills in place;
- `EncodeR`, the inverse that puts an R-format word back together;
- the lemmas about decoding.

Module `Executor` (`executor.dfy`) holds:

- the `Processor` (32 signed 32-bit registers);
- the three handlers;
- the dispatch `ExecuteInstruction`;
- the lemmas about dispatch.

Modelling choices:

- The input word is a `bv32`. `unsigned int` is taken to be 32 bits wide, so every shift and mask in the C code carries over unchanged.
- The C `int` fields (the immediate and the registers) are `int32`, a 32-bit signed newtype.
- `decodeInstruction` writes its result through an out-parameter pointer. The method `InstructionRecord.DecodeInto` keeps that form: it assigns the eight fields of a mutable record in turn. Its contract ties the result to the function `Decode`, and the properties of decoding are proved about `Decode`.
- `executeInstruction` receives the processor through a pointer. Here it is a function that returns the handler that ran and the processor afterwards. The trace line each handler prints is the handler's only observable effect, so the model records which handler ran.

`main.c` has no Hi/Lo registers, program counter, instruction memory, arithmetic or fetch–execute loop, so none of these is modelled. The `immediate` field is declared `int` (main.c:26) but receives `binary & 0xFFFF` (main.c:61), so it holds the zero-extended low half of the word; see `ImmediateValue` and `ImmediateIsZeroExtended`.

## Model

| member | source | states |
|---|---|---|
| `Decoder.Decode` | main.c:53-62 | Decoding is total. Opcode and funct are below 64. rs, rt, rd and shamt are below 32. The immediate lies in [0, 65535]. The address is below 2^26. Reassembling the six R-format fields gives back the input word. |
| `Decoder.ZeroExtend16` | main.c:61 | Storing the unsigned low 16 bits in the C `int` immediate keeps the value: the result equals the 16-bit value read as unsigned, so it lies in [0, 65535]. |
| `Decoder.EncodeR` | main.c:55-60 | For in-range fields, the reassembled word carries the opcode in bits 31–26 and rs, rt, rd, shamt and funct side by side in bits 25–0. This is the inverse that `Decode`'s round trip uses. |
| `Decoder.DecodeUnique` | main.c:55-60 | Any in-range fields that reassemble to a word are exactly the fields `Decode` returns for it, so `Decode`'s contract determines every R-format field. |
| `Decoder.DecodeOnto` | main.c:55-60 | Every combination of in-range opcode, rs, rt, rd, shamt and funct is the decoding of some word, so the range bounds are tight. |
| `Decoder.DecodeInjective` | main.c:53-62 | Two words with equal decodings are equal. |
| `Decoder.OverlappingFields` | main.c:58-62 | The immediate equals rd, shamt and funct placed side by side (bit-or of rd<<11, shamt<<6 and funct). The address equals rs<<21 and rt<<16 bit-or-ed with those same low 16 bits. |
| `Decoder.IFormatRoundTrip` | main.c:55-61 | Reassembling opcode, rs, rt and the 16 bits held in the immediate gives back the input word. |
| `Decoder.ZeroExtend16Injective` | main.c:61 | Distinct low halves give distinct immediates, so no bits are lost when the immediate is stored in the C `int`. |
| `Decoder.LowHalfRoundTrip` | main.c:55-57 | The opcode, rs and rt fields cover bits 31–16: combined with the word's low half they give back the word. |
| `Decoder.JFormatRoundTrip` | main.c:55-62 | Reassembling the opcode and the 26-bit jump address gives back the input word. |
| `Decoder.InstructionRecord.DecodeInto` | main.c:53-62 | Writing the fields one after another into a caller-owned record leaves that record equal to `Decode` of the word, whatever it held before. |
| `Decoder.ImmediateValue` | main.c:61 | The immediate equals the unsigned value of the word's low 16 bits, `binary & 0xFFFF`. |
| `Decoder.ImmediateIsZeroExtended` | main.c:61 | Bit 15 of the word is set exactly when the immediate is at least 2^15. The immediate is never the negative value a sign-extended 16-bit field would give. |
| `Decoder.SampleAddWord` | main.c:43-44 | The sample word 0x012A4020 decodes to opcode 0, rs 9, rt 10, rd 8, shamt 0, funct 32, immediate 0x4020 and address 0x012A4020. |
| `Executor.ExecuteRType` | main.c:91-94 | The R-type handler leaves the register file unchanged. |
| `Executor.ExecuteIType` | main.c:96-99 | The I-type handler leaves the register file unchanged. |
| `Executor.ExecuteJType` | main.c:101-104 | The J-type handler leaves the register file unchanged. |
| `Executor.ExecuteInstruction` | main.c:74-89 | Exactly one handler runs. The R-type handler runs iff the opcode is 0. The J-type handler runs iff the opcode is 2 or 3. The I-type handler runs iff the opcode is anything else. The register file is unchanged. |
| `Executor.DispatchByWordRange` | main.c:76-88 | For a decoded word, the handler depends only on the word's value. R-type means the word is below 2^26. J-type means the word is in [2^27, 2^28). I-type covers every other word. |
| `Executor.DispatchReadsOnlyOpcode` | main.c:76-88 | Two instructions with the same opcode go to the same handler, whatever their other fields and whatever the processor state. |
| `Executor.ZeroProcessorStaysZero` | main.c:40 | Starting from the zero-initialised processor, all 32 registers are still 0 after any instruction. |
| `Executor.SampleRun` | main.c:40-47 | The sample word, executed on the zero-initialised processor, goes to the R-type handler and leaves all 32 registers at 0. |

## Left out

- All `printf` output is I/O and is not modelled. This covers the field dump in `decodeInstruction` (main.c:64-71), the handler trace lines (main.c:93, 98, 103, 108) and `printRegisters` with its register-name table (main.c:111-126). The only thing modelled from the trace lines is which handler ran.
- `main` (main.c:38-51) is demonstration scaffolding. Its decode-and-dispatch scenario is stated as `SampleAddWord` and `SampleRun`.
- `updateRegisters` (main.c:106-109) is an empty stub that nothing calls.
- The `Label` struct (main.c:6-10) and the `label` field of `Processor` are never read or written meaningfully. `Processor` is modelled by its register file alone.
- The pointer form of `executeInstruction` is modelled as a value: the handlers never write through the pointer, so the processor that comes out is the one that went in. No aliasing is possible between the record, the processor and anything else in `main.c`.
