/** The executor of the MIPS simulator: a decoded instruction is classified by
    its opcode as R-type, J-type or I-type and handed to exactly one handler.
    The handlers are stubs that only announce themselves, so the processor's
    register file comes out of every execution as it went in. */
module Executor {
  import opened Decoder

  /** `NUM_REGISTERS`: the size of the general-purpose register file. */
  const NumRegisters: nat := 32

  type RegisterFile = r: seq<int32> | |r| == NumRegisters witness seq(32, _ => 0)

  /** The processor: its 32 signed 32-bit general-purpose registers. */
  datatype Processor = Processor(registers: RegisterFile)

  /** The processor as the demonstration program creates it, every register 0. */
  const ZeroProcessor: Processor := Processor(seq(NumRegisters, _ => 0))

  /** The three handlers an instruction can be dispatched to. */
  datatype Format = RType | IType | JType

  /** What executing one instruction yields: the handler that ran (the only
      thing a handler makes observable, by the line it prints) and the
      processor afterwards. */
  datatype Execution = Execution(handler: Format, cpu: Processor)

  /** The R-type handler: announces itself and leaves the processor alone. */
  function ExecuteRType(instr: Instruction, cpu: Processor): (after: Processor)
    ensures after.registers == cpu.registers
  {
    cpu
  }

  /** The I-type handler: announces itself and leaves the processor alone. */
  function ExecuteIType(instr: Instruction, cpu: Processor): (after: Processor)
    ensures after.registers == cpu.registers
  {
    cpu
  }

  /** The J-type handler: announces itself and leaves the processor alone. */
  function ExecuteJType(instr: Instruction, cpu: Processor): (after: Processor)
    ensures after.registers == cpu.registers
  {
    cpu
  }

  /** Dispatches on the opcode alone: 0 is R-type, 2 and 3 are J-type, and
      every other opcode falls to the I-type handler. */
  function ExecuteInstruction(instr: Instruction, cpu: Processor): (run: Execution)
    ensures run.handler == RType <==> instr.opcode == 0
    ensures run.handler == JType <==> instr.opcode == 2 || instr.opcode == 3
    ensures run.handler == IType <==> instr.opcode != 0 && instr.opcode != 2 && instr.opcode != 3
    ensures run.cpu.registers == cpu.registers
  {
    match instr.opcode
    case 0 => Execution(RType, ExecuteRType(instr, cpu))
    case 2 => Execution(JType, ExecuteJType(instr, cpu))
    case 3 => Execution(JType, ExecuteJType(instr, cpu))
    case _ => Execution(IType, ExecuteIType(instr, cpu))
  }

  /** On a decoded word, the handler is fixed by the word's value alone:
      R-type words are those below 2^26, J-type words those in
      [2^27, 2^28), and every other word is I-type. */
  lemma DispatchByWordRange(binary: Word, cpu: Processor)
    ensures ExecuteInstruction(Decode(binary), cpu).handler == RType <==> binary < 0x0400_0000
    ensures ExecuteInstruction(Decode(binary), cpu).handler == JType
        <==> 0x0800_0000 <= binary < 0x1000_0000
    ensures ExecuteInstruction(Decode(binary), cpu).handler == IType
        <==> 0x0400_0000 <= binary < 0x0800_0000 || 0x1000_0000 <= binary
  {
  }

  /** Only the opcode decides the handler: neither the other fields nor the
      processor's state have any say. */
  lemma DispatchReadsOnlyOpcode(a: Instruction, b: Instruction, cpuA: Processor, cpuB: Processor)
    requires a.opcode == b.opcode
    ensures ExecuteInstruction(a, cpuA).handler == ExecuteInstruction(b, cpuB).handler
  {
  }

  /** From the zero-initialised processor, every register is still 0 after
      any instruction. */
  lemma ZeroProcessorStaysZero(instr: Instruction)
    ensures forall i :: 0 <= i < NumRegisters ==> ExecuteInstruction(instr, ZeroProcessor).cpu.registers[i] == 0
  {
  }

  /** The demonstration run: the sample `add $8, $9, $10` word, executed on
      the zero-initialised processor, goes to the R-type handler and leaves
      all 32 registers at 0. */
  lemma SampleRun()
    ensures ExecuteInstruction(Decode(0x012A_4020), ZeroProcessor).handler == RType
    ensures var run := ExecuteInstruction(Decode(0x012A_4020), ZeroProcessor);
      forall i :: 0 <= i < NumRegisters ==> run.cpu.registers[i] == 0
  {
  }
}
