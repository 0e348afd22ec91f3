/** The instruction decoder of the MIPS simulator: one 32-bit instruction word is
    sliced into the eight fields of the format-superset `Instruction` record by
    fixed shift-and-mask expressions. Every field is always computed, whatever
    the opcode says the format is. */
module Decoder {

  /** The C `int` of the simulator: 32-bit two's complement. */
  newtype int32 = x: int | -0x8000_0000 <= x < 0x8000_0000

  /** A raw instruction word, the C `unsigned int` handed to the decoder. */
  type Word = bv32

  /** The decoded instruction. The six R-format fields and the jump address are
      C `unsigned int`s; the immediate is a C `int`. */
  datatype Instruction = Instruction(
    opcode: bv32,     // bits 31-26
    rs: bv32,         // bits 25-21
    rt: bv32,         // bits 20-16
    rd: bv32,         // bits 15-11
    shamt: bv32,      // bits 10-6
    funct: bv32,      // bits 5-0
    immediate: int32, // bits 15-0, zero-extended
    address: bv32     // bits 25-0
  )

  /** The implicit conversion of an unsigned 16-bit value to a C `int`: the
      value is kept, so it is never negative. */
  function ZeroExtend16(low: bv16): (value: int32)
    ensures 0 <= value <= 0xFFFF
    ensures value as int == low as int
  {
    low as int32
  }

  /** Reassembles an R-format word from its six fields; the inverse of `Decode`
      on the fields that partition the word. */
  function EncodeR(opcode: bv32, rs: bv32, rt: bv32, rd: bv32, shamt: bv32, funct: bv32): (binary: Word)
    requires opcode < 64 && rs < 32 && rt < 32 && rd < 32 && shamt < 32 && funct < 64
    ensures binary >> 26 == opcode
    ensures binary & 0x3FF_FFFF == (rs << 21) | (rt << 16) | (rd << 11) | (shamt << 6) | funct
  {
    (opcode << 26) | (rs << 21) | (rt << 16) | (rd << 11) | (shamt << 6) | funct
  }

  /** Decodes an instruction word. Total: every word yields a record whose
      fields lie in the ranges their widths allow, and the R-format fields
      reassemble to the word. */
  function Decode(binary: Word): (instr: Instruction)
    ensures instr.opcode < 64 && instr.funct < 64
    ensures instr.rs < 32 && instr.rt < 32 && instr.rd < 32 && instr.shamt < 32
    ensures 0 <= instr.immediate <= 0xFFFF
    ensures instr.address < 0x400_0000
    ensures EncodeR(instr.opcode, instr.rs, instr.rt, instr.rd, instr.shamt, instr.funct) == binary
  {
    Instruction(
      (binary >> 26) & 0x3F,
      (binary >> 21) & 0x1F,
      (binary >> 16) & 0x1F,
      (binary >> 11) & 0x1F,
      (binary >> 6) & 0x1F,
      binary & 0x3F,
      ZeroExtend16((binary & 0xFFFF) as bv16),
      binary & 0x3FF_FFFF)
  }

  /** The contract of `Decode` determines it: any in-range fields that
      reassemble to the word are the fields `Decode` returns. */
  lemma DecodeUnique(binary: Word, opcode: bv32, rs: bv32, rt: bv32, rd: bv32, shamt: bv32, funct: bv32)
    requires opcode < 64 && rs < 32 && rt < 32 && rd < 32 && shamt < 32 && funct < 64
    requires EncodeR(opcode, rs, rt, rd, shamt, funct) == binary
    ensures Decode(binary).opcode == opcode && Decode(binary).rs == rs
    ensures Decode(binary).rt == rt && Decode(binary).rd == rd
    ensures Decode(binary).shamt == shamt && Decode(binary).funct == funct
  {
  }

  /** The immediate and the jump address overlap the R-format fields: the
      immediate is rd, shamt and funct side by side, and the address is rs, rt
      and the immediate side by side. */
  lemma OverlappingFields(binary: Word)
    ensures var instr := Decode(binary);
      instr.immediate == ZeroExtend16(((instr.rd << 11) | (instr.shamt << 6) | instr.funct) as bv16)
    ensures var instr := Decode(binary);
      instr.address == (instr.rs << 21) | (instr.rt << 16) | (instr.rd << 11) | (instr.shamt << 6) | instr.funct
  {
  }

  /** The I-format view of a word puts it back together: opcode, rs, rt and
      the 16 bits the immediate holds reassemble to the word. */
  lemma IFormatRoundTrip(binary: Word, low: bv16)
    requires ZeroExtend16(low) == Decode(binary).immediate
    ensures var instr := Decode(binary);
      (instr.opcode << 26) | (instr.rs << 21) | (instr.rt << 16) | (low as bv32) == binary
  {
    var actual := (binary & 0xFFFF) as bv16;
    ZeroExtend16Injective(low, actual);
    LowHalfRoundTrip(binary);
  }

  /** Two 16-bit halves that zero-extend to the same immediate are equal. */
  lemma ZeroExtend16Injective(a: bv16, b: bv16)
    requires ZeroExtend16(a) == ZeroExtend16(b)
    ensures a == b
  {
    assert (a as int) as bv16 == a;
    assert (b as int) as bv16 == b;
  }

  /** The opcode, rs and rt fields and the low half of the word reassemble to the word. */
  lemma LowHalfRoundTrip(binary: Word)
    ensures var instr := Decode(binary);
      (instr.opcode << 26) | (instr.rs << 21) | (instr.rt << 16) | (((binary & 0xFFFF) as bv16) as bv32) == binary
  {
  }

  /** The J-format view of a word puts it back together: the opcode and the
      jump address reassemble to the word. */
  lemma JFormatRoundTrip(binary: Word)
    ensures (Decode(binary).opcode << 26) | Decode(binary).address == binary
  {
  }

  /** The immediate holds the unsigned value of the word's low 16 bits. */
  lemma ImmediateValue(binary: Word)
    ensures Decode(binary).immediate as int == (binary & 0xFFFF) as int
  {
  }

  /** The immediate is zero-extended: a word whose bit 15 is set yields an
      immediate of at least 2^15, never the negative value that bit pattern
      stands for as a signed 16-bit number. */
  lemma ImmediateIsZeroExtended(binary: Word)
    ensures binary & 0x8000 != 0 <==> Decode(binary).immediate >= 0x8000
  {
  }

  /** Two words that decode to the same record are the same word. */
  lemma DecodeInjective(a: Word, b: Word)
    ensures Decode(a) == Decode(b) ==> a == b
  {
  }

  /** Every combination of in-range R-format fields is decoded from some word:
      the range bounds of `Decode` are tight. */
  lemma DecodeOnto(opcode: bv32, rs: bv32, rt: bv32, rd: bv32, shamt: bv32, funct: bv32)
    requires opcode < 64 && rs < 32 && rt < 32 && rd < 32 && shamt < 32 && funct < 64
    ensures exists binary: Word ::
              && Decode(binary).opcode == opcode && Decode(binary).rs == rs
              && Decode(binary).rt == rt && Decode(binary).rd == rd
              && Decode(binary).shamt == shamt && Decode(binary).funct == funct
  {
    var binary := EncodeR(opcode, rs, rt, rd, shamt, funct);
    assert Decode(binary).opcode == opcode && Decode(binary).rs == rs
      && Decode(binary).rt == rt && Decode(binary).rd == rd
      && Decode(binary).shamt == shamt && Decode(binary).funct == funct;
  }

  /** The caller-owned record `decodeInstruction` writes through its pointer. */
  class InstructionRecord {
    var opcode: bv32
    var rs: bv32
    var rt: bv32
    var rd: bv32
    var shamt: bv32
    var funct: bv32
    var immediate: int32
    var address: bv32

    constructor ()
    {
    }

    /** The record's current contents as a value. */
    function Value(): Instruction
      reads this
    {
      Instruction(opcode, rs, rt, rd, shamt, funct, immediate, address)
    }

    /** `decodeInstruction`: overwrites all eight fields of the record, one
        after another, with the fields of the word; the record's previous
        contents play no part. */
    method DecodeInto(binary: Word)
      modifies this
      ensures Value() == Decode(binary)
    {
      opcode := (binary >> 26) & 0x3F;
      rs := (binary >> 21) & 0x1F;
      rt := (binary >> 16) & 0x1F;
      rd := (binary >> 11) & 0x1F;
      shamt := (binary >> 6) & 0x1F;
      funct := binary & 0x3F;
      immediate := ZeroExtend16((binary & 0xFFFF) as bv16);
      address := binary & 0x3FF_FFFF;
    }
  }

  /** The word the demonstration program decodes, `add $8, $9, $10`. */
  lemma SampleAddWord()
    ensures Decode(0x012A_4020) == Instruction(0, 9, 10, 8, 0, 32, 0x4020, 0x012A_4020)
  {
  }
}
