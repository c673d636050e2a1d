/** Instruction words: the decoder (decode.rs) and the encoders that invert it (asm.rs). */
module Encoding {
  /** All ones when the sign bit is set, else zero. */
  function SignMask(a: bv64): bv64 {
    0 - (a >> 63)
  }

  /** The n top bits. */
  function HighOnes(n: bv6): bv64 {
    !(0xffff_ffff_ffff_ffff >> n)
  }

  /** Arithmetic shift right. */
  function Sra(a: bv64, n: bv6): bv64 {
    Or(Shr(a, n), And(SignMask(a), HighOnes(n)))
  }

  /** 64-bit wrapping arithmetic, bitwise operations and logical shifts. */
  function Add(a: bv64, b: bv64): bv64 { a + b }
  function Sub(a: bv64, b: bv64): bv64 { a - b }
  function Xor(a: bv64, b: bv64): bv64 { a ^ b }
  function Or(a: bv64, b: bv64): bv64 { a | b }
  function And(a: bv64, b: bv64): bv64 { a & b }
  function Shl(a: bv64, n: bv6): bv64 { a << n }
  function Shr(a: bv64, n: bv6): bv64 { a >> n }

  /** Sign extension: the low bits, and the sign bit copied upwards. */
  function Sext12(x: bv32): bv64 { ((x & !0xffff_f000) as bv64) | ((0 - (((x >> 11) & 1) as bv64)) << 11) }
  function Sext13(x: bv32): bv64 { ((x & 0x1fff) as bv64) | ((0 - (((x >> 12) & 1) as bv64)) << 12) }
  function Sext21(x: bv32): bv64 { ((x & 0x1f_ffff) as bv64) | ((0 - (((x >> 20) & 1) as bv64)) << 20) }
  function Sext32(x: bv32): bv64 { (x as bv64) | ((0 - (((x >> 31) & 1) as bv64)) << 31) }

  datatype Instruction = Instruction(
    opcode: bv7, rd: bv5, rs1: bv5, rs2: bv5, funct3: bv3, funct7: bv7,
    immI: bv64, immS: bv64, immB: bv64, immU: bv64, immJ: bv64,
    shamt: bv6, csr: bv12)

  function Opcode(w: bv32): bv7 { (w & 0x7f) as bv7 }
  function Rd(w: bv32): bv5 { ((w >> 7) & 0x1f) as bv5 }
  function Rs1(w: bv32): bv5 { ((w >> 15) & 0x1f) as bv5 }
  function Rs2(w: bv32): bv5 { ((w >> 20) & 0x1f) as bv5 }
  function Funct3(w: bv32): bv3 { ((w >> 12) & 7) as bv3 }
  function Funct7(w: bv32): bv7 { ((w >> 25) & 0x7f) as bv7 }
  function Shamt(w: bv32): bv6 { ((w >> 20) & 0x3f) as bv6 }
  function Csr(w: bv32): bv12 { ((w >> 20) & 0xfff) as bv12 }

  /** Immediate bits gathered from the word, before sign extension. */
  function RawI(w: bv32): bv32 { w >> 20 }
  function RawS(w: bv32): bv32 { ((w >> 25) << 5) | ((w >> 7) & 0x1f) }
  function RawB(w: bv32): bv32 {
    (((w >> 31) & 1) << 12) | (((w >> 7) & 1) << 11) | (((w >> 25) & 0x3f) << 5) | (((w >> 8) & 0xf) << 1)
  }
  function RawU(w: bv32): bv32 { w & 0xffff_f000 }
  function RawJ(w: bv32): bv32 {
    (((w >> 31) & 1) << 20) | (((w >> 12) & 0xff) << 12) | (((w >> 20) & 1) << 11) | (((w >> 21) & 0x3ff) << 1)
  }

  function ImmI(w: bv32): bv64 { Sext12(RawI(w)) }
  function ImmS(w: bv32): bv64 { Sext12(RawS(w)) }
  function ImmB(w: bv32): bv64 { Sext13(RawB(w)) }
  function ImmU(w: bv32): bv64 { Sext32(RawU(w)) }
  function ImmJ(w: bv32): bv64 { Sext21(RawJ(w)) }

  function Decode(w: bv32): Instruction {
    Instruction(Opcode(w), Rd(w), Rs1(w), Rs2(w), Funct3(w), Funct7(w),
                ImmI(w), ImmS(w), ImmB(w), ImmU(w), ImmJ(w), Shamt(w), Csr(w))
  }

  // ---------- encoders; register and function fields are in range by type ----------

  function EncodeI(imm: bv32, rs1: bv5, funct3: bv3, rd: bv5, opcode: bv7): bv32 {
    PackI(imm & 0xfff, rs1, funct3, rd, opcode)
  }

  function PackI(imm: bv32, rs1: bv5, funct3: bv3, rd: bv5, opcode: bv7): bv32 {
    (imm << 20) | ((rs1 as bv32) << 15) | ((funct3 as bv32) << 12) | ((rd as bv32) << 7) | (opcode as bv32)
  }

  function EncodeS(imm: bv32, rs1: bv5, rs2: bv5, funct3: bv3, opcode: bv7): bv32 {
    PackS(imm & 0xfff, rs1, rs2, funct3, opcode)
  }

  function PackS(imm: bv32, rs1: bv5, rs2: bv5, funct3: bv3, opcode: bv7): bv32 {
    ((imm >> 5) << 25) | ((rs2 as bv32) << 20) | ((rs1 as bv32) << 15) | ((funct3 as bv32) << 12)
    | ((imm & 0x1f) << 7) | (opcode as bv32)
  }

  function EncodeU(imm: bv32, rd: bv5, opcode: bv7): bv32 {
    (imm & 0xffff_f000) | ((rd as bv32) << 7) | (opcode as bv32)
  }

  function EncodeJ(imm: bv32, rd: bv5, opcode: bv7): bv32 {
    PackJ(imm & 0x1f_fffe, rd, opcode)
  }

  function PackJ(imm: bv32, rd: bv5, opcode: bv7): bv32 {
    (((imm >> 20) & 1) << 31) | (((imm >> 1) & 0x3ff) << 21) | (((imm >> 11) & 1) << 20) | (((imm >> 12) & 0xff) << 12)
    | ((rd as bv32) << 7) | (opcode as bv32)
  }

  function EncodeB(imm: bv32, rs1: bv5, rs2: bv5, funct3: bv3, opcode: bv7): bv32 {
    PackB(imm & 0x1ffe, rs1, rs2, funct3, opcode)
  }

  function PackB(imm: bv32, rs1: bv5, rs2: bv5, funct3: bv3, opcode: bv7): bv32 {
    (((imm >> 12) & 1) << 31) | (((imm >> 5) & 0x3f) << 25) | ((rs2 as bv32) << 20) | ((rs1 as bv32) << 15)
    | ((funct3 as bv32) << 12) | (((imm >> 1) & 0xf) << 8) | (((imm >> 11) & 1) << 7) | (opcode as bv32)
  }

  /** Register-register word. */
  function EncodeR(f7: bv32, rs2: bv5, rs1: bv5, f3: bv3, rd: bv5, opcode: bv7): bv32 {
    EncodeI(((f7 & 0x7f) << 5) | (rs2 as bv32), rs1, f3, rd, opcode)
  }

  // ---------- decoding what was encoded ----------

  lemma DecodeEncodeI(imm: bv32, rs1: bv5, funct3: bv3, rd: bv5, opcode: bv7)
    ensures var w := EncodeI(imm, rs1, funct3, rd, opcode);
            Opcode(w) == opcode && Rd(w) == rd && Rs1(w) == rs1 && Funct3(w) == funct3
    ensures RawI(EncodeI(imm, rs1, funct3, rd, opcode)) == imm & 0xfff
  {
  }

  lemma DecodeEncodeS(imm: bv32, rs1: bv5, rs2: bv5, funct3: bv3, opcode: bv7)
    ensures var w := EncodeS(imm, rs1, rs2, funct3, opcode);
            Opcode(w) == opcode && Rs1(w) == rs1 && Rs2(w) == rs2 && Funct3(w) == funct3
    ensures RawS(EncodeS(imm, rs1, rs2, funct3, opcode)) == imm & 0xfff
  {
  }

  lemma DecodeEncodeU(imm: bv32, rd: bv5, opcode: bv7)
    ensures var w := EncodeU(imm, rd, opcode); Opcode(w) == opcode && Rd(w) == rd
    ensures RawU(EncodeU(imm, rd, opcode)) == imm & 0xffff_f000
  {
  }

  lemma DecodeEncodeJ(imm: bv32, rd: bv5, opcode: bv7)
    ensures var w := EncodeJ(imm, rd, opcode); Opcode(w) == opcode && Rd(w) == rd
    ensures RawJ(EncodeJ(imm, rd, opcode)) == imm & 0x1f_fffe
  {
  }

  lemma DecodeEncodeB(imm: bv32, rs1: bv5, rs2: bv5, funct3: bv3, opcode: bv7)
    ensures var w := EncodeB(imm, rs1, rs2, funct3, opcode);
            Opcode(w) == opcode && Rs1(w) == rs1 && Rs2(w) == rs2 && Funct3(w) == funct3
    ensures RawB(EncodeB(imm, rs1, rs2, funct3, opcode)) == imm & 0x1ffe
  {
  }

  lemma DecodeEncodeR(f7: bv32, rs2: bv5, rs1: bv5, f3: bv3, rd: bv5, opcode: bv7)
    ensures var w := EncodeR(f7, rs2, rs1, f3, rd, opcode);
            Opcode(w) == opcode && Rd(w) == rd && Rs1(w) == rs1 && Rs2(w) == rs2 && Funct3(w) == f3
    ensures Funct7(EncodeR(f7, rs2, rs1, f3, rd, opcode)) == (f7 & 0x7f) as bv7
  {
  }

  /** The immediate fits its format: the bits from the sign bit up are all equal. */
  predicate Fits12(imm: bv32) {
    imm & 0xffff_f800 == 0 || imm & 0xffff_f800 == 0xffff_f800
  }

  /** Branch and jump offsets are even. */
  predicate Fits13(imm: bv32) {
    imm & 1 == 0 && (imm & 0xffff_f000 == 0 || imm & 0xffff_f000 == 0xffff_f000)
  }

  predicate Fits21(imm: bv32) {
    imm & 1 == 0 && (imm & 0xfff0_0000 == 0 || imm & 0xfff0_0000 == 0xfff0_0000)
  }

  predicate FitsUpper(imm: bv32) {
    imm & 0xfff == 0
  }

  lemma Survives12(imm: bv32)
    requires Fits12(imm)
    ensures Sext12(imm & 0xfff) == Sext32(imm)
  {
  }

  lemma Survives13(imm: bv32)
    requires Fits13(imm)
    ensures Sext13(imm & 0x1ffe) == Sext32(imm)
  {
  }

  lemma Survives21(imm: bv32)
    requires Fits21(imm)
    ensures Sext21(imm & 0x1f_fffe) == Sext32(imm)
  {
  }

  lemma SurvivesUpper(imm: bv32)
    requires FitsUpper(imm)
    ensures imm & 0xffff_f000 == imm
  {
  }

  // Decoding an encoding returns every field, and an immediate that fits its format comes back as its
  // own 64-bit sign extension.

  lemma RoundTripI(imm: bv32, rs1: bv5, funct3: bv3, rd: bv5, opcode: bv7)
    requires Fits12(imm)
    ensures var w := EncodeI(imm, rs1, funct3, rd, opcode);
            Opcode(w) == opcode && Rd(w) == rd && Rs1(w) == rs1 && Funct3(w) == funct3 && ImmI(w) == Sext32(imm)
  {
    hide EncodeI, Opcode, Rd, Rs1, Rs2, Funct3, RawI, Sext12, Sext32, Fits12;
    DecodeEncodeI(imm, rs1, funct3, rd, opcode);
    Survives12(imm);
  }

  lemma RoundTripS(imm: bv32, rs1: bv5, rs2: bv5, funct3: bv3, opcode: bv7)
    requires Fits12(imm)
    ensures var w := EncodeS(imm, rs1, rs2, funct3, opcode);
            Opcode(w) == opcode && Rs1(w) == rs1 && Rs2(w) == rs2 && Funct3(w) == funct3 && ImmS(w) == Sext32(imm)
  {
    hide EncodeS, Opcode, Rd, Rs1, Rs2, Funct3, RawS, Sext12, Sext32, Fits12;
    DecodeEncodeS(imm, rs1, rs2, funct3, opcode);
    Survives12(imm);
  }

  lemma RoundTripU(imm: bv32, rd: bv5, opcode: bv7)
    requires FitsUpper(imm)
    ensures var w := EncodeU(imm, rd, opcode);
            Opcode(w) == opcode && Rd(w) == rd && ImmU(w) == Sext32(imm)
  {
    hide EncodeU, Opcode, Rd, Rs1, Rs2, Funct3, RawU, Sext32, FitsUpper;
    DecodeEncodeU(imm, rd, opcode);
    SurvivesUpper(imm);
  }

  lemma RoundTripJ(imm: bv32, rd: bv5, opcode: bv7)
    requires Fits21(imm)
    ensures var w := EncodeJ(imm, rd, opcode);
            Opcode(w) == opcode && Rd(w) == rd && ImmJ(w) == Sext32(imm)
  {
    hide EncodeJ, Opcode, Rd, Rs1, Rs2, Funct3, RawJ, Sext21, Sext32, Fits21;
    DecodeEncodeJ(imm, rd, opcode);
    Survives21(imm);
  }

  lemma RoundTripB(imm: bv32, rs1: bv5, rs2: bv5, funct3: bv3, opcode: bv7)
    requires Fits13(imm)
    ensures var w := EncodeB(imm, rs1, rs2, funct3, opcode);
            Opcode(w) == opcode && Rs1(w) == rs1 && Rs2(w) == rs2 && Funct3(w) == funct3 && ImmB(w) == Sext32(imm)
  {
    hide EncodeB, Opcode, Rd, Rs1, Rs2, Funct3, RawB, Sext13, Sext32, Fits13;
    DecodeEncodeB(imm, rs1, rs2, funct3, opcode);
    Survives13(imm);
  }

  // ---------- encoding what was decoded ----------

  /** The low word of a decoded immediate. */
  function LowWord(x: bv64): bv32 {
    (x & 0xffff_ffff) as bv32
  }

  lemma LowOfSext12(x: bv32)
    ensures LowWord(Sext12(x)) & 0xfff == x & 0xfff
  {
  }

  lemma LowOfSext13(x: bv32)
    ensures LowWord(Sext13(x)) & 0x1ffe == x & 0x1ffe
  {
  }

  lemma LowOfSext21(x: bv32)
    ensures LowWord(Sext21(x)) & 0x1f_fffe == x & 0x1f_fffe
  {
  }

  lemma LowOfSext32(x: bv32)
    ensures LowWord(Sext32(x)) == x
  {
  }

  lemma EncodeDecodeI(w: bv32)
    ensures EncodeI(LowWord(ImmI(w)), Rs1(w), Funct3(w), Rd(w), Opcode(w)) == w
  {
    hide LowWord, Sext12;
    LowOfSext12(RawI(w));
  }

  lemma EncodeDecodeS(w: bv32)
    ensures EncodeS(LowWord(ImmS(w)), Rs1(w), Rs2(w), Funct3(w), Opcode(w)) == w
  {
    hide LowWord, Sext12;
    LowOfSext12(RawS(w));
  }

  lemma EncodeDecodeU(w: bv32)
    ensures EncodeU(LowWord(ImmU(w)), Rd(w), Opcode(w)) == w
  {
    hide LowWord, Sext32;
    LowOfSext32(RawU(w));
  }

  lemma EncodeDecodeJ(w: bv32)
    ensures EncodeJ(LowWord(ImmJ(w)), Rd(w), Opcode(w)) == w
  {
    hide LowWord, Sext21;
    LowOfSext21(RawJ(w));
  }

  lemma EncodeDecodeB(w: bv32)
    ensures EncodeB(LowWord(ImmB(w)), Rs1(w), Rs2(w), Funct3(w), Opcode(w)) == w
  {
    hide LowWord, Sext13;
    LowOfSext13(RawB(w));
  }
}
