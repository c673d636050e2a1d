/** Where the fields of an instruction stand, by division and remainder (figures 2.2 and 2.4 and table
    16.1 of the RISC-V Unprivileged Specification 20191213). */
module Fields {
  import opened Encoding
  import opened Rvc

  /** Register, function and opcode fields of a 32-bit word. */
  lemma WordFields(w: bv32)
    ensures Opcode(w) as bv32 == w % 128
    ensures Rd(w) as bv32 == w / 128 % 32
    ensures Funct3(w) as bv32 == w / 0x1000 % 8
    ensures Rs1(w) as bv32 == w / 0x8000 % 32
    ensures Rs2(w) as bv32 == w / 0x10_0000 % 32
    ensures Funct7(w) as bv32 == w / 0x200_0000
    ensures Shamt(w) as bv32 == w / 0x10_0000 % 64
    ensures Csr(w) as bv32 == w / 0x10_0000
  {
    LowFields(w);
    HighFields(w);
  }

  lemma LowFields(w: bv32)
    ensures Opcode(w) as bv32 == w % 128
    ensures Rd(w) as bv32 == w / 128 % 32
    ensures Funct3(w) as bv32 == w / 0x1000 % 8
    ensures Rs1(w) as bv32 == w / 0x8000 % 32
  {
  }

  lemma HighFields(w: bv32)
    ensures Rs2(w) as bv32 == w / 0x10_0000 % 32
    ensures Funct7(w) as bv32 == w / 0x200_0000
    ensures Shamt(w) as bv32 == w / 0x10_0000 % 64
    ensures Csr(w) as bv32 == w / 0x10_0000
  {
  }

  /** Immediates before sign extension, each bit group at its place value. */
  lemma ImmediateFields(w: bv32)
    ensures RawI(w) == w / 0x10_0000
    ensures RawS(w) == w / 0x200_0000 * 32 + w / 128 % 32
    ensures RawB(w) == w / 0x8000_0000 * 4096 + w / 128 % 2 * 2048 + w / 0x200_0000 % 64 * 32 + w / 256 % 16 * 2
    ensures RawU(w) == w / 4096 * 4096
    ensures RawJ(w) == w / 0x8000_0000 * 0x10_0000 + w / 0x1000 % 256 * 0x1000 + w / 0x10_0000 % 2 * 2048
                       + w / 0x20_0000 % 1024 * 2
  {
    PlainField(w);
    UpperField(w);
    StoreField(w);
    BranchField(w);
    JumpFieldIs(w);
  }

  lemma PlainField(w: bv32)
    ensures RawI(w) == w / 0x10_0000
  {
  }

  lemma UpperField(w: bv32)
    ensures RawU(w) == w / 4096 * 4096
  {
  }

  lemma StoreField(w: bv32)
    ensures RawS(w) == w / 0x200_0000 * 32 + w / 128 % 32
  {
  }

  lemma BranchField(w: bv32)
    ensures RawB(w) == w / 0x8000_0000 * 4096 + w / 128 % 2 * 2048 + w / 0x200_0000 % 64 * 32 + w / 256 % 16 * 2
  {
  }

  lemma JumpFieldIs(w: bv32)
    ensures RawJ(w) == w / 0x8000_0000 * 0x10_0000 + w / 0x1000 % 256 * 0x1000 + w / 0x10_0000 % 2 * 2048
                       + w / 0x20_0000 % 1024 * 2
  {
  }

  /** Fields of a compressed word; the three-bit register fields name x8 to x15. */
  lemma CompressedFields(c: bv16)
    ensures COp(c) as bv16 == c % 4
    ensures CFunct3(c) as bv16 == c / 0x2000
    ensures CFunct6(c) as bv16 == c / 0x400
    ensures CFunct2(c) as bv16 == c / 32 % 4
    ensures CBit12(c) as bv16 == c / 0x1000 % 2
    ensures CRd(c) as bv16 == c / 128 % 32
    ensures CRs2(c) as bv16 == c / 4 % 32
    ensures Rs1Prime(c) as bv16 == 8 + c / 128 % 8
    ensures Rs2Prime(c) as bv16 == 8 + c / 4 % 8
  {
    CompressedFunctions(c);
    CompressedRegisters(c);
  }

  lemma CompressedFunctions(c: bv16)
    ensures COp(c) as bv16 == c % 4
    ensures CFunct3(c) as bv16 == c / 0x2000
    ensures CFunct6(c) as bv16 == c / 0x400
    ensures CFunct2(c) as bv16 == c / 32 % 4
    ensures CBit12(c) as bv16 == c / 0x1000 % 2
  {
  }

  lemma CompressedRegisters(c: bv16)
    ensures CRd(c) as bv16 == c / 128 % 32
    ensures CRs2(c) as bv16 == c / 4 % 32
    ensures Rs1Prime(c) as bv16 == 8 + c / 128 % 8
    ensures Rs2Prime(c) as bv16 == 8 + c / 4 % 8
  {
  }
}
