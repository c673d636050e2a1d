/** Compressed instructions (rvc.rs) and their 32-bit expansions (chapter 16 of the RISC-V
    Unprivileged Specification 20191213). */
module Rvc {
  import opened Base
  import opened HartState
  import opened Encoding
  import opened Rv64

  // ---------- fields and immediates as the source extracts them ----------

  function Section(c: bv16, pos: bv5, mask: bv32): bv32
    requires pos <= 16
  {
    ((c as bv32) >> pos) & mask
  }

  function COp(c: bv16): bv2 { (c & 3) as bv2 }
  function CFunct3(c: bv16): bv3 { ((c >> 13) & 7) as bv3 }
  function CFunct6(c: bv16): bv6 { ((c >> 10) & 0x3f) as bv6 }
  function CFunct2(c: bv16): bv2 { ((c >> 5) & 3) as bv2 }
  function CBit12(c: bv16): bv1 { ((c >> 12) & 1) as bv1 }
  function CRd(c: bv16): bv5 { ((c >> 7) & 0x1f) as bv5 }
  function CRs2(c: bv16): bv5 { ((c >> 2) & 0x1f) as bv5 }
  function Rs1Prime(c: bv16): bv5 { (((c >> 7) & 7) as bv5) + 8 }
  function Rs2Prime(c: bv16): bv5 { (((c >> 2) & 7) as bv5) + 8 }

  function Sext6(x: bv32): bv64 { ((x & 0x3f) as bv64) | ((0 - (((x >> 5) & 1) as bv64)) << 5) }
  function Sext9(x: bv32): bv64 { ((x & 0x1ff) as bv64) | ((0 - (((x >> 8) & 1) as bv64)) << 8) }
  function Sext10(x: bv32): bv64 { ((x & 0x3ff) as bv64) | ((0 - (((x >> 9) & 1) as bv64)) << 9) }

  function Uimm5(c: bv16): bv32 { (Section(c, 12, 1) << 5) | Section(c, 2, 0x1f) }
  function Imm5(c: bv16): bv64 { Sext6(Uimm5(c)) }
  function ShamtC(c: bv16): bv6 { Uimm5(c) as bv6 }
  function Nzuimm92(c: bv16): bv32 {
    (Section(c, 11, 3) << 4) | (Section(c, 7, 0xf) << 6) | (Section(c, 6, 1) << 2) | (Section(c, 5, 1) << 3)
  }
  function Nzimm94(c: bv16): bv64 {
    Sext10((Section(c, 12, 1) << 9) | (Section(c, 6, 1) << 4) | (Section(c, 5, 1) << 6) | (Section(c, 3, 3) << 7)
           | (Section(c, 2, 1) << 5))
  }
  function Offset62(c: bv16): bv32 { (Section(c, 10, 7) << 3) | (Section(c, 6, 1) << 2) | (Section(c, 5, 1) << 6) }
  function Offset73(c: bv16): bv32 { (Section(c, 10, 7) << 3) | (Section(c, 5, 3) << 6) }
  function Offset81(c: bv16): bv64 {
    Sext9((Section(c, 12, 1) << 8) | (Section(c, 10, 3) << 3) | (Section(c, 5, 3) << 6) | (Section(c, 3, 3) << 1)
          | (Section(c, 2, 1) << 5))
  }
  function Offset83Ldsp(c: bv16): bv32 { (Section(c, 12, 1) << 5) | (Section(c, 5, 3) << 3) | (Section(c, 2, 7) << 6) }
  function Offset83Sdsp(c: bv16): bv32 { (Section(c, 10, 7) << 3) | (Section(c, 7, 7) << 6) }
  function JumpBits(c: bv16): bv32 {
    (Section(c, 12, 1) << 11) | (Section(c, 11, 1) << 4) | (Section(c, 9, 3) << 8) | (Section(c, 8, 1) << 10)
    | (Section(c, 7, 1) << 6) | (Section(c, 6, 1) << 7) | (Section(c, 3, 7) << 1) | (Section(c, 2, 1) << 5)
  }
  function Offset111(c: bv16): bv64 { Sext12(JumpBits(c)) }

  // ---------- execution as the source performs it ----------

  function Next(h: Hart): bv64 {
    h.pc + 2
  }

  function Result(h: Hart, b: Bus, rd: bv5, v: bv64): Outcome {
    Outcome(Ok(Next(h)), h.SetReg(rd, v), b)
  }

  function ZeroImm(h: Hart, b: Bus): Outcome {
    Outcome(Err(ZeroImmediate), h, b)
  }

  function CLoadWord(h: Hart, b: Bus, addr: bv64, rd: bv5): Outcome {
    var r := CpuRead(h, b, addr, 4);
    match r.value
    case Err(e) => Outcome(Err(e), r.hart, r.bus)
    case Ok(v) => Outcome(Ok(Next(h)), r.hart.SetReg(rd, SextWord(v)), r.bus)
  }

  function CLoadDouble(h: Hart, b: Bus, addr: bv64, rd: bv5): Outcome {
    var r := CpuRead(h, b, addr, 8);
    match r.value
    case Err(e) => Outcome(Err(e), r.hart, r.bus)
    case Ok(v) => Outcome(Ok(Next(h)), r.hart.SetReg(rd, v), r.bus)
  }

  function CStore(h: Hart, b: Bus, addr: bv64, n: nat, v: bv64): Outcome {
    var r := CpuWrite(h, b, addr, n, v);
    match r.result
    case Err(e) => Outcome(Err(e), r.hart, r.bus)
    case Ok(_) => Outcome(Ok(Next(h)), r.hart, r.bus)
  }

  function Quadrant0(c: bv16, h: Hart, b: Bus): Outcome {
    match CFunct3(c)
    case 0 =>
      if Nzuimm92(c) == 0 then ZeroImm(h, b)
      else Result(h, b, Rs2Prime(c), Add(h.Reg(2), Nzuimm92(c) as bv64))
    case 2 => CLoadWord(h, b, Address(h, Rs1Prime(c), Offset62(c) as bv64), Rs2Prime(c))
    case 3 => CLoadDouble(h, b, Address(h, Rs1Prime(c), Offset73(c) as bv64), Rs2Prime(c))
    case 6 => CStore(h, b, Address(h, Rs1Prime(c), Offset62(c) as bv64), 4, h.Reg(Rs2Prime(c)))
    case 7 => CStore(h, b, Address(h, Rs1Prime(c), Offset73(c) as bv64), 8, h.Reg(Rs2Prime(c)))
    case _ => Illegal(h, b)
  }

  /** The register-register group of quadrant 1. */
  function CAlu(c: bv16, h: Hart, b: Bus): Outcome {
    var r := Rs1Prime(c);
    var x, y := h.Reg(r), h.Reg(Rs2Prime(c));
    if CFunct6(c) & 4 == 0 then
      match CFunct2(c)
      case 0 => Result(h, b, r, Sub(x, y))
      case 1 => Result(h, b, r, Xor(x, y))
      case 2 => Result(h, b, r, Or(x, y))
      case 3 => Result(h, b, r, And(x, y))
    else
      match CFunct2(c)
      case 0 => Result(h, b, r, SextWord(Sub(x, y)))
      case 1 => Result(h, b, r, SextWord(Add(x, y)))
      case _ => Illegal(h, b)
  }

  function CMisc(c: bv16, h: Hart, b: Bus): Outcome {
    var r := Rs1Prime(c);
    match (CFunct6(c) & 3) as bv2
    case 0 => if ShamtC(c) == 0 then ZeroImm(h, b) else Result(h, b, r, Shr(h.Reg(r), ShamtC(c)))
    case 1 => if ShamtC(c) == 0 then ZeroImm(h, b) else Result(h, b, r, Sra(h.Reg(r), ShamtC(c)))
    case 2 => Result(h, b, r, And(h.Reg(r), Imm5(c)))
    case 3 => CAlu(c, h, b)
  }

  function CLui(c: bv16, h: Hart, b: Bus): Outcome {
    if CRd(c) == 2 then
      if Nzimm94(c) == 0 then ZeroImm(h, b) else Result(h, b, 2, Add(h.Reg(2), Nzimm94(c)))
    else if CRd(c) == 0 then Illegal(h, b)
    else if Imm5(c) == 0 then ZeroImm(h, b)
    else Result(h, b, CRd(c), Imm5(c) << 12)
  }

  function Quadrant1(c: bv16, h: Hart, b: Bus): Outcome {
    match CFunct3(c)
    case 0 => Result(h, b, CRd(c), Add(h.Reg(CRd(c)), Imm5(c)))
    case 1 => if CRd(c) == 0 then Illegal(h, b) else Result(h, b, CRd(c), SextWord(Add(h.Reg(CRd(c)), Imm5(c))))
    case 2 => if CRd(c) == 0 then Illegal(h, b) else Result(h, b, CRd(c), Imm5(c))
    case 3 => CLui(c, h, b)
    case 4 => CMisc(c, h, b)
    case 5 => Outcome(Ok(Add(h.pc, Offset111(c))), h, b)
    case 6 => Outcome(Ok(if h.Reg(Rs1Prime(c)) == 0 then Add(h.pc, Offset81(c)) else Next(h)), h, b)
    case 7 => Outcome(Ok(if h.Reg(Rs1Prime(c)) != 0 then Add(h.pc, Offset81(c)) else Next(h)), h, b)
  }

  function CJumpOrMove(c: bv16, h: Hart, b: Bus): Outcome {
    if CBit12(c) == 0 then
      if CRd(c) == 0 then Illegal(h, b)
      else if CRs2(c) != 0 then Result(h, b, CRd(c), h.Reg(CRs2(c)))
      else Outcome(Ok(h.Reg(CRd(c))), h, b)
    else if CRs2(c) != 0 then
      if CRd(c) == 0 then Illegal(h, b) else Result(h, b, CRd(c), Add(h.Reg(CRd(c)), h.Reg(CRs2(c))))
    else if CRd(c) != 0 then Outcome(Ok(h.Reg(CRd(c))), h.SetReg(1, Next(h)), b)
    else Illegal(h, b)
  }

  function Quadrant2(c: bv16, h: Hart, b: Bus): Outcome {
    match CFunct3(c)
    case 0 => if ShamtC(c) == 0 then ZeroImm(h, b) else Result(h, b, CRd(c), Shl(h.Reg(CRd(c)), ShamtC(c)))
    case 3 =>
      if CRd(c) == 0 then Illegal(h, b)
      else CLoadDouble(h, b, Address(h, 2, Offset83Ldsp(c) as bv64), CRd(c))
    case 4 => CJumpOrMove(c, h, b)
    case 7 => CStore(h, b, Address(h, 2, Offset83Sdsp(c) as bv64), 8, h.Reg(CRs2(c)))
    case _ => Illegal(h, b)
  }

  function CExecute(c: bv16, h: Hart, b: Bus): Outcome {
    match COp(c)
    case 0 => Quadrant0(c, h, b)
    case 1 => Quadrant1(c, h, b)
    case 2 => Quadrant2(c, h, b)
    case 3 => Illegal(h, b)
  }

  // ---------- the specification's expansions ----------

  /** Bit i of the instruction. */
  function B(c: bv16, i: bv5): bv32
    requires i <= 16
  {
    ((c as bv32) >> i) & 1
  }

  /** Immediates by the specification's bit tables: which instruction bit supplies which bit. */
  function XAddi4spn(c: bv16): bv32 {
    (B(c, 10) << 9) | (B(c, 9) << 8) | (B(c, 8) << 7) | (B(c, 7) << 6) | (B(c, 12) << 5) | (B(c, 11) << 4)
    | (B(c, 5) << 3) | (B(c, 6) << 2)
  }
  function XWord(c: bv16): bv32 {
    (B(c, 5) << 6) | (B(c, 12) << 5) | (B(c, 11) << 4) | (B(c, 10) << 3) | (B(c, 6) << 2)
  }
  function XDouble(c: bv16): bv32 {
    (B(c, 6) << 7) | (B(c, 5) << 6) | (B(c, 12) << 5) | (B(c, 11) << 4) | (B(c, 10) << 3)
  }
  function XImm(c: bv16): bv32 {
    ((0 - B(c, 12)) << 5) | (B(c, 6) << 4) | (B(c, 5) << 3) | (B(c, 4) << 2) | (B(c, 3) << 1) | B(c, 2)
  }
  function XAddi16sp(c: bv16): bv32 {
    ((0 - B(c, 12)) << 9) | (B(c, 4) << 8) | (B(c, 3) << 7) | (B(c, 5) << 6) | (B(c, 2) << 5) | (B(c, 6) << 4)
  }
  function XShamt(c: bv16): bv32 {
    (B(c, 12) << 5) | (B(c, 6) << 4) | (B(c, 5) << 3) | (B(c, 4) << 2) | (B(c, 3) << 1) | B(c, 2)
  }
  function XJump(c: bv16): bv32 {
    ((0 - B(c, 12)) << 11) | (B(c, 8) << 10) | (B(c, 10) << 9) | (B(c, 9) << 8) | (B(c, 6) << 7) | (B(c, 7) << 6)
    | (B(c, 2) << 5) | (B(c, 11) << 4) | (B(c, 5) << 3) | (B(c, 4) << 2) | (B(c, 3) << 1)
  }
  function XBranch(c: bv16): bv32 {
    ((0 - B(c, 12)) << 8) | (B(c, 6) << 7) | (B(c, 5) << 6) | (B(c, 2) << 5) | (B(c, 11) << 4) | (B(c, 10) << 3)
    | (B(c, 4) << 2) | (B(c, 3) << 1)
  }
  function XLdsp(c: bv16): bv32 {
    (B(c, 4) << 8) | (B(c, 3) << 7) | (B(c, 2) << 6) | (B(c, 12) << 5) | (B(c, 6) << 4) | (B(c, 5) << 3)
  }
  function XSdsp(c: bv16): bv32 {
    (B(c, 9) << 8) | (B(c, 8) << 7) | (B(c, 7) << 6) | (B(c, 12) << 5) | (B(c, 11) << 4) | (B(c, 10) << 3)
  }

  function Expand0(c: bv16): Option<bv32> {
    match CFunct3(c)
    case 0 => if XAddi4spn(c) == 0 then None else Some(EncodeI(XAddi4spn(c), 2, 0, Rs2Prime(c), 0x13))
    case 2 => Some(EncodeI(XWord(c), Rs1Prime(c), 2, Rs2Prime(c), 0x03))
    case 3 => Some(EncodeI(XDouble(c), Rs1Prime(c), 3, Rs2Prime(c), 0x03))
    case 6 => Some(EncodeS(XWord(c), Rs1Prime(c), Rs2Prime(c), 2, 0x23))
    case 7 => Some(EncodeS(XDouble(c), Rs1Prime(c), Rs2Prime(c), 3, 0x23))
    case _ => None
  }

  function ExpandAlu(c: bv16): Option<bv32> {
    var r, s := Rs1Prime(c), Rs2Prime(c);
    if CFunct6(c) & 4 == 0 then
      match CFunct2(c)
      case 0 => Some(EncodeR(0x20, s, r, 0, r, 0x33))
      case 1 => Some(EncodeR(0, s, r, 4, r, 0x33))
      case 2 => Some(EncodeR(0, s, r, 6, r, 0x33))
      case 3 => Some(EncodeR(0, s, r, 7, r, 0x33))
    else
      match CFunct2(c)
      case 0 => Some(EncodeR(0x20, s, r, 0, r, 0x3b))
      case 1 => Some(EncodeR(0, s, r, 0, r, 0x3b))
      case _ => None
  }

  function ExpandMisc(c: bv16): Option<bv32> {
    var r := Rs1Prime(c);
    match (CFunct6(c) & 3) as bv2
    case 0 => if XShamt(c) == 0 then None else Some(EncodeI(XShamt(c), r, 5, r, 0x13))
    case 1 => if XShamt(c) == 0 then None else Some(EncodeI(XShamt(c) | 0x400, r, 5, r, 0x13))
    case 2 => Some(EncodeI(XImm(c), r, 7, r, 0x13))
    case 3 => ExpandAlu(c)
  }

  function ExpandLui(c: bv16): Option<bv32> {
    if CRd(c) == 2 then if XAddi16sp(c) == 0 then None else Some(EncodeI(XAddi16sp(c), 2, 0, 2, 0x13))
    else if CRd(c) == 0 || XImm(c) == 0 then None
    else Some(EncodeU(XImm(c) << 12, CRd(c), 0x37))
  }

  function Expand1(c: bv16): Option<bv32> {
    match CFunct3(c)
    case 0 => Some(EncodeI(XImm(c), CRd(c), 0, CRd(c), 0x13))
    case 1 => if CRd(c) == 0 then None else Some(EncodeI(XImm(c), CRd(c), 0, CRd(c), 0x1b))
    case 2 => if CRd(c) == 0 then None else Some(EncodeI(XImm(c), 0, 0, CRd(c), 0x13))
    case 3 => ExpandLui(c)
    case 4 => ExpandMisc(c)
    case 5 => Some(EncodeJ(XJump(c), 0, 0x6f))
    case 6 => Some(EncodeB(XBranch(c), Rs1Prime(c), 0, 0, 0x63))
    case 7 => Some(EncodeB(XBranch(c), Rs1Prime(c), 0, 1, 0x63))
  }

  function ExpandJumpOrMove(c: bv16): Option<bv32> {
    if CRd(c) == 0 then None
    else if CBit12(c) == 0 then
      Some(if CRs2(c) != 0 then EncodeR(0, CRs2(c), 0, 0, CRd(c), 0x33) else EncodeI(0, CRd(c), 0, 0, 0x67))
    else
      Some(if CRs2(c) != 0 then EncodeR(0, CRs2(c), CRd(c), 0, CRd(c), 0x33) else EncodeI(0, CRd(c), 0, 1, 0x67))
  }

  function Expand2(c: bv16): Option<bv32> {
    match CFunct3(c)
    case 0 => if XShamt(c) == 0 then None else Some(EncodeI(XShamt(c), CRd(c), 1, CRd(c), 0x13))
    case 3 => if CRd(c) == 0 then None else Some(EncodeI(XLdsp(c), 2, 3, CRd(c), 0x03))
    case 4 => ExpandJumpOrMove(c)
    case 7 => Some(EncodeS(XSdsp(c), 2, CRs2(c), 3, 0x23))
    case _ => None
  }

  /** The 32-bit instruction a compressed word stands for; None for reserved and unimplemented words. */
  function Expand(c: bv16): Option<bv32> {
    match COp(c)
    case 0 => Expand0(c)
    case 1 => Expand1(c)
    case 2 => Expand2(c)
    case 3 => None
  }

  // ---------- immediates agree ----------

  lemma SameAddi4spn(c: bv16) ensures Sext12(XAddi4spn(c) & 0xfff) == Nzuimm92(c) as bv64 {}
  lemma ZeroAddi4spn(c: bv16) ensures XAddi4spn(c) == Nzuimm92(c) {}
  lemma SameWord(c: bv16) ensures Sext12(XWord(c) & 0xfff) == Offset62(c) as bv64 {}
  lemma SameDouble(c: bv16) ensures Sext12(XDouble(c) & 0xfff) == Offset73(c) as bv64 {}
  lemma SameImm(c: bv16) ensures Sext12(XImm(c) & 0xfff) == Imm5(c) {}
  lemma SameLui(c: bv16) ensures Sext32((XImm(c) << 12) & 0xffff_f000) == Imm5(c) << 12 {}
  lemma SameAddi16sp(c: bv16) ensures Sext12(XAddi16sp(c) & 0xfff) == Nzimm94(c) {}
  lemma SameBranch(c: bv16) ensures Sext13(XBranch(c) & 0x1ffe) == Offset81(c) {}
  lemma SameLdsp(c: bv16) ensures Sext12(XLdsp(c) & 0xfff) == Offset83Ldsp(c) as bv64 {}
  lemma SameSdsp(c: bv16) ensures Sext12(XSdsp(c) & 0xfff) == Offset83Sdsp(c) as bv64 {}

  /** Sign extension of a 12-bit field inside a word. */
  function Extend12(x: bv32): bv32 { x | ((0 - ((x >> 11) & 1)) << 11) }

  predicate EvenField(x: bv32) { x & 0xffff_f001 == 0 }

  lemma JumpField(c: bv16) ensures EvenField(JumpBits(c)) {}
  lemma JumpWord(c: bv16) ensures XJump(c) == Extend12(JumpBits(c)) {}
  lemma ExtendTwice(x: bv32) requires EvenField(x) ensures Sext21(Extend12(x) & 0x1f_fffe) == Sext12(x) {}

  lemma SameJump(c: bv16)
    ensures Sext21(XJump(c) & 0x1f_fffe) == Offset111(c)
  {
    hide XJump, JumpBits, Extend12, EvenField, Sext12, Sext21;
    JumpField(c);
    JumpWord(c);
    ExtendTwice(JumpBits(c));
  }

  // ---------- the base instructions the expansions use ----------

  lemma RunOpImm(imm: bv32, rs1: bv5, f3: bv3, rd: bv5, h: Hart, b: Bus, next: bv64)
    ensures var w := EncodeI(imm, rs1, f3, rd, 0x13);
            Execute(Decode(w), h, b, next) ==
            Compute(h, b, rd, Some(OpImm(f3, Funct7(w), h.Reg(rs1), Sext12(imm & 0xfff), Shamt(w))), next)
  {
    hide EncodeI, Opcode, Rd, Rs1, Rs2, Funct3, Funct7, Shamt, Csr, RawI, RawS, RawB, RawU, RawJ, Sext12, Sext13,
      Sext21, Sext32, Add, Next, OpImm;
    DecodeEncodeI(imm, rs1, f3, rd, 0x13);
  }

  lemma RunAddi(imm: bv32, rs1: bv5, rd: bv5, h: Hart, b: Bus)
    ensures Execute(Decode(EncodeI(imm, rs1, 0, rd, 0x13)), h, b, Next(h)) ==
            Result(h, b, rd, Add(h.Reg(rs1), Sext12(imm & 0xfff)))
  {
    hide Execute, EncodeI, Decode, Add, And, Xor, Or, Shl, Shr, Next, Sext12;
    RunOpImm(imm, rs1, 0, rd, h, b, Next(h));
  }

  lemma RunAndi(imm: bv32, rs1: bv5, rd: bv5, h: Hart, b: Bus)
    ensures Execute(Decode(EncodeI(imm, rs1, 7, rd, 0x13)), h, b, Next(h)) ==
            Result(h, b, rd, And(h.Reg(rs1), Sext12(imm & 0xfff)))
  {
    hide Execute, EncodeI, Decode, Add, And, Xor, Or, Shl, Shr, Next, Sext12;
    RunOpImm(imm, rs1, 7, rd, h, b, Next(h));
  }

  lemma ShiftFields(imm: bv32, rs1: bv5, f3: bv3, rd: bv5)
    ensures Shamt(EncodeI(imm, rs1, f3, rd, 0x13)) == (imm & 0x3f) as bv6
    ensures Funct7(EncodeI(imm, rs1, f3, rd, 0x13)) & 0x20 == ((imm >> 5) & 0x20) as bv7
  {
  }

  lemma ShiftOperand(c: bv16)
    ensures (XShamt(c) & 0x3f) as bv6 == ShamtC(c)
    ensures ((XShamt(c) | 0x400) & 0x3f) as bv6 == ShamtC(c)
    ensures ((XShamt(c) >> 5) & 0x20) as bv7 == 0
    ensures (((XShamt(c) | 0x400) >> 5) & 0x20) as bv7 != 0
  {
  }

  lemma RunSlli(c: bv16, r: bv5, h: Hart, b: Bus)
    ensures Execute(Decode(EncodeI(XShamt(c), r, 1, r, 0x13)), h, b, Next(h)) ==
            Result(h, b, r, Shl(h.Reg(r), ShamtC(c)))
  {
    hide Execute, EncodeI, Decode, Add, And, Xor, Or, Shl, Shr, Next, Sext12, XShamt, ShamtC, Shamt, Funct7;
    RunOpImm(XShamt(c), r, 1, r, h, b, Next(h));
    ShiftFields(XShamt(c), r, 1, r);
    ShiftOperand(c);
  }

  lemma RunSrli(c: bv16, r: bv5, h: Hart, b: Bus)
    ensures Execute(Decode(EncodeI(XShamt(c), r, 5, r, 0x13)), h, b, Next(h)) ==
            Result(h, b, r, Shr(h.Reg(r), ShamtC(c)))
  {
    hide Execute, EncodeI, Decode, Add, And, Xor, Or, Shl, Shr, Next, Sext12, XShamt, ShamtC, Shamt, Funct7, Sra;
    RunOpImm(XShamt(c), r, 5, r, h, b, Next(h));
    ShiftFields(XShamt(c), r, 5, r);
    ShiftOperand(c);
  }

  lemma RunSrai(c: bv16, r: bv5, h: Hart, b: Bus)
    ensures Execute(Decode(EncodeI(XShamt(c) | 0x400, r, 5, r, 0x13)), h, b, Next(h)) ==
            Result(h, b, r, Sra(h.Reg(r), ShamtC(c)))
  {
    hide Execute, EncodeI, Decode, Add, And, Xor, Or, Shl, Shr, Next, Sext12, XShamt, ShamtC, Shamt, Funct7, Sra;
    RunOpImm(XShamt(c) | 0x400, r, 5, r, h, b, Next(h));
    ShiftFields(XShamt(c) | 0x400, r, 5, r);
    ShiftOperand(c);
  }

  lemma RunAddiw(imm: bv32, rs1: bv5, rd: bv5, h: Hart, b: Bus)
    ensures Execute(Decode(EncodeI(imm, rs1, 0, rd, 0x1b)), h, b, Next(h)) ==
            Result(h, b, rd, SextWord(Add(h.Reg(rs1), Sext12(imm & 0xfff))))
  {
    hide EncodeI, Opcode, Rd, Rs1, Rs2, Funct3, Funct7, Shamt, Csr, RawI, RawS, RawB, RawU, RawJ, Sext12, Sext13,
      Sext21, Sext32, Add, Next, SextWord;
    DecodeEncodeI(imm, rs1, 0, rd, 0x1b);
  }

  lemma RunLoad(imm: bv32, rs1: bv5, f3: bv3, rd: bv5, h: Hart, b: Bus)
    requires f3 == 2 || f3 == 3
    ensures var addr := Address(h, rs1, Sext12(imm & 0xfff));
            Execute(Decode(EncodeI(imm, rs1, f3, rd, 0x03)), h, b, Next(h)) ==
            if f3 == 2 then CLoadWord(h, b, addr, rd) else CLoadDouble(h, b, addr, rd)
  {
    hide EncodeI, Opcode, Rd, Rs1, Rs2, Funct3, Funct7, Shamt, Csr, RawI, RawS, RawB, RawU, RawJ, Sext12, Sext13,
      Sext21, Sext32, Add, Next, SextWord, Address, CpuRead;
    DecodeEncodeI(imm, rs1, f3, rd, 0x03);
  }

  lemma RunStore(imm: bv32, rs1: bv5, rs2: bv5, f3: bv3, h: Hart, b: Bus)
    requires f3 == 2 || f3 == 3
    ensures Execute(Decode(EncodeS(imm, rs1, rs2, f3, 0x23)), h, b, Next(h)) ==
            CStore(h, b, Address(h, rs1, Sext12(imm & 0xfff)), if f3 == 2 then 4 else 8, h.Reg(rs2))
  {
    hide EncodeS, Opcode, Rd, Rs1, Rs2, Funct3, Funct7, Shamt, Csr, RawI, RawS, RawB, RawU, RawJ, Sext12, Sext13,
      Sext21, Sext32, Add, Next, Address, CpuWrite;
    DecodeEncodeS(imm, rs1, rs2, f3, 0x23);
  }

  lemma RunOp(f7: bv32, rs2: bv5, rs1: bv5, f3: bv3, rd: bv5, h: Hart, b: Bus)
    ensures var f := (f7 & 0x7f) as bv7;
            && Execute(Decode(EncodeR(f7, rs2, rs1, f3, rd, 0x33)), h, b, Next(h)) ==
               Compute(h, b, rd, Op(f3, f, h.Reg(rs1), h.Reg(rs2)), Next(h))
            && Execute(Decode(EncodeR(f7, rs2, rs1, f3, rd, 0x3b)), h, b, Next(h)) ==
               Compute(h, b, rd, Op32(f3, f, h.Reg(rs1), h.Reg(rs2)), Next(h))
  {
    hide EncodeR, Opcode, Rd, Rs1, Rs2, Funct3, Funct7, Shamt, Csr, RawI, RawS, RawB, RawU, RawJ, Sext12, Sext13,
      Sext21, Sext32, Add, Next, Op, Op32;
    DecodeEncodeR(f7, rs2, rs1, f3, rd, 0x33);
    DecodeEncodeR(f7, rs2, rs1, f3, rd, 0x3b);
  }

  lemma RunLui(imm: bv32, rd: bv5, h: Hart, b: Bus)
    ensures Execute(Decode(EncodeU(imm, rd, 0x37)), h, b, Next(h)) == Result(h, b, rd, Sext32(imm & 0xffff_f000))
  {
    hide EncodeU, Opcode, Rd, Rs1, Rs2, Funct3, Funct7, Shamt, Csr, RawI, RawS, RawB, RawU, RawJ, Sext12, Sext13,
      Sext21, Sext32, Add, Next;
    DecodeEncodeU(imm, rd, 0x37);
  }

  lemma RunJal(imm: bv32, h: Hart, b: Bus)
    ensures Execute(Decode(EncodeJ(imm, 0, 0x6f)), h, b, Next(h)) ==
            Outcome(Ok(Add(h.pc, Sext21(imm & 0x1f_fffe))), h, b)
  {
    hide EncodeJ, Opcode, Rd, Rs1, Rs2, Funct3, Funct7, Shamt, Csr, RawI, RawS, RawB, RawU, RawJ, Sext12, Sext13,
      Sext21, Sext32, Add, Next;
    DecodeEncodeJ(imm, 0, 0x6f);
  }

  /** JALR with a zero offset clears bit 0 of the target. */
  lemma RunJalr(rs1: bv5, rd: bv5, h: Hart, b: Bus)
    ensures Execute(Decode(EncodeI(0, rs1, 0, rd, 0x67)), h, b, Next(h)) ==
            Outcome(Ok(Even(h.Reg(rs1))), h.SetReg(rd, Next(h)), b)
  {
    hide EncodeI, Opcode, Rd, Rs1, Rs2, Funct3, Funct7, Shamt, Csr, RawI, RawS, RawB, RawU, RawJ, Sext13, Sext21,
      Sext32;
    DecodeEncodeI(0, rs1, 0, rd, 0x67);
  }

  lemma RunBranch(imm: bv32, rs1: bv5, f3: bv3, h: Hart, b: Bus)
    requires (f3 == 0 || f3 == 1) && h.Reg(0) == 0
    ensures var taken := if f3 == 0 then h.Reg(rs1) == 0 else h.Reg(rs1) != 0;
            Execute(Decode(EncodeB(imm, rs1, 0, f3, 0x63)), h, b, Next(h)) ==
            Outcome(Ok(if taken then Add(h.pc, Sext13(imm & 0x1ffe)) else Next(h)), h, b)
  {
    hide EncodeB, Opcode, Rd, Rs1, Rs2, Funct3, Funct7, Shamt, Csr, RawI, RawS, RawB, RawU, RawJ, Sext12, Sext13,
      Sext21, Sext32, Add, Next;
    DecodeEncodeB(imm, rs1, 0, f3, 0x63);
  }

  // ---------- compressed means expanded ----------

  /** The outcome is that of the expansion with pc + 2 as the following address; a word without an
      expansion is rejected and changes nothing. */
  predicate Agrees(x: Option<bv32>, o: Outcome, h: Hart, b: Bus) {
    match x
    case Some(w) => o == Execute(Decode(w), h, b, Next(h))
    case None => o.next.Err? && o.hart == h && o.bus == b
  }

  lemma Addi4spnAgrees(c: bv16, h: Hart, b: Bus)
    requires CFunct3(c) == 0
    ensures Agrees(Expand0(c), Quadrant0(c, h, b), h, b)
  {
    hide Execute, Decode, EncodeI, EncodeS, Address, CLoadWord, CLoadDouble, CStore, XAddi4spn, XWord, XDouble,
      Nzuimm92, Offset62, Offset73, Rs1Prime, Rs2Prime, Sext12, CFunct3, Next, Add;
    ZeroAddi4spn(c);
    SameAddi4spn(c);
    RunAddi(XAddi4spn(c), 2, Rs2Prime(c), h, b);
  }

  lemma LoadsAgree(c: bv16, h: Hart, b: Bus)
    requires CFunct3(c) == 2 || CFunct3(c) == 3
    ensures Agrees(Expand0(c), Quadrant0(c, h, b), h, b)
  {
    hide Execute, Decode, EncodeI, EncodeS, Address, CLoadWord, CLoadDouble, CStore, XAddi4spn, XWord, XDouble,
      Nzuimm92, Offset62, Offset73, Rs1Prime, Rs2Prime, Sext12, CFunct3, Next, Add;
    SameWord(c);
    SameDouble(c);
    RunLoad(XWord(c), Rs1Prime(c), 2, Rs2Prime(c), h, b);
    RunLoad(XDouble(c), Rs1Prime(c), 3, Rs2Prime(c), h, b);
  }

  lemma StoresAgree(c: bv16, h: Hart, b: Bus)
    requires CFunct3(c) == 6 || CFunct3(c) == 7
    ensures Agrees(Expand0(c), Quadrant0(c, h, b), h, b)
  {
    hide Execute, Decode, EncodeI, EncodeS, Address, CLoadWord, CLoadDouble, CStore, XAddi4spn, XWord, XDouble,
      Nzuimm92, Offset62, Offset73, Rs1Prime, Rs2Prime, Sext12, CFunct3, Next, Add;
    SameWord(c);
    SameDouble(c);
    RunStore(XWord(c), Rs1Prime(c), Rs2Prime(c), 2, h, b);
    RunStore(XDouble(c), Rs1Prime(c), Rs2Prime(c), 3, h, b);
  }

  lemma Quadrant0Agrees(c: bv16, h: Hart, b: Bus)
    ensures Agrees(Expand0(c), Quadrant0(c, h, b), h, b)
  {
    hide Execute, Decode, EncodeI, EncodeS, Address, CLoadWord, CLoadDouble, CStore, XAddi4spn, XWord, XDouble,
      Nzuimm92, Offset62, Offset73, Rs1Prime, Rs2Prime, Sext12, CFunct3, Next, Add;
    match CFunct3(c)
    case 0 => Addi4spnAgrees(c, h, b);
    case 2 => LoadsAgree(c, h, b);
    case 3 => LoadsAgree(c, h, b);
    case 6 => StoresAgree(c, h, b);
    case 7 => StoresAgree(c, h, b);
    case _ =>
  }

  lemma ZeroRegister(h: Hart)
    requires h.regs[0] == 0
    ensures h.Reg(0) == 0
  {
  }

  lemma AddZero(x: bv64) ensures Add(0, x) == x {}

  lemma OpSub(a: bv64, b: bv64)
    ensures Op(0, 0x20, a, b) == Some(Sub(a, b))
  {
    hide MulDivResult, Add, Sub, Sra;
  }

  lemma OpXor(a: bv64, b: bv64)
    ensures Op(4, 0, a, b) == Some(Xor(a, b))
  {
    hide MulDivResult, Add, Sub, Xor, Or, And, Shl, Shr, Less;
  }

  lemma OpOr(a: bv64, b: bv64)
    ensures Op(6, 0, a, b) == Some(Or(a, b))
  {
    hide MulDivResult, Add, Sub, Xor, Or, And, Shl, Shr, Less;
  }

  lemma OpAnd(a: bv64, b: bv64)
    ensures Op(7, 0, a, b) == Some(And(a, b))
  {
    hide MulDivResult, Add, Sub, Xor, Or, And, Shl, Shr, Less;
  }

  lemma OpAdd(a: bv64, b: bv64)
    ensures Op(0, 0, a, b) == Some(Add(a, b))
  {
    hide MulDivResult, Add, Sub, Xor, Or, And, Shl, Shr, Less;
  }

  lemma OpSubw(a: bv64, b: bv64)
    ensures Op32(0, 0x20, a, b) == Some(SextWord(Sub(a, b)))
  {
    hide MulDivResult32, Add, Sub, Shl, Shr, SraWord, SextWord, Zext;
  }

  lemma OpAddw(a: bv64, b: bv64)
    ensures Op32(0, 0, a, b) == Some(SextWord(Add(a, b)))
  {
    hide MulDivResult32, Add, Sub, Shl, Shr, SraWord, SextWord, Zext;
  }

  lemma AluAgrees(c: bv16, h: Hart, b: Bus)
    ensures Agrees(ExpandAlu(c), CAlu(c, h, b), h, b)
  {
    hide Execute, Decode, EncodeR, Rs1Prime, Rs2Prime, CFunct6, CFunct2, Next, Add, Sub, Xor, Or, And, Op, Op32,
      SextWord;
    var r, s := Rs1Prime(c), Rs2Prime(c);
    var x, y := h.Reg(r), h.Reg(s);
    if CFunct6(c) & 4 == 0 {
      match CFunct2(c)
      case 0 => RunOp(0x20, s, r, 0, r, h, b); OpSub(x, y);
      case 1 => RunOp(0, s, r, 4, r, h, b); OpXor(x, y);
      case 2 => RunOp(0, s, r, 6, r, h, b); OpOr(x, y);
      case 3 => RunOp(0, s, r, 7, r, h, b); OpAnd(x, y);
    } else {
      match CFunct2(c)
      case 0 => RunOp(0x20, s, r, 0, r, h, b); OpSubw(x, y);
      case 1 => RunOp(0, s, r, 0, r, h, b); OpAddw(x, y);
      case _ =>
    }
  }

  lemma ShamtZero(c: bv16) ensures XShamt(c) == 0 <==> ShamtC(c) == 0 {}

  lemma MiscAgrees(c: bv16, h: Hart, b: Bus)
    ensures Agrees(ExpandMisc(c), CMisc(c, h, b), h, b)
  {
    hide Execute, Decode, EncodeI, ExpandAlu, CAlu, Rs1Prime, CFunct6, Next, XShamt, XImm, ShamtC, Imm5, Sext12,
      Sra, Shr, Shl, And;
    var r := Rs1Prime(c);
    ShamtZero(c);
    match (CFunct6(c) & 3) as bv2
    case 0 => RunSrli(c, r, h, b);
    case 1 => RunSrai(c, r, h, b);
    case 2 => SameImm(c); RunAndi(XImm(c), r, r, h, b);
    case 3 => AluAgrees(c, h, b);
  }

  lemma LuiZero(c: bv16) ensures XImm(c) == 0 <==> Imm5(c) == 0 {}
  lemma Addi16spZero(c: bv16) ensures XAddi16sp(c) == 0 <==> Nzimm94(c) == 0 {}

  lemma LuiAgrees(c: bv16, h: Hart, b: Bus)
    ensures Agrees(ExpandLui(c), CLui(c, h, b), h, b)
  {
    hide Execute, Decode, EncodeI, EncodeU, CRd, Next, XAddi16sp, XImm, Nzimm94, Imm5, Sext12, Sext32, Add;
    LuiZero(c);
    Addi16spZero(c);
    if CRd(c) == 2 {
      SameAddi16sp(c);
      RunAddi(XAddi16sp(c), 2, 2, h, b);
    } else {
      SameLui(c);
      RunLui(XImm(c) << 12, CRd(c), h, b);
    }
  }

  lemma JumpAgrees(c: bv16, h: Hart, b: Bus)
    requires CFunct3(c) == 5
    ensures Agrees(Expand1(c), Quadrant1(c, h, b), h, b)
  {
    hide Execute, Decode, EncodeI, EncodeJ, EncodeB, ExpandLui, CLui, ExpandMisc, CMisc, CFunct3, CRd, Rs1Prime,
      Next, XImm, XJump, XBranch, Imm5, Offset111, Offset81, Sext12, Sext13, Sext21, SextWord, Add, Result;
    SameJump(c);
    RunJal(XJump(c), h, b);
  }

  lemma BeqzAgrees(c: bv16, h: Hart, b: Bus)
    requires CFunct3(c) == 6 && h.regs[0] == 0
    ensures Agrees(Expand1(c), Quadrant1(c, h, b), h, b)
  {
    hide Execute, Decode, EncodeI, EncodeJ, EncodeB, ExpandLui, CLui, ExpandMisc, CMisc, CFunct3, CRd, Rs1Prime, Next,
      XImm, XJump, XBranch, Imm5, Offset111, Offset81, Sext12, Sext13, Sext21, SextWord, Add, Result;
    ZeroRegister(h);
    SameBranch(c);
    RunBranch(XBranch(c), Rs1Prime(c), 0, h, b);
  }

  lemma BnezAgrees(c: bv16, h: Hart, b: Bus)
    requires CFunct3(c) == 7 && h.regs[0] == 0
    ensures Agrees(Expand1(c), Quadrant1(c, h, b), h, b)
  {
    hide Execute, Decode, EncodeI, EncodeJ, EncodeB, ExpandLui, CLui, ExpandMisc, CMisc, CFunct3, CRd, Rs1Prime, Next,
      XImm, XJump, XBranch, Imm5, Offset111, Offset81, Sext12, Sext13, Sext21, SextWord, Add, Result;
    ZeroRegister(h);
    SameBranch(c);
    RunBranch(XBranch(c), Rs1Prime(c), 1, h, b);
  }

  lemma Quadrant1Agrees(c: bv16, h: Hart, b: Bus)
    requires h.regs[0] == 0
    ensures Agrees(Expand1(c), Quadrant1(c, h, b), h, b)
  {
    hide Execute, Decode, EncodeI, EncodeJ, EncodeB, ExpandLui, CLui, ExpandMisc, CMisc, CFunct3, CRd, Rs1Prime,
      Next, XImm, XJump, XBranch, Imm5, Offset111, Offset81, Sext12, Sext13, Sext21, SextWord, Add, Agrees, Result;
    match CFunct3(c)
    case 0 => AddiAgrees(c, h, b);
    case 1 => AddiwAgrees(c, h, b);
    case 2 => LiAgrees(c, h, b);
    case 3 => LuiAgrees(c, h, b);
    case 4 => MiscAgrees(c, h, b);
    case 5 => JumpAgrees(c, h, b);
    case 6 => BeqzAgrees(c, h, b);
    case 7 => BnezAgrees(c, h, b);
  }

  lemma AddiAgrees(c: bv16, h: Hart, b: Bus)
    requires CFunct3(c) == 0
    ensures Agrees(Expand1(c), Quadrant1(c, h, b), h, b)
  {
    hide Execute, Decode, EncodeI, EncodeJ, EncodeB, ExpandLui, CLui, ExpandMisc, CMisc, CFunct3, CRd, Rs1Prime, Next,
      XImm, XJump, XBranch, Imm5, Offset111, Offset81, Sext12, Sext13, Sext21, SextWord, Add, Result;
    SameImm(c);
    RunAddi(XImm(c), CRd(c), CRd(c), h, b);
  }

  lemma AddiwAgrees(c: bv16, h: Hart, b: Bus)
    requires CFunct3(c) == 1
    ensures Agrees(Expand1(c), Quadrant1(c, h, b), h, b)
  {
    hide Execute, Decode, EncodeI, EncodeJ, EncodeB, ExpandLui, CLui, ExpandMisc, CMisc, CFunct3, CRd, Rs1Prime, Next,
      XImm, XJump, XBranch, Imm5, Offset111, Offset81, Sext12, Sext13, Sext21, SextWord, Add, Result;
    SameImm(c);
    RunAddiw(XImm(c), CRd(c), CRd(c), h, b);
  }

  lemma LiAgrees(c: bv16, h: Hart, b: Bus)
    requires CFunct3(c) == 2 && h.regs[0] == 0
    ensures Agrees(Expand1(c), Quadrant1(c, h, b), h, b)
  {
    hide Execute, Decode, EncodeI, EncodeJ, EncodeB, ExpandLui, CLui, ExpandMisc, CMisc, CFunct3, CRd, Rs1Prime, Next,
      XImm, XJump, XBranch, Imm5, Offset111, Offset81, Sext12, Sext13, Sext21, SextWord, Add, Result;
    ZeroRegister(h);
    SameImm(c);
    RunAddi(XImm(c), 0, CRd(c), h, b);
    AddZero(Imm5(c));
  }

  /** C.JR and C.JALR. */
  predicate JumpsToRegister(c: bv16) {
    COp(c) == 2 && CFunct3(c) == 4 && CRd(c) != 0 && CRs2(c) == 0
  }

  predicate Odd(a: bv64) {
    a & 1 != 0
  }

  lemma EvenIffNotOdd(a: bv64) ensures Even(a) == a <==> !Odd(a) {}

  lemma JumpOrMoveAgrees(c: bv16, h: Hart, b: Bus)
    requires h.regs[0] == 0
    ensures CRd(c) != 0 && CRs2(c) == 0 ==>
              CJumpOrMove(c, h, b).next == Ok(h.Reg(CRd(c))) && ExpandJumpOrMove(c).Some? &&
              Execute(Decode(ExpandJumpOrMove(c).value), h, b, Next(h)) ==
              CJumpOrMove(c, h, b).(next := Ok(Even(h.Reg(CRd(c)))))
    ensures !(CRd(c) != 0 && CRs2(c) == 0) ==> Agrees(ExpandJumpOrMove(c), CJumpOrMove(c, h, b), h, b)
  {
    hide Execute, Decode, EncodeI, EncodeR, CRd, CRs2, CBit12, Next, Add, Op, Op32, Even;
    ZeroRegister(h);
    var rd, rs2 := CRd(c), CRs2(c);
    if CRs2(c) != 0 {
      RunOp(0, rs2, 0, 0, rd, h, b);
      OpAdd(h.Reg(0), h.Reg(rs2));
      AddZero(h.Reg(rs2));
      RunOp(0, rs2, rd, 0, rd, h, b);
      OpAdd(h.Reg(rd), h.Reg(rs2));
    } else {
      RunJalr(rd, 0, h, b);
      RunJalr(rd, 1, h, b);
    }
  }

  lemma Quadrant2Agrees(c: bv16, h: Hart, b: Bus)
    requires CFunct3(c) != 4
    ensures Agrees(Expand2(c), Quadrant2(c, h, b), h, b)
  {
    hide Execute, Decode, EncodeI, EncodeS, ExpandJumpOrMove, CJumpOrMove, CFunct3, CRd, CRs2, Next, XShamt, ShamtC,
      XLdsp, XSdsp, Offset83Ldsp, Offset83Sdsp, Sext12, Address, CLoadDouble, CLoadWord, CStore, Shl;
    match CFunct3(c)
    case 0 => ShamtZero(c); RunSlli(c, CRd(c), h, b);
    case 3 => SameLdsp(c); RunLoad(XLdsp(c), 2, 3, CRd(c), h, b);
    case 7 => SameSdsp(c); RunStore(XSdsp(c), 2, CRs2(c), 3, h, b);
    case _ =>
  }

  /** Every compressed word does what its expansion does, to registers, memory, devices and control
      flow, with pc + 2 for fall-through and link, and words without an expansion are rejected without
      effect. The single exception is a register jump to an odd address, which keeps bit 0 where JALR
      clears it. */
  lemma CompressedIsExpansion(c: bv16, h: Hart, b: Bus)
    requires h.regs[0] == 0
    ensures Agrees(Expand(c), CExecute(c, h, b), h, b) <==> !(JumpsToRegister(c) && Odd(h.Reg(CRd(c))))
    ensures JumpsToRegister(c) ==>
              Expand(c).Some? &&
              Execute(Decode(Expand(c).value), h, b, Next(h)) == CExecute(c, h, b).(next := Ok(Even(h.Reg(CRd(c)))))
  {
    hide Execute, Decode, Expand0, Expand1, ExpandJumpOrMove, Quadrant0, Quadrant1, CJumpOrMove, COp, CFunct3, CRd,
      CRs2, Next, Even, Odd;
    match COp(c)
    case 0 => Quadrant0Agrees(c, h, b);
    case 1 => Quadrant1Agrees(c, h, b);
    case 2 =>
      if CFunct3(c) == 4 {
        JumpOrMoveAgrees(c, h, b);
        EvenIffNotOdd(h.Reg(CRd(c)));
      } else {
        Quadrant2Agrees(c, h, b);
      }
    case 3 =>
  }

  /** c.jr a0. */
  const JUMP_A0: bv16 := 0x8502

  lemma JumpA0Fields()
    ensures JumpsToRegister(JUMP_A0) && CRd(JUMP_A0) == 10
  {
  }

  /** The exception on a real word: with a0 odd, c.jr a0 continues at the odd address and its expansion
      at the even one below it. */
  lemma OddJump(h: Hart, b: Bus)
    requires h.regs[0] == 0 && Odd(h.Reg(10))
    ensures Expand(JUMP_A0).Some?
    ensures CExecute(JUMP_A0, h, b).next == Ok(h.Reg(10))
    ensures Execute(Decode(Expand(JUMP_A0).value), h, b, Next(h)).next == Ok(Even(h.Reg(10)))
    ensures Even(h.Reg(10)) != h.Reg(10)
  {
    hide Execute, Decode, Expand, CJumpOrMove, Quadrant0, Quadrant1, COp, CFunct3, CRd, CRs2, CBit12, Next, Even, Odd;
    JumpA0Fields();
    JumpTarget(JUMP_A0, h, b);
    CompressedIsExpansion(JUMP_A0, h, b);
    EvenIffNotOdd(h.Reg(10));
  }

  lemma JumpTarget(c: bv16, h: Hart, b: Bus)
    requires JumpsToRegister(c)
    ensures CExecute(c, h, b).next == Ok(h.Reg(CRd(c)))
  {
    hide COp, CFunct3, CRd, CRs2, CBit12, Next, Quadrant0, Quadrant1;
  }
}
