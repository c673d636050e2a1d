/** What assembled OP-32, OP-IMM-32 and M instructions do (sections 5.2 and 7.1 to 7.2 of the RISC-V
    Unprivileged Specification 20191213), with registers as numbers. */
module IsaWord {
  import opened Base
  import opened Words
  import opened HartState
  import opened Encoding
  import opened Rv64
  import opened Machine
  import opened Numbers
  import opened Extensions
  import opened Isa
  import MulDiv
  import Rv64M
  import Rvc

  // ---------- 32-bit results ----------

  /** The signed number of the low 32 bits of v. */
  function SignedWord(v: int): int {
    MulDiv.Signed(v % TWO_32, TWO_32)
  }

  /** Sign extension of the low word, as a number. */
  lemma SextNumber(x: bv64)
    ensures SignedOf(SextWord(x)) == SignedWord(FromWord(x))
  {
    hide SextWord, FromWord, SignedOf, ValueOf;
    SextWordNumber(x);
    LowNumber(x);
    LowIsValue(x);
  }

  lemma LowIsValue(x: bv64)
    ensures LowValue(x) == ValueOf(x, 4)
  {
  }

  datatype AluW = ADDW | SUBW | SLLW | SRLW | SRAW

  function F3W(op: AluW): bv3 {
    match op
    case ADDW => 0 case SUBW => 0 case SLLW => 1 case SRLW => 5 case SRAW => 5
  }

  function F7W(op: AluW): bv7 {
    if op == SUBW || op == SRAW then 0x20 else 0
  }

  function Minus(x: bv64, y: bv64): bv64 {
    x - y
  }

  /** r holds what the operation makes of the low words of x and y; shift amounts are y modulo 32. */
  predicate WordMeans(op: AluW, x: bv64, y: bv64, r: bv64) {
    var n := FromWord(y) % 32;
    match op
    case ADDW => SignedOf(r) == SignedWord(FromWord(Plus(x, y)))
    case SUBW => SignedOf(r) == SignedWord(FromWord(Minus(x, y)))
    case SLLW => SignedOf(r) == SignedWord(FromWord(x) * Pow2(n))
    case SRLW => SignedOf(r) == SignedWord(FromWord(x) % TWO_32 / Pow2(n))
    case SRAW => SignedOf(r) == SignedWord(FromWord(x)) / Pow2(n)
  }

  function Amount32(y: bv64): bv6 {
    (y & 0x1f) as bv6
  }

  function LowFive(n: bv6): bv6 {
    n & 0x1f
  }

  lemma AmountLow(y: bv64)
    ensures Amount32(y) == (((y & 0x3f) as bv6) & 0x1f)
  {
  }

  lemma AmountLowIs(y: bv64)
    ensures Amount32(y) == LowFive(Amount(y))
  {
    hide Amount32;
    AmountLow(y);
  }

  lemma LowFiveNumber(n: bv6)
    ensures LowFive(n) as int == n as int % 32
  {
  }

  lemma Amount32Number(y: bv64)
    ensures Amount32(y) as int == FromWord(y) % 32
  {
    hide Amount32, LowFive, Amount, FromWord;
    AmountLowIs(y);
    LowFiveNumber(Amount(y));
    AmountNumber(y);
    Mod32(FromWord(y));
  }

  lemma Mod32(v: nat)
    ensures v % 64 % 32 == v % 32
  {
  }

  lemma CutIs(x: bv64)
    ensures Zext(x) == Cut(x, 0xffff_ffff)
  {
  }

  lemma ZextNumber(x: bv64)
    ensures FromWord(Zext(x)) == FromWord(x) % TWO_32
  {
    hide Zext, Cut, FromWord, ValueOf, Mask;
    CutIs(x);
    MaskValues();
    CutNumber(x, 4);
    LowNumber(x);
    LowIsValue(x);
  }

  lemma ModTwice(v: nat)
    ensures v % TWO_64 % TWO_32 == v % TWO_32
  {
  }

  lemma ShlWord(x: bv64, n: bv6)
    ensures SignedOf(SextWord(Shl(x, n))) == SignedWord(FromWord(x) * Pow2(n as int))
  {
    hide SextWord, Shl, FromWord, SignedOf, Pow2;
    SextNumber(Shl(x, n));
    ShlNumber(x, n);
    ModTwice(FromWord(x) * Pow2(n as int));
  }

  lemma ShrWord(x: bv64, n: bv6)
    ensures SignedOf(SextWord(Shr(Zext(x), n))) == SignedWord(FromWord(x) % TWO_32 / Pow2(n as int))
  {
    hide SextWord, Shr, FromWord, SignedOf, Pow2, Zext;
    SextNumber(Shr(Zext(x), n));
    ShrNumber(Zext(x), n);
    ZextNumber(x);
  }

  /** A word-sized signed number survives cutting and extending. */
  lemma SmallSurvives(x: bv64)
    requires -(TWO_32 / 2) <= SignedOf(x) < TWO_32 / 2
    ensures SignedOf(SextWord(x)) == SignedOf(x)
  {
    hide SextWord, FromWord;
    SextNumber(x);
  }

  lemma QuotientStays(v: int, p: int)
    requires p >= 1 && -(TWO_32 / 2) <= v < TWO_32 / 2
    ensures -(TWO_32 / 2) <= v / p < TWO_32 / 2
  {
    var q, r := v / p, v % p;
    assert v == p * q + r;
    if q > 0 {
      MulDiv.MulMono(1, p, q);
    } else {
      MulDiv.MulMono(1, p, -q);
      assert p * (-q) == -(p * q);
      if q < -(TWO_32 / 2) {
        NotBelow(v, p, q, r);
      }
    }
  }

  lemma NotBelow(v: int, p: int, q: int, r: int)
    requires p >= 1 && v == p * q + r && 0 <= r < p && q < -(TWO_32 / 2)
    ensures v < -(TWO_32 / 2)
  {
    assert v < p * (q + 1);
    MulDiv.MulMono(1, p, -(q + 1));
    assert p * (-(q + 1)) == -(p * (q + 1));
  }

  lemma SraWordNumber(x: bv64, n: bv6)
    ensures SignedOf(SextWord(SraWord(x, n))) == SignedWord(FromWord(x)) / Pow2(n as int)
  {
    hide SextWord, Sra, FromWord, SignedOf, Pow2;
    SextNumber(x);
    SraNumber(SextWord(x), n);
    SignedWordRange(FromWord(x));
    QuotientStays(SignedWord(FromWord(x)), Pow2(n as int));
    SmallSurvives(SraWord(x, n));
  }

  lemma SignedWordRange(v: int)
    ensures -(TWO_32 / 2) <= SignedWord(v) < TWO_32 / 2
  {
  }

  /** The result of OP-32 for an assigned operation. */
  function WordResult(op: AluW, x: bv64, y: bv64): bv64 {
    match op
    case ADDW => SextWord(Add(x, y))
    case SUBW => SextWord(Sub(x, y))
    case SLLW => SextWord(Shl(x, Amount32(y)))
    case SRLW => SextWord(Shr(Zext(x), Amount32(y)))
    case SRAW => SextWord(SraWord(x, Amount32(y)))
  }

  lemma MinusIs(x: bv64, y: bv64) ensures Sub(x, y) == Minus(x, y) {}

  lemma WordResultMeans(op: AluW, x: bv64, y: bv64)
    ensures WordMeans(op, x, y, WordResult(op, x, y))
  {
    hide SextWord, Add, Sub, Shl, Shr, SraWord, Zext, Amount32, FromWord, SignedOf, SignedWord, Plus, Minus, Pow2;
    Amount32Number(y);
    PlusIs(x, y);
    MinusIs(x, y);
    SextNumber(Add(x, y));
    SextNumber(Sub(x, y));
    ShlWord(x, Amount32(y));
    ShrWord(x, Amount32(y));
    SraWordNumber(x, Amount32(y));
  }

  // ---------- OP-32 ----------

  lemma Op32Is(op: AluW, x: bv64, y: bv64)
    ensures Op32(F3W(op), F7W(op), x, y) == Some(WordResult(op, x, y))
  {
    hide SextWord, Add, Sub, Shl, Shr, SraWord, Zext, MulDivResult32, ToWord, LowValue;
  }

  lemma ExecutesOp32(f7: bv7, rs2: bv5, rs1: bv5, f3: bv3, rd: bv5, h: Hart, b: Bus)
    ensures var w := EncodeR(f7 as bv32, rs2, rs1, f3, rd, 0x3b);
            Opcode(w) == 0x3b && Execute(Decode(w), h, b, After(h)) ==
            Compute(h, b, rd, Op32(f3, f7, h.Reg(rs1), h.Reg(rs2)), After(h))
  {
    hide EncodeR, Opcode, Rd, Rs1, Rs2, Funct3, Funct7, Shamt, Csr, RawI, RawS, RawB, RawU, RawJ, Sext12, Sext13,
      Sext21, Sext32, Add, Op, Op32, After;
    WideF7(f7);
    DecodeEncodeR(f7 as bv32, rs2, rs1, f3, rd, 0x3b);
  }

  /** OP-32: rd receives the sign-extended 32-bit result. */
  lemma Op32Means(op: AluW, rs2: bv5, rs1: bv5, rd: bv5, h: Hart, b: Bus)
    ensures var v := WordResult(op, h.Reg(rs1), h.Reg(rs2));
            && Writes(Perform(EncodeR(F7W(op) as bv32, rs2, rs1, F3W(op), rd, 0x3b), h, b), h, b, rd, v)
            && WordMeans(op, h.Reg(rs1), h.Reg(rs2), v)
  {
    hide Perform, Execute, Decode, EncodeR, Opcode, After, WordResult, WordMeans, Op32, Compute, F3W, F7W, Writes;
    ExecutesOp32(F7W(op), rs2, rs1, F3W(op), rd, h, b);
    Executes(EncodeR(F7W(op) as bv32, rs2, rs1, F3W(op), rd, 0x3b), 0x3b, h, b);
    Op32Is(op, h.Reg(rs1), h.Reg(rs2));
    ComputeWrites(h, b, rd, WordResult(op, h.Reg(rs1), h.Reg(rs2)));
    WordResultMeans(op, h.Reg(rs1), h.Reg(rs2));
  }

  // ---------- OP-IMM-32 ----------

  lemma ExecutesOpImm32(imm: bv32, rs1: bv5, f3: bv3, rd: bv5, h: Hart, b: Bus)
    ensures var w := EncodeI(imm, rs1, f3, rd, 0x1b);
            Opcode(w) == 0x1b && Execute(Decode(w), h, b, After(h)) ==
            Compute(h, b, rd, OpImm32(f3, Funct7(w), h.Reg(rs1), Sext12(imm & 0xfff), Shamt(w)), After(h))
  {
    hide EncodeI, Opcode, Rd, Rs1, Rs2, Funct3, Funct7, Shamt, Csr, RawI, RawS, RawB, RawU, RawJ, Sext12, Sext13,
      Sext21, Sext32, Add, OpImm32, After;
    DecodeEncodeI(imm, rs1, f3, rd, 0x1b);
  }

  /** ADDIW adds the sign-extended immediate and keeps the signed low word. */
  lemma AddiwMeans(imm: bv32, rs1: bv5, rd: bv5, h: Hart, b: Bus)
    requires Fits12(imm)
    ensures var v := SextWord(Add(h.Reg(rs1), Sext32(imm)));
            && Writes(Perform(EncodeI(imm, rs1, 0, rd, 0x1b), h, b), h, b, rd, v)
            && SignedOf(v) == SignedWord(FromWord(Plus(h.Reg(rs1), Sext32(imm))))
  {
    hide Perform, Execute, Decode, EncodeI, Opcode, After, Compute, Sext12, Sext32, Funct7, Shamt, Writes, SextWord,
      Add, Plus, FromWord, SignedOf, SignedWord, Fits12;
    var w := EncodeI(imm, rs1, 0, rd, 0x1b);
    Survives12(imm);
    ExecutesOpImm32(imm, rs1, 0, rd, h, b);
    Executes(w, 0x1b, h, b);
    PlusIs(h.Reg(rs1), Sext32(imm));
    SextNumber(Add(h.Reg(rs1), Sext32(imm)));
    ComputeWrites(h, b, rd, SextWord(Add(h.Reg(rs1), Sext32(imm))));
  }

  lemma ShiftFields32(imm: bv32, rs1: bv5, f3: bv3, rd: bv5)
    ensures Shamt(EncodeI(imm, rs1, f3, rd, 0x1b)) & 0x1f == (imm & 0x1f) as bv6
    ensures Funct7(EncodeI(imm, rs1, f3, rd, 0x1b)) & 0x20 == ((imm >> 5) & 0x20) as bv7
  {
  }

  lemma AmountFields32(n: bv5)
    ensures ((n as bv32) & 0x1f) as bv6 == n as bv6 && (((n as bv32) | 0x400) & 0x1f) as bv6 == n as bv6
    ensures (((n as bv32) >> 5) & 0x20) as bv7 == 0
    ensures ((((n as bv32) | 0x400) >> 5) & 0x20) as bv7 != 0
  {
  }

  lemma ShiftWord32(imm: bv32, n: bv6, f3: bv3, rs1: bv5, rd: bv5, h: Hart, b: Bus)
    requires (imm & 0x1f) as bv6 == n && (f3 == 1 || f3 == 5)
    ensures var x := h.Reg(rs1);
            Perform(EncodeI(imm, rs1, f3, rd, 0x1b), h, b) ==
            Commit(Compute(h, b, rd, Some(SextWord(if f3 == 1 then Shl(x, n)
                                                   else if ((imm >> 5) & 0x20) as bv7 != 0 then SraWord(x, n)
                                                   else Shr(Zext(x), n))), After(h)))
  {
    hide Perform, Execute, Decode, EncodeI, Opcode, After, Compute, Sext12, Funct7, Shamt, Shl, Shr, SraWord, SextWord,
      Zext;
    ExecutesOpImm32(imm, rs1, f3, rd, h, b);
    Executes(EncodeI(imm, rs1, f3, rd, 0x1b), 0x1b, h, b);
    ShiftFields32(imm, rs1, f3, rd);
  }

  lemma SameAmount(n: bv5)
    ensures (n as bv6) as int == n as int
  {
  }

  /** SLLIW, SRLIW and SRAIW: 32-bit shifts by a literal amount. */
  lemma ShiftImm32Means(n: bv5, rs1: bv5, rd: bv5, h: Hart, b: Bus)
    ensures var x := h.Reg(rs1);
            var left := SextWord(Shl(x, n as bv6));
            var right := SextWord(Shr(Zext(x), n as bv6));
            var signed := SextWord(SraWord(x, n as bv6));
            && Writes(Perform(EncodeI(n as bv32, rs1, 1, rd, 0x1b), h, b), h, b, rd, left)
            && Writes(Perform(EncodeI(n as bv32, rs1, 5, rd, 0x1b), h, b), h, b, rd, right)
            && Writes(Perform(EncodeI((n as bv32) | 0x400, rs1, 5, rd, 0x1b), h, b), h, b, rd, signed)
            && SignedOf(left) == SignedWord(FromWord(x) * Pow2(n as int))
            && SignedOf(right) == SignedWord(FromWord(x) % TWO_32 / Pow2(n as int))
            && SignedOf(signed) == SignedWord(FromWord(x)) / Pow2(n as int)
  {
    hide Perform, EncodeI, After, Compute, Writes, Shl, Shr, SraWord, SextWord, Zext, SignedOf, SignedWord, FromWord,
      Pow2;
    var x, m := h.Reg(rs1), n as bv6;
    SameAmount(n);
    AmountFields32(n);
    ShlWord(x, m);
    ShrWord(x, m);
    SraWordNumber(x, m);
    ShiftWord32(n as bv32, m, 1, rs1, rd, h, b);
    ShiftWord32(n as bv32, m, 5, rs1, rd, h, b);
    ShiftWord32((n as bv32) | 0x400, m, 5, rs1, rd, h, b);
    ComputeWrites(h, b, rd, SextWord(Shl(x, m)));
    ComputeWrites(h, b, rd, SextWord(Shr(Zext(x), m)));
    ComputeWrites(h, b, rd, SextWord(SraWord(x, m)));
  }

  // ---------- the M extension ----------

  /** funct7 = 1 selects multiplication and division, in both widths. */
  lemma MulDivMeans(f3: bv3, rs2: bv5, rs1: bv5, rd: bv5, h: Hart, b: Bus)
    ensures Writes(Perform(EncodeR(1, rs2, rs1, f3, rd, 0x33), h, b), h, b, rd, Rv64M.M(f3, h.Reg(rs1), h.Reg(rs2)))
    ensures f3 == 0 || f3 >= 4 ==>
              Writes(Perform(EncodeR(1, rs2, rs1, f3, rd, 0x3b), h, b), h, b, rd, Rv64M.MW(f3, h.Reg(rs1), h.Reg(rs2)))
  {
    hide Perform, Execute, Decode, EncodeR, Opcode, After, Op, Op32, Compute, Writes, Rv64M.M, Rv64M.MW;
    var x, y := h.Reg(rs1), h.Reg(rs2);
    Rv64M.ExecutesM(f3, x, y);
    ExecutesOp(1, rs2, rs1, f3, rd, h, b);
    Executes(EncodeR(1, rs2, rs1, f3, rd, 0x33), 0x33, h, b);
    ComputeWrites(h, b, rd, Rv64M.M(f3, x, y));
    if f3 == 0 || f3 >= 4 {
      ExecutesOp32(1, rs2, rs1, f3, rd, h, b);
      Executes(EncodeR(1, rs2, rs1, f3, rd, 0x3b), 0x3b, h, b);
      ComputeWrites(h, b, rd, Rv64M.MW(f3, x, y));
    }
  }
}
