/** What assembled base instructions do (chapters 2 and 5 of the RISC-V Unprivileged Specification
    20191213): registers as numbers, literal operators, literal conditions. Everything is about
    Machine.Perform, the step after fetch, on words built by the encoders. */
module Isa {
  import opened Base
  import opened Words
  import opened HartState
  import opened Encoding
  import opened Rv64
  import opened Machine
  import opened Numbers
  import Compare
  import MulDiv
  import Rvc

  // ---------- from words to execution ----------

  function Plus(x: bv64, y: bv64): bv64 {
    x + y
  }

  /** Address of the following instruction. */
  function After(h: Hart): bv64 {
    Plus(h.pc, 4)
  }

  /** pc-relative target. */
  function Target(h: Hart, offset: bv64): bv64 {
    Plus(h.pc, offset)
  }

  lemma FullBits(w: bv32)
    ensures w & 3 == 3 <==> Opcode(w) & 3 == 3
  {
  }

  lemma AddIs(x: bv64, y: bv64) ensures Add(x, y) == x + y {}

  lemma PlusIs(x: bv64, y: bv64)
    ensures Add(x, y) == Plus(x, y)
  {
    hide Add;
    AddIs(x, y);
  }

  lemma Executes(w: bv32, opcode: bv7, h: Hart, b: Bus)
    requires Opcode(w) == opcode && opcode & 3 == 3
    ensures Perform(w, h, b) == Commit(Execute(Decode(w), h, b, After(h)))
  {
    hide Opcode, Decode, Execute, Rvc.CExecute, Machine.Half, Add, Plus;
    FullBits(w);
    PlusIs(h.pc, 4);
  }

  // ---------- branches ----------

  /** When a branch is taken, by funct3: BEQ, BNE, BLT, BGE, BLTU, BGEU. */
  predicate Branches(f3: bv3, x: bv64, y: bv64) {
    match f3
    case 0 => FromWord(x) == FromWord(y)
    case 1 => FromWord(x) != FromWord(y)
    case 4 => SignedOf(x) < SignedOf(y)
    case 5 => SignedOf(x) >= SignedOf(y)
    case 6 => FromWord(x) < FromWord(y)
    case _ => FromWord(x) >= FromWord(y)
  }

  lemma SameNumber(x: bv64, y: bv64)
    ensures FromWord(x) == FromWord(y) <==> x == y
  {
    hide FromWord, ToWord;
    WordsRoundTrip(x, 0);
    WordsRoundTrip(y, 0);
  }

  lemma TakenIs(f3: bv3, x: bv64, y: bv64)
    requires f3 != 2 && f3 != 3
    ensures Taken(f3, x, y) == Some(Branches(f3, x, y))
  {
    hide FromWord, Less;
    SameNumber(x, y);
    Compare.ComparesNumbers(x, y);
  }

  lemma ExecutesBranch(imm: bv32, rs1: bv5, rs2: bv5, f3: bv3, h: Hart, b: Bus, next: bv64)
    requires Fits13(imm)
    ensures var w := EncodeB(imm, rs1, rs2, f3, 0x63);
            && Opcode(w) == 0x63
            && Execute(Decode(w), h, b, next) ==
               match Taken(f3, h.Reg(rs1), h.Reg(rs2))
               case None => Illegal(h, b)
               case Some(taken) => Outcome(Ok(if taken then Target(h, Sext32(imm)) else next), h, b)
  {
    hide EncodeB, Opcode, Rd, Rs1, Rs2, Funct3, Funct7, Shamt, Csr, RawI, RawS, RawB, RawU, RawJ, Sext12, Sext13,
      Sext21, Sext32, Add, Taken, Plus, Fits13;
    RoundTripB(imm, rs1, rs2, f3, 0x63);
    PlusIs(h.pc, Sext32(imm));
  }

  /** A branch goes to pc plus its offset exactly when the numbers stand in its relation, and to the next
      instruction otherwise; the two unassigned funct3 values are rejected without effect. */
  lemma BranchMeans(imm: bv32, rs1: bv5, rs2: bv5, f3: bv3, h: Hart, b: Bus)
    requires Fits13(imm)
    ensures var o := Perform(EncodeB(imm, rs1, rs2, f3, 0x63), h, b);
            if f3 == 2 || f3 == 3 then o == Outcome(Err(IllegalInstruction), h, b)
            else
              var t := if Branches(f3, h.Reg(rs1), h.Reg(rs2)) then Target(h, Sext32(imm)) else After(h);
              o == Outcome(Ok(t), h.(pc := t), b)
  {
    hide Perform, Execute, Decode, EncodeB, Opcode, Branches, Target, After, Sext32, Fits13;
    var w := EncodeB(imm, rs1, rs2, f3, 0x63);
    ExecutesBranch(imm, rs1, rs2, f3, h, b, After(h));
    Executes(w, 0x63, h, b);
    if f3 != 2 && f3 != 3 {
      TakenIs(f3, h.Reg(rs1), h.Reg(rs2));
    }
  }

  // ---------- register and immediate arithmetic ----------

  datatype Alu = ADD | SUB | SLL | SLT | SLTU | XOR | SRL | SRA | OR | AND

  function F3(op: Alu): bv3 {
    match op
    case ADD => 0 case SUB => 0 case SLL => 1 case SLT => 2 case SLTU => 3
    case XOR => 4 case SRL => 5 case SRA => 5 case OR => 6 case AND => 7
  }

  function F7(op: Alu): bv7 {
    if op == SUB || op == SRA then 0x20 else 0
  }

  // The operations on words; shifts and comparisons on the numbers the words hold.

  predicate IsSum(x: bv64, y: bv64, r: bv64) { r == x + y }
  predicate IsDifference(x: bv64, y: bv64, r: bv64) { r == x - y }
  predicate IsXor(x: bv64, y: bv64, r: bv64) { r == x ^ y }
  predicate IsOr(x: bv64, y: bv64, r: bv64) { r == x | y }
  predicate IsAnd(x: bv64, y: bv64, r: bv64) { r == x & y }
  predicate IsFlag(c: bool, r: bv64) { FromWord(r) == if c then 1 else 0 }
  predicate IsShiftedLeft(x: bv64, n: nat, r: bv64) { FromWord(r) == FromWord(x) * Pow2(n) % TWO_64 }
  predicate IsShiftedRight(x: bv64, n: nat, r: bv64) { FromWord(r) == FromWord(x) / Pow2(n) }
  predicate IsShiftedSigned(x: bv64, n: nat, r: bv64) { SignedOf(r) == SignedOf(x) / Pow2(n) }

  /** r is what the operation makes of x and y; shift amounts are y modulo 64. */
  predicate AluMeans(op: Alu, x: bv64, y: bv64, r: bv64) {
    var n := FromWord(y) % 64;
    match op
    case ADD => IsSum(x, y, r)
    case SUB => IsDifference(x, y, r)
    case SLL => IsShiftedLeft(x, n, r)
    case SLT => IsFlag(SignedOf(x) < SignedOf(y), r)
    case SLTU => IsFlag(FromWord(x) < FromWord(y), r)
    case XOR => IsXor(x, y, r)
    case SRL => IsShiftedRight(x, n, r)
    case SRA => IsShiftedSigned(x, n, r)
    case OR => IsOr(x, y, r)
    case AND => IsAnd(x, y, r)
  }

  function Amount(y: bv64): bv6 {
    (y & 0x3f) as bv6
  }

  function LowSix(a: bv8): bv6 {
    (a & 0x3f) as bv6
  }

  lemma AmountOfByte(a: bv8)
    ensures LowSix(a) as int == a as int % 64
  {
  }

  lemma AmountBits(y: bv64)
    ensures Amount(y) == ((y & 0xff) as bv8 & 0x3f) as bv6
  {
  }

  lemma AmountIs(y: bv64)
    ensures Amount(y) == LowSix(Low8(y))
  {
    hide Amount;
    AmountBits(y);
  }

  lemma AmountNumber(y: bv64)
    ensures Amount(y) as int == FromWord(y) % 64
  {
    hide Amount, LowSix, Low8, ByteOf, ValueOf;
    FromIsValue(y);
    AmountIs(y);
    AmountOfByte(Low8(y));
    ByteOfIs(y);
    ValueSplits(y, 8);
    Mod64(FromWord(y));
  }

  lemma FromIsValue(x: bv64)
    ensures FromWord(x) == ValueOf(x, 8)
  {
  }

  lemma Mod64(v: nat)
    ensures v % 256 % 64 == v % 64
  {
  }

  lemma FlagNumber(c: bool)
    ensures IsFlag(c, Flag(c))
  {
    ZeroNumber();
    OneNumber();
  }

  lemma OneNumber()
    ensures FromWord(1) == 1
  {
    ZeroNumber();
    HalfWord(1);
    OneBits();
    hide FromWord, Numbers.Half, Parity;
  }

  lemma OneBits()
    ensures Numbers.Half(1) == 0 && Parity(1) == 1
  {
  }

  /** The result of OP for an assigned operation. */
  function OpResult(op: Alu, x: bv64, y: bv64): bv64 {
    match op
    case ADD => Add(x, y)
    case SUB => Sub(x, y)
    case SLL => Shl(x, Amount(y))
    case SLT => Flag(Less(x, y))
    case SLTU => Flag(x < y)
    case XOR => Xor(x, y)
    case SRL => Shr(x, Amount(y))
    case SRA => Sra(x, Amount(y))
    case OR => Or(x, y)
    case AND => And(x, y)
  }

  lemma OpIs(op: Alu, x: bv64, y: bv64)
    ensures Op(F3(op), F7(op), x, y) == Some(OpResult(op, x, y))
  {
    hide MulDivResult, Add, Sub, Xor, Or, And, Shl, Shr, Sra, Less, Flag;
  }

  lemma SumIs(x: bv64, y: bv64) ensures IsSum(x, y, Add(x, y)) {}
  lemma DifferenceIs(x: bv64, y: bv64) ensures IsDifference(x, y, Sub(x, y)) {}
  lemma XorMeans(x: bv64, y: bv64) ensures IsXor(x, y, Xor(x, y)) {}
  lemma OrMeans(x: bv64, y: bv64) ensures IsOr(x, y, Or(x, y)) {}
  lemma AndMeans(x: bv64, y: bv64) ensures IsAnd(x, y, And(x, y)) {}

  lemma ShiftsMean(x: bv64, n: bv6)
    ensures IsShiftedLeft(x, n as int, Shl(x, n))
    ensures IsShiftedRight(x, n as int, Shr(x, n))
    ensures IsShiftedSigned(x, n as int, Sra(x, n))
  {
    hide Shl, Shr, Sra, FromWord, SignedOf, Pow2;
    ShlNumber(x, n);
    ShrNumber(x, n);
    SraNumber(x, n);
  }

  lemma ComparisonsMean(x: bv64, y: bv64)
    ensures IsFlag(SignedOf(x) < SignedOf(y), Flag(Less(x, y)))
    ensures IsFlag(FromWord(x) < FromWord(y), Flag(x < y))
  {
    hide FromWord, Less, Flag, IsFlag;
    Compare.ComparesNumbers(x, y);
    FlagNumber(Less(x, y));
    FlagNumber(x < y);
  }

  lemma ResultMeans(op: Alu, x: bv64, y: bv64)
    ensures AluMeans(op, x, y, OpResult(op, x, y))
  {
    hide Add, Sub, Xor, Or, And, Shl, Shr, Sra, Less, Flag, Amount, FromWord, SignedOf, IsSum, IsDifference, IsXor,
      IsOr, IsAnd, IsFlag, IsShiftedLeft, IsShiftedRight, IsShiftedSigned;
    AmountNumber(y);
    SumIs(x, y);
    DifferenceIs(x, y);
    XorMeans(x, y);
    OrMeans(x, y);
    AndMeans(x, y);
    ShiftsMean(x, Amount(y));
    ComparisonsMean(x, y);
  }

  /** The instruction writes v to rd and goes on to the next one. */
  predicate Writes(o: Outcome, h: Hart, b: Bus, rd: bv5, v: bv64) {
    o == Outcome(Ok(After(h)), h.SetReg(rd, v).(pc := After(h)), b)
  }

  lemma ComputeWrites(h: Hart, b: Bus, rd: bv5, v: bv64)
    ensures Writes(Commit(Compute(h, b, rd, Some(v), After(h))), h, b, rd, v)
  {
    hide Plus;
  }

  /** OP: rd receives what the operation makes of rs1 and rs2. */
  lemma OpMeans(op: Alu, rs2: bv5, rs1: bv5, rd: bv5, h: Hart, b: Bus)
    ensures var v := OpResult(op, h.Reg(rs1), h.Reg(rs2));
            && Writes(Perform(EncodeR(F7(op) as bv32, rs2, rs1, F3(op), rd, 0x33), h, b), h, b, rd, v)
            && AluMeans(op, h.Reg(rs1), h.Reg(rs2), v)
  {
    hide Perform, Execute, Decode, EncodeR, Opcode, After, OpResult, AluMeans, Op, Compute, F3, F7, Writes;
    var w := EncodeR(F7(op) as bv32, rs2, rs1, F3(op), rd, 0x33);
    ExecutesOp(F7(op), rs2, rs1, F3(op), rd, h, b);
    Executes(w, 0x33, h, b);
    OpIs(op, h.Reg(rs1), h.Reg(rs2));
    ComputeWrites(h, b, rd, OpResult(op, h.Reg(rs1), h.Reg(rs2)));
    ResultMeans(op, h.Reg(rs1), h.Reg(rs2));
  }

  lemma WideF7(f: bv7)
    ensures ((f as bv32) & 0x7f) as bv7 == f
  {
  }

  lemma ExecutesOp(f7: bv7, rs2: bv5, rs1: bv5, f3: bv3, rd: bv5, h: Hart, b: Bus)
    ensures var w := EncodeR(f7 as bv32, rs2, rs1, f3, rd, 0x33);
            Opcode(w) == 0x33 && Execute(Decode(w), h, b, After(h)) ==
            Compute(h, b, rd, Op(f3, f7, h.Reg(rs1), h.Reg(rs2)), After(h))
  {
    hide EncodeR, Opcode, Rd, Rs1, Rs2, Funct3, Funct7, Shamt, Csr, RawI, RawS, RawB, RawU, RawJ, Sext12, Sext13,
      Sext21, Sext32, Add, Op, Op32, After;
    WideF7(f7);
    DecodeEncodeR(f7 as bv32, rs2, rs1, f3, rd, 0x33);
  }

  /** The operations with an immediate form that is not a shift. */
  predicate HasImmediate(op: Alu) {
    op == ADD || op == SLT || op == SLTU || op == XOR || op == OR || op == AND
  }

  lemma OpImmIs(op: Alu, f7: bv7, x: bv64, imm: bv64, n: bv6)
    requires HasImmediate(op)
    ensures OpImm(F3(op), f7, x, imm, n) == OpResult(op, x, imm)
  {
    hide Add, Xor, Or, And, Shl, Shr, Sra, Less, Flag;
  }

  lemma ExecutesOpImm(imm: bv32, rs1: bv5, f3: bv3, rd: bv5, h: Hart, b: Bus)
    ensures var w := EncodeI(imm, rs1, f3, rd, 0x13);
            Opcode(w) == 0x13 && Execute(Decode(w), h, b, After(h)) ==
            Compute(h, b, rd, Some(OpImm(f3, Funct7(w), h.Reg(rs1), Sext12(imm & 0xfff), Shamt(w))), After(h))
  {
    hide EncodeI, Opcode, Funct7, Shamt, Sext12, After, OpImm, Execute, Decode;
    DecodeEncodeI(imm, rs1, f3, rd, 0x13);
    Rvc.RunOpImm(imm, rs1, f3, rd, h, b, After(h));
  }

  /** OP-IMM: the same with the sign-extended immediate. */
  lemma OpImmMeans(op: Alu, imm: bv32, rs1: bv5, rd: bv5, h: Hart, b: Bus)
    requires HasImmediate(op) && Fits12(imm)
    ensures var v := OpResult(op, h.Reg(rs1), Sext32(imm));
            && Writes(Perform(EncodeI(imm, rs1, F3(op), rd, 0x13), h, b), h, b, rd, v)
            && AluMeans(op, h.Reg(rs1), Sext32(imm), v)
  {
    hide Perform, Execute, Decode, EncodeI, Opcode, After, OpResult, AluMeans, OpImm, Compute, F3, Sext12, Sext32,
      Funct7, Shamt, Fits12, HasImmediate, Writes;
    var w := EncodeI(imm, rs1, F3(op), rd, 0x13);
    Survives12(imm);
    ExecutesOpImm(imm, rs1, F3(op), rd, h, b);
    Executes(w, 0x13, h, b);
    OpImmIs(op, Funct7(w), h.Reg(rs1), Sext32(imm), Shamt(w));
    ComputeWrites(h, b, rd, OpResult(op, h.Reg(rs1), Sext32(imm)));
    ResultMeans(op, h.Reg(rs1), Sext32(imm));
  }

  /** SLLI, SRLI and SRAI: shifts by a literal amount. */
  lemma ShiftImmMeans(n: bv6, rs1: bv5, rd: bv5, h: Hart, b: Bus)
    ensures var x := h.Reg(rs1);
            && Writes(Perform(EncodeI(n as bv32, rs1, 1, rd, 0x13), h, b), h, b, rd, Shl(x, n))
            && Writes(Perform(EncodeI(n as bv32, rs1, 5, rd, 0x13), h, b), h, b, rd, Shr(x, n))
            && Writes(Perform(EncodeI((n as bv32) | 0x400, rs1, 5, rd, 0x13), h, b), h, b, rd, Sra(x, n))
            && IsShiftedLeft(x, n as int, Shl(x, n)) && IsShiftedRight(x, n as int, Shr(x, n))
            && IsShiftedSigned(x, n as int, Sra(x, n))
  {
    hide Perform, Execute, Decode, EncodeI, Opcode, After, Compute, Sext12, Funct7, Shamt, Writes, Shl, Shr, Sra,
      IsShiftedLeft, IsShiftedRight, IsShiftedSigned, OpImm;
    var x := h.Reg(rs1);
    ShiftsMean(x, n);
    ShiftWord(n as bv32, n, 1, rs1, rd, h, b);
    ShiftWord(n as bv32, n, 5, rs1, rd, h, b);
    ShiftWord((n as bv32) | 0x400, n, 5, rs1, rd, h, b);
    AmountFields(n);
    ComputeWrites(h, b, rd, Shl(x, n));
    ComputeWrites(h, b, rd, Shr(x, n));
    ComputeWrites(h, b, rd, Sra(x, n));
  }

  lemma AmountFields(n: bv6)
    ensures ((n as bv32) & 0x3f) as bv6 == n && (((n as bv32) | 0x400) & 0x3f) as bv6 == n
    ensures (((n as bv32) >> 5) & 0x20) as bv7 == 0
    ensures ((((n as bv32) | 0x400) >> 5) & 0x20) as bv7 != 0
  {
  }

  lemma ShiftWord(imm: bv32, n: bv6, f3: bv3, rs1: bv5, rd: bv5, h: Hart, b: Bus)
    requires (imm & 0x3f) as bv6 == n && (f3 == 1 || f3 == 5)
    ensures var x := h.Reg(rs1);
            Perform(EncodeI(imm, rs1, f3, rd, 0x13), h, b) ==
            Commit(Compute(h, b, rd, Some(if f3 == 1 then Shl(x, n)
                                          else if ((imm >> 5) & 0x20) as bv7 != 0 then Sra(x, n) else Shr(x, n)),
                           After(h)))
  {
    hide Perform, Execute, Decode, EncodeI, Opcode, After, Compute, Sext12, Funct7, Shamt, Shl, Shr, Sra;
    var w := EncodeI(imm, rs1, f3, rd, 0x13);
    ExecutesOpImm(imm, rs1, f3, rd, h, b);
    Executes(w, 0x13, h, b);
    Rvc.ShiftFields(imm, rs1, f3, rd);
  }

  // ---------- upper immediates and jumps ----------

  lemma ExecutesUpper(imm: bv32, rd: bv5, h: Hart, b: Bus)
    requires FitsUpper(imm)
    ensures var w := EncodeU(imm, rd, 0x37);
            Opcode(w) == 0x37 && Execute(Decode(w), h, b, After(h)) ==
            Compute(h, b, rd, Some(Sext32(imm)), After(h))
    ensures var w := EncodeU(imm, rd, 0x17);
            Opcode(w) == 0x17 && Execute(Decode(w), h, b, After(h)) ==
            Compute(h, b, rd, Some(Target(h, Sext32(imm))), After(h))
  {
    hide EncodeU, Opcode, Rd, Rs1, Rs2, Funct3, Funct7, Shamt, Csr, RawI, RawS, RawB, RawU, RawJ, Sext12, Sext13,
      Sext21, Sext32, Add, Plus, FitsUpper;
    RoundTripU(imm, rd, 0x37);
    RoundTripU(imm, rd, 0x17);
    PlusIs(h.pc, Sext32(imm));
  }

  /** LUI loads the sign-extended upper immediate, AUIPC adds it to the pc. */
  lemma UpperMeans(imm: bv32, rd: bv5, h: Hart, b: Bus)
    requires FitsUpper(imm)
    ensures Writes(Perform(EncodeU(imm, rd, 0x37), h, b), h, b, rd, Sext32(imm))
    ensures Writes(Perform(EncodeU(imm, rd, 0x17), h, b), h, b, rd, Target(h, Sext32(imm)))
  {
    hide Perform, Execute, Decode, EncodeU, Opcode, After, Compute, Sext32, Target, Writes, FitsUpper;
    ExecutesUpper(imm, rd, h, b);
    Executes(EncodeU(imm, rd, 0x37), 0x37, h, b);
    Executes(EncodeU(imm, rd, 0x17), 0x17, h, b);
    ComputeWrites(h, b, rd, Sext32(imm));
    ComputeWrites(h, b, rd, Target(h, Sext32(imm)));
  }

  /** The instruction links the following address into rd and continues at t. */
  predicate Jumps(o: Outcome, h: Hart, b: Bus, rd: bv5, t: bv64) {
    o == Outcome(Ok(t), h.SetReg(rd, After(h)).(pc := t), b)
  }

  /** JAL: pc plus offset. */
  lemma JalMeans(imm: bv32, rd: bv5, h: Hart, b: Bus)
    requires Fits21(imm)
    ensures Jumps(Perform(EncodeJ(imm, rd, 0x6f), h, b), h, b, rd, Target(h, Sext32(imm)))
  {
    hide Perform, Execute, Decode, EncodeJ, Opcode, Sext32, Plus, Fits21;
    ExecutesJal(imm, rd, h, b);
    Executes(EncodeJ(imm, rd, 0x6f), 0x6f, h, b);
  }

  lemma ExecutesJal(imm: bv32, rd: bv5, h: Hart, b: Bus)
    requires Fits21(imm)
    ensures var w := EncodeJ(imm, rd, 0x6f);
            Opcode(w) == 0x6f && Execute(Decode(w), h, b, After(h)) ==
            Outcome(Ok(Target(h, Sext32(imm))), h.SetReg(rd, After(h)), b)
  {
    hide EncodeJ, Opcode, Rd, Rs1, Rs2, Funct3, Funct7, Shamt, Csr, RawI, RawS, RawB, RawU, RawJ, Sext12, Sext13,
      Sext21, Sext32, Add, Plus, Fits21;
    RoundTripJ(imm, rd, 0x6f);
    PlusIs(h.pc, Sext32(imm));
  }

  /** x rounded down to an even number. */
  function EvenDown(x: bv64): bv64 {
    x / 2 * 2
  }

  lemma EvenBitsAre(x: bv64)
    ensures Even(x) == x / 2 * 2
  {
  }

  lemma EvenIs(x: bv64)
    ensures Even(x) == EvenDown(x)
  {
    hide Even;
    EvenBitsAre(x);
  }

  /** JALR: rs1 plus offset, made even; rs1 is read before rd is written. */
  lemma JalrMeans(imm: bv32, rs1: bv5, rd: bv5, h: Hart, b: Bus)
    requires Fits12(imm)
    ensures Jumps(Perform(EncodeI(imm, rs1, 0, rd, 0x67), h, b), h, b, rd, EvenDown(Plus(h.Reg(rs1), Sext32(imm))))
  {
    hide Perform, Execute, Decode, EncodeI, Opcode, Sext32, Plus, Fits12, EvenDown;
    ExecutesJalr(imm, rs1, rd, h, b);
    Executes(EncodeI(imm, rs1, 0, rd, 0x67), 0x67, h, b);
  }

  lemma ExecutesJalr(imm: bv32, rs1: bv5, rd: bv5, h: Hart, b: Bus)
    requires Fits12(imm)
    ensures var w := EncodeI(imm, rs1, 0, rd, 0x67);
            Opcode(w) == 0x67 && Execute(Decode(w), h, b, After(h)) ==
            Outcome(Ok(EvenDown(Plus(h.Reg(rs1), Sext32(imm)))), h.SetReg(rd, After(h)), b)
  {
    hide EncodeI, Opcode, Rd, Rs1, Rs2, Funct3, Funct7, Shamt, Csr, RawI, RawS, RawB, RawU, RawJ, Sext12, Sext13,
      Sext21, Sext32, Add, Plus, Fits12, Even, EvenDown;
    RoundTripI(imm, rs1, 0, rd, 0x67);
    PlusIs(h.Reg(rs1), Sext32(imm));
    EvenIs(Plus(h.Reg(rs1), Sext32(imm)));
  }
}
