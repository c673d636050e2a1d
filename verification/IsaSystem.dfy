/** What assembled SYSTEM instructions do (chapter 9 of the RISC-V Unprivileged Specification 20191213,
    sections 3.3 and 4.2 of the Privileged Specification 20211203): CSRs by number, status fields by bit
    position, words by value. */
module IsaSystem {
  import opened Base
  import opened HartState
  import opened Encoding
  import opened Rv64
  import opened Machine
  import opened Isa
  import opened TrapLaws
  import Trap
  import Mmu

  // ---------- CSR instructions ----------

  lemma CsrField(csr: bv12, rs1: bv5, f3: bv3, rd: bv5)
    ensures Csr(EncodeI(csr as bv32, rs1, f3, rd, 0x73)) == csr
  {
  }

  /** The operand: rs1's register, or for funct3 5, 6 and 7 the field itself, zero-extended. */
  function Operand(h: Hart, f3: bv3, rs1: bv5): bv64 {
    match f3
    case 5 => rs1 as bv64
    case 6 => rs1 as bv64
    case 7 => rs1 as bv64
    case _ => h.Reg(rs1)
  }

  function BitsSet(w: bv64, s: bv64): bv64 {
    w | s
  }

  function BitsCleared(w: bv64, s: bv64): bv64 {
    w & !s
  }

  /** CSRRW replaces, CSRRS sets, CSRRC clears; the immediate forms likewise. */
  function Combined(f3: bv3, was: bv64, operand: bv64): bv64 {
    match f3
    case 1 => operand
    case 2 => BitsSet(was, operand)
    case 3 => BitsCleared(was, operand)
    case 5 => operand
    case 6 => BitsSet(was, operand)
    case _ => BitsCleared(was, operand)
  }

  lemma SetIs(w: bv64, s: bv64) ensures Or(w, s) == BitsSet(w, s) {}
  lemma ClearIs(w: bv64, s: bv64) ensures Trap.Outside(w, s) == BitsCleared(w, s) {}

  lemma UpdateIs(f3: bv3, csr: bv64, operand: bv64)
    requires f3 != 0 && f3 != 4
    ensures CsrUpdate(f3, csr, operand) == Combined(f3, csr, operand)
  {
    hide Or, Trap.Outside, BitsSet, BitsCleared;
    SetIs(csr, operand);
    ClearIs(csr, operand);
  }

  lemma OperandKind(f3: bv3)
    requires f3 != 0 && f3 != 4
    ensures f3 & 4 != 0 <==> f3 == 5 || f3 == 6 || f3 == 7
  {
  }

  /** rd receives the old CSR value and the CSR the combined one. */
  function Swapped(h: Hart, csr: CsrAddr, rd: bv5, f3: bv3, operand: bv64): Hart {
    var was := Trap.CsrRead(h, csr);
    Trap.CsrWrite(h.SetReg(rd, was), csr, Combined(f3, was, operand))
  }

  lemma ExecutesCsr(csr: bv12, rs1: bv5, f3: bv3, rd: bv5, h: Hart, b: Bus)
    requires f3 != 0 && f3 != 4
    ensures var w := EncodeI(csr as bv32, rs1, f3, rd, 0x73);
            Opcode(w) == 0x73 && Execute(Decode(w), h, b, After(h)) ==
            Outcome(Ok(After(h)), Swapped(h, csr as int, rd, f3, Operand(h, f3, rs1)), b)
  {
    hide EncodeI, Opcode, Rd, Rs1, Rs2, Funct3, Funct7, Shamt, Csr, RawI, RawS, RawB, RawU, RawJ, Sext12, Sext13,
      Sext21, Sext32, After, CsrUpdate, Combined, Trap.CsrRead, Trap.CsrWrite;
    DecodeEncodeI(csr as bv32, rs1, f3, rd, 0x73);
    CsrField(csr, rs1, f3, rd);
    OperandKind(f3);
    UpdateIs(f3, Trap.CsrRead(h, csr as int), Operand(h, f3, rs1));
  }

  /** A CSR instruction moves the CSR to rd and the combined value to the CSR, then goes on. */
  lemma CsrMeans(csr: bv12, rs1: bv5, f3: bv3, rd: bv5, h: Hart, b: Bus)
    requires f3 != 0 && f3 != 4
    ensures Perform(EncodeI(csr as bv32, rs1, f3, rd, 0x73), h, b) ==
            Outcome(Ok(After(h)), Swapped(h, csr as int, rd, f3, Operand(h, f3, rs1)).(pc := After(h)), b)
  {
    hide Perform, Execute, Decode, EncodeI, Opcode, After, Swapped, Operand;
    ExecutesCsr(csr, rs1, f3, rd, h, b);
    Executes(EncodeI(csr as bv32, rs1, f3, rd, 0x73), 0x73, h, b);
  }

  // ---------- funct3 0 ----------

  /** The word with the given funct7 and rs2 fields. */
  function SystemWord(f7: bv7, rs2: bv5, rs1: bv5, rd: bv5): bv32 {
    EncodeR(f7 as bv32, rs2, rs1, 0, rd, 0x73)
  }

  lemma SystemFields(f7: bv7, rs2: bv5, rs1: bv5, rd: bv5)
    ensures var w := SystemWord(f7, rs2, rs1, rd);
            Opcode(w) == 0x73 && Funct3(w) == 0 && Funct7(w) == f7 && Rs2(w) == rs2
  {
    hide EncodeR, Opcode, Rd, Rs1, Rs2, Funct3, Funct7;
    WideF7(f7);
    DecodeEncodeR(f7 as bv32, rs2, rs1, 0, rd, 0x73);
  }

  lemma ExecutesSystem(f7: bv7, rs2: bv5, rs1: bv5, rd: bv5, h: Hart, b: Bus)
    ensures Perform(SystemWord(f7, rs2, rs1, rd), h, b) ==
            Commit(System(Decode(SystemWord(f7, rs2, rs1, rd)), h, b, After(h)))
    ensures var i := Decode(SystemWord(f7, rs2, rs1, rd)); i.funct3 == 0 && i.funct7 == f7 && i.rs2 == rs2
  {
    hide Perform, SystemWord, Opcode, Rd, Rs1, Rs2, Funct3, Funct7, Shamt, Csr, RawI, RawS, RawB, RawU, RawJ, Sext12,
      Sext13, Sext21, Sext32, After, System, Commit;
    SystemFields(f7, rs2, rs1, rd);
    Executes(SystemWord(f7, rs2, rs1, rd), 0x73, h, b);
  }

  /** ECALL, SRET, WFI and MRET as assembled. */
  lemma SystemWords()
    ensures SystemWord(0, 0, 0, 0) == 0x73
    ensures SystemWord(8, 2, 0, 0) == 0x1020_0073
    ensures SystemWord(8, 5, 0, 0) == 0x1050_0073
    ensures SystemWord(0x18, 2, 0, 0) == 0x3020_0073
  {
  }

  /** Cause code of an environment call. */
  function CallCause(mode: bv2): bv6 {
    match mode
    case 0 => 8 case 1 => 9 case 2 => 10 case _ => 11
  }

  lemma CallCauseIs(mode: bv2)
    ensures 8 + (mode as bv6) == CallCause(mode)
  {
  }

  function CallWord(mode: bv2): bv64 {
    match mode
    case 0 => 8 case 1 => 9 case 2 => 10 case _ => 11
  }

  lemma CallWordIs(mode: bv2)
    ensures Trap.CauseWord(CallCause(mode), false) == CallWord(mode)
  {
  }

  /** The hart as the S handler of an environment call finds it: sepc, scause, stval, mstatus. */
  function CalledInS(h: Hart): Hart {
    h.(mode := 1, pc := BaseOf(h.csrs[0x105]),
       csrs := h.csrs[0x141 := h.pc][0x142 := CallWord(h.mode)][0x143 := 0]
                     [0x300 := Trap.EnterS(h.csrs[0x300], h.mode)])
  }

  /** Likewise in M: mepc, mcause, mtval, mstatus. */
  function CalledInM(h: Hart): Hart {
    h.(mode := 3, pc := BaseOf(h.csrs[0x305]),
       csrs := h.csrs[0x341 := h.pc][0x342 := CallWord(h.mode)][0x343 := 0]
                     [0x300 := Trap.EnterM(h.csrs[0x300], h.mode)])
  }

  lemma CallRaises(h: Hart, b: Bus)
    ensures var h' := if GoesToS(h, CallCause(h.mode), false) then CalledInS(h) else CalledInM(h);
            Commit(Jumped(Trap.RaiseTrap(h, CallCause(h.mode), false, 0), b)) == Outcome(Ok(h'.pc), h', b)
  {
    hide GoesToS, Trap.Delegated, Trap.Vector, BaseOf, Trap.EnterS, Trap.EnterM, Trap.CauseWord, CallCause, CallWord;
    DelegatedIs(h, CallCause(h.mode), false);
    CallWordIs(h.mode);
    BaseIs(h.csrs[0x105]);
    BaseIs(h.csrs[0x305]);
  }

  /** ECALL from any mode: cause 8 to 11 by mode, in S at stvec when medeleg delegates it and the mode is
      not M, else in M at mtvec, with the call's own pc in the epc. */
  lemma EcallMeans(h: Hart, b: Bus)
    ensures var h' := if GoesToS(h, CallCause(h.mode), false) then CalledInS(h) else CalledInM(h);
            Perform(0x73, h, b) == Outcome(Ok(h'.pc), h', b)
  {
    hide Perform, SystemWord, Decode, GoesToS, CalledInS, CalledInM, CallCause, Trap.RaiseTrap, Jumped, Commit;
    SystemWords();
    ExecutesSystem(0, 0, 0, 0, h, b);
    CallCauseIs(h.mode);
    CallRaises(h, b);
  }

  lemma ReturnModes(m: bv64)
    ensures Trap.Spp(m) as bv64 == (m >> 8) & 1
    ensures Trap.Mpp(m) as bv64 == (m >> 11) & 3
  {
  }

  /** Two bits of a status word as a mode. */
  function ModeAt(m: bv64, n: bv6, width: bv64): bv64 {
    (m >> n) & width
  }

  /** The word returns to the pc held in `epc`, in a mode read from mstatus, with mstatus unstacked. */
  predicate Returns(o: Outcome, h: Hart, b: Bus, epc: CsrAddr, status: bv64) {
    o == Outcome(Ok(h.csrs[epc]), h.SetCsr(0x300, status).(pc := h.csrs[epc], mode := o.hart.mode), b)
  }

  /** SRET: to sepc, in the mode of mstatus bit 8. */
  lemma SretMeans(h: Hart, b: Bus)
    ensures var o := Perform(0x1020_0073, h, b);
            && Returns(o, h, b, 0x141, Trap.LeaveS(h.csrs[0x300]))
            && o.hart.mode as bv64 == ModeAt(h.csrs[0x300], 8, 1)
  {
    hide Perform, SystemWord, Decode, Trap.LeaveS, Trap.Spp;
    SystemWords();
    ExecutesSystem(8, 2, 0, 0, h, b);
    ReturnModes(h.csrs[0x300]);
  }

  /** MRET: to mepc, in the mode of mstatus bits 12 and 11. */
  lemma MretMeans(h: Hart, b: Bus)
    ensures var o := Perform(0x3020_0073, h, b);
            && Returns(o, h, b, 0x341, Trap.LeaveM(h.csrs[0x300]))
            && o.hart.mode as bv64 == ModeAt(h.csrs[0x300], 11, 3)
  {
    hide Perform, SystemWord, Decode, Trap.LeaveM, Trap.Mpp;
    SystemWords();
    ExecutesSystem(0x18, 2, 0, 0, h, b);
    ReturnModes(h.csrs[0x300]);
  }

  /** WFI goes on at once. */
  lemma WfiMeans(h: Hart, b: Bus)
    ensures Perform(0x1050_0073, h, b) == Outcome(Ok(After(h)), h.(pc := After(h)), b)
  {
    hide Perform, SystemWord, Decode, After;
    SystemWords();
    ExecutesSystem(8, 5, 0, 0, h, b);
  }

  /** SFENCE.VMA empties the TLB whatever its operands and changes nothing else. */
  lemma FenceMeans(rs2: bv5, rs1: bv5, rd: bv5, h: Hart, b: Bus)
    ensures var o := Perform(SystemWord(9, rs2, rs1, rd), h, b);
            && o == Outcome(Ok(After(h)), h.(pc := After(h), tlb := o.hart.tlb), b)
            && forall i :: 0 <= i < Mmu.TLB_ENTRIES ==> !o.hart.tlb[i].valid
  {
    hide Perform, SystemWord, Decode, After;
    ExecutesSystem(9, rs2, rs1, rd, h, b);
  }

  /** Every other funct7 and rs2, EBREAK among them, is rejected without effect. */
  lemma OthersRejected(f7: bv7, rs2: bv5, rs1: bv5, rd: bv5, h: Hart, b: Bus)
    requires !(f7 == 0 && rs2 == 0) && !(f7 == 8 && (rs2 == 2 || rs2 == 5)) && f7 != 9 && f7 != 0x18
    ensures Perform(SystemWord(f7, rs2, rs1, rd), h, b) == Outcome(Err(IllegalInstruction), h, b)
  {
    hide Perform, SystemWord, Decode, After;
    ExecutesSystem(f7, rs2, rs1, rd, h, b);
  }
}
