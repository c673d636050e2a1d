/** Instruction semantics of the 32-bit encodings (execute.rs) over one hart and the shared bus. */
module Rv64 {
  import opened Base
  import opened Words
  import opened HartState
  import opened Encoding
  import Mmu
  import Sv39Bits
  import MulDiv
  import SystemBus
  import Trap

  type Bus = SystemBus.Bus

  /** Next pc, or why execution stopped, with the state left behind. */
  datatype Outcome = Outcome(next: Result<bv64>, hart: Hart, bus: Bus)

  // ---------- memory through the MMU (cpu.rs) ----------

  datatype Loaded = Loaded(value: Result<bv64>, hart: Hart, bus: Bus)
  datatype Stored = Stored(result: Result<Unit>, hart: Hart, bus: Bus)

  function CpuTranslate(h: Hart, b: Bus, va: bv64, acc: Sv39Bits.Access): Mmu.Translated {
    Mmu.Translate(h.tlb, b, h.csrs[SATP], va, acc)
  }

  function CpuRead(h: Hart, b: Bus, va: bv64, n: nat): Loaded {
    var t := CpuTranslate(h, b, va, Sv39Bits.R);
    var h1 := h.(tlb := t.tlb);
    match t.pa
    case Err(e) => Loaded(Err(e), h1, b)
    case Ok(pa) =>
      var r := SystemBus.Read(b, pa as int, n);
      Loaded(match r.value case Err(e) => Err(e) case Ok(v) => Ok(ToWord(v)), h1, r.bus)
  }

  function CpuWrite(h: Hart, b: Bus, va: bv64, n: nat, v: bv64): Stored {
    var t := CpuTranslate(h, b, va, Sv39Bits.W);
    var h1 := h.(tlb := t.tlb);
    match t.pa
    case Err(e) => Stored(Err(e), h1, b)
    case Ok(pa) =>
      var r := SystemBus.Write(b, pa as int, n, FromWord(v));
      Stored(r.result, h1, r.bus)
  }

  // ---------- result expressions ----------

  /** Sign-extends the low word of a 64-bit value. */
  function SextWord(v: bv64): bv64 {
    Sext32(LowWord(v))
  }

  function SextByte(v: bv64): bv64 { (v & 0xff) | ((0 - ((v >> 7) & 1)) << 7) }
  function SextHalf(v: bv64): bv64 { (v & 0xffff) | ((0 - ((v >> 15) & 1)) << 15) }

  /** Signed comparison. */
  predicate Less(a: bv64, b: bv64) {
    (a ^ 0x8000_0000_0000_0000) < (b ^ 0x8000_0000_0000_0000)
  }

  function Flag(c: bool): bv64 {
    if c then 1 else 0
  }

  /** Access width of a load; 0 for the unassigned encoding. */
  function LoadSize(f: bv3): nat {
    match f
    case 0 => 1 case 1 => 2 case 2 => 4 case 3 => 8 case 4 => 1 case 5 => 2 case 6 => 4 case _ => 0
  }

  function LoadValue(f: bv3, v: bv64): bv64 {
    match f
    case 0 => SextByte(v) case 1 => SextHalf(v) case 2 => SextWord(v) case _ => v
  }

  function StoreSize(f: bv3): nat {
    match f
    case 0 => 1 case 1 => 2 case 2 => 4 case 3 => 8 case _ => 0
  }

  function Taken(f: bv3, a: bv64, b: bv64): Option<bool> {
    match f
    case 0 => Some(a == b)
    case 1 => Some(a != b)
    case 4 => Some(Less(a, b))
    case 5 => Some(!Less(a, b))
    case 6 => Some(a < b)
    case 7 => Some(a >= b)
    case _ => None
  }

  /** OP-IMM: every funct3 is assigned. */
  function OpImm(f: bv3, f7: bv7, a: bv64, imm: bv64, shamt: bv6): bv64 {
    match f
    case 0 => Add(a, imm)
    case 1 => Shl(a, shamt)
    case 2 => Flag(Less(a, imm))
    case 3 => Flag(a < imm)
    case 4 => Xor(a, imm)
    case 5 => if f7 & 0x20 != 0 then Sra(a, shamt) else Shr(a, shamt)
    case 6 => Or(a, imm)
    case _ => And(a, imm)
  }

  /** 32-bit arithmetic shift right, on the low word. */
  function SraWord(a: bv64, n: bv6): bv64 {
    Sra(SextWord(a), n)
  }

  /** The low word of a value, zero-extended. */
  function Zext(a: bv64): bv64 {
    a & 0xffff_ffff
  }

  function OpImm32(f: bv3, f7: bv7, a: bv64, imm: bv64, shamt: bv6): Option<bv64> {
    match f
    case 0 => Some(SextWord(Add(a, imm)))
    case 1 => Some(SextWord(Shl(a, shamt & 0x1f)))
    case 5 => Some(SextWord(if f7 & 0x20 != 0 then SraWord(a, shamt & 0x1f) else Shr(Zext(a), shamt & 0x1f)))
    case _ => None
  }

  function MulDivResult(f: bv3, a: u64, b: u64): (r: u64) {
    match f
    case 0 => MulDiv.Mul(a, b, TWO_64)
    case 1 => MulDiv.Mulh(a, b)
    case 2 => MulDiv.Mulhsu(a, b)
    case 3 => MulDiv.Mulhu(a, b)
    case 4 => MulDiv.Div(a, b, TWO_64)
    case 5 => (MulDiv.DivuBound(a, b, TWO_64); MulDiv.Divu(a, b, TWO_64))
    case 6 => MulDiv.Rem(a, b, TWO_64)
    case _ => (MulDiv.DivuBound(a, b, TWO_64); MulDiv.Remu(a, b))
  }

  /** The number in the low word of a value. */
  function LowValue(a: bv64): u32 {
    Pow256Values();
    ValueOf(a, 4)
  }

  function MulDivResult32(f: bv3, a: u32, b: u32): (r: Option<u32>)
    ensures r.Some? <==> f == 0 || f >= 4
  {
    match f
    case 0 => Some(MulDiv.Mul(a, b, TWO_32))
    case 4 => Some(MulDiv.Div(a, b, TWO_32))
    case 5 => (MulDiv.DivuBound(a, b, TWO_32); Some(MulDiv.Divu(a, b, TWO_32)))
    case 6 => Some(MulDiv.Rem(a, b, TWO_32))
    case 7 => (MulDiv.DivuBound(a, b, TWO_32); Some(MulDiv.Remu(a, b)))
    case _ => None
  }

  function Op(f: bv3, f7: bv7, a: bv64, b: bv64): Option<bv64> {
    if f7 == 1 then Some(ToWord(MulDivResult(f, FromWord(a), FromWord(b))))
    else if f7 == 0x20 then
      if f == 0 then Some(Sub(a, b)) else if f == 5 then Some(Sra(a, (b & 0x3f) as bv6)) else None
    else if f7 == 0 then
      Some(match f
           case 0 => Add(a, b)
           case 1 => Shl(a, (b & 0x3f) as bv6)
           case 2 => Flag(Less(a, b))
           case 3 => Flag(a < b)
           case 4 => Xor(a, b)
           case 5 => Shr(a, (b & 0x3f) as bv6)
           case 6 => Or(a, b)
           case _ => And(a, b))
    else None
  }

  /** W forms. SLLW ignores funct7, as the source's pattern does. */
  function Op32(f: bv3, f7: bv7, a: bv64, b: bv64): Option<bv64> {
    var n := (b & 0x1f) as bv6;
    if f == 1 then Some(SextWord(Shl(a, n)))
    else if f7 == 1 then
      match MulDivResult32(f, LowValue(a), LowValue(b))
      case None => None
      case Some(r) => Some(SextWord(ToWord(r)))
    else if f == 0 && f7 == 0 then Some(SextWord(Add(a, b)))
    else if f == 0 && f7 == 0x20 then Some(SextWord(Sub(a, b)))
    else if f == 5 && f7 == 0 then Some(SextWord(Shr(Zext(a), n)))
    else if f == 5 && f7 == 0x20 then Some(SextWord(SraWord(a, n)))
    else None
  }

  // ---------- execution ----------

  /** Jump targets of JALR have bit 0 cleared. */
  function Even(a: bv64): bv64 {
    a & !1
  }

  /** Base register plus offset. */
  function Address(h: Hart, r: bv5, offset: bv64): bv64 {
    Add(h.Reg(r), offset)
  }

  function Illegal(h: Hart, b: Bus): Outcome {
    Outcome(Err(IllegalInstruction), h, b)
  }

  /** Writes rd and falls through; an unassigned encoding is illegal. */
  function Compute(h: Hart, b: Bus, rd: bv5, out: Option<bv64>, next: bv64): Outcome {
    match out
    case None => Illegal(h, b)
    case Some(v) => Outcome(Ok(next), h.SetReg(rd, v), b)
  }

  function Load(i: Instruction, h: Hart, b: Bus, next: bv64): Outcome {
    var n := LoadSize(i.funct3);
    if n == 0 then Illegal(h, b)
    else
      var r := CpuRead(h, b, Address(h, i.rs1, i.immI), n);
      match r.value
      case Err(e) => Outcome(Err(e), r.hart, r.bus)
      case Ok(v) => Outcome(Ok(next), r.hart.SetReg(i.rd, LoadValue(i.funct3, v)), r.bus)
  }

  function Store(i: Instruction, h: Hart, b: Bus, next: bv64): Outcome {
    var n := StoreSize(i.funct3);
    if n == 0 then Illegal(h, b)
    else
      var r := CpuWrite(h, b, Address(h, i.rs1, i.immS), n, h.Reg(i.rs2));
      match r.result
      case Err(e) => Outcome(Err(e), r.hart, r.bus)
      case Ok(_) => Outcome(Ok(next), r.hart, r.bus)
  }

  function Branch(i: Instruction, h: Hart, b: Bus, next: bv64): Outcome {
    match Taken(i.funct3, h.Reg(i.rs1), h.Reg(i.rs2))
    case None => Illegal(h, b)
    case Some(taken) => Outcome(Ok(if taken then Add(h.pc, i.immB) else next), h, b)
  }

  predicate SwapEncoding(i: Instruction) {
    i.funct3 == 2 && i.funct7 >> 2 == 1
  }

  /** Reads the word at addr, then stores v over it. */
  function Exchanged(h: Hart, b: Bus, addr: bv64, v: bv64): Loaded {
    var r := CpuRead(h, b, addr, 4);
    if r.value.Err? then r
    else
      var w := CpuWrite(r.hart, r.bus, addr, 4, v);
      match w.result
      case Err(e) => Loaded(Err(e), w.hart, w.bus)
      case Ok(_) => Loaded(r.value, w.hart, w.bus)
  }

  /** AMOSWAP.W; no other AMO is implemented. */
  function AmoSwap(i: Instruction, h: Hart, b: Bus, next: bv64): Outcome {
    if SwapEncoding(i) then
      var r := Exchanged(h, b, h.Reg(i.rs1), h.Reg(i.rs2));
      match r.value
      case Err(e) => Outcome(Err(e), r.hart, r.bus)
      case Ok(v) => Outcome(Ok(next), r.hart.SetReg(i.rd, SextWord(v)), r.bus)
    else Illegal(h, b)
  }

  /** New CSR value of CSRRW/S/C (funct3 low bits 1/2/3) from the old value and the operand. */
  function CsrUpdate(f: bv3, csr: bv64, operand: bv64): bv64 {
    if f & 3 == 1 then operand else if f & 3 == 2 then Or(csr, operand) else Trap.Outside(csr, operand)
  }

  function CsrOp(i: Instruction, h: Hart): Hart {
    var operand := if i.funct3 & 4 != 0 then i.rs1 as bv64 else h.Reg(i.rs1);
    var csr := Trap.CsrRead(h, i.csr as int);
    Trap.CsrWrite(h.SetReg(i.rd, csr), i.csr as int, CsrUpdate(i.funct3, csr, operand))
  }

  function Jumped(j: Trap.Jump, b: Bus): Outcome {
    Outcome(Ok(j.pc), j.hart, b)
  }

  function System(i: Instruction, h: Hart, b: Bus, next: bv64): Outcome {
    if i.funct3 == 4 then Illegal(h, b)
    else if i.funct3 != 0 then Outcome(Ok(next), CsrOp(i, h), b)
    else if i.funct7 == 0 && i.rs2 == 0 then Jumped(Trap.RaiseTrap(h, 8 + (h.mode as bv6), false, 0), b)
    else if i.funct7 == 8 && i.rs2 == 2 then Jumped(Trap.Sret(h), b)
    else if i.funct7 == 8 && i.rs2 == 5 then Outcome(Ok(next), h, b)
    else if i.funct7 == 9 then Outcome(Ok(next), h.(tlb := Mmu.Flush(h.tlb)), b)
    else if i.funct7 == 0x18 then Jumped(Trap.Mret(h), b)
    else Illegal(h, b)
  }

  /** One decoded instruction; `next` is the address of the following one. */
  function Execute(i: Instruction, h: Hart, b: Bus, next: bv64): Outcome {
    match i.opcode
    case 0x03 => Load(i, h, b, next)
    case 0x0f => Outcome(Ok(next), h, b)
    case 0x13 => Compute(h, b, i.rd, Some(OpImm(i.funct3, i.funct7, h.Reg(i.rs1), i.immI, i.shamt)), next)
    case 0x17 => Compute(h, b, i.rd, Some(Add(h.pc, i.immU)), next)
    case 0x1b => Compute(h, b, i.rd, OpImm32(i.funct3, i.funct7, h.Reg(i.rs1), i.immI, i.shamt), next)
    case 0x23 => Store(i, h, b, next)
    case 0x2f => AmoSwap(i, h, b, next)
    case 0x33 => Compute(h, b, i.rd, Op(i.funct3, i.funct7, h.Reg(i.rs1), h.Reg(i.rs2)), next)
    case 0x37 => Compute(h, b, i.rd, Some(i.immU), next)
    case 0x3b => Compute(h, b, i.rd, Op32(i.funct3, i.funct7, h.Reg(i.rs1), h.Reg(i.rs2)), next)
    case 0x63 => Branch(i, h, b, next)
    case 0x67 => Outcome(Ok(Even(Add(h.Reg(i.rs1), i.immI))), h.SetReg(i.rd, next), b)
    case 0x6f => Outcome(Ok(Add(h.pc, i.immJ)), h.SetReg(i.rd, next), b)
    case 0x73 => System(i, h, b, next)
    case _ => Illegal(h, b)
  }

  /** Cpu::execute: the hart's pc moves only on success. */
  function Commit(o: Outcome): Outcome {
    if o.next.Ok? then o.(hart := o.hart.(pc := o.next.value)) else o
  }

  // ---------- precise failure ----------

  /** Equal up to TLB contents. */
  predicate SameButTlb(h: Hart, h': Hart) {
    h'.(tlb := h.tlb) == h
  }

  /** The store or AMO goes to the VirtIO device, whose queue service may fail half-way. */
  predicate StoresToVirtio(h: Hart, b: Bus, va: bv64, n: nat) {
    var pa := CpuTranslate(h, b, va, Sv39Bits.W).pa;
    pa.Ok? && b.virtioRange.Contains(pa.value as int, n)
  }

  predicate HitsVirtio(i: Instruction, h: Hart, b: Bus) {
    || (i.opcode == 0x23 && StoresToVirtio(h, b, Address(h, i.rs1, i.immS), StoreSize(i.funct3)))
    || (i.opcode == 0x2f && StoresToVirtio(CpuRead(h, b, h.Reg(i.rs1), 4).hart, b, h.Reg(i.rs1), 4))
  }

  lemma ReadIsQuiet(h: Hart, b: Bus, va: bv64, n: nat)
    ensures SameButTlb(h, CpuRead(h, b, va, n).hart)
    ensures n != 1 || CpuRead(h, b, va, n).value.Err? ==> CpuRead(h, b, va, n).bus == b
  {
    hide Mmu.Translate, SystemBus.Read, ToWord;
  }

  lemma WriteFailsCleanly(h: Hart, b: Bus, va: bv64, n: nat, v: bv64)
    ensures SameButTlb(h, CpuWrite(h, b, va, n, v).hart)
    ensures CpuWrite(h, b, va, n, v).result.Err? && !StoresToVirtio(h, b, va, n) ==> CpuWrite(h, b, va, n, v).bus == b
  {
    hide Mmu.Translate, SystemBus.Write;
  }

  /** A failed instruction left everything alone but the TLB. */
  predicate CleanFailure(o: Outcome, h: Hart, b: Bus) {
    o.next.Err? ==> o.bus == b && SameButTlb(h, o.hart)
  }

  lemma LoadFails(i: Instruction, h: Hart, b: Bus, next: bv64)
    ensures CleanFailure(Load(i, h, b, next), h, b)
  {
    hide CpuRead, LoadValue, LoadSize, Address;
    ReadIsQuiet(h, b, Address(h, i.rs1, i.immI), LoadSize(i.funct3));
  }

  lemma StoreFails(i: Instruction, h: Hart, b: Bus, next: bv64)
    requires !StoresToVirtio(h, b, Address(h, i.rs1, i.immS), StoreSize(i.funct3))
    ensures CleanFailure(Store(i, h, b, next), h, b)
  {
    hide CpuWrite, StoresToVirtio, StoreSize, Address;
    WriteFailsCleanly(h, b, Address(h, i.rs1, i.immS), StoreSize(i.funct3), h.Reg(i.rs2));
  }

  /** Also when the read succeeded and the write failed. */
  lemma AmoFails(i: Instruction, h: Hart, b: Bus, next: bv64)
    requires !StoresToVirtio(CpuRead(h, b, h.Reg(i.rs1), 4).hart, b, h.Reg(i.rs1), 4)
    ensures CleanFailure(AmoSwap(i, h, b, next), h, b)
  {
    hide CpuRead, CpuWrite, StoresToVirtio, SextWord;
    var r := CpuRead(h, b, h.Reg(i.rs1), 4);
    ReadIsQuiet(h, b, h.Reg(i.rs1), 4);
    WriteFailsCleanly(r.hart, r.bus, h.Reg(i.rs1), 4, h.Reg(i.rs2));
  }

  lemma OthersFail(i: Instruction, h: Hart, b: Bus, next: bv64, rd: bv5, out: Option<bv64>)
    ensures CleanFailure(Compute(h, b, rd, out, next), h, b)
    ensures CleanFailure(Branch(i, h, b, next), h, b)
    ensures CleanFailure(System(i, h, b, next), h, b)
  {
    hide Taken, Trap.RaiseTrap, Trap.Sret, Trap.Mret, CsrOp;
  }

  /** An instruction that fails changes nothing but the TLB: not pc, registers, CSRs or mode, and not
      memory or any device unless its store was addressed to VirtIO. */
  lemma ExecuteFailsCleanly(i: Instruction, h: Hart, b: Bus, next: bv64)
    requires !HitsVirtio(i, h, b)
    ensures CleanFailure(Commit(Execute(i, h, b, next)), h, b)
  {
    hide Load, Store, AmoSwap, System, Branch, OpImm, OpImm32, Op, Op32, StoresToVirtio, Address;
    match i.opcode
    case 0x03 => LoadFails(i, h, b, next);
    case 0x23 => StoreFails(i, h, b, next);
    case 0x2f => AmoFails(i, h, b, next);
    case _ =>
      OthersFail(i, h, b, next, i.rd, OpImm32(i.funct3, i.funct7, h.Reg(i.rs1), i.immI, i.shamt));
      OthersFail(i, h, b, next, i.rd, Op(i.funct3, i.funct7, h.Reg(i.rs1), h.Reg(i.rs2)));
      OthersFail(i, h, b, next, i.rd, Op32(i.funct3, i.funct7, h.Reg(i.rs1), h.Reg(i.rs2)));
  }

  // ---------- CSR exchange ----------

  /** CSRRW rd, csr, rd on a CSR that is neither a masked view nor read-only. */
  predicate Exchanges(i: Instruction) {
    && i.funct3 == 1 && i.rd == i.rs1 && i.rd != 0
    && Trap.AliasedTarget(i.csr as int).None? && i.csr as int != MHARTID
  }

  lemma ExchangeOnce(i: Instruction, h: Hart)
    requires Exchanges(i)
    ensures CsrOp(i, h).regs == h.regs[i.rd as int := h.csrs[i.csr as int]]
    ensures CsrOp(i, h).csrs == h.csrs[i.csr as int := h.regs[i.rd as int]]
  {
    hide Mmu.Flush;
  }

  /** Executed twice it puts register and CSR back; xv6's trap vectors rely on it. */
  lemma ExchangeTwice(i: Instruction, h: Hart)
    requires Exchanges(i)
    ensures CsrOp(i, CsrOp(i, h)).regs == h.regs && CsrOp(i, CsrOp(i, h)).csrs == h.csrs
  {
    hide CsrOp, Exchanges;
    ExchangeOnce(i, h);
    ExchangeOnce(i, CsrOp(i, h));
  }

  // ---------- the reserved mode is reachable ----------

  /** csrrw x0, mstatus, x5 and mret. */
  const WRITE_MSTATUS: bv32 := 0x3002_9073
  const MRET_WORD: bv32 := 0x3020_0073

  lemma WriteMstatusFields()
    ensures var i := Decode(WRITE_MSTATUS);
            i.opcode == 0x73 && i.funct3 == 1 && i.rd == 0 && i.rs1 == 5 && i.csr == 0x300
  {
  }

  lemma MretFields()
    ensures var i := Decode(MRET_WORD); i.opcode == 0x73 && i.funct3 == 0 && i.funct7 == 0x18 && i.rs2 == 2
  {
  }

  lemma ReservedBits()
    ensures Trap.Mpp(0x1000) == 2
  {
  }

  lemma WritesMstatus(h: Hart, b: Bus, next: bv64)
    ensures Execute(Decode(WRITE_MSTATUS), h, b, next) ==
            Outcome(Ok(next), h.SetCsr(MSTATUS, h.Reg(5)), b)
  {
    hide Decode, Load, Store, AmoSwap, Branch, OpImm, OpImm32, Op, Op32, Compute, Add, Even, Trap.CsrRead;
    WriteMstatusFields();
  }

  lemma RunsMret(h: Hart, b: Bus, next: bv64)
    ensures Execute(Decode(MRET_WORD), h, b, next) == Jumped(Trap.Mret(h), b)
  {
    hide Decode, Load, Store, AmoSwap, Branch, OpImm, OpImm32, Op, Op32, Compute, Add, Even, CsrOp, Trap.Mret;
    MretFields();
  }

  /** A hart whose x5 holds MPP = 2 writes it to mstatus and returns: it now runs in the reserved mode
      2. An exception that medeleg delegates traps from there into S, and SRET resumes in U. */
  lemma ReservedModeReached(h: Hart, b: Bus, next: bv64, next': bv64, cause: bv6, tval: bv64)
    requires h.Reg(5) == 0x1000 && Trap.BitAt(h.csrs[MEDELEG], cause)
    ensures var h1 := Execute(Decode(WRITE_MSTATUS), h, b, next).hart;
            var h2 := Execute(Decode(MRET_WORD), h1, b, next').hart;
            var t := Trap.RaiseTrap(h2, cause, false, tval).hart;
            h2.mode == 2 && t.mode == PRIV_S && Trap.Sret(t).hart.mode == PRIV_U
  {
    hide Execute, Decode, Trap.Mpp, Trap.Spp, Trap.EnterS, Trap.EnterM, Trap.LeaveS, Trap.LeaveM, Trap.BitAt,
      Trap.CauseWord, Trap.Vector, Trap.Sie, Trap.Mie, Trap.Spie, Trap.Mpie;
    WritesMstatus(h, b, next);
    var h1 := h.SetCsr(MSTATUS, h.Reg(5));
    RunsMret(h1, b, next');
    ReservedBits();
    var h2 := Trap.Mret(h1).hart;
    Trap.EnterSFields(h2.csrs[MSTATUS], h2.mode);
  }
}
