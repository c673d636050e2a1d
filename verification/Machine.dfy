/** Whole steps of a hart (cpu.rs) and runs of several harts on one bus (emulator.rs). */
module Machine {
  import opened Base
  import opened Words
  import opened HartState
  import opened Encoding
  import opened Rv64
  import Rvc
  import Mmu
  import Sv39Bits
  import Trap
  import SystemBus
  import Plic
  import Clint
  import AddressMap

  const UART_POLL_INTERVAL := 4096

  // ---------- fetch and step ----------

  /** The hart's timer register exists. */
  predicate Wired(h: Hart, b: Bus) {
    h.attached ==> h.id as int < |b.clint.mtimecmp|
  }

  /** Ticks the timer and, every so often, moves host input into the serial port. */
  function Tick(h: Hart, b: Bus, input: seq<u8>): (r: (Hart, Bus))
    ensures SystemBus.SameWiring(b, r.1)
    ensures Wired(h, b) ==> Wired(r.0, r.1)
  {
    if !h.attached then (h, b)
    else
      var b1 := b.(clint := b.clint.Tick());
      var n := h.pollCountdown - 1;
      if n <= 0 then (h.(pollCountdown := UART_POLL_INTERVAL), b1.(uart := b1.uart.Poll(input)))
      else (h.(pollCountdown := n), b1)
  }

  function TimerLine(h: Hart, b: Bus): Option<bool>
    requires Wired(h, b)
  {
    if h.attached then Some(b.clint.Pending(h.id as int)) else None
  }

  function ExternalLine(h: Hart, b: Bus): Option<bool> {
    if h.attached then Some(Plic.Interrupts(b.plic, Plic.PendingMask(b.Lines()), h.id as int)) else None
  }

  /** The hart at the instruction boundary: interrupts sampled, possibly taken. */
  function Boundary(h: Hart, b: Bus): Hart
    requires Wired(h, b)
  {
    Trap.CheckInterrupt(h, TimerLine(h, b), ExternalLine(h, b)).hart
  }

  datatype Fetched = Fetched(word: Result<bv32>, hart: Hart)

  function Fetch(h: Hart, b: Bus): Fetched {
    var t := CpuTranslate(h, b, h.pc, Sv39Bits.X);
    var h1 := h.(tlb := t.tlb);
    match t.pa
    case Err(e) => Fetched(Err(e), h1)
    case Ok(pa) =>
      Pow256Values();
      match SystemBus.Read(b, pa as int, 4).value
      case Err(e) => Fetched(Err(e), h1)
      case Ok(v) => Fetched(Ok(LowWord(ToWord(v))), h1)
  }

  predicate IsFull(w: bv32) {
    w & 3 == 3
  }

  function Half(w: bv32): bv16 {
    (w & 0xffff) as bv16
  }

  /** Executes a fetched word, full or compressed, and commits the pc on success. */
  function Perform(w: bv32, h: Hart, b: Bus): Outcome {
    Commit(if IsFull(w) then Execute(Decode(w), h, b, Add(h.pc, 4)) else Rvc.CExecute(Half(w), h, b))
  }

  /** The bus a step reads: devices ticked, host input moved in. */
  function Ticked(h: Hart, b: Bus, input: seq<u8>): Bus {
    Tick(h, b, input).1
  }

  /** The hart and the word it is about to execute. */
  function Fetching(h: Hart, b: Bus, input: seq<u8>): Fetched
    requires Wired(h, b)
  {
    var (h1, b1) := Tick(h, b, input);
    Fetch(Boundary(h1, b1), b1)
  }

  /** Cpu::step. */
  function Step(h: Hart, b: Bus, input: seq<u8>): Outcome
    requires Wired(h, b)
  {
    var f := Fetching(h, b, input);
    match f.word
    case Err(e) => Outcome(Err(e), f.hart, Ticked(h, b, input))
    case Ok(w) => Perform(w, f.hart, Ticked(h, b, input))
  }

  // ---------- what one step does to a hart's TLB and CSRs ----------

  /** The instruction empties the TLB: SFENCE.VMA, or a CSR instruction on satp. */
  predicate Fences(i: Instruction) {
    i.opcode == 0x73 && i.funct3 != 4 && (if i.funct3 == 0 then i.funct7 == 9 else i.csr as int == SATP)
  }

  predicate HartInvariant(h: Hart) {
    Trap.CsrInvariant(h) && Mmu.WellFormed(h.tlb)
  }

  predicate Flushed(h: Hart) {
    forall i :: 0 <= i < Mmu.TLB_ENTRIES ==> !h.tlb[i].valid
  }

  /** The entry was there before or was just read from the given bus. */
  predicate OldOrRead(h: Hart, h': Hart, b: Bus, i: nat)
    requires i < Mmu.TLB_ENTRIES
  {
    h'.tlb[i].valid ==> h'.tlb[i] == h.tlb[i] || Mmu.Matches(b, h.csrs[SATP], h'.tlb[i])
  }

  /** satp is unchanged and every valid entry is old or was just read from this bus. */
  predicate Refills(h: Hart, h': Hart, b: Bus) {
    && h'.csrs[SATP] == h.csrs[SATP]
    && forall i :: 0 <= i < Mmu.TLB_ENTRIES ==> OldOrRead(h, h', b, i)
  }

  predicate SameIdentity(h: Hart, h': Hart) {
    h'.id == h.id && h'.attached == h.attached
  }

  /** Good progress of a hart that read page tables from bus b. */
  predicate Progress(h: Hart, h': Hart, b: Bus) {
    HartInvariant(h') && SameIdentity(h, h') && Refills(h, h', b)
  }

  lemma RefillsTransitive(h: Hart, h1: Hart, h2: Hart, b: Bus)
    requires Progress(h, h1, b) && Progress(h1, h2, b)
    ensures Progress(h, h2, b)
  {
    hide HartInvariant, Mmu.Matches;
    forall i | 0 <= i < Mmu.TLB_ENTRIES
      ensures OldOrRead(h, h2, b, i)
    {
      assert OldOrRead(h1, h2, b, i) && OldOrRead(h, h1, b, i);
    }
  }

  lemma TranslationProgress(h: Hart, b: Bus, va: bv64, acc: Sv39Bits.Access)
    requires HartInvariant(h)
    ensures Progress(h, h.(tlb := CpuTranslate(h, b, va, acc).tlb), b)
  {
    hide Mmu.Translate, Mmu.Matches, Mmu.WellFormed;
    Mmu.TranslateRefills(h.tlb, b, h.csrs[SATP], va, acc);
  }

  lemma SetRegProgress(h: Hart, b: Bus, r: bv5, v: bv64)
    requires HartInvariant(h)
    ensures Progress(h, h.SetReg(r, v), b)
  {
    hide Mmu.WellFormed, Mmu.Matches;
    if r != 0 {
      NonzeroRegister(r);
    }
  }

  lemma NonzeroRegister(r: bv5)
    requires r != 0
    ensures r as int != 0
  {
  }

  lemma ReadProgress(h: Hart, b: Bus, va: bv64, n: nat)
    requires HartInvariant(h)
    ensures Progress(h, CpuRead(h, b, va, n).hart, b)
  {
    hide Progress, Mmu.Translate, SystemBus.Read, ToWord;
    TranslationProgress(h, b, va, Sv39Bits.R);
  }

  lemma WriteProgress(h: Hart, b: Bus, va: bv64, n: nat, v: bv64)
    requires HartInvariant(h)
    ensures Progress(h, CpuWrite(h, b, va, n, v).hart, b)
  {
    hide Progress, Mmu.Translate, SystemBus.Write;
    TranslationProgress(h, b, va, Sv39Bits.W);
  }

  /** A load's effect on the hart: translation, then possibly a register write. */
  lemma ReadThenSet(h: Hart, b: Bus, va: bv64, n: nat, rd: bv5, v: bv64)
    requires HartInvariant(h)
    ensures Progress(h, CpuRead(h, b, va, n).hart, b)
    ensures Progress(h, CpuRead(h, b, va, n).hart.SetReg(rd, v), b)
  {
    hide CpuRead, HartInvariant, Refills;
    ReadProgress(h, b, va, n);
    var h1 := CpuRead(h, b, va, n).hart;
    SetRegProgress(h1, b, rd, v);
    RefillsTransitive(h, h1, h1.SetReg(rd, v), b);
  }

  lemma AmoProgress(i: Instruction, h: Hart, b: Bus, next: bv64)
    requires HartInvariant(h)
    ensures Progress(h, AmoSwap(i, h, b, next).hart, b)
  {
    hide CpuRead, CpuWrite, HartInvariant, Refills, SextWord;
    var addr := h.Reg(i.rs1);
    var r := CpuRead(h, b, addr, 4);
    ReadIsQuiet(h, b, addr, 4);
    ReadProgress(h, b, addr, 4);
    StillHere(h, b);
    if r.value.Ok? {
      var w := CpuWrite(r.hart, b, addr, 4, h.Reg(i.rs2));
      WriteProgress(r.hart, b, addr, 4, h.Reg(i.rs2));
      RefillsTransitive(h, r.hart, w.hart, b);
      SetRegProgress(w.hart, b, i.rd, SextWord(r.value.value));
      RefillsTransitive(h, w.hart, w.hart.SetReg(i.rd, SextWord(r.value.value)), b);
    }
  }

  lemma StillHere(h: Hart, b: Bus)
    requires HartInvariant(h)
    ensures Progress(h, h, b)
  {
    hide HartInvariant, Mmu.Matches;
  }

  /** Changes of CSRs other than satp, of mode or pc, that keep the TLB. */
  lemma KeptIsProgress(h: Hart, h': Hart, b: Bus)
    requires HartInvariant(h) && Trap.Keeps(h, h') && h'.attached == h.attached
    ensures Progress(h, h', b)
  {
    hide Trap.CsrInvariant, Mmu.WellFormed, Mmu.Matches;
  }

  lemma FlushIsWellFormed(t: Mmu.Entries)
    ensures Mmu.WellFormed(Mmu.Flush(t))
  {
    hide Mmu.WellFormedEntry, Mmu.Slot;
  }

  lemma CsrProgress(i: Instruction, h: Hart, b: Bus)
    requires HartInvariant(h)
    ensures HartInvariant(CsrOp(i, h)) && SameIdentity(h, CsrOp(i, h))
    ensures i.csr as int == SATP ==> Flushed(CsrOp(i, h))
    ensures i.csr as int != SATP ==> Progress(h, CsrOp(i, h), b)
  {
    hide Trap.CsrInvariant, Mmu.WellFormed, Mmu.Matches, CsrUpdate, Trap.CsrRead, Trap.CsrWrite, Refills;
    var operand := if i.funct3 & 4 != 0 then i.rs1 as bv64 else h.Reg(i.rs1);
    var csr := Trap.CsrRead(h, i.csr as int);
    var h1 := h.SetReg(i.rd, csr);
    SetRegProgress(h, b, i.rd, csr);
    var v := CsrUpdate(i.funct3, csr, operand);
    Trap.WriteKeeps(h1, i.csr as int, v);
    CsrWriteIdentity(h1, i.csr as int, v);
    FlushIsWellFormed(h1.tlb);
    if i.csr as int != SATP {
      KeptIsProgress(h1, Trap.CsrWrite(h1, i.csr as int, v), b);
      RefillsTransitive(h, h1, Trap.CsrWrite(h1, i.csr as int, v), b);
    }
  }

  lemma CsrWriteIdentity(h: Hart, a: CsrAddr, v: bv64)
    ensures SameIdentity(h, Trap.CsrWrite(h, a, v))
  {
    hide Trap.Blend;
  }

  lemma SystemProgress(i: Instruction, h: Hart, b: Bus, next: bv64)
    requires HartInvariant(h) && i.opcode == 0x73
    ensures var h' := System(i, h, b, next).hart;
            HartInvariant(h') && SameIdentity(h, h') && (if Fences(i) then Flushed(h') else Progress(h, h', b))
  {
    hide CsrOp, Trap.RaiseTrap, Trap.Sret, Trap.Mret, Trap.CsrInvariant, Mmu.WellFormed, Refills;
    StillHere(h, b);
    CsrProgress(i, h, b);
    FlushIsWellFormed(h.tlb);
    TrapProgress(h, b, 8 + (h.mode as bv6));
    FenceKeepsCsrs(h);
  }

  lemma FenceKeepsCsrs(h: Hart)
    ensures Trap.CsrInvariant(h.(tlb := Mmu.Flush(h.tlb))) == Trap.CsrInvariant(h)
  {
  }

  lemma TrapProgress(h: Hart, b: Bus, cause: bv6)
    requires HartInvariant(h)
    ensures Progress(h, Trap.RaiseTrap(h, cause, false, 0).hart, b)
    ensures Progress(h, Trap.Sret(h).hart, b)
    ensures Progress(h, Trap.Mret(h).hart, b)
  {
    hide Trap.CsrInvariant, Mmu.WellFormed, Mmu.Matches, Trap.EnterS, Trap.EnterM, Trap.LeaveS, Trap.LeaveM,
      Trap.Delegated, Trap.CauseWord, Trap.Spp, Trap.Mpp, Progress, Trap.Keeps;
    Trap.TrapKeeps(h, cause, false, 0);
    Trap.ReturnKeeps(h);
    KeptIsProgress(h, Trap.RaiseTrap(h, cause, false, 0).hart, b);
    KeptIsProgress(h, Trap.Sret(h).hart, b);
    KeptIsProgress(h, Trap.Mret(h).hart, b);
  }

  lemma LoadProgress(i: Instruction, h: Hart, b: Bus, next: bv64)
    requires HartInvariant(h)
    ensures Progress(h, Load(i, h, b, next).hart, b)
  {
    hide CpuRead, Progress, Address, LoadSize, LoadValue, HartInvariant;
    StillHere(h, b);
    var r := CpuRead(h, b, Address(h, i.rs1, i.immI), LoadSize(i.funct3));
    ReadThenSet(h, b, Address(h, i.rs1, i.immI), LoadSize(i.funct3), i.rd,
                if r.value.Ok? then LoadValue(i.funct3, r.value.value) else 0);
  }

  lemma StoreProgress(i: Instruction, h: Hart, b: Bus, next: bv64)
    requires HartInvariant(h)
    ensures Progress(h, Store(i, h, b, next).hart, b)
  {
    hide CpuWrite, Progress, Address, StoreSize, HartInvariant;
    StillHere(h, b);
    WriteProgress(h, b, Address(h, i.rs1, i.immS), StoreSize(i.funct3), h.Reg(i.rs2));
  }

  lemma ComputeProgress(h: Hart, b: Bus, rd: bv5, out: Option<bv64>, next: bv64)
    requires HartInvariant(h)
    ensures Progress(h, Compute(h, b, rd, out, next).hart, b)
  {
    hide Progress, HartInvariant;
    StillHere(h, b);
    SetRegProgress(h, b, rd, if out.Some? then out.value else 0);
  }

  lemma BranchProgress(i: Instruction, h: Hart, b: Bus, next: bv64)
    requires HartInvariant(h)
    ensures Progress(h, Branch(i, h, b, next).hart, b)
  {
    hide Progress, HartInvariant, Taken, Add;
    StillHere(h, b);
  }

  /** Execution keeps the hart invariant; it empties the TLB when it fences and otherwise only adds
      entries read from the bus it ran on. */
  lemma ExecuteProgress(i: Instruction, h: Hart, b: Bus, next: bv64)
    requires HartInvariant(h)
    ensures var h' := Execute(i, h, b, next).hart;
            HartInvariant(h') && SameIdentity(h, h') && (if Fences(i) then Flushed(h') else Progress(h, h', b))
  {
    hide Load, Store, AmoSwap, System, Branch, OpImm, OpImm32, Op, Op32, HartInvariant, Refills, Flushed, Add, Even,
      Compute;
    StillHere(h, b);
    match i.opcode
    case 0x03 => LoadProgress(i, h, b, next);
    case 0x13 => ComputeProgress(h, b, i.rd, Some(OpImm(i.funct3, i.funct7, h.Reg(i.rs1), i.immI, i.shamt)), next);
    case 0x17 => ComputeProgress(h, b, i.rd, Some(Add(h.pc, i.immU)), next);
    case 0x1b => ComputeProgress(h, b, i.rd, OpImm32(i.funct3, i.funct7, h.Reg(i.rs1), i.immI, i.shamt), next);
    case 0x23 => StoreProgress(i, h, b, next);
    case 0x2f => AmoProgress(i, h, b, next);
    case 0x33 => ComputeProgress(h, b, i.rd, Op(i.funct3, i.funct7, h.Reg(i.rs1), h.Reg(i.rs2)), next);
    case 0x37 => ComputeProgress(h, b, i.rd, Some(i.immU), next);
    case 0x3b => ComputeProgress(h, b, i.rd, Op32(i.funct3, i.funct7, h.Reg(i.rs1), h.Reg(i.rs2)), next);
    case 0x63 => BranchProgress(i, h, b, next);
    case 0x67 => SetRegProgress(h, b, i.rd, next);
    case 0x6f => SetRegProgress(h, b, i.rd, next);
    case 0x73 => SystemProgress(i, h, b, next);
    case _ =>
  }

  // ---------- compressed instructions, fetch and the whole step ----------

  lemma ResultProgress(h: Hart, b: Bus, rd: bv5, v: bv64)
    requires HartInvariant(h)
    ensures Progress(h, Rvc.Result(h, b, rd, v).hart, b)
  {
    hide Progress, HartInvariant, Rvc.Next;
    SetRegProgress(h, b, rd, v);
  }

  lemma CLoadProgress(h: Hart, b: Bus, addr: bv64, rd: bv5)
    requires HartInvariant(h)
    ensures Progress(h, Rvc.CLoadWord(h, b, addr, rd).hart, b)
    ensures Progress(h, Rvc.CLoadDouble(h, b, addr, rd).hart, b)
  {
    hide Progress, HartInvariant, Rvc.Next, CpuRead, SextWord;
    var r, d := CpuRead(h, b, addr, 4), CpuRead(h, b, addr, 8);
    ReadThenSet(h, b, addr, 4, rd, if r.value.Ok? then SextWord(r.value.value) else 0);
    ReadThenSet(h, b, addr, 8, rd, if d.value.Ok? then d.value.value else 0);
  }

  lemma CStoreProgress(h: Hart, b: Bus, addr: bv64, n: nat, v: bv64)
    requires HartInvariant(h)
    ensures Progress(h, Rvc.CStore(h, b, addr, n, v).hart, b)
  {
    hide Progress, HartInvariant, Rvc.Next, CpuWrite;
    WriteProgress(h, b, addr, n, v);
  }

  lemma Quadrant0Progress(c: bv16, h: Hart, b: Bus)
    requires HartInvariant(h)
    ensures Progress(h, Rvc.Quadrant0(c, h, b).hart, b)
  {
    hide Progress, HartInvariant, Rvc.Next, Add, Address, Rvc.CFunct3, Rvc.CLoadWord, Rvc.CLoadDouble, Rvc.CStore,
      Rvc.Rs1Prime, Rvc.Rs2Prime, Rvc.Offset62, Rvc.Offset73, Rvc.Nzuimm92, Rvc.Result;
    StillHere(h, b);
    var r, s := Rvc.Rs1Prime(c), Rvc.Rs2Prime(c);
    match Rvc.CFunct3(c)
    case 0 => ResultProgress(h, b, s, Add(h.Reg(2), Rvc.Nzuimm92(c) as bv64));
    case 2 => CLoadProgress(h, b, Address(h, r, Rvc.Offset62(c) as bv64), s);
    case 3 => CLoadProgress(h, b, Address(h, r, Rvc.Offset73(c) as bv64), s);
    case 6 => CStoreProgress(h, b, Address(h, r, Rvc.Offset62(c) as bv64), 4, h.Reg(s));
    case 7 => CStoreProgress(h, b, Address(h, r, Rvc.Offset73(c) as bv64), 8, h.Reg(s));
    case _ =>
  }

  /** At most registers other than x0 changed. */
  predicate OnlyRegisters(h: Hart, h': Hart) {
    h'.(regs := h.regs) == h && h'.regs[0] == h.regs[0]
  }

  lemma SetRegOnly(h: Hart, r: bv5, v: bv64)
    ensures OnlyRegisters(h, h.SetReg(r, v))
  {
    if r != 0 {
      NonzeroRegister(r);
    }
  }

  lemma OnlyRegistersProgress(h: Hart, h': Hart, b: Bus)
    requires HartInvariant(h) && OnlyRegisters(h, h')
    ensures Progress(h, h', b)
  {
    hide Mmu.WellFormed, Mmu.Matches;
  }

  lemma ResultOnly(h: Hart, b: Bus, rd: bv5, v: bv64)
    ensures OnlyRegisters(h, Rvc.Result(h, b, rd, v).hart)
  {
    hide OnlyRegisters, Rvc.Next;
    SetRegOnly(h, rd, v);
  }

  lemma AluOnly(c: bv16, h: Hart, b: Bus)
    ensures OnlyRegisters(h, Rvc.CAlu(c, h, b).hart)
  {
    hide OnlyRegisters, Rvc.Result, Rvc.Next, Add, Sub, Xor, Or, And, SextWord, Rvc.Rs1Prime, Rvc.Rs2Prime,
      Rvc.CFunct2, Rvc.CFunct6;
    forall v: bv64 ensures OnlyRegisters(h, Rvc.Result(h, b, Rvc.Rs1Prime(c), v).hart) {
      ResultOnly(h, b, Rvc.Rs1Prime(c), v);
    }
    SetRegOnly(h, 0, 0);
  }

  lemma MiscOnly(c: bv16, h: Hart, b: Bus)
    ensures OnlyRegisters(h, Rvc.CMisc(c, h, b).hart)
  {
    hide OnlyRegisters, Rvc.Result, Rvc.Next, Shr, Sra, And, Rvc.Rs1Prime, Rvc.CFunct6, Rvc.CAlu, Rvc.ShamtC,
      Rvc.Imm5;
    forall v: bv64 ensures OnlyRegisters(h, Rvc.Result(h, b, Rvc.Rs1Prime(c), v).hart) {
      ResultOnly(h, b, Rvc.Rs1Prime(c), v);
    }
    SetRegOnly(h, 0, 0);
    AluOnly(c, h, b);
  }

  lemma Quadrant1Only(c: bv16, h: Hart, b: Bus)
    ensures OnlyRegisters(h, Rvc.Quadrant1(c, h, b).hart)
  {
    hide OnlyRegisters, Rvc.Result, Rvc.Next, Add, SextWord, Rvc.Rs1Prime, Rvc.CRd, Rvc.CMisc, Rvc.CFunct3,
      Rvc.Imm5, Rvc.Nzimm94, Rvc.Offset81, Rvc.Offset111;
    forall r: bv5, v: bv64 ensures OnlyRegisters(h, Rvc.Result(h, b, r, v).hart) {
      ResultOnly(h, b, r, v);
    }
    SetRegOnly(h, 0, 0);
    MiscOnly(c, h, b);
  }

  lemma JumpOrMoveOnly(c: bv16, h: Hart, b: Bus)
    ensures OnlyRegisters(h, Rvc.CJumpOrMove(c, h, b).hart)
  {
    hide OnlyRegisters, Rvc.Next, Add, Rvc.CRd, Rvc.CRs2, Rvc.CBit12, Rvc.Result;
    forall r: bv5, v: bv64 ensures OnlyRegisters(h, Rvc.Result(h, b, r, v).hart) {
      ResultOnly(h, b, r, v);
    }
    SetRegOnly(h, 0, 0);
    SetRegOnly(h, 1, Rvc.Next(h));
  }

  lemma Quadrant2Progress(c: bv16, h: Hart, b: Bus)
    requires HartInvariant(h)
    ensures Progress(h, Rvc.Quadrant2(c, h, b).hart, b)
  {
    hide Progress, HartInvariant, Rvc.Next, Shl, Address, Rvc.CFunct3, Rvc.CLoadDouble, Rvc.CStore, Rvc.CRd,
      Rvc.CRs2, Rvc.Offset83Ldsp, Rvc.Offset83Sdsp, Rvc.ShamtC, Rvc.Result, Rvc.CJumpOrMove, OnlyRegisters;
    StillHere(h, b);
    match Rvc.CFunct3(c)
    case 0 => ResultProgress(h, b, Rvc.CRd(c), Shl(h.Reg(Rvc.CRd(c)), Rvc.ShamtC(c)));
    case 3 => CLoadProgress(h, b, Address(h, 2, Rvc.Offset83Ldsp(c) as bv64), Rvc.CRd(c));
    case 4 =>
      JumpOrMoveOnly(c, h, b);
      OnlyRegistersProgress(h, Rvc.CJumpOrMove(c, h, b).hart, b);
    case 7 => CStoreProgress(h, b, Address(h, 2, Rvc.Offset83Sdsp(c) as bv64), 8, h.Reg(Rvc.CRs2(c)));
    case _ =>
  }

  /** No compressed instruction fences. */
  lemma CompressedProgress(c: bv16, h: Hart, b: Bus)
    requires HartInvariant(h)
    ensures Progress(h, Rvc.CExecute(c, h, b).hart, b)
  {
    hide Progress, HartInvariant, Rvc.COp, Rvc.Quadrant0, Rvc.Quadrant1, Rvc.Quadrant2, OnlyRegisters;
    StillHere(h, b);
    Quadrant0Progress(c, h, b);
    Quadrant1Only(c, h, b);
    OnlyRegistersProgress(h, Rvc.Quadrant1(c, h, b).hart, b);
    Quadrant2Progress(c, h, b);
  }

  // ---------- precise failure ----------

  /** The compressed store goes to the VirtIO device. */
  predicate CompressedHitsVirtio(c: bv16, h: Hart, b: Bus) {
    Rvc.Expand(c).Some? && HitsVirtio(Decode(Rvc.Expand(c).value), h, b)
  }

  /** A failing compressed instruction changes nothing but the TLB either. */
  lemma CompressedFailsCleanly(c: bv16, h: Hart, b: Bus)
    requires h.regs[0] == 0 && !CompressedHitsVirtio(c, h, b)
    ensures CleanFailure(Commit(Rvc.CExecute(c, h, b)), h, b)
  {
    hide Execute, Decode, HitsVirtio, Rvc.CExecute, Rvc.Expand, Rvc.JumpsToRegister, Rvc.Odd, Rvc.CRd, Even, Rvc.Next;
    Rvc.CompressedIsExpansion(c, h, b);
    if Rvc.JumpsToRegister(c) {
      Rvc.JumpTarget(c, h, b);
    } else if Rvc.Expand(c).Some? {
      ExecuteFailsCleanly(Decode(Rvc.Expand(c).value), h, b, Rvc.Next(h));
    }
  }

  /** Precise failure of whatever word was fetched. */
  lemma PerformFailsCleanly(w: bv32, h: Hart, b: Bus)
    requires h.regs[0] == 0
    requires if IsFull(w) then !HitsVirtio(Decode(w), h, b) else !CompressedHitsVirtio(Half(w), h, b)
    ensures CleanFailure(Perform(w, h, b), h, b)
  {
    hide Execute, Decode, HitsVirtio, Rvc.CExecute, IsFull, Half, CompressedHitsVirtio, Add, CleanFailure;
    if IsFull(w) {
      ExecuteFailsCleanly(Decode(w), h, b, Add(h.pc, 4));
    } else {
      CompressedFailsCleanly(Half(w), h, b);
    }
  }

  // ---------- interrupt lines of different harts ----------

  /** The access writes a register that configures the given hart: its timer, or its context's
      enables or threshold. */
  predicate Configures(b: Bus, a: nat, n: nat, hart: nat) {
    match AddressMap.Select(b.Layout(), a, n)
    case Some((ClintDev, off)) => b.clint.Owner(off) == Some(hart)
    case Some((PlicDev, off)) => Plic.InContext(off, Plic.SContext(hart))
    case _ => false
  }

  lemma LinesKept(b: Bus, a: nat, n: nat, v: u64, hart: nat, other: nat)
    requires Configures(b, a, n, other) && SystemBus.Write(b, a, n, v).result.Ok? && hart != other
    requires |b.clint.mtimecmp| <= 32 && hart < |b.clint.mtimecmp|
    ensures var b' := SystemBus.Write(b, a, n, v).bus;
            && b'.Lines() == b.Lines()
            && b'.clint.Pending(hart) == b.clint.Pending(hart)
            && Plic.Interrupts(b'.plic, Plic.PendingMask(b.Lines()), hart) ==
               Plic.Interrupts(b.plic, Plic.PendingMask(b.Lines()), hart)
  {
    hide AddressMap.Select, Plic.Claim, Plic.PendingMask, Plic.InContext;
    match AddressMap.Select(b.Layout(), a, n)
    case Some((ClintDev, off)) =>
      Clint.TimerIsolation(b.clint, off, n, v, hart);
    case Some((PlicDev, off)) =>
      WindowsDiffer(off, hart, other);
      Plic.ContextIsolation(b.plic, off, n, v, Plic.PendingMask(b.Lines()), Plic.SContext(hart));
  }

  lemma WindowsDiffer(off: nat, hart: nat, other: nat)
    requires Plic.InContext(off, Plic.SContext(other)) && hart != other
    ensures !Plic.InContext(off, Plic.SContext(hart)) && off >= Plic.PRIORITY_END
  {
  }

  /** Configuring one hart's timer or context never changes another hart's interrupt decision. */
  lemma HartsAreIsolated(h: Hart, b: Bus, other: nat, a: nat, n: nat, v: u64)
    requires Wired(h, b) && |b.clint.mtimecmp| <= 32 && h.id as int != other
    requires Configures(b, a, n, other) && SystemBus.Write(b, a, n, v).result.Ok?
    ensures Boundary(h, SystemBus.Write(b, a, n, v).bus) == Boundary(h, b)
  {
    hide SystemBus.Write, Configures, Plic.Interrupts, Plic.PendingMask, Trap.CheckInterrupt;
    if h.attached {
      LinesKept(b, a, n, v, h.id as int, other);
    }
  }
}
