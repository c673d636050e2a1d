/** What assembled loads, stores and AMOSWAP.W do (section 2.6, 5.3 and 8.4 of the RISC-V Unprivileged
    Specification 20191213): widths by funct3, loaded values as numbers, addresses through translation. */
module IsaMemory {
  import opened Base
  import opened Words
  import opened Memory
  import opened HartState
  import opened Encoding
  import opened Rv64
  import opened Machine
  import opened Numbers
  import opened Extensions
  import opened Isa
  import Mmu
  import MulDiv
  import Rvc
  import Sv39Bits
  import SystemBus

  // ---------- loaded values ----------

  /** Bytes accessed: LB, LH, LW, LD, LBU, LHU, LWU. */
  function Width(f3: bv3): nat {
    match f3
    case 0 => 1 case 1 => 2 case 2 => 4 case 3 => 8 case 4 => 1 case 5 => 2 case _ => 4
  }

  /** The register x for the number v read: signed for LB, LH and LW, unsigned for the others. */
  predicate LoadedAs(f3: bv3, v: nat, x: bv64) {
    match f3
    case 0 => SignedOf(x) == MulDiv.Signed(v, 0x100)
    case 1 => SignedOf(x) == MulDiv.Signed(v, 0x1_0000)
    case 2 => SignedOf(x) == MulDiv.Signed(v, 0x1_0000_0000)
    case _ => FromWord(x) == v
  }

  /** The low bytes of a word that holds a short number. */
  lemma ShortValue(v: u64, n: nat)
    requires n <= 8 && v < Pow256(n)
    ensures ValueOf(ToWord(v), n) == v
  {
    hide ValueOf, ToWord, FromWord, Low;
    LowOfValue(ToWord(v), n, 8);
    FromIsValue(ToWord(v));
    WordsRoundTrip(0, v);
  }

  /** Loads extend the number they read. */
  lemma LoadValueMeans(f3: bv3, v: u64)
    requires f3 != 7 && v < Pow256(Width(f3))
    ensures LoadedAs(f3, v, LoadValue(f3, ToWord(v)))
  {
    hide ValueOf, ToWord, FromWord, SignedOf, SextByte, SextHalf, SextWord, MulDiv.Signed;
    var x := ToWord(v);
    SextByteNumber(x);
    SextHalfNumber(x);
    SextWordNumber(x);
    WordsRoundTrip(0, v);
    ShortValue(v, Width(f3));
  }

  // ---------- loads ----------

  /** The load of n bytes at va: translated for reading through satp, then read from the bus. */
  predicate Loads(o: Outcome, h: Hart, b: Bus, va: bv64, n: nat, f3: bv3, rd: bv5) {
    var t := Mmu.Translate(h.tlb, b, h.csrs[0x180], va, Sv39Bits.R);
    var h1 := h.(tlb := t.tlb);
    match t.pa
    case Err(e) => o == Outcome(Err(e), h1, b)
    case Ok(pa) =>
      var r := SystemBus.Read(b, pa as int, n);
      match r.value
      case Err(e) => o == Outcome(Err(e), h1, r.bus)
      case Ok(v) =>
        var x := LoadValue(f3, ToWord(v));
        LoadedAs(f3, v, x) && o == Outcome(Ok(After(h)), h1.SetReg(rd, x).(pc := After(h)), r.bus)
  }

  lemma WidthIs(f3: bv3)
    requires f3 != 7
    ensures LoadSize(f3) == Width(f3)
    ensures f3 < 4 ==> StoreSize(f3) == Width(f3)
    ensures f3 >= 4 ==> StoreSize(f3) == 0
  {
  }

  /** A load through the hart, committed. */
  function LoadPart(h: Hart, b: Bus, va: bv64, n: nat, f3: bv3, rd: bv5): Outcome {
    var r := CpuRead(h, b, va, n);
    match r.value
    case Err(e) => Outcome(Err(e), r.hart, r.bus)
    case Ok(v) => Outcome(Ok(After(h)), r.hart.SetReg(rd, LoadValue(f3, v)).(pc := After(h)), r.bus)
  }

  lemma LoadPartLoads(h: Hart, b: Bus, va: bv64, n: nat, f3: bv3, rd: bv5)
    requires f3 != 7 && n == Width(f3)
    ensures Loads(LoadPart(h, b, va, n, f3, rd), h, b, va, n, f3, rd)
  {
    hide Mmu.Translate, SystemBus.Read, LoadValue, LoadedAs, ToWord, After, Width, Pow256;
    var t := Mmu.Translate(h.tlb, b, h.csrs[0x180], va, Sv39Bits.R);
    if t.pa.Ok? {
      var r := SystemBus.Read(b, t.pa.value as int, n);
      if r.value.Ok? {
        LoadValueMeans(f3, r.value.value);
      }
    }
  }

  lemma LoadRuns(i: Instruction, h: Hart, b: Bus, va: bv64)
    requires i.funct3 != 7 && Address(h, i.rs1, i.immI) == va
    ensures Loads(Commit(Load(i, h, b, After(h))), h, b, va, Width(i.funct3), i.funct3, i.rd)
  {
    hide Loads, CpuRead, Address, LoadSize, Width, LoadValue, After;
    WidthIs(i.funct3);
    WidthPositive(i.funct3);
    LoadPartLoads(h, b, va, Width(i.funct3), i.funct3, i.rd);
  }

  lemma ExecutesLoad(imm: bv32, rs1: bv5, f3: bv3, rd: bv5, h: Hart, b: Bus)
    requires Fits12(imm)
    ensures var w := EncodeI(imm, rs1, f3, rd, 0x03);
            && Opcode(w) == 0x03 && Execute(Decode(w), h, b, After(h)) == Load(Decode(w), h, b, After(h))
            && Decode(w).funct3 == f3 && Decode(w).rd == rd
            && Address(h, Decode(w).rs1, Decode(w).immI) == Plus(h.Reg(rs1), Sext32(imm))
  {
    hide EncodeI, Opcode, Rd, Rs1, Rs2, Funct3, Funct7, Shamt, Csr, RawI, RawS, RawB, RawU, RawJ, Sext12, Sext13,
      Sext21, Sext32, Add, After, Load, Plus, Fits12;
    RoundTripI(imm, rs1, f3, rd, 0x03);
    PlusIs(h.Reg(rs1), Sext32(imm));
  }

  /** A load reads Width bytes at rs1 plus offset and extends them; funct3 7 is rejected. */
  lemma LoadMeans(imm: bv32, rs1: bv5, f3: bv3, rd: bv5, h: Hart, b: Bus)
    requires Fits12(imm)
    ensures var o := Perform(EncodeI(imm, rs1, f3, rd, 0x03), h, b);
            if f3 == 7 then o == Outcome(Err(IllegalInstruction), h, b)
            else Loads(o, h, b, Plus(h.Reg(rs1), Sext32(imm)), Width(f3), f3, rd)
  {
    hide Perform, Execute, Decode, EncodeI, Opcode, After, Loads, Sext32, Plus, Fits12, Address, CpuRead, LoadValue,
      Width;
    var w := EncodeI(imm, rs1, f3, rd, 0x03);
    ExecutesLoad(imm, rs1, f3, rd, h, b);
    Executes(w, 0x03, h, b);
    if f3 != 7 {
      LoadRuns(Decode(w), h, b, Plus(h.Reg(rs1), Sext32(imm)));
    }
  }

  // ---------- stores ----------

  /** The store of the n low bytes of x at va: translated for writing, then written to the bus. */
  predicate Stores(o: Outcome, h: Hart, b: Bus, va: bv64, n: nat, x: bv64) {
    var t := Mmu.Translate(h.tlb, b, h.csrs[0x180], va, Sv39Bits.W);
    var h1 := h.(tlb := t.tlb);
    match t.pa
    case Err(e) => o == Outcome(Err(e), h1, b)
    case Ok(pa) =>
      var r := SystemBus.Write(b, pa as int, n, FromWord(x));
      match r.result
      case Err(e) => o == Outcome(Err(e), h1, r.bus)
      case Ok(_) => o == Outcome(Ok(After(h)), h1.(pc := After(h)), r.bus)
  }

  lemma StoreRuns(i: Instruction, h: Hart, b: Bus, va: bv64)
    requires i.funct3 < 4 && Address(h, i.rs1, i.immS) == va
    ensures Stores(Commit(Store(i, h, b, After(h))), h, b, va, Width(i.funct3), h.Reg(i.rs2))
  {
    hide Mmu.Translate, SystemBus.Write, Address, StoreSize, LoadSize, Width, FromWord, After;
    WidthIs(i.funct3);
    WidthPositive(i.funct3);
  }

  lemma WidthPositive(f3: bv3)
    ensures Width(f3) > 0
  {
  }

  lemma ExecutesStore(imm: bv32, rs1: bv5, rs2: bv5, f3: bv3, h: Hart, b: Bus)
    requires Fits12(imm)
    ensures var w := EncodeS(imm, rs1, rs2, f3, 0x23);
            && Opcode(w) == 0x23 && Execute(Decode(w), h, b, After(h)) == Store(Decode(w), h, b, After(h))
            && Decode(w).funct3 == f3 && Decode(w).rs2 == rs2
            && Address(h, Decode(w).rs1, Decode(w).immS) == Plus(h.Reg(rs1), Sext32(imm))
  {
    hide EncodeS, Opcode, Rd, Rs1, Rs2, Funct3, Funct7, Shamt, Csr, RawI, RawS, RawB, RawU, RawJ, Sext12, Sext13,
      Sext21, Sext32, Add, After, Store, Plus, Fits12;
    RoundTripS(imm, rs1, rs2, f3, 0x23);
    PlusIs(h.Reg(rs1), Sext32(imm));
  }

  /** A store writes Width bytes of rs2 at rs1 plus offset; funct3 from 4 on is rejected. */
  lemma StoreMeans(imm: bv32, rs1: bv5, rs2: bv5, f3: bv3, h: Hart, b: Bus)
    requires Fits12(imm)
    ensures var o := Perform(EncodeS(imm, rs1, rs2, f3, 0x23), h, b);
            if f3 >= 4 then o == Outcome(Err(IllegalInstruction), h, b)
            else Stores(o, h, b, Plus(h.Reg(rs1), Sext32(imm)), Width(f3), h.Reg(rs2))
  {
    hide Perform, Execute, Decode, EncodeS, Opcode, After, Stores, Sext32, Plus, Fits12, Address, CpuWrite, Width;
    var w := EncodeS(imm, rs1, rs2, f3, 0x23);
    ExecutesStore(imm, rs1, rs2, f3, h, b);
    Executes(w, 0x23, h, b);
    if f3 < 4 {
      StoreRuns(Decode(w), h, b, Plus(h.Reg(rs1), Sext32(imm)));
    }
  }

  // ---------- AMOSWAP.W ----------

  /** funct5 is the upper part of funct7; the two bits below it order memory and are ignored. */
  lemma Funct5(f7: bv7)
    ensures f7 >> 2 == 1 <==> f7 == 4 || f7 == 5 || f7 == 6 || f7 == 7
  {
  }

  lemma ExecutesAmo(f7: bv7, rs2: bv5, rs1: bv5, f3: bv3, rd: bv5, h: Hart, b: Bus)
    ensures var w := EncodeR(f7 as bv32, rs2, rs1, f3, rd, 0x2f);
            && Opcode(w) == 0x2f && Execute(Decode(w), h, b, After(h)) == AmoSwap(Decode(w), h, b, After(h))
            && Decode(w).funct3 == f3 && Decode(w).funct7 == f7 && Decode(w).rd == rd && Decode(w).rs1 == rs1
            && Decode(w).rs2 == rs2
  {
    hide EncodeR, Opcode, Rd, Rs1, Rs2, Funct3, Funct7, Shamt, Csr, RawI, RawS, RawB, RawU, RawJ, Sext12, Sext13,
      Sext21, Sext32, After, AmoSwap;
    WideF7(f7);
    DecodeEncodeR(f7 as bv32, rs2, rs1, f3, rd, 0x2f);
  }

  /** The exchange as a 4-byte load into rd followed by a 4-byte store of rs2 at the same address, rd and
      pc changing only when both succeed. */
  predicate Exchanges(o: Outcome, h: Hart, b: Bus, va: bv64, x: bv64, rd: bv5) {
    var l := LoadPart(h, b, va, 4, 2, rd);
    && Loads(l, h, b, va, 4, 2, rd)
    && if l.next.Err? then o == l
       else
         var h1 := l.hart.(regs := h.regs, pc := h.pc);
         var s := StorePart(h1, l.bus, va, x);
         && Stores(s, h1, l.bus, va, 4, x)
         && o == if s.next.Err? then s else s.(hart := s.hart.(regs := l.hart.regs))
  }

  lemma AmoRuns(i: Instruction, h: Hart, b: Bus)
    requires SwapEncoding(i)
    ensures Exchanges(Commit(AmoSwap(i, h, b, After(h))), h, b, h.Reg(i.rs1), h.Reg(i.rs2), i.rd)
  {
    hide Loads, Stores, CpuRead, CpuWrite, SwapEncoding, SextWord, Plus;
    var va, x := h.Reg(i.rs1), h.Reg(i.rs2);
    var r := CpuRead(h, b, va, 4);
    var l := LoadPart(h, b, va, 4, 2, i.rd);
    LoadPartLoads(h, b, va, 4, 2, i.rd);
    if r.value.Ok? {
      StorePartStores(r.hart, r.bus, va, x);
      ReadKeeps(h, b, va);
      WriteKeeps(r.hart, r.bus, va, x);
      assert l.hart.(regs := h.regs, pc := h.pc) == r.hart;
    }
  }

  function StorePart(h: Hart, b: Bus, va: bv64, x: bv64): Outcome {
    var w := CpuWrite(h, b, va, 4, x);
    match w.result
    case Err(e) => Outcome(Err(e), w.hart, w.bus)
    case Ok(_) => Outcome(Ok(After(h)), w.hart.(pc := After(h)), w.bus)
  }

  lemma ReadKeeps(h: Hart, b: Bus, va: bv64)
    ensures CpuRead(h, b, va, 4).hart == h.(tlb := CpuRead(h, b, va, 4).hart.tlb)
  {
    hide Mmu.Translate, SystemBus.Read, ToWord;
  }

  lemma WriteKeeps(h: Hart, b: Bus, va: bv64, x: bv64)
    ensures CpuWrite(h, b, va, 4, x).hart == h.(tlb := CpuWrite(h, b, va, 4, x).hart.tlb)
  {
    hide Mmu.Translate, SystemBus.Write, FromWord;
  }

  lemma StorePartStores(h: Hart, b: Bus, va: bv64, x: bv64)
    ensures Stores(StorePart(h, b, va, x), h, b, va, 4, x)
  {
    hide Mmu.Translate, SystemBus.Write, FromWord, After;
  }

  /** AMOSWAP.W (funct5 1, funct3 2) exchanges rs2 with the word at rs1; every other AMO is rejected. */
  lemma AmoMeans(f7: bv7, rs2: bv5, rs1: bv5, f3: bv3, rd: bv5, h: Hart, b: Bus)
    ensures var o := Perform(EncodeR(f7 as bv32, rs2, rs1, f3, rd, 0x2f), h, b);
            if f3 == 2 && (f7 == 4 || f7 == 5 || f7 == 6 || f7 == 7)
            then Exchanges(o, h, b, h.Reg(rs1), h.Reg(rs2), rd)
            else o == Outcome(Err(IllegalInstruction), h, b)
  {
    hide Perform, Execute, Decode, EncodeR, Opcode, After, Exchanges, CpuRead, CpuWrite, SextWord;
    var w := EncodeR(f7 as bv32, rs2, rs1, f3, rd, 0x2f);
    ExecutesAmo(f7, rs2, rs1, f3, rd, h, b);
    Executes(w, 0x2f, h, b);
    Funct5(f7);
    if SwapEncoding(Decode(w)) {
      AmoRuns(Decode(w), h, b);
    }
  }

  // ---------- fetch ----------

  /** The fetch at pc: translated for execution, then a 4-byte read whose number the word holds; only the
      TLB can change. */
  lemma FetchMeans(h: Hart, b: Bus)
    ensures var f := Fetch(h, b);
            var t := Mmu.Translate(h.tlb, b, h.csrs[0x180], h.pc, Sv39Bits.X);
            && f.hart == h.(tlb := t.tlb)
            && match t.pa
               case Err(e) => f.word == Err(e)
               case Ok(pa) =>
                 match SystemBus.Read(b, pa as int, 4).value
                 case Err(e) => f.word == Err(e)
                 case Ok(v) => f.word.Ok? && ValueOf(f.word.value as bv64, 4) == v
  {
    hide Mmu.Translate, SystemBus.Read, ToWord, LowWord, ValueOf;
    Pow256Values();
    var t := Mmu.Translate(h.tlb, b, h.csrs[0x180], h.pc, Sv39Bits.X);
    if t.pa.Ok? {
      var r := SystemBus.Read(b, t.pa.value as int, 4);
      if r.value.Ok? {
        WordFetched(r.value.value);
      }
    }
  }

  lemma WordFetched(v: u64)
    requires v < TWO_32
    ensures ValueOf(LowWord(ToWord(v)) as bv64, 4) == v
  {
    hide ToWord, LowWord, ValueOf, Cut, Mask, FromWord;
    Pow256Values();
    var x := ToWord(v);
    WordCut(x);
    MaskValues();
    ShortValue(v, 4);
    CutNumber(x, 4);
    LowNumber(Cut(x, 0xffff_ffff));
    LowIs(Cut(x, 0xffff_ffff));
    ValueBound(x);
  }

  lemma ValueBound(x: bv64)
    ensures ValueOf(x, 4) < TWO_32
  {
    hide ByteOf, Drop;
    Pow256Values();
  }

  lemma LowIs(x: bv64)
    ensures LowValue(x) == ValueOf(x, 4)
  {
  }

  lemma WordCut(x: bv64)
    ensures LowWord(x) as bv64 == Cut(x, 0xffff_ffff)
  {
  }

  // ---------- everything else ----------

  /** FENCE goes on; an unassigned major opcode is rejected without effect. */
  lemma OtherOpcodes(i: Instruction, h: Hart, b: Bus, next: bv64)
    ensures i.opcode == 0x0f ==> Execute(i, h, b, next) == Outcome(Ok(next), h, b)
    ensures i.opcode !in {0x03, 0x0f, 0x13, 0x17, 0x1b, 0x23, 0x2f, 0x33, 0x37, 0x3b, 0x63, 0x67, 0x6f, 0x73} ==>
              Execute(i, h, b, next) == Outcome(Err(IllegalInstruction), h, b)
  {
    hide Load, Store, AmoSwap, System, Branch, OpImm, OpImm32, Op, Op32, Compute, Add, Even;
  }

  function LowHalf(w: bv32): bv16 {
    (w % 0x1_0000) as bv16
  }

  lemma HalfIs(w: bv32)
    ensures Machine.Half(w) == LowHalf(w)
  {
    HalfBitsAre(w);
  }

  lemma HalfBitsAre(w: bv32)
    ensures w & 0xffff == w % 0x1_0000
  {
  }

  lemma FullIs(w: bv32)
    ensures IsFull(w) <==> w % 4 == 3
  {
  }

  lemma NextIs(h: Hart)
    ensures Rvc.Next(h) == Plus(h.pc, 2)
  {
  }

  /** A fetched word that does not end in 11 runs as the expansion of its low half, with the next
      instruction two bytes on; the odd register jump is the exception. */
  lemma CompressedMeans(w: bv32, h: Hart, b: Bus)
    requires w % 4 != 3 && h.regs[0] == 0
    requires !(Rvc.JumpsToRegister(LowHalf(w)) && Rvc.Odd(h.Reg(Rvc.CRd(LowHalf(w)))))
    ensures var o := Perform(w, h, b);
            match Rvc.Expand(LowHalf(w))
            case Some(x) => o == Commit(Execute(Decode(x), h, b, Plus(h.pc, 2)))
            case None => o.next.Err? && o.hart == h && o.bus == b
  {
    hide IsFull, Machine.Half, LowHalf, Execute, Decode, Rvc.CExecute, Rvc.Expand, Rvc.JumpsToRegister, Rvc.Odd,
      Rvc.CRd, Rvc.Next, Plus;
    HalfIs(w);
    FullIs(w);
    NextIs(h);
    Rvc.CompressedIsExpansion(LowHalf(w), h, b);
  }
}
