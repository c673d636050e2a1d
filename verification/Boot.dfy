/** Power-on to kernel entry (emulator.rs): the reset code at 0x1000, run by any number of harts in any
    interleaving. */
module Boot {
  import opened Base
  import opened Words
  import opened Memory
  import opened HartState
  import opened Encoding
  import opened Rv64
  import opened Machine
  import opened Isa
  import opened Smp
  import AddressMap
  import IsaMemory
  import IsaSystem
  import Mmu
  import Sv39Bits
  import SystemBus
  import Trap
  import TrapLaws
  import Virtio

  // ---------- the reset code in memory ----------

  /** The machine's memories with the reset code in place and nothing mapped over it. */
  predicate BootBus(b: Bus, m: Mem) {
    && b.mem == m && m.bootloader == Region(0x1000, BOOTLOADER)
    && m.ram.start >= 0x1028 && m.stack.start >= 0x1028
  }

  lemma BootSelected(b: Bus, m: Mem, off: nat, n: nat)
    requires BootBus(b, m) && off + n <= 40 && n > 0
    ensures AddressMap.Select(b.Layout(), 0x1000 + off, n) == Some((AddressMap.BootDev, off))
  {
  }

  lemma BootRead(b: Bus, m: Mem, off: nat, n: nat)
    requires BootBus(b, m) && off + n <= 40 && (n == 4 || n == 8)
    ensures SystemBus.Read(b, 0x1000 + off, n) == SystemBus.Loaded(Ok(LoadLE(BOOTLOADER, off, n)), b)
  {
    hide AddressMap.Select, LoadLE;
    BootSelected(b, m, off, n);
  }

  /** auipc t0, 0; addi a2, t0, 40; csrr a0, mhartid; ld a1, 32(t0); ld t0, 24(t0); jr t0. */
  function BootWord(k: nat): bv32 {
    match k
    case 0 => 0x0000_0297 case 1 => 0x0282_8613 case 2 => 0xf140_2573 case 3 => 0x0202_b583 case 4 => 0x0182_b283
    case _ => 0x0002_8067
  }

  /** Four bytes, least significant first. */
  function Bytes4(b0: u8, b1: u8, b2: u8, b3: u8): u64 {
    b0 + 256 * (b1 + 256 * (b2 + 256 * b3))
  }

  lemma ToWordOfBytes(b0: u8, b1: u8, b2: u8, b3: u8)
    ensures ToWord(Bytes4(b0, b1, b2, b3)) == Join(b0, Join(b1, Join(b2, Join(b3, 0))))
  {
    hide Join;
    var v3: nat := b3;
    var v2: nat := b2 + 256 * b3;
    var v1: nat := b1 + 256 * v2;
    ZeroWord(4);
    assert WordOf(v3, 5) == Join(b3, WordOf(0, 4));
    assert WordOf(v2, 6) == Join(b2, WordOf(v3, 5));
    assert WordOf(v1, 7) == Join(b1, WordOf(v2, 6));
  }

  lemma LoadFour(s: seq<u8>, off: nat, b0: u8, b1: u8, b2: u8, b3: u8)
    requires off + 4 <= |s| && s[off] == b0 && s[off + 1] == b1 && s[off + 2] == b2 && s[off + 3] == b3
    ensures LoadLE(s, off, 4) == Bytes4(b0, b1, b2, b3)
  {
    assert LoadLE(s, off + 3, 1) == b3;
    assert LoadLE(s, off + 2, 2) == b2 + 256 * LoadLE(s, off + 3, 1);
    assert LoadLE(s, off + 1, 3) == b1 + 256 * LoadLE(s, off + 2, 2);
  }

  lemma Joined0() ensures LowWord(Join(0x97, Join(0x02, Join(0x00, Join(0x00, 0))))) == 0x0000_0297 {}
  lemma Joined1() ensures LowWord(Join(0x13, Join(0x86, Join(0x82, Join(0x02, 0))))) == 0x0282_8613 {}
  lemma Joined2() ensures LowWord(Join(0x73, Join(0x25, Join(0x40, Join(0xf1, 0))))) == 0xf140_2573 {}
  lemma Joined3() ensures LowWord(Join(0x83, Join(0xb5, Join(0x02, Join(0x02, 0))))) == 0x0202_b583 {}
  lemma Joined4() ensures LowWord(Join(0x83, Join(0xb2, Join(0x82, Join(0x01, 0))))) == 0x0182_b283 {}
  lemma Joined5() ensures LowWord(Join(0x67, Join(0x80, Join(0x02, Join(0x00, 0))))) == 0x0002_8067 {}

  lemma Code0()
    ensures LoadLE(BOOTLOADER, 0, 4) == Bytes4(0x97, 0x02, 0x00, 0x00)
  {
    hide LoadLE, Bytes4;
    LoadFour(BOOTLOADER, 0, 0x97, 0x02, 0x00, 0x00);
  }

  lemma Code1()
    ensures LoadLE(BOOTLOADER, 4, 4) == Bytes4(0x13, 0x86, 0x82, 0x02)
  {
    hide LoadLE, Bytes4;
    LoadFour(BOOTLOADER, 4, 0x13, 0x86, 0x82, 0x02);
  }

  lemma Code2()
    ensures LoadLE(BOOTLOADER, 8, 4) == Bytes4(0x73, 0x25, 0x40, 0xf1)
  {
    hide LoadLE, Bytes4;
    LoadFour(BOOTLOADER, 8, 0x73, 0x25, 0x40, 0xf1);
  }

  lemma Code3()
    ensures LoadLE(BOOTLOADER, 12, 4) == Bytes4(0x83, 0xb5, 0x02, 0x02)
  {
    hide LoadLE, Bytes4;
    LoadFour(BOOTLOADER, 12, 0x83, 0xb5, 0x02, 0x02);
  }

  lemma Code4()
    ensures LoadLE(BOOTLOADER, 16, 4) == Bytes4(0x83, 0xb2, 0x82, 0x01)
  {
    hide LoadLE, Bytes4;
    LoadFour(BOOTLOADER, 16, 0x83, 0xb2, 0x82, 0x01);
  }

  lemma Code5()
    ensures LoadLE(BOOTLOADER, 20, 4) == Bytes4(0x67, 0x80, 0x02, 0x00)
  {
    hide LoadLE, Bytes4;
    LoadFour(BOOTLOADER, 20, 0x67, 0x80, 0x02, 0x00);
  }

  lemma CodeWord(k: nat, b0: u8, b1: u8, b2: u8, b3: u8)
    requires k < 6 && LoadLE(BOOTLOADER, 4 * k, 4) == Bytes4(b0, b1, b2, b3)
    ensures LowWord(ToWord(LoadLE(BOOTLOADER, 4 * k, 4))) == LowWord(Join(b0, Join(b1, Join(b2, Join(b3, 0)))))
  {
    hide LoadLE, ToWord, LowWord, Join;
    ToWordOfBytes(b0, b1, b2, b3);
  }

  lemma FetchedWord(k: nat)
    requires k < 6
    ensures 0 <= LoadLE(BOOTLOADER, 4 * k, 4) < TWO_64
    ensures LowWord(ToWord(LoadLE(BOOTLOADER, 4 * k, 4))) == BootWord(k)
  {
    hide LoadLE, ToWord, LowWord, Join, Bytes4;
    match k
    case 0 => Joined0(); Code0(); CodeWord(0, 0x97, 0x02, 0x00, 0x00);
    case 1 => Joined1(); Code1(); CodeWord(1, 0x13, 0x86, 0x82, 0x02);
    case 2 => Joined2(); Code2(); CodeWord(2, 0x73, 0x25, 0x40, 0xf1);
    case 3 => Joined3(); Code3(); CodeWord(3, 0x83, 0xb5, 0x02, 0x02);
    case 4 => Joined4(); Code4(); CodeWord(4, 0x83, 0xb2, 0x82, 0x01);
    case _ => Joined5(); Code5(); CodeWord(5, 0x67, 0x80, 0x02, 0x00);
  }

  // ---------- the hart at each stage ----------

  function Pc(k: nat): bv64 {
    match k
    case 0 => 0x1000 case 1 => 0x1004 case 2 => 0x1008 case 3 => 0x100c case 4 => 0x1010 case 5 => 0x1014
    case _ => 0x8000_0000
  }

  /** Hart i after k of the six instructions: t0 is x5, a0 to a2 are x10 to x12. */
  predicate BootHart(h: Hart, i: nat, k: nat)
    requires i < MAX_HARTS
  {
    && h.mode == 3 && h.attached && h.pc == Pc(k) && h.regs[0] == 0
    && h.id == HartId(i) && h.csrs[0xf14] == HartId(i) && h.csrs[0x180] == 0 && h.csrs[0x300] == 0xa_0000_0000
    && (k >= 1 ==> h.regs[5] == if k >= 5 then 0x8000_0000 else 0x1000)
    && (k >= 2 ==> h.regs[12] == 0x1028)
    && (k >= 3 ==> h.regs[10] == HartId(i))
    && (k >= 4 ==> h.regs[11] == 0x8700_0000)
  }

  /** In M with interrupts off, sampling changes mip and nothing else. */
  lemma QuietBoundary(h: Hart, b: Bus)
    requires Wired(h, b) && h.mode == 3 && !Trap.Mie(h.csrs[0x300])
    ensures Boundary(h, b) == h.SetCsr(0x344, Boundary(h, b).csrs[0x344])
  {
    hide Trap.CheckInterrupt, Trap.SampledMip, Trap.Enabled, Trap.Pending, Trap.BitAt, Trap.DelegationWord, Trap.Mie,
      Trap.Sie, TimerLine, ExternalLine;
    Trap.CheckIsExact(h, TimerLine(h, b), ExternalLine(h, b));
  }

  lemma ResetStatus()
    ensures !Trap.Mie(0xa_0000_0000) && Sv39Bits.Bare(0)
  {
  }

  lemma PcNumber(k: nat)
    requires k < 6
    ensures Pc(k) as int == 0x1000 + 4 * k
  {
  }

  lemma BareTranslation(h: Hart, b: Bus, va: bv64, acc: Sv39Bits.Access)
    requires h.csrs[0x180] == 0
    ensures CpuTranslate(h, b, va, acc) == Mmu.Translated(Ok(va), h.tlb)
  {
    hide Sv39Bits.Bare, Sv39Bits.Sv39, Mmu.Lookup, Mmu.Miss;
    ResetStatus();
  }

  lemma BootFetch(h: Hart, b: Bus, m: Mem, k: nat)
    requires k < 6 && BootBus(b, m) && h.csrs[0x180] == 0 && h.pc == Pc(k)
    ensures Fetch(h, b) == Fetched(Ok(BootWord(k)), h)
  {
    hide Pc, BootWord, CpuTranslate, SystemBus.Read, LoadLE, ToWord, LowWord, BootBus;
    BareTranslation(h, b, h.pc, Sv39Bits.X);
    PcNumber(k);
    BootRead(b, m, 4 * k, 4);
    FetchedWord(k);
  }

  lemma TickIsQuiet(h: Hart, b: Bus, input: seq<u8>, m: Mem)
    requires BootBus(b, m)
    ensures var (h1, b1) := Tick(h, b, input);
            BootBus(b1, m) && h1 == h.(pollCountdown := h1.pollCountdown)
  {
  }

  /** The next word of the reset code reaches execution with nothing else changed. */
  lemma BootFetching(h: Hart, b: Bus, input: seq<u8>, i: nat, k: nat, m: Mem)
    requires i < MAX_HARTS && k < 6 && BootHart(h, i, k) && BootBus(b, m) && Wired(h, b)
    ensures var f := Fetching(h, b, input);
            f.word == Ok(BootWord(k)) && BootHart(f.hart, i, k) && BootBus(Ticked(h, b, input), m)
  {
    hide Tick, Boundary, Fetch, BootBus, Pc, BootWord, HartId, Trap.Mie;
    TickIsQuiet(h, b, input, m);
    var (h1, b1) := Tick(h, b, input);
    ResetStatus();
    QuietBoundary(h1, b1);
    BootFetch(Boundary(h1, b1), b1, m, k);
  }

  // ---------- one instruction at a time ----------

  lemma BootEncodings()
    ensures EncodeU(0, 5, 0x17) == BootWord(0)
    ensures EncodeI(40, 5, 0, 12, 0x13) == BootWord(1)
    ensures EncodeI(0xf14, 0, 2, 10, 0x73) == BootWord(2)
    ensures EncodeI(32, 5, 3, 11, 0x03) == BootWord(3)
    ensures EncodeI(24, 5, 3, 5, 0x03) == BootWord(4)
    ensures EncodeI(0, 5, 0, 0, 0x67) == BootWord(5)
  {
  }

  lemma BootImmediates()
    ensures FitsUpper(0) && Fits12(40) && Fits12(32) && Fits12(24) && Fits12(0)
    ensures Plus(0x1000, Sext32(0)) == 0x1000 && Plus(0x1000, Sext32(40)) == 0x1028
    ensures Plus(0x1000, Sext32(32)) == 0x1020 && Plus(0x1000, Sext32(24)) == 0x1018
    ensures EvenDown(Plus(0x8000_0000, Sext32(0))) == 0x8000_0000
  {
  }

  lemma NextPc(k: nat)
    requires k < 5
    ensures Plus(Pc(k), 4) == Pc(k + 1)
  {
  }

  lemma RunAuipc(h: Hart, b: Bus, i: nat)
    requires i < MAX_HARTS && BootHart(h, i, 0)
    ensures var o := Perform(BootWord(0), h, b); o.next.Ok? && o.bus == b && BootHart(o.hart, i, 1)
  {
    hide Perform, BootWord, Plus, EncodeU, EncodeI, Sext32, HartId, EvenDown, FitsUpper, Fits12;
    BootEncodings();
    BootImmediates();
    NextPc(0);
    UpperMeans(0, 5, h, b);
  }

  lemma RunAddi(h: Hart, b: Bus, i: nat)
    requires i < MAX_HARTS && BootHart(h, i, 1)
    ensures var o := Perform(BootWord(1), h, b); o.next.Ok? && o.bus == b && BootHart(o.hart, i, 2)
  {
    hide Perform, BootWord, Plus, EncodeU, EncodeI, Sext32, HartId, EvenDown, FitsUpper, Fits12, Add, AluMeans;
    BootEncodings();
    BootImmediates();
    NextPc(1);
    PlusIs(0x1000, Sext32(40));
    OpImmMeans(ADD, 40, 5, 12, h, b);
  }

  lemma RunCsrr(h: Hart, b: Bus, i: nat)
    requires i < MAX_HARTS && BootHart(h, i, 2)
    ensures var o := Perform(BootWord(2), h, b); o.next.Ok? && o.bus == b && BootHart(o.hart, i, 3)
  {
    hide Perform, BootWord, Plus, EncodeU, EncodeI, Sext32, HartId, EvenDown, FitsUpper, Fits12, Trap.CsrRead,
      Trap.CsrWrite, IsaSystem.Combined;
    BootEncodings();
    NextPc(2);
    CsrNumber();
    IsaSystem.CsrMeans(0xf14, 0, 2, 10, h, b);
    TrapLaws.CsrReads(h, 0xf14);
    var h1 := h.SetReg(10, Trap.CsrRead(h, 0xf14));
    TrapLaws.CsrWrites(h1, 0xf14, IsaSystem.Combined(2, Trap.CsrRead(h, 0xf14), h.Reg(0)));
  }

  lemma CsrNumber()
    ensures (0xf14 as bv12) as int == 0xf14 && (0xf14 as bv12) as bv32 == 0xf14
  {
  }

  lemma EntryWord()
    ensures LoadLE(BOOTLOADER, 24, 8) == Bytes4(0, 0, 0, 0x80)
  {
    ZeroTail(28);
    assert LoadLE(BOOTLOADER, 27, 5) == 0x80 + 256 * LoadLE(BOOTLOADER, 28, 4);
    assert LoadLE(BOOTLOADER, 26, 6) == 256 * LoadLE(BOOTLOADER, 27, 5);
    assert LoadLE(BOOTLOADER, 25, 7) == 256 * LoadLE(BOOTLOADER, 26, 6);
  }

  lemma TreeWord()
    ensures LoadLE(BOOTLOADER, 32, 8) == Bytes4(0, 0, 0, 0x87)
  {
    ZeroTail(36);
    assert LoadLE(BOOTLOADER, 35, 5) == 0x87 + 256 * LoadLE(BOOTLOADER, 36, 4);
    assert LoadLE(BOOTLOADER, 34, 6) == 256 * LoadLE(BOOTLOADER, 35, 5);
    assert LoadLE(BOOTLOADER, 33, 7) == 256 * LoadLE(BOOTLOADER, 34, 6);
  }

  lemma ZeroTail(off: nat)
    requires off == 28 || off == 36
    ensures LoadLE(BOOTLOADER, off, 4) == 0
  {
    LoadFour(BOOTLOADER, off, 0, 0, 0, 0);
  }

  lemma JoinedDoubles()
    ensures Join(0, Join(0, Join(0, Join(0x87, 0)))) == 0x8700_0000
    ensures Join(0, Join(0, Join(0, Join(0x80, 0)))) == 0x8000_0000
  {
  }

  lemma DoubleConstants()
    ensures 0 <= LoadLE(BOOTLOADER, 32, 8) < TWO_64 && 0 <= LoadLE(BOOTLOADER, 24, 8) < TWO_64
    ensures ToWord(LoadLE(BOOTLOADER, 32, 8)) == 0x8700_0000
    ensures ToWord(LoadLE(BOOTLOADER, 24, 8)) == 0x8000_0000
  {
    hide LoadLE, ToWord, Join;
    EntryWord();
    TreeWord();
    ToWordOfBytes(0, 0, 0, 0x87);
    ToWordOfBytes(0, 0, 0, 0x80);
    JoinedDoubles();
  }

  lemma TableNumbers()
    ensures (0x1020 as bv64) as int == 0x1020 && (0x1018 as bv64) as int == 0x1018
  {
  }

  lemma LoadsDouble(o: Outcome, h: Hart, b: Bus, m: Mem, va: bv64, off: nat, rd: bv5)
    requires BootBus(b, m) && h.csrs[0x180] == 0 && off + 8 <= 40 && va as int == 0x1000 + off
    requires IsaMemory.Loads(o, h, b, va, 8, 3, rd)
    ensures 0 <= LoadLE(BOOTLOADER, off, 8) < TWO_64
    ensures o == Outcome(Ok(After(h)), h.SetReg(rd, ToWord(LoadLE(BOOTLOADER, off, 8))).(pc := After(h)), b)
  {
    hide CpuTranslate, Mmu.Translate, SystemBus.Read, LoadLE, ToWord, Plus, IsaMemory.LoadedAs, BootBus;
    BareTranslation(h, b, va, Sv39Bits.R);
    TranslateIs(h, b, va);
    BootRead(b, m, off, 8);
    Pow256Values();
  }

  lemma TranslateIs(h: Hart, b: Bus, va: bv64)
    ensures CpuTranslate(h, b, va, Sv39Bits.R) == Mmu.Translate(h.tlb, b, h.csrs[0x180], va, Sv39Bits.R)
  {
    hide Mmu.Translate;
  }

  lemma RunLoadA1(h: Hart, b: Bus, m: Mem, i: nat)
    requires i < MAX_HARTS && BootHart(h, i, 3) && BootBus(b, m)
    ensures var o := Perform(BootWord(3), h, b); o.next.Ok? && o.bus == b && BootHart(o.hart, i, 4)
  {
    hide Perform, BootWord, Plus, EncodeU, EncodeI, Sext32, HartId, EvenDown, FitsUpper, Fits12, LoadLE, ToWord,
      BootBus, IsaMemory.Loads;
    BootEncodings();
    BootImmediates();
    NextPc(3);
    IsaMemory.LoadMeans(32, 5, 3, 11, h, b);
    TableNumbers();
    DoubleConstants();
    LoadsDouble(Perform(BootWord(3), h, b), h, b, m, 0x1020, 32, 11);
  }

  lemma RunLoadT0(h: Hart, b: Bus, m: Mem, i: nat)
    requires i < MAX_HARTS && BootHart(h, i, 4) && BootBus(b, m)
    ensures var o := Perform(BootWord(4), h, b); o.next.Ok? && o.bus == b && BootHart(o.hart, i, 5)
  {
    hide Perform, BootWord, Plus, EncodeU, EncodeI, Sext32, HartId, EvenDown, FitsUpper, Fits12, LoadLE, ToWord,
      BootBus, IsaMemory.Loads;
    BootEncodings();
    BootImmediates();
    NextPc(4);
    IsaMemory.LoadMeans(24, 5, 3, 5, h, b);
    TableNumbers();
    DoubleConstants();
    LoadsDouble(Perform(BootWord(4), h, b), h, b, m, 0x1018, 24, 5);
  }

  lemma RunJr(h: Hart, b: Bus, i: nat)
    requires i < MAX_HARTS && BootHart(h, i, 5)
    ensures var o := Perform(BootWord(5), h, b); o.next.Ok? && o.bus == b && BootHart(o.hart, i, 6)
  {
    hide Perform, BootWord, Plus, EncodeU, EncodeI, Sext32, HartId, EvenDown, FitsUpper, Fits12;
    BootEncodings();
    BootImmediates();
    JalrMeans(0, 5, 0, h, b);
  }

  /** One step of one hart takes it one stage further and leaves every memory alone. */
  lemma BootStep(h: Hart, b: Bus, input: seq<u8>, i: nat, k: nat, m: Mem)
    requires i < MAX_HARTS && k < 6 && BootHart(h, i, k) && BootBus(b, m) && Wired(h, b)
    ensures var o := Step(h, b, input); o.next.Ok? && BootHart(o.hart, i, k + 1) && BootBus(o.bus, m)
  {
    hide Fetching, Ticked, Perform, BootWord, BootHart, BootBus;
    BootFetching(h, b, input, i, k, m);
    var h1, b1 := Fetching(h, b, input).hart, Ticked(h, b, input);
    match k
    case 0 => RunAuipc(h1, b1, i);
    case 1 => RunAddi(h1, b1, i);
    case 2 => RunCsrr(h1, b1, i);
    case 3 => RunLoadA1(h1, b1, m, i);
    case 4 => RunLoadT0(h1, b1, m, i);
    case _ => RunJr(h1, b1, i);
  }

  // ---------- any interleaving ----------

  /** Every hart i has run done[i] of the six instructions. */
  predicate Booting(s: Board, done: seq<nat>, m: Mem) {
    && |s.harts| == |done| <= MAX_HARTS && BootBus(s.bus, m)
    && forall i :: 0 <= i < |done| ==> BootHart(s.harts[i], i, done[i])
  }

  lemma BootTurn(s: Board, t: Turn, done: seq<nat>, m: Mem)
    requires Ready(s) && Booting(s, done, m) && t.hart < |done| && done[t.hart] < 6
    ensures Acts(s, t).next.Ok?
    ensures Booting(Advance(s, t), done[t.hart := done[t.hart] + 1], m)
  {
    hide Step, BootHart, BootBus, HartInvariant;
    BootStep(s.harts[t.hart], s.bus, t.input, t.hart, done[t.hart], m);
  }

  /** Whatever the interleaving, a hart that has had k <= 6 turns has run k of the instructions. */
  lemma {:induction false} BootRun(s: Board, turns: seq<Turn>, done: seq<nat>, m: Mem)
    requires Ready(s) && Booting(s, done, m) && Schedule(turns, |done|)
    requires forall i :: 0 <= i < |done| ==> done[i] + TurnsOf(turns, i) <= 6
    ensures Failure(s, turns).None?
    ensures BootBus(Run(s, turns).bus, m)
    ensures forall i :: 0 <= i < |done| ==> BootHart(Run(s, turns).harts[i], i, done[i] + TurnsOf(turns, i))
    decreases |turns|
  {
    hide Acts, Advance, Ready, BootHart, BootBus;
    if turns != [] {
      var t := turns[0];
      BootTurn(s, t, done, m);
      BootRun(Advance(s, t), turns[1..], done[t.hart := done[t.hart] + 1], m);
    }
  }

  /** The image is loaded at its address and padded with zeros to a page, with 128 MB of zeroed stack right
      above it; the disk image is padded with zeros to at least 8 MB. */
  lemma PowerOnLayout(program: seq<u8>, address: nat, disk: seq<u8>, ncpu: nat)
    ensures var b := PowerOnBus(program, address, disk, ncpu);
            var ram, stack := b.mem.ram, b.mem.stack;
            && ram.start == address && program <= ram.bytes
            && |ram.bytes| % 4096 == 0 && |ram.bytes| < |program| + 4096
            && (forall i :: |program| <= i < |ram.bytes| ==> ram.bytes[i] == 0)
            && stack.start == address + |ram.bytes| && |stack.bytes| == 128 * 1024 * 1024
            && (forall i :: 0 <= i < |stack.bytes| ==> stack.bytes[i] == 0)
            && |b.virtio.disk| >= 8 * 1024 * 1024
            && (forall i: nat :: Virtio.DiskAt(b.virtio.disk, i) == Virtio.DiskAt(disk, i))
  {
    hide Virtio.Grow;
  }

  /** A hart at reset: pc 0x1000, mode M, mstatus 0xa_0000_0000, mie 0x222, its number in mhartid, and
      nothing else but zeros and invalid entries. */
  lemma ResetState(i: nat)
    requires i < MAX_HARTS
    ensures var h := NewSmpHart(i);
            && h.pc == 0x1000 && h.mode == 3 && h.id as int == i && h.csrs[0xf14] as int == i
            && h.csrs[0x300] == 0xa_0000_0000 && h.csrs[0x304] == 0x222 && h.attached && h.pollCountdown == 0
            && (forall a :: 0 <= a < 4096 && a != 0xf14 && a != 0x300 && a != 0x304 ==> h.csrs[a] == 0)
            && (forall r :: 0 <= r < 32 ==> h.regs[r] == 0)
            && (forall e :: 0 <= e < Mmu.TLB_ENTRIES ==> !h.tlb[e].valid)
  {
    hide HartId;
  }

  lemma BootStart(program: seq<u8>, address: nat, disk: seq<u8>, ncpu: nat)
    requires ncpu <= MAX_HARTS && address >= 0x1028
    ensures var b := PowerOnBus(program, address, disk, ncpu);
            Booting(PowerOn(ncpu, b), seq(ncpu, _ => 0), b.mem) && |b.clint.mtimecmp| == ncpu
  {
    hide Virtio.Grow, HartId;
    assert Padded(BOOTLOADER, AddressMap.BOOTLOADER_SIZE) == BOOTLOADER;
  }

  /** Memory is as it was loaded, and every hart i is in M at 0x8000_0000 with a0 = i, a1 = 0x8700_0000
      and a2 = 0x1028. */
  predicate AtEntry(s: Board, n: nat, m: Mem) {
    && s.bus.mem == m && |s.harts| == n
    && forall i :: 0 <= i < n ==>
         var h := s.harts[i];
         && h.pc == 0x8000_0000 && h.mode == 3 && h.regs[10] as int == i
         && h.regs[11] == 0x8700_0000 && h.regs[12] == 0x1028
  }

  /** From power-on, for any image above the reset code, any number of harts and any interleaving in which
      every hart has had six turns, no step has failed and every hart is at the kernel's entry. */
  lemma EveryHartBoots(program: seq<u8>, address: nat, disk: seq<u8>, ncpu: nat, turns: seq<Turn>)
    requires ncpu <= MAX_HARTS && address >= 0x1028 && Schedule(turns, ncpu)
    requires forall i :: 0 <= i < ncpu ==> TurnsOf(turns, i) == 6
    ensures var b := PowerOnBus(program, address, disk, ncpu);
            && Ready(PowerOn(ncpu, b)) && Failure(PowerOn(ncpu, b), turns).None?
            && AtEntry(Run(PowerOn(ncpu, b), turns), ncpu, b.mem)
  {
    hide PowerOnBus, PowerOn, Ready, HartId;
    var b := PowerOnBus(program, address, disk, ncpu);
    BootStart(program, address, disk, ncpu);
    PowerOnReady(ncpu, b);
    BootRun(PowerOn(ncpu, b), turns, seq(ncpu, _ => 0), b.mem);
  }
}
