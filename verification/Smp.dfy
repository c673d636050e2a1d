/** Several harts on one bus (emulator.rs): what holds in every run, whatever the interleaving. */
module Smp {
  import opened Base
  import opened Words
  import opened HartState
  import opened Encoding
  import opened Rv64
  import opened Machine
  import Rvc
  import Mmu
  import Sv39Bits
  import Trap
  import SystemBus
  import AddressMap
  import Clint
  import Memory
  import Plic
  import Uart
  import Virtio
  import VirtioQueue

  // ---------- one step of one hart ----------

  /** The step executes an instruction that empties the TLB. */
  predicate StepFences(h: Hart, b: Bus, input: seq<u8>)
    requires Wired(h, b)
  {
    var f := Fetching(h, b, input);
    f.word.Ok? && IsFull(f.word.value) && Fences(Decode(f.word.value))
  }

  lemma TickProgress(h: Hart, b: Bus, input: seq<u8>)
    requires HartInvariant(h)
    ensures Progress(h, Tick(h, b, input).0, Ticked(h, b, input))
  {
    hide Mmu.WellFormed, Mmu.Matches;
  }

  lemma BoundaryProgress(h: Hart, b: Bus)
    requires HartInvariant(h) && Wired(h, b)
    ensures Progress(h, Boundary(h, b), b)
  {
    hide Progress, HartInvariant, Trap.CheckInterrupt, Trap.Keeps;
    Trap.CheckKeeps(h, TimerLine(h, b), ExternalLine(h, b));
    CheckKeepsAttached(h, TimerLine(h, b), ExternalLine(h, b));
    KeptIsProgress(h, Boundary(h, b), b);
  }

  lemma CheckKeepsAttached(h: Hart, timer: Option<bool>, external: Option<bool>)
    ensures Trap.CheckInterrupt(h, timer, external).hart.attached == h.attached
  {
    hide Trap.SampledMip, Trap.FirstFrom, Trap.Enabled, Trap.EnterS, Trap.EnterM, Trap.Delegated, Trap.CauseWord;
  }

  lemma FetchProgress(h: Hart, b: Bus)
    requires HartInvariant(h)
    ensures Progress(h, Fetch(h, b).hart, b)
  {
    hide Progress, HartInvariant, CpuTranslate, SystemBus.Read, ToWord;
    TranslationProgress(h, b, h.pc, Sv39Bits.X);
  }

  lemma FetchingProgress(h: Hart, b: Bus, input: seq<u8>)
    requires HartInvariant(h) && Wired(h, b)
    ensures Progress(h, Fetching(h, b, input).hart, Ticked(h, b, input))
  {
    hide Refills, HartInvariant, Boundary, Fetch, Tick;
    var (h1, b1) := Tick(h, b, input);
    TickProgress(h, b, input);
    var h2 := Boundary(h1, b1);
    BoundaryProgress(h1, b1);
    FetchProgress(h2, b1);
    RefillsTransitive(h, h1, h2, b1);
    RefillsTransitive(h, h2, Fetch(h2, b1).hart, b1);
  }

  /** Committing the pc matters neither to the TLB nor to the CSRs. */
  lemma CommitKeeps(o: Outcome, h: Hart, b: Bus)
    ensures HartInvariant(Commit(o).hart) == HartInvariant(o.hart)
    ensures Flushed(Commit(o).hart) == Flushed(o.hart)
    ensures SameIdentity(h, Commit(o).hart) == SameIdentity(h, o.hart)
    ensures Refills(h, o.hart, b) ==> Refills(h, Commit(o).hart, b)
  {
    hide Mmu.WellFormed, Mmu.Matches;
    if Refills(h, o.hart, b) {
      forall i | 0 <= i < Mmu.TLB_ENTRIES
        ensures OldOrRead(h, Commit(o).hart, b, i)
      {
        assert OldOrRead(h, o.hart, b, i);
      }
    }
  }

  lemma PerformProgress(w: bv32, h: Hart, b: Bus)
    requires HartInvariant(h)
    ensures var h' := Perform(w, h, b).hart;
            && HartInvariant(h') && SameIdentity(h, h')
            && (if IsFull(w) && Fences(Decode(w)) then Flushed(h') else Progress(h, h', b))
  {
    hide Refills, HartInvariant, Execute, Decode, Rvc.CExecute, IsFull, Half, Fences, Add, Commit, Flushed;
    if IsFull(w) {
      ExecuteProgress(Decode(w), h, b, Add(h.pc, 4));
      CommitKeeps(Execute(Decode(w), h, b, Add(h.pc, 4)), h, b);
    } else {
      CompressedProgress(Half(w), h, b);
      CommitKeeps(Rvc.CExecute(Half(w), h, b), h, b);
    }
  }

  /** One step keeps the hart's invariant and identity. It either leaves an empty TLB behind or keeps
      satp and leaves only entries that were there before or were read from the bus of this step. */
  lemma StepProgress(h: Hart, b: Bus, input: seq<u8>)
    requires HartInvariant(h) && Wired(h, b)
    ensures var h' := Step(h, b, input).hart;
            && HartInvariant(h') && SameIdentity(h, h')
            && (if StepFences(h, b, input) then Flushed(h') else Progress(h, h', Ticked(h, b, input)))
  {
    hide Refills, HartInvariant, Boundary, Fetch, Tick, Perform, IsFull, Fences, Decode, Flushed;
    FetchingProgress(h, b, input);
    var f := Fetching(h, b, input);
    var b1 := Ticked(h, b, input);
    if f.word.Ok? {
      PerformProgress(f.word.value, f.hart, b1);
      if !StepFences(h, b, input) {
        RefillsTransitive(h, f.hart, Perform(f.word.value, f.hart, b1).hart, b1);
      }
    }
  }

  // ---------- the bus keeps its address map and timers ----------

  lemma AccessKeepsWiring(h: Hart, b: Bus, va: bv64, n: nat, v: bv64)
    ensures SystemBus.SameWiring(b, CpuRead(h, b, va, n).bus)
    ensures SystemBus.SameWiring(b, CpuWrite(h, b, va, n, v).bus)
  {
    hide Mmu.Translate, SystemBus.Read, SystemBus.Write, ToWord;
  }

  lemma MemoryKeepsWiring(i: Instruction, h: Hart, b: Bus, next: bv64)
    ensures SystemBus.SameWiring(b, Load(i, h, b, next).bus)
    ensures SystemBus.SameWiring(b, Store(i, h, b, next).bus)
    ensures SystemBus.SameWiring(b, AmoSwap(i, h, b, next).bus)
  {
    hide CpuRead, CpuWrite, Address, LoadSize, StoreSize, LoadValue, SextWord;
    AccessKeepsWiring(h, b, Address(h, i.rs1, i.immI), LoadSize(i.funct3), 0);
    AccessKeepsWiring(h, b, Address(h, i.rs1, i.immS), StoreSize(i.funct3), h.Reg(i.rs2));
    var r := CpuRead(h, b, h.Reg(i.rs1), 4);
    AccessKeepsWiring(h, b, h.Reg(i.rs1), 4, 0);
    AccessKeepsWiring(r.hart, r.bus, h.Reg(i.rs1), 4, h.Reg(i.rs2));
  }

  lemma ExecuteKeepsWiring(i: Instruction, h: Hart, b: Bus, next: bv64)
    ensures SystemBus.SameWiring(b, Execute(i, h, b, next).bus)
  {
    hide Load, Store, AmoSwap, CsrOp, Trap.RaiseTrap, Trap.Sret, Trap.Mret, Taken, OpImm, OpImm32, Op, Op32, Add,
      Even;
    MemoryKeepsWiring(i, h, b, next);
  }

  lemma StepKeepsWiring(h: Hart, b: Bus, input: seq<u8>)
    requires HartInvariant(h) && Wired(h, b)
    ensures SystemBus.SameWiring(b, Step(h, b, input).bus)
  {
    hide Refills, HartInvariant, Boundary, Fetch, Tick, Execute, IsFull, Half, Decode, Rvc.CExecute, Rvc.Expand,
      Add, Rvc.JumpsToRegister, Rvc.Odd, Rvc.CRd, Even, Rvc.Next;
    FetchingProgress(h, b, input);
    var f := Fetching(h, b, input);
    var b1 := Ticked(h, b, input);
    if f.word.Ok? {
      var w := f.word.value;
      ExecuteKeepsWiring(Decode(w), f.hart, b1, Add(f.hart.pc, 4));
      CompressedKeepsWiring(Half(w), f.hart, b1);
    }
  }

  lemma CompressedKeepsWiring(c: bv16, h: Hart, b: Bus)
    requires HartInvariant(h)
    ensures SystemBus.SameWiring(b, Rvc.CExecute(c, h, b).bus)
  {
    hide Execute, Decode, Rvc.CExecute, Rvc.Expand, Rvc.JumpsToRegister, Rvc.Odd, Rvc.CRd, Even, Rvc.Next;
    Rvc.CompressedIsExpansion(c, h, b);
    if Rvc.Expand(c).Some? {
      ExecuteKeepsWiring(Decode(Rvc.Expand(c).value), h, b, Rvc.Next(h));
    }
  }

  // ---------- runs ----------

  datatype Board = Board(harts: seq<Hart>, bus: Bus)

  /** Which hart steps, and the host input available to its serial port poll. */
  datatype Turn = Turn(hart: nat, input: seq<u8>)

  predicate ReadyHart(h: Hart, b: Bus) {
    HartInvariant(h) && Wired(h, b)
  }

  predicate Ready(s: Board) {
    forall i :: 0 <= i < |s.harts| ==> ReadyHart(s.harts[i], s.bus)
  }

  /** The outcome of a turn. */
  function Acts(s: Board, t: Turn): Outcome
    requires Ready(s) && t.hart < |s.harts|
  {
    Step(s.harts[t.hart], s.bus, t.input)
  }

  function Advance(s: Board, t: Turn): (r: Board)
    requires Ready(s) && t.hart < |s.harts|
    ensures Ready(r) && |r.harts| == |s.harts| && SystemBus.SameWiring(s.bus, r.bus)
    ensures forall i :: 0 <= i < |s.harts| ==> SameIdentity(s.harts[i], r.harts[i])
  {
    AdvanceReady(s, t);
    var o := Acts(s, t);
    Board(s.harts[t.hart := o.hart], o.bus)
  }

  lemma AdvanceReady(s: Board, t: Turn)
    requires Ready(s) && t.hart < |s.harts|
    ensures var o := Acts(s, t);
            && Ready(Board(s.harts[t.hart := o.hart], o.bus))
            && SameIdentity(s.harts[t.hart], o.hart) && SystemBus.SameWiring(s.bus, o.bus)
  {
    hide Step, HartInvariant, Progress, StepFences, Flushed;
    StepProgress(s.harts[t.hart], s.bus, t.input);
    StepKeepsWiring(s.harts[t.hart], s.bus, t.input);
    var s' := Board(s.harts[t.hart := Acts(s, t).hart], Acts(s, t).bus);
    forall i | 0 <= i < |s.harts|
      ensures ReadyHart(s'.harts[i], s'.bus)
    {
      assert ReadyHart(s.harts[i], s.bus);
    }
  }

  predicate Schedule(turns: seq<Turn>, n: nat) {
    forall k :: 0 <= k < |turns| ==> turns[k].hart < n
  }

  /** Any interleaving; a failing step is the last one. */
  function Run(s: Board, turns: seq<Turn>): (r: Board)
    requires Ready(s) && Schedule(turns, |s.harts|)
    ensures Ready(r) && |r.harts| == |s.harts| && SystemBus.SameWiring(s.bus, r.bus)
    ensures forall i :: 0 <= i < |s.harts| ==> SameIdentity(s.harts[i], r.harts[i])
    decreases |turns|
  {
    if turns == [] then s
    else if Acts(s, turns[0]).next.Err? then Advance(s, turns[0])
    else Run(Advance(s, turns[0]), turns[1..])
  }

  /** What stopped the run, if anything did. */
  function Failure(s: Board, turns: seq<Turn>): Option<Error>
    requires Ready(s) && Schedule(turns, |s.harts|)
    decreases |turns|
  {
    if turns == [] then None
    else
      match Acts(s, turns[0]).next
      case Err(e) => Some(e)
      case Ok(_) => Failure(Advance(s, turns[0]), turns[1..])
  }

  /** Runs compose: the second part starts where the first ended, unless that failed. */
  lemma {:induction false} RunAppend(s: Board, a: seq<Turn>, b: seq<Turn>)
    requires Ready(s) && Schedule(a, |s.harts|) && Schedule(b, |s.harts|)
    ensures Schedule(a + b, |s.harts|)
    ensures Failure(s, a).Some? ==> Failure(s, a + b) == Failure(s, a) && Run(s, a + b) == Run(s, a)
    ensures Failure(s, a).None? ==>
              Failure(s, a + b) == Failure(Run(s, a), b) && Run(s, a + b) == Run(Run(s, a), b)
    decreases |a|
  {
    hide Acts, Advance, ReadyHart;
    if a == [] {
      assert a + b == b;
    } else {
      assert (a + b)[0] == a[0] && (a + b)[1..] == a[1..] + b;
      if Acts(s, a[0]).next.Ok? {
        RunAppend(Advance(s, a[0]), a[1..], b);
      }
    }
  }

  /** Per hart, the buses its steps have run on since its last fence or satp write. */
  type Sightings = seq<seq<Bus>>

  function SeenAfter(s: Board, seen: Sightings, t: Turn): (r: Sightings)
    requires Ready(s) && t.hart < |s.harts| && |seen| == |s.harts|
    ensures |r| == |seen|
  {
    var h := s.harts[t.hart];
    seen[t.hart := if StepFences(h, s.bus, t.input) then [] else seen[t.hart] + [Ticked(h, s.bus, t.input)]]
  }

  function SeenRun(s: Board, seen: Sightings, turns: seq<Turn>): (r: Sightings)
    requires Ready(s) && Schedule(turns, |s.harts|) && |seen| == |s.harts|
    ensures |r| == |seen|
    decreases |turns|
  {
    if turns == [] then seen
    else if Acts(s, turns[0]).next.Err? then SeenAfter(s, seen, turns[0])
    else SeenRun(Advance(s, turns[0]), SeenAfter(s, seen, turns[0]), turns[1..])
  }

  // ---------- no translation is staler than the last fence ----------

  /** The entry is what an uncached walk finds on one of these buses. */
  predicate ReadFrom(seen: seq<Bus>, satp: bv64, e: Mmu.TlbEntry) {
    exists k :: 0 <= k < |seen| && Mmu.Matches(seen[k], satp, e)
  }

  predicate FreshHart(h: Hart, seen: seq<Bus>) {
    forall j :: 0 <= j < Mmu.TLB_ENTRIES && h.tlb[j].valid ==> ReadFrom(seen, h.csrs[SATP], h.tlb[j])
  }

  predicate Fresh(s: Board, seen: Sightings) {
    |seen| == |s.harts| && forall i :: 0 <= i < |s.harts| ==> FreshHart(s.harts[i], seen[i])
  }

  lemma ReadFromMore(seen: seq<Bus>, b: Bus, satp: bv64, e: Mmu.TlbEntry)
    requires ReadFrom(seen, satp, e) || Mmu.Matches(b, satp, e)
    ensures ReadFrom(seen + [b], satp, e)
  {
    hide Mmu.Matches;
    if ReadFrom(seen, satp, e) {
      var k :| 0 <= k < |seen| && Mmu.Matches(seen[k], satp, e);
      assert (seen + [b])[k] == seen[k];
    } else {
      assert (seen + [b])[|seen|] == b;
    }
  }

  lemma ProgressIsFresh(h: Hart, h': Hart, b: Bus, seen: seq<Bus>)
    requires Progress(h, h', b) && FreshHart(h, seen)
    ensures FreshHart(h', seen + [b])
  {
    hide Mmu.Matches, HartInvariant, ReadFrom;
    forall j | 0 <= j < Mmu.TLB_ENTRIES && h'.tlb[j].valid
      ensures ReadFrom(seen + [b], h'.csrs[SATP], h'.tlb[j])
    {
      assert OldOrRead(h, h', b, j);
      ReadFromMore(seen, b, h.csrs[SATP], h'.tlb[j]);
    }
  }

  lemma TurnIsFresh(s: Board, seen: Sightings, t: Turn)
    requires Ready(s) && t.hart < |s.harts| && Fresh(s, seen)
    ensures Fresh(Advance(s, t), SeenAfter(s, seen, t))
  {
    hide Step, HartInvariant, Refills, StepFences, ReadFrom, Ticked;
    var h := s.harts[t.hart];
    StepProgress(h, s.bus, t.input);
    if !StepFences(h, s.bus, t.input) {
      ProgressIsFresh(h, Acts(s, t).hart, Ticked(h, s.bus, t.input), seen[t.hart]);
    }
  }

  /** In every run, whatever the interleaving of harts, stores, DMA, CSR writes and fences, each valid
      TLB entry is the leaf an uncached walk found on a bus its hart ran on since its last fence. */
  lemma {:induction false} NeverStalerThanFence(s: Board, seen: Sightings, turns: seq<Turn>)
    requires Ready(s) && Schedule(turns, |s.harts|) && Fresh(s, seen)
    ensures Fresh(Run(s, turns), SeenRun(s, seen, turns))
    decreases |turns|
  {
    hide Acts, Advance, SeenAfter, FreshHart, ReadyHart;
    if turns != [] {
      TurnIsFresh(s, seen, turns[0]);
      if Acts(s, turns[0]).next.Ok? {
        NeverStalerThanFence(Advance(s, turns[0]), SeenAfter(s, seen, turns[0]), turns[1..]);
      }
    }
  }

  /** The entry's page-table path is the same on both buses. */
  predicate PathKept(b: Bus, b': Bus, satp: bv64, e: Mmu.TlbEntry) {
    Mmu.SamePath(b, b', Sv39Bits.Root(satp), 2, Sv39Bits.Fields(Sv39Bits.PageBaseOf(e.vpn)))
  }

  /** No write changed a page-table entry on a cached path: on every bus the entry can have come from
      its path reads as it does now. */
  predicate PathsKept(h: Hart, seen: seq<Bus>, b: Bus) {
    forall j, k :: 0 <= j < Mmu.TLB_ENTRIES && h.tlb[j].valid && 0 <= k < |seen| ==>
      PathKept(seen[k], b, h.csrs[SATP], h.tlb[j])
  }

  lemma MatchesKept(b: Bus, b': Bus, satp: bv64, e: Mmu.TlbEntry)
    requires Mmu.Matches(b, satp, e) && PathKept(b, b', satp, e)
    ensures Mmu.Matches(b', satp, e)
  {
    hide Mmu.Walk, Mmu.WalkReads, Sv39Bits.Resolve, Sv39Bits.Root, Sv39Bits.Fields, Sv39Bits.PageBaseOf,
      Sv39Bits.PermOf, Mmu.SamePath;
    Mmu.WalkFrame(b, b', Sv39Bits.Root(satp), 2, Sv39Bits.Fields(Sv39Bits.PageBaseOf(e.vpn)));
  }

  /** ... so if no write changed an entry on a cached path, translation agrees with the uncached walk
      for every address and access kind. */
  lemma TransparentWhilePathsKept(h: Hart, seen: seq<Bus>, b: Bus, va: bv64, acc: Sv39Bits.Access)
    requires FreshHart(h, seen) && PathsKept(h, seen, b)
    ensures CpuTranslate(h, b, va, acc).pa == Mmu.Uncached(b, h.csrs[SATP], va, acc)
  {
    hide Mmu.Matches, Mmu.Translate, Mmu.Uncached, PathKept;
    forall j | 0 <= j < Mmu.TLB_ENTRIES && h.tlb[j].valid
      ensures Mmu.Matches(b, h.csrs[SATP], h.tlb[j])
    {
      assert ReadFrom(seen, h.csrs[SATP], h.tlb[j]);
      var k :| 0 <= k < |seen| && Mmu.Matches(seen[k], h.csrs[SATP], h.tlb[j]);
      MatchesKept(seen[k], b, h.csrs[SATP], h.tlb[j]);
    }
    Mmu.CoherentIsTransparent(h.tlb, b, h.csrs[SATP], va, acc);
  }

  // ---------- counting turns ----------

  /** How many of the turns are hart i's. */
  function TurnsOf(turns: seq<Turn>, i: nat): nat {
    if turns == [] then 0 else (if turns[0].hart == i then 1 else 0) + TurnsOf(turns[1..], i)
  }

  lemma {:induction false} TurnsAppend(a: seq<Turn>, b: seq<Turn>, i: nat)
    ensures TurnsOf(a + b, i) == TurnsOf(a, i) + TurnsOf(b, i)
    decreases |a|
  {
    if a == [] {
      assert a + b == b;
    } else {
      assert (a + b)[1..] == a[1..] + b;
      TurnsAppend(a[1..], b, i);
    }
  }

  // ---------- from power-on ----------

  const BOOTLOADER: seq<u8> := [
    0x97, 0x02, 0x00, 0x00, 0x13, 0x86, 0x82, 0x02, 0x73, 0x25, 0x40, 0xf1, 0x83, 0xb5, 0x02, 0x02,
    0x83, 0xb2, 0x82, 0x01, 0x67, 0x80, 0x02, 0x00, 0x00, 0x00, 0x00, 0x80, 0x00, 0x00, 0x00, 0x00,
    0x00, 0x00, 0x00, 0x87, 0x00, 0x00, 0x00, 0x00]

  const DISK_SIZE := 8 * 1024 * 1024

  function Zeros(n: nat): (r: seq<u8>) {
    seq(n, _ => 0)
  }

  /** Content loaded at the start of a memory of the given size. */
  function Padded(content: seq<u8>, size: nat): (r: seq<u8>)
    ensures content <= r && |r| >= size
  {
    content + Zeros(if size > |content| then size - |content| else 0)
  }

  /** The memories new_smp sets up: the padded image, a zeroed stack above it, the bootloader. */
  function PowerOnMemory(program: seq<u8>, address: nat): Memory.Mem {
    var len := AddressMap.RoundUp(|program|);
    Memory.Mem(Memory.Region(address, Padded(program, len)),
               Memory.Region(address + len, Padded([], AddressMap.STACK_SIZE)),
               Memory.Region(AddressMap.BOOTLOADER_ADDR, Padded(BOOTLOADER, AddressMap.BOOTLOADER_SIZE)))
  }

  /** The bus new_smp sets up: timers that never fire, nothing enabled, the disk image padded to the
      default size. */
  function PowerOnBus(program: seq<u8>, address: nat, disk: seq<u8>, ncpu: nat): Bus {
    SystemBus.Bus(
      PowerOnMemory(program, address),
      Clint.State(0, seq(ncpu, _ => TWO_64 - 1)), Memory.Range(AddressMap.CLINT_BASE, AddressMap.CLINT_SIZE),
      Uart.State(false, false, false, 0, 0, 0, []), Memory.Range(AddressMap.UART_BASE, AddressMap.UART_SIZE),
      Plic.State(seq(Plic.MAX_IRQ, _ => 0), seq(Plic.MAX_CONTEXTS, _ => 0), seq(Plic.MAX_CONTEXTS, _ => 0)),
      Memory.Range(AddressMap.PLIC_BASE, AddressMap.PLIC_SIZE),
      VirtioQueue.Device(Virtio.Grow(disk, DISK_SIZE), 0, 0, 0, 0, 0, 0, 0, 0, 0, 0, map[]),
      Memory.Range(AddressMap.VIRTIO_BASE, AddressMap.VIRTIO_SIZE))
  }

  const MAX_HARTS := 32

  function Widen(x: bv8): (r: bv64)
    ensures r as int == x as int
  {
    x as bv64
  }

  function HartId(i: nat): (id: bv64)
    requires i < MAX_HARTS
    ensures id as int == i
  {
    Widen(i as bv8)
  }

  function NewSmpHart(i: nat): Hart
    requires i < MAX_HARTS
  {
    NewHart(HartId(i), true).(pc := 0x1000)
  }

  /** The harts new_smp creates, on a bus with one timer register per hart. */
  function PowerOn(n: nat, b: Bus): (s: Board)
    requires n <= MAX_HARTS
  {
    Board(seq(n, i requires 0 <= i < n => NewSmpHart(i)), b)
  }

  lemma NewHartReady(i: nat, b: Bus)
    requires i < MAX_HARTS && i < |b.clint.mtimecmp|
    ensures ReadyHart(NewSmpHart(i), b) && FreshHart(NewSmpHart(i), [])
  {
    hide Mmu.WellFormedEntry, Mmu.Slot, ReadFrom;
  }

  lemma PowerOnReady(n: nat, b: Bus)
    requires n <= MAX_HARTS && |b.clint.mtimecmp| == n
    ensures Ready(PowerOn(n, b)) && Fresh(PowerOn(n, b), seq(n, _ => []))
  {
    hide FreshHart, ReadyHart, NewSmpHart;
    forall i | 0 <= i < n
      ensures ReadyHart(NewSmpHart(i), b) && FreshHart(NewSmpHart(i), [])
    {
      NewHartReady(i, b);
    }
  }

  /** Hart i reports i in mhartid, the raw supervisor CSR slots are unwritten, x0 is zero, and every
      valid TLB entry was read from a bus its hart has seen since its last fence. */
  predicate Upheld(s: Board, seen: Sightings) {
    && (forall i :: 0 <= i < |s.harts| ==> Trap.CsrInvariant(s.harts[i]) && s.harts[i].csrs[MHARTID] as int == i)
    && Fresh(s, seen)
  }

  /** From power-on, in every run of up to 32 harts: hart i still reports i in mhartid, the raw
      supervisor CSR slots are still unwritten, x0 is still zero, and no TLB entry is staler than its
      hart's last fence. */
  lemma EveryRun(n: nat, b: Bus, turns: seq<Turn>)
    requires n <= MAX_HARTS && |b.clint.mtimecmp| == n && Schedule(turns, n)
    ensures Ready(PowerOn(n, b))
    ensures var s := Run(PowerOn(n, b), turns);
            |s.harts| == n && Upheld(s, SeenRun(PowerOn(n, b), seq(n, _ => []), turns))
  {
    hide FreshHart, Mmu.WellFormed, Wired, Run, SeenRun, HartId;
    PowerOnReady(n, b);
    var s := Run(PowerOn(n, b), turns);
    NeverStalerThanFence(PowerOn(n, b), seq(n, _ => []), turns);
    forall i | 0 <= i < n
      ensures Trap.CsrInvariant(s.harts[i]) && s.harts[i].csrs[MHARTID] as int == i
    {
      assert ReadyHart(s.harts[i], s.bus);
      assert SameIdentity(PowerOn(n, b).harts[i], s.harts[i]);
    }
  }
}
