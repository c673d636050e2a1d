/** From device registers to a hart's mip (plic.rs, clint.rs, bus.rs, trap.rs), by the addresses a driver
    uses and the bits a handler reads. */
module InterruptPath {
  import opened Base
  import opened HartState
  import opened Memory
  import opened Rv64
  import opened Machine
  import opened TrapLaws
  import AddressMap
  import Bits
  import Clint
  import Plic
  import SystemBus
  import Trap

  // ---------- the registers on the bus ----------

  /** The range keeps clear of the windows of timer, controller, serial port and block device. */
  predicate Clear(r: Range) {
    && (r.End() <= 0x0200_0000 || r.start >= 0x0201_0000)
    && (r.End() <= 0x0c00_0000 || r.start >= 0x1000_0100)
    && (r.End() <= 0x1000_1000 || r.start >= 0x1000_2000)
  }

  /** Timer at 0x0200_0000, interrupt controller at 0x0c00_0000, memories and other devices elsewhere. */
  predicate StandardMap(b: Bus) {
    && b.clintRange == Range(0x0200_0000, 0x1_0000) && b.plicRange == Range(0x0c00_0000, 0x400_0000)
    && b.uartRange == Range(0x1000_0000, 0x100)
    && Clear(b.mem.ram.Extent()) && Clear(b.mem.stack.Extent()) && Clear(b.mem.bootloader.Extent())
  }

  /** The interrupt controller's registers: a priority per source, an enable word and a threshold per
      context. */
  datatype Register = Priority(source: nat) | EnableWord(context: nat) | ThresholdOf(context: nat)

  predicate Exists(r: Register) {
    match r
    case Priority(s) => s < 32
    case EnableWord(c) => c < 64
    case ThresholdOf(c) => c < 64
  }

  function Addr(r: Register): nat {
    match r
    case Priority(s) => 0x0c00_0000 + 4 * s
    case EnableWord(c) => 0x0c00_2000 + 0x80 * c
    case ThresholdOf(c) => 0x0c20_0000 + 0x1000 * c
  }

  /** What the state holds for a register. */
  function Held(p: Plic.State, r: Register): u32
    requires Exists(r)
  {
    match r
    case Priority(s) => p.priority[s]
    case EnableWord(c) => p.enable[c]
    case ThresholdOf(c) => p.threshold[c]
  }

  lemma PlicSelected(b: Bus, a: nat, n: nat)
    requires StandardMap(b) && 0x0c00_0000 <= a && a + n <= 0x1000_0000 && n > 0
    ensures AddressMap.Select(b.Layout(), a, n) == Some((AddressMap.PlicDev, a - 0x0c00_0000))
  {
  }

  lemma ReadsHeld(b: Bus, r: Register)
    requires StandardMap(b) && Exists(r)
    ensures SystemBus.Read(b, Addr(r), 4).value == Ok(Held(b.plic, r))
  {
    hide AddressMap.Select, Plic.Claim, Plic.PendingMask, StandardMap;
    PlicSelected(b, Addr(r), 4);
  }

  lemma WritesHeld(b: Bus, r: Register, v: u64)
    requires StandardMap(b) && Exists(r)
    ensures var w := SystemBus.Write(b, Addr(r), 4, v);
            && w.result.Ok? && w.bus == b.(plic := w.bus.plic) && Held(w.bus.plic, r) == v % TWO_32
            && forall r' :: Exists(r') && r' != r ==> Held(w.bus.plic, r') == Held(b.plic, r')
  {
    hide AddressMap.Select, StandardMap;
    PlicSelected(b, Addr(r), 4);
  }

  /** The registers are a register file: a write is read back at its own address and nowhere else. */
  lemma RegisterFile(b: Bus, r: Register, v: u64, r': Register)
    requires StandardMap(b) && Exists(r) && Exists(r')
    ensures var w := SystemBus.Write(b, Addr(r), 4, v);
            && w.result.Ok? && StandardMap(w.bus) && w.bus == b.(plic := w.bus.plic)
            && SystemBus.Read(w.bus, Addr(r'), 4).value ==
               if r' == r then Ok(v % TWO_32) else SystemBus.Read(b, Addr(r'), 4).value
  {
    hide SystemBus.Write, SystemBus.Read, Addr;
    WritesHeld(b, r, v);
    ReadsHeld(b, r');
    ReadsHeld(SystemBus.Write(b, Addr(r), 4, v).bus, r');
  }

  // ---------- the external line ----------

  /** The word a driver reads at a register's address. */
  function WordAt(b: Bus, a: nat): nat {
    match SystemBus.Read(b, a, 4).value
    case Ok(v) => v
    case Err(_) => 0
  }

  /** The serial port (source 10) holds input with its receive interrupt on; VirtIO (source 1) has its
      used-buffer bit up. */
  predicate Asserted(b: Bus, source: nat) {
    || (source == 10 && b.uart.rxQueue != [] && b.uart.rxInterrupt)
    || (source == 1 && b.virtio.interruptStatus % 2 == 1)
  }

  /** Bit `source` of an enable word. */
  predicate EnabledIn(word: nat, source: nat) {
    || (source == 10 && word / 0x400 % 2 == 1)
    || (source == 1 && word / 2 % 2 == 1)
  }

  /** A source reaches hart h: asserted, enabled in the hart's supervisor word, and of a priority above
      the hart's threshold. */
  predicate Signals(b: Bus, h: nat, source: nat) {
    && Asserted(b, source)
    && EnabledIn(WordAt(b, 0x0c00_2080 + 0x100 * h), source)
    && WordAt(b, 0x0c00_0000 + 4 * source) > WordAt(b, 0x0c20_1000 + 0x2000 * h)
  }

  lemma BitOne(m: nat)
    ensures Bits.Bit(m, 1) <==> m / 2 % 2 == 1
  {
    assert Bits.Bit(m, 1) == Bits.Bit(m / 2, 0);
  }

  lemma BitTen(m: nat)
    ensures Bits.Bit(m, 10) <==> m / 0x400 % 2 == 1
  {
    hide Bits.Bit;
    FiveDown(m, 10);
    FiveDown(m / 32, 5);
    BitNone(m / 32 / 32);
  }

  lemma FiveDown(m: nat, i: nat)
    requires i >= 5
    ensures Bits.Bit(m, i) == Bits.Bit(m / 32, i - 5)
  {
    assert Bits.Bit(m, i) == Bits.Bit(m / 2, i - 1);
    assert Bits.Bit(m / 2, i - 1) == Bits.Bit(m / 4, i - 2);
    assert Bits.Bit(m / 4, i - 2) == Bits.Bit(m / 8, i - 3);
    assert Bits.Bit(m / 8, i - 3) == Bits.Bit(m / 16, i - 4);
  }

  lemma BitNone(m: nat)
    ensures Bits.Bit(m, 0) <==> m % 2 == 1
  {
  }

  lemma PendingIs(b: Bus, source: nat)
    ensures Bits.Bit(Plic.PendingMask(b.Lines()), source) <==> Asserted(b, source)
  {
    hide Bits.Bit, Plic.PendingMask;
    var lines := b.Lines();
    Plic.MaskIsRaisedLines(lines, source);
    assert lines[0] == Plic.Line(10, b.uart.Raised());
    assert lines[1] == Plic.Line(1, b.virtio.interruptStatus % 2 == 1);
  }

  lemma HartWords(b: Bus, h: nat, source: nat)
    requires StandardMap(b) && h < 32 && source < 32
    ensures WordAt(b, 0x0c00_2080 + 0x100 * h) == b.plic.Enable(2 * h + 1)
    ensures WordAt(b, 0x0c20_1000 + 0x2000 * h) == b.plic.Threshold(2 * h + 1)
    ensures WordAt(b, 0x0c00_0000 + 4 * source) == b.plic.priority[source]
  {
    hide SystemBus.Read, StandardMap;
    ReadsHeld(b, EnableWord(2 * h + 1));
    ReadsHeld(b, ThresholdOf(2 * h + 1));
    ReadsHeld(b, Priority(source));
  }

  /** The model's claimable sources are the signalling ones. */
  lemma ClaimableIs(b: Bus, h: nat, source: nat)
    requires StandardMap(b) && h < 32
    ensures b.plic.Claimable(Plic.PendingMask(b.Lines()), 2 * h + 1, source) <==> Signals(b, h, source)
  {
    hide Bits.Bit, Plic.PendingMask, WordAt, StandardMap;
    PendingIs(b, source);
    if source == 1 || source == 10 {
      HartWords(b, h, source);
      BitOne(b.plic.Enable(2 * h + 1));
      BitTen(b.plic.Enable(2 * h + 1));
    }
  }

  lemma InterruptsIff(b: Bus, h: nat)
    requires StandardMap(b) && h < 32
    ensures Plic.Interrupts(b.plic, Plic.PendingMask(b.Lines()), h) <==> Signals(b, h, 1) || Signals(b, h, 10)
  {
    hide Plic.Claim, Plic.PendingMask, StandardMap, Plic.State.Claimable, WordAt;
    var pending := Plic.PendingMask(b.Lines());
    var k := Plic.Claim(b.plic, pending, 2 * h + 1);
    Plic.ClaimIsBest(b.plic, pending, 2 * h + 1);
    ClaimableIs(b, h, 1);
    ClaimableIs(b, h, 10);
    ClaimableIs(b, h, k);
  }

  // ---------- mip at the instruction boundary ----------

  lemma TimerUp(m: bv64)
    ensures (Trap.WithBit(m, 0x80, Some(true)) >> 7) & 1 == 1
    ensures (Trap.WithBit(m, 0x80, Some(true)) >> 9) & 1 == (m >> 9) & 1
    ensures Trap.WithBit(m, 0x80, Some(true)) & 0xffff_ffff_ffff_fd7f == m & 0xffff_ffff_ffff_fd7f
  {
  }

  lemma TimerDown(m: bv64)
    ensures (Trap.WithBit(m, 0x80, Some(false)) >> 7) & 1 == 0
    ensures (Trap.WithBit(m, 0x80, Some(false)) >> 9) & 1 == (m >> 9) & 1
    ensures Trap.WithBit(m, 0x80, Some(false)) & 0xffff_ffff_ffff_fd7f == m & 0xffff_ffff_ffff_fd7f
  {
  }

  lemma ExternalUp(m: bv64)
    ensures (Trap.WithBit(m, 0x200, Some(true)) >> 9) & 1 == 1
    ensures (Trap.WithBit(m, 0x200, Some(true)) >> 7) & 1 == (m >> 7) & 1
    ensures Trap.WithBit(m, 0x200, Some(true)) & 0xffff_ffff_ffff_fd7f == m & 0xffff_ffff_ffff_fd7f
  {
  }

  lemma ExternalDown(m: bv64)
    ensures (Trap.WithBit(m, 0x200, Some(false)) >> 9) & 1 == 0
    ensures (Trap.WithBit(m, 0x200, Some(false)) >> 7) & 1 == (m >> 7) & 1
    ensures Trap.WithBit(m, 0x200, Some(false)) & 0xffff_ffff_ffff_fd7f == m & 0xffff_ffff_ffff_fd7f
  {
  }

  lemma TimerBit(mip: bv64, up: bool)
    ensures var m := Trap.WithBit(mip, 0x80, Some(up));
            BitSet(m, 7) == up && BitSet(m, 9) == BitSet(mip, 9) && SameOthers(m, mip)
  {
    hide Trap.WithBit;
    if up {
      TimerUp(mip);
    } else {
      TimerDown(mip);
    }
  }

  lemma ExternalBit(mip: bv64, up: bool)
    ensures var m := Trap.WithBit(mip, 0x200, Some(up));
            BitSet(m, 9) == up && BitSet(m, 7) == BitSet(mip, 7) && SameOthers(m, mip)
  {
    hide Trap.WithBit;
    if up {
      ExternalUp(mip);
    } else {
      ExternalDown(mip);
    }
  }

  lemma SampledBits(mip: bv64, timer: bool, external: bool)
    ensures var m := Trap.SampledMip(mip, Some(timer), Some(external));
            BitSet(m, 7) == timer && BitSet(m, 9) == external && SameOthers(m, mip)
  {
    hide Trap.WithBit, BitSet, SameOthers;
    var m := Trap.WithBit(mip, 0x80, Some(timer));
    TimerBit(mip, timer);
    ExternalBit(m, external);
    SameThrough(Trap.WithBit(m, 0x200, Some(external)), m, mip);
  }

  lemma SameThrough(x: bv64, y: bv64, z: bv64)
    requires SameOthers(x, y) && SameOthers(y, z)
    ensures SameOthers(x, z)
  {
  }

  lemma TrapKeepsMip(g: Hart, cause: bv6)
    ensures Trap.RaiseTrap(g, cause, true, 0).hart.csrs[0x344] == g.csrs[0x344]
  {
    hide Trap.Delegated, Trap.RaiseTrap, Trap.FromInterrupt, Trap.CauseCode;
    if Trap.Delegated(g, cause, true) {
      Trap.SHandlerFinds(g, cause, true, 0);
    } else {
      Trap.MHandlerFinds(g, cause, true, 0);
    }
  }

  /** Delivery leaves mip as it was sampled. */
  lemma BoundaryMip(g: Hart, b: Bus)
    requires Wired(g, b)
    ensures Boundary(g, b).csrs[0x344] == Trap.SampledMip(g.csrs[0x344], TimerLine(g, b), ExternalLine(g, b))
  {
    hide Trap.SampledMip, TimerLine, ExternalLine, Trap.Enabled, Trap.FirstFrom, Trap.RaiseTrap;
    var h1 := g.SetCsr(0x344, Trap.SampledMip(g.csrs[0x344], TimerLine(g, b), ExternalLine(g, b)));
    var f := Trap.FirstFrom(h1, Trap.Enabled(h1), 0);
    if f.Some? {
      TrapKeepsMip(h1, f.value);
    }
  }

  /** At every instruction boundary of an attached hart h < 32, mip bit 9 is up if and only if a source
      signals the hart, and bit 7 if and only if mtime has reached its mtimecmp; no other bit moves. */
  lemma LinesReachMip(g: Hart, b: Bus)
    requires StandardMap(b) && g.attached && Wired(g, b) && |b.clint.mtimecmp| <= 32
    ensures var h, mip := g.id as int, Boundary(g, b).csrs[0x344];
            && (BitSet(mip, 9) <==> Signals(b, h, 1) || Signals(b, h, 10))
            && (BitSet(mip, 7) <==> TimeAt(b, 0x0200_bff8) >= TimeAt(b, 0x0200_4000 + 8 * h))
            && SameOthers(mip, g.csrs[0x344])
  {
    hide StandardMap, Signals, BitSet, Boundary, TimeAt, Trap.SampledMip, Plic.Interrupts, Plic.PendingMask,
      SameOthers;
    var h := g.id as int;
    BoundaryMip(g, b);
    InterruptsIff(b, h);
    TimerWords(b, h);
    var timer, external := TimerLine(g, b), ExternalLine(g, b);
    SampledBits(g.csrs[0x344], timer.value, external.value);
  }

  /** Equal but for bits 7 and 9. */
  predicate SameOthers(m: bv64, m': bv64) {
    m & 0xffff_ffff_ffff_fd7f == m' & 0xffff_ffff_ffff_fd7f
  }

  // ---------- the timer ----------

  /** The 8-byte word a driver reads. */
  function TimeAt(b: Bus, a: nat): nat {
    match SystemBus.Read(b, a, 8).value
    case Ok(v) => v
    case Err(_) => 0
  }

  lemma ClintSelected(b: Bus, a: nat, n: nat)
    requires StandardMap(b) && 0x0200_0000 <= a && a + n <= 0x0201_0000 && n > 0
    ensures AddressMap.Select(b.Layout(), a, n) == Some((AddressMap.ClintDev, a - 0x0200_0000))
  {
  }

  lemma TimerWords(b: Bus, h: nat)
    requires StandardMap(b) && h < |b.clint.mtimecmp| <= 32
    ensures TimeAt(b, 0x0200_bff8) == b.clint.mtime
    ensures TimeAt(b, 0x0200_4000 + 8 * h) == b.clint.mtimecmp[h]
  {
    hide AddressMap.Select, StandardMap;
    ClintSelected(b, 0x0200_bff8, 8);
    ClintSelected(b, 0x0200_4000 + 8 * h, 8);
  }

  /** A write to a hart's mtimecmp is read back there and moves no other timer register. */
  lemma TimerFile(b: Bus, h: nat, v: u64, k: nat)
    requires StandardMap(b) && h < |b.clint.mtimecmp| <= 32 && k < |b.clint.mtimecmp|
    ensures var w := SystemBus.Write(b, 0x0200_4000 + 8 * h, 8, v);
            && w.result.Ok? && StandardMap(w.bus) && w.bus == b.(clint := w.bus.clint)
            && |w.bus.clint.mtimecmp| == |b.clint.mtimecmp|
            && TimeAt(w.bus, 0x0200_bff8) == TimeAt(b, 0x0200_bff8)
            && TimeAt(w.bus, 0x0200_4000 + 8 * k) == if k == h then v else TimeAt(b, 0x0200_4000 + 8 * k)
  {
    hide AddressMap.Select, TimeAt;
    ClintSelected(b, 0x0200_4000 + 8 * h, 8);
    var w := SystemBus.Write(b, 0x0200_4000 + 8 * h, 8, v);
    TimerWords(b, k);
    TimerWords(w.bus, k);
  }

  /** mtime is written at 0x0200_bff8 and moves by one per tick, modulo 2^64. */
  lemma TimeMoves(b: Bus, v: u64)
    requires StandardMap(b)
    ensures var w := SystemBus.Write(b, 0x0200_bff8, 8, v);
            && w.result.Ok? && w.bus == b.(clint := w.bus.clint) && w.bus.clint.mtimecmp == b.clint.mtimecmp
            && TimeAt(w.bus, 0x0200_bff8) == v
    ensures TimeAt(b.(clint := b.clint.Tick()), 0x0200_bff8) == (TimeAt(b, 0x0200_bff8) + 1) % TWO_64
  {
    hide AddressMap.Select, StandardMap;
    ClintSelected(b, 0x0200_bff8, 8);
  }

  lemma TickAdvances(g: Hart, b: Bus, input: seq<u8>)
    requires StandardMap(b) && g.attached
    ensures var (g1, b1) := Tick(g, b, input);
            && StandardMap(b1) && g1 == g.(pollCountdown := g1.pollCountdown)
            && b1 == b.(clint := b.clint.Tick(), uart := b1.uart)
  {
  }

  lemma FetchKeepsCsrs(g: Hart, b: Bus)
    ensures Fetch(g, b).hart.csrs == g.csrs
  {
    hide CpuTranslate, SystemBus.Read;
  }

  /** Time moves before interrupts are sampled: the word a step executes is fetched by a hart whose mip bit
      7 compares the advanced mtime with its mtimecmp. */
  lemma StepSeesTime(g: Hart, b: Bus, input: seq<u8>)
    requires StandardMap(b) && g.attached && Wired(g, b) && |b.clint.mtimecmp| <= 32
    ensures var mip := Fetching(g, b, input).hart.csrs[0x344];
            var now := (TimeAt(b, 0x0200_bff8) + 1) % TWO_64;
            BitSet(mip, 7) <==> now >= TimeAt(b, 0x0200_4000 + 8 * (g.id as int))
  {
    hide Tick, Fetch, Boundary, StandardMap, Signals, BitSet, TimeAt;
    TickAdvances(g, b, input);
    var (g1, b1) := Tick(g, b, input);
    FetchKeepsCsrs(Boundary(g1, b1), b1);
    LinesReachMip(g1, b1);
    TimerWords(b, g.id as int);
    TimerWords(b1, g.id as int);
  }

  /** Programming hart h's mtimecmp raises mip bit 7 of that hart exactly when mtime has reached it. */
  lemma TimerArrives(g: Hart, b: Bus, v: u64)
    requires StandardMap(b) && g.attached && Wired(g, b) && |b.clint.mtimecmp| <= 32
    ensures var b' := SystemBus.Write(b, 0x0200_4000 + 8 * (g.id as int), 8, v).bus;
            && Wired(g, b')
            && (BitSet(Boundary(g, b').csrs[0x344], 7) <==> TimeAt(b, 0x0200_bff8) >= v)
  {
    hide SystemBus.Write, StandardMap, BitSet, Boundary, TimeAt, Signals;
    TimerFile(b, g.id as int, v, g.id as int);
    LinesReachMip(g, SystemBus.Write(b, 0x0200_4000 + 8 * (g.id as int), 8, v).bus);
  }

  // ---------- a driver's set-up ----------

  /** The bus after a driver sets the serial port's priority, hart h's enable word and its threshold. */
  function Programmed(b: Bus, h: nat): Bus {
    var b1 := SystemBus.Write(b, 0x0c00_0000 + 4 * 10, 4, 1).bus;
    var b2 := SystemBus.Write(b1, 0x0c00_2080 + 0x100 * h, 4, 0x400).bus;
    SystemBus.Write(b2, 0x0c20_1000 + 0x2000 * h, 4, 0).bus
  }

  lemma ProgrammedWords(b: Bus, h: nat, k: nat)
    requires StandardMap(b) && h < 32 && k < 32
    ensures var b' := Programmed(b, h);
            && StandardMap(b') && b' == b.(plic := b'.plic)
            && WordAt(b', 0x0c00_0000 + 4 * 10) == 1
            && WordAt(b', 0x0c00_2080 + 0x100 * k) == (if k == h then 0x400 else WordAt(b, 0x0c00_2080 + 0x100 * k))
            && WordAt(b', 0x0c20_1000 + 0x2000 * k) == (if k == h then 0 else WordAt(b, 0x0c20_1000 + 0x2000 * k))
  {
    hide SystemBus.Write, SystemBus.Read, StandardMap;
    var p, e, t := Priority(10), EnableWord(2 * h + 1), ThresholdOf(2 * h + 1);
    var e', t' := EnableWord(2 * k + 1), ThresholdOf(2 * k + 1);
    var b1 := SystemBus.Write(b, Addr(p), 4, 1).bus;
    RegisterFile(b, p, 1, p);
    RegisterFile(b, p, 1, e');
    RegisterFile(b, p, 1, t');
    var b2 := SystemBus.Write(b1, Addr(e), 4, 0x400).bus;
    RegisterFile(b1, e, 0x400, p);
    RegisterFile(b1, e, 0x400, e');
    RegisterFile(b1, e, 0x400, t');
    RegisterFile(b2, t, 0, p);
    RegisterFile(b2, t, 0, e');
    RegisterFile(b2, t, 0, t');
  }

  /** With input waiting on the serial port, the set-up for hart h raises mip bit 9 at that hart's next
      boundary, and leaves it down at every other hart whose enable word is zero. */
  lemma SerialArrives(b: Bus, h: nat, g: Hart)
    requires StandardMap(b) && h < 32 && Asserted(b, 10)
    requires g.attached && Wired(g, b) && |b.clint.mtimecmp| <= 32
    ensures Wired(g, Programmed(b, h))
    ensures g.id as int == h ==> BitSet(Boundary(g, Programmed(b, h)).csrs[0x344], 9)
    ensures g.id as int != h && WordAt(b, 0x0c00_2080 + 0x100 * (g.id as int)) == 0 ==>
              !BitSet(Boundary(g, Programmed(b, h)).csrs[0x344], 9)
  {
    hide Programmed, StandardMap, BitSet, Boundary, WordAt, TimeAt;
    ProgrammedWords(b, h, g.id as int);
    LinesReachMip(g, Programmed(b, h));
  }

  // ---------- claiming ----------

  /** The claim register of hart h's supervisor context answers 0 if and only if nothing signals the hart,
      and otherwise the signalling source of the highest priority, VirtIO before the serial port when
      equal. */
  lemma ClaimAnswers(b: Bus, h: nat)
    requires StandardMap(b) && h < 32
    ensures var claim := SystemBus.Read(b, 0x0c20_1004 + 0x2000 * h, 4).value;
            var virtio, serial := Signals(b, h, 1), Signals(b, h, 10);
            var first := WordAt(b, 0x0c00_0000 + 4 * 1) >= WordAt(b, 0x0c00_0000 + 4 * 10);
            claim == Ok(if virtio && (!serial || first) then 1 else if serial then 10 else 0)
  {
    hide Plic.Claim, Plic.PendingMask, StandardMap, Plic.State.Claimable, WordAt, AddressMap.Select;
    var pending := Plic.PendingMask(b.Lines());
    var k := Plic.Claim(b.plic, pending, 2 * h + 1);
    PlicSelected(b, 0x0c20_1004 + 0x2000 * h, 4);
    Plic.ClaimIsBest(b.plic, pending, 2 * h + 1);
    ClaimableIs(b, h, 1);
    ClaimableIs(b, h, 10);
    ClaimableIs(b, h, k);
    HartWords(b, h, 1);
    HartWords(b, h, 10);
  }
}
