/** VirtIO's memory-mapped registers (virtio.rs). */
module VirtioMmio {
  import opened Base
  import opened Words
  import opened Memory
  import opened VirtioQueue

  const MAGIC := 0x7472_6976
  const VENDOR := 0x554d_4551
  const QUEUE_NUM_MAX_VALUE := 0x8000

  function Read(v: Device, offset: nat, size: nat): (r: Result<u32>) {
    if size != 4 then Err(BadSize)
    else if offset == 0x000 then Ok(MAGIC)
    else if offset == 0x004 then Ok(2)
    else if offset == 0x008 then Ok(2)
    else if offset == 0x00c then Ok(VENDOR)
    else if offset == 0x010 then Ok(v.deviceFeatures)
    else if offset == 0x034 then Ok(QUEUE_NUM_MAX_VALUE)
    else if offset == 0x044 then Ok(v.queueReady)
    else if offset == 0x060 then Ok(v.interruptStatus)
    else if offset == 0x070 then Ok(v.status)
    else Ok(0)
  }

  /** Low-half write of a ring address; the value is not cut to 32 bits. */
  function LowHalf(a: bv64, v: bv64): bv64 {
    (a & 0xffff_ffff_0000_0000) | v
  }

  function HighHalf(a: bv64, v: bv64): bv64 {
    (a & 0xffff_ffff) | (v << 32)
  }

  function SetLow(a: u64, v: u64): u64 {
    FromWord(LowHalf(ToWord(a), ToWord(v)))
  }

  function SetHigh(a: u64, v: u64): u64 {
    FromWord(HighHalf(ToWord(a), ToWord(v)))
  }

  function Ack(status: u32, v: u32): u32 {
    ((status as bv32) & !(v as bv32)) as int
  }

  function Reset(v: Device): Device {
    v.(status := 0, queueReady := 0, queueNum := 0, desc := 0, avail := 0, used := 0, last := map[])
  }

  function Write(v: Device, m: Mem, offset: nat, size: nat, value: u64): (r: Notified)
    ensures SameShape(m, r.mem)
  {
    if size != 4 then Notified(Err(BadSize), v, m)
    else
      var w := value % TWO_32;
      if offset == 0x050 then Notify(v, m, w)
      else
        var v' :=
          if offset == 0x020 then v.(driverFeatures := w)
          else if offset == 0x030 then v.(queueSel := w)
          else if offset == 0x038 then v.(queueNum := w)
          else if offset == 0x044 then v.(queueReady := w)
          else if offset == 0x080 then v.(desc := SetLow(v.desc, value))
          else if offset == 0x084 then v.(desc := SetHigh(v.desc, value))
          else if offset == 0x090 then v.(avail := SetLow(v.avail, value))
          else if offset == 0x094 then v.(avail := SetHigh(v.avail, value))
          else if offset == 0x0a0 then v.(used := SetLow(v.used, value))
          else if offset == 0x0a4 then v.(used := SetHigh(v.used, value))
          else if offset == 0x064 then v.(interruptStatus := Ack(v.interruptStatus, w))
          else if offset == 0x070 then if w == 0 then Reset(v) else v.(status := w)
          else v;
        Notified(Ok(Unit), v', m)
  }

  /** Low half first, then high half: the ring address is right whatever the registers held. */
  lemma LowThenHigh(a: bv64, lo: bv64, hi: bv64)
    ensures HighHalf(LowHalf(a, lo), hi) == (hi << 32) | (lo & 0xffff_ffff)
  {
  }

  /** In the other order the low write's excess bits are or-ed into the high half. */
  lemma HighThenLow(a: bv64, lo: bv64, hi: bv64)
    ensures LowHalf(HighHalf(a, hi), lo) == (hi << 32) | lo
  {
  }

  /** The register with its low half replaced, which the driver means. */
  function Intended(a: bv64, lo: bv64): bv64 {
    (a & 0xffff_ffff_0000_0000) | (lo & 0xffff_ffff)
  }

  /** The written value has bits above 32 that the register's high half lacks. */
  predicate Spills(a: bv64, lo: bv64) {
    (lo & 0xffff_ffff_0000_0000) & !a != 0
  }

  /** A low-half write replaces the low half and nothing else if and only if nothing spills, in
      particular for every value that fits 32 bits. */
  lemma LowWriteExactIff(a: bv64, lo: bv64)
    ensures LowHalf(a, lo) == Intended(a, lo) <==> !Spills(a, lo)
  {
    if Spills(a, lo) {
      SpillShows(a, lo);
    } else {
      NothingSpills(a, lo);
    }
  }

  lemma SpillShows(a: bv64, lo: bv64)
    requires (lo & 0xffff_ffff_0000_0000) & !a != 0
    ensures (a & 0xffff_ffff_0000_0000) | lo != (a & 0xffff_ffff_0000_0000) | (lo & 0xffff_ffff)
  {
  }

  lemma NothingSpills(a: bv64, lo: bv64)
    requires (lo & 0xffff_ffff_0000_0000) & !a == 0
    ensures (a & 0xffff_ffff_0000_0000) | lo == (a & 0xffff_ffff_0000_0000) | (lo & 0xffff_ffff)
  {
  }

  lemma IntendedAddress(a: bv64, lo: bv64, hi: bv64)
    ensures Intended(HighHalf(a, hi), lo) == (hi << 32) | (lo & 0xffff_ffff)
  {
  }

  /** Programming a ring address high half first gives the intended address if and only if nothing
      spills into the high half just written. */
  lemma HighThenLowIff(a: bv64, lo: bv64, hi: bv64)
    ensures LowHalf(HighHalf(a, hi), lo) == (hi << 32) | (lo & 0xffff_ffff) <==> !Spills(HighHalf(a, hi), lo)
  {
    hide LowHalf, HighHalf, Intended, Spills;
    LowWriteExactIff(HighHalf(a, hi), lo);
    IntendedAddress(a, lo, hi);
  }
}

/** The machine bus (bus.rs): the memories and devices behind one dispatch chain. */
module SystemBus {
  import opened Base
  import opened Memory
  import opened AddressMap
  import Clint
  import Uart
  import Plic
  import VirtioQueue
  import VirtioMmio

  const UART0_IRQ := 10
  const VIRTIO0_IRQ := 1

  datatype Bus = Bus(
    mem: Mem,
    clint: Clint.State, clintRange: Range,
    uart: Uart.State, uartRange: Range,
    plic: Plic.State, plicRange: Range,
    virtio: VirtioQueue.Device, virtioRange: Range)
  {
    function Layout(): AddressMap.Layout {
      AddressMap.Layout(mem.ram.Extent(), mem.stack.Extent(), mem.bootloader.Extent(),
                        clintRange, uartRange, plicRange, virtioRange)
    }

    /** The interrupt lines registered with the PLIC. */
    function Lines(): seq<Plic.Line> {
      [Plic.Line(UART0_IRQ, uart.Raised()), Plic.Line(VIRTIO0_IRQ, virtio.interruptStatus % 2 == 1)]
    }
  }

  datatype Loaded = Loaded(value: Result<u64>, bus: Bus)
  datatype Written = Written(result: Result<Unit>, bus: Bus)

  /** Same address map and number of timers. */
  predicate SameWiring(b: Bus, b': Bus) {
    |b'.clint.mtimecmp| == |b.clint.mtimecmp| && b'.Layout() == b.Layout()
  }

  function Read(b: Bus, a: nat, n: nat): (r: Loaded)
    ensures r.value.Ok? ==> r.value.value < Pow256(n)
    ensures n != 1 || r.value.Err? ==> r.bus == b
    ensures r.bus.clint == b.clint && r.bus.plic == b.plic && r.bus.mem == b.mem
    ensures SameWiring(b, r.bus)
  {
    Pow256Values();
    match Select(b.Layout(), a, n)
    case None => Loaded(Err(Unmapped), b)
    case Some((d, off)) =>
      match d
      case ClintDev => Loaded(b.clint.Read(off, n), b)
      case UartDev =>
        var (v, u) := b.uart.Read(off, n);
        Loaded(v, b.(uart := u))
      case PlicDev => Loaded(b.plic.Read(Plic.PendingMask(b.Lines()), off, n), b)
      case VirtioDev => Loaded(VirtioMmio.Read(b.virtio, off, n), b)
      case _ => Loaded(MemRead(b.mem, a, n), b)
  }

  function Write(b: Bus, a: nat, n: nat, v: u64): (r: Written)
    ensures r.result.Err? && !b.virtioRange.Contains(a, n) ==> r.bus == b
    ensures SameWiring(b, r.bus)
  {
    match Select(b.Layout(), a, n)
    case None => Written(Err(Unmapped), b)
    case Some((d, off)) =>
      match d
      case ClintDev =>
        (match b.clint.Write(off, n, v)
         case Err(e) => Written(Err(e), b)
         case Ok(c) => Written(Ok(Unit), b.(clint := c)))
      case UartDev =>
        (match b.uart.Write(off, n, v)
         case Err(e) => Written(Err(e), b)
         case Ok(u) => Written(Ok(Unit), b.(uart := u)))
      case PlicDev =>
        (match b.plic.Write(off, n, v)
         case Err(e) => Written(Err(e), b)
         case Ok(p) => Written(Ok(Unit), b.(plic := p)))
      case VirtioDev =>
        var r := VirtioMmio.Write(b.virtio, b.mem, off, n, v);
        Written(r.result, b.(virtio := r.dev, mem := r.mem))
      case _ =>
        match MemWrite(b.mem, a, n, v)
        case Err(e) => Written(Err(e), b)
        case Ok(m) => Written(Ok(Unit), b.(mem := m))
  }

  /** The access is served by one of the plain memories. */
  predicate InMemory(b: Bus, a: nat, n: nat) {
    var s := Select(b.Layout(), a, n);
    s.Some? && (s.value.0 == RamDev || s.value.0 == StackDev || s.value.0 == BootDev)
  }

  lemma SameLayout(b: Bus, m: Mem)
    requires SameShape(b.mem, m)
    ensures b.(mem := m).Layout() == b.Layout()
  {
  }

  lemma WriteInMemory(b: Bus, a: nat, n: nat, v: u64)
    requires InMemory(b, a, n) && Write(b, a, n, v).result.Ok?
    ensures MemWrite(b.mem, a, n, v).Ok? && Write(b, a, n, v).bus == b.(mem := MemWrite(b.mem, a, n, v).value)
  {
    hide MemWrite, Select, VirtioMmio.Write;
  }

  lemma ReadInMemory(b: Bus, a: nat, n: nat)
    requires InMemory(b, a, n)
    ensures Read(b, a, n).value == MemRead(b.mem, a, n)
  {
    hide MemRead, Select, Plic.PendingMask;
  }

  /** A store to memory is invisible to every access elsewhere, devices included. */
  lemma ReadOffWrite(b: Bus, a: nat, n: nat, v: u64, p: nat, k: nat)
    requires InMemory(b, a, n) && Write(b, a, n, v).result.Ok? && Apart(a, n, p, k)
    ensures Read(Write(b, a, n, v).bus, p, k).value == Read(b, p, k).value
  {
    hide MemWrite, MemRead, Select, VirtioMmio.Write, InMemory, Write, Plic.PendingMask, SameShape;
    WriteInMemory(b, a, n, v);
    ReadOverWrite(b.mem, a, n, v, p, k);
    SameLayout(b, MemWrite(b.mem, a, n, v).value);
  }
}
