/** The VirtIO queue as a driver programs it (section 4.2.2 of the VirtIO 1.1 specification; virtio.rs,
    bus.rs): register addresses, ring addresses as numbers, descriptors as stored bytes. */
module QueueRegisters {
  import opened Base
  import opened Words
  import opened Memory
  import opened Encoding
  import opened Rv64
  import opened Numbers
  import opened Extensions
  import opened InterruptPath
  import opened VirtioMmio
  import opened VirtioQueue
  import AddressMap
  import Smp
  import SystemBus
  import UsedRing
  import Virtio

  // ---------- the two halves of a ring address ----------

  function LowPart(x: bv64): bv64 {
    x & 0xffff_ffff
  }

  function HighPart(x: bv64): bv64 {
    x & 0xffff_ffff_0000_0000
  }

  lemma PartsJoin(x: bv64)
    ensures Join2(LowPart(x), HighPart(x)) == x && Disjoint(LowPart(x), HighPart(x))
  {
    PartsJoinBits(x);
  }

  lemma PartsJoinBits(x: bv64)
    ensures (x & 0xffff_ffff) | (x & 0xffff_ffff_0000_0000) == x
    ensures (x & 0xffff_ffff) & (x & 0xffff_ffff_0000_0000) == 0
  {
  }

  lemma LowPartIs(x: bv64)
    ensures LowPart(x) == Cut(x, 0xffff_ffff)
  {
  }

  lemma PartNumbers(x: bv64)
    ensures FromWord(LowPart(x)) == FromWord(x) % TWO_32
    ensures FromWord(HighPart(x)) == FromWord(x) / TWO_32 * TWO_32
  {
    hide LowPart, HighPart, Join2, Disjoint, FromWord, ValueOf, Cut, Mask;
    PartsJoin(x);
    JoinNumbers(LowPart(x), HighPart(x));
    LowPartIs(x);
    MaskValues();
    CutNumber(x, 4);
    LowNumber(x);
    LowValueIs(x);
  }

  lemma LowValueIs(x: bv64)
    ensures LowValue(x) == ValueOf(x, 4)
  {
  }

  lemma HighHalfIs(a: bv64, v: bv64)
    ensures HighHalf(a, v) == Join2(LowPart(a), Shl(v, 32)) && Disjoint(LowPart(a), Shl(v, 32))
  {
    HighApart(a, v);
  }

  lemma HighApart(a: bv64, v: bv64)
    ensures (a & 0xffff_ffff) & (v << 32) == 0
  {
  }

  lemma PowerOf32()
    ensures Pow2(32) == TWO_32 && Pow2(31) == TWO_32 / 2 && Pow2(33) == 2 * TWO_32
  {
    assert Pow2(8) == 256 by {
      assert Pow2(4) == 16;
      Pow2Sum(4, 4);
    }
    Pow2Sum(8, 8);
    Pow2Sum(16, 16);
    assert Pow2(32) == 2 * Pow2(31) && Pow2(33) == 2 * Pow2(32);
  }

  /** The high-half register replaces the upper 32 bits. */
  lemma SetHighNumber(a: u64, v: u64)
    ensures SetHigh(a, v) == v % TWO_32 * TWO_32 + a % TWO_32
  {
    hide FromWord, ToWord, HighHalf, LowPart, HighPart, Join2, Disjoint, Shl, Pow2;
    var x, y := ToWord(a), ToWord(v);
    WordsRoundTrip(0, a);
    WordsRoundTrip(0, v);
    HighHalfIs(x, y);
    JoinNumbers(LowPart(x), Shl(y, 32));
    PartNumbers(x);
    ShlNumber(y, 32);
    PowerOf32();
    ShiftedWord(v);
  }

  lemma ShiftedWord(v: nat)
    ensures v * TWO_32 % TWO_64 == v % TWO_32 * TWO_32
  {
  }

  lemma LowHalfIs(a: bv64, v: bv64)
    ensures LowHalf(a, v) == Join2(HighPart(a), v)
  {
  }

  lemma HighApartShort(a: bv64, v: bv64)
    requires HighPart(v) == 0
    ensures Disjoint(HighPart(a), v)
  {
    ShortApart(a, v);
  }

  lemma ShortApart(a: bv64, v: bv64)
    requires v & 0xffff_ffff_0000_0000 == 0
    ensures (a & 0xffff_ffff_0000_0000) & v == 0
  {
  }

  lemma ZeroOnly(x: bv64)
    requires FromWord(x) == 0
    ensures x == 0
  {
    hide FromWord, ToWord;
    ZeroNumber();
    WordsRoundTrip(x, 0);
    WordsRoundTrip(0, 0);
  }

  /** A 32-bit value written to the low-half register replaces the lower 32 bits. */
  lemma SetLowNumber(a: u64, v: u64)
    requires v < TWO_32
    ensures SetLow(a, v) == a / TWO_32 * TWO_32 + v
  {
    hide FromWord, ToWord, LowHalf, HighPart, Join2, Disjoint;
    var x, y := ToWord(a), ToWord(v);
    WordsRoundTrip(0, a);
    WordsRoundTrip(0, v);
    PartNumbers(x);
    PartNumbers(y);
    ZeroOnly(HighPart(y));
    HighApartShort(x, y);
    LowHalfIs(x, y);
    JoinNumbers(HighPart(x), y);
  }

  lemma LowThenHighNumber(a: u64, lo: u64, hi: u64)
    requires lo < TWO_32 && hi < TWO_32
    ensures SetHigh(SetLow(a, lo), hi) == hi * TWO_32 + lo
  {
    hide SetLow, SetHigh;
    SetLowNumber(a, lo);
    SetHighNumber(SetLow(a, lo), hi);
  }

  // ---------- a low-half write that spills ----------

  lemma WideConstants()
    ensures ToWord(0x1_0000_0000) == 0x1_0000_0000
    ensures ToWord(0x2_8000_0000) == 0x2_8000_0000
  {
    hide FromWord, ToWord, Shl, Join2, Disjoint, Pow2;
    PowerOf32();
    OneIsOne();
    ShlNumber(1, 32);
    ShlNumber(1, 31);
    ShlNumber(1, 33);
    ConstantBits();
    JoinNumbers(Shl(1, 33), Shl(1, 31));
    WordsRoundTrip(0x1_0000_0000, 0x1_0000_0000);
    WordsRoundTrip(0x2_8000_0000, 0x2_8000_0000);
  }

  lemma OneIsOne()
    ensures FromWord(1) == 1
  {
    ZeroNumber();
    HalfWord(1);
    hide FromWord;
  }

  lemma ConstantBits()
    ensures Shl(1, 32) == 0x1_0000_0000
    ensures Join2(Shl(1, 33), Shl(1, 31)) == 0x2_8000_0000 && Disjoint(Shl(1, 33), Shl(1, 31))
  {
  }

  lemma SpillBits()
    ensures HighPart(0x1_0000_0000) == 0x1_0000_0000 && Disjoint(0x1_0000_0000, 0x2_8000_0000)
  {
  }

  lemma WrongHalves()
    ensures SetHigh(0, 1) == 0x1_0000_0000
    ensures SetLow(0x1_0000_0000, 0x2_8000_0000) == 0x3_8000_0000
  {
    hide FromWord, ToWord, LowHalf, HighHalf, HighPart, Join2, Disjoint;
    SetHighNumber(0, 1);
    WideConstants();
    SpillBits();
    LowHalfIs(0x1_0000_0000, 0x2_8000_0000);
    JoinNumbers(0x1_0000_0000, 0x2_8000_0000);
    WordsRoundTrip(0, 0x1_0000_0000);
    WordsRoundTrip(0, 0x2_8000_0000);
  }

  /** The registers do not cut the value: high half 1, then low half 0x8000_0000 from a 64-bit register
      that also holds bit 33, leaves 0x3_8000_0000 instead of 0x1_8000_0000. */
  lemma WrongRingAddress(v: Device, m: Mem)
    requires v.desc == 0
    ensures var high := VirtioMmio.Write(v, m, 0x084, 4, 1);
            var low := VirtioMmio.Write(high.dev, high.mem, 0x080, 4, 0x2_8000_0000);
            && high.result == Ok(Unit) && low.result == Ok(Unit)
            && high.dev.desc == 0x1_0000_0000 && low.dev.desc == 0x3_8000_0000
  {
    hide Notify, SetHigh, SetLow;
    WrongHalves();
  }

  // ---------- programming the queue over the bus ----------

  /** The standard map with the block device at 0x1000_1000. */
  predicate BlockMap(b: Bus) {
    StandardMap(b) && b.virtioRange == Range(0x1000_1000, 0x1000)
  }

  /** The map of every machine powered on with an image and stack clear of the devices. */
  lemma PowerOnMap(program: seq<u8>, address: nat, disk: seq<u8>, ncpu: nat)
    requires AddressMap.Placeable(|program|, address)
    ensures BlockMap(Smp.PowerOnBus(program, address, disk, ncpu))
  {
    hide Virtio.Grow;
  }

  lemma VirtioSelected(b: Bus, off: nat)
    requires BlockMap(b) && off + 4 <= 0x1000
    ensures AddressMap.Select(b.Layout(), 0x1000_1000 + off, 4) == Some((AddressMap.VirtioDev, off))
  {
  }

  lemma RegisterWrite(b: Bus, off: nat, v: u64)
    requires BlockMap(b) && off + 4 <= 0x1000
    ensures var r := VirtioMmio.Write(b.virtio, b.mem, off, 4, v);
            SystemBus.Write(b, 0x1000_1000 + off, 4, v) ==
            SystemBus.Written(r.result, b.(virtio := r.dev, mem := r.mem))
  {
    hide AddressMap.Select, BlockMap, VirtioMmio.Write;
    VirtioSelected(b, off);
  }

  /** The bus after two 4-byte register writes, the low half of an address and then its high half. */
  function TwoHalves(b: Bus, a: nat, address: u64): Bus {
    var b1 := SystemBus.Write(b, a, 4, address % TWO_32).bus;
    SystemBus.Write(b1, a + 4, 4, address / TWO_32).bus
  }

  /** 0x080/0x084 set the descriptor table, 0x090/0x094 the avail ring and 0x0a0/0x0a4 the used ring to
      the 64-bit address, whatever they held, and change nothing else. */
  lemma RingsProgrammed(b: Bus, address: u64)
    requires BlockMap(b)
    ensures TwoHalves(b, 0x1000_1080, address) == b.(virtio := b.virtio.(desc := address))
    ensures TwoHalves(b, 0x1000_1090, address) == b.(virtio := b.virtio.(avail := address))
    ensures TwoHalves(b, 0x1000_10a0, address) == b.(virtio := b.virtio.(used := address))
  {
    hide BlockMap, SystemBus.Write;
    DescProgrammed(b, address);
    AvailProgrammed(b, address);
    UsedProgrammed(b, address);
  }

  lemma SameMap(b: Bus, v: Device)
    requires BlockMap(b)
    ensures BlockMap(b.(virtio := v))
  {
  }

  lemma DescProgrammed(b: Bus, address: u64)
    requires BlockMap(b)
    ensures TwoHalves(b, 0x1000_1080, address) == b.(virtio := b.virtio.(desc := address))
  {
    hide BlockMap, SystemBus.Write, SetLow, SetHigh, Notify;
    var v := b.virtio;
    RegisterWrite(b, 0x080, address % TWO_32);
    SameMap(b, v.(desc := SetLow(v.desc, address % TWO_32)));
    RegisterWrite(b.(virtio := v.(desc := SetLow(v.desc, address % TWO_32))), 0x084, address / TWO_32);
    LowThenHighNumber(v.desc, address % TWO_32, address / TWO_32);
  }

  lemma AvailProgrammed(b: Bus, address: u64)
    requires BlockMap(b)
    ensures TwoHalves(b, 0x1000_1090, address) == b.(virtio := b.virtio.(avail := address))
  {
    hide BlockMap, SystemBus.Write, SetLow, SetHigh, Notify;
    var v := b.virtio;
    RegisterWrite(b, 0x090, address % TWO_32);
    SameMap(b, v.(avail := SetLow(v.avail, address % TWO_32)));
    RegisterWrite(b.(virtio := v.(avail := SetLow(v.avail, address % TWO_32))), 0x094, address / TWO_32);
    LowThenHighNumber(v.avail, address % TWO_32, address / TWO_32);
  }

  lemma UsedProgrammed(b: Bus, address: u64)
    requires BlockMap(b)
    ensures TwoHalves(b, 0x1000_10a0, address) == b.(virtio := b.virtio.(used := address))
  {
    hide BlockMap, SystemBus.Write, SetLow, SetHigh, Notify;
    var v := b.virtio;
    RegisterWrite(b, 0x0a0, address % TWO_32);
    SameMap(b, v.(used := SetLow(v.used, address % TWO_32)));
    RegisterWrite(b.(virtio := v.(used := SetLow(v.used, address % TWO_32))), 0x0a4, address / TWO_32);
    LowThenHighNumber(v.used, address % TWO_32, address / TWO_32);
  }

  /** QueueNum, QueueReady and the notify register. */
  lemma ControlRegisters(b: Bus, v: u64)
    requires BlockMap(b) && v < TWO_32
    ensures SystemBus.Write(b, 0x1000_1038, 4, v) == SystemBus.Written(Ok(Unit), b.(virtio := b.virtio.(queueNum := v)))
    ensures SystemBus.Write(b, 0x1000_1044, 4, v) ==
            SystemBus.Written(Ok(Unit), b.(virtio := b.virtio.(queueReady := v)))
    ensures var r := Notify(b.virtio, b.mem, v);
            SystemBus.Write(b, 0x1000_1050, 4, v) == SystemBus.Written(r.result, b.(virtio := r.dev, mem := r.mem))
  {
    hide BlockMap, SystemBus.Write, Notify;
    RegisterWrite(b, 0x038, v);
    RegisterWrite(b, 0x044, v);
    RegisterWrite(b, 0x050, v);
  }

  /** The bus after a driver sets up a queue of num entries with its table and rings at D, A and U. */
  function SetUp(b: Bus, num: u32, D: u64, A: u64, U: u64): Bus {
    var b1 := SystemBus.Write(b, 0x1000_1038, 4, num).bus;
    var b2 := TwoHalves(b1, 0x1000_1080, D);
    var b3 := TwoHalves(b2, 0x1000_1090, A);
    var b4 := TwoHalves(b3, 0x1000_10a0, U);
    SystemBus.Write(b4, 0x1000_1044, 4, 1).bus
  }

  lemma SetUpDevice(b: Bus, num: u32, D: u64, A: u64, U: u64)
    requires BlockMap(b)
    ensures BlockMap(SetUp(b, num, D, A, U))
    ensures SetUp(b, num, D, A, U) ==
            b.(virtio := b.virtio.(queueNum := num, desc := D, avail := A, used := U, queueReady := 1))
  {
    hide BlockMap, SystemBus.Write, TwoHalves;
    var v := b.virtio;
    var v1 := v.(queueNum := num);
    var v2 := v1.(desc := D);
    var v3 := v2.(avail := A);
    var v4 := v3.(used := U);
    ControlRegisters(b, num);
    SameMap(b, v1);
    RingsProgrammed(b.(virtio := v1), D);
    SameMap(b, v2);
    RingsProgrammed(b.(virtio := v2), A);
    SameMap(b, v3);
    RingsProgrammed(b.(virtio := v3), U);
    SameMap(b, v4);
    ControlRegisters(b.(virtio := v4), 1);
    SameMap(b, v4.(queueReady := 1));
  }

  /** A queue set up over the bus and notified over the bus: n entries published at A are completed at U.
      avail.idx is read at A + 2, used.idx at U + 2 moves by n, and used element i names the i-th head. */
  lemma DriverNotify(b: Bus, num: u32, D: u64, A: u64, U: u64, qi: u32, last: u16, used: u16, n: nat, i: nat)
    requires BlockMap(b) && num > 0 && i < n < 65536
    requires MemRead(b.mem, U + 2, 2) == Ok(used as nat) && MemRead(b.mem, A + 2, 2) == Ok((last + n) % 65536)
    requires last == if qi in b.virtio.last then b.virtio.last[qi] else used
    requires UsedRing.Undamaged(Virtio.Rings(num, D, A, U), b.virtio.disk, b.mem, last, used, n)
    requires SystemBus.Write(SetUp(b, num, D, A, U), 0x1000_1050, 4, qi).result.Ok?
    ensures var end := SystemBus.Write(SetUp(b, num, D, A, U), 0x1000_1050, 4, qi).bus;
            var element := U + 4 + (used + i) % 65536 % num * 8;
            && MemRead(end.mem, element, 4) == MemRead(b.mem, A + 4 + (last + i) % 65536 % num * 2, 2)
            && MemRead(end.mem, element, 4).Ok? && MemRead(end.mem, element + 4, 4) == Ok(0)
            && MemRead(end.mem, U + 2, 2) == Ok((used + n) % 65536)
            && end.virtio.interruptStatus % 2 == 1
  {
    hide BlockMap, SystemBus.Write, SetUp, MemRead, Notify, UsedRing.Undamaged;
    SetUpDevice(b, num, D, A, U);
    var b1 := SetUp(b, num, D, A, U);
    ControlRegisters(b1, qi);
    UsedRing.NotifyCompletes(b1.virtio, b.mem, qi, last, used, n, i);
    NotifyRaises(b1.virtio, b.mem, qi);
  }

  /** A completed notify of a live queue raises the used-buffer bit. */
  lemma NotifyRaises(v: Device, m: Mem, qi: u32)
    requires v.queueReady != 0 && v.queueNum != 0 && Notify(v, m, qi).result.Ok?
    ensures Notify(v, m, qi).dev.interruptStatus % 2 == 1
  {
    hide MemRead, Virtio.ServeMany;
  }

  // ---------- descriptors ----------

  /** Memory after a driver stores a descriptor: address, length, flags, next. */
  function StoreDesc(m: Mem, a: nat, addr: u64, length: u32, flags: u16, next: u16): Result<Mem> {
    var m1 :- MemWrite(m, a, 8, addr);
    var m2 :- MemWrite(m1, a + 8, 4, length);
    var m3 :- MemWrite(m2, a + 12, 2, flags);
    MemWrite(m3, a + 14, 2, next)
  }

  /** The device reads descriptor idx of a table, stored as those 16 bytes at base + 16 * idx, as its
      fields. */
  lemma DescriptorReadBack(m: Mem, base: nat, idx: u16, addr: u64, length: u32, flags: u16, next: u16)
    requires StoreDesc(m, base + 16 * idx, addr, length, flags, next).Ok?
    ensures Virtio.ReadDesc(StoreDesc(m, base + 16 * idx, addr, length, flags, next).value, base, idx) ==
            Ok(Virtio.Desc(idx, addr, length, flags, next))
  {
    hide MemRead, MemWrite;
    Pow256Values();
    var a := base + 16 * idx;
    var m1 := MemWrite(m, a, 8, addr).value;
    var m2 := MemWrite(m1, a + 8, 4, length).value;
    var m3 := MemWrite(m2, a + 12, 2, flags).value;
    ReadBack(m, a, 8, addr);
    ReadOverWrite(m1, a + 8, 4, length, a, 8);
    ReadOverWrite(m2, a + 12, 2, flags, a, 8);
    ReadOverWrite(m3, a + 14, 2, next, a, 8);
    ReadBack(m1, a + 8, 4, length);
    ReadOverWrite(m2, a + 12, 2, flags, a + 8, 4);
    ReadOverWrite(m3, a + 14, 2, next, a + 8, 4);
    ReadBack(m2, a + 12, 2, flags);
    ReadOverWrite(m3, a + 14, 2, next, a + 12, 2);
    ReadBack(m3, a + 14, 2, next);
  }

  /** Flag bit 0 links: three descriptors, the first two flagged and naming the next, are one chain. */
  lemma ThreeLinked(m: Mem, base: nat, i: u16, j: u16, k: u16,
                    first: Virtio.Desc, second: Virtio.Desc, third: Virtio.Desc)
    requires Virtio.ReadDesc(m, base, i) == Ok(first) && first.flags % 2 == 1 && first.next == j
    requires Virtio.ReadDesc(m, base, j) == Ok(second) && second.flags % 2 == 1 && second.next == k
    requires Virtio.ReadDesc(m, base, k) == Ok(third) && third.flags % 2 == 0
    requires i != j && j != k && i != k
    ensures Virtio.Chain(m, base, i, {}) == Ok([first, second, third])
  {
    hide Virtio.ReadDesc;
    var none: set<u16> := {};
    var one, two := none + {i}, none + {i} + {j};
    assert Virtio.Chain(m, base, k, two) == Ok([third]);
    assert Virtio.Chain(m, base, j, one) == Ok([second] + [third]);
    assert Virtio.Chain(m, base, i, none) == Ok([first] + ([second] + [third]));
    assert [first] + ([second] + [third]) == [first, second, third];
  }

  // ---------- probing, acknowledging, resetting ----------

  lemma RegisterRead(b: Bus, off: nat)
    requires BlockMap(b) && off + 4 <= 0x1000
    ensures SystemBus.Read(b, 0x1000_1000 + off, 4) == SystemBus.Loaded(VirtioMmio.Read(b.virtio, off, 4), b)
  {
    hide AddressMap.Select, BlockMap, VirtioMmio.Read;
    VirtioSelected(b, off);
  }

  /** What a driver probes: "virt", version 2, a block device, the vendor, features, the largest queue,
      ready flag, interrupt status and status. */
  lemma Probed(b: Bus)
    requires BlockMap(b)
    ensures SystemBus.Read(b, 0x1000_1000, 4).value == Ok(0x7472_6976)
    ensures SystemBus.Read(b, 0x1000_1004, 4).value == Ok(2)
    ensures SystemBus.Read(b, 0x1000_1008, 4).value == Ok(2)
    ensures SystemBus.Read(b, 0x1000_100c, 4).value == Ok(0x554d_4551)
    ensures SystemBus.Read(b, 0x1000_1010, 4).value == Ok(b.virtio.deviceFeatures)
    ensures SystemBus.Read(b, 0x1000_1034, 4).value == Ok(0x8000)
    ensures SystemBus.Read(b, 0x1000_1044, 4).value == Ok(b.virtio.queueReady)
    ensures SystemBus.Read(b, 0x1000_1060, 4).value == Ok(b.virtio.interruptStatus)
    ensures SystemBus.Read(b, 0x1000_1070, 4).value == Ok(b.virtio.status)
  {
    hide BlockMap, SystemBus.Read;
    RegisterRead(b, 0x010);
    RegisterRead(b, 0x034);
    RegisterRead(b, 0x044);
    RegisterRead(b, 0x070);
    RegisterRead(b, 0x000);
    RegisterRead(b, 0x004);
    RegisterRead(b, 0x008);
    RegisterRead(b, 0x00c);
    RegisterRead(b, 0x060);
  }

  lemma AckBits()
    ensures Ack(1, 1) == 0 && Ack(0, 1) == 0
  {
  }

  /** Writing 1 to the acknowledge register drops the interrupt line and changes nothing else. */
  lemma Acknowledged(b: Bus)
    requires BlockMap(b) && b.virtio.interruptStatus <= 1
    ensures var w := SystemBus.Write(b, 0x1000_1064, 4, 1);
            && w.result.Ok? && w.bus == b.(virtio := b.virtio.(interruptStatus := 0)) && !Asserted(w.bus, 1)
  {
    hide BlockMap, SystemBus.Write, Ack, Notify;
    RegisterWrite(b, 0x064, 1);
    AckBits();
  }

  /** The registers a driver negotiates with hold what it writes; a nonzero status resets nothing. */
  lemma Negotiated(b: Bus, v: u64)
    requires BlockMap(b) && v < TWO_32
    ensures SystemBus.Write(b, 0x1000_1020, 4, v) ==
            SystemBus.Written(Ok(Unit), b.(virtio := b.virtio.(driverFeatures := v)))
    ensures SystemBus.Write(b, 0x1000_1030, 4, v) == SystemBus.Written(Ok(Unit), b.(virtio := b.virtio.(queueSel := v)))
    ensures v != 0 ==>
              SystemBus.Write(b, 0x1000_1070, 4, v) == SystemBus.Written(Ok(Unit), b.(virtio := b.virtio.(status := v)))
  {
    hide BlockMap, SystemBus.Write, Notify;
    RegisterWrite(b, 0x020, v);
    RegisterWrite(b, 0x030, v);
    RegisterWrite(b, 0x070, v);
  }

  /** Writing 0 to the status register forgets the queue, its addresses and its progress. */
  lemma WholeReset(b: Bus)
    requires BlockMap(b)
    ensures var w := SystemBus.Write(b, 0x1000_1070, 4, 0);
            && w.result.Ok? && w.bus.mem == b.mem
            && w.bus.virtio == b.virtio.(status := 0, queueReady := 0, queueNum := 0, desc := 0, avail := 0, used := 0,
                                         last := map[])
  {
    hide BlockMap, SystemBus.Write, Notify;
    RegisterWrite(b, 0x070, 0);
  }
}
