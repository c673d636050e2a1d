/** The bus and the VirtIO block device (bus.rs, virtio.rs) as objects updated in place. They share a
    module because the device's DMA goes through the bus that dispatched to it. */
module BusObject {
  import opened Base
  import opened Memory
  import opened AddressMap
  import opened Components
  import opened RangeTable
  import opened Virtio
  import VirtioQueue
  import VirtioMmio
  import SystemBus
  import PlicModel = Plic
  import ClintModel = Clint
  import UartModel = Uart

  class VirtIOBlk {
    var disk: seq<u8>
    var deviceFeatures: u32
    var driverFeatures: u32
    var queueSel: u32
    var queueNum: u32
    var queueReady: u32
    var descAddr: u64
    var availAddr: u64
    var usedAddr: u64
    var status: u32
    var interruptStatus: u32
    var lastAvailIdx: map<u32, u16>

    ghost function View(): VirtioQueue.Device
      reads this
    {
      VirtioQueue.Device(disk, deviceFeatures, driverFeatures, queueSel, queueNum, queueReady,
                         descAddr, availAddr, usedAddr, status, interruptStatus, lastAvailIdx)
    }

    constructor (image: seq<u8>, size: nat)
      ensures View() == VirtioQueue.Device(Grow(image, size), 0, 0, 0, 0, 0, 0, 0, 0, 0, 0, map[])
    {
      disk := Grow(image, size);
      deviceFeatures, driverFeatures, queueSel, queueNum, queueReady := 0, 0, 0, 0, 0;
      descAddr, availAddr, usedAddr, status, interruptStatus := 0, 0, 0, 0, 0;
      lastAvailIdx := map[];
    }

    /** Follows the descriptor chain, guarding against cycles. */
    method CollectChain(bus: Bus, base: nat, head: u16) returns (r: Result<seq<Desc>>)
      requires bus.Valid()
      ensures r == Chain(bus.Mem(), base, head, {})
    {
      hide MemRead, ReadDesc;
      ghost var m := bus.Mem();
      var descs, idx, seen: set<u16> := [], head, {};
      PrefixNone(Chain(m, base, head, {}));
      while idx !in seen
        invariant Chain(m, base, head, {}) == Prefixed(descs, Chain(m, base, idx, seen))
        decreases TWO_16 - |seen|
      {
        U16SetBound(seen + {idx});
        seen := seen + {idx};
        var d := bus.ReadDescriptor(base, idx);
        if d.Err? {
          return Err(d.error);
        }
        PrefixOne(descs, d.value, Chain(m, base, d.value.next, seen));
        PrefixOne(descs, d.value, Ok([]));
        descs := descs + [d.value];
        if !d.value.HasNext() {
          return Ok(descs);
        }
        idx := d.value.next;
      }
      assert descs + [] == descs;
      return Ok(descs);
    }

    /** Writes a block of disk bytes into guest memory. */
    method DeliverBytes(bus: Bus, data: nat, chunk: seq<u8>) returns (r: Result<Unit>)
      requires bus.Valid()
      modifies bus.ram.data, bus.stack.data, bus.bootloader.data
      ensures Stored(r, bus.Mem()) == WriteBytes(old(bus.Mem()), data, chunk)
    {
      hide MemWrite;
      for i := 0 to |chunk|
        invariant WriteBytes(bus.Mem(), data + i, chunk[i..]) == WriteBytes(old(bus.Mem()), data, chunk)
      {
        assert chunk[i..][1..] == chunk[i + 1..];
        var w := bus.WriteMemory(data + i, 1, chunk[i]);
        if w.Err? {
          return w;
        }
      }
      return Ok(Unit);
    }

    /** Reads a block of guest memory. */
    method CollectBytes(bus: Bus, data: nat, len: nat) returns (r: Result<seq<u8>>)
      requires bus.Valid()
      ensures r == ReadBytes(bus.Mem(), data, len)
    {
      hide MemRead;
      Pow256Values();
      var chunk: seq<u8> := [];
      PrefixNone(ReadBytes(bus.Mem(), data, len));
      for i := 0 to len
        invariant |chunk| == i
        invariant ReadBytes(bus.Mem(), data, len) == Prefixed(chunk, ReadBytes(bus.Mem(), data + i, len - i))
      {
        var b := bus.ReadMemory(data + i, 1);
        if b.Err? {
          return Err(b.error);
        }
        PrefixOne(chunk, b.value, ReadBytes(bus.Mem(), data + i + 1, len - i - 1));
        chunk := chunk + [b.value];
      }
      assert chunk + [] == chunk;
      return Ok(chunk);
    }

    /** Moves data between disk and guest memory. */
    method TransferData(bus: Bus, reqType: nat, offset: nat, data: nat, len: nat) returns (r: Result<nat>)
      requires bus.Valid()
      modifies this`disk, bus.ram.data, bus.stack.data, bus.bootloader.data
      ensures Served(r, disk, bus.Mem()) == Transfer(old(disk), old(bus.Mem()), reqType, offset, data, len)
    {
      hide WriteBytes, ReadBytes;
      if reqType == BLK_T_IN {
        var end := offset + len;
        if end >= TWO_64 {
          return Err(Overflow);
        }
        disk := Grow(disk, end);
        var w := DeliverBytes(bus, data, disk[offset..end]);
        if w.Err? {
          return Err(w.error);
        }
      } else if reqType == BLK_T_OUT {
        var chunk := CollectBytes(bus, data, len);
        if chunk.Err? {
          return Err(chunk.error);
        }
        var end := offset + len;
        if end >= TWO_64 {
          return Err(Overflow);
        }
        disk := Grow(disk, end);
        disk := disk[..offset] + chunk.value + disk[end..];
      }
      return Ok(0);
    }

    method ProcessDescriptorChain(bus: Bus, base: nat, head: u16) returns (r: Result<nat>)
      requires bus.Valid()
      modifies this`disk, bus.ram.data, bus.stack.data, bus.bootloader.data
      ensures Served(r, disk, bus.Mem()) == ServeChain(old(disk), old(bus.Mem()), base, head)
    {
      hide MemRead, MemWrite, Chain, Transfer;
      var descs := CollectChain(bus, base, head);
      if descs.Err? {
        return Err(descs.error);
      }
      var ds := descs.value;
      if |ds| < 3 {
        return Ok(0);
      }
      var header, data, len, done := ds[0].addr, ds[1].addr, ds[1].length, ds[|ds| - 1].addr;
      var reqType := bus.ReadMemory(header, 4);
      if reqType.Err? {
        return reqType;
      }
      var sector := bus.ReadMemory(header + 8, 8);
      if sector.Err? {
        return sector;
      }
      var offset := sector.value * SECTOR_SIZE;
      if offset >= TWO_64 {
        return Err(Overflow);
      }
      r := TransferData(bus, reqType.value, offset, data, len);
      if r.Err? {
        return;
      }
      var w := bus.WriteMemory(done, 1, 0);
      if w.Err? {
        return Err(w.error);
      }
      return Ok(0);
    }

    /** One turn of the queue loop. */
    method ServeOne(bus: Bus, last: u16, used: u16) returns (r: Result<nat>)
      requires bus.Valid() && queueNum > 0
      modifies this`disk, bus.ram.data, bus.stack.data, bus.bootloader.data
      ensures Served(r, disk, bus.Mem()) ==
              ServeEntry(old(View().Rings()), old(disk), old(bus.Mem()), last, used)
    {
      hide MemRead, MemWrite, ServeChain, Wrap;
      Pow256Values();
      WrapIsMod(last, queueNum);
      WrapIsMod(used, queueNum);
      var ringOff := availAddr + 4 + last % queueNum * 2;
      var head := bus.ReadMemory(ringOff, 2);
      if head.Err? {
        return head;
      }
      r := ProcessDescriptorChain(bus, descAddr, head.value);
      if r.Err? {
        return;
      }
      var elem := usedAddr + 4 + used % queueNum * 8;
      var w := bus.WriteMemory(elem, 4, head.value);
      if w.Err? {
        return Err(w.error);
      }
      w := bus.WriteMemory(elem + 4, 4, r.value);
      if w.Err? {
        return Err(w.error);
      }
      w := bus.WriteMemory(usedAddr + 2, 2, (used + 1) % TWO_16);
      if w.Err? {
        return Err(w.error);
      }
    }

    /** The queue loop: runs until the ring counter has caught up with avail, which is exactly the
        ring distance at entry, whatever the requests do to guest memory meanwhile. */
    method ServeUpTo(bus: Bus, avail: u16, from: u16, initial: u16) returns (r: Result<nat>)
      requires bus.Valid() && queueNum > 0
      modifies this`disk, bus.ram.data, bus.stack.data, bus.bootloader.data
      ensures Served(r, disk, bus.Mem()) ==
              ServeMany(View().Rings(), old(disk), old(bus.Mem()), from, initial, VirtioQueue.Pending(avail, from))
    {
      hide ServeEntry;
      var last: u16, used: u16 := from, initial;
      ghost var q := View().Rings();
      ghost var goal := ServeMany(q, disk, bus.Mem(), last, used, VirtioQueue.Pending(avail, last));
      while last != avail
        invariant View().Rings() == q
        invariant goal == ServeMany(q, disk, bus.Mem(), last, used, VirtioQueue.Pending(avail, last))
        decreases VirtioQueue.Pending(avail, last)
      {
        PendingShrinks(avail, last);
        r := ServeOne(bus, last, used);
        if r.Err? {
          return;
        }
        last, used := (last + 1) % TWO_16, (used + 1) % TWO_16;
      }
      return Ok(0);
    }

    /** avail.idx and used.idx, in that order. */
    method ReadIndices(bus: Bus) returns (r: Result<(u16, u16)>)
      requires bus.Valid()
      ensures var avail := MemRead(bus.Mem(), View().Rings().AvailIdx(), 2);
              var used := MemRead(bus.Mem(), View().Rings().UsedIdx(), 2);
              if avail.Err? then r == Err(avail.error)
              else if used.Err? then r == Err(used.error)
              else r.Ok? && r.value.0 == avail.value && r.value.1 == used.value
    {
      hide MemRead;
      Pow256Values();
      var avail := bus.ReadMemory(availAddr + 2, 2);
      if avail.Err? {
        return Err(avail.error);
      }
      var used := bus.ReadMemory(usedAddr + 2, 2);
      if used.Err? {
        return Err(used.error);
      }
      return Ok((avail.value, used.value));
    }

    /** QUEUE_NOTIFY. */
    method ProcessQueue(bus: Bus, queue: u32) returns (r: Result<Unit>)
      requires bus.Valid()
      modifies this, bus.ram.data, bus.stack.data, bus.bootloader.data
      ensures VirtioQueue.Notified(r, View(), bus.Mem()) == VirtioQueue.Notify(old(View()), old(bus.Mem()), queue)
    {
      hide MemRead, ServeMany;
      if queueReady == 0 || queueNum == 0 {
        return Ok(Unit);
      }
      var indices := ReadIndices(bus);
      if indices.Err? {
        return Err(indices.error);
      }
      var (avail, initial) := indices.value;
      var last: u16 := if queue in lastAvailIdx then lastAvailIdx[queue] else initial;
      var served := ServeUpTo(bus, avail, last, initial);
      if served.Err? {
        return Err(served.error);
      }
      lastAvailIdx := lastAvailIdx[queue := avail];
      interruptStatus := VirtioQueue.RaiseLine(interruptStatus);
      return Ok(Unit);
    }

    method Read(a: nat, n: nat) returns (r: Result<u32>)
      ensures r == VirtioMmio.Read(View(), a, n)
    {
      if n != 4 {
        return Err(BadSize);
      }
      match a
      case 0x000 => return Ok(VirtioMmio.MAGIC);
      case 0x004 => return Ok(2);
      case 0x008 => return Ok(2);
      case 0x00c => return Ok(VirtioMmio.VENDOR);
      case 0x010 => return Ok(deviceFeatures);
      case 0x034 => return Ok(VirtioMmio.QUEUE_NUM_MAX_VALUE);
      case 0x044 => return Ok(queueReady);
      case 0x060 => return Ok(interruptStatus);
      case 0x070 => return Ok(status);
      case _ => return Ok(0);
    }

    method Write(bus: Bus, a: nat, n: nat, value: u64) returns (r: Result<Unit>)
      requires bus.Valid()
      modifies this, bus.ram.data, bus.stack.data, bus.bootloader.data
      ensures VirtioQueue.Notified(r, View(), bus.Mem()) == VirtioMmio.Write(old(View()), old(bus.Mem()), a, n, value)
    {
      hide VirtioQueue.Notify, VirtioMmio.SetLow, VirtioMmio.SetHigh, VirtioMmio.Ack;
      if n != 4 {
        return Err(BadSize);
      }
      var word := value % TWO_32;
      r := Ok(Unit);
      match a
      case 0x050 =>
        r := ProcessQueue(bus, word);
        return;
      case 0x020 => driverFeatures := word;
      case 0x030 => queueSel := word;
      case 0x038 => queueNum := word;
      case 0x044 => queueReady := word;
      case 0x080 => descAddr := VirtioMmio.SetLow(descAddr, value);
      case 0x084 => descAddr := VirtioMmio.SetHigh(descAddr, value);
      case 0x090 => availAddr := VirtioMmio.SetLow(availAddr, value);
      case 0x094 => availAddr := VirtioMmio.SetHigh(availAddr, value);
      case 0x0a0 => usedAddr := VirtioMmio.SetLow(usedAddr, value);
      case 0x0a4 => usedAddr := VirtioMmio.SetHigh(usedAddr, value);
      case 0x064 => interruptStatus := VirtioMmio.Ack(interruptStatus, word);
      case 0x070 =>
        status := word;
        if word == 0 {
          queueReady, queueNum, descAddr, availAddr, usedAddr := 0, 0, 0, 0, 0;
          lastAvailIdx := map[];
        }
      case _ =>
    }
  }

  lemma PendingShrinks(avail: u16, last: u16)
    requires last != avail
    ensures VirtioQueue.Pending(avail, last) == VirtioQueue.Pending(avail, (last + 1) % TWO_16) + 1
  {
  }

  /** A result with earlier elements put back in front. */
  function Prefixed<T>(front: seq<T>, r: Result<seq<T>>): Result<seq<T>> {
    match r
    case Err(e) => Err(e)
    case Ok(rest) => Ok(front + rest)
  }

  lemma PrefixNone<T>(r: Result<seq<T>>)
    ensures Prefixed([], r) == r
  {
    if r.Ok? {
      assert [] + r.value == r.value;
    }
  }

  lemma PrefixOne<T>(front: seq<T>, x: T, r: Result<seq<T>>)
    ensures Prefixed(front + [x], r) == Prefixed(front, Prefixed([x], r))
  {
    if r.Ok? {
      assert (front + [x]) + r.value == front + ([x] + r.value);
    }
  }

  /** Three separate empty memories. */
  method NoMemories() returns (a: Ram, b: Ram, c: Ram)
    ensures fresh(a.data) && fresh(b.data) && fresh(c.data)
    ensures a.data != b.data && a.data != c.data && b.data != c.data
    ensures a.data.Length == 0 && b.data.Length == 0 && c.data.Length == 0
  {
    a := new Ram(0, []);
    b := new Ram(0, []);
    c := new Ram(0, []);
  }

  /** Devices for the fields that are not populated yet. */
  method NoDevices() returns (clint: Clint, uart: Uart, plic: Components.Plic, virtio: VirtIOBlk)
    ensures fresh({clint, uart, virtio, plic.priority, plic.enable, plic.threshold}) && plic.Valid()
  {
    clint := new Clint(0);
    uart := new Uart();
    plic := new Components.Plic();
    virtio := new VirtIOBlk([], 0);
  }

  class Bus {
    const ranges: RangeManager
    var ram: Ram
    var ramRange: Range
    var stack: Ram
    var stackRange: Range
    var bootloader: Ram
    var bootloaderRange: Range
    var clint: Clint
    var clintRange: Range
    var uart: Uart
    var uartRange: Range
    var plic: Components.Plic
    var plicRange: Range
    var virtio: VirtIOBlk
    var virtioRange: Range

    ghost predicate Valid()
      reads this
    {
      && ramRange.size == ram.data.Length
      && stackRange.size == stack.data.Length
      && bootloaderRange.size == bootloader.data.Length
      && ram.data != stack.data && ram.data != bootloader.data && stack.data != bootloader.data
      && plic.Valid()
      && {plic.priority, plic.enable, plic.threshold} !! {ram.data, stack.data, bootloader.data}
    }

    /** Everything an access may change. */
    ghost function Footprint(): set<object>
      reads this
    {
      {ram.data, stack.data, bootloader.data, clint, uart, plic.priority, plic.enable, plic.threshold, virtio}
    }

    /** The whole bus as a value. */
    ghost function View(): SystemBus.Bus
      requires Valid()
      reads this, ram.data, stack.data, bootloader.data, clint, uart, plic.priority, plic.enable, plic.threshold, virtio
    {
      SystemBus.Bus(Mem(), clint.View(), clintRange, uart.View(), uartRange, plic.View(), plicRange,
                    virtio.View(), virtioRange)
    }

    /** No device mapped yet. */
    constructor ()
      ensures Valid() && fresh(ranges) && ranges.Valid() && fresh(Footprint())
      ensures Map() == EMPTY_MAP
    {
      hide Sorted;
      ranges := new RangeManager();
      var a, b, c := NoMemories();
      ram, stack, bootloader := a, b, c;
      var t, u, p, d := NoDevices();
      clint, uart, plic, virtio := t, u, p, d;
      ramRange, stackRange, bootloaderRange := NONE, NONE, NONE;
      clintRange, uartRange, plicRange, virtioRange := NONE, NONE, NONE, NONE;
    }

    /** The plain memories. */
    ghost function Mem(): Memory.Mem
      reads this, ram.data, stack.data, bootloader.data
    {
      Memory.Mem(Region(ramRange.start, ram.data[..]), Region(stackRange.start, stack.data[..]),
                 Region(bootloaderRange.start, bootloader.data[..]))
    }

    /** The memory arms of the dispatch chain. */
    method ReadMemory(a: nat, n: nat) returns (r: Result<nat>)
      requires Valid()
      ensures r == MemRead(Mem(), a, n)
    {
      hide LoadLE;
      if ramRange.Contains(a, n) {
        r := ram.Read(a - ramRange.start, n);
      } else if stackRange.Contains(a, n) {
        r := stack.Read(a - stackRange.start, n);
      } else if bootloaderRange.Contains(a, n) {
        r := bootloader.Read(a - bootloaderRange.start, n);
      } else {
        r := Err(Unmapped);
      }
    }

    method WriteMemory(a: nat, n: nat, value: nat) returns (r: Result<Unit>)
      requires Valid()
      modifies ram.data, stack.data, bootloader.data
      ensures match MemWrite(old(Mem()), a, n, value)
              case Err(e) => r == Err(e) && Mem() == old(Mem())
              case Ok(m) => r == Ok(Unit) && Mem() == m
    {
      hide StoreLE;
      if ramRange.Contains(a, n) {
        r := ram.Write(a - ramRange.start, n, value);
      } else if stackRange.Contains(a, n) {
        r := stack.Write(a - stackRange.start, n, value);
      } else if bootloaderRange.Contains(a, n) {
        r := bootloader.Write(a - bootloaderRange.start, n, value);
      } else {
        r := Err(Unmapped);
      }
    }

    method ReadDescriptor(base: nat, idx: u16) returns (r: Result<Desc>)
      requires Valid()
      ensures r == ReadDesc(Mem(), base, idx)
    {
      hide MemRead;
      Pow256Values();
      var off := base + idx * 16;
      var addr := ReadMemory(off, 8);
      if addr.Err? {
        return Err(addr.error);
      }
      var length := ReadMemory(off + 8, 4);
      if length.Err? {
        return Err(length.error);
      }
      var flags := ReadMemory(off + 12, 2);
      if flags.Err? {
        return Err(flags.error);
      }
      var next := ReadMemory(off + 14, 2);
      if next.Err? {
        return Err(next.error);
      }
      return Ok(Desc(idx, addr.value, length.value, flags.value, next.value));
    }

    /** The interrupt lines, sampled from the devices. */
    method Lines() returns (lines: seq<PlicModel.Line>)
      requires Valid()
      ensures lines == View().Lines()
    {
      var raised := uart.InterruptStatus();
      lines := [PlicModel.Line(SystemBus.UART0_IRQ, raised),
                PlicModel.Line(SystemBus.VIRTIO0_IRQ, virtio.interruptStatus % 2 == 1)];
    }

    /** The dispatch chain. */
    method Read(a: nat, n: nat) returns (r: Result<u64>)
      requires Valid()
      modifies uart
      ensures Valid() && SystemBus.Loaded(r, View()) == SystemBus.Read(old(View()), a, n)
    {
      hide LoadLE, PlicModel.PendingMask, PlicModel.State.Read, UartModel.State.Read, VirtioMmio.Read;
      Pow256Values();
      if ramRange.Contains(a, n) || stackRange.Contains(a, n) || bootloaderRange.Contains(a, n) {
        var v := ReadMemory(a, n);
        r := if v.Ok? then Ok(v.value) else Err(v.error);
      } else if clintRange.Contains(a, n) {
        r := clint.Read(a - clintRange.start, n);
      } else if uartRange.Contains(a, n) {
        var v := uart.Read(a - uartRange.start, n);
        r := if v.Ok? then Ok(v.value) else Err(v.error);
      } else if plicRange.Contains(a, n) {
        var lines := Lines();
        var pending := plic.PendingMask(lines);
        r := plic.Read(pending, a - plicRange.start, n);
      } else if virtioRange.Contains(a, n) {
        r := virtio.Read(a - virtioRange.start, n);
      } else {
        r := Err(Unmapped);
      }
    }

    method Write(a: nat, n: nat, value: u64) returns (r: Result<Unit>)
      requires Valid()
      modifies Footprint()
      ensures Valid() && SystemBus.Written(r, View()) == SystemBus.Write(old(View()), a, n, value)
    {
      hide MemWrite, PlicModel.State.Write, UartModel.State.Write, ClintModel.State.Write, VirtioMmio.Write;
      if ramRange.Contains(a, n) || stackRange.Contains(a, n) || bootloaderRange.Contains(a, n) {
        r := WriteMemory(a, n, value);
      } else if clintRange.Contains(a, n) {
        r := clint.Write(a - clintRange.start, n, value);
      } else if uartRange.Contains(a, n) {
        r := uart.Write(a - uartRange.start, n, value);
      } else if plicRange.Contains(a, n) {
        r := plic.Write(a - plicRange.start, n, value);
      } else if virtioRange.Contains(a, n) {
        r := virtio.Write(this, a - virtioRange.start, n, value);
      } else {
        r := Err(Unmapped);
      }
    }

    // ---------- building the map ----------

    /** The populated range fields and the table behind them. */
    ghost function Map(): AddressMap.Map
      requires ranges.Valid()
      reads this, ranges
    {
      AddressMap.Map(Layout(ramRange, stackRange, bootloaderRange, clintRange, uartRange, plicRange, virtioRange),
                     ranges.View())
    }

    method SetRam(device: Ram, start: nat) returns (r: Result<Unit>)
      requires Valid() && ranges.Valid() && device.data != stack.data && device.data != bootloader.data
      requires {device.data} !! {plic.priority, plic.enable, plic.threshold}
      modifies this`ram, this`ramRange, ranges
      ensures Valid() && ranges.Valid()
      ensures match Install(old(Map()), RamDev, Range(start, device.data.Length))
              case Err(e) => r == Err(e) && Map() == old(Map())
              case Ok(m) => r == Ok(Unit) && Map() == m && ram == device && ramRange == Range(start, device.data.Length)
    {
      hide AddRange;
      var reserved := ranges.Add(Range(start, device.data.Length));
      if reserved.Err? {
        return Err(reserved.error);
      }
      ramRange := Range(start, device.data.Length);
      ram := device;
      return Ok(Unit);
    }

    method SetStack(device: Ram, start: nat) returns (r: Result<Unit>)
      requires Valid() && ranges.Valid() && device.data != ram.data && device.data != bootloader.data
      requires {device.data} !! {plic.priority, plic.enable, plic.threshold}
      modifies this`stack, this`stackRange, ranges
      ensures Valid() && ranges.Valid()
      ensures match Install(old(Map()), StackDev, Range(start, device.data.Length))
              case Err(e) => r == Err(e) && Map() == old(Map())
              case Ok(m) =>
                r == Ok(Unit) && Map() == m && stack == device && stackRange == Range(start, device.data.Length)
    {
      hide AddRange;
      var reserved := ranges.Add(Range(start, device.data.Length));
      if reserved.Err? {
        return Err(reserved.error);
      }
      stackRange := Range(start, device.data.Length);
      stack := device;
      return Ok(Unit);
    }

    method SetBootloader(device: Ram, start: nat) returns (r: Result<Unit>)
      requires Valid() && ranges.Valid() && device.data != ram.data && device.data != stack.data
      requires {device.data} !! {plic.priority, plic.enable, plic.threshold}
      modifies this`bootloader, this`bootloaderRange, ranges
      ensures Valid() && ranges.Valid()
      ensures match Install(old(Map()), BootDev, Range(start, device.data.Length))
              case Err(e) => r == Err(e) && Map() == old(Map())
              case Ok(m) =>
                && r == Ok(Unit) && Map() == m && bootloader == device
                && bootloaderRange == Range(start, device.data.Length)
    {
      hide AddRange;
      var reserved := ranges.Add(Range(start, device.data.Length));
      if reserved.Err? {
        return Err(reserved.error);
      }
      bootloaderRange := Range(start, device.data.Length);
      bootloader := device;
      return Ok(Unit);
    }

    method SetClint(device: Clint, start: nat) returns (r: Result<Unit>)
      requires Valid() && ranges.Valid()
      modifies this`clint, this`clintRange, ranges
      ensures Valid() && ranges.Valid()
      ensures match Install(old(Map()), ClintDev, Range(start, CLINT_SIZE))
              case Err(e) => r == Err(e) && Map() == old(Map())
              case Ok(m) => r == Ok(Unit) && Map() == m && clint == device && clintRange == Range(start, CLINT_SIZE)
    {
      hide AddRange;
      var reserved := ranges.Add(Range(start, CLINT_SIZE));
      if reserved.Err? {
        return Err(reserved.error);
      }
      clintRange := Range(start, CLINT_SIZE);
      clint := device;
      return Ok(Unit);
    }

    method SetUart(device: Uart, start: nat) returns (r: Result<Unit>)
      requires Valid() && ranges.Valid()
      modifies this`uart, this`uartRange, ranges
      ensures Valid() && ranges.Valid()
      ensures match Install(old(Map()), UartDev, Range(start, UART_SIZE))
              case Err(e) => r == Err(e) && Map() == old(Map())
              case Ok(m) => r == Ok(Unit) && Map() == m && uart == device && uartRange == Range(start, UART_SIZE)
    {
      hide AddRange;
      var reserved := ranges.Add(Range(start, UART_SIZE));
      if reserved.Err? {
        return Err(reserved.error);
      }
      uartRange := Range(start, UART_SIZE);
      uart := device;
      return Ok(Unit);
    }

    method SetPlic(device: Components.Plic, start: nat) returns (r: Result<Unit>)
      requires Valid() && ranges.Valid() && device.Valid()
      requires {device.priority, device.enable, device.threshold} !! {ram.data, stack.data, bootloader.data}
      modifies this`plic, this`plicRange, ranges
      ensures Valid() && ranges.Valid()
      ensures match Install(old(Map()), PlicDev, Range(start, PLIC_SIZE))
              case Err(e) => r == Err(e) && Map() == old(Map())
              case Ok(m) => r == Ok(Unit) && Map() == m && plic == device && plicRange == Range(start, PLIC_SIZE)
    {
      hide AddRange;
      var reserved := ranges.Add(Range(start, PLIC_SIZE));
      if reserved.Err? {
        return Err(reserved.error);
      }
      plicRange := Range(start, PLIC_SIZE);
      plic := device;
      return Ok(Unit);
    }

    method SetVirtio(device: VirtIOBlk, start: nat) returns (r: Result<Unit>)
      requires Valid() && ranges.Valid()
      modifies this`virtio, this`virtioRange, ranges
      ensures Valid() && ranges.Valid()
      ensures match Install(old(Map()), VirtioDev, Range(start, VIRTIO_SIZE))
              case Err(e) => r == Err(e) && Map() == old(Map())
              case Ok(m) => r == Ok(Unit) && Map() == m && virtio == device && virtioRange == Range(start, VIRTIO_SIZE)
    {
      hide AddRange;
      var reserved := ranges.Add(Range(start, VIRTIO_SIZE));
      if reserved.Err? {
        return Err(reserved.error);
      }
      virtioRange := Range(start, VIRTIO_SIZE);
      virtio := device;
      return Ok(Unit);
    }
  }
}
