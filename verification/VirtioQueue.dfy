/** Queue notification (virtio.rs) and its whole-queue guarantees: exact service counts for
    arbitrary memory, ring indices in step over every run, and batch = one at a time. */
module VirtioQueue {
  import opened Base
  import opened Memory
  import opened Virtio

  /** The device registers, its disk and the per-queue progress. */
  datatype Device = Device(
    disk: seq<u8>,
    deviceFeatures: u32,
    driverFeatures: u32,
    queueSel: u32,
    queueNum: u32,
    queueReady: u32,
    desc: u64,
    avail: u64,
    used: u64,
    status: u32,
    interruptStatus: u32,
    last: map<u32, u16>)
  {
    function Rings(): Virtio.Rings {
      Virtio.Rings(queueNum, desc, avail, used)
    }

    predicate Live() {
      queueReady != 0 && queueNum != 0
    }
  }

  datatype Notified = Notified(result: Result<Unit>, dev: Device, mem: Mem)

  /** Distance from last to avail on the 16-bit ring counter. */
  function Pending(avail: u16, last: u16): (n: u16)
    ensures (last + n) % TWO_16 == avail
  {
    (avail - last) % TWO_16
  }

  /** interrupt_status |= 1. */
  function RaiseLine(s: u32): (r: u32) {
    if s % 2 == 0 then s + 1 else s
  }

  function Serve(v: Device, m: Mem, qi: u32, avail: u16, last: u16, used: u16): (r: Notified)
    requires v.Live()
  {
    var s := ServeMany(v.Rings(), v.disk, m, last, used, Pending(avail, last));
    var v1 := v.(disk := s.disk);
    match s.length
    case Err(e) => Notified(Err(e), v1, s.mem)
    case Ok(_) =>
      Notified(Ok(Unit), v1.(last := v.last[qi := avail], interruptStatus := RaiseLine(v.interruptStatus)), s.mem)
  }

  /** QUEUE_NOTIFY on queue qi. */
  function Notify(v: Device, m: Mem, qi: u32): (r: Notified)
    ensures SameShape(m, r.mem)
  {
    if !v.Live() then Notified(Ok(Unit), v, m)
    else
      Pow256Values();
      match MemRead(m, v.Rings().AvailIdx(), 2)
      case Err(e) => Notified(Err(e), v, m)
      case Ok(avail) =>
        match MemRead(m, v.Rings().UsedIdx(), 2)
        case Err(e) => Notified(Err(e), v, m)
        case Ok(used) =>
          Serve(v, m, qi, avail, if qi in v.last then v.last[qi] else used, used)
  }

  // ---------- arbitrary memory: the used index counts the chains served ----------

  /** Whatever the requests overwrote, serving n >= 1 entries leaves used.idx advanced by n. */
  lemma {:induction false} UsedIdxAdvances(q: Virtio.Rings, disk: seq<u8>, m: Mem, last: u16, used: u16, n: nat)
    requires q.num > 0 && n > 0
    requires ServeMany(q, disk, m, last, used, n).length.Ok?
    ensures MemRead(ServeMany(q, disk, m, last, used, n).mem, q.UsedIdx(), 2) == Ok((used + n) % TWO_16)
    decreases n
  {
    hide MemRead, MemWrite, ServeEntry, Publish;
    var s := ServeEntry(q, disk, m, last, used);
    if n == 1 {
      EntryPublishes(q, disk, m, last, used);
    } else {
      UsedIdxAdvances(q, s.disk, s.mem, (last + 1) % TWO_16, (used + 1) % TWO_16, n - 1);
      RingStep(used, n);
    }
  }

  lemma RingStep(a: u16, n: nat)
    requires n > 0
    ensures ((a + 1) % TWO_16 + (n - 1)) % TWO_16 == (a + n) % TWO_16
  {
  }

  lemma EntryPublishes(q: Virtio.Rings, disk: seq<u8>, m: Mem, last: u16, used: u16)
    requires q.num > 0 && ServeEntry(q, disk, m, last, used).length.Ok?
    ensures MemRead(ServeEntry(q, disk, m, last, used).mem, q.UsedIdx(), 2) == Ok((used + 1) % TWO_16)
  {
    hide MemRead, MemWrite, Request, Chain;
    Pow256Values();
    var head := MemRead(m, q.AvailSlot(last), 2).value;
    var s := ServeChain(disk, m, q.desc, head);
    var m1 := MemWrite(s.mem, q.UsedSlot(used), 4, head).value;
    var m2 := MemWrite(m1, q.UsedSlot(used) + 4, 4, s.length.value).value;
    ReadBack(m2, q.UsedIdx(), 2, (used + 1) % TWO_16);
  }

  /** The device's progress agrees with the ring: the last entry served is the one published. */
  predicate InStep(v: Device, m: Mem, qi: u32) {
    qi in v.last ==> MemRead(m, v.Rings().UsedIdx(), 2) == Ok(v.last[qi] as nat)
  }

  /** One notify: the number of chains served is the ring distance at entry, used.idx moves by
      exactly that number, and the device ends in step whenever it started so. */
  lemma NotifyKeepsStep(v: Device, m: Mem, qi: u32)
    requires v.Live() && InStep(v, m, qi) && Notify(v, m, qi).result.Ok?
    ensures var r := Notify(v, m, qi);
            && InStep(r.dev, r.mem, qi) && qi in r.dev.last && r.dev.Rings() == v.Rings() && r.dev.Live()
            && MemRead(m, v.Rings().AvailIdx(), 2) == Ok(r.dev.last[qi] as nat)
            && MemRead(m, v.Rings().UsedIdx(), 2).Ok?
            && var used := MemRead(m, v.Rings().UsedIdx(), 2).value;
               MemRead(r.mem, v.Rings().UsedIdx(), 2) == Ok((used + Pending(r.dev.last[qi], used)) % TWO_16)
  {
    hide MemRead, MemWrite, ServeEntry;
    Pow256Values();
    var q := v.Rings();
    var avail := MemRead(m, q.AvailIdx(), 2).value;
    var used := MemRead(m, q.UsedIdx(), 2).value;
    var n := Pending(avail, used);
    if n > 0 {
      UsedIdxAdvances(q, v.disk, m, used, used, n);
    }
  }

  /** A run of notifies of one queue. `mems[i]` is guest memory at the i-th notify: the driver may
      have rewritten anything since the previous one except the value of used.idx. */
  ghost predicate DriverRun(v: Device, mems: seq<Mem>, qi: u32)
    decreases |mems|
  {
    mems != [] ==>
      var r := Notify(v, mems[0], qi);
      r.result.Ok? &&
      (|mems| > 1 ==>
         && MemRead(mems[1], v.Rings().UsedIdx(), 2) == MemRead(r.mem, v.Rings().UsedIdx(), 2)
         && DriverRun(r.dev, mems[1..], qi))
  }

  function AfterRun(v: Device, mems: seq<Mem>, qi: u32): Device
    decreases |mems|
  {
    if mems == [] then v else AfterRun(Notify(v, mems[0], qi).dev, mems[1..], qi)
  }

  /** Over every run of notifies, last_avail_idx equals used.idx after each of them. */
  lemma {:induction false} RunStaysInStep(v: Device, mems: seq<Mem>, qi: u32, i: nat)
    requires v.Live() && DriverRun(v, mems, qi) && i < |mems|
    requires InStep(v, mems[0], qi)
    ensures var w := AfterRun(v, mems[..i], qi);
            w.Live() && Notify(w, mems[i], qi).result.Ok? &&
            InStep(Notify(w, mems[i], qi).dev, Notify(w, mems[i], qi).mem, qi)
    decreases |mems|
  {
    hide MemRead, MemWrite, ServeMany, Notify;
    NotifyKeepsStep(v, mems[0], qi);
    if i > 0 {
      var r := Notify(v, mems[0], qi);
      RunStaysInStep(r.dev, mems[1..], qi, i - 1);
      assert mems[..i][1..] == mems[1..][..i - 1];
    }
  }

  // ---------- batch = one at a time ----------

  /** Memory with the k-byte cell at c set to x. */
  function WithCell(m: Mem, c: nat, k: nat, x: nat): (r: Mem)
    ensures SameShape(m, r)
  {
    var w := MemWrite(m, c, k, x);
    if w.Ok? then w.value else m
  }

  /** No descriptor met by the chain touches the cell. */
  predicate ChainAvoids(m: Mem, base: nat, idx: u16, seen: set<u16>, c: nat, k: nat)
    decreases TWO_16 - |seen|
  {
    idx in seen || (
      && Apart(base + idx * 16, 16, c, k)
      && (ReadDesc(m, base, idx).Ok? && ReadDesc(m, base, idx).value.HasNext() ==>
            (U16SetBound(seen + {idx});
             ChainAvoids(m, base, ReadDesc(m, base, idx).value.next, seen + {idx}, c, k))))
  }

  /** Header, data buffer and status byte of the request lie apart from the cell. */
  predicate RequestAvoids(ds: seq<Desc>, c: nat, k: nat) {
    |ds| >= 3 ==>
      && Apart(ds[0].addr, 16, c, k)
      && Apart(ds[1].addr, ds[1].length, c, k)
      && Apart(ds[|ds| - 1].addr, 1, c, k)
  }

  /** Serving this avail entry reads and writes only outside the cell. */
  predicate EntryAvoids(q: Virtio.Rings, m: Mem, last: u16, used: u16, c: nat, k: nat)
    requires q.num > 0
  {
    Pow256Values();
    && Apart(q.AvailSlot(last), 2, c, k)
    && Apart(q.UsedSlot(used), 8, c, k)
    && Apart(q.UsedIdx(), 2, c, k)
    && (MemRead(m, q.AvailSlot(last), 2).Ok? ==>
          var head := MemRead(m, q.AvailSlot(last), 2).value;
          && ChainAvoids(m, q.desc, head, {}, c, k)
          && (Chain(m, q.desc, head, {}).Ok? ==> RequestAvoids(Chain(m, q.desc, head, {}).value, c, k)))
  }

  /** The avail index cell is not aliased by any of the next n entries' rings, descriptors or buffers. */
  predicate ManyAvoid(q: Virtio.Rings, disk: seq<u8>, m: Mem, last: u16, used: u16, n: nat, c: nat, k: nat)
    requires q.num > 0
    decreases n
  {
    n > 0 ==>
      && EntryAvoids(q, m, last, used, c, k)
      && var s := ServeEntry(q, disk, m, last, used);
         (s.length.Ok? ==>
            ManyAvoid(q, s.disk, s.mem, (last + 1) % TWO_16, (used + 1) % TWO_16, n - 1, c, k))
  }

  // Each piece of the service, run with a different value in the cell, does the same thing.

  lemma WithCellReads(m: Mem, c: nat, k: nat, x: nat, a: nat, n: nat)
    requires Apart(a, n, c, k)
    ensures MemRead(WithCell(m, c, k, x), a, n) == MemRead(m, a, n)
  {
    if MemWrite(m, c, k, x).Ok? {
      ReadOverWrite(m, c, k, x, a, n);
    }
  }

  lemma WithCellWrites(m: Mem, c: nat, k: nat, x: nat, a: nat, n: nat, v: nat)
    requires Apart(a, n, c, k)
    ensures MemWrite(m, a, n, v).Ok? ==>
              MemWrite(WithCell(m, c, k, x), a, n, v) == Ok(WithCell(MemWrite(m, a, n, v).value, c, k, x))
    ensures MemWrite(m, a, n, v).Err? ==> MemWrite(WithCell(m, c, k, x), a, n, v) == MemWrite(m, a, n, v)
  {
    if MemWrite(m, c, k, x).Ok? {
      WriteCommute(m, c, k, x, a, n, v);
    }
  }

  lemma {:induction false} WriteBytesFrame(m: Mem, c: nat, k: nat, x: nat, a: nat, bs: seq<u8>)
    requires Apart(a, |bs|, c, k)
    ensures var w := WriteBytes(m, a, bs);
            WriteBytes(WithCell(m, c, k, x), a, bs) == Stored(w.result, WithCell(w.mem, c, k, x))
    decreases |bs|
  {
    hide MemRead, MemWrite, WithCell;
    if bs != [] {
      WithCellWrites(m, c, k, x, a, 1, bs[0]);
      if MemWrite(m, a, 1, bs[0]).Ok? {
        WriteBytesFrame(MemWrite(m, a, 1, bs[0]).value, c, k, x, a + 1, bs[1..]);
      }
    }
  }

  lemma {:induction false} ReadBytesFrame(m: Mem, c: nat, k: nat, x: nat, a: nat, n: nat)
    requires Apart(a, n, c, k)
    ensures ReadBytes(WithCell(m, c, k, x), a, n) == ReadBytes(m, a, n)
    decreases n
  {
    hide MemRead, MemWrite, WithCell;
    if n > 0 {
      WithCellReads(m, c, k, x, a, 1);
      ReadBytesFrame(m, c, k, x, a + 1, n - 1);
    }
  }

  lemma {:induction false} ChainFrame(m: Mem, c: nat, k: nat, x: nat, base: nat, idx: u16, seen: set<u16>)
    requires ChainAvoids(m, base, idx, seen, c, k)
    ensures Chain(WithCell(m, c, k, x), base, idx, seen) == Chain(m, base, idx, seen)
    decreases TWO_16 - |seen|
  {
    hide MemRead, MemWrite, WithCell;
    if idx !in seen {
      var off := base + idx * 16;
      WithCellReads(m, c, k, x, off, 8);
      WithCellReads(m, c, k, x, off + 8, 4);
      WithCellReads(m, c, k, x, off + 12, 2);
      WithCellReads(m, c, k, x, off + 14, 2);
      assert ReadDesc(WithCell(m, c, k, x), base, idx) == ReadDesc(m, base, idx);
      var d := ReadDesc(m, base, idx);
      if d.Ok? && d.value.HasNext() {
        U16SetBound(seen + {idx});
        ChainFrame(m, c, k, x, base, d.value.next, seen + {idx});
      }
    }
  }

  lemma TransferFrame(disk: seq<u8>, m: Mem, c: nat, k: nat, x: nat, t: nat, offset: nat, data: nat, len: nat)
    requires Apart(data, len, c, k)
    ensures var r := Transfer(disk, m, t, offset, data, len);
            Transfer(disk, WithCell(m, c, k, x), t, offset, data, len) == r.(mem := WithCell(r.mem, c, k, x))
  {
    if t == BLK_T_IN {
      if offset + len < TWO_64 {
        WriteBytesFrame(m, c, k, x, data, Grow(disk, offset + len)[offset..offset + len]);
      }
    } else if t == BLK_T_OUT {
      ReadBytesFrame(m, c, k, x, data, len);
    }
  }

  lemma RequestFrame(disk: seq<u8>, m: Mem, c: nat, k: nat, x: nat, header: nat, data: nat, len: nat, status: nat)
    requires Apart(header, 16, c, k) && Apart(data, len, c, k) && Apart(status, 1, c, k)
    ensures var r := Request(disk, m, header, data, len, status);
            Request(disk, WithCell(m, c, k, x), header, data, len, status) == r.(mem := WithCell(r.mem, c, k, x))
  {
    hide MemRead, MemWrite, WithCell, Transfer;
    WithCellReads(m, c, k, x, header, 4);
    WithCellReads(m, c, k, x, header + 8, 8);
    if MemRead(m, header, 4).Ok? && MemRead(m, header + 8, 8).Ok? {
      var t, sector := MemRead(m, header, 4).value, MemRead(m, header + 8, 8).value;
      if sector * SECTOR_SIZE < TWO_64 {
        TransferFrame(disk, m, c, k, x, t, sector * SECTOR_SIZE, data, len);
        WithCellWrites(Transfer(disk, m, t, sector * SECTOR_SIZE, data, len).mem, c, k, x, status, 1, 0);
      }
    }
  }

  lemma PublishFrame(q: Virtio.Rings, m: Mem, c: nat, k: nat, x: nat, head: u16, length: nat, used: u16)
    requires q.num > 0 && Apart(q.UsedSlot(used), 8, c, k) && Apart(q.UsedIdx(), 2, c, k)
    ensures var p := Publish(q, m, head, length, used);
            Publish(q, WithCell(m, c, k, x), head, length, used) == Stored(p.result, WithCell(p.mem, c, k, x))
  {
    hide MemRead, MemWrite, WithCell;
    WithCellWrites(m, c, k, x, q.UsedSlot(used), 4, head);
    if MemWrite(m, q.UsedSlot(used), 4, head).Ok? {
      var m1 := MemWrite(m, q.UsedSlot(used), 4, head).value;
      WithCellWrites(m1, c, k, x, q.UsedSlot(used) + 4, 4, length);
      if MemWrite(m1, q.UsedSlot(used) + 4, 4, length).Ok? {
        var m2 := MemWrite(m1, q.UsedSlot(used) + 4, 4, length).value;
        WithCellWrites(m2, c, k, x, q.UsedIdx(), 2, (used + 1) % TWO_16);
      }
    }
  }

  lemma EntryFrame(q: Virtio.Rings, disk: seq<u8>, m: Mem, last: u16, used: u16, c: nat, k: nat, x: nat)
    requires q.num > 0 && EntryAvoids(q, m, last, used, c, k)
    ensures var r := ServeEntry(q, disk, m, last, used);
            ServeEntry(q, disk, WithCell(m, c, k, x), last, used) == r.(mem := WithCell(r.mem, c, k, x))
  {
    hide MemRead, MemWrite, WithCell, Request, Publish, ChainAvoids;
    Pow256Values();
    WithCellReads(m, c, k, x, q.AvailSlot(last), 2);
    if MemRead(m, q.AvailSlot(last), 2).Ok? {
      var head := MemRead(m, q.AvailSlot(last), 2).value;
      ChainFrame(m, c, k, x, q.desc, head, {});
      var ch := Chain(m, q.desc, head, {});
      if ch.Ok? && |ch.value| >= 3 {
        var ds := ch.value;
        RequestFrame(disk, m, c, k, x, ds[0].addr, ds[1].addr, ds[1].length, ds[|ds| - 1].addr);
      }
      var s := ServeChain(disk, m, q.desc, head);
      if s.length.Ok? {
        PublishFrame(q, s.mem, c, k, x, head, s.length.value, used);
      }
    }
  }

  /** Serving an entry that avoids a readable cell keeps the cell's value. */
  lemma EntryKeepsCell(q: Virtio.Rings, disk: seq<u8>, m: Mem, last: u16, used: u16, c: nat, k: nat)
    requires q.num > 0 && EntryAvoids(q, m, last, used, c, k) && MemRead(m, c, k).Ok?
    ensures MemRead(ServeEntry(q, disk, m, last, used).mem, c, k) == MemRead(m, c, k)
  {
    var x := MemRead(m, c, k).value;
    WriteSame(m, c, k);
    EntryFrame(q, disk, m, last, used, c, k, x);
    var m' := ServeEntry(q, disk, m, last, used).mem;
    OkByShape(m', m, c, k, x);
    ReadBack(m', c, k, x);
  }

  /** The driver publishes n entries one by one, notifying after each. */
  function OneByOne(v: Device, m: Mem, qi: u32, next: u16, n: nat): (r: Notified)
    decreases n
  {
    if n == 0 then Notified(Ok(Unit), v, m)
    else
      var m1 := WithCell(m, v.Rings().AvailIdx(), 2, (next + 1) % TWO_16);
      var r := Notify(v, m1, qi);
      if r.result.Err? then r
      else OneByOne(r.dev, r.mem, qi, (next + 1) % TWO_16, n - 1)
  }

  /** Equal memories but for the two-byte cell at c. */
  predicate SameOutside(m: Mem, m': Mem, c: nat) {
    WithCell(m, c, 2, 0) == WithCell(m', c, 2, 0)
  }

  /** Same verdict, disk and memory. On failure the memories may differ in avail.idx at c, which the
      failing one-by-one driver has not advanced to the end, and the devices in what the entries served
      before the failing one have recorded. */
  predicate SameOutcome(one: Notified, all: Notified, c: nat) {
    && one.result == all.result && one.dev.disk == all.dev.disk
    && SameOutside(one.mem, all.mem, c) && (one.result.Ok? ==> one == all)
  }

  /** Publishing n entries and notifying once does exactly what publishing and notifying n times
      does: same verdict, same disk, same memory (on failure up to avail.idx), and on success the same
      device, provided only that nothing served aliases the two bytes of avail.idx. */
  lemma BatchIsOneByOne(v: Device, m: Mem, qi: u32, n: nat)
    requires v.Live() && 0 < n < TWO_16
    requires var q := v.Rings();
             && MemRead(m, q.UsedIdx(), 2).Ok?
             && var used := MemRead(m, q.UsedIdx(), 2).value;
                var last := if qi in v.last then v.last[qi] else used;
                && MemRead(m, q.AvailIdx(), 2) == Ok((last + n) % TWO_16)
                && (Pow256Values(); ManyAvoid(q, v.disk, m, last, used, n, q.AvailIdx(), 2))
    ensures var q := v.Rings();
            var last := if qi in v.last then v.last[qi] as nat else MemRead(m, q.UsedIdx(), 2).value;
            && last < TWO_16
            && SameOutcome(OneByOne(v, WithCell(m, q.AvailIdx(), 2, last), qi, last, n), Notify(v, m, qi), q.AvailIdx())
  {
    hide MemRead, MemWrite, WithCell, ServeMany, OneByOne, ManyAvoid;
    Pow256Values();
    var q := v.Rings();
    var used := MemRead(m, q.UsedIdx(), 2).value;
    var last := if qi in v.last then v.last[qi] else used;
    assert Pending((last + n) % TWO_16, last) == n;
    OneByOneServes(v, m, qi, last, used, n);
  }

  /** Device state once `last` has been recorded for the queue. */
  function Recorded(v: Device, disk: seq<u8>, qi: u32, last: u16): Device {
    v.(disk := disk, last := v.last[qi := last], interruptStatus := RaiseLine(v.interruptStatus))
  }

  function After(v: Device, disk: seq<u8>, qi: u32, next: u16, n: nat): Device {
    if n == 0 then v else Recorded(v, disk, qi, (next + n) % TWO_16)
  }

  lemma {:induction false} OneByOneServes(v: Device, m: Mem, qi: u32, next: u16, used: u16, n: nat)
    requires v.Live() && n < TWO_16
    requires var q := v.Rings();
             && MemRead(m, q.UsedIdx(), 2) == Ok(used as nat)
             && next == (if qi in v.last then v.last[qi] else used)
             && MemRead(m, q.AvailIdx(), 2) == Ok((next + n) % TWO_16)
             && ManyAvoid(q, v.disk, m, next, used, n, q.AvailIdx(), 2)
    ensures var q := v.Rings();
            var one := OneByOne(v, WithCell(m, q.AvailIdx(), 2, next), qi, next, n);
            var all := ServeMany(q, v.disk, m, next, used, n);
            && one.dev.disk == all.disk
            && (all.length.Ok? ==>
                  one.result == Ok(Unit) && one.mem == all.mem && one.dev == After(v, all.disk, qi, next, n))
            && (all.length.Err? ==>
                  one.result == all.length.PropagateFailure() && SameOutside(one.mem, all.mem, q.AvailIdx()))
    decreases n
  {
    hide MemRead, MemWrite, ServeEntry, Notify, EntryAvoids, SameOutside;
    var q := v.Rings();
    var c := q.AvailIdx();
    if n == 0 {
      WriteSame(m, c, 2);
    } else {
      var next' := (next + 1) % TWO_16;
      var s := ServeEntry(q, v.disk, m, next, used);
      PublishOneNotify(v, m, qi, next, used);
      OutsideCell(s.mem, c, next');
      if s.length.Ok? {
        var v' := Recorded(v, s.disk, qi, next');
        EntryPublishes(q, v.disk, m, next, used);
        EntryKeepsCell(q, v.disk, m, next, used, c, 2);
        RingStep(next, n);
        OneByOneServes(v', s.mem, qi, next', (used + 1) % TWO_16, n - 1);
        RecordedTwice(v, s.disk, ServeMany(q, v.disk, m, next, used, n).disk, qi, next', (next + n) % TWO_16);
      }
    }
  }

  lemma OutsideCell(m: Mem, c: nat, x: nat)
    ensures SameOutside(WithCell(m, c, 2, x), m, c)
  {
    hide MemWrite;
    OkByShape(m, m, c, 2, x);
    OkByShape(m, m, c, 2, 0);
    if MemWrite(m, c, 2, x).Ok? {
      WriteOverwrite(m, c, 2, x, 0);
    }
  }

  lemma RecordedTwice(v: Device, d: seq<u8>, d': seq<u8>, qi: u32, a: u16, b: u16)
    ensures Recorded(Recorded(v, d, qi, a), d', qi, b) == Recorded(v, d', qi, b)
    ensures Recorded(v, d, qi, a).Rings() == v.Rings()
  {
    assert v.last[qi := a][qi := b] == v.last[qi := b];
  }

  /** A single publish-and-notify serves exactly the next entry. */
  lemma PublishOneNotify(v: Device, m: Mem, qi: u32, next: u16, used: u16)
    requires v.Live()
    requires var q := v.Rings();
             && MemRead(m, q.UsedIdx(), 2) == Ok(used as nat)
             && next == (if qi in v.last then v.last[qi] else used)
             && MemRead(m, q.AvailIdx(), 2).Ok?
             && EntryAvoids(q, m, next, used, q.AvailIdx(), 2)
    ensures var q := v.Rings();
            var c := q.AvailIdx();
            var next' := (next + 1) % TWO_16;
            var s := ServeEntry(q, v.disk, m, next, used);
            var r := Notify(v, WithCell(WithCell(m, c, 2, next), c, 2, next'), qi);
            && (s.length.Ok? ==> r == Notified(Ok(Unit), Recorded(v, s.disk, qi, next'), WithCell(s.mem, c, 2, next')))
            && (s.length.Err? ==>
                  && r.result == s.length.PropagateFailure() && r.dev.disk == s.disk
                  && r.mem == WithCell(s.mem, c, 2, next'))
  {
    hide MemRead, MemWrite, ServeEntry, ChainAvoids, RequestAvoids, Notify, Wrap;
    Pow256Values();
    var q := v.Rings();
    var c := q.AvailIdx();
    var next' := (next + 1) % TWO_16;
    OkByShape(m, m, c, 2, next);
    OkByShape(m, m, c, 2, next');
    WriteOverwrite(m, c, 2, next, next');
    var m1 := WithCell(m, c, 2, next');
    assert WithCell(WithCell(m, c, 2, next), c, 2, next') == m1;
    ReadBack(m, c, 2, next');
    WithCellReads(m, c, 2, next', q.UsedIdx(), 2);
    EntryFrame(q, v.disk, m, next, used, c, 2, next');
    NotifyServesOne(v, m1, qi, next, used);
  }

  /** A notify that finds one new entry is the service of that entry. */
  lemma NotifyServesOne(v: Device, m: Mem, qi: u32, next: u16, used: u16)
    requires v.Live() && MemRead(m, v.Rings().UsedIdx(), 2) == Ok(used as nat)
    requires next == (if qi in v.last then v.last[qi] else used)
    requires MemRead(m, v.Rings().AvailIdx(), 2) == Ok((next + 1) % TWO_16)
    ensures var s := ServeEntry(v.Rings(), v.disk, m, next, used);
            && (s.length.Ok? ==>
                  Notify(v, m, qi) == Notified(Ok(Unit), Recorded(v, s.disk, qi, (next + 1) % TWO_16), s.mem))
            && (s.length.Err? ==>
                  Notify(v, m, qi) == Notified(s.length.PropagateFailure(), v.(disk := s.disk), s.mem))
  {
    hide MemRead, MemWrite, ServeEntry;
    Pow256Values();
    var q := v.Rings();
    assert Pending((next + 1) % TWO_16, next) == 1;
    var s := ServeEntry(q, v.disk, m, next, used);
    assert ServeMany(q, v.disk, m, next, used, 1) == if s.length.Err? then s else Served(Ok(0), s.disk, s.mem);
  }

  // ---------- a write request, then a read request, as the driver makes them ----------

  /** Where a notify starts: used.idx, or the recorded progress. */
  function Start(v: Device, m: Mem, qi: u32): (r: Result<(u16, u16)>) {
    Pow256Values();
    var used :- MemRead(m, v.Rings().UsedIdx(), 2);
    Ok((if qi in v.last then v.last[qi] else used, used))
  }

  /** The driver has published exactly one entry, whose chain has header, data and status. */
  predicate OnePublished(v: Device, m: Mem, qi: u32) {
    Pow256Values();
    && v.Live() && Start(v, m, qi).Ok?
    && MemRead(m, v.Rings().AvailIdx(), 2) == Ok((Start(v, m, qi).value.0 + 1) % TWO_16)
    && HeadOf(v, m, qi).Ok?
    && Chain(m, v.desc, HeadOf(v, m, qi).value, {}).Ok?
    && |Chain(m, v.desc, HeadOf(v, m, qi).value, {}).value| >= 3
  }

  function HeadOf(v: Device, m: Mem, qi: u32): (r: Result<u16>)
    requires v.Live()
  {
    Pow256Values();
    var start :- Start(v, m, qi);
    var head :- MemRead(m, v.Rings().AvailSlot(start.0), 2);
    Ok(head)
  }

  /** The published chain. */
  function Published(v: Device, m: Mem, qi: u32): (ds: seq<Desc>)
    requires OnePublished(v, m, qi)
    ensures |ds| >= 3
  {
    Chain(m, v.desc, HeadOf(v, m, qi).value, {}).value
  }

  /** What serving that chain does to disk and memory. */
  function Requested(v: Device, m: Mem, qi: u32): (r: Served)
    requires OnePublished(v, m, qi)
  {
    var ds := Published(v, m, qi);
    Request(v.disk, m, ds[0].addr, ds[1].addr, ds[1].length, ds[|ds| - 1].addr)
  }

  /** A successful notify serves the published request and publishes it in the used ring. */
  lemma NotifyIsRequest(v: Device, m: Mem, qi: u32)
    requires OnePublished(v, m, qi) && Notify(v, m, qi).result.Ok?
    ensures Requested(v, m, qi).length.Ok? && Notify(v, m, qi).dev.disk == Requested(v, m, qi).disk
    ensures var p := Publish(v.Rings(), Requested(v, m, qi).mem, HeadOf(v, m, qi).value,
                             Requested(v, m, qi).length.value, Start(v, m, qi).value.1);
            p.result.Ok? && p.mem == Notify(v, m, qi).mem
  {
    hide MemRead, MemWrite, Request, Chain, Publish, Wrap, Notify;
    Pow256Values();
    var (last, used) := Start(v, m, qi).value;
    NotifyServesOne(v, m, qi, last, used);
  }

  /** Publishing leaves a buffer outside the used ring alone. */
  lemma PublishKeepsBytes(q: Virtio.Rings, m: Mem, head: u16, length: nat, used: u16, a: nat, n: nat)
    requires q.num > 0 && Publish(q, m, head, length, used).result.Ok?
    requires Apart(q.UsedSlot(used), 8, a, n) && Apart(q.UsedIdx(), 2, a, n)
    ensures ReadBytes(Publish(q, m, head, length, used).mem, a, n) == ReadBytes(m, a, n)
  {
    hide MemRead, MemWrite, ReadBytes, Wrap;
    var m1 := MemWrite(m, q.UsedSlot(used), 4, head).value;
    var m2 := MemWrite(m1, q.UsedSlot(used) + 4, 4, length).value;
    ReadBytesOverWrite(m, q.UsedSlot(used), 4, head, a, n);
    ReadBytesOverWrite(m1, q.UsedSlot(used) + 4, 4, length, a, n);
    ReadBytesOverWrite(m2, q.UsedIdx(), 2, (used + 1) % TWO_16, a, n);
  }

  /** The data buffer and length of the published request. */
  function DataAddr(v: Device, m: Mem, qi: u32): nat
    requires OnePublished(v, m, qi)
  {
    Published(v, m, qi)[1].addr
  }

  function DataLen(v: Device, m: Mem, qi: u32): nat
    requires OnePublished(v, m, qi)
  {
    Published(v, m, qi)[1].length
  }

  function HeaderAddr(v: Device, m: Mem, qi: u32): nat
    requires OnePublished(v, m, qi)
  {
    Published(v, m, qi)[0].addr
  }

  /** The data buffer lies apart from the status byte and from the used ring. */
  predicate BufferApart(v: Device, m: Mem, qi: u32)
    requires OnePublished(v, m, qi)
  {
    var ds, q := Published(v, m, qi), v.Rings();
    && Apart(ds[|ds| - 1].addr, 1, ds[1].addr, ds[1].length)
    && Apart(q.UsedSlot(Start(v, m, qi).value.1), 8, ds[1].addr, ds[1].length)
    && Apart(q.UsedIdx(), 2, ds[1].addr, ds[1].length)
  }

  /** The driver publishes a write request and notifies, then, after changing memory and the rings as
      it likes, publishes a read of the same sector and length and notifies: the read's buffer holds
      what the write's buffer held, and no other byte of the zero-padded disk has moved. */
  lemma WriteThenRead(v: Device, m: Mem, qi: u32, v': Device, m': Mem, qi': u32)
    requires OnePublished(v, m, qi) && Notify(v, m, qi).result.Ok?
    requires OnePublished(v', m', qi') && Notify(v', m', qi').result.Ok?
    requires v'.disk == Notify(v, m, qi).dev.disk && BufferApart(v', m', qi')
    requires DataLen(v', m', qi') == DataLen(v, m, qi)
    requires MemRead(m, HeaderAddr(v, m, qi), 4) == Ok(1)
    requires MemRead(m', HeaderAddr(v', m', qi'), 4) == Ok(0)
    requires MemRead(m', HeaderAddr(v', m', qi') + 8, 8) == MemRead(m, HeaderAddr(v, m, qi) + 8, 8)
    ensures var written := ReadBytes(m, DataAddr(v, m, qi), DataLen(v, m, qi));
            var end := Notify(v', m', qi');
            && written.Ok? && MemRead(m, HeaderAddr(v, m, qi) + 8, 8).Ok?
            && ReadBytes(end.mem, DataAddr(v', m', qi'), DataLen(v', m', qi')) == written
            && var offset := MemRead(m, HeaderAddr(v, m, qi) + 8, 8).value * 512;
               forall i: nat :: DiskAt(end.dev.disk, i) ==
                 if offset <= i < offset + DataLen(v, m, qi) then written.value[i - offset] else DiskAt(v.disk, i)
  {
    hide MemRead, MemWrite, Request, Chain, Publish, ReadBytes, Notify, OnePublished, Start, HeadOf;
    NotifyIsRequest(v, m, qi);
    NotifyIsRequest(v', m', qi');
    var ds, ds' := Published(v, m, qi), Published(v', m', qi');
    OutThenIn(v.disk, m, ds[0].addr, ds[1].addr, ds[1].length, ds[|ds| - 1].addr,
              m', ds'[0].addr, ds'[1].addr, ds'[|ds'| - 1].addr);
    var r := Requested(v', m', qi');
    LiveWhenPublished(v', m', qi');
    PublishKeepsBytes(v'.Rings(), r.mem, HeadOf(v', m', qi').value, r.length.value, Start(v', m', qi').value.1,
                      ds'[1].addr, ds'[1].length);
  }

  lemma LiveWhenPublished(v: Device, m: Mem, qi: u32)
    requires OnePublished(v, m, qi)
    ensures v.Live() && Start(v, m, qi).Ok? && HeadOf(v, m, qi).Ok?
  {
    hide MemRead, Chain;
  }
}
