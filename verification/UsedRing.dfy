/** What a driver finds after a notify (section 2.6.8 of the VirtIO 1.1 specification; virtio.rs): one
    used element per published chain, in order, and a zero status byte for each request. */
module UsedRing {
  import opened Base
  import opened Memory
  import opened Virtio
  import opened VirtioQueue

  // ---------- one entry ----------

  /** An entry's used element: the chain's head, then a zero length. */
  lemma ElementWritten(q: Virtio.Rings, disk: seq<u8>, m: Mem, last: u16, used: u16)
    requires q.num > 0 && ServeEntry(q, disk, m, last, used).length.Ok?
    ensures var s := ServeEntry(q, disk, m, last, used);
            && MemRead(m, q.AvailSlot(last), 2).Ok?
            && MemRead(s.mem, q.UsedSlot(used), 4) == MemRead(m, q.AvailSlot(last), 2)
            && MemRead(s.mem, q.UsedSlot(used) + 4, 4) == Ok(0)
  {
    hide MemRead, MemWrite, Chain, Request, Wrap;
    Pow256Values();
    var head := MemRead(m, q.AvailSlot(last), 2).value;
    var s := ServeChain(disk, m, q.desc, head);
    ZeroLength(disk, m, q.desc, head);
    PublishedElement(q, s.mem, head, used);
  }

  lemma ZeroLength(disk: seq<u8>, m: Mem, base: nat, head: u16)
    requires ServeChain(disk, m, base, head).length.Ok?
    ensures ServeChain(disk, m, base, head).length == Ok(0)
  {
    hide MemRead, MemWrite, Chain, Transfer;
  }

  lemma PublishedElement(q: Virtio.Rings, m: Mem, head: u16, used: u16)
    requires q.num > 0 && Publish(q, m, head, 0, used).result.Ok?
    ensures MemRead(Publish(q, m, head, 0, used).mem, q.UsedSlot(used), 4) == Ok(head as nat)
    ensures MemRead(Publish(q, m, head, 0, used).mem, q.UsedSlot(used) + 4, 4) == Ok(0)
  {
    hide MemRead, MemWrite, Wrap;
    Pow256Values();
    var e := q.UsedSlot(used);
    var m1 := MemWrite(m, e, 4, head).value;
    var m2 := MemWrite(m1, e + 4, 4, 0).value;
    ReadBack(m, e, 4, head);
    ReadOverWrite(m1, e + 4, 4, 0, e, 4);
    ReadBack(m1, e + 4, 4, 0);
    ReadOverWrite(m2, q.UsedIdx(), 2, (used + 1) % TWO_16, e, 4);
    ReadOverWrite(m2, q.UsedIdx(), 2, (used + 1) % TWO_16, e + 4, 4);
  }

  /** The address of the status byte of the chain at the avail entry, when the chain is a request. */
  function StatusAt(q: Virtio.Rings, m: Mem, last: u16): Option<nat>
    requires q.num > 0
  {
    Pow256Values();
    match MemRead(m, q.AvailSlot(last), 2)
    case Err(_) => None
    case Ok(head) =>
      match Chain(m, q.desc, head, {})
      case Err(_) => None
      case Ok(ds) => if |ds| < 3 then None else Some(ds[|ds| - 1].addr)
  }

  /** A served request leaves 0 in its status byte, if that byte is not part of the used ring. */
  lemma StatusWritten(q: Virtio.Rings, disk: seq<u8>, m: Mem, last: u16, used: u16)
    requires q.num > 0 && ServeEntry(q, disk, m, last, used).length.Ok? && StatusAt(q, m, last).Some?
    requires var a := StatusAt(q, m, last).value; Apart(q.UsedSlot(used), 8, a, 1) && Apart(q.UsedIdx(), 2, a, 1)
    ensures MemRead(ServeEntry(q, disk, m, last, used).mem, StatusAt(q, m, last).value, 1) == Ok(0)
  {
    hide MemRead, MemWrite, Chain, Transfer, Wrap, Publish;
    Pow256Values();
    var head := MemRead(m, q.AvailSlot(last), 2).value;
    var s := ServeChain(disk, m, q.desc, head);
    var a := StatusAt(q, m, last).value;
    RequestStatus(disk, m, q.desc, head);
    PublishKeeps(q, s.mem, head, s.length.value, used, a, 1);
  }

  lemma RequestStatus(disk: seq<u8>, m: Mem, base: nat, head: u16)
    requires ServeChain(disk, m, base, head).length.Ok? && Chain(m, base, head, {}).Ok?
    requires |Chain(m, base, head, {}).value| >= 3
    ensures var ds := Chain(m, base, head, {}).value;
            MemRead(ServeChain(disk, m, base, head).mem, ds[|ds| - 1].addr, 1) == Ok(0)
  {
    hide MemRead, MemWrite, Chain, Transfer;
    Pow256Values();
    var ds := Chain(m, base, head, {}).value;
    var sector := MemRead(m, ds[0].addr + 8, 8).value;
    var t := Transfer(disk, m, MemRead(m, ds[0].addr, 4).value, sector * SECTOR_SIZE, ds[1].addr, ds[1].length);
    ReadBack(t.mem, ds[|ds| - 1].addr, 1, 0);
  }

  /** Publishing touches nothing but the used element and used.idx. */
  lemma PublishKeeps(q: Virtio.Rings, m: Mem, head: u16, length: nat, used: u16, a: nat, k: nat)
    requires q.num > 0 && Publish(q, m, head, length, used).result.Ok?
    requires Apart(q.UsedSlot(used), 8, a, k) && Apart(q.UsedIdx(), 2, a, k)
    ensures MemRead(Publish(q, m, head, length, used).mem, a, k) == MemRead(m, a, k)
  {
    hide MemRead, MemWrite, Wrap;
    var e := q.UsedSlot(used);
    var m1 := MemWrite(m, e, 4, head).value;
    var m2 := MemWrite(m1, e + 4, 4, length).value;
    ReadOverWrite(m, e, 4, head, a, k);
    ReadOverWrite(m1, e + 4, 4, length, a, k);
    ReadOverWrite(m2, q.UsedIdx(), 2, (used + 1) % TWO_16, a, k);
  }

  // ---------- many entries ----------

  lemma {:induction false} ManyKeep(q: Virtio.Rings, disk: seq<u8>, m: Mem, last: u16, used: u16, n: nat,
                                    c: nat, k: nat)
    requires q.num > 0 && ManyAvoid(q, disk, m, last, used, n, c, k) && MemRead(m, c, k).Ok?
    requires ServeMany(q, disk, m, last, used, n).length.Ok?
    ensures MemRead(ServeMany(q, disk, m, last, used, n).mem, c, k) == MemRead(m, c, k)
    decreases n
  {
    hide MemRead, ServeEntry, EntryAvoids;
    if n > 0 {
      var s := ServeEntry(q, disk, m, last, used);
      EntryKeepsCell(q, disk, m, last, used, c, k);
      ManyKeep(q, s.disk, s.mem, (last + 1) % TWO_16, (used + 1) % TWO_16, n - 1, c, k);
    }
  }

  /** Serving this entry leaves the i-th avail entry after it alone. */
  predicate SparesAvail(q: Virtio.Rings, m: Mem, last: u16, used: u16, i: nat)
    requires q.num > 0
  {
    EntryAvoids(q, m, last, used, q.AvailSlot((last + i) % TWO_16), 2)
  }

  /** Ring, descriptors and buffers do not alias what a driver looks at afterwards: the avail entries
      still to be served, and the used element and status byte of every entry once served. */
  predicate Undamaged(q: Virtio.Rings, disk: seq<u8>, m: Mem, last: u16, used: u16, n: nat)
    requires q.num > 0
    decreases n
  {
    n > 0 ==>
      var s := ServeEntry(q, disk, m, last, used);
      var last', used' := (last + 1) % TWO_16, (used + 1) % TWO_16;
      && (forall i :: 1 <= i < n ==> SparesAvail(q, m, last, used, i))
      && (s.length.Ok? ==>
            && ManyAvoid(q, s.disk, s.mem, last', used', n - 1, q.UsedSlot(used), 4)
            && ManyAvoid(q, s.disk, s.mem, last', used', n - 1, q.UsedSlot(used) + 4, 4)
            && (StatusAt(q, m, last).Some? ==>
                  var a := StatusAt(q, m, last).value;
                  && Apart(q.UsedSlot(used), 8, a, 1) && Apart(q.UsedIdx(), 2, a, 1)
                  && ManyAvoid(q, s.disk, s.mem, last', used', n - 1, a, 1))
            && Undamaged(q, s.disk, s.mem, last', used', n - 1))
  }

  lemma StillReadable(q: Virtio.Rings, disk: seq<u8>, m: Mem, last: u16, used: u16, a: nat, k: nat)
    requires q.num > 0
    ensures MemRead(ServeEntry(q, disk, m, last, used).mem, a, k).Ok? <==> MemRead(m, a, k).Ok?
  {
    hide MemRead, MemWrite, ServeEntry;
    var m' := ServeEntry(q, disk, m, last, used).mem;
    OkByShape(m, m', a, k, 0);
    OkByShape(m, m, a, k, 0);
  }

  /** After n entries, the i-th used element names the i-th published head. */
  lemma {:induction false} ElementAfter(q: Virtio.Rings, disk: seq<u8>, m: Mem, last: u16, used: u16, n: nat, i: nat)
    requires q.num > 0 && Undamaged(q, disk, m, last, used, n) && i < n
    requires ServeMany(q, disk, m, last, used, n).length.Ok?
    ensures var end := ServeMany(q, disk, m, last, used, n).mem;
            var head := MemRead(m, q.AvailSlot((last + i) % TWO_16), 2);
            && head.Ok? && MemRead(end, q.UsedSlot((used + i) % TWO_16), 4) == head
            && MemRead(end, q.UsedSlot((used + i) % TWO_16) + 4, 4) == Ok(0)
    decreases n
  {
    hide MemRead, ServeEntry, EntryAvoids, ManyAvoid, StatusAt, Wrap;
    var s := ServeEntry(q, disk, m, last, used);
    var last', used' := (last + 1) % TWO_16, (used + 1) % TWO_16;
    ElementWritten(q, disk, m, last, used);
    if i == 0 {
      ManyKeep(q, s.disk, s.mem, last', used', n - 1, q.UsedSlot(used), 4);
      ManyKeep(q, s.disk, s.mem, last', used', n - 1, q.UsedSlot(used) + 4, 4);
    } else {
      ElementAfter(q, s.disk, s.mem, last', used', n - 1, i - 1);
      RingStep(last, i);
      RingStep(used, i);
      var c := q.AvailSlot((last + i) % TWO_16);
      assert SparesAvail(q, m, last, used, i);
      StillReadable(q, disk, m, last, used, c, 2);
      EntryKeepsCell(q, disk, m, last, used, c, 2);
    }
  }

  /** The status byte of the i-th entry, read when its turn comes. */
  function StatusOf(q: Virtio.Rings, disk: seq<u8>, m: Mem, last: u16, used: u16, i: nat): Option<nat>
    requires q.num > 0
  {
    StatusAt(q, ServeMany(q, disk, m, last, used, i).mem, (last + i) % TWO_16)
  }

  /** After n entries, every request among them has status 0. */
  lemma {:induction false} StatusAfter(q: Virtio.Rings, disk: seq<u8>, m: Mem, last: u16, used: u16, n: nat, i: nat)
    requires q.num > 0 && Undamaged(q, disk, m, last, used, n) && i < n
    requires ServeMany(q, disk, m, last, used, n).length.Ok? && StatusOf(q, disk, m, last, used, i).Some?
    ensures MemRead(ServeMany(q, disk, m, last, used, n).mem, StatusOf(q, disk, m, last, used, i).value, 1) == Ok(0)
    decreases n
  {
    hide MemRead, ServeEntry, EntryAvoids, ManyAvoid, StatusAt, Wrap;
    var s := ServeEntry(q, disk, m, last, used);
    var last', used' := (last + 1) % TWO_16, (used + 1) % TWO_16;
    if i == 0 {
      StatusWritten(q, disk, m, last, used);
      ManyKeep(q, s.disk, s.mem, last', used', n - 1, StatusAt(q, m, last).value, 1);
    } else {
      RingStep(last, i);
      assert ServeMany(q, disk, m, last, used, i) == ServeMany(q, s.disk, s.mem, last', used', i - 1);
      StatusAfter(q, s.disk, s.mem, last', used', n - 1, i - 1);
    }
  }

  // ---------- the notify ----------

  /** The device's view of a notify: progress, used.idx and the number of new entries. */
  predicate Starts(v: Device, m: Mem, qi: u32, last: u16, used: u16, n: nat) {
    && v.queueReady != 0 && v.queueNum != 0
    && MemRead(m, v.used + 2, 2) == Ok(used as nat) && last == (if qi in v.last then v.last[qi] else used)
    && MemRead(m, v.avail + 2, 2) == Ok((last + n) % 65536) && n < 65536
  }

  lemma AllPending(last: u16, n: nat)
    requires n < 65536
    ensures Pending((last + n) % 65536, last) == n
  {
  }

  lemma NotifyServes(v: Device, m: Mem, qi: u32, last: u16, used: u16, n: nat)
    requires Starts(v, m, qi, last, used, n)
    ensures v.queueNum > 0 && MemRead(m, v.used + 2, 2) == Ok(used as nat)
    ensures var s := ServeMany(v.Rings(), v.disk, m, last, used, n);
            Notify(v, m, qi).mem == s.mem && (Notify(v, m, qi).result.Ok? <==> s.length.Ok?)
  {
    hide MemRead, ServeMany, Pending;
    AllPending(last, n);
  }

  /** After a successful notify of n entries the used ring holds, for every i, the i-th head of the
      avail ring and length 0, used.idx has moved by n, and every request's status byte is 0, when
      rings, descriptors and buffers do not alias. */
  lemma NotifyCompletes(v: Device, m: Mem, qi: u32, last: u16, used: u16, n: nat, i: nat)
    requires Starts(v, m, qi, last, used, n) && Notify(v, m, qi).result.Ok? && i < n
    requires Undamaged(v.Rings(), v.disk, m, last, used, n)
    ensures var end := Notify(v, m, qi).mem;
            var element := v.used + 4 + (used + i) % 65536 % v.queueNum * 8;
            && MemRead(end, element, 4) == MemRead(m, v.avail + 4 + (last + i) % 65536 % v.queueNum * 2, 2)
            && MemRead(end, element, 4).Ok? && MemRead(end, element + 4, 4) == Ok(0)
            && MemRead(end, v.used + 2, 2) == Ok((used + n) % 65536)
    ensures var status := StatusOf(v.Rings(), v.disk, m, last, used, i);
            status.Some? ==> MemRead(Notify(v, m, qi).mem, status.value, 1) == Ok(0)
  {
    hide MemRead, ServeMany, Undamaged, Wrap, StatusOf, Notify, Starts;
    var q := v.Rings();
    NotifyServes(v, m, qi, last, used, n);
    ElementAfter(q, v.disk, m, last, used, n, i);
    WrapIsMod((used + i) % TWO_16, q.num);
    WrapIsMod((last + i) % TWO_16, q.num);
    UsedIdxAdvances(q, v.disk, m, last, used, n);
    if StatusOf(q, v.disk, m, last, used, i).Some? {
      StatusAfter(q, v.disk, m, last, used, n, i);
    }
  }
}
