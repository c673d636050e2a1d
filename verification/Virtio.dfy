/** The VirtIO block queue (virtio.rs) on values: descriptor chains, requests, ring service.
    DMA reaches the plain memories of the bus only. */
module Virtio {
  import opened Base
  import opened Memory
  import opened Division

  const SECTOR_SIZE := 512
  const BLK_T_IN := 0
  const BLK_T_OUT := 1

  // ---------- descriptor chains ----------

  /** One 16-byte descriptor, tagged with the table index it was read from. */
  datatype Desc = Desc(index: u16, addr: nat, length: nat, flags: nat, next: u16) {
    predicate HasNext() {
      flags % 2 == 1
    }
  }

  function ReadDesc(m: Mem, base: nat, idx: u16): (r: Result<Desc>)
    ensures r.Ok? ==> r.value.index == idx
  {
    Pow256Values();
    var off := base + idx * 16;
    var addr :- MemRead(m, off, 8);
    var length :- MemRead(m, off + 8, 4);
    var flags :- MemRead(m, off + 12, 2);
    var next :- MemRead(m, off + 14, 2);
    Ok(Desc(idx, addr, length, flags, next))
  }

  lemma U16SetBound(s: set<u16>)
    ensures |s| <= TWO_16
  {
    UpToBound(TWO_16, s);
  }

  lemma {:induction false} UpToBound(n: nat, s: set<int>)
    requires forall i :: i in s ==> 0 <= i < n
    ensures |s| <= n
  {
    if n == 0 {
      assert forall i :: i !in s;
    } else {
      UpToBound(n - 1, s - {n - 1});
      assert s <= (s - {n - 1}) + {n - 1};
      SubsetBound(s, (s - {n - 1}) + {n - 1});
    }
  }

  lemma {:induction false} SubsetBound<T>(s: set<T>, t: set<T>)
    requires s <= t
    ensures |s| <= |t|
  {
    if s != {} {
      var x :| x in s;
      SubsetBound(s - {x}, t - {x});
    }
  }

  /** The descriptors met by following `next` from idx until a descriptor without the NEXT flag
      or an index already in `seen`. */
  function Chain(m: Mem, base: nat, idx: u16, seen: set<u16>): (r: Result<seq<Desc>>)
    decreases TWO_16 - |seen|
  {
    if idx in seen then Ok([])
    else
      U16SetBound(seen + {idx});
      var d :- ReadDesc(m, base, idx);
      if d.HasNext() then
        var rest :- Chain(m, base, d.next, seen + {idx});
        Ok([d] + rest)
      else
        Ok([d])
  }

  /** What the cycle guard guarantees for every memory: the descriptors visited are pairwise
      distinct and at most 2^16, each is the one its predecessor names, and the walk ends at a
      descriptor without NEXT or at one whose successor was already visited. */
  ghost predicate ChainShape(m: Mem, base: nat, idx: u16, seen: set<u16>, ds: seq<Desc>) {
    && |ds| + |seen| <= TWO_16
    && (forall i :: 0 <= i < |ds| ==> ds[i].index !in seen && ReadDesc(m, base, ds[i].index) == Ok(ds[i]))
    && (forall i, j :: 0 <= i < j < |ds| ==> ds[i].index != ds[j].index)
    && (if idx in seen then ds == [] else ds != [] && ds[0].index == idx)
    && (forall i :: 0 <= i < |ds| - 1 ==> ds[i].HasNext() && ds[i + 1].index == ds[i].next)
    && (ds != [] && ds[|ds| - 1].HasNext() ==>
          var n := ds[|ds| - 1].next; n in seen || exists i :: 0 <= i < |ds| && ds[i].index == n)
  }

  lemma {:induction false} ChainIsGuarded(m: Mem, base: nat, idx: u16, seen: set<u16>)
    requires Chain(m, base, idx, seen).Ok?
    ensures ChainShape(m, base, idx, seen, Chain(m, base, idx, seen).value)
    decreases TWO_16 - |seen|
  {
    hide ReadDesc;
    U16SetBound(seen);
    U16SetBound(seen + {idx});
    if idx !in seen {
      var d := ReadDesc(m, base, idx).value;
      if d.HasNext() {
        ChainIsGuarded(m, base, d.next, seen + {idx});
        var rest := Chain(m, base, d.next, seen + {idx}).value;
        ChainShapeStep(m, base, idx, seen, d, rest);
      }
    }
  }

  lemma ChainShapeStep(m: Mem, base: nat, idx: u16, seen: set<u16>, d: Desc, rest: seq<Desc>)
    requires idx !in seen && ReadDesc(m, base, idx) == Ok(d) && d.HasNext()
    requires ChainShape(m, base, d.next, seen + {idx}, rest)
    ensures ChainShape(m, base, idx, seen, [d] + rest)
  {
    hide ReadDesc;
    var ds := [d] + rest;
    assert forall i :: 1 <= i < |ds| ==> ds[i] == rest[i - 1];
    if rest == [] {
      assert ds[0].index == idx;
      if d.next !in seen {
        assert d.next == idx;
      }
    } else if ds[|ds| - 1].HasNext() {
      var n := ds[|ds| - 1].next;
      if n !in seen {
        if n == idx {
          assert ds[0].index == n;
        } else {
          var i :| 0 <= i < |rest| && rest[i].index == n;
          assert ds[i + 1].index == n;
        }
      }
    }
  }

  // ---------- byte-wise DMA ----------

  /** Reads n bytes one at a time, as the T_OUT loop does. */
  function ReadBytes(m: Mem, a: nat, n: nat): (r: Result<seq<u8>>)
    ensures r.Ok? ==> |r.value| == n
    decreases n
  {
    if n == 0 then Ok([])
    else
      var b :- MemRead(m, a, 1);
      var rest :- ReadBytes(m, a + 1, n - 1);
      Pow256Values();
      Ok([b] + rest)
  }

  /** Result and memory after storing the bytes one at a time; a failing store keeps the
      earlier ones. */
  datatype Stored = Stored(result: Result<Unit>, mem: Mem)

  function WriteBytes(m: Mem, a: nat, bs: seq<u8>): (r: Stored)
    ensures SameShape(m, r.mem)
    decreases |bs|
  {
    if bs == [] then Stored(Ok(Unit), m)
    else
      match MemWrite(m, a, 1, bs[0])
      case Err(e) => Stored(Err(e), m)
      case Ok(m1) => WriteBytes(m1, a + 1, bs[1..])
  }

  // ---------- one request ----------

  /** Vec::resize with zeros, only ever growing. */
  function Grow(disk: seq<u8>, n: nat): (r: seq<u8>)
    ensures |r| >= n && |r| >= |disk|
    ensures forall i: nat :: DiskAt(r, i) == DiskAt(disk, i)
  {
    if n > |disk| then disk + seq(n - |disk|, _ => 0) else disk
  }

  /** The abstract disk: bytes never stored read as zero, so growth is invisible. */
  function DiskAt(disk: seq<u8>, i: nat): u8 {
    if i < |disk| then disk[i] else 0
  }

  /** What serving a request leaves behind, also when it fails half-way. `length` is the number
      reported in the used ring; the device always reports 0. */
  datatype Served = Served(length: Result<nat>, disk: seq<u8>, mem: Mem)

  function Transfer(disk: seq<u8>, m: Mem, reqType: nat, offset: nat, data: nat, len: nat): (r: Served)
    ensures SameShape(m, r.mem)
  {
    if reqType == BLK_T_IN then
      if offset + len >= TWO_64 then Served(Err(Overflow), disk, m)
      else
        var disk1 := Grow(disk, offset + len);
        var w := WriteBytes(m, data, disk1[offset..offset + len]);
        (match w.result
         case Err(e) => Served(Err(e), disk1, w.mem)
         case Ok(_) => Served(Ok(0), disk1, w.mem))
    else if reqType == BLK_T_OUT then
      match ReadBytes(m, data, len)
      case Err(e) => Served(Err(e), disk, m)
      case Ok(chunk) =>
        if offset + len >= TWO_64 then Served(Err(Overflow), disk, m)
        else
          var disk1 := Grow(disk, offset + len);
          Served(Ok(0), disk1[..offset] + chunk + disk1[offset + len..], m)
    else
      Served(Ok(0), disk, m)
  }

  function Request(disk: seq<u8>, m: Mem, header: nat, data: nat, len: nat, status: nat): (r: Served)
    ensures SameShape(m, r.mem)
  {
    match MemRead(m, header, 4)
    case Err(e) => Served(Err(e), disk, m)
    case Ok(reqType) =>
      match MemRead(m, header + 8, 8)
      case Err(e) => Served(Err(e), disk, m)
      case Ok(sector) =>
        if sector * SECTOR_SIZE >= TWO_64 then Served(Err(Overflow), disk, m)
        else
          var t := Transfer(disk, m, reqType, sector * SECTOR_SIZE, data, len);
          if t.length.Err? then t
          else
            match MemWrite(t.mem, status, 1, 0)
            case Err(e) => t.(length := Err(e))
            case Ok(m2) => Served(Ok(0), t.disk, m2)
  }

  function ServeChain(disk: seq<u8>, m: Mem, base: nat, head: u16): (r: Served)
    ensures SameShape(m, r.mem)
  {
    match Chain(m, base, head, {})
    case Err(e) => Served(Err(e), disk, m)
    case Ok(ds) =>
      if |ds| < 3 then Served(Ok(0), disk, m)
      else Request(disk, m, ds[0].addr, ds[1].addr, ds[1].length, ds[|ds| - 1].addr)
  }

  // ---------- the rings ----------

  /** i % num by repeated subtraction, which keeps variable moduli out of the proofs. */
  function Wrap(i: nat, num: nat): (r: nat)
    requires num > 0
    ensures r < num
  {
    if i < num then i else Wrap(i - num, num)
  }

  /** It is the remainder. */
  lemma {:induction false} WrapIsMod(i: nat, num: nat)
    requires num > 0
    ensures i % num == Wrap(i, num)
  {
    if i >= num {
      WrapIsMod(i - num, num);
      var q, r := (i - num) / num, (i - num) % num;
      assert i == (q + 1) * num + r;
      RemainderUnique(i, num, q + 1, r);
    }
  }

  /** Ring geometry as configured by the driver. */
  datatype Rings = Rings(num: nat, desc: nat, avail: nat, used: nat) {
    function AvailIdx(): nat { avail + 2 }
    function UsedIdx(): nat { used + 2 }
    function AvailSlot(i: nat): nat
      requires num > 0
    { avail + 4 + Wrap(i, num) * 2 }
    function UsedSlot(i: nat): nat
      requires num > 0
    { used + 4 + Wrap(i, num) * 8 }
  }

  /** Publishes one used element and advances used.idx. */
  function Publish(q: Rings, m: Mem, head: u16, length: nat, used: u16): (r: Stored)
    requires q.num > 0
    ensures SameShape(m, r.mem)
  {
    match MemWrite(m, q.UsedSlot(used), 4, head)
    case Err(e) => Stored(Err(e), m)
    case Ok(m1) =>
      match MemWrite(m1, q.UsedSlot(used) + 4, 4, length)
      case Err(e) => Stored(Err(e), m1)
      case Ok(m2) =>
        match MemWrite(m2, q.UsedIdx(), 2, (used + 1) % TWO_16)
        case Err(e) => Stored(Err(e), m2)
        case Ok(m3) => Stored(Ok(Unit), m3)
  }

  /** One iteration of the queue loop: the avail entry at `last`, published at `used`. */
  function ServeEntry(q: Rings, disk: seq<u8>, m: Mem, last: u16, used: u16): (r: Served)
    requires q.num > 0
    ensures SameShape(m, r.mem)
  {
    Pow256Values();
    match MemRead(m, q.AvailSlot(last), 2)
    case Err(e) => Served(Err(e), disk, m)
    case Ok(head) =>
      var s := ServeChain(disk, m, q.desc, head);
      if s.length.Err? then s
      else
        var p := Publish(q, s.mem, head, s.length.value, used);
        match p.result
        case Err(e) => Served(Err(e), s.disk, p.mem)
        case Ok(_) => Served(s.length, s.disk, p.mem)
  }

  /** n iterations of the queue loop; both ring indices wrap modulo 2^16. */
  function ServeMany(q: Rings, disk: seq<u8>, m: Mem, last: u16, used: u16, n: nat): (r: Served)
    requires q.num > 0
    ensures SameShape(m, r.mem)
    decreases n
  {
    if n == 0 then Served(Ok(0), disk, m)
    else
      var s := ServeEntry(q, disk, m, last, used);
      if s.length.Err? then s
      else ServeMany(q, s.disk, s.mem, (last + 1) % TWO_16, (used + 1) % TWO_16, n - 1)
  }

  // ---------- requests on the abstract disk ----------

  /** T_IN leaves the abstract disk alone, and the buffer receives exactly the disk's bytes. */
  lemma InReadsDisk(disk: seq<u8>, m: Mem, offset: nat, data: nat, len: nat)
    requires Transfer(disk, m, BLK_T_IN, offset, data, len).length.Ok?
    ensures var t := Transfer(disk, m, BLK_T_IN, offset, data, len);
            && (forall i: nat :: DiskAt(t.disk, i) == DiskAt(disk, i))
            && ReadBytes(t.mem, data, len) == Ok(seq(len, (i: nat) => DiskAt(disk, offset + i)))
  {
    hide MemRead, MemWrite, WriteBytes, ReadBytes;
    var disk1 := Grow(disk, offset + len);
    var chunk := disk1[offset..offset + len];
    WriteReadBytes(m, data, chunk);
    forall i | 0 <= i < len
      ensures chunk[i] == DiskAt(disk, offset + i)
    {
      assert chunk[i] == DiskAt(disk1, offset + i);
    }
    assert chunk == seq(len, (i: nat) => DiskAt(disk, offset + i));
  }

  /** T_OUT replaces exactly the addressed bytes of the abstract disk by the buffer's bytes
      and leaves guest memory alone. */
  lemma OutWritesDisk(disk: seq<u8>, m: Mem, offset: nat, data: nat, len: nat)
    requires Transfer(disk, m, BLK_T_OUT, offset, data, len).length.Ok?
    ensures var t := Transfer(disk, m, BLK_T_OUT, offset, data, len);
            && t.mem == m
            && ReadBytes(m, data, len).Ok?
            && (forall i: nat :: DiskAt(t.disk, i) ==
                  if offset <= i < offset + len then ReadBytes(m, data, len).value[i - offset] else DiskAt(disk, i))
  {
    var disk1 := Grow(disk, offset + len);
    var t := Transfer(disk, m, BLK_T_OUT, offset, data, len);
    var chunk := ReadBytes(m, data, len).value;
    assert t.disk == disk1[..offset] + chunk + disk1[offset + len..];
    forall i: nat
      ensures DiskAt(t.disk, i) == if offset <= i < offset + len then chunk[i - offset] else DiskAt(disk, i)
    {
      if !(offset <= i < offset + len) {
        assert DiskAt(t.disk, i) == DiskAt(disk1, i);
      }
    }
  }

  /** Bytes stored one at a time read back one at a time. */
  lemma {:induction false} WriteReadBytes(m: Mem, a: nat, bs: seq<u8>)
    requires WriteBytes(m, a, bs).result.Ok?
    ensures ReadBytes(WriteBytes(m, a, bs).mem, a, |bs|) == Ok(bs)
    decreases |bs|
  {
    hide MemRead, MemWrite;
    if bs != [] {
      var m1 := MemWrite(m, a, 1, bs[0]).value;
      WriteReadBytes(m1, a + 1, bs[1..]);
      Pow256Values();
      ReadBack(m, a, 1, bs[0]);
      ReadOverWriteBytes(m1, a + 1, bs[1..], a, 1);
      assert bs == [bs[0]] + bs[1..];
    }
  }

  lemma {:induction false} ReadOverWriteBytes(m: Mem, a: nat, bs: seq<u8>, b: nat, k: nat)
    requires Apart(a, |bs|, b, k)
    ensures MemRead(WriteBytes(m, a, bs).mem, b, k) == MemRead(m, b, k)
    decreases |bs|
  {
    hide MemRead, MemWrite;
    if bs != [] && MemWrite(m, a, 1, bs[0]).Ok? {
      ReadOverWrite(m, a, 1, bs[0], b, k);
      ReadOverWriteBytes(MemWrite(m, a, 1, bs[0]).value, a + 1, bs[1..], b, k);
    }
  }

  lemma {:induction false} ReadBytesOverWrite(m: Mem, a: nat, n: nat, v: nat, b: nat, k: nat)
    requires MemWrite(m, a, n, v).Ok? && Apart(a, n, b, k)
    ensures ReadBytes(MemWrite(m, a, n, v).value, b, k) == ReadBytes(m, b, k)
    decreases k
  {
    hide MemRead, MemWrite;
    if k > 0 {
      ReadOverWrite(m, a, n, v, b, 1);
      ReadBytesOverWrite(m, a, n, v, b + 1, k - 1);
    }
  }

  /** Disk round trip through two served requests: what a T_OUT request took from its buffer is
      what a later T_IN request for the same sector and length delivers into its own buffer, and
      no other disk byte moved. The driver may change all of memory in between. */
  lemma OutThenIn(disk: seq<u8>, m: Mem, h: nat, data: nat, len: nat, status: nat,
                  m': Mem, h': nat, data': nat, status': nat)
    requires var out := Request(disk, m, h, data, len, status);
             && out.length.Ok? && MemRead(m, h, 4) == Ok(BLK_T_OUT)
             && Request(out.disk, m', h', data', len, status').length.Ok?
             && MemRead(m', h', 4) == Ok(BLK_T_IN)
    requires MemRead(m', h' + 8, 8) == MemRead(m, h + 8, 8)
    requires Apart(status', 1, data', len)
    ensures var out := Request(disk, m, h, data, len, status);
            var inn := Request(out.disk, m', h', data', len, status');
            var offset := MemRead(m, h + 8, 8).value * SECTOR_SIZE;
            && MemRead(m, h + 8, 8).Ok? && ReadBytes(m, data, len).Ok?
            && ReadBytes(inn.mem, data', len) == ReadBytes(m, data, len)
            && (forall i: nat :: DiskAt(inn.disk, i) ==
                  if offset <= i < offset + len then ReadBytes(m, data, len).value[i - offset] else DiskAt(disk, i))
  {
    hide MemRead, MemWrite, Transfer, ReadBytes;
    var offset := MemRead(m, h + 8, 8).value * SECTOR_SIZE;
    OutWritesDisk(disk, m, offset, data, len);
    var out := Request(disk, m, h, data, len, status);
    InReadsDisk(out.disk, m', offset, data', len);
    var t := Transfer(out.disk, m', BLK_T_IN, offset, data', len);
    ReadBytesOverWrite(t.mem, status', 1, 0, data', len);
    var bs := ReadBytes(m, data, len).value;
    assert seq(len, (i: nat) => DiskAt(out.disk, offset + i)) == bs;
  }
}
