/** Little-endian byte memories (ram.rs) and the guest memory made of several of them:
    the plain regions that the bus checks first, in its dispatch order. */
module Memory {
  import opened Base
  import Division
  import opened Words

  // ---------- one memory: Ram::read / Ram::write ----------

  /** u16/u32/u64::from_le_bytes of the n bytes at a. */
  function LoadLE(s: seq<u8>, a: nat, n: nat): (r: nat)
    requires a + n <= |s|
    ensures r < Pow256(n)
    decreases n
  {
    if n == 0 then 0 else s[a] + 256 * LoadLE(s, a + 1, n - 1)
  }

  /** Stores the n low-order bytes of v at a, least significant first. */
  function StoreLE(s: seq<u8>, a: nat, n: nat, v: nat): (r: seq<u8>)
    requires a + n <= |s|
    ensures |r| == |s|
    ensures forall i :: 0 <= i < |s| && !(a <= i < a + n) ==> r[i] == s[i]
    decreases n
  {
    if n == 0 then s else StoreLE(s[a := v % 256], a + 1, n - 1, v / 256)
  }

  predicate ValidSize(n: nat) {
    n == 1 || n == 2 || n == 4 || n == 8
  }

  /** A load sees only the bytes it covers. */
  lemma {:induction false} LoadFrame(s: seq<u8>, t: seq<u8>, a: nat, n: nat)
    requires a + n <= |s| && |s| == |t|
    requires forall i :: a <= i < a + n ==> s[i] == t[i]
    ensures LoadLE(s, a, n) == LoadLE(t, a, n)
    decreases n
  {
    if n > 0 {
      LoadFrame(s, t, a + 1, n - 1);
    }
  }

  /** The value of the n low-order bytes of v. */
  function Low(v: nat, n: nat): (r: nat)
    ensures r < Pow256(n)
    ensures v < Pow256(n) ==> r == v
  {
    if n == 0 then 0 else v % 256 + 256 * Low(v / 256, n - 1)
  }

  /** The low bytes of a word's number. */
  lemma {:induction false} LowOfValue(x: bv64, n: nat, m: nat)
    requires n <= m
    ensures Low(ValueOf(x, m), n) == ValueOf(x, n)
    decreases n
  {
    hide ByteOf, Drop, ValueOf;
    if n > 0 {
      ValueSplits(x, m);
      ValueSplits(x, n);
      LowOfValue(Drop(x), n - 1, m - 1);
    }
  }

  /** Reading back a store yields the stored value cut to n bytes. */
  lemma {:induction false} LoadStore(s: seq<u8>, a: nat, n: nat, v: nat)
    requires a + n <= |s|
    ensures LoadLE(StoreLE(s, a, n, v), a, n) == Low(v, n)
    decreases n
  {
    if n > 0 {
      LoadStore(s[a := v % 256], a + 1, n - 1, v / 256);
    }
  }

  /** Stores to disjoint ranges commute. */
  lemma {:induction false} StoreCommute(s: seq<u8>, a: nat, n: nat, v: nat, b: nat, m: nat, w: nat)
    requires a + n <= |s| && b + m <= |s|
    requires a + n <= b || b + m <= a
    ensures StoreLE(StoreLE(s, a, n, v), b, m, w) == StoreLE(StoreLE(s, b, m, w), a, n, v)
    decreases n
  {
    if n > 0 {
      StoreCommute(s[a := v % 256], a + 1, n - 1, v / 256, b, m, w);
      StoreUpdate(s, a, v % 256, b, m, w);
    }
  }

  lemma {:induction false} StoreUpdate(s: seq<u8>, a: nat, x: u8, b: nat, m: nat, w: nat)
    requires a < |s| && b + m <= |s| && !(b <= a < b + m)
    ensures StoreLE(s[a := x], b, m, w) == StoreLE(s, b, m, w)[a := x]
    decreases m
  {
    if m > 0 {
      assert s[a := x][b := w % 256] == s[b := w % 256][a := x];
      StoreUpdate(s[b := w % 256], a, x, b + 1, m - 1, w / 256);
    }
  }

  /** A later store to the same cell hides the earlier one. */
  lemma {:induction false} StoreOverwrite(s: seq<u8>, a: nat, n: nat, v: nat, w: nat)
    requires a + n <= |s|
    ensures StoreLE(StoreLE(s, a, n, v), a, n, w) == StoreLE(s, a, n, w)
    decreases n
  {
    if n > 0 {
      var s1 := s[a := v % 256];
      StoreUpdate(s1, a, w % 256, a + 1, n - 1, v / 256);
      assert s1[a := w % 256] == s[a := w % 256];
      StoreOverwrite(s[a := w % 256], a + 1, n - 1, v / 256, w / 256);
    }
  }

  /** Writing back what is there changes nothing. */
  lemma {:induction false} StoreSame(s: seq<u8>, a: nat, n: nat)
    requires a + n <= |s|
    ensures StoreLE(s, a, n, LoadLE(s, a, n)) == s
    decreases n
  {
    if n > 0 {
      var v := LoadLE(s, a, n);
      assert v % 256 == s[a] && v / 256 == LoadLE(s, a + 1, n - 1);
      assert s[a := v % 256] == s;
      StoreSame(s, a + 1, n - 1);
    }
  }

  // ---------- several memories behind one address space ----------

  /** An address range [start, start + size); size 0 marks an unpopulated slot. */
  datatype Range = Range(start: nat, size: nat) {
    function End(): nat {
      start + size
    }

    /** Range::contains: the end must not overflow and the access must lie inside. */
    predicate Contains(a: nat, n: nat) {
      a + n < TWO_64 && start <= a && a + n <= End()
    }
  }

  /** A byte memory mapped at start. */
  datatype Region = Region(start: nat, bytes: seq<u8>) {
    function Extent(): Range {
      Range(start, |bytes|)
    }
  }

  /** The plain memories of the bus. */
  datatype Mem = Mem(ram: Region, stack: Region, bootloader: Region) {
    /** The memories in the order in which the bus tries them. */
    function Get(i: nat): Region
      requires i < 3
    {
      if i == 0 then ram else if i == 1 then stack else bootloader
    }

    function Set(i: nat, g: Region): (r: Mem)
      requires i < 3
    {
      if i == 0 then this.(ram := g) else if i == 1 then this.(stack := g) else this.(bootloader := g)
    }
  }

  predicate Covers(g: Region, a: nat, n: nat) {
    g.Extent().Contains(a, n)
  }

  /** Index of the first memory covering the access; 3 when there is none. */
  function Find(m: Mem, a: nat, n: nat): (i: nat)
    ensures i <= 3
    ensures i < 3 ==> Covers(m.Get(i), a, n)
  {
    if Covers(m.ram, a, n) then 0
    else if Covers(m.stack, a, n) then 1
    else if Covers(m.bootloader, a, n) then 2
    else 3
  }

  function MemRead(m: Mem, a: nat, n: nat): (r: Result<nat>)
    ensures r.Ok? ==> r.value < Pow256(n)
  {
    var i := Find(m, a, n);
    if i == 3 then Err(Unmapped)
    else if !ValidSize(n) then Err(BadSize)
    else Ok(LoadLE(m.Get(i).bytes, a - m.Get(i).start, n))
  }

  /** Byte i of a number in memory is the one i addresses up: least significant first. */
  lemma {:induction false} LoadByte(s: seq<u8>, a: nat, n: nat, i: nat)
    requires a + n <= |s| && i < n
    ensures LoadLE(s, a, n) / Pow256(i) % 256 == s[a + i]
    decreases i
  {
    if i > 0 {
      LoadByte(s, a + 1, n - 1, i - 1);
      var v := LoadLE(s, a, n);
      assert v / 256 == LoadLE(s, a + 1, n - 1);
      Division.DivideAfter(v, Pow256(i - 1));
    }
  }

  predicate Separate(g: Region, g': Region) {
    g.Extent().End() <= g'.start || g'.Extent().End() <= g.start
  }

  predicate NoOverlap(m: Mem) {
    Separate(m.ram, m.stack) && Separate(m.ram, m.bootloader) && Separate(m.stack, m.bootloader)
  }

  lemma SameMemory(m: Mem, a: nat, n: nat, i: nat)
    requires NoOverlap(m) && Find(m, a, n) < 3 && i < n
    ensures Find(m, a + i, 1) == Find(m, a, n)
  {
  }

  /** On memories that do not overlap, wide accesses and byte accesses agree: byte i of an n-byte read is
      what a one-byte read i addresses up returns. */
  lemma LittleEndian(m: Mem, a: nat, n: nat, i: nat)
    requires NoOverlap(m)
    requires MemRead(m, a, n).Ok? && i < n
    ensures MemRead(m, a + i, 1) == Ok(MemRead(m, a, n).value / Pow256(i) % 256)
  {
    hide LoadLE, NoOverlap, Find;
    SameMemory(m, a, n, i);
    var g := m.Get(Find(m, a, n));
    LoadByte(g.bytes, a - g.start, n, i);
    LoadByte(g.bytes, a + i - g.start, 1, 0);
  }

  function MemWrite(m: Mem, a: nat, n: nat, v: nat): (r: Result<Mem>)
    ensures r.Ok? ==> SameShape(m, r.value)
  {
    var i := Find(m, a, n);
    if i == 3 then Err(Unmapped)
    else if !ValidSize(n) then Err(BadSize)
    else Ok(m.Set(i, StoreIn(m.Get(i), a, n, v)))
  }

  function StoreIn(g: Region, a: nat, n: nat, v: nat): (r: Region)
    requires Covers(g, a, n)
    ensures SameExtent(g, r)
  {
    g.(bytes := StoreLE(g.bytes, a - g.start, n, v))
  }

  predicate SameExtent(g: Region, g': Region) {
    g.Extent() == g'.Extent()
  }

  /** Same memories at the same places; contents may differ. */
  predicate SameShape(m: Mem, m': Mem) {
    SameExtent(m.ram, m'.ram) && SameExtent(m.stack, m'.stack) && SameExtent(m.bootloader, m'.bootloader)
  }

  predicate Apart(a: nat, n: nat, b: nat, k: nat) {
    a + n <= b || b + k <= a
  }

  /** A write is invisible to every access elsewhere, whatever regions serve the two. */
  lemma ReadOverWrite(m: Mem, a: nat, n: nat, v: nat, b: nat, k: nat)
    requires MemWrite(m, a, n, v).Ok? && Apart(a, n, b, k)
    ensures MemRead(MemWrite(m, a, n, v).value, b, k) == MemRead(m, b, k)
  {
    hide LoadLE, StoreLE;
    var m' := MemWrite(m, a, n, v).value;
    var i, j := Find(m, a, n), Find(m, b, k);
    if i == j && ValidSize(k) {
      LoadFrame(m.Get(i).bytes, m'.Get(i).bytes, b - m.Get(i).start, k);
    }
  }

  lemma ReadBack(m: Mem, a: nat, n: nat, v: nat)
    requires MemWrite(m, a, n, v).Ok?
    ensures MemRead(MemWrite(m, a, n, v).value, a, n) == Ok(Low(v, n))
  {
    hide LoadLE, StoreLE, Low;
    var g := m.Get(Find(m, a, n));
    LoadStore(g.bytes, a - g.start, n, v);
  }

  /** Writes to disjoint ranges commute, errors included. */
  lemma WriteCommute(m: Mem, a: nat, n: nat, v: nat, b: nat, k: nat, w: nat)
    requires MemWrite(m, a, n, v).Ok? && Apart(a, n, b, k)
    ensures MemWrite(m, b, k, w).Err? ==>
              MemWrite(MemWrite(m, a, n, v).value, b, k, w) == MemWrite(m, b, k, w)
    ensures MemWrite(m, b, k, w).Ok? ==>
              MemWrite(MemWrite(m, a, n, v).value, b, k, w) == MemWrite(MemWrite(m, b, k, w).value, a, n, v)
  {
    hide LoadLE, StoreLE;
    var i, j := Find(m, a, n), Find(m, b, k);
    if MemWrite(m, b, k, w).Ok? && i == j {
      var g := m.Get(i);
      StoreCommute(g.bytes, a - g.start, n, v, b - g.start, k, w);
    }
  }

  lemma WriteOverwrite(m: Mem, a: nat, n: nat, v: nat, w: nat)
    requires MemWrite(m, a, n, v).Ok?
    ensures MemWrite(MemWrite(m, a, n, v).value, a, n, w) == MemWrite(m, a, n, w)
  {
    hide LoadLE, StoreLE;
    var g := m.Get(Find(m, a, n));
    StoreOverwrite(g.bytes, a - g.start, n, v, w);
  }

  lemma WriteSame(m: Mem, a: nat, n: nat)
    requires MemRead(m, a, n).Ok?
    ensures MemWrite(m, a, n, MemRead(m, a, n).value) == Ok(m)
  {
    hide LoadLE, StoreLE;
    var g := m.Get(Find(m, a, n));
    StoreSame(g.bytes, a - g.start, n);
  }

  /** Access succeeds by place and width alone. */
  lemma OkByShape(m: Mem, m': Mem, a: nat, n: nat, v: nat)
    requires SameShape(m, m')
    ensures MemWrite(m, a, n, v).Ok? <==> MemRead(m', a, n).Ok?
  {
  }
}
