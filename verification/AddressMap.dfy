/** Address decoding (bus.rs) and the machine layout (emulator.rs): the sorted range table, the
    if-chain that replaced its lookup, and the map that new_smp builds. */
module AddressMap {
  import opened Base
  import opened Memory
  import Plic

  // ---------- RangeManager on values ----------

  /** partition_point(|s| s < x) over the starts: how many leading ranges start below x. */
  function Below(rs: seq<Range>, x: nat): (p: nat)
    ensures p <= |rs|
    ensures forall i :: 0 <= i < p ==> rs[i].start < x
    ensures p < |rs| ==> rs[p].start >= x
  {
    if rs == [] || rs[0].start >= x then 0
    else
      var p := Below(rs[1..], x);
      assert forall i :: 1 <= i < p + 1 ==> rs[i] == rs[1..][i - 1];
      p + 1
  }

  function AddRange(rs: seq<Range>, r: Range): (res: Result<(nat, seq<Range>)>) {
    if r.size == 0 || r.End() >= TWO_64 then Err(BadRange)
    else
      var p := Below(rs, r.start);
      if p == |rs| then
        if p > 0 && rs[p - 1].End() > r.start then Err(BadRange)
        else Ok((p, rs + [r]))
      else if rs[p].start == r.start then Err(BadRange)
      else if r.End() > rs[p].start then Err(BadRange)
      else Ok((p, rs[..p] + [r] + rs[p..]))
  }

  function GetRange(rs: seq<Range>, a: nat, n: nat): (res: Result<(nat, Range)>) {
    if n == 0 || a + n >= TWO_64 then Err(BadRange)
    else
      var p := Below(rs, a + 1);
      if p == 0 then Err(Unmapped)
      else if a + n <= rs[p - 1].End() then Ok((p - 1, rs[p - 1]))
      else Err(Unmapped)
  }

  /** Nonempty, non-overflowing ranges with strictly increasing starts. */
  predicate Sorted(rs: seq<Range>) {
    && (forall i :: 0 <= i < |rs| ==> rs[i].size > 0 && rs[i].End() < TWO_64)
    && (forall i, j :: 0 <= i < j < |rs| ==> rs[i].start < rs[j].start)
  }

  predicate Disjoint(rs: seq<Range>) {
    forall i, j :: 0 <= i < j < |rs| ==> Separate(rs[i], rs[j])
  }

  predicate Separate(r: Range, s: Range) {
    r.End() <= s.start || s.End() <= r.start
  }

  /** Every accepted reservation keeps the table strictly sorted and adds exactly that range. */
  lemma AddKeepsSorted(rs: seq<Range>, r: Range)
    requires Sorted(rs) && AddRange(rs, r).Ok?
    ensures var (p, rs') := AddRange(rs, r).value;
            Sorted(rs') && p <= |rs| && rs'[p] == r && rs' == rs[..p] + [r] + rs[p..] && r !in rs
  {
    hide Below;
    var p := Below(rs, r.start);
    var rs' := AddRange(rs, r).value.1;
    assert rs' == rs[..p] + [r] + rs[p..];
    assert forall i :: 0 <= i < p ==> rs'[i] == rs[i];
    assert rs'[p] == r;
    assert forall i :: p < i < |rs'| ==> rs'[i] == rs[i - 1];
  }

  /** When overlaps are rejected. An accepted reservation leaves the table disjoint exactly when
      the preceding range ends at or before the new start; only appends check that. */
  lemma AddKeepsDisjointIff(rs: seq<Range>, r: Range)
    requires Sorted(rs) && Disjoint(rs) && AddRange(rs, r).Ok?
    ensures var p := Below(rs, r.start);
            Disjoint(AddRange(rs, r).value.1) <==> (p == 0 || rs[p - 1].End() <= r.start)
  {
    hide Below;
    AddKeepsSorted(rs, r);
    var p := Below(rs, r.start);
    var rs' := AddRange(rs, r).value.1;
    if p > 0 {
      assert rs'[p - 1] == rs[p - 1] && rs'[p] == r;
      if rs[p - 1].End() > r.start {
        assert !Separate(rs'[p - 1], rs'[p]);
      }
    }
    if p == 0 || rs[p - 1].End() <= r.start {
      forall i, j | 0 <= i < j < |rs'|
        ensures Separate(rs'[i], rs'[j])
      {
        FitsBetween(rs, r, p, i, j);
      }
    }
  }

  /** A range between its neighbours is separate from everything in a sorted disjoint table. */
  lemma FitsBetween(rs: seq<Range>, r: Range, p: nat, i: nat, j: nat)
    requires Sorted(rs) && Disjoint(rs) && p <= |rs| && i < j <= |rs|
    requires p > 0 ==> rs[p - 1].End() <= r.start
    requires p < |rs| ==> r.End() <= rs[p].start
    ensures var rs' := rs[..p] + [r] + rs[p..]; Separate(rs'[i], rs'[j])
  {
    var i0 := if i < p then i else i - 1;
    var j0 := if j < p then j else j - 1;
    if i != p && j != p {
      assert Separate(rs[i0], rs[j0]);
    } else if j == p && i < p - 1 {
      assert Separate(rs[i], rs[p - 1]);
    } else if i == p && j > p + 1 {
      assert Separate(rs[p], rs[j0]);
    }
  }

  /** The gap is real: a range placed inside an earlier one is accepted in the middle of the table. */
  lemma AddAcceptsOverlap()
    ensures var rs := [Range(0, 50), Range(100, 10)];
            && Sorted(rs) && Disjoint(rs)
            && AddRange(rs, Range(20, 10)) == Ok((1, [Range(0, 50), Range(20, 10), Range(100, 10)]))
            && !Disjoint(AddRange(rs, Range(20, 10)).value.1)
  {
    var rs := [Range(0, 50), Range(100, 10)];
    assert Below(rs[1..], 20) == 0;
    assert Below(rs, 20) == 1;
    var rs' := AddRange(rs, Range(20, 10)).value.1;
    assert rs' == [Range(0, 50), Range(20, 10), Range(100, 10)];
    assert !Separate(rs'[0], rs'[1]);
  }

  /** A range separate from all present ones is always accepted and keeps the table disjoint. */
  lemma AddSeparate(rs: seq<Range>, r: Range)
    requires Sorted(rs) && Disjoint(rs) && r.size > 0 && r.End() < TWO_64
    requires forall i :: 0 <= i < |rs| ==> Separate(rs[i], r)
    ensures AddRange(rs, r).Ok?
    ensures Sorted(AddRange(rs, r).value.1) && Disjoint(AddRange(rs, r).value.1)
  {
    AddKeepsSorted(rs, r);
    AddKeepsDisjointIff(rs, r);
  }

  /** The binary search finds the range covering the access, and fails exactly when none does. */
  lemma LookupExact(rs: seq<Range>, a: nat, n: nat)
    requires Sorted(rs) && Disjoint(rs) && n > 0
    ensures GetRange(rs, a, n).Ok? ==>
              var (i, r) := GetRange(rs, a, n).value; i < |rs| && rs[i] == r && r.Contains(a, n)
    ensures GetRange(rs, a, n).Err? ==> forall i :: 0 <= i < |rs| ==> !rs[i].Contains(a, n)
  {
    var p := Below(rs, a + 1);
    assert forall i :: 0 <= i && i + 1 < p ==> Separate(rs[i], rs[p - 1]);
  }

  // ---------- the bus's hard-coded chain ----------

  datatype Device = RamDev | StackDev | BootDev | ClintDev | UartDev | PlicDev | VirtioDev

  /** One range field per device; unpopulated fields have size 0. */
  datatype Layout = Layout(ram: Range, stack: Range, bootloader: Range, clint: Range, uart: Range,
                           plic: Range, virtio: Range)
  {
    function Of(d: Device): Range {
      match d
      case RamDev => ram
      case StackDev => stack
      case BootDev => bootloader
      case ClintDev => clint
      case UartDev => uart
      case PlicDev => plic
      case VirtioDev => virtio
    }

    function With(d: Device, r: Range): (l: Layout)
      ensures l.Of(d) == r && forall e :: e != d ==> l.Of(e) == Of(e)
    {
      match d
      case RamDev => this.(ram := r)
      case StackDev => this.(stack := r)
      case BootDev => this.(bootloader := r)
      case ClintDev => this.(clint := r)
      case UartDev => this.(uart := r)
      case PlicDev => this.(plic := r)
      case VirtioDev => this.(virtio := r)
    }
  }

  const NONE := Range(0, 0)
  const EMPTY_LAYOUT := Layout(NONE, NONE, NONE, NONE, NONE, NONE, NONE)

  /** The if-chain of Bus::read and Bus::write: which device serves the access, at what offset. */
  function Select(l: Layout, a: nat, n: nat): (r: Option<(Device, nat)>) {
    if l.ram.Contains(a, n) then Some((RamDev, a - l.ram.start))
    else if l.stack.Contains(a, n) then Some((StackDev, a - l.stack.start))
    else if l.bootloader.Contains(a, n) then Some((BootDev, a - l.bootloader.start))
    else if l.clint.Contains(a, n) then Some((ClintDev, a - l.clint.start))
    else if l.uart.Contains(a, n) then Some((UartDev, a - l.uart.start))
    else if l.plic.Contains(a, n) then Some((PlicDev, a - l.plic.start))
    else if l.virtio.Contains(a, n) then Some((VirtioDev, a - l.virtio.start))
    else None
  }

  /** The table holds exactly the populated fields. */
  ghost predicate Registered(l: Layout, rs: seq<Range>) {
    && (forall d: Device :: l.Of(d).size > 0 ==> l.Of(d) in rs)
    && (forall r :: r in rs ==> exists d: Device :: l.Of(d) == r)
  }

  lemma SelectFindsContaining(l: Layout, a: nat, n: nat)
    ensures Select(l, a, n).Some? ==>
              var (d, off) := Select(l, a, n).value; l.Of(d).Contains(a, n) && off == a - l.Of(d).start
    ensures Select(l, a, n).None? ==> forall d: Device :: !l.Of(d).Contains(a, n)
  {
    if Select(l, a, n).None? {
      forall d: Device
        ensures !l.Of(d).Contains(a, n)
      {
        match d
        case RamDev =>
        case StackDev =>
        case BootDev =>
        case ClintDev =>
        case UartDev =>
        case PlicDev =>
        case VirtioDev =>
      }
    }
  }

  /** On a disjoint map the if-chain and the binary search it replaced agree on every access of at
      least one byte: same range and offset, and both fail exactly when no single range covers it. */
  lemma ChainIsLookup(l: Layout, rs: seq<Range>, a: nat, n: nat)
    requires Sorted(rs) && Disjoint(rs) && Registered(l, rs) && n > 0
    ensures Select(l, a, n).Some? <==> GetRange(rs, a, n).Ok?
    ensures Select(l, a, n).Some? ==>
              var (d, off) := Select(l, a, n).value;
              var (i, r) := GetRange(rs, a, n).value;
              l.Of(d) == r && off == a - r.start && off + n <= r.size
    ensures Select(l, a, n).None? <==> forall i :: 0 <= i < |rs| ==> !rs[i].Contains(a, n)
  {
    LookupExact(rs, a, n);
    SelectFindsContaining(l, a, n);
    if Select(l, a, n).Some? {
      var (d, off) := Select(l, a, n).value;
      var k :| 0 <= k < |rs| && rs[k] == l.Of(d);
      assert rs[k].Contains(a, n);
    } else {
      forall i | 0 <= i < |rs|
        ensures !rs[i].Contains(a, n)
      {
        assert rs[i] in rs;
      }
    }
  }

  // ---------- the map built by new_smp ----------

  const STACK_SIZE := 0x0800_0000
  const CLINT_BASE := 0x0200_0000
  const CLINT_SIZE := 0x1_0000
  const UART_BASE := 0x1000_0000
  const UART_SIZE := 0x100
  const VIRTIO_BASE := 0x1000_1000
  const VIRTIO_SIZE := 0x1000
  const PLIC_BASE := 0x0C00_0000
  const PLIC_SIZE := 0x0FFF_FFFF - PLIC_BASE + 1
  const BOOTLOADER_ADDR := 0x1000
  const BOOTLOADER_SIZE := 40

  function RoundUp(len: nat): nat {
    (len + 0xfff) / 0x1000 * 0x1000
  }

  datatype Map = Map(layout: Layout, table: seq<Range>)

  const EMPTY_MAP := Map(EMPTY_LAYOUT, [])

  /** A setter: reserve the range, then populate the field. */
  function Install(m: Map, d: Device, r: Range): (res: Result<Map>) {
    var added :- AddRange(m.table, r);
    Ok(Map(m.layout.With(d, r), added.1))
  }

  /** The reservations of new_smp in program order. */
  function SmpPlan(len: nat, address: nat): (plan: seq<(Device, Range)>) {
    var ram := Range(address, RoundUp(len));
    [ (RamDev, ram),
      (StackDev, Range(ram.End(), STACK_SIZE)),
      (ClintDev, Range(CLINT_BASE, CLINT_SIZE)),
      (UartDev, Range(UART_BASE, UART_SIZE)),
      (VirtioDev, Range(VIRTIO_BASE, VIRTIO_SIZE)),
      (PlicDev, Range(PLIC_BASE, PLIC_SIZE)),
      (BootDev, Range(BOOTLOADER_ADDR, BOOTLOADER_SIZE)) ]
  }

  function InstallAll(m: Map, plan: seq<(Device, Range)>): (res: Result<Map>)
    decreases |plan|
  {
    if plan == [] then Ok(m)
    else
      var m1 :- Install(m, plan[0].0, plan[0].1);
      InstallAll(m1, plan[1..])
  }

  /** The address map of new_smp for an image of len bytes at the given address. */
  function NewSmp(len: nat, address: nat, ncpu: nat): (res: Result<Map>) {
    if ncpu == 0 || ncpu > Plic.MAX_CONTEXTS / 2 then Err(BadHartCount)
    else if RoundUp(len) + address >= TWO_64 then Err(Overflow)
    else InstallAll(EMPTY_MAP, SmpPlan(len, address))
  }

  /** Sound map: sorted, disjoint table that agrees with the fields. */
  ghost predicate Sound(m: Map) {
    Sorted(m.table) && Disjoint(m.table) && Registered(m.layout, m.table)
  }

  lemma InstallSound(m: Map, d: Device, r: Range)
    requires Sound(m) && m.layout.Of(d) == NONE
    requires r.size > 0 && r.End() < TWO_64
    requires forall i :: 0 <= i < |m.table| ==> Separate(m.table[i], r)
    ensures Install(m, d, r).Ok? && Sound(Install(m, d, r).value)
    ensures forall x :: x in Install(m, d, r).value.table <==> x in m.table || x == r
    ensures forall e :: e != d ==> Install(m, d, r).value.layout.Of(e) == m.layout.Of(e)
  {
    AddSeparate(m.table, r);
    AddKeepsSorted(m.table, r);
    hide Below, AddRange, Sorted, Disjoint;
    var (p, rs') := AddRange(m.table, r).value;
    InsertedElements(m.table, p, r);
    TableNonempty(m.table);
    RegisterOne(m.layout, m.table, d, r, rs');
  }

  lemma InsertedElements(rs: seq<Range>, p: nat, r: Range)
    requires p <= |rs|
    ensures forall x :: x in rs[..p] + [r] + rs[p..] <==> x in rs || x == r
  {
    assert rs == rs[..p] + rs[p..];
  }

  lemma TableNonempty(rs: seq<Range>)
    requires Sorted(rs)
    ensures forall x :: x in rs ==> x.size > 0
  {
  }

  lemma RegisterOne(l: Layout, rs: seq<Range>, d: Device, r: Range, rs': seq<Range>)
    requires Registered(l, rs) && l.Of(d) == NONE && r.size > 0
    requires forall x :: x in rs ==> x.size > 0
    requires forall x :: x in rs' <==> x in rs || x == r
    ensures Registered(l.With(d, r), rs')
  {
    var l' := l.With(d, r);
    forall x | x in rs'
      ensures exists e: Device :: l'.Of(e) == x
    {
      if x == r {
        assert l'.Of(d) == x;
      } else {
        var e: Device :| l.Of(e) == x;
        assert l'.Of(e) == x;
      }
    }
  }

  /** Pairwise separate reservations for distinct devices all succeed. */
  predicate GoodPlan(plan: seq<(Device, Range)>) {
    && (forall i :: 0 <= i < |plan| ==> plan[i].1.size > 0 && plan[i].1.End() < TWO_64)
    && (forall i, j :: 0 <= i < j < |plan| ==> plan[i].0 != plan[j].0 && Separate(plan[i].1, plan[j].1))
  }

  lemma {:induction false} InstallAllSound(m: Map, plan: seq<(Device, Range)>)
    requires Sound(m) && GoodPlan(plan)
    requires forall i :: 0 <= i < |plan| ==> m.layout.Of(plan[i].0) == NONE
    requires forall i, j :: 0 <= i < |m.table| && 0 <= j < |plan| ==> Separate(m.table[i], plan[j].1)
    ensures InstallAll(m, plan).Ok? && Sound(InstallAll(m, plan).value)
    decreases |plan|
  {
    if plan != [] {
      hide Sorted, Disjoint, Registered, AddRange;
      var (d, r) := plan[0];
      InstallSound(m, d, r);
      var m1 := Install(m, d, r).value;
      var rest := plan[1..];
      assert forall i :: 0 <= i < |rest| ==> rest[i] == plan[i + 1];
      forall i, j | 0 <= i < |m1.table| && 0 <= j < |rest|
        ensures Separate(m1.table[i], rest[j].1)
      {
        assert m1.table[i] in m1.table;
        if m1.table[i] in m.table {
          var k :| 0 <= k < |m.table| && m.table[k] == m1.table[i];
        }
      }
      InstallAllSound(m1, rest);
    }
  }

  /** Every range installed is new and stays in the table. */
  lemma {:induction false} InstallAllKeeps(m: Map, plan: seq<(Device, Range)>, x: Range)
    requires Sorted(m.table) && InstallAll(m, plan).Ok?
    requires x in m.table || exists i :: 0 <= i < |plan| && plan[i].1 == x
    ensures x in InstallAll(m, plan).value.table
    ensures x in m.table ==> forall i :: 0 <= i < |plan| ==> plan[i].1 != x
    decreases |plan|
  {
    if plan != [] {
      hide Below, AddRange, Sorted;
      var (d, r) := plan[0];
      AddKeepsSorted(m.table, r);
      var m1 := Install(m, d, r).value;
      InsertedElements(m.table, AddRange(m.table, r).value.0, r);
      if x !in m.table && x != r {
        var i :| 0 <= i < |plan| && plan[i].1 == x;
        assert plan[1..][i - 1].1 == x;
      }
      InstallAllKeeps(m1, plan[1..], x);
    }
  }

  lemma {:induction false} InstalledDistinct(m: Map, plan: seq<(Device, Range)>, i: nat, j: nat)
    requires Sorted(m.table) && InstallAll(m, plan).Ok? && i < j < |plan|
    ensures plan[i].1 != plan[j].1
    decreases |plan|
  {
    hide Below, AddRange, Sorted;
    var (d, r) := plan[0];
    AddKeepsSorted(m.table, r);
    var m1 := Install(m, d, r).value;
    if i == 0 {
      InstallAllKeeps(m1, plan[1..], r);
      assert plan[1..][j - 1] == plan[j];
    } else {
      InstalledDistinct(m1, plan[1..], i - 1, j - 1);
    }
  }

  /** Where an image may be loaded: image and stack clear of every device window. */
  predicate Placeable(len: nat, address: nat) {
    && len > 0
    && address + RoundUp(len) + STACK_SIZE < TWO_64
    && (|| address >= VIRTIO_BASE + VIRTIO_SIZE
        || (CLINT_BASE + CLINT_SIZE <= address && address + RoundUp(len) + STACK_SIZE <= PLIC_BASE))
  }

  /** new_smp yields a sound disjoint map exactly for placeable images and 1 to 32 harts. */
  lemma NewSmpSoundIff(len: nat, address: nat, ncpu: nat)
    ensures (NewSmp(len, address, ncpu).Ok? && Sound(NewSmp(len, address, ncpu).value)) <==>
            (1 <= ncpu <= 32 && Placeable(len, address))
  {
    var plan := SmpPlan(len, address);
    hide InstallAll, Sound;
    if 1 <= ncpu <= 32 && Placeable(len, address) {
      assert GoodPlan(plan);
      EmptySound();
      InstallAllSound(EMPTY_MAP, plan);
    }
    if NewSmp(len, address, ncpu).Ok? && Sound(NewSmp(len, address, ncpu).value) {
      SoundImpliesPlaceable(len, address, ncpu);
    }
  }

  lemma EmptySound()
    ensures Sound(EMPTY_MAP)
    ensures forall d: Device :: EMPTY_LAYOUT.Of(d) == NONE
  {
  }

  lemma SoundImpliesPlaceable(len: nat, address: nat, ncpu: nat)
    requires NewSmp(len, address, ncpu).Ok? && Sound(NewSmp(len, address, ncpu).value)
    ensures Placeable(len, address)
  {
    hide InstallAll, Sorted, Disjoint, Registered;
    EmptySound();
    var plan := SmpPlan(len, address);
    forall i, j | 0 <= i < j < |plan|
      ensures Separate(plan[i].1, plan[j].1) && plan[i].1.size > 0 && plan[j].1.End() < TWO_64
    {
      InstalledDistinct(EMPTY_MAP, plan, i, j);
      InstallAllKeeps(EMPTY_MAP, plan, plan[i].1);
      InstallAllKeeps(EMPTY_MAP, plan, plan[j].1);
      TableFacts(NewSmp(len, address, ncpu).value.table, plan[i].1, plan[j].1);
    }
    assert Separate(plan[0].1, plan[2].1) && Separate(plan[1].1, plan[2].1);
    assert Separate(plan[0].1, plan[4].1) && Separate(plan[1].1, plan[4].1);
    assert Separate(plan[0].1, plan[5].1) && Separate(plan[1].1, plan[5].1);
    assert Separate(plan[0].1, plan[6].1) && Separate(plan[1].1, plan[6].1);
    assert Separate(plan[0].1, plan[3].1) && Separate(plan[1].1, plan[3].1);
  }

  lemma TableFacts(rs: seq<Range>, x: Range, y: Range)
    requires Sorted(rs) && Disjoint(rs) && x in rs && y in rs && x != y
    ensures Separate(x, y) && x.size > 0 && y.size > 0 && x.End() < TWO_64 && y.End() < TWO_64
  {
  }
}
