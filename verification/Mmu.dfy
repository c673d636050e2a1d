/** The bit-level vocabulary of Sv39 (mmu.rs): page-table entries, address fields and how a
    physical address is put together. */
module Sv39Bits {
  import opened Base

  const PTE_V: bv64 := 1
  const PTE_R: bv64 := 2
  const PTE_W: bv64 := 4
  const PTE_X: bv64 := 8
  const PERM_MASK: bv64 := 0xe
  const PPN_MASK: bv64 := 0xfff_ffff_ffff
  const TWO_56: bv64 := 0x100_0000_0000_0000

  datatype Access = R | W | X

  function Required(acc: Access): bv64 {
    match acc
    case R => PTE_R
    case W => PTE_W
    case X => PTE_X
  }

  predicate Permits(bits: bv64, acc: Access) {
    bits & Required(acc) != 0
  }

  predicate Bare(satp: bv64) {
    satp >> 60 == 0
  }

  predicate Sv39(satp: bv64) {
    satp >> 60 == 8
  }

  lemma Sv39IsNotBare(satp: bv64)
    requires Sv39(satp)
    ensures !Bare(satp)
  {
  }

  /** The three 9-bit page-number fields of an address. */
  datatype Vpn = Vpn(f0: bv64, f1: bv64, f2: bv64) {
    function At(level: nat): bv64
      requires level < 3
    {
      if level == 0 then f0 else if level == 1 then f1 else f2
    }
  }

  function Field0(va: bv64): bv64 { (va >> 12) & 0x1ff }
  function Field1(va: bv64): bv64 { (va >> 21) & 0x1ff }
  function Field2(va: bv64): bv64 { (va >> 30) & 0x1ff }

  function Fields(va: bv64): Vpn {
    Vpn(Field0(va), Field1(va), Field2(va))
  }

  function Root(satp: bv64): bv64 {
    Frame(satp & PPN_MASK)
  }

  function EntryAt(a: bv64, i: bv64): bv64 {
    a + i * 8
  }

  function Ppn(pte: bv64): bv64 {
    (pte >> 10) & PPN_MASK
  }

  /** First address of a page frame. */
  function Frame(ppn: bv64): bv64 {
    ppn * 0x1000
  }

  function TableOf(pte: bv64): bv64 {
    Frame(Ppn(pte))
  }

  function PermOf(pte: bv64): bv64 {
    pte & PERM_MASK
  }

  datatype PteKind = Invalid | Leafy | Reserved | Pointer

  function Kind(pte: bv64): PteKind {
    if pte & PTE_V == 0 then Invalid
    else if pte & (PTE_R | PTE_X) != 0 then Leafy
    else if pte & PTE_W != 0 then Reserved
    else Pointer
  }

  datatype Leaf = Leaf(pte: bv64, level: nat)

  function LowMask(level: nat): bv64
    requires level < 3
  {
    if level == 0 then 0 else if level == 1 then 0x1ff else 0x3_ffff
  }

  /** The low page-number fields a superpage takes from the address. */
  function VaLow(vpn: Vpn, level: nat): bv64
    requires level < 3
  {
    if level == 0 then 0 else if level == 1 then vpn.f0 else Join1(vpn.f0, vpn.f1)
  }

  /** The second page-number field above the first. */
  function Join1(f0: bv64, f1: bv64): bv64 {
    f0 | (f1 << 9)
  }

  function Merge(ppn: bv64, level: nat, vpn: Vpn): bv64
    requires level < 3
  {
    Combine(ppn, LowMask(level), VaLow(vpn, level))
  }

  function Combine(ppn: bv64, mask: bv64, low: bv64): bv64 {
    (ppn & !mask) | low
  }

  predicate Clear(ppn: bv64, mask: bv64) {
    ppn & mask == 0
  }

  predicate Aligned(ppn: bv64, level: nat)
    requires level < 3
  {
    Clear(ppn, LowMask(level))
  }

  function Resolve(leaf: Leaf, vpn: Vpn): (r: Result<bv64>)
    requires leaf.level < 3
  {
    if leaf.level > 0 && !Aligned(Ppn(leaf.pte), leaf.level) then Err(MisalignedSuperpage)
    else Ok(Merge(Ppn(leaf.pte), leaf.level, vpn))
  }

  function Physical(ppn: bv64, va: bv64): bv64 {
    Glue(ppn, va & 0xfff)
  }

  predicate TableBase(a: bv64) {
    a & 0xfff == 0 && a < TWO_56
  }

  predicate EntryAddress(a: bv64) {
    a & 7 == 0 && a < TWO_56
  }

  lemma EntryInRange(a: bv64, level: nat, va: bv64)
    requires TableBase(a) && level < 3
    ensures EntryAddress(EntryAt(a, Fields(va).At(level)))
  {
    hide EntryAt, TableBase, EntryAddress;
    AddIndex(a, va >> 12);
    AddIndex(a, va >> 21);
    AddIndex(a, va >> 30);
  }

  /** Adding a 9-bit index neither overflows nor leaves the table's alignment. */
  lemma AddIndex(a: bv64, x: bv64)
    requires TableBase(a)
    ensures EntryAddress(EntryAt(a, x & 0x1ff)) && a <= EntryAt(a, x & 0x1ff)
  {
  }

  lemma TableInRange(pte: bv64)
    ensures TableBase(TableOf(pte))
  {
    PageBase(pte >> 10);
  }

  lemma PageBase(x: bv64)
    ensures TableBase(Frame(x & PPN_MASK))
  {
  }

  /** 2^(12 + 9 level) - 1. */
  function OffsetMask(level: nat): bv64
    requires level < 3
  {
    if level == 0 then 0xfff else if level == 1 then 0x1f_ffff else 0x3fff_ffff
  }

  /** Offset of va inside a page of the given level's size. */
  function PageOffset(va: bv64, level: nat): bv64
    requires level < 3
  {
    va & OffsetMask(level)
  }

  function PageStart(va: bv64, level: nat): bv64
    requires level < 3
  {
    va & !OffsetMask(level)
  }

  /** The leaf's frame plus the offset inside a page of the leaf's size. */
  function Target(leaf: Leaf, va: bv64): bv64
    requires leaf.level < 3
  {
    At(Ppn(leaf.pte), PageOffset(va, leaf.level))
  }

  lemma Assemble(leaf: Leaf, va: bv64)
    requires leaf.level < 3 && Resolve(leaf, Fields(va)).Ok?
    ensures Physical(Resolve(leaf, Fields(va)).value, va) == Target(leaf, va)
    ensures Target(leaf, va) < TWO_56
  {
    hide Ppn, Physical, Combine, Fields, Clear, LowMask, VaLow, Frame, At, PageOffset, Glue, Either, Under;
    var p, low := Ppn(leaf.pte), VaLow(Fields(va), leaf.level);
    NothingMasked(p);
    assert Clear(p, LowMask(leaf.level));
    MergeClear(p, LowMask(leaf.level), low);
    OffsetOf(p, va, leaf.level);
    OffsetUnder(p, va, leaf.level);
    GlueIsAt(p, PageOffset(va, leaf.level));
    PpnFits(leaf.pte);
    OffsetFits(va, leaf.level);
    GlueFits(p, PageOffset(va, leaf.level));
  }

  /** A frame number with an offset below it. */
  function Glue(p: bv64, offset: bv64): bv64 {
    Either(Shift(p), offset)
  }

  function Shift(p: bv64): bv64 {
    p << 12
  }

  function Sum(x: bv64, y: bv64): bv64 {
    x + y
  }

  predicate Disjoint(x: bv64, y: bv64) {
    x & y == 0
  }

  function Either(x: bv64, y: bv64): bv64 {
    x | y
  }

  /** Frame address plus offset. */
  function At(p: bv64, offset: bv64): bv64 {
    Sum(Frame(p), offset)
  }

  lemma NothingMasked(p: bv64)
    ensures Clear(p, LowMask(0))
  {
  }

  lemma MergeClear(p: bv64, mask: bv64, low: bv64)
    requires Clear(p, mask)
    ensures Combine(p, mask, low) == Either(p, low)
  {
    hide Combine, Clear;
    MergeClearBits(p, mask, low);
  }

  lemma MergeClearBits(p: bv64, mask: bv64, low: bv64)
    requires Clear(p, mask)
    ensures Combine(p, mask, low) == p | low
  {
  }

  /** The page-number fields taken from the address and its page offset are one longer offset. */
  lemma OffsetOf(p: bv64, va: bv64, level: nat)
    requires level < 3
    ensures Physical(Either(p, VaLow(Fields(va), level)), va) == Glue(p, PageOffset(va, level))
  {
    hide Physical, Either, Field0, Field1, Glue, Join1, PageOffset;
    OffsetOf0(p, va);
    OffsetOf1(p, va);
    OffsetOf2(p, va);
  }

  lemma OffsetOf0(p: bv64, va: bv64)
    ensures Physical(Either(p, 0), va) == Glue(p, PageOffset(va, 0))
  {
    hide Physical, Glue, Either;
    OrZero(p);
    OffsetBits0(p, va);
  }

  lemma OrZero(p: bv64)
    ensures Either(p, 0) == p
  {
  }

  lemma OffsetOf1(p: bv64, va: bv64)
    ensures Physical(Either(p, Field0(va)), va) == Glue(p, PageOffset(va, 1))
  {
    OffsetBits1(p, va);
  }

  lemma OffsetOf2(p: bv64, va: bv64)
    ensures Physical(Either(p, Join1(Field0(va), Field1(va))), va) == Glue(p, PageOffset(va, 2))
  {
    OffsetBits2(p, va);
  }

  lemma OffsetBits0(p: bv64, va: bv64)
    ensures Physical(p, va) == Glue(p, va & 0xfff)
  {
    hide Glue;
  }

  lemma OffsetBits1(p: bv64, va: bv64)
    ensures ((p | ((va >> 12) & 0x1ff)) << 12) | (va & 0xfff) == (p << 12) | (va & 0x1f_ffff)
  {
  }

  lemma OffsetBits2(p: bv64, va: bv64)
    ensures ((p | (((va >> 12) & 0x1ff) | (((va >> 21) & 0x1ff) << 9))) << 12) | (va & 0xfff) ==
            (p << 12) | (va & 0x3fff_ffff)
  {
  }

  lemma OrBits(x: bv64, y: bv64)
    requires x & y == 0
    ensures x | y == x + y
  {
  }

  lemma OrIsSum(x: bv64, y: bv64)
    requires Disjoint(x, y)
    ensures Either(x, y) == Sum(x, y)
  {
    OrBits(x, y);
  }

  lemma FrameIsShift(p: bv64)
    ensures Frame(p) == Shift(p)
  {
  }

  /** The offset lies below the frame address. */
  predicate Under(p: bv64, offset: bv64) {
    Disjoint(Shift(p), offset)
  }

  lemma GlueIsAt(p: bv64, offset: bv64)
    requires Under(p, offset)
    ensures Glue(p, offset) == At(p, offset)
  {
    hide Shift, Frame, Disjoint, Either, Sum;
    FrameIsShift(p);
    OrIsSum(Shift(p), offset);
  }

  lemma OffsetUnder(p: bv64, va: bv64, level: nat)
    requires level < 3 && Clear(p, LowMask(level))
    ensures Under(p, PageOffset(va, level))
  {
    hide PageOffset, Clear, Under;
    if level == 0 {
      OffsetUnder0(p, va);
    } else if level == 1 {
      OffsetUnder1(p, va);
    } else {
      OffsetUnder2(p, va);
    }
  }

  lemma OffsetUnder0(p: bv64, va: bv64)
    ensures Under(p, PageOffset(va, 0))
  {
  }

  lemma OffsetUnder1(p: bv64, va: bv64)
    requires Clear(p, 0x1ff)
    ensures Under(p, PageOffset(va, 1))
  {
  }

  lemma OffsetUnder2(p: bv64, va: bv64)
    requires Clear(p, 0x3_ffff)
    ensures Under(p, PageOffset(va, 2))
  {
  }

  lemma OffsetFits(va: bv64, level: nat)
    requires level < 3
    ensures PageOffset(va, level) <= 0x3fff_ffff
  {
  }

  lemma GlueFits(p: bv64, offset: bv64)
    requires p <= PPN_MASK && offset <= 0x3fff_ffff
    ensures Glue(p, offset) < TWO_56
  {
  }

  lemma PpnFits(pte: bv64)
    ensures Ppn(pte) <= PPN_MASK
  {
  }

  /** The same page-number fields from level l up. */
  predicate SameFrom(vpn: Vpn, vpn': Vpn, l: nat) {
    forall k :: l <= k < 3 ==> vpn.At(k) == vpn'.At(k)
  }

  lemma SameField(vpn: Vpn, vpn': Vpn, l: nat, k: nat)
    requires SameFrom(vpn, vpn', l) && l <= k < 3
    ensures vpn.At(k) == vpn'.At(k)
  {
  }

  lemma SamePageFields(va: bv64, va': bv64, l: nat)
    requires l < 3 && PageStart(va, l) == PageStart(va', l)
    ensures SameFrom(Fields(va), Fields(va'), l)
  {
    hide PageStart, Field0, Field1, Field2;
    if l == 0 {
      Finer0(va, va');
    }
    if l <= 1 {
      Finer1(va, va');
    }
    Finer2(va, va');
  }

  lemma Finer0(va: bv64, va': bv64)
    requires PageStart(va, 0) == PageStart(va', 0)
    ensures Field0(va) == Field0(va')
    ensures PageStart(va, 1) == PageStart(va', 1)
  {
  }

  lemma Finer1(va: bv64, va': bv64)
    requires PageStart(va, 1) == PageStart(va', 1)
    ensures Field1(va) == Field1(va')
    ensures PageStart(va, 2) == PageStart(va', 2)
  {
  }

  lemma Finer2(va: bv64, va': bv64)
    requires PageStart(va, 2) == PageStart(va', 2)
    ensures Field2(va) == Field2(va')
  {
  }

  function PageNumber(va: bv64): bv64 {
    va >> 12
  }

  function PageBaseOf(vpn: bv64): bv64 {
    vpn << 12
  }

  /** The page-number fields survive dropping the page offset. */
  lemma FieldsOfPage(va: bv64)
    ensures Fields(PageBaseOf(PageNumber(va))) == Fields(va)
  {
    hide Field0, Field1, Field2;
    Field0OfPage(va);
    Field1OfPage(va);
    Field2OfPage(va);
  }

  lemma Field0OfPage(va: bv64)
    ensures Field0(PageBaseOf(PageNumber(va))) == Field0(va)
  {
  }

  lemma Field1OfPage(va: bv64)
    ensures Field1(PageBaseOf(PageNumber(va))) == Field1(va)
  {
  }

  lemma Field2OfPage(va: bv64)
    ensures Field2(PageBaseOf(PageNumber(va))) == Field2(va)
  {
  }

  lemma MergeBound(p: bv64, level: nat, vpn: Vpn)
    requires level < 3 && p <= PPN_MASK && VaLow(vpn, level) <= 0x3_ffff
    ensures Merge(p, level, vpn) <= PPN_MASK
  {
    hide LowMask, VaLow;
  }

  lemma LowFieldBound(va: bv64, level: nat)
    requires level < 3
    ensures VaLow(Fields(va), level) <= 0x3_ffff
  {
  }

  lemma LeafPermBits(pte: bv64)
    requires Kind(pte) == Leafy
    ensures PermOf(pte) & PERM_MASK == PermOf(pte)
    ensures PermOf(pte) != 0
  {
  }

  lemma PageNumberBound(va: bv64)
    ensures PageNumber(va) < 0x10_0000_0000_0000
  {
  }

  lemma PermBits(pte: bv64, acc: Access)
    ensures Permits(PermOf(pte), acc) == Permits(pte, acc)
  {
  }

  /** An access kind on which the permission sets differ, else one that both allow. */
  function Witness(perm: bv64, perm': bv64): Access {
    if Permits(perm, R) != Permits(perm', R) then R
    else if Permits(perm, W) != Permits(perm', W) then W
    else if Permits(perm, X) != Permits(perm', X) then X
    else if Permits(perm, R) then R
    else if Permits(perm, W) then W
    else X
  }

  lemma SomeAccessAllowed(perm: bv64)
    requires perm & PERM_MASK == perm && perm != 0
    ensures Permits(perm, Witness(perm, perm))
  {
  }

  lemma WitnessDistinguishes(perm: bv64, perm': bv64)
    requires perm & PERM_MASK == perm && perm' & PERM_MASK == perm' && perm != perm'
    ensures Permits(perm, Witness(perm, perm')) != Permits(perm', Witness(perm, perm'))
  {
  }

  lemma PhysicalInjective(ppn: bv64, ppn': bv64, va: bv64)
    requires ppn <= PPN_MASK && ppn' <= PPN_MASK && Physical(ppn, va) == Physical(ppn', va)
    ensures ppn == ppn'
  {
  }

  lemma PageOfBase(vpn: bv64)
    requires vpn < 0x10_0000_0000_0000
    ensures PageNumber(PageBaseOf(vpn)) == vpn
  {
  }
}

/** Sv39 translation (mmu.rs): the uncached page walk, the direct-mapped TLB in front of it, and
    when the two agree. */
module Mmu {
  import opened Sv39Bits
  import opened Base
  import opened Words
  import SystemBus
  import opened Memory

  type Bus = SystemBus.Bus
  const TLB_ENTRIES := 256

  // ---------- the walk ----------

  /** An 8-byte page-table read straight from the bus. */
  function Pte(b: Bus, addr: bv64): (r: Result<bv64>) {
    var v :- SystemBus.Read(b, addr as int, 8).value;
    Ok(ToWord(v))
  }

  function Walk(b: Bus, a: bv64, level: nat, vpn: Vpn): (r: Result<Leaf>)
    requires level < 3
    ensures r.Ok? ==> r.value.level <= level && Kind(r.value.pte) == Leafy
    decreases level
  {
    var pte :- Pte(b, EntryAt(a, vpn.At(level)));
    match Kind(pte)
    case Invalid => Err(InvalidPte)
    case Leafy => Ok(Leaf(pte, level))
    case Reserved => Err(ReservedPte)
    case Pointer => if level == 0 then Err(WalkExhausted) else Walk(b, TableOf(pte), level - 1, vpn)
  }

  /** Translation with no cache: riscvm/mmu.py. */
  function Uncached(b: Bus, satp: bv64, va: bv64, acc: Access): (r: Result<bv64>) {
    if Bare(satp) then Ok(va)
    else if !Sv39(satp) then Err(UnsupportedMode)
    else
      var leaf :- Walk(b, Root(satp), 2, Fields(va));
      if !Permits(leaf.pte, acc) then Err(PermissionDenied)
      else
        var ppn :- Resolve(leaf, Fields(va));
        Ok(Physical(ppn, va))
  }

  // ---------- what a walk reads ----------

  /** Addresses of the page-table entries a walk reads, in order: at most three. */
  function WalkReads(b: Bus, a: bv64, level: nat, vpn: Vpn): (r: seq<bv64>)
    requires level < 3
    ensures 1 <= |r| <= level + 1
    decreases level
  {
    var addr := EntryAt(a, vpn.At(level));
    var pte := Pte(b, addr);
    if pte.Err? || Kind(pte.value) != Pointer || level == 0 then [addr]
    else [addr] + WalkReads(b, TableOf(pte.value), level - 1, vpn)
  }

  /** The bus accesses of a walk change no device. */
  lemma WalkChangesNothing(b: Bus, a: bv64, level: nat, vpn: Vpn)
    requires level < 3
    ensures forall addr :: addr in WalkReads(b, a, level, vpn) ==> SystemBus.Read(b, addr as int, 8).bus == b
  {
    hide WalkReads;
  }

  /** The two buses hold the same page-table entries along the walk of the first. */
  predicate SamePath(b: Bus, b': Bus, a: bv64, level: nat, vpn: Vpn)
    requires level < 3
  {
    forall addr :: addr in WalkReads(b, a, level, vpn) ==> Pte(b', addr) == Pte(b, addr)
  }

  /** A walk is determined by the entries it reads. */
  lemma {:induction false} WalkFrame(b: Bus, b': Bus, a: bv64, level: nat, vpn: Vpn)
    requires level < 3 && SamePath(b, b', a, level, vpn)
    ensures Walk(b', a, level, vpn) == Walk(b, a, level, vpn)
    decreases level
  {
    hide Pte, EntryAt, Kind, TableOf, SamePath;
    var addr := EntryAt(a, vpn.At(level));
    SamePathSplits(b, b', a, level, vpn);
    var pte := Pte(b, addr);
    if pte.Ok? && level > 0 && Kind(pte.value) == Pointer {
      WalkFrame(b, b', TableOf(pte.value), level - 1, vpn);
    }
  }

  lemma SamePathSplits(b: Bus, b': Bus, a: bv64, level: nat, vpn: Vpn)
    requires level < 3 && SamePath(b, b', a, level, vpn)
    ensures var pte := Pte(b, EntryAt(a, vpn.At(level)));
            && Pte(b', EntryAt(a, vpn.At(level))) == pte
            && (pte.Ok? && level > 0 && Kind(pte.value) == Pointer ==>
                  SamePath(b, b', TableOf(pte.value), level - 1, vpn))
  {
    hide Pte, EntryAt, Kind, TableOf;
    var addr := EntryAt(a, vpn.At(level));
    assert addr in WalkReads(b, a, level, vpn);
  }

  /** A store to memory that touches none of the entries a walk reads leaves the walk's path as it was. */
  lemma StoreOffPath(b: Bus, at: nat, n: nat, v: u64, a: bv64, level: nat, vpn: Vpn)
    requires level < 3
    requires SystemBus.InMemory(b, at, n) && SystemBus.Write(b, at, n, v).result.Ok?
    requires forall addr :: addr in WalkReads(b, a, level, vpn) ==> Apart(at, n, addr as int, 8)
    ensures SamePath(b, SystemBus.Write(b, at, n, v).bus, a, level, vpn)
  {
    hide Pte, WalkReads, SystemBus.InMemory, SystemBus.Write, Apart;
    forall addr | addr in WalkReads(b, a, level, vpn)
      ensures Pte(SystemBus.Write(b, at, n, v).bus, addr) == Pte(b, addr)
    {
      PteOffStore(b, at, n, v, addr);
    }
  }

  lemma PteOffStore(b: Bus, at: nat, n: nat, v: u64, addr: bv64)
    requires SystemBus.InMemory(b, at, n) && SystemBus.Write(b, at, n, v).result.Ok? && Apart(at, n, addr as int, 8)
    ensures Pte(SystemBus.Write(b, at, n, v).bus, addr) == Pte(b, addr)
  {
    hide SystemBus.InMemory, SystemBus.Write, SystemBus.Read, Apart, ToWord;
    SystemBus.ReadOffWrite(b, at, n, v, addr as int, 8);
  }

  /** Entry addresses never overflow: every table and every entry read lies below 2^56. */
  lemma {:induction false} WalkInRange(b: Bus, a: bv64, level: nat, va: bv64)
    requires level < 3 && TableBase(a)
    ensures forall addr :: addr in WalkReads(b, a, level, Fields(va)) ==> EntryAddress(addr)
    decreases level
  {
    hide Pte, EntryAt, Kind, TableOf, TableBase, EntryAddress;
    EntryInRange(a, level, va);
    var pte := Pte(b, EntryAt(a, Fields(va).At(level)));
    if pte.Ok? && level > 0 {
      TableInRange(pte.value);
      WalkInRange(b, TableOf(pte.value), level - 1, va);
    }
  }

  // ---------- what a walk yields ----------

  /** A translated address is the target of the leaf the walk found, and lies below 2^56. */
  lemma WalkYields(b: Bus, satp: bv64, va: bv64, acc: Access)
    requires Sv39(satp) && Uncached(b, satp, va, acc).Ok?
    ensures Walk(b, Root(satp), 2, Fields(va)).Ok?
    ensures var leaf := Walk(b, Root(satp), 2, Fields(va)).value;
            && Permits(leaf.pte, acc)
            && Uncached(b, satp, va, acc) == Ok(Target(leaf, va))
            && Target(leaf, va) < TWO_56
  {
    hide Pte, Walk, Resolve, Physical, Target, Fields, Permits, Bare, Sv39, Root;
    Sv39IsNotBare(satp);
    Assemble(Walk(b, Root(satp), 2, Fields(va)).value, va);
  }

  /** Every address of the page va lies in, whatever its size, goes to the same leaf's target. */
  lemma PageIsUniform(b: Bus, satp: bv64, va: bv64, va': bv64, acc: Access)
    requires Sv39(satp) && Uncached(b, satp, va, acc).Ok?
    requires var leaf := Walk(b, Root(satp), 2, Fields(va));
             leaf.Ok? && PageStart(va, leaf.value.level) == PageStart(va', leaf.value.level)
    ensures Uncached(b, satp, va', acc) == Ok(Target(Walk(b, Root(satp), 2, Fields(va)).value, va'))
  {
    hide Pte, Walk, Physical, Target, Root, PageStart, Permits, Fields, Bare, Sv39, Merge, Ppn;
    Sv39IsNotBare(satp);
    SamePageFields(va, va', Walk(b, Root(satp), 2, Fields(va)).value.level);
    UpperFieldsDecide(b, Root(satp), 2, Fields(va), Fields(va'), Walk(b, Root(satp), 2, Fields(va)).value.level);
    assert Uncached(b, satp, va', acc).Ok?;
    WalkYields(b, satp, va', acc);
  }

  /** A walk that ends at some level never looks at the fields below it. */
  lemma {:induction false} UpperFieldsDecide(b: Bus, a: bv64, level: nat, vpn: Vpn, vpn': Vpn, l: nat)
    requires level < 3 && Walk(b, a, level, vpn).Ok? && Walk(b, a, level, vpn).value.level == l
    requires SameFrom(vpn, vpn', l)
    ensures Walk(b, a, level, vpn') == Walk(b, a, level, vpn)
    decreases level
  {
    hide Pte, EntryAt, Kind, TableOf, Vpn.At, SameFrom;
    SameField(vpn, vpn', l, level);
    var pte := Pte(b, EntryAt(a, vpn.At(level))).value;
    if Kind(pte) == Pointer {
      UpperFieldsDecide(b, TableOf(pte), level - 1, vpn, vpn', l);
    }
  }

  // ---------- the TLB ----------

  datatype TlbEntry = TlbEntry(valid: bool, vpn: bv64, ppn: bv64, perm: bv64)
  const EMPTY_ENTRY := TlbEntry(false, 0, 0, 0)

  type Entries = s: seq<TlbEntry> | |s| == TLB_ENTRIES witness seq(TLB_ENTRIES, _ => EMPTY_ENTRY)

  function Slot(vpn: bv64): (i: nat)
    ensures i < TLB_ENTRIES
  {
    ((vpn & 0xff) as bv8) as int
  }

  function Lookup(t: Entries, vpn: bv64): Option<TlbEntry> {
    var e := t[Slot(vpn)];
    if e.valid && e.vpn == vpn then Some(e) else None
  }

  function Insert(t: Entries, e: TlbEntry): Entries {
    t[Slot(e.vpn) := e]
  }

  function Flush(t: Entries): (r: Entries)
    ensures forall i :: 0 <= i < TLB_ENTRIES ==> !r[i].valid
  {
    seq(TLB_ENTRIES, i requires 0 <= i < TLB_ENTRIES => t[i].(valid := false))
  }

  /** The entry a refill caches: 4 KB granularity, all of the leaf's permission bits. */
  function Refill(leaf: Leaf, va: bv64, ppn: bv64): TlbEntry {
    TlbEntry(true, PageNumber(va), ppn, PermOf(leaf.pte))
  }

  datatype Translated = Translated(pa: Result<bv64>, tlb: Entries)

  /** translate(): TLB first, walk and refill on a miss. */
  function Translate(t: Entries, b: Bus, satp: bv64, va: bv64, acc: Access): (r: Translated) {
    if Bare(satp) then Translated(Ok(va), t)
    else if !Sv39(satp) then Translated(Err(UnsupportedMode), t)
    else
      match Lookup(t, PageNumber(va))
      case Some(e) =>
        Translated(if Permits(e.perm, acc) then Ok(Physical(e.ppn, va)) else Err(PermissionDenied), t)
      case None => Miss(t, Walk(b, Root(satp), 2, Fields(va)), va, acc)
  }

  /** Refill from the leaf a walk found; nothing is cached on a fault. */
  function Miss(t: Entries, found: Result<Leaf>, va: bv64, acc: Access): (r: Translated)
    requires found.Ok? ==> found.value.level < 3
  {
    match found
    case Err(e) => Translated(Err(e), t)
    case Ok(leaf) =>
      if !Permits(leaf.pte, acc) then Translated(Err(PermissionDenied), t)
      else
        match Resolve(leaf, Fields(va))
        case Err(e) => Translated(Err(e), t)
        case Ok(ppn) => Translated(Ok(Physical(ppn, va)), Insert(t, Refill(leaf, va, ppn)))
  }

  /** What the page tables say about a page, independent of the access: frame and permissions. */
  function Page(b: Bus, satp: bv64, vpn: Vpn): (r: Result<(bv64, bv64)>) {
    var leaf :- Walk(b, Root(satp), 2, vpn);
    var ppn :- Resolve(leaf, vpn);
    Ok((ppn, PermOf(leaf.pte)))
  }

  /** The entry is what a walk of these tables finds for its page. */
  predicate Matches(b: Bus, satp: bv64, e: TlbEntry) {
    Page(b, satp, Fields(PageBaseOf(e.vpn))) == Ok((e.ppn, e.perm))
  }

  predicate WellFormedEntry(e: TlbEntry) {
    && e.vpn < 0x10_0000_0000_0000
    && e.ppn <= PPN_MASK
    && e.perm & PERM_MASK == e.perm && e.perm != 0
  }

  /** Every valid entry sits in its slot and carries fields a walk can produce. */
  predicate WellFormed(t: Entries) {
    forall i :: 0 <= i < TLB_ENTRIES && t[i].valid ==> WellFormedEntry(t[i]) && Slot(t[i].vpn) == i
  }

  predicate Coherent(t: Entries, b: Bus, satp: bv64) {
    forall i :: 0 <= i < TLB_ENTRIES && t[i].valid ==> Matches(b, satp, t[i])
  }

  /** The refilled entry is well formed and matches the tables it was read from. */
  lemma RefillMatches(b: Bus, satp: bv64, va: bv64, leaf: Leaf, ppn: bv64)
    requires Walk(b, Root(satp), 2, Fields(va)) == Ok(leaf) && Resolve(leaf, Fields(va)) == Ok(ppn)
    ensures WellFormedEntry(Refill(leaf, va, ppn)) && Matches(b, satp, Refill(leaf, va, ppn))
  {
    hide Pte, Walk, Resolve, WellFormedEntry, Kind, Root, Fields, PageBaseOf, PageNumber;
    LeafFields(leaf, va);
    FieldsOfPage(va);
  }

  lemma LeafFields(leaf: Leaf, va: bv64)
    requires leaf.level < 3 && Kind(leaf.pte) == Leafy && Resolve(leaf, Fields(va)).Ok?
    ensures WellFormedEntry(Refill(leaf, va, Resolve(leaf, Fields(va)).value))
  {
    hide Ppn, Merge, PageNumber, Fields, PermOf, Kind;
    PpnFits(leaf.pte);
    LowFieldBound(va, leaf.level);
    MergeBound(Ppn(leaf.pte), leaf.level, Fields(va));
    LeafPermBits(leaf.pte);
    PageNumberBound(va);
  }

  /** Translation keeps the TLB well formed; any entry it adds was read from the current bus. */
  lemma TranslateRefills(t: Entries, b: Bus, satp: bv64, va: bv64, acc: Access)
    requires WellFormed(t)
    ensures var t' := Translate(t, b, satp, va, acc).tlb;
            && WellFormed(t')
            && (forall i :: 0 <= i < TLB_ENTRIES && t'[i].valid && t'[i] != t[i] ==> Matches(b, satp, t'[i]))
  {
    hide Pte, Walk, Slot, Matches, WellFormedEntry, Resolve, Root, Fields, Permits, Bare, Sv39, Physical,
      PageNumber, PermOf;
    var leaf := Walk(b, Root(satp), 2, Fields(va));
    if leaf.Ok? && Resolve(leaf.value, Fields(va)).Ok? {
      RefillMatches(b, satp, va, leaf.value, Resolve(leaf.value, Fields(va)).value);
    }
  }

  /** Right after a successful translation a second one, for another access kind, goes to the same
      address if it is allowed at all, even if the page tables have changed meanwhile. */
  lemma SecondTranslation(t: Entries, b: Bus, satp: bv64, va: bv64, acc: Access, b': Bus, acc': Access)
    requires Translate(t, b, satp, va, acc).pa.Ok?
    ensures var first := Translate(t, b, satp, va, acc);
            var second := Translate(first.tlb, b', satp, va, acc').pa;
            second.Ok? ==> second == first.pa
  {
    hide Pte, Walk, Slot, Resolve, Root, Fields, Permits, Bare, Sv39, Physical, PageNumber, PermOf;
  }

  /** An entry that matches the tables answers as the walk does, whichever access filled it. */
  lemma MatchingAnswer(b: Bus, satp: bv64, e: TlbEntry, va: bv64, acc: Access)
    requires Sv39(satp) && Matches(b, satp, e) && e.vpn == PageNumber(va)
    ensures Uncached(b, satp, va, acc) ==
            if Permits(e.perm, acc) then Ok(Physical(e.ppn, va)) else Err(PermissionDenied)
  {
    hide Pte, Walk, Resolve, Root, Permits, Physical, Fields, Bare, Sv39, PageNumber, PageBaseOf, PermOf;
    Sv39IsNotBare(satp);
    FieldsOfPage(va);
    PermBits(Walk(b, Root(satp), 2, Fields(va)).value.pte, acc);
  }

  /** A miss answers what the uncached walk does. */
  lemma MissIsUncached(t: Entries, b: Bus, satp: bv64, va: bv64, acc: Access)
    ensures !Bare(satp) && Sv39(satp) ==>
              Miss(t, Walk(b, Root(satp), 2, Fields(va)), va, acc).pa == Uncached(b, satp, va, acc)
  {
    hide Pte, Walk, Resolve, Root, Permits, Physical, Fields, Bare, Sv39, Insert;
  }

  lemma ElsewhereUncached(b: Bus, satp: bv64, va: bv64, acc: Access)
    ensures Bare(satp) ==> Uncached(b, satp, va, acc) == Ok(va)
    ensures !Bare(satp) && !Sv39(satp) ==> Uncached(b, satp, va, acc) == Err(UnsupportedMode)
  {
    hide Walk, Bare, Sv39;
  }

  /** The TLB is transparent while coherent: same physical address, same fault, for every address
      and access kind. */
  lemma CoherentIsTransparent(t: Entries, b: Bus, satp: bv64, va: bv64, acc: Access)
    requires Coherent(t, b, satp)
    ensures Translate(t, b, satp, va, acc).pa == Uncached(b, satp, va, acc)
  {
    hide Pte, Walk, Miss, Uncached, Slot, Resolve, Root, Permits, Physical, Fields, Bare, Sv39, PageNumber, Matches;
    ElsewhereUncached(b, satp, va, acc);
    MissIsUncached(t, b, satp, va, acc);
    var e := t[Slot(PageNumber(va))];
    if Sv39(satp) && e.valid && e.vpn == PageNumber(va) {
      MatchingAnswer(b, satp, e, va, acc);
    }
  }

  /** The cache answers every translation as the uncached walk does. */
  ghost predicate Transparent(t: Entries, b: Bus, satp: bv64) {
    forall va: bv64, acc: Access :: Translate(t, b, satp, va, acc).pa == Uncached(b, satp, va, acc)
  }

  /** Exactly then: under Sv39 a well-formed TLB is transparent if and only if it is coherent. */
  lemma TransparentIffCoherent(t: Entries, b: Bus, satp: bv64)
    requires WellFormed(t) && Sv39(satp)
    ensures Transparent(t, b, satp) <==> Coherent(t, b, satp)
  {
    hide Translate, Uncached, Matches, WellFormedEntry, Slot;
    if Coherent(t, b, satp) {
      forall va: bv64, acc: Access
        ensures Translate(t, b, satp, va, acc).pa == Uncached(b, satp, va, acc)
      {
        CoherentIsTransparent(t, b, satp, va, acc);
      }
    }
    if Transparent(t, b, satp) {
      forall i | 0 <= i < TLB_ENTRIES && t[i].valid
        ensures Matches(b, satp, t[i])
      {
        TransparentEntryMatches(t, b, satp, t[i]);
      }
    }
  }

  /** What a hit for the entry's own page answers. */
  lemma HitAnswer(t: Entries, b: Bus, satp: bv64, e: TlbEntry, acc: Access)
    requires Sv39(satp) && e.valid && WellFormedEntry(e) && t[Slot(e.vpn)] == e
    ensures Translate(t, b, satp, PageBaseOf(e.vpn), acc).pa ==
            if Permits(e.perm, acc) then Ok(Physical(e.ppn, PageBaseOf(e.vpn))) else Err(PermissionDenied)
  {
    hide Pte, Walk, Slot, Permits, Physical, PageBaseOf, PageNumber, Bare, Sv39;
    Sv39IsNotBare(satp);
    PageOfBase(e.vpn);
  }

  lemma Answers(t: Entries, b: Bus, satp: bv64, va: bv64, acc: Access)
    requires Transparent(t, b, satp)
    ensures Translate(t, b, satp, va, acc).pa == Uncached(b, satp, va, acc)
  {
  }

  lemma TransparentEntryMatches(t: Entries, b: Bus, satp: bv64, e: TlbEntry)
    requires Sv39(satp) && e.valid && WellFormedEntry(e) && t[Slot(e.vpn)] == e
    requires Transparent(t, b, satp)
    ensures Matches(b, satp, e)
  {
    hide Pte, Walk, Slot, Resolve, Root, Permits, Physical, Translate, Fields, PageBaseOf, PageNumber, Bare, Sv39,
      Witness, PermOf;
    Sv39IsNotBare(satp);
    var va := PageBaseOf(e.vpn);
    var allowed := Witness(e.perm, e.perm);
    SomeAccessAllowed(e.perm);
    HitAnswer(t, b, satp, e, allowed);
    assert Uncached(b, satp, va, allowed) == Ok(Physical(e.ppn, va));
    var leaf := Walk(b, Root(satp), 2, Fields(va)).value;
    var ppn := Resolve(leaf, Fields(va)).value;
    LeafFields(leaf, va);
    PhysicalInjective(e.ppn, ppn, va);
    var perm := PermOf(leaf.pte);
    if perm != e.perm {
      var acc := Witness(e.perm, perm);
      WitnessDistinguishes(e.perm, perm);
      PermBits(leaf.pte, acc);
      HitAnswer(t, b, satp, e, acc);
      assert false by {
        Answers(t, b, satp, va, acc);
      }
    }
  }
}
