/** Page tables as software builds them (section 4.4 of the RISC-V Privileged Specification 20211203):
    what a table of literal entries means to translation. Entries, table slots and results are written
    as arithmetic on 64-bit words, apart from the vocabulary of the walk. */
module PageTables {
  import opened Base
  import opened Words
  import opened Sv39Bits
  import SystemBus
  import Mmu

  type Bus = Mmu.Bus

  /** An entry: 44-bit frame number above ten flag bits. */
  function Entry(frame: bv64, flags: bv64): bv64 {
    frame * 1024 + flags
  }

  predicate Encodable(frame: bv64, flags: bv64) {
    frame < 0x1000_0000_0000 && flags < 1024
  }

  /** Eight bytes of the bus hold the entry. */
  predicate Holds(b: Bus, addr: bv64, entry: bv64) {
    SystemBus.Read(b, addr as int, 8).value == Ok(FromWord(entry))
  }

  predicate Present(flags: bv64) { flags % 2 == 1 }
  predicate Readable(flags: bv64) { flags / 2 % 2 == 1 }
  predicate Writable(flags: bv64) { flags / 4 % 2 == 1 }
  predicate Executable(flags: bv64) { flags / 8 % 2 == 1 }

  predicate IsLeaf(flags: bv64) {
    Present(flags) && (Readable(flags) || Executable(flags))
  }

  /** A pointer to the next table. */
  predicate IsPointer(flags: bv64) {
    flags % 16 == 1
  }

  predicate Grants(flags: bv64, acc: Access) {
    match acc
    case R => Readable(flags)
    case W => Writable(flags)
    case X => Executable(flags)
  }

  // Where the entry for an address stands in the root table and in the tables below it.

  function RootSlot(satp: bv64, va: bv64): bv64 { satp % 0x1000_0000_0000 * 4096 + va / 0x4000_0000 % 512 * 8 }
  function MiddleSlot(frame: bv64, va: bv64): bv64 { frame * 4096 + va / 0x20_0000 % 512 * 8 }
  function LastSlot(frame: bv64, va: bv64): bv64 { frame * 4096 + va / 4096 % 512 * 8 }

  // ---------- bits ----------

  lemma FrameBits(frame: bv64, flags: bv64)
    requires frame < 0x1000_0000_0000 && flags < 1024
    ensures ((frame * 1024 + flags) >> 10) & 0xfff_ffff_ffff == frame
  {
  }

  lemma PpnOf(frame: bv64, flags: bv64)
    requires Encodable(frame, flags)
    ensures Ppn(Entry(frame, flags)) == frame
  {
    FrameBits(frame, flags);
  }

  lemma PresentBit(frame: bv64, flags: bv64)
    ensures (frame * 1024 + flags) & 1 == flags % 2
  {
  }

  lemma ReadBit(frame: bv64, flags: bv64)
    ensures (frame * 1024 + flags) & 2 == flags / 2 % 2 * 2
  {
  }

  lemma WriteBit(frame: bv64, flags: bv64)
    ensures (frame * 1024 + flags) & 4 == flags / 4 % 2 * 4
  {
  }

  lemma ExecuteBit(frame: bv64, flags: bv64)
    ensures (frame * 1024 + flags) & 8 == flags / 8 % 2 * 8
  {
  }

  lemma BitIsSet(x: bv64)
    ensures x % 2 * 2 != 0 <==> x % 2 == 1
    ensures x % 2 * 4 != 0 <==> x % 2 == 1
    ensures x % 2 * 8 != 0 <==> x % 2 == 1
    ensures x % 2 == 0 <==> x % 2 != 1
  {
  }

  lemma BothBits(e: bv64)
    ensures e & 10 != 0 <==> e & 2 != 0 || e & 8 != 0
  {
  }

  lemma PointerBits(flags: bv64)
    requires flags % 16 == 1
    ensures flags % 2 == 1 && flags / 2 % 2 == 0 && flags / 4 % 2 == 0 && flags / 8 % 2 == 0
  {
  }

  /** The flag bits of an entry as the walk tests them. */
  lemma EntryFlags(frame: bv64, flags: bv64)
    ensures Entry(frame, flags) & 1 != 0 <==> Present(flags)
    ensures Entry(frame, flags) & 2 != 0 <==> Readable(flags)
    ensures Entry(frame, flags) & 4 != 0 <==> Writable(flags)
    ensures Entry(frame, flags) & 8 != 0 <==> Executable(flags)
  {
    PresentBit(frame, flags);
    ReadBit(frame, flags);
    WriteBit(frame, flags);
    ExecuteBit(frame, flags);
    BitIsSet(flags);
    BitIsSet(flags / 2);
    BitIsSet(flags / 4);
    BitIsSet(flags / 8);
  }

  /** How the walk classifies an entry. */
  lemma KindOf(frame: bv64, flags: bv64)
    ensures !Present(flags) ==> Kind(Entry(frame, flags)) == Invalid
    ensures IsLeaf(flags) ==> Kind(Entry(frame, flags)) == Leafy
    ensures Present(flags) && !IsLeaf(flags) && Writable(flags) ==> Kind(Entry(frame, flags)) == Reserved
    ensures IsPointer(flags) ==> Kind(Entry(frame, flags)) == Pointer
  {
    hide Entry, Present, Readable, Writable, Executable, IsPointer;
    EntryFlags(frame, flags);
    BothBits(Entry(frame, flags));
    PointerFlags(flags);
  }

  lemma PointerFlags(flags: bv64)
    ensures IsPointer(flags) ==> Present(flags) && !Readable(flags) && !Writable(flags) && !Executable(flags)
  {
    if IsPointer(flags) {
      PointerBits(flags);
    }
  }

  lemma PermitsOf(frame: bv64, flags: bv64, acc: Access)
    ensures Permits(Entry(frame, flags), acc) == Grants(flags, acc)
  {
    hide Entry, Present, Readable, Writable, Executable;
    EntryFlags(frame, flags);
  }

  lemma RootBits(satp: bv64, va: bv64)
    ensures EntryAt(Root(satp), Field2(va)) == satp % 0x1000_0000_0000 * 4096 + va / 0x4000_0000 % 512 * 8
  {
  }

  lemma RootSlotIs(satp: bv64, va: bv64)
    ensures EntryAt(Root(satp), Field2(va)) == RootSlot(satp, va)
  {
    hide EntryAt, Root, Field2;
    RootBits(satp, va);
  }

  lemma MiddleBits(frame: bv64, va: bv64)
    ensures EntryAt(Frame(frame), Field1(va)) == frame * 4096 + va / 0x20_0000 % 512 * 8
  {
  }

  lemma MiddleSlotIs(frame: bv64, va: bv64)
    ensures EntryAt(Frame(frame), Field1(va)) == MiddleSlot(frame, va)
  {
    hide EntryAt, Frame, Field1;
    MiddleBits(frame, va);
  }

  lemma LastBits(frame: bv64, va: bv64)
    ensures EntryAt(Frame(frame), Field0(va)) == frame * 4096 + va / 4096 % 512 * 8
  {
  }

  lemma LastSlotIs(frame: bv64, va: bv64)
    ensures EntryAt(Frame(frame), Field0(va)) == LastSlot(frame, va)
  {
    hide EntryAt, Frame, Field0;
    LastBits(frame, va);
  }

  lemma ModeBits(satp: bv64)
    ensures satp >> 60 == satp / 0x1000_0000_0000_0000
  {
  }

  lemma PagingOn(satp: bv64)
    requires satp / 0x1000_0000_0000_0000 == 8
    ensures Sv39(satp)
  {
    ModeBits(satp);
  }

  // ---------- what an entry that ends the walk means ----------

  /** The answer of an entry that ends the walk, for a page of the given number of frames. */
  function Answer(frame: bv64, flags: bv64, va: bv64, acc: Access, level: nat): Result<bv64> {
    if !Present(flags) then Err(InvalidPte)
    else if IsLeaf(flags) then
      if !Grants(flags, acc) then Err(PermissionDenied)
      else if Misplaced(frame, level) then Err(MisalignedSuperpage)
      else Ok(Inside(frame, va, level))
    else if Writable(flags) then Err(ReservedPte)
    else Err(WalkExhausted)
  }

  /** A superpage's frame number must be a multiple of its size in frames. */
  predicate Misplaced(frame: bv64, level: nat) {
    if level == 2 then frame % 0x4_0000 != 0 else if level == 1 then frame % 512 != 0 else false
  }

  /** The frame's address plus the address inside the page. */
  function Inside(frame: bv64, va: bv64, level: nat): bv64 {
    Plus(FrameBase(frame), Offset(va, level))
  }

  function Plus(x: bv64, y: bv64): bv64 { x + y }
  function FrameBase(frame: bv64): bv64 { frame * 4096 }

  function Offset(va: bv64, level: nat): bv64 {
    if level == 2 then va % 0x4000_0000 else if level == 1 then va % 0x20_0000 else va % 4096
  }

  lemma AlignedBits(frame: bv64)
    ensures Clear(frame, 0x3_ffff) <==> frame % 0x4_0000 == 0
    ensures Clear(frame, 0x1ff) <==> frame % 512 == 0
    ensures Clear(frame, 0)
  {
  }

  lemma MisplacedIs(frame: bv64, level: nat)
    requires level < 3
    ensures Misplaced(frame, level) == !Aligned(frame, level)
  {
    hide Clear;
    AlignedBits(frame);
  }

  lemma GigaOffset(va: bv64)
    ensures PageOffset(va, 2) == va % 0x4000_0000
  {
  }

  lemma MegaOffset(va: bv64)
    ensures PageOffset(va, 1) == va % 0x20_0000
  {
  }

  lemma SmallOffset(va: bv64)
    ensures PageOffset(va, 0) == va % 4096
  {
  }

  lemma OffsetIs(va: bv64, level: nat)
    requires level < 3
    ensures PageOffset(va, level) == Offset(va, level)
  {
    hide PageOffset;
    GigaOffset(va);
    MegaOffset(va);
    SmallOffset(va);
  }

  lemma BaseBits(frame: bv64)
    ensures Frame(frame) == frame * 4096
  {
  }

  lemma BaseIs(frame: bv64)
    ensures Frame(frame) == FrameBase(frame)
  {
    hide Frame;
    BaseBits(frame);
  }

  lemma PlusBits(x: bv64, y: bv64)
    ensures Sum(x, y) == x + y
  {
  }

  lemma PlusIs(x: bv64, y: bv64)
    ensures Sum(x, y) == Plus(x, y)
  {
    hide Sum;
    PlusBits(x, y);
  }

  lemma InsideIs(frame: bv64, va: bv64, level: nat)
    requires level < 3
    ensures At(frame, PageOffset(va, level)) == Inside(frame, va, level)
  {
    hide PageOffset, Offset, Frame, FrameBase, Sum, Plus;
    OffsetIs(va, level);
    BaseIs(frame);
    PlusIs(Frame(frame), PageOffset(va, level));
  }

  // ---------- the walk over a table of such entries ----------

  lemma EntryRead(b: Bus, addr: bv64, entry: bv64)
    requires Holds(b, addr, entry)
    ensures Mmu.Pte(b, addr) == Ok(entry)
  {
    hide SystemBus.Read, FromWord, ToWord;
    WordsRoundTrip(entry, 0);
  }

  /** The walk in the table a pointer names. */
  function Below(b: Bus, frame: bv64, level: nat, vpn: Vpn): Result<Leaf>
    requires level < 3
  {
    if level == 0 then Err(WalkExhausted) else Mmu.Walk(b, Frame(frame), level - 1, vpn)
  }

  /** The walk at one table. */
  lemma WalkOver(b: Bus, a: bv64, level: nat, vpn: Vpn, frame: bv64, flags: bv64)
    requires level < 3 && Encodable(frame, flags) && Holds(b, EntryAt(a, vpn.At(level)), Entry(frame, flags))
    ensures !Present(flags) ==> Mmu.Walk(b, a, level, vpn) == Err(InvalidPte)
    ensures IsLeaf(flags) ==> Mmu.Walk(b, a, level, vpn) == Ok(Leaf(Entry(frame, flags), level))
    ensures Present(flags) && !IsLeaf(flags) && Writable(flags) ==> Mmu.Walk(b, a, level, vpn) == Err(ReservedPte)
    ensures IsPointer(flags) ==> Mmu.Walk(b, a, level, vpn) == Below(b, frame, level, vpn)
  {
    hide Holds, Entry, EntryAt, Vpn.At, Kind, Mmu.Pte, Encodable, Present, IsLeaf, Writable, IsPointer, Ppn, Frame;
    EntryRead(b, EntryAt(a, vpn.At(level)), Entry(frame, flags));
    KindOf(frame, flags);
    PpnOf(frame, flags);
  }

  /** An entry that is no pointer ends the walk with its answer. */
  lemma Ends(b: Bus, satp: bv64, va: bv64, acc: Access, level: nat, a: bv64, frame: bv64, flags: bv64)
    requires level < 3 && Encodable(frame, flags) && (IsPointer(flags) ==> level == 0)
    requires satp / 0x1000_0000_0000_0000 == 8
    requires Mmu.Walk(b, Root(satp), 2, Fields(va)) == Mmu.Walk(b, a, level, Fields(va))
    requires Holds(b, EntryAt(a, Fields(va).At(level)), Entry(frame, flags))
    ensures Mmu.Uncached(b, satp, va, acc) == Answer(frame, flags, va, acc, level)
  {
    hide Mmu.Walk, Holds, Entry, EntryAt, Fields, Vpn.At, Encodable, Readable, Executable, Present, Writable, IsPointer,
      Ppn, Root, Permits, Grants, Bare, Sv39, Physical, Aligned, Misplaced, Inside, Merge, At, PageOffset;
    PagingOn(satp);
    Sv39IsNotBare(satp);
    WalkOver(b, a, level, Fields(va), frame, flags);
    NothingElse(flags);
    if IsLeaf(flags) {
      var leaf := Leaf(Entry(frame, flags), level);
      PpnOf(frame, flags);
      PermitsOf(frame, flags, acc);
      MisplacedIs(frame, level);
      NeverMisplaced(frame);
      if Resolve(leaf, Fields(va)).Ok? {
        Assemble(leaf, va);
        InsideIs(frame, va, level);
      }
    }
  }

  lemma NeverMisplaced(frame: bv64)
    ensures !Misplaced(frame, 0)
  {
  }

  /** Present, no leaf and not writable: a pointer. */
  lemma NothingElse(flags: bv64)
    ensures Present(flags) && !IsLeaf(flags) && !Writable(flags) ==> IsPointer(flags)
  {
    if Present(flags) && !IsLeaf(flags) && !Writable(flags) {
      NothingElseBits(flags);
    }
  }

  lemma NothingElseBits(flags: bv64)
    requires flags % 2 == 1 && flags / 2 % 2 != 1 && flags / 8 % 2 != 1 && flags / 4 % 2 != 1
    ensures flags % 16 == 1
  {
  }

  // ---------- mapped pages ----------

  /** The top four bits of satp select the mode; 8 is Sv39. */
  predicate Paging(satp: bv64) {
    satp / 0x1000_0000_0000_0000 == 8
  }

  /** Mode 0 does not translate, every mode but 0 and 8 is an error. */
  lemma OtherModes(b: Bus, satp: bv64, va: bv64, acc: Access)
    ensures satp / 0x1000_0000_0000_0000 == 0 ==> Mmu.Uncached(b, satp, va, acc) == Ok(va)
    ensures satp / 0x1000_0000_0000_0000 != 0 && !Paging(satp) ==>
              Mmu.Uncached(b, satp, va, acc) == Err(UnsupportedMode)
  {
    hide Mmu.Walk;
    ModeBits(satp);
  }

  /** A root entry that is no pointer decides a whole gigabyte: its frame plus the address modulo 2^30
      when it is a well-placed leaf that grants the access, and the fault its bits call for otherwise. */
  lemma GigaPage(b: Bus, satp: bv64, va: bv64, acc: Access, frame: bv64, flags: bv64)
    requires Paging(satp) && Encodable(frame, flags) && !IsPointer(flags)
    requires Holds(b, RootSlot(satp, va), Entry(frame, flags))
    ensures Mmu.Uncached(b, satp, va, acc) == Answer(frame, flags, va, acc, 2)
  {
    hide Mmu.Walk, Mmu.Uncached, Holds, Entry, EntryAt, Field0, Field1, Field2, Root, RootSlot, Answer, Encodable;
    RootSlotIs(satp, va);
    Ends(b, satp, va, acc, 2, Root(satp), frame, flags);
  }

  /** Through one pointer: 2 MB pages. */
  lemma MegaPage(b: Bus, satp: bv64, va: bv64, acc: Access, f2: bv64, p2: bv64, frame: bv64, flags: bv64)
    requires Paging(satp) && Encodable(f2, p2) && IsPointer(p2) && Encodable(frame, flags) && !IsPointer(flags)
    requires Holds(b, RootSlot(satp, va), Entry(f2, p2)) && Holds(b, MiddleSlot(f2, va), Entry(frame, flags))
    ensures Mmu.Uncached(b, satp, va, acc) == Answer(frame, flags, va, acc, 1)
  {
    hide Mmu.Walk, Mmu.Uncached, Holds, Entry, EntryAt, Field0, Field1, Field2, Root, Frame, RootSlot, MiddleSlot,
      Answer, Encodable;
    RootSlotIs(satp, va);
    MiddleSlotIs(f2, va);
    WalkOver(b, Root(satp), 2, Fields(va), f2, p2);
    Ends(b, satp, va, acc, 1, Frame(f2), frame, flags);
  }

  /** Through two pointers: 4 KB pages. */
  lemma SmallPage(b: Bus, satp: bv64, va: bv64, acc: Access, f2: bv64, p2: bv64, f1: bv64, p1: bv64,
                  frame: bv64, flags: bv64)
    requires Paging(satp) && Encodable(f2, p2) && IsPointer(p2) && Encodable(f1, p1) && IsPointer(p1)
    requires Encodable(frame, flags)
    requires Holds(b, RootSlot(satp, va), Entry(f2, p2)) && Holds(b, MiddleSlot(f2, va), Entry(f1, p1))
    requires Holds(b, LastSlot(f1, va), Entry(frame, flags))
    ensures Mmu.Uncached(b, satp, va, acc) == Answer(frame, flags, va, acc, 0)
  {
    hide Mmu.Walk, Mmu.Uncached, Holds, Entry, EntryAt, Field0, Field1, Field2, Root, Frame, RootSlot, MiddleSlot,
      LastSlot, Answer, Encodable;
    RootSlotIs(satp, va);
    MiddleSlotIs(f2, va);
    LastSlotIs(f1, va);
    WalkOver(b, Root(satp), 2, Fields(va), f2, p2);
    WalkOver(b, Frame(f2), 1, Fields(va), f1, p1);
    Ends(b, satp, va, acc, 0, Frame(f1), frame, flags);
  }
}
