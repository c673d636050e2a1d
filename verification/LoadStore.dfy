/** Loads see what stores left (execute.rs, cpu.rs, ram.rs): the round trip of a value through
    translation, the bus and memory. */
module LoadStore {
  import opened Base
  import opened Words
  import opened Memory
  import opened HartState
  import opened Encoding
  import opened Rv64
  import Mmu
  import Sv39Bits
  import SystemBus
  import AddressMap
  import Division
  import MulDiv
  import opened Numbers
  import opened Extensions

  /** The load and the store use the same address and width. */
  predicate Paired(st: Instruction, ld: Instruction) {
    && ld.rs1 == st.rs1 && ld.immI == st.immS && ld.rd != 0
    && LoadSize(ld.funct3) == StoreSize(st.funct3) && StoreSize(st.funct3) > 0
  }

  lemma WriteReaches(h: Hart, b: Bus, va: bv64, n: nat, x: bv64, pa: bv64)
    requires CpuTranslate(h, b, va, Sv39Bits.W).pa == Ok(pa) && SystemBus.InMemory(b, pa as int, n)
    requires CpuWrite(h, b, va, n, x).result.Ok?
    ensures var w := CpuWrite(h, b, va, n, x);
            && w.hart == h.(tlb := CpuTranslate(h, b, va, Sv39Bits.W).tlb)
            && SystemBus.InMemory(w.bus, pa as int, n)
            && MemRead(w.bus.mem, pa as int, n) == Ok(Low(FromWord(x), n))
  {
    hide Mmu.Translate, SystemBus.Write, MemRead, MemWrite, FromWord, Low, AddressMap.Select;
    SystemBus.WriteInMemory(b, pa as int, n, FromWord(x));
    ReadBack(b.mem, pa as int, n, FromWord(x));
  }

  lemma ReadReaches(h: Hart, b: Bus, va: bv64, n: nat, pa: bv64)
    requires CpuTranslate(h, b, va, Sv39Bits.R).pa == Ok(pa) && SystemBus.InMemory(b, pa as int, n)
    ensures CpuRead(h, b, va, n).value.Ok? ==>
              && MemRead(b.mem, pa as int, n).Ok?
              && CpuRead(h, b, va, n).value.value == WordOf(MemRead(b.mem, pa as int, n).value, 8)
  {
    hide Mmu.Translate, SystemBus.Read, SystemBus.InMemory, MemRead, WordOf;
    SystemBus.ReadInMemory(b, pa as int, n);
  }

  lemma ReadOkTranslates(h: Hart, b: Bus, va: bv64, n: nat)
    requires CpuRead(h, b, va, n).value.Ok?
    ensures CpuTranslate(h, b, va, Sv39Bits.R).pa.Ok?
  {
    hide Mmu.Translate, SystemBus.Read, ToWord;
  }

  /** The low bytes of the stored register, as read back. */
  lemma Stored(x: bv64, n: nat)
    requires n <= 8
    ensures WordOf(Low(FromWord(x), n), 8) == Cut(x, Mask(n))
  {
    hide ValueOf, WordOf, Cut, Mask, Low;
    LowOfValue(x, n, 8);
    WordOfValue(x, n, 8);
  }

  /** A load right after a store to the same memory address yields the stored register's low bytes,
      extended as the load says, even if the store hit the page tables of its own address. */
  lemma LoadAfterStore(st: Instruction, ld: Instruction, h: Hart, b: Bus, next: bv64, next': bv64, pa: bv64)
    requires Paired(st, ld) && Store(st, h, b, next).next.Ok?
    requires CpuTranslate(h, b, Address(h, st.rs1, st.immS), Sv39Bits.W).pa == Ok(pa)
    requires SystemBus.InMemory(b, pa as int, StoreSize(st.funct3))
    ensures var s := Store(st, h, b, next);
            var l := Load(ld, s.hart, s.bus, next');
            l.next.Ok? ==> l.hart.Reg(ld.rd) == LoadValue(ld.funct3, Cut(h.Reg(st.rs2), Mask(StoreSize(st.funct3))))
  {
    hide CpuRead, CpuWrite, SystemBus.InMemory, Mmu.Translate, LoadValue, Add, Cut, Mask, LoadSize, StoreSize;
    var va, n, x := Address(h, st.rs1, st.immS), StoreSize(st.funct3), h.Reg(st.rs2);
    SizeBound(st.funct3);
    var s := Store(st, h, b, next);
    WriteReaches(h, b, va, n, x, pa);
    var r := CpuRead(s.hart, s.bus, va, n);
    if r.value.Ok? {
      ReadOkTranslates(s.hart, s.bus, va, n);
      Mmu.SecondTranslation(h.tlb, b, h.csrs[SATP], va, Sv39Bits.W, s.bus, Sv39Bits.R);
      ReadReaches(s.hart, s.bus, va, n, pa);
      Stored(x, n);
      RegAfterSet(r.hart, ld.rd, LoadValue(ld.funct3, r.value.value));
    }
  }

  lemma SizeBound(f: bv3)
    ensures StoreSize(f) <= 8
  {
  }

  lemma RegAfterSet(h: Hart, r: bv5, v: bv64)
    requires r != 0
    ensures h.SetReg(r, v).Reg(r) == v
  {
  }

  /** What each load makes of the low bytes: sign extension for LB, LH and LW, the value for LD, zero
      extension for LBU, LHU and LWU. */
  lemma Extension(x: bv64)
    ensures LoadValue(0, Cut(x, Mask(1))) == SextByte(x)
    ensures LoadValue(1, Cut(x, Mask(2))) == SextHalf(x)
    ensures LoadValue(2, Cut(x, Mask(4))) == SextWord(x)
    ensures LoadValue(3, Cut(x, Mask(8))) == x
    ensures LoadValue(4, Cut(x, Mask(1))) == Cut(x, 0xff)
    ensures LoadValue(5, Cut(x, Mask(2))) == Cut(x, 0xffff)
    ensures LoadValue(6, Cut(x, Mask(4))) == Cut(x, 0xffff_ffff)
  {
    hide Mask, Cut, SextByte, SextHalf, SextWord;
    MaskValues();
    CutByte(x);
    CutHalf(x);
    CutWord(x);
    CutAll(x);
  }

  /** The same in numbers: the signed reading of the low byte, half and word, the unsigned ones modulo
      the width. */
  lemma ExtensionNumbers(x: bv64)
    ensures SignedOf(LoadValue(0, Cut(x, Mask(1)))) == MulDiv.Signed(FromWord(x) % 0x100, 0x100)
    ensures SignedOf(LoadValue(1, Cut(x, Mask(2)))) == MulDiv.Signed(FromWord(x) % 0x1_0000, 0x1_0000)
    ensures SignedOf(LoadValue(2, Cut(x, Mask(4)))) == MulDiv.Signed(FromWord(x) % 0x1_0000_0000, 0x1_0000_0000)
    ensures FromWord(LoadValue(3, Cut(x, Mask(8)))) == FromWord(x)
    ensures FromWord(LoadValue(4, Cut(x, Mask(1)))) == FromWord(x) % 0x100
    ensures FromWord(LoadValue(5, Cut(x, Mask(2)))) == FromWord(x) % 0x1_0000
    ensures FromWord(LoadValue(6, Cut(x, Mask(4)))) == FromWord(x) % 0x1_0000_0000
  {
    hide Mask, Cut, SextByte, SextHalf, SextWord, FromWord, ValueOf, SignedOf, MulDiv.Signed;
    MaskValues();
    Extension(x);
    SextByteNumber(x);
    SextHalfNumber(x);
    SextWordNumber(x);
    LowParts(x);
    CutNumber(x, 1);
    CutNumber(x, 2);
    CutNumber(x, 4);
  }

  /** The number of the low bytes is a remainder. */
  lemma LowParts(x: bv64)
    ensures ValueOf(x, 1) == FromWord(x) % 0x100
    ensures ValueOf(x, 2) == FromWord(x) % 0x1_0000
    ensures ValueOf(x, 4) == FromWord(x) % 0x1_0000_0000
  {
    hide ValueOf;
    LowOfValue(x, 1, 8);
    LowOfValue(x, 2, 8);
    LowOfValue(x, 4, 8);
    LowIsRemainder(ValueOf(x, 8), 4);
    LowIsRemainder(ValueOf(x, 8), 2);
    LowIsRemainder(ValueOf(x, 8), 1);
    Pow256Values();
  }

  lemma {:induction false} LowIsRemainder(v: nat, n: nat)
    ensures Low(v, n) == v % Pow256(n)
    decreases n
  {
    if n > 0 {
      LowIsRemainder(v / 256, n - 1);
      RemainderSplits(v, Pow256(n - 1));
    }
  }

  lemma RemainderSplits(v: nat, p: nat)
    requires p > 0
    ensures v % (256 * p) == v % 256 + 256 * (v / 256 % p)
  {
    var d, q := v / 256, v / 256 / p;
    assert d == p * q + d % p;
    assert v == q * (256 * p) + (v % 256 + 256 * (d % p)) by {
      assert 256 * (p * q) == q * (256 * p);
    }
    Division.RemainderUnique(v, 256 * p, q, v % 256 + 256 * (d % p));
  }

  lemma CutByte(x: bv64)
    ensures SextByte(Cut(x, 0xff)) == SextByte(x)
  {
  }

  lemma CutHalf(x: bv64)
    ensures SextHalf(Cut(x, 0xffff)) == SextHalf(x)
  {
  }

  lemma CutWord(x: bv64)
    ensures SextWord(Cut(x, 0xffff_ffff)) == SextWord(x)
  {
    hide Sext32, LowWord;
    SameWord(x);
  }

  lemma SameWord(x: bv64)
    ensures LowWord(x & 0xffff_ffff) == LowWord(x)
  {
  }
}
