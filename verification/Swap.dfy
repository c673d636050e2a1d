/** AMOSWAP.W under interleaving: conservation of the values in a memory word (execute.rs, emulator.rs). */
module Swap {
  import opened Base
  import opened Words
  import opened Memory
  import opened HartState
  import opened Encoding
  import opened Rv64
  import opened Machine
  import opened Smp
  import LoadStore
  import Mmu
  import Sv39Bits
  import Rvc
  import SystemBus

  /** The 32-bit word in memory at a physical address. */
  function Word(b: Bus, pa: bv64): bv32 {
    match MemRead(b.mem, pa as int, 4)
    case Err(_) => 0
    case Ok(v) => Low32(v)
  }

  function Low32(v: nat): bv32 {
    LowWord(WordOf(v, 8))
  }

  predicate IsSwap(i: Instruction) {
    i.opcode == 0x2f && SwapEncoding(i)
  }

  // ---------- one swap ----------

  lemma CutLow(x: bv64)
    ensures LowWord(Cut(x, 0xffff_ffff)) == LowWord(x)
  {
  }

  /** The stored word comes back as the operand's low half. */
  lemma StoredWord(x: bv64)
    ensures Low32(Low(FromWord(x), 4)) == LowWord(x)
  {
    hide ValueOf, WordOf, Cut, Mask, LowWord, Low;
    LowOfValue(x, 4, 8);
    WordOfValue(x, 4, 8);
    MaskValues();
    CutLow(x);
  }

  lemma ReadTranslated(h: Hart, b: Bus, va: bv64, pa: bv64)
    requires CpuTranslate(h, b, va, Sv39Bits.R).pa == Ok(pa) && SystemBus.InMemory(b, pa as int, 4)
    ensures var r := CpuRead(h, b, va, 4);
            && r.hart == h.(tlb := CpuTranslate(h, b, va, Sv39Bits.R).tlb) && r.bus == b
            && (r.value.Ok? ==> LowWord(r.value.value) == Word(b, pa))
  {
    hide Mmu.Translate, SystemBus.Read, SystemBus.InMemory, MemRead, LowWord, WordOf;
    SystemBus.ReadInMemory(b, pa as int, 4);
  }

  lemma WriteTranslated(h: Hart, b: Bus, va: bv64, pa: bv64, x: bv64)
    requires CpuTranslate(h, b, va, Sv39Bits.W).pa == Ok(pa) && SystemBus.InMemory(b, pa as int, 4)
    requires CpuWrite(h, b, va, 4, x).result.Ok?
    ensures Word(CpuWrite(h, b, va, 4, x).bus, pa) == LowWord(x)
  {
    hide Mmu.Translate, SystemBus.Write, SystemBus.InMemory, MemRead, MemWrite, LowWord, Low32, FromWord, Low;
    SystemBus.WriteInMemory(b, pa as int, 4, FromWord(x));
    ReadBack(b.mem, pa as int, 4, FromWord(x));
    StoredWord(x);
  }

  lemma WriteOkTranslates(h: Hart, b: Bus, va: bv64, n: nat, x: bv64)
    requires CpuWrite(h, b, va, n, x).result.Ok?
    ensures CpuTranslate(h, b, va, Sv39Bits.W).pa.Ok?
  {
    hide Mmu.Translate, SystemBus.Write, FromWord;
  }

  /** A completed swap moves the word, sign-extended, into rd and the low half of rs2 into the word. */
  lemma SwapExchanges(i: Instruction, h: Hart, b: Bus, next: bv64, pa: bv64)
    requires IsSwap(i) && i.rd != 0
    requires CpuTranslate(h, b, h.Reg(i.rs1), Sv39Bits.R).pa == Ok(pa) && SystemBus.InMemory(b, pa as int, 4)
    requires AmoSwap(i, h, b, next).next.Ok?
    ensures AmoSwap(i, h, b, next).hart.Reg(i.rd) == Sext32(Word(b, pa))
    ensures Word(AmoSwap(i, h, b, next).bus, pa) == LowWord(h.Reg(i.rs2))
  {
    hide CpuRead, CpuWrite, SystemBus.InMemory, Word, LowWord, Sext32, Mmu.Translate;
    var va := h.Reg(i.rs1);
    var r := CpuRead(h, b, va, 4);
    ReadTranslated(h, b, va, pa);
    var w := CpuWrite(r.hart, b, va, 4, h.Reg(i.rs2));
    WriteOkTranslates(r.hart, b, va, 4, h.Reg(i.rs2));
    Mmu.SecondTranslation(h.tlb, b, h.csrs[SATP], va, Sv39Bits.R, b, Sv39Bits.W);
    WriteTranslated(r.hart, b, va, pa, h.Reg(i.rs2));
    LoadStore.RegAfterSet(w.hart, i.rd, SextWord(r.value.value));
  }

  // ---------- any interleaving ----------

  /** The turn completes an AMOSWAP.W, with rd not x0, on the word at pa. */
  predicate Swaps(s: Board, t: Turn, pa: bv64)
    requires Ready(s) && t.hart < |s.harts|
  {
    var h := s.harts[t.hart];
    var f := Fetching(h, s.bus, t.input);
    && Acts(s, t).next.Ok? && f.word.Ok? && IsFull(f.word.value)
    && IsSwap(Decode(f.word.value)) && Decode(f.word.value).rd != 0
    && CpuTranslate(f.hart, Ticked(h, s.bus, t.input), f.hart.Reg(Decode(f.word.value).rs1), Sv39Bits.R).pa == Ok(pa)
  }

  /** What the swap left in rd. */
  function Got(s: Board, t: Turn, pa: bv64): bv32
    requires Ready(s) && t.hart < |s.harts| && Swaps(s, t, pa)
  {
    LowWord(Acts(s, t).hart.Reg(Decode(Fetching(s.harts[t.hart], s.bus, t.input).word.value).rd))
  }

  /** What the swap stored: the low half of rs2. */
  function Gave(s: Board, t: Turn, pa: bv64): bv32
    requires Ready(s) && t.hart < |s.harts| && Swaps(s, t, pa)
  {
    var f := Fetching(s.harts[t.hart], s.bus, t.input);
    LowWord(f.hart.Reg(Decode(f.word.value).rs2))
  }

  lemma TickKeepsWord(h: Hart, b: Bus, input: seq<u8>, pa: bv64)
    ensures Word(Ticked(h, b, input), pa) == Word(b, pa)
    ensures SystemBus.InMemory(b, pa as int, 4) == SystemBus.InMemory(Ticked(h, b, input), pa as int, 4)
  {
    hide MemRead, Low32;
  }

  lemma SwapStep(w: bv32, h: Hart, b: Bus, pa: bv64)
    requires IsFull(w) && IsSwap(Decode(w)) && Decode(w).rd != 0
    requires CpuTranslate(h, b, h.Reg(Decode(w).rs1), Sv39Bits.R).pa == Ok(pa) && SystemBus.InMemory(b, pa as int, 4)
    requires Perform(w, h, b).next.Ok?
    ensures Perform(w, h, b).hart.Reg(Decode(w).rd) == Sext32(Word(b, pa))
    ensures Word(Perform(w, h, b).bus, pa) == LowWord(h.Reg(Decode(w).rs2))
  {
    hide AmoSwap, SystemBus.InMemory, Word, LowWord, Sext32, Mmu.Translate, IsFull, Decode, Rvc.CExecute, Add, Load,
      Store, System, Branch, OpImm, OpImm32, Op, Op32;
    SwapExchanges(Decode(w), h, b, Add(h.pc, 4), pa);
  }

  lemma SwapTurn(s: Board, t: Turn, pa: bv64)
    requires Ready(s) && t.hart < |s.harts| && SystemBus.InMemory(s.bus, pa as int, 4) && Swaps(s, t, pa)
    ensures Acts(s, t).next.Ok? && Got(s, t, pa) == Word(s.bus, pa)
    ensures Word(Advance(s, t).bus, pa) == Gave(s, t, pa)
  {
    hide SystemBus.InMemory, Word, LowWord, Sext32, Perform, IsFull, Decode, IsSwap, Tick, Boundary, Fetch,
      HartInvariant, CpuTranslate;
    var h := s.harts[t.hart];
    var f := Fetching(h, s.bus, t.input);
    assert ReadyHart(h, s.bus);
    TickKeepsWord(h, s.bus, t.input, pa);
    SwapStep(f.word.value, f.hart, Ticked(h, s.bus, t.input), pa);
    LowOfSext32(Word(s.bus, pa));
  }

  /** Nothing but these swaps changes the word. */
  predicate OnlySwaps(s: Board, turns: seq<Turn>, pa: bv64)
    requires Ready(s) && Schedule(turns, |s.harts|)
    decreases |turns|
  {
    turns != [] ==>
      && (Swaps(s, turns[0], pa) || Word(Advance(s, turns[0]).bus, pa) == Word(s.bus, pa))
      && (Acts(s, turns[0]).next.Ok? ==> OnlySwaps(Advance(s, turns[0]), turns[1..], pa))
  }

  /** The values the swaps of a run handed out, in order. */
  function Handed(s: Board, turns: seq<Turn>, pa: bv64): seq<bv32>
    requires Ready(s) && Schedule(turns, |s.harts|)
    decreases |turns|
  {
    if turns == [] || Acts(s, turns[0]).next.Err? then []
    else (if Swaps(s, turns[0], pa) then [Got(s, turns[0], pa)] else []) + Handed(Advance(s, turns[0]), turns[1..], pa)
  }

  /** The values they stored, in order. */
  function Placed(s: Board, turns: seq<Turn>, pa: bv64): seq<bv32>
    requires Ready(s) && Schedule(turns, |s.harts|)
    decreases |turns|
  {
    if turns == [] || Acts(s, turns[0]).next.Err? then []
    else (if Swaps(s, turns[0], pa) then [Gave(s, turns[0], pa)] else []) + Placed(Advance(s, turns[0]), turns[1..], pa)
  }

  /** One more swap at the front of a conserving run. */
  lemma LinkAhead<T>(first: T, second: T, handed: seq<T>, placed: seq<T>, last: T)
    requires handed + [last] == [second] + placed
    ensures ([first] + handed) + [last] == [first] + ([second] + placed)
    ensures ([] + handed) + [last] == [second] + ([] + placed)
  {
    assert ([first] + handed) + [last] == [first] + (handed + [last]);
    assert [] + handed == handed && [] + placed == placed;
  }

  /** Conservation: in any interleaving of swaps by any harts the values handed out, followed by the
      final word, are the initial word followed by the values stored. */
  lemma {:induction false} SwapsConserve(s: Board, turns: seq<Turn>, pa: bv64)
    requires Ready(s) && Schedule(turns, |s.harts|) && SystemBus.InMemory(s.bus, pa as int, 4)
    requires OnlySwaps(s, turns, pa)
    ensures Handed(s, turns, pa) + [Word(Run(s, turns).bus, pa)] == [Word(s.bus, pa)] + Placed(s, turns, pa)
    decreases |turns|
  {
    hide Acts, Advance, Swaps, Word, ReadyHart, Got, Gave;
    if turns != [] {
      var t := turns[0];
      if Swaps(s, t, pa) {
        SwapTurn(s, t, pa);
      }
      if Acts(s, t).next.Ok? {
        var s1 := Advance(s, t);
        SwapsConserve(s1, turns[1..], pa);
        LinkAhead(Word(s.bus, pa), Word(s1.bus, pa), Handed(s1, turns[1..], pa), Placed(s1, turns[1..], pa),
                  Word(Run(s1, turns[1..]).bus, pa));
      }
    }
  }

  /** A spinlock word: when every swap stores 1 into a word that starts 0, the first swap gets the 0
      and no other does. */
  lemma ExactlyOneAcquires(s: Board, turns: seq<Turn>, pa: bv64)
    requires Ready(s) && Schedule(turns, |s.harts|) && SystemBus.InMemory(s.bus, pa as int, 4)
    requires OnlySwaps(s, turns, pa) && Word(s.bus, pa) == 0
    requires forall k :: 0 <= k < |Placed(s, turns, pa)| ==> Placed(s, turns, pa)[k] == 1
    ensures forall k :: 0 <= k < |Handed(s, turns, pa)| ==> (Handed(s, turns, pa)[k] == 0 <==> k == 0)
  {
    hide OnlySwaps, Handed, Placed, Word, ReadyHart, Run, SystemBus.InMemory;
    SwapsConserve(s, turns, pa);
    var whole := [Word(s.bus, pa)] + Placed(s, turns, pa);
    forall k | 0 <= k < |Handed(s, turns, pa)|
      ensures Handed(s, turns, pa)[k] == 0 <==> k == 0
    {
      assert (Handed(s, turns, pa) + [Word(Run(s, turns).bus, pa)])[k] == whole[k];
    }
  }
}
