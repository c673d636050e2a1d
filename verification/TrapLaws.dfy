/** Traps, returns and CSR views by register number and bit position (sections 3.1.6, 3.1.7, 3.1.8 and 4.1
    of the RISC-V Privileged Specification 20211203), apart from the vocabulary of the model. */
module TrapLaws {
  import opened Base
  import opened HartState
  import opened Trap
  import Mmu

  // ---------- delegation and handler address ----------

  /** medeleg (0x302) or mideleg (0x303, without causes 3, 7 and 11) sends the cause to S, outside M. */
  predicate GoesToS(h: Hart, cause: bv6, isInterrupt: bool) {
    h.mode != 3 && SentToS(h, cause, isInterrupt)
  }

  predicate SentToS(h: Hart, cause: bv6, isInterrupt: bool) {
    if isInterrupt then BitSet(WithoutMachine(h.csrs[0x303]), cause) else BitSet(h.csrs[0x302], cause)
  }

  predicate BitSet(w: bv64, n: bv6) {
    (w >> n) & 1 == 1
  }

  /** Bits 3, 7 and 11 cleared. */
  function WithoutMachine(w: bv64): bv64 {
    w & 0xffff_ffff_ffff_f777
  }

  lemma OneBit(w: bv64, n: bv6)
    ensures BitAt(w, n) <==> (w >> n) & 1 == 1
  {
  }

  lemma BitSetIs(w: bv64, n: bv6)
    ensures BitAt(w, n) == BitSet(w, n)
  {
    hide BitAt;
    OneBit(w, n);
  }

  lemma DelegatableBits(w: bv64)
    ensures Delegatable(w) == w & 0xffff_ffff_ffff_f777
  {
  }

  lemma DelegatableIs(w: bv64)
    ensures Delegatable(w) == WithoutMachine(w)
  {
    hide Delegatable;
    DelegatableBits(w);
  }

  lemma DelegatedIs(h: Hart, cause: bv6, isInterrupt: bool)
    ensures Delegated(h, cause, isInterrupt) == GoesToS(h, cause, isInterrupt)
  {
    hide BitAt, BitSet, WithoutMachine, Delegatable;
    BitSetIs(WithoutMachine(h.csrs[0x303]), cause);
    BitSetIs(h.csrs[0x302], cause);
    DelegatableIs(h.csrs[0x303]);
  }

  /** Vector base of a trap-vector register, direct mode. */
  function BaseOf(w: bv64): bv64 {
    w / 4 * 4
  }

  lemma BaseBits(w: bv64)
    ensures Vector(w) == w / 4 * 4
  {
  }

  lemma BaseIs(w: bv64)
    ensures Vector(w) == BaseOf(w)
  {
    hide Vector;
    BaseBits(w);
  }

  /** A trap continues in S at stvec (0x105) when it goes to S, and in M at mtvec (0x305) otherwise. */
  lemma HandlerAddress(h: Hart, cause: bv6, isInterrupt: bool, tval: bv64)
    ensures var j := RaiseTrap(h, cause, isInterrupt, tval);
            if GoesToS(h, cause, isInterrupt) then j.hart.mode == 1 && j.pc == BaseOf(h.csrs[0x105])
            else j.hart.mode == 3 && j.pc == BaseOf(h.csrs[0x305])
  {
    hide GoesToS, Delegated, Vector, BaseOf, EnterS, EnterM, CauseWord;
    DelegatedIs(h, cause, isInterrupt);
    BaseIs(h.csrs[0x105]);
    BaseIs(h.csrs[0x305]);
  }

  /** A delivered interrupt continues at the handler of the level it goes to. */
  lemma InterruptEntry(h: Hart, timer: Option<bool>, external: Option<bool>)
    ensures var s := CheckInterrupt(h, timer, external);
            s.taken.Some? ==>
              if GoesToS(h, s.taken.value, true) then s.hart.mode == 1 && s.hart.pc == BaseOf(h.csrs[0x105])
              else s.hart.mode == 3 && s.hart.pc == BaseOf(h.csrs[0x305])
  {
    hide RaiseTrap, SampledMip, Enabled, FirstFrom, GoesToS, BaseOf;
    var h1 := h.SetCsr(MIP, SampledMip(h.csrs[MIP], timer, external));
    var s := CheckInterrupt(h, timer, external);
    if s.taken.Some? {
      HandlerAddress(h1, s.taken.value, true, 0);
      SameDelegation(h, SampledMip(h.csrs[MIP], timer, external), s.taken.value);
    }
  }

  lemma SameDelegation(h: Hart, mip: bv64, cause: bv6)
    ensures GoesToS(h.SetCsr(MIP, mip), cause, true) == GoesToS(h, cause, true)
  {
    hide BitSet, WithoutMachine;
  }

  // ---------- mstatus by bit position ----------

  // SIE is bit 1, MIE 3, SPIE 5, MPIE 7, SPP 8 and MPP 12..11.

  /** A trap into S stacks SIE into SPIE, clears SIE and records whether it came from S; one into M stacks
      MIE into MPIE, clears MIE and records the mode. Every other bit stays. */
  lemma StatusOnEntry(m: bv64, mode: bv2)
    ensures var s := EnterS(m, mode);
            && (s >> 5) & 1 == (m >> 1) & 1 && (s >> 1) & 1 == 0 && (s >> 8) & 1 == (if mode == 1 then 1 else 0)
            && s & 0xffff_ffff_ffff_fedd == m & 0xffff_ffff_ffff_fedd
    ensures var t := EnterM(m, mode);
            && (t >> 7) & 1 == (m >> 3) & 1 && (t >> 3) & 1 == 0 && (t >> 11) & 3 == mode as bv64
            && t & 0xffff_ffff_ffff_e777 == m & 0xffff_ffff_ffff_e777
  {
    EnterSBits(m, mode);
    EnterMBits(m, mode);
  }

  lemma EnterSBits(m: bv64, mode: bv2)
    ensures (EnterS(m, mode) >> 5) & 1 == (m >> 1) & 1
    ensures (EnterS(m, mode) >> 1) & 1 == 0
    ensures (EnterS(m, mode) >> 8) & 1 == if mode == 1 then 1 else 0
    ensures EnterS(m, mode) & 0xffff_ffff_ffff_fedd == m & 0xffff_ffff_ffff_fedd
  {
  }

  lemma EnterMBits(m: bv64, mode: bv2)
    ensures (EnterM(m, mode) >> 7) & 1 == (m >> 3) & 1
    ensures (EnterM(m, mode) >> 3) & 1 == 0
    ensures (EnterM(m, mode) >> 11) & 3 == mode as bv64
    ensures EnterM(m, mode) & 0xffff_ffff_ffff_e777 == m & 0xffff_ffff_ffff_e777
  {
  }

  /** SRET unstacks SPIE into SIE, sets SPIE and clears SPP. Every other bit stays. */
  lemma StatusOnSret(m: bv64)
    ensures (LeaveS(m) >> 1) & 1 == (m >> 5) & 1
    ensures (LeaveS(m) >> 5) & 1 == 1
    ensures (LeaveS(m) >> 8) & 1 == 0
    ensures LeaveS(m) & 0xffff_ffff_ffff_fedd == m & 0xffff_ffff_ffff_fedd
  {
  }

  /** MRET unstacks MPIE into MIE, sets MPIE and clears MPP. Every other bit stays. */
  lemma StatusOnMret(m: bv64)
    ensures (LeaveM(m) >> 3) & 1 == (m >> 7) & 1
    ensures (LeaveM(m) >> 7) & 1 == 1
    ensures (LeaveM(m) >> 11) & 3 == 0
    ensures LeaveM(m) & 0xffff_ffff_ffff_e777 == m & 0xffff_ffff_ffff_e777
  {
  }

  // ---------- CSR access by number ----------

  /** sstatus, sie and sip read mstatus, mie and mip under their masks; every other number reads its own
      register. */
  lemma CsrReads(h: Hart, a: CsrAddr)
    ensures CsrRead(h, 0x100) == h.csrs[0x300] & 0x122
    ensures CsrRead(h, 0x104) == h.csrs[0x304] & 0x222
    ensures CsrRead(h, 0x144) == h.csrs[0x344] & 0x222
    ensures a != 0x100 && a != 0x104 && a != 0x144 ==> CsrRead(h, a) == h.csrs[a]
  {
  }

  /** The bits of v under the mask, those of w elsewhere. */
  function Mixed(w: bv64, v: bv64, mask: bv64): bv64 {
    (w & !mask) | (v & mask)
  }

  lemma MixedIs(w: bv64, v: bv64, mask: bv64)
    ensures Blend(w, v, mask) == (w & !mask) | (v & mask)
  {
  }

  lemma BlendIs(w: bv64, v: bv64, mask: bv64)
    ensures Blend(w, v, mask) == Mixed(w, v, mask)
  {
    hide Blend;
    MixedIs(w, v, mask);
  }

  /** Writes go the same way; mhartid (0xf14) ignores them and satp (0x180) empties the TLB. */
  lemma CsrWrites(h: Hart, a: CsrAddr, v: bv64)
    ensures CsrWrite(h, 0x100, v) == h.SetCsr(0x300, Mixed(h.csrs[0x300], v, 0x122))
    ensures CsrWrite(h, 0x104, v) == h.SetCsr(0x304, Mixed(h.csrs[0x304], v, 0x222))
    ensures CsrWrite(h, 0x144, v) == h.SetCsr(0x344, Mixed(h.csrs[0x344], v, 0x222))
    ensures CsrWrite(h, 0xf14, v) == h
    ensures CsrWrite(h, 0x180, v) == h.SetCsr(0x180, v).(tlb := CsrWrite(h, 0x180, v).tlb)
    ensures forall i :: 0 <= i < Mmu.TLB_ENTRIES ==> !CsrWrite(h, 0x180, v).tlb[i].valid
    ensures a != 0x100 && a != 0x104 && a != 0x144 && a != 0xf14 && a != 0x180 ==> CsrWrite(h, a, v) == h.SetCsr(a, v)
  {
    hide Blend, Mixed, Mmu.Flush;
    BlendIs(h.csrs[0x300], v, 0x122);
    BlendIs(h.csrs[0x304], v, 0x222);
    BlendIs(h.csrs[0x344], v, 0x222);
  }

  // ---------- which interrupt ----------

  /** Sampling order: MEI, MSI, MTI, SEI, SSI, STI. */
  const ORDER: seq<bv6> := [11, 3, 7, 9, 1, 5]

  /** Cause c is pending in mip (0x344), enabled in mie (0x304) and let through: in S by mstatus bit 1 when
      it goes to S, in M by mstatus bit 3 otherwise. */
  predicate LetThrough(h: Hart, c: bv6) {
    && BitSet(h.csrs[0x344], c) && BitSet(h.csrs[0x304], c)
    && (if GoesToS(h, c, true) then h.mode == 1 ==> BitSet(h.csrs[0x300], 1)
        else h.mode == 3 ==> BitSet(h.csrs[0x300], 3))
  }

  lemma EnabledBits(p: bv64, e: bv64, c: bv6)
    ensures Pending(p & e, c) <==> (p >> c) & 1 == 1 && (e >> c) & 1 == 1
  {
  }

  lemma BothSet(p: bv64, e: bv64, c: bv6)
    ensures Pending(Inside(p, e), c) <==> BitSet(p, c) && BitSet(e, c)
  {
    hide Pending;
    EnabledBits(p, e, c);
  }

  lemma EnabledIs(h: Hart, c: bv6)
    ensures Pending(Enabled(h), c) <==> BitSet(h.csrs[0x344], c) && BitSet(h.csrs[0x304], c)
  {
    hide Pending, BitSet, Inside;
    BothSet(h.csrs[0x344], h.csrs[0x304], c);
  }

  lemma StatusBits(m: bv64)
    ensures Sie(m) <==> BitSet(m, 1)
    ensures Mie(m) <==> BitSet(m, 3)
  {
  }

  lemma LetThroughIs(h: Hart, c: bv6)
    ensures Deliverable(h, Enabled(h), c) == LetThrough(h, c)
  {
    hide Pending, Enabled, BitSet, GoesToS, Delegated, Sie, Mie;
    EnabledIs(h, c);
    DelegatedIs(h, c, true);
    StatusBits(h.csrs[0x300]);
  }

  /** The hart with its device lines sampled takes the first cause in the fixed order that is let
      through, and none if and only if there is none. */
  lemma FirstLetThrough(h: Hart, timer: Option<bool>, external: Option<bool>)
    ensures var h1 := h.SetCsr(0x344, SampledMip(h.csrs[0x344], timer, external));
            var taken := CheckInterrupt(h, timer, external).taken;
            && (taken.None? <==> forall k :: 0 <= k < 6 ==> !LetThrough(h1, ORDER[k]))
            && (taken.Some? ==>
                  exists k :: 0 <= k < 6 && taken.value == ORDER[k] && LetThrough(h1, ORDER[k])
                              && forall i :: 0 <= i < k ==> !LetThrough(h1, ORDER[i]))
  {
    hide CheckInterrupt, SampledMip, Enabled, Deliverable, LetThrough;
    CheckIsExact(h, timer, external);
    var h1 := h.SetCsr(0x344, SampledMip(h.csrs[0x344], timer, external));
    forall k | 0 <= k < 6
      ensures Deliverable(h1, Enabled(h1), PRIORITY[k]) == LetThrough(h1, ORDER[k])
    {
      LetThroughIs(h1, ORDER[k]);
    }
  }
}
