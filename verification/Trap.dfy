/** Hart state (cpu.rs, csr.rs, register.rs). */
module HartState {
  import opened Base
  import Mmu

  const PRIV_U: bv2 := 0
  const PRIV_S: bv2 := 1
  const PRIV_M: bv2 := 3

  type CsrAddr = a: int | 0 <= a < 4096

  const SSTATUS: CsrAddr := 0x100
  const SIE: CsrAddr := 0x104
  const STVEC: CsrAddr := 0x105
  const SEPC: CsrAddr := 0x141
  const SCAUSE: CsrAddr := 0x142
  const STVAL: CsrAddr := 0x143
  const SIP: CsrAddr := 0x144
  const SATP: CsrAddr := 0x180
  const MSTATUS: CsrAddr := 0x300
  const MEDELEG: CsrAddr := 0x302
  const MIDELEG: CsrAddr := 0x303
  const MIE: CsrAddr := 0x304
  const MTVEC: CsrAddr := 0x305
  const MEPC: CsrAddr := 0x341
  const MCAUSE: CsrAddr := 0x342
  const MTVAL: CsrAddr := 0x343
  const MIP: CsrAddr := 0x344
  const MHARTID: CsrAddr := 0xf14

  type RegFile = s: seq<bv64> | |s| == 32 witness seq(32, _ => 0)
  type CsrFile = s: seq<bv64> | |s| == 4096 witness seq(4096, _ => 0)

  /** One hart. The mode is two bits wide: every assignment in the source takes it from a constant
      or from a one- or two-bit status field. `attached` says whether the hart has timer, serial
      port and interrupt controller handles. */
  datatype Hart = Hart(
    regs: RegFile,
    pc: bv64,
    csrs: CsrFile,
    mode: bv2,
    id: bv64,
    tlb: Mmu.Entries,
    attached: bool,
    pollCountdown: int)
  {
    function Reg(r: bv5): bv64 {
      regs[r as int]
    }

    /** Writes to x0 are ignored. */
    function SetReg(r: bv5, v: bv64): Hart {
      if r == 0 then this else this.(regs := regs[r as int := v])
    }

    function SetCsr(a: CsrAddr, v: bv64): Hart {
      this.(csrs := csrs[a := v])
    }
  }

  /** Cpu::new. */
  function NewHart(id: bv64, attached: bool): Hart {
    Hart(seq(32, _ => 0), 0,
         seq(4096, _ => 0)[MSTATUS := 0x000a_0000_0000][MIE := 0x222][MHARTID := id],
         PRIV_M, id, seq(Mmu.TLB_ENTRIES, _ => Mmu.EMPTY_ENTRY), attached, 0)
  }
}

/** CSR aliasing, trap entry and return, interrupt selection (trap.rs; SRET and MRET of execute.rs). */
module Trap {
  import opened Base
  import opened HartState
  import Mmu

  // ---------- mstatus ----------

  predicate Sie(m: bv64) { m & 0x2 != 0 }
  predicate Mie(m: bv64) { m & 0x8 != 0 }
  predicate Spie(m: bv64) { m & 0x20 != 0 }
  predicate Mpie(m: bv64) { m & 0x80 != 0 }
  function Spp(m: bv64): bv2 { ((m >> 8) & 1) as bv2 }
  function Mpp(m: bv64): bv2 { ((m >> 11) & 3) as bv2 }

  /** Status update on a trap into S from the given mode. */
  function EnterS(m: bv64, mode: bv2): bv64 {
    var m1 := (m & !0x20) | (if Sie(m) then 0x20 else 0);
    var m2 := m1 & !0x2;
    (m2 & !0x100) | (if mode == PRIV_S then 0x100 else 0)
  }

  function EnterM(m: bv64, mode: bv2): bv64 {
    var m1 := (m & !0x80) | (if Mie(m) then 0x80 else 0);
    var m2 := m1 & !0x8;
    (m2 & !0x1800) | ((mode as bv64) << 11)
  }

  /** SRET's status update. */
  function LeaveS(m: bv64): bv64 {
    var m1 := (m & !0x2) | (if Spie(m) then 0x2 else 0);
    (m1 | 0x20) & !0x100
  }

  function LeaveM(m: bv64): bv64 {
    var m1 := (m & !0x8) | (if Mpie(m) then 0x8 else 0);
    (m1 | 0x80) & !0x1800
  }

  lemma EnterSFields(m: bv64, mode: bv2)
    ensures Spie(EnterS(m, mode)) == Sie(m)
    ensures !Sie(EnterS(m, mode))
    ensures Spp(EnterS(m, mode)) == if mode == PRIV_S then 1 else 0
    ensures Mie(EnterS(m, mode)) == Mie(m)
  {
  }

  lemma EnterMFields(m: bv64, mode: bv2)
    ensures Mpie(EnterM(m, mode)) == Mie(m)
    ensures !Mie(EnterM(m, mode))
    ensures Mpp(EnterM(m, mode)) == mode
    ensures Spie(EnterM(m, mode)) == Spie(m)
    ensures Spp(EnterM(m, mode)) == Spp(m)
    ensures Sie(EnterM(m, mode)) == Sie(m)
  {
  }

  lemma LeaveSFields(m: bv64)
    ensures Sie(LeaveS(m)) == Spie(m)
    ensures Mie(LeaveS(m)) == Mie(m)
  {
  }

  lemma LeaveMFields(m: bv64)
    ensures Mie(LeaveM(m)) == Mpie(m)
    ensures Spie(LeaveM(m)) == Spie(m)
    ensures Spp(LeaveM(m)) == Spp(m)
    ensures Sie(LeaveM(m)) == Sie(m)
  {
  }

  // ---------- CSR access ----------

  const SSTATUS_MASK: bv64 := 0x122
  const SIE_MASK: bv64 := 0x222
  const SIP_MASK: bv64 := 0x222

  /** The machine register and mask behind a supervisor view. */
  function AliasedTarget(a: CsrAddr): Option<(CsrAddr, bv64)> {
    if a == SSTATUS then Some((MSTATUS, SSTATUS_MASK))
    else if a == SIE then Some((MIE, SIE_MASK))
    else if a == SIP then Some((MIP, SIP_MASK))
    else None
  }

  function Inside(w: bv64, mask: bv64): bv64 {
    w & mask
  }

  function Outside(w: bv64, mask: bv64): bv64 {
    w & !mask
  }

  function CsrRead(h: Hart, a: CsrAddr): bv64 {
    match AliasedTarget(a)
    case Some((base, mask)) => Inside(h.csrs[base], mask)
    case None => h.csrs[a]
  }

  function Blend(w: bv64, v: bv64, mask: bv64): bv64 {
    (w & !mask) | (v & mask)
  }

  function CsrWrite(h: Hart, a: CsrAddr, v: bv64): Hart {
    if a == MHARTID then h
    else
      var h1 :=
        match AliasedTarget(a)
        case Some((base, mask)) => h.SetCsr(base, Blend(h.csrs[base], v, mask))
        case None => h.SetCsr(a, v);
      if a == SATP then h1.(tlb := Mmu.Flush(h1.tlb)) else h1
  }

  lemma BlendInside(w: bv64, v: bv64, mask: bv64)
    ensures Inside(Blend(w, v, mask), mask) == Inside(v, mask)
  {
  }

  lemma BlendOutside(w: bv64, v: bv64, mask: bv64)
    ensures Outside(Blend(w, v, mask), mask) == Outside(w, mask)
  {
  }

  /** A write through a supervisor view is read back under the mask and leaves every machine bit
      outside the mask alone ... */
  lemma SupervisorView(h: Hart, a: CsrAddr, v: bv64)
    requires AliasedTarget(a).Some?
    ensures var (base, mask) := AliasedTarget(a).value;
            && CsrRead(CsrWrite(h, a, v), a) == Inside(v, mask)
            && Outside(CsrWrite(h, a, v).csrs[base], mask) == Outside(h.csrs[base], mask)
  {
    hide Blend, Inside, Outside;
    if a == SSTATUS {
      BlendInside(h.csrs[MSTATUS], v, SSTATUS_MASK);
      BlendOutside(h.csrs[MSTATUS], v, SSTATUS_MASK);
    } else if a == SIE {
      BlendInside(h.csrs[MIE], v, SIE_MASK);
      BlendOutside(h.csrs[MIE], v, SIE_MASK);
    } else {
      BlendInside(h.csrs[MIP], v, SIP_MASK);
      BlendOutside(h.csrs[MIP], v, SIP_MASK);
    }
  }

  /** ... and touches nothing but the machine register behind it. */
  lemma SupervisorFrame(h: Hart, a: CsrAddr, v: bv64)
    requires AliasedTarget(a).Some?
    ensures var base := AliasedTarget(a).value.0;
            CsrWrite(h, a, v) == h.SetCsr(base, CsrWrite(h, a, v).csrs[base])
  {
    hide Blend;
  }

  // ---------- trap entry and return ----------

  /** Causes 3, 7 and 11 are never delegatable. */
  const DELEGATABLE_MASK: bv64 := !0x888

  function Delegatable(w: bv64): bv64 {
    w & DELEGATABLE_MASK
  }

  function DelegationWord(h: Hart, isInterrupt: bool): bv64 {
    if isInterrupt then Delegatable(h.csrs[MIDELEG]) else h.csrs[MEDELEG]
  }

  predicate BitAt(w: bv64, cause: bv6) {
    (w >> cause) & 1 != 0
  }

  predicate Delegated(h: Hart, cause: bv6, isInterrupt: bool) {
    h.mode != PRIV_M && BitAt(DelegationWord(h, isInterrupt), cause)
  }

  function CauseWord(cause: bv6, isInterrupt: bool): bv64 {
    (cause as bv64) | (if isInterrupt then 0x8000_0000_0000_0000 else 0)
  }

  function TrapToS(h: Hart, cause: bv6, isInterrupt: bool, tval: bv64): Hart {
    h.(mode := PRIV_S,
       csrs := h.csrs[SEPC := h.pc][SCAUSE := CauseWord(cause, isInterrupt)][STVAL := tval]
                     [MSTATUS := EnterS(h.csrs[MSTATUS], h.mode)])
  }

  function TrapToM(h: Hart, cause: bv6, isInterrupt: bool, tval: bv64): Hart {
    h.(mode := PRIV_M,
       csrs := h.csrs[MEPC := h.pc][MCAUSE := CauseWord(cause, isInterrupt)][MTVAL := tval]
                     [MSTATUS := EnterM(h.csrs[MSTATUS], h.mode)])
  }

  /** Handler address of a trap-vector register. */
  function Vector(w: bv64): bv64 {
    w & !3
  }

  /** A hart and the pc to continue at. */
  datatype Jump = Jump(hart: Hart, pc: bv64)

  function RaiseTrap(h: Hart, cause: bv6, isInterrupt: bool, tval: bv64): Jump {
    if Delegated(h, cause, isInterrupt) then Jump(TrapToS(h, cause, isInterrupt, tval), Vector(h.csrs[STVEC]))
    else Jump(TrapToM(h, cause, isInterrupt, tval), Vector(h.csrs[MTVEC]))
  }

  function Sret(h: Hart): Jump {
    var m := h.csrs[MSTATUS];
    Jump(h.SetCsr(MSTATUS, LeaveS(m)).(mode := Spp(m)), h.csrs[SEPC])
  }

  function Mret(h: Hart): Jump {
    var m := h.csrs[MSTATUS];
    Jump(h.SetCsr(MSTATUS, LeaveM(m)).(mode := Mpp(m)), h.csrs[MEPC])
  }

  /** What a return must give back: pc, mode and the interrupt enables. */
  datatype Context = Context(pc: bv64, mode: bv2, sie: bool, mie: bool)

  function Running(h: Hart): Context {
    Context(h.pc, h.mode, Sie(h.csrs[MSTATUS]), Mie(h.csrs[MSTATUS]))
  }

  function Resumed(j: Jump): Context {
    Running(j.hart.(pc := j.pc))
  }

  /** The trap record that SRET consumes. */
  predicate SameSRecord(h: Hart, h': Hart) {
    && h'.csrs[SEPC] == h.csrs[SEPC]
    && Spie(h'.csrs[MSTATUS]) == Spie(h.csrs[MSTATUS])
    && Spp(h'.csrs[MSTATUS]) == Spp(h.csrs[MSTATUS])
  }

  predicate SameMRecord(h: Hart, h': Hart) {
    && h'.csrs[MEPC] == h.csrs[MEPC]
    && Mpie(h'.csrs[MSTATUS]) == Mpie(h.csrs[MSTATUS])
    && Mpp(h'.csrs[MSTATUS]) == Mpp(h.csrs[MSTATUS])
  }

  predicate SameMie(h: Hart, h': Hart) {
    Mie(h'.csrs[MSTATUS]) == Mie(h.csrs[MSTATUS])
  }

  predicate SameSie(h: Hart, h': Hart) {
    Sie(h'.csrs[MSTATUS]) == Sie(h.csrs[MSTATUS])
  }

  /** Delegated trap, any handler that keeps the S record and MIE, SRET: the interrupted context is
      back exactly when it ran in U or S. (Mode 2, reachable by writing MPP = 2, is lost.) */
  lemma SRoundTripIff(h: Hart, cause: bv6, isInterrupt: bool, tval: bv64, h': Hart)
    requires Delegated(h, cause, isInterrupt)
    requires var t := RaiseTrap(h, cause, isInterrupt, tval).hart; SameSRecord(t, h') && SameMie(t, h')
    ensures Resumed(Sret(h')) == Running(h) <==> h.mode == PRIV_U || h.mode == PRIV_S
    ensures Resumed(Sret(h')) == Running(h).(mode := if h.mode == PRIV_S then PRIV_S else PRIV_U)
  {
    hide Sie, Mie, Spie, Spp, EnterS, LeaveS, Delegated;
    EnterSFields(h.csrs[MSTATUS], h.mode);
    LeaveSFields(h'.csrs[MSTATUS]);
  }

  /** Trap into M from any mode, any handler that keeps the M record and SIE, MRET: the interrupted
      context is back, M-to-M traps included. */
  lemma MRoundTrip(h: Hart, cause: bv6, isInterrupt: bool, tval: bv64, h': Hart)
    requires !Delegated(h, cause, isInterrupt)
    requires var t := RaiseTrap(h, cause, isInterrupt, tval).hart; SameMRecord(t, h') && SameSie(t, h')
    ensures Resumed(Mret(h')) == Running(h)
  {
    hide Sie, Mie, Spie, Mpie, Spp, Mpp, EnterM, LeaveM, Delegated;
    EnterMFields(h.csrs[MSTATUS], h.mode);
    LeaveMFields(h'.csrs[MSTATUS]);
  }

  /** Nested traps. A delegated trap from U or S, then a trap into M while in the S handler, then MRET
      and SRET: the S handler resumes where it was, and the first context comes back. The handlers
      (h1 to h2, t3 to h4, r5 to h6) may do anything except damage the pending trap records and MIE. */
  lemma NestedRoundTrip(h: Hart, c: bv6, i: bool, tv: bv64, h2: Hart, c': bv6, i': bool, tv': bv64, h4: Hart, h6: Hart)
    requires Delegated(h, c, i) && (h.mode == PRIV_U || h.mode == PRIV_S)
    requires var h1 := RaiseTrap(h, c, i, tv).hart; SameSRecord(h1, h2) && SameMie(h1, h2)
    requires !Delegated(h2, c', i')
    requires var t3 := RaiseTrap(h2, c', i', tv').hart; SameMRecord(t3, h4) && SameSRecord(t3, h4) && SameSie(t3, h4)
    requires var r5 := Mret(h4).hart; SameSRecord(r5, h6) && SameMie(r5, h6)
    ensures Resumed(Mret(h4)) == Running(h2)
    ensures Resumed(Sret(h6)) == Running(h)
  {
    hide RaiseTrap, Sret, Mret, Delegated, SameSRecord, SameMRecord, SameMie, SameSie, Running;
    MRoundTrip(h2, c', i', tv', h4);
    MachineTrapKeepsS(h2, c', i', tv', h4);
    SRecordChain(RaiseTrap(h, c, i, tv).hart, h2, Mret(h4).hart, h6);
    SRoundTripIff(h, c, i, tv, h6);
  }

  /** A trap into M and its MRET leave the S record and MIE as they were. */
  lemma MachineTrapKeepsS(h: Hart, cause: bv6, isInterrupt: bool, tval: bv64, h': Hart)
    requires !Delegated(h, cause, isInterrupt)
    requires var t := RaiseTrap(h, cause, isInterrupt, tval).hart; SameMRecord(t, h') && SameSRecord(t, h')
    ensures SameSRecord(h, Mret(h').hart) && SameMie(h, Mret(h').hart)
  {
    hide Sie, Mie, Spie, Mpie, Spp, Mpp, EnterM, LeaveM, Delegated, CauseWord, Vector;
    EnterMFields(h.csrs[MSTATUS], h.mode);
    LeaveMFields(h'.csrs[MSTATUS]);
  }

  lemma SRecordChain(a: Hart, b: Hart, c: Hart, d: Hart)
    requires SameSRecord(a, b) && SameMie(a, b) && SameSRecord(b, c) && SameMie(b, c)
    requires SameSRecord(c, d) && SameMie(c, d)
    ensures SameSRecord(a, d) && SameMie(a, d)
  {
    hide Spie, Spp, Mie;
  }

  predicate FromInterrupt(w: bv64) {
    w >> 63 == 1
  }

  function CauseCode(w: bv64): bv64 {
    w & 0x3f
  }

  lemma CauseFields(cause: bv6, isInterrupt: bool)
    ensures FromInterrupt(CauseWord(cause, isInterrupt)) == isInterrupt
    ensures CauseCode(CauseWord(cause, isInterrupt)) == cause as bv64
  {
  }

  /** Equal but for one level's trap record. */
  predicate OnlyRecord(h: Hart, h': Hart, record: set<CsrAddr>) {
    && (forall a: CsrAddr :: a !in record ==> h'.csrs[a] == h.csrs[a])
    && h' == h.(mode := h'.mode, csrs := h'.csrs)
  }

  /** What an S handler finds: where and why the trap happened, in the S record. Nothing else changes,
      in particular not the M record. */
  lemma SHandlerFinds(h: Hart, cause: bv6, isInterrupt: bool, tval: bv64)
    requires Delegated(h, cause, isInterrupt)
    ensures var h' := RaiseTrap(h, cause, isInterrupt, tval).hart;
            && h'.csrs[SEPC] == h.pc && h'.csrs[STVAL] == tval
            && FromInterrupt(h'.csrs[SCAUSE]) == isInterrupt && CauseCode(h'.csrs[SCAUSE]) == cause as bv64
            && OnlyRecord(h, h', {SEPC, SCAUSE, STVAL, MSTATUS})
  {
    hide Delegated, CauseWord, EnterS, Vector, FromInterrupt, CauseCode;
    CauseFields(cause, isInterrupt);
  }

  /** What an M handler finds, likewise. */
  lemma MHandlerFinds(h: Hart, cause: bv6, isInterrupt: bool, tval: bv64)
    requires !Delegated(h, cause, isInterrupt)
    ensures var h' := RaiseTrap(h, cause, isInterrupt, tval).hart;
            && h'.csrs[MEPC] == h.pc && h'.csrs[MTVAL] == tval
            && FromInterrupt(h'.csrs[MCAUSE]) == isInterrupt && CauseCode(h'.csrs[MCAUSE]) == cause as bv64
            && OnlyRecord(h, h', {MEPC, MCAUSE, MTVAL, MSTATUS})
  {
    hide Delegated, CauseWord, EnterM, Vector, FromInterrupt, CauseCode;
    CauseFields(cause, isInterrupt);
  }

  // ---------- interrupts ----------

  /** Sampling order of the interrupt causes. */
  const PRIORITY: seq<bv6> := [11, 3, 7, 9, 1, 5]

  function WithBit(w: bv64, mask: bv64, line: Option<bool>): bv64 {
    match line
    case None => w
    case Some(raised) => if raised then w | mask else w & !mask
  }

  /** mip with the timer line (bit 7) and the external line (bit 9) sampled; a detached line keeps
      its bit. */
  function SampledMip(mip: bv64, timer: Option<bool>, external: Option<bool>): bv64 {
    WithBit(WithBit(mip, 0x80, timer), 0x200, external)
  }

  function Enabled(h: Hart): bv64 {
    Inside(h.csrs[MIP], h.csrs[MIE])
  }

  predicate Pending(enabled: bv64, cause: bv6) {
    enabled & (1 << cause) != 0
  }

  /** Whether the current mode and enables let the cause through. */
  predicate Takeable(h: Hart, cause: bv6) {
    if Delegated(h, cause, true) then h.mode == PRIV_S ==> Sie(h.csrs[MSTATUS])
    else h.mode == PRIV_M ==> Mie(h.csrs[MSTATUS])
  }

  predicate Deliverable(h: Hart, enabled: bv64, cause: bv6) {
    Pending(enabled, cause) && Takeable(h, cause)
  }

  /** First deliverable cause from position k on. */
  function FirstFrom(h: Hart, enabled: bv64, k: nat): Option<bv6>
    requires k <= |PRIORITY|
    decreases |PRIORITY| - k
  {
    if k == |PRIORITY| then None
    else if Deliverable(h, enabled, PRIORITY[k]) then Some(PRIORITY[k])
    else FirstFrom(h, enabled, k + 1)
  }

  datatype Sampled = Sampled(taken: Option<bv6>, hart: Hart)

  function CheckInterrupt(h: Hart, timer: Option<bool>, external: Option<bool>): Sampled {
    var h1 := h.SetCsr(MIP, SampledMip(h.csrs[MIP], timer, external));
    if Enabled(h1) == 0 then Sampled(None, h1)
    else
      match FirstFrom(h1, Enabled(h1), 0)
      case None => Sampled(None, h1)
      case Some(cause) =>
        var j := RaiseTrap(h1, cause, true, 0);
        Sampled(Some(cause), j.hart.(pc := j.pc))
  }

  /** check_interrupt takes a cause exactly when it is the first in priority order that is pending,
      enabled and takeable; otherwise only mip changes. */
  lemma CheckIsExact(h: Hart, timer: Option<bool>, external: Option<bool>)
    ensures var h1 := h.SetCsr(MIP, SampledMip(h.csrs[MIP], timer, external));
            var s := CheckInterrupt(h, timer, external);
            && (s.taken.None? <==> forall k :: 0 <= k < |PRIORITY| ==> !Deliverable(h1, Enabled(h1), PRIORITY[k]))
            && (s.taken.None? ==> s.hart == h1)
            && (s.taken.Some? ==>
                  var j := RaiseTrap(h1, s.taken.value, true, 0);
                  && s.hart == j.hart.(pc := j.pc)
                  && exists k :: 0 <= k < |PRIORITY| && PRIORITY[k] == s.taken.value
                              && Deliverable(h1, Enabled(h1), PRIORITY[k])
                              && forall i :: 0 <= i < k ==> !Deliverable(h1, Enabled(h1), PRIORITY[i]))
  {
    hide Enabled, Deliverable, SampledMip, RaiseTrap, FirstFrom;
    var h1 := h.SetCsr(MIP, SampledMip(h.csrs[MIP], timer, external));
    FirstIsFirst(h1, Enabled(h1), 0);
    NothingDeliverable(h1);
  }

  lemma NothingDeliverable(h: Hart)
    ensures forall c: bv6 :: !Deliverable(h, 0, c)
  {
    NothingPending();
    hide Pending;
  }

  lemma NothingPending()
    ensures forall c: bv6 :: !Pending(0, c)
  {
  }

  lemma {:induction false} FirstIsFirst(h: Hart, enabled: bv64, k: nat)
    requires k <= |PRIORITY|
    ensures FirstFrom(h, enabled, k).None? <==>
              forall i :: k <= i < |PRIORITY| ==> !Deliverable(h, enabled, PRIORITY[i])
    ensures FirstFrom(h, enabled, k).Some? ==>
              exists i :: k <= i < |PRIORITY| && PRIORITY[i] == FirstFrom(h, enabled, k).value
                          && Deliverable(h, enabled, PRIORITY[i])
                          && forall j :: k <= j < i ==> !Deliverable(h, enabled, PRIORITY[j])
    decreases |PRIORITY| - k
  {
    hide Deliverable;
    if k < |PRIORITY| {
      FirstIsFirst(h, enabled, k + 1);
    }
  }

  /** Machine-level causes always trap into M. */
  lemma MachineCausesStayInM(h: Hart, cause: bv6, tval: bv64)
    requires cause == 3 || cause == 7 || cause == 11
    ensures !Delegated(h, cause, true) && RaiseTrap(h, cause, true, tval).hart.mode == PRIV_M
  {
    Masked3(h.csrs[MIDELEG]);
    Masked7(h.csrs[MIDELEG]);
    Masked11(h.csrs[MIDELEG]);
    hide BitAt, Delegatable;
  }

  lemma Masked3(w: bv64) ensures !BitAt(Delegatable(w), 3) {}
  lemma Masked7(w: bv64) ensures !BitAt(Delegatable(w), 7) {}
  lemma Masked11(w: bv64) ensures !BitAt(Delegatable(w), 11) {}

  /** Trap entry lowers the privilege in exactly one case: a delegated trap out of mode 2. */
  lemma PrivilegeDropsIff(h: Hart, cause: bv6, isInterrupt: bool, tval: bv64)
    ensures RaiseTrap(h, cause, isInterrupt, tval).hart.mode < h.mode <==>
            h.mode == 2 && Delegated(h, cause, isInterrupt)
  {
    hide Delegated, EnterS, EnterM, CauseWord, Vector;
    NeverFromM(h, cause, isInterrupt);
    ModeOrder(h.mode);
  }

  lemma NeverFromM(h: Hart, cause: bv6, isInterrupt: bool)
    ensures Delegated(h, cause, isInterrupt) ==> h.mode != PRIV_M
  {
    hide BitAt, DelegationWord;
  }

  lemma ModeOrder(m: bv2)
    ensures PRIV_S < m && m != PRIV_M <==> m == 2
    ensures !(PRIV_M < m)
  {
  }

  // ---------- interrupt storms ----------

  /** Guest execution that leaves mode, mstatus and mideleg alone; everything else may change. */
  predicate Quiet(h: Hart, h': Hart) {
    h'.mode == h.mode && h'.csrs[MSTATUS] == h.csrs[MSTATUS] && h'.csrs[MIDELEG] == h.csrs[MIDELEG]
  }

  /** How many more interrupts the enables can let through: none in M with MIE clear, one in S with
      SIE clear or in M with MIE set, two otherwise. */
  function Budget(h: Hart): nat {
    if h.mode == PRIV_M then (if Mie(h.csrs[MSTATUS]) then 1 else 0)
    else if h.mode == PRIV_S && !Sie(h.csrs[MSTATUS]) then 1
    else 2
  }

  /** Delivery into S leaves a budget of one out of two, delivery into M leaves none. */
  lemma TrapSpendsBudget(h: Hart, cause: bv6)
    requires Takeable(h, cause)
    ensures var h' := RaiseTrap(h, cause, true, 0).hart;
            && Budget(h') < Budget(h)
            && ((h'.mode == PRIV_S && Budget(h') == 1) || (h'.mode == PRIV_M && Budget(h') == 0))
  {
    hide Sie, Mie, EnterS, EnterM, BitAt, CauseWord, DelegationWord, Vector;
    EnterSFields(h.csrs[MSTATUS], h.mode);
    EnterMFields(h.csrs[MSTATUS], h.mode);
  }

  lemma DeliverySpendsBudget(h: Hart, timer: Option<bool>, external: Option<bool>)
    ensures var s := CheckInterrupt(h, timer, external);
            && (s.taken.None? ==> Quiet(h, s.hart))
            && (s.taken.Some? ==> Budget(s.hart) < Budget(h) && (s.hart.mode == PRIV_S || s.hart.mode == PRIV_M))
            && (s.taken.Some? && s.hart.mode == PRIV_S ==> Budget(s.hart) == 1)
            && (s.taken.Some? && s.hart.mode == PRIV_M ==> Budget(s.hart) == 0)
  {
    hide CheckInterrupt, RaiseTrap, Pending, Takeable, Sie, Mie, SampledMip, Enabled;
    CheckIsExact(h, timer, external);
    var s := CheckInterrupt(h, timer, external);
    if s.taken.Some? {
      TrapSpendsBudget(h.SetCsr(MIP, SampledMip(h.csrs[MIP], timer, external)), s.taken.value);
    }
  }

  // ---------- what no CSR activity can break ----------

  /** The raw supervisor slots stay zero, mhartid names the hart and x0 is zero. */
  predicate CsrInvariant(h: Hart) {
    && h.csrs[SSTATUS] == 0 && h.csrs[SIE] == 0 && h.csrs[SIP] == 0
    && h.csrs[MHARTID] == h.id
    && h.regs[0] == 0
  }

  /** What the hart's trap machinery keeps: the CSR invariant, satp and the TLB. */
  predicate Keeps(h: Hart, h': Hart) {
    && (CsrInvariant(h) ==> CsrInvariant(h'))
    && h'.csrs[SATP] == h.csrs[SATP] && h'.tlb == h.tlb && h'.id == h.id
  }

  lemma WriteKeeps(h: Hart, a: CsrAddr, v: bv64)
    ensures CsrInvariant(h) ==> CsrInvariant(CsrWrite(h, a, v))
    ensures a != SATP ==> Keeps(h, CsrWrite(h, a, v))
    ensures a == SATP ==> CsrWrite(h, a, v).tlb == Mmu.Flush(h.tlb)
  {
    hide Blend;
  }

  lemma TrapKeeps(h: Hart, cause: bv6, isInterrupt: bool, tval: bv64)
    ensures Keeps(h, RaiseTrap(h, cause, isInterrupt, tval).hart)
  {
    hide RaiseTrap, Delegated, FromInterrupt, CauseCode;
    if Delegated(h, cause, isInterrupt) {
      SHandlerFinds(h, cause, isInterrupt, tval);
    } else {
      MHandlerFinds(h, cause, isInterrupt, tval);
    }
  }

  lemma ReturnKeeps(h: Hart)
    ensures Keeps(h, Sret(h).hart) && Keeps(h, Mret(h).hart)
  {
    hide LeaveS, LeaveM, Spp, Mpp;
  }

  lemma CheckKeeps(h: Hart, timer: Option<bool>, external: Option<bool>)
    ensures Keeps(h, CheckInterrupt(h, timer, external).hart)
  {
    hide SampledMip, RaiseTrap, FirstFrom, Enabled;
    var h1 := h.SetCsr(MIP, SampledMip(h.csrs[MIP], timer, external));
    var f := FirstFrom(h1, Enabled(h1), 0);
    if f.Some? {
      TrapKeeps(h1, f.value, true, 0);
    }
  }
}
