/** A hart as an object updated in place (register.rs, csr.rs, mmu.rs, trap.rs, cpu.rs). */
module CpuObject {
  import opened Base
  import opened Words
  import opened HartState
  import BusObject
  import opened Encoding
  import opened Rv64
  import Rvc
  import Machine
  import Mmu
  import Sv39Bits
  import Plic
  import Trap
  import SystemBus

  type Bus = BusObject.Bus

  class Registers {
    const data: array<bv64>

    ghost predicate Valid() {
      data.Length == 32
    }

    ghost function View(): RegFile
      requires Valid()
      reads data
    {
      data[..]
    }

    constructor ()
      ensures Valid() && fresh(data) && View() == seq(32, _ => 0)
    {
      data := new bv64[32](_ => 0);
      new;
      assert data[..] == seq(32, _ => 0);
    }

    method Read(r: bv5) returns (v: bv64)
      requires Valid()
      ensures v == View()[r as int]
    {
      v := data[r as int];
    }

    /** Writes to x0 are ignored. */
    method Write(r: bv5, v: bv64)
      requires Valid()
      modifies data
      ensures View() == if r == 0 then old(View()) else old(View())[r as int := v]
    {
      if r != 0 {
        data[r as int] := v;
      }
    }
  }

  class Csrs {
    const data: array<bv64>

    ghost predicate Valid() {
      data.Length == 4096
    }

    ghost function View(): CsrFile
      requires Valid()
      reads data
    {
      data[..]
    }

    constructor ()
      ensures Valid() && fresh(data) && View() == seq(4096, _ => 0)
    {
      data := new bv64[4096](_ => 0);
      new;
      assert data[..] == seq(4096, _ => 0);
    }

    method Get(a: CsrAddr) returns (v: bv64)
      requires Valid()
      ensures v == View()[a]
    {
      v := data[a];
    }

    method Insert(a: CsrAddr, v: bv64)
      requires Valid()
      modifies data
      ensures View() == old(View())[a := v]
    {
      data[a] := v;
    }
  }

  class Tlb {
    const entries: array<Mmu.TlbEntry>

    ghost predicate Valid() {
      entries.Length == Mmu.TLB_ENTRIES
    }

    ghost function View(): Mmu.Entries
      requires Valid()
      reads entries
    {
      entries[..]
    }

    constructor ()
      ensures Valid() && fresh(entries) && View() == seq(Mmu.TLB_ENTRIES, _ => Mmu.EMPTY_ENTRY)
    {
      entries := new Mmu.TlbEntry[Mmu.TLB_ENTRIES](_ => Mmu.EMPTY_ENTRY);
      new;
      assert entries[..] == seq(Mmu.TLB_ENTRIES, _ => Mmu.EMPTY_ENTRY);
    }

    method Lookup(vpn: bv64) returns (r: Option<Mmu.TlbEntry>)
      requires Valid()
      ensures r == Mmu.Lookup(View(), vpn)
    {
      hide Mmu.Slot;
      var e := entries[Mmu.Slot(vpn)];
      r := if e.valid && e.vpn == vpn then Some(e) else None;
    }

    method Insert(vpn: bv64, ppn: bv64, perm: bv64)
      requires Valid()
      modifies entries
      ensures View() == Mmu.Insert(old(View()), Mmu.TlbEntry(true, vpn, ppn, perm))
    {
      hide Mmu.Slot;
      entries[Mmu.Slot(vpn)] := Mmu.TlbEntry(true, vpn, ppn, perm);
    }

    method Flush()
      requires Valid()
      modifies entries
      ensures View() == Mmu.Flush(old(View()))
    {
      for i := 0 to Mmu.TLB_ENTRIES
        invariant forall k :: 0 <= k < i ==> entries[k] == old(entries[k]).(valid := false)
        invariant forall k :: i <= k < Mmu.TLB_ENTRIES ==> entries[k] == old(entries[k])
      {
        entries[i] := entries[i].(valid := false);
      }
      assert entries[..] == Mmu.Flush(old(View()));
    }
  }

  // ---------- the page walk ----------

  /** One level of the reference walk. */
  lemma WalkUnfolds(b: SystemBus.Bus, a: bv64, level: nat, vpn: Sv39Bits.Vpn)
    requires level < 3
    ensures var word := SystemBus.Read(b, Sv39Bits.EntryAt(a, vpn.At(level)) as int, 8).value;
            var found := Mmu.Walk(b, a, level, vpn);
            if word.Err? then found == Err(word.error)
            else
              var pte := ToWord(word.value);
              match Sv39Bits.Kind(pte)
              case Invalid => found == Err(InvalidPte)
              case Leafy => found == Ok(Sv39Bits.Leaf(pte, level))
              case Reserved => found == Err(ReservedPte)
              case Pointer =>
                found == if level == 0 then Err(WalkExhausted) else Mmu.Walk(b, Sv39Bits.TableOf(pte), level - 1, vpn)
  {
    hide SystemBus.Read, Sv39Bits.EntryAt, Sv39Bits.Kind, Sv39Bits.TableOf, ToWord, Sv39Bits.Vpn.At;
  }

  /** The walk loop: three levels at most, each entry read straight from the bus, which stays as it
      was. */
  method WalkTables(bus: Bus, satp: bv64, va: bv64) returns (r: Result<Sv39Bits.Leaf>)
    requires bus.Valid()
    modifies bus.uart
    ensures bus.Valid() && bus.View() == old(bus.View())
    ensures r == Mmu.Walk(bus.View(), Sv39Bits.Root(satp), 2, Sv39Bits.Fields(va))
  {
    hide Mmu.Walk, Mmu.Pte, Sv39Bits.Root, Sv39Bits.EntryAt, Sv39Bits.Field0, Sv39Bits.Field1, Sv39Bits.Field2,
      Sv39Bits.TableOf, Sv39Bits.Kind, SystemBus.Read, ToWord;
    ghost var b, fields := bus.View(), Sv39Bits.Fields(va);
    var vpn := [Sv39Bits.Field0(va), Sv39Bits.Field1(va), Sv39Bits.Field2(va)];
    var a := Sv39Bits.Root(satp);
    var level := 2;
    while level >= 0
      invariant -1 <= level <= 2
      invariant bus.Valid() && bus.View() == b
      invariant level >= 0 ==> Mmu.Walk(b, Sv39Bits.Root(satp), 2, fields) == Mmu.Walk(b, a, level, fields)
      invariant level == -1 ==> Mmu.Walk(b, Sv39Bits.Root(satp), 2, fields) == Err(WalkExhausted)
      decreases level + 1
    {
      assert vpn[level] == fields.At(level);
      WalkUnfolds(b, a, level, fields);
      var word := bus.Read(Sv39Bits.EntryAt(a, vpn[level]) as int, 8);
      if word.Err? {
        return Err(word.error);
      }
      var pte := ToWord(word.value);
      match Sv39Bits.Kind(pte)
      case Invalid => return Err(InvalidPte);
      case Leafy => return Ok(Sv39Bits.Leaf(pte, level));
      case Reserved => return Err(ReservedPte);
      case Pointer =>
        a := Sv39Bits.TableOf(pte);
        level := level - 1;
    }
    return Err(WalkExhausted);
  }

  /** Adds the page-number field of level l, shifted by nine bits per level. */
  function WithField(low: bv64, field: bv64, l: nat): bv64 {
    if l == 0 then field else Sv39Bits.Join1(low, field)
  }

  /** Superpages take their low page-number fields from the address. */
  method MergeFields(leaf: Sv39Bits.Leaf, va: bv64) returns (r: Result<bv64>)
    requires leaf.level < 3
    ensures r == Sv39Bits.Resolve(leaf, Sv39Bits.Fields(va))
  {
    hide Sv39Bits.Field0, Sv39Bits.Field1, Sv39Bits.Field2, Sv39Bits.Ppn, Sv39Bits.LowMask, Sv39Bits.Combine,
      Sv39Bits.Clear, Sv39Bits.Join1;
    var vpn := [Sv39Bits.Field0(va), Sv39Bits.Field1(va), Sv39Bits.Field2(va)];
    var ppn := Sv39Bits.Ppn(leaf.pte);
    if leaf.level == 0 {
      WholePage(ppn, Sv39Bits.Fields(va));
      return Ok(ppn);
    }
    var lowMask := Sv39Bits.LowMask(leaf.level);
    if !Sv39Bits.Clear(ppn, lowMask) {
      return Err(MisalignedSuperpage);
    }
    var vaLow: bv64 := 0;
    for l := 0 to leaf.level
      invariant vaLow == Sv39Bits.VaLow(Sv39Bits.Fields(va), l)
    {
      assert vpn[l] == Sv39Bits.Fields(va).At(l);
      vaLow := WithField(vaLow, vpn[l], l);
    }
    return Ok(Sv39Bits.Combine(ppn, lowMask, vaLow));
  }

  lemma WholePage(ppn: bv64, vpn: Sv39Bits.Vpn)
    ensures Sv39Bits.Merge(ppn, 0, vpn) == ppn
  {
  }

  lemma BareIsIdentity(t: Mmu.Entries, b: SystemBus.Bus, satp: bv64, va: bv64, acc: Sv39Bits.Access)
    ensures Sv39Bits.Bare(satp) ==> Mmu.Translate(t, b, satp, va, acc) == Mmu.Translated(Ok(va), t)
  {
    hide Sv39Bits.Bare, Mmu.Walk;
  }

  /** Walks the tables on a miss and refills the TLB. */
  method FillTlb(tlb: Tlb, bus: Bus, satp: bv64, va: bv64, acc: Sv39Bits.Access) returns (pa: Result<bv64>)
    requires tlb.Valid() && bus.Valid() && tlb.entries !in bus.Footprint()
    modifies tlb.entries, bus.uart
    ensures bus.Valid() && bus.View() == old(bus.View())
    ensures Mmu.Translated(pa, tlb.View()) ==
            Mmu.Miss(old(tlb.View()), Mmu.Walk(bus.View(), Sv39Bits.Root(satp), 2, Sv39Bits.Fields(va)), va, acc)
  {
    hide Mmu.Walk, Sv39Bits.Resolve, Sv39Bits.Root, Sv39Bits.Fields, Sv39Bits.Permits, Sv39Bits.Physical,
      Sv39Bits.PageNumber, Sv39Bits.PermOf, Mmu.Insert;
    var leaf := WalkTables(bus, satp, va);
    if leaf.Err? {
      return Err(leaf.error);
    }
    if !Sv39Bits.Permits(leaf.value.pte, acc) {
      return Err(PermissionDenied);
    }
    var ppn := MergeFields(leaf.value, va);
    if ppn.Err? {
      return ppn;
    }
    tlb.Insert(Sv39Bits.PageNumber(va), ppn.value, Sv39Bits.PermOf(leaf.value.pte));
    return Ok(Sv39Bits.Physical(ppn.value, va));
  }

  /** TLB first; a miss walks the tables and refills. */
  method TranslatePaged(tlb: Tlb, bus: Bus, satp: bv64, va: bv64, acc: Sv39Bits.Access) returns (pa: Result<bv64>)
    requires !Sv39Bits.Bare(satp)
    requires tlb.Valid() && bus.Valid() && tlb.entries !in bus.Footprint()
    modifies tlb.entries, bus.uart
    ensures bus.Valid() && bus.View() == old(bus.View())
    ensures Mmu.Translated(pa, tlb.View()) == Mmu.Translate(old(tlb.View()), bus.View(), satp, va, acc)
  {
    hide Mmu.Walk, Mmu.Miss, Sv39Bits.Permits, Sv39Bits.Bare, Sv39Bits.Sv39, Sv39Bits.Physical, Sv39Bits.PageNumber,
      Mmu.Lookup, Sv39Bits.Root, Sv39Bits.Fields;
    if !Sv39Bits.Sv39(satp) {
      return Err(UnsupportedMode);
    }
    var hit := tlb.Lookup(Sv39Bits.PageNumber(va));
    if hit.Some? {
      return if Sv39Bits.Permits(hit.value.perm, acc) then Ok(Sv39Bits.Physical(hit.value.ppn, va))
             else Err(PermissionDenied);
    }
    pa := FillTlb(tlb, bus, satp, va, acc);
  }

  class Cpu {
    const regs: Registers
    const csrs: Csrs
    const tlb: Tlb
    var pc: bv64
    var mode: bv2
    const hartid: bv64
    var attached: bool
    var pollCountdown: int

    ghost function Footprint(): set<object> {
      {this, regs.data, csrs.data, tlb.entries}
    }

    ghost predicate Valid() {
      regs.Valid() && csrs.Valid() && tlb.Valid() && regs.data != csrs.data
    }

    /** The hart as a value. */
    ghost function View(): Hart
      requires Valid()
      reads this, regs.data, csrs.data, tlb.entries
    {
      Hart(regs.View(), pc, csrs.View(), mode, hartid, tlb.View(), attached, pollCountdown)
    }

    /** The hart shares nothing with the bus. */
    ghost predicate On(bus: Bus)
      reads bus
    {
      Valid() && bus.Valid() && Footprint() !! bus.Footprint()
    }

    constructor (id: bv64)
      ensures Valid() && fresh(Footprint())
      ensures View() == NewHart(id, false)
    {
      regs := new Registers();
      csrs := new Csrs();
      tlb := new Tlb();
      pc := 0;
      mode := PRIV_M;
      hartid := id;
      attached := false;
      pollCountdown := 0;
      new;
      csrs.Insert(MSTATUS, 0x000a_0000_0000);
      csrs.Insert(MIE, 0x222);
      csrs.Insert(MHARTID, id);
    }

    // ---------- trap.rs ----------

    method CsrRead(a: CsrAddr) returns (v: bv64)
      requires Valid()
      ensures v == Trap.CsrRead(View(), a)
    {
      hide Trap.Inside;
      match Trap.AliasedTarget(a)
      case Some((base, mask)) =>
        var word := csrs.Get(base);
        v := Trap.Inside(word, mask);
      case None =>
        v := csrs.Get(a);
    }

    method CsrWrite(a: CsrAddr, v: bv64)
      requires Valid()
      modifies csrs.data, tlb.entries
      ensures View() == Trap.CsrWrite(old(View()), a, v)
    {
      hide Trap.Blend;
      if a == MHARTID {
        return;
      }
      match Trap.AliasedTarget(a) {
        case Some((base, mask)) =>
          var word := csrs.Get(base);
          csrs.Insert(base, Trap.Blend(word, v, mask));
        case None =>
          csrs.Insert(a, v);
      }
      if a == SATP {
        tlb.Flush();
      }
    }

    method TrapToS(cause: bv6, isInterrupt: bool, tval: bv64)
      requires Valid()
      modifies this`mode, csrs.data
      ensures View() == Trap.TrapToS(old(View()), cause, isInterrupt, tval)
    {
      hide Trap.CauseWord, Trap.EnterS;
      csrs.Insert(SEPC, pc);
      csrs.Insert(SCAUSE, Trap.CauseWord(cause, isInterrupt));
      csrs.Insert(STVAL, tval);
      var mstatus := csrs.Get(MSTATUS);
      csrs.Insert(MSTATUS, Trap.EnterS(mstatus, mode));
      mode := PRIV_S;
    }

    method TrapToM(cause: bv6, isInterrupt: bool, tval: bv64)
      requires Valid()
      modifies this`mode, csrs.data
      ensures View() == Trap.TrapToM(old(View()), cause, isInterrupt, tval)
    {
      hide Trap.CauseWord, Trap.EnterM;
      csrs.Insert(MEPC, pc);
      csrs.Insert(MCAUSE, Trap.CauseWord(cause, isInterrupt));
      csrs.Insert(MTVAL, tval);
      var mstatus := csrs.Get(MSTATUS);
      csrs.Insert(MSTATUS, Trap.EnterM(mstatus, mode));
      mode := PRIV_M;
    }

    /** medeleg, or mideleg without the causes that are never delegated. */
    method DelegationWord(isInterrupt: bool) returns (w: bv64)
      requires Valid()
      ensures w == Trap.DelegationWord(View(), isInterrupt)
    {
      w := csrs.Get(if isInterrupt then MIDELEG else MEDELEG);
      if isInterrupt {
        w := Trap.Delegatable(w);
      }
    }

    /** Delivers a trap and returns the handler's address. */
    method RaiseTrap(cause: bv6, isInterrupt: bool, tval: bv64) returns (handler: bv64)
      requires Valid()
      modifies this`mode, csrs.data
      ensures Trap.Jump(View(), handler) == Trap.RaiseTrap(old(View()), cause, isInterrupt, tval)
    {
      hide Trap.BitAt, Trap.CauseWord, Trap.EnterS, Trap.EnterM, Trap.Vector, Trap.DelegationWord;
      var deleg := DelegationWord(isInterrupt);
      if mode != PRIV_M && Trap.BitAt(deleg, cause) {
        TrapToS(cause, isInterrupt, tval);
        var vector := csrs.Get(STVEC);
        handler := Trap.Vector(vector);
      } else {
        TrapToM(cause, isInterrupt, tval);
        var vector := csrs.Get(MTVEC);
        handler := Trap.Vector(vector);
      }
    }

    method Sret() returns (target: bv64)
      requires Valid()
      modifies this`mode, csrs.data
      ensures Trap.Jump(View(), target) == Trap.Sret(old(View()))
    {
      hide Trap.LeaveS, Trap.Spp;
      var status := csrs.Get(MSTATUS);
      csrs.Insert(MSTATUS, Trap.LeaveS(status));
      mode := Trap.Spp(status);
      target := csrs.Get(SEPC);
    }

    method Mret() returns (target: bv64)
      requires Valid()
      modifies this`mode, csrs.data
      ensures Trap.Jump(View(), target) == Trap.Mret(old(View()))
    {
      hide Trap.LeaveM, Trap.Mpp;
      var status := csrs.Get(MSTATUS);
      csrs.Insert(MSTATUS, Trap.LeaveM(status));
      mode := Trap.Mpp(status);
      target := csrs.Get(MEPC);
    }

    /** Samples the device lines into mip. */
    method SampleLines(bus: Bus)
      requires On(bus) && Machine.Wired(View(), bus.View())
      modifies csrs.data
      ensures View() == old(View()).SetCsr(MIP, Trap.SampledMip(old(View()).csrs[MIP],
                          Machine.TimerLine(old(View()), bus.View()), Machine.ExternalLine(old(View()), bus.View())))
    {
      hide Trap.WithBit, Plic.Claim, Plic.PendingMask;
      var mip := csrs.Get(MIP);
      if attached {
        var timer := bus.clint.Pending(hartid as int);
        mip := Trap.WithBit(mip, 0x80, Some(timer));
        var lines := bus.Lines();
        var pending := bus.plic.PendingMask(lines);
        var irq := bus.plic.ClaimIrq(pending, Plic.SContext(hartid as int));
        mip := Trap.WithBit(mip, 0x200, Some(irq != 0));
      } else {
        mip := Trap.WithBit(Trap.WithBit(mip, 0x80, None), 0x200, None);
      }
      csrs.Insert(MIP, mip);
    }

    method PendingEnabled() returns (w: bv64)
      requires Valid()
      ensures w == Trap.Enabled(View())
    {
      var mip := csrs.Get(MIP);
      var mie := csrs.Get(MIE);
      w := mip & mie;
    }

    /** Whether the current mode and enables hold the cause back. */
    method Blocked(cause: bv6) returns (blocked: bool)
      requires Valid()
      ensures blocked == !Trap.Takeable(View(), cause)
    {
      hide Trap.BitAt, Trap.DelegationWord, Trap.Sie, Trap.Mie;
      var mstatus := csrs.Get(MSTATUS);
      var deleg := DelegationWord(true);
      var delegated := mode != PRIV_M && Trap.BitAt(deleg, cause);
      blocked := if delegated then mode == PRIV_S && !Trap.Sie(mstatus) else mode == PRIV_M && !Trap.Mie(mstatus);
    }

    /** The priority loop: takes the first deliverable cause, if there is one. */
    method TakeFirst(enabled: bv64) returns (taken: bool)
      requires Valid()
      modifies this, csrs.data
      ensures match Trap.FirstFrom(old(View()), enabled, 0)
              case None => !taken && View() == old(View())
              case Some(cause) =>
                var j := Trap.RaiseTrap(old(View()), cause, true, 0);
                taken && View() == j.hart.(pc := j.pc)
    {
      hide Trap.RaiseTrap, Trap.Pending, Trap.Takeable;
      for k := 0 to |Trap.PRIORITY|
        invariant View() == old(View())
        invariant Trap.FirstFrom(old(View()), enabled, 0) == Trap.FirstFrom(old(View()), enabled, k)
      {
        var cause := Trap.PRIORITY[k];
        if Trap.Pending(enabled, cause) {
          var blocked := Blocked(cause);
          if !blocked {
            pc := RaiseTrap(cause, true, 0);
            return true;
          }
        }
      }
      return false;
    }

    method CheckInterrupt(bus: Bus) returns (taken: bool)
      requires On(bus) && Machine.Wired(View(), bus.View())
      modifies this, csrs.data
      ensures View() == Machine.Boundary(old(View()), bus.View())
      ensures taken == Trap.CheckInterrupt(old(View()), Machine.TimerLine(old(View()), bus.View()),
                                           Machine.ExternalLine(old(View()), bus.View())).taken.Some?
    {
      hide Trap.SampledMip, Trap.RaiseTrap, Trap.Enabled, Trap.FirstFrom, Machine.TimerLine, Machine.ExternalLine;
      SampleLines(bus);
      var enabled := PendingEnabled();
      if enabled == 0 {
        return false;
      }
      taken := TakeFirst(enabled);
    }

    // ---------- mmu.rs ----------

    method Translate(bus: Bus, va: bv64, acc: Sv39Bits.Access) returns (pa: Result<bv64>)
      requires On(bus)
      modifies tlb.entries, bus.uart
      ensures On(bus) && bus.View() == old(bus.View())
      ensures var t := CpuTranslate(old(View()), bus.View(), va, acc);
              pa == t.pa && View() == old(View()).(tlb := t.tlb)
    {
      hide Sv39Bits.Bare, Mmu.Translate;
      var satp := csrs.Get(SATP);
      BareIsIdentity(tlb.View(), bus.View(), satp, va, acc);
      if Sv39Bits.Bare(satp) {
        return Ok(va);
      }
      pa := TranslatePaged(tlb, bus, satp, va, acc);
    }

    // ---------- cpu.rs: memory ----------

    method Read(bus: Bus, va: bv64, n: nat) returns (r: Result<bv64>)
      requires On(bus)
      modifies tlb.entries, bus.uart
      ensures On(bus)
      ensures Loaded(r, View(), bus.View()) == CpuRead(old(View()), old(bus.View()), va, n)
    {
      hide Mmu.Translate, SystemBus.Read, ToWord;
      var pa := Translate(bus, va, Sv39Bits.R);
      if pa.Err? {
        return Err(pa.error);
      }
      var v := bus.Read(pa.value as int, n);
      r := if v.Ok? then Ok(ToWord(v.value)) else Err(v.error);
    }

    method Write(bus: Bus, va: bv64, n: nat, v: bv64) returns (r: Result<Unit>)
      requires On(bus)
      modifies tlb.entries, bus.Footprint()
      ensures On(bus)
      ensures Rv64.Stored(r, View(), bus.View()) == CpuWrite(old(View()), old(bus.View()), va, n, v)
    {
      hide CpuTranslate, SystemBus.Write, FromWord;
      var pa := Translate(bus, va, Sv39Bits.W);
      if pa.Err? {
        return Err(pa.error);
      }
      ghost var h := View();
      r := bus.Write(pa.value as int, n, FromWord(v));
      assert View() == h;
    }

    // ---------- execute.rs ----------

    method SetRd(rd: bv5, v: bv64)
      requires Valid()
      modifies regs.data
      ensures View() == old(View()).SetReg(rd, v)
    {
      regs.Write(rd, v);
    }

    /** The same next to a bus, which does not notice. */
    method SetRdBeside(bus: Bus, rd: bv5, v: bv64)
      requires On(bus)
      modifies regs.data
      ensures On(bus) && bus.View() == old(bus.View()) && View() == old(View()).SetReg(rd, v)
    {
      SetRd(rd, v);
    }

    method BasePlus(r: bv5, offset: bv64) returns (a: bv64)
      requires Valid()
      ensures a == Address(View(), r, offset)
    {
      hide Add;
      var base := regs.Read(r);
      a := Add(base, offset);
    }

    method ExecuteLoad(i: Instruction, bus: Bus, next: bv64) returns (r: Result<bv64>)
      requires On(bus)
      modifies regs.data, tlb.entries, bus.uart
      ensures On(bus)
      ensures Outcome(r, View(), bus.View()) == Load(i, old(View()), old(bus.View()), next)
    {
      hide CpuRead, LoadValue, LoadSize, Address;
      var n := LoadSize(i.funct3);
      if n == 0 {
        return Err(IllegalInstruction);
      }
      var addr := BasePlus(i.rs1, i.immI);
      var v := Read(bus, addr, n);
      if v.Err? {
        return Err(v.error);
      }
      SetRd(i.rd, LoadValue(i.funct3, v.value));
      return Ok(next);
    }

    method ExecuteStore(i: Instruction, bus: Bus, next: bv64) returns (r: Result<bv64>)
      requires On(bus)
      modifies tlb.entries, bus.Footprint()
      ensures On(bus)
      ensures Outcome(r, View(), bus.View()) == Store(i, old(View()), old(bus.View()), next)
    {
      hide CpuWrite, StoreSize, Address;
      var n := StoreSize(i.funct3);
      if n == 0 {
        return Err(IllegalInstruction);
      }
      var addr := BasePlus(i.rs1, i.immS);
      var v := regs.Read(i.rs2);
      var w := Write(bus, addr, n, v);
      if w.Err? {
        return Err(w.error);
      }
      return Ok(next);
    }

    /** Reads the word, then stores v over it. */
    method Exchange(bus: Bus, addr: bv64, v: bv64) returns (word: Result<bv64>)
      requires On(bus)
      modifies tlb.entries, bus.Footprint()
      ensures On(bus)
      ensures Loaded(word, View(), bus.View()) == Exchanged(old(View()), old(bus.View()), addr, v)
    {
      hide CpuRead, CpuWrite;
      word := Read(bus, addr, 4);
      if word.Err? {
        return;
      }
      var w := Write(bus, addr, 4, v);
      if w.Err? {
        return Err(w.error);
      }
    }

    method ExecuteSwap(i: Instruction, bus: Bus, next: bv64) returns (r: Result<bv64>)
      requires On(bus) && SwapEncoding(i)
      modifies regs.data, tlb.entries, bus.Footprint()
      ensures On(bus)
      ensures Outcome(r, View(), bus.View()) == AmoSwap(i, old(View()), old(bus.View()), next)
    {
      hide Exchanged, SextWord, SwapEncoding;
      var addr := regs.Read(i.rs1);
      var v := regs.Read(i.rs2);
      var word := Exchange(bus, addr, v);
      if word.Err? {
        return Err(word.error);
      }
      SetRdBeside(bus, i.rd, SextWord(word.value));
      return Ok(next);
    }

    /** AMOSWAP.W; no other AMO is implemented. */
    method ExecuteAmo(i: Instruction, bus: Bus, next: bv64) returns (r: Result<bv64>)
      requires On(bus)
      modifies regs.data, tlb.entries, bus.Footprint()
      ensures On(bus)
      ensures Outcome(r, View(), bus.View()) == AmoSwap(i, old(View()), old(bus.View()), next)
    {
      hide Exchanged, SextWord, SwapEncoding;
      if SwapEncoding(i) {
        r := ExecuteSwap(i, bus, next);
      } else {
        r := Err(IllegalInstruction);
      }
    }

    method ExecuteCsr(i: Instruction)
      requires Valid()
      modifies regs.data, csrs.data, tlb.entries
      ensures View() == CsrOp(i, old(View()))
    {
      hide Trap.CsrRead, Trap.CsrWrite, CsrUpdate;
      var operand := regs.Read(i.rs1);
      if i.funct3 & 4 != 0 {
        operand := i.rs1 as bv64;
      }
      var csr := CsrRead(i.csr as int);
      SetRd(i.rd, csr);
      CsrWrite(i.csr as int, CsrUpdate(i.funct3, csr, operand));
    }

    method ExecuteSystem(i: Instruction, next: bv64, ghost b: SystemBus.Bus) returns (r: Result<bv64>)
      requires Valid()
      modifies this, regs.data, csrs.data, tlb.entries
      ensures Outcome(r, View(), b) == System(i, old(View()), b, next)
    {
      hide CsrOp, Trap.RaiseTrap, Trap.Sret, Trap.Mret;
      if i.funct3 == 4 {
        return Err(IllegalInstruction);
      } else if i.funct3 != 0 {
        ExecuteCsr(i);
        return Ok(next);
      } else if i.funct7 == 0 && i.rs2 == 0 {
        var handler := RaiseTrap(8 + (mode as bv6), false, 0);
        return Ok(handler);
      } else if i.funct7 == 8 && i.rs2 == 2 {
        var target := Sret();
        return Ok(target);
      } else if i.funct7 == 8 && i.rs2 == 5 {
        return Ok(next);
      } else if i.funct7 == 9 {
        tlb.Flush();
        return Ok(next);
      } else if i.funct7 == 0x18 {
        var target := Mret();
        return Ok(target);
      }
      return Err(IllegalInstruction);
    }

    method ExecuteBranch(i: Instruction, next: bv64, ghost b: SystemBus.Bus) returns (r: Result<bv64>)
      requires Valid()
      ensures Outcome(r, View(), b) == Branch(i, View(), b, next)
    {
      hide Taken, Add;
      var x := regs.Read(i.rs1);
      var y := regs.Read(i.rs2);
      match Taken(i.funct3, x, y)
      case None => return Err(IllegalInstruction);
      case Some(taken) => return Ok(if taken then Add(pc, i.immB) else next);
    }

    /** Writes a computed result to rd; an unassigned encoding is illegal. */
    method Finish(rd: bv5, out: Option<bv64>, next: bv64, ghost b: SystemBus.Bus) returns (r: Result<bv64>)
      requires Valid()
      modifies regs.data
      ensures Outcome(r, View(), b) == Compute(old(View()), b, rd, out, next)
    {
      match out
      case None => return Err(IllegalInstruction);
      case Some(v) =>
        SetRd(rd, v);
        return Ok(next);
    }

    /** Register-only instructions. */
    method ExecuteCompute(i: Instruction, next: bv64, ghost b: SystemBus.Bus) returns (r: Result<bv64>)
      requires Valid() && i.opcode in {0x13, 0x17, 0x1b, 0x33, 0x37, 0x3b}
      modifies regs.data
      ensures Outcome(r, View(), b) == Rv64.Execute(i, old(View()), b, next)
    {
      hide OpImm, OpImm32, Op, Op32, Add, Compute, Load, Store, AmoSwap, Branch, System, Even;
      var x := regs.Read(i.rs1);
      var y := regs.Read(i.rs2);
      var out: Option<bv64>;
      match i.opcode {
        case 0x13 => out := Some(OpImm(i.funct3, i.funct7, x, i.immI, i.shamt));
        case 0x17 => out := Some(Add(pc, i.immU));
        case 0x1b => out := OpImm32(i.funct3, i.funct7, x, i.immI, i.shamt);
        case 0x33 => out := Op(i.funct3, i.funct7, x, y);
        case 0x37 => out := Some(i.immU);
        case _ => out := Op32(i.funct3, i.funct7, x, y);
      }
      r := Finish(i.rd, out, next, b);
    }

    /** Fences, branches, jumps and SYSTEM: no memory access. */
    method ExecuteControl(i: Instruction, next: bv64, ghost b: SystemBus.Bus) returns (r: Result<bv64>)
      requires Valid() && i.opcode in {0x0f, 0x63, 0x67, 0x6f, 0x73}
      modifies Footprint()
      ensures Outcome(r, View(), b) == Rv64.Execute(i, old(View()), b, next)
    {
      hide OpImm, OpImm32, Op, Op32, Add, Compute, Load, Store, AmoSwap, Branch, System, Even;
      match i.opcode
      case 0x63 => r := ExecuteBranch(i, next, b);
      case 0x67 =>
        var base := regs.Read(i.rs1);
        SetRd(i.rd, next);
        r := Ok(Even(Add(base, i.immI)));
      case 0x6f =>
        SetRd(i.rd, next);
        r := Ok(Add(pc, i.immJ));
      case 0x73 => r := ExecuteSystem(i, next, b);
      case _ => r := Ok(next);
    }

    /** One decoded instruction; returns the next pc, which the caller commits. */
    method Execute(i: Instruction, bus: Bus, next: bv64) returns (r: Result<bv64>)
      requires On(bus)
      modifies Footprint(), bus.Footprint()
      ensures On(bus)
      ensures Outcome(r, View(), bus.View()) == Rv64.Execute(i, old(View()), old(bus.View()), next)
    {
      hide Load, Store, AmoSwap, System, Branch, OpImm, OpImm32, Op, Op32, Compute, Add, Even;
      match i.opcode
      case 0x03 => r := ExecuteLoad(i, bus, next);
      case 0x23 => r := ExecuteStore(i, bus, next);
      case 0x2f => r := ExecuteAmo(i, bus, next);
      case _ =>
        if i.opcode in {0x0f, 0x63, 0x67, 0x6f, 0x73} {
          r := ExecuteControl(i, next, bus.View());
        } else if i.opcode in {0x13, 0x17, 0x1b, 0x33, 0x37, 0x3b} {
          r := ExecuteCompute(i, next, bus.View());
        } else {
          r := Err(IllegalInstruction);
        }
    }

    // ---------- rvc.rs ----------

    method FallThrough() returns (next: bv64)
      requires Valid()
      ensures next == Rvc.Next(View())
    {
      next := pc + 2;
    }

    method CompressedResult(rd: bv5, v: bv64, ghost b: SystemBus.Bus) returns (r: Result<bv64>)
      requires Valid()
      modifies regs.data
      ensures Outcome(r, View(), b) == Rvc.Result(old(View()), b, rd, v)
    {
      hide Rvc.Next;
      var next := FallThrough();
      SetRd(rd, v);
      return Ok(next);
    }

    method CompressedLoad(bus: Bus, addr: bv64, rd: bv5, wide: bool) returns (r: Result<bv64>)
      requires On(bus)
      modifies regs.data, tlb.entries, bus.uart
      ensures On(bus)
      ensures Outcome(r, View(), bus.View()) ==
              if wide then Rvc.CLoadDouble(old(View()), old(bus.View()), addr, rd)
              else Rvc.CLoadWord(old(View()), old(bus.View()), addr, rd)
    {
      hide CpuRead, SextWord, Rvc.Next;
      var next := FallThrough();
      var v := Read(bus, addr, if wide then 8 else 4);
      if v.Err? {
        return v;
      }
      SetRd(rd, if wide then v.value else SextWord(v.value));
      return Ok(next);
    }

    method CompressedStore(bus: Bus, addr: bv64, n: nat, v: bv64) returns (r: Result<bv64>)
      requires On(bus)
      modifies tlb.entries, bus.Footprint()
      ensures On(bus)
      ensures Outcome(r, View(), bus.View()) == Rvc.CStore(old(View()), old(bus.View()), addr, n, v)
    {
      hide CpuWrite, Rvc.Next;
      var next := FallThrough();
      var w := Write(bus, addr, n, v);
      if w.Err? {
        return Err(w.error);
      }
      return Ok(next);
    }

    method CompressedQuadrant0(c: bv16, bus: Bus) returns (r: Result<bv64>)
      requires On(bus)
      modifies regs.data, tlb.entries, bus.Footprint()
      ensures On(bus)
      ensures Outcome(r, View(), bus.View()) == Rvc.Quadrant0(c, old(View()), old(bus.View()))
    {
      hide Rvc.Result, Rvc.CLoadWord, Rvc.CLoadDouble, Rvc.CStore, Add, Address, Rvc.CFunct3, Rvc.Rs1Prime,
        Rvc.Rs2Prime, Rvc.Offset62, Rvc.Offset73, Rvc.Nzuimm92;
      var rd, base := Rvc.Rs2Prime(c), Rvc.Rs1Prime(c);
      match Rvc.CFunct3(c)
      case 0 =>
        if Rvc.Nzuimm92(c) == 0 {
          return Err(ZeroImmediate);
        }
        var sp := regs.Read(2);
        r := CompressedResult(rd, Add(sp, Rvc.Nzuimm92(c) as bv64), bus.View());
      case 2 =>
        var addr := BasePlus(base, Rvc.Offset62(c) as bv64);
        r := CompressedLoad(bus, addr, rd, false);
      case 3 =>
        var addr := BasePlus(base, Rvc.Offset73(c) as bv64);
        r := CompressedLoad(bus, addr, rd, true);
      case 6 =>
        var addr := BasePlus(base, Rvc.Offset62(c) as bv64);
        var v := regs.Read(rd);
        r := CompressedStore(bus, addr, 4, v);
      case 7 =>
        var addr := BasePlus(base, Rvc.Offset73(c) as bv64);
        var v := regs.Read(rd);
        r := CompressedStore(bus, addr, 8, v);
      case _ =>
        r := Err(IllegalInstruction);
    }

    method CompressedAlu(c: bv16, ghost b: SystemBus.Bus) returns (r: Result<bv64>)
      requires Valid()
      modifies regs.data
      ensures Outcome(r, View(), b) == Rvc.CAlu(c, old(View()), b)
    {
      hide Rvc.Result, Add, Sub, Xor, Or, And, SextWord, Rvc.Rs1Prime, Rvc.Rs2Prime, Rvc.CFunct2, Rvc.CFunct6;
      var rd := Rvc.Rs1Prime(c);
      var x := regs.Read(rd);
      var y := regs.Read(Rvc.Rs2Prime(c));
      var v: bv64;
      if Rvc.CFunct6(c) & 4 == 0 {
        match Rvc.CFunct2(c)
        case 0 => v := Sub(x, y);
        case 1 => v := Xor(x, y);
        case 2 => v := Or(x, y);
        case 3 => v := And(x, y);
      } else {
        match Rvc.CFunct2(c)
        case 0 => v := SextWord(Sub(x, y));
        case 1 => v := SextWord(Add(x, y));
        case _ => return Err(IllegalInstruction);
      }
      r := CompressedResult(rd, v, b);
    }

    method CompressedMisc(c: bv16, ghost b: SystemBus.Bus) returns (r: Result<bv64>)
      requires Valid()
      modifies regs.data
      ensures Outcome(r, View(), b) == Rvc.CMisc(c, old(View()), b)
    {
      hide Rvc.Result, Rvc.CAlu, Shr, Sra, And, Rvc.Rs1Prime, Rvc.CFunct6, Rvc.ShamtC, Rvc.Imm5;
      var rd, shamt := Rvc.Rs1Prime(c), Rvc.ShamtC(c);
      var x := regs.Read(rd);
      match (Rvc.CFunct6(c) & 3) as bv2
      case 0 =>
        if shamt == 0 {
          return Err(ZeroImmediate);
        }
        r := CompressedResult(rd, Shr(x, shamt), b);
      case 1 =>
        if shamt == 0 {
          return Err(ZeroImmediate);
        }
        r := CompressedResult(rd, Sra(x, shamt), b);
      case 2 => r := CompressedResult(rd, And(x, Rvc.Imm5(c)), b);
      case 3 => r := CompressedAlu(c, b);
    }

    method CompressedLui(c: bv16, ghost b: SystemBus.Bus) returns (r: Result<bv64>)
      requires Valid()
      modifies regs.data
      ensures Outcome(r, View(), b) == Rvc.CLui(c, old(View()), b)
    {
      hide Rvc.Result, Add, Rvc.CRd, Rvc.Imm5, Rvc.Nzimm94;
      var rd := Rvc.CRd(c);
      if rd == 2 {
        if Rvc.Nzimm94(c) == 0 {
          return Err(ZeroImmediate);
        }
        var sp := regs.Read(2);
        r := CompressedResult(2, Add(sp, Rvc.Nzimm94(c)), b);
      } else if rd == 0 {
        r := Err(IllegalInstruction);
      } else if Rvc.Imm5(c) == 0 {
        r := Err(ZeroImmediate);
      } else {
        r := CompressedResult(rd, Rvc.Imm5(c) << 12, b);
      }
    }

    method CompressedQuadrant1(c: bv16, ghost b: SystemBus.Bus) returns (r: Result<bv64>)
      requires Valid()
      modifies regs.data
      ensures Outcome(r, View(), b) == Rvc.Quadrant1(c, old(View()), b)
    {
      hide Rvc.Result, Rvc.CMisc, Rvc.CLui, Add, SextWord, Rvc.Next, Rvc.CFunct3, Rvc.CRd, Rvc.Rs1Prime, Rvc.Imm5,
        Rvc.Offset111, Rvc.Offset81;
      var rd := Rvc.CRd(c);
      var x := regs.Read(rd);
      var y := regs.Read(Rvc.Rs1Prime(c));
      var next := FallThrough();
      match Rvc.CFunct3(c)
      case 0 => r := CompressedResult(rd, Add(x, Rvc.Imm5(c)), b);
      case 1 =>
        if rd == 0 {
          return Err(IllegalInstruction);
        }
        r := CompressedResult(rd, SextWord(Add(x, Rvc.Imm5(c))), b);
      case 2 =>
        if rd == 0 {
          return Err(IllegalInstruction);
        }
        r := CompressedResult(rd, Rvc.Imm5(c), b);
      case 3 => r := CompressedLui(c, b);
      case 4 => r := CompressedMisc(c, b);
      case 5 => r := Ok(Add(pc, Rvc.Offset111(c)));
      case 6 => r := Ok(if y == 0 then Add(pc, Rvc.Offset81(c)) else next);
      case 7 => r := Ok(if y != 0 then Add(pc, Rvc.Offset81(c)) else next);
    }

    method CompressedJumpOrMove(c: bv16, ghost b: SystemBus.Bus) returns (r: Result<bv64>)
      requires Valid()
      modifies regs.data
      ensures Outcome(r, View(), b) == Rvc.CJumpOrMove(c, old(View()), b)
    {
      hide Rvc.Result, Add, Rvc.Next, Rvc.CRd, Rvc.CRs2, Rvc.CBit12;
      var rd, rs2 := Rvc.CRd(c), Rvc.CRs2(c);
      var x := regs.Read(rd);
      var y := regs.Read(rs2);
      var next := FallThrough();
      if Rvc.CBit12(c) == 0 {
        if rd == 0 {
          r := Err(IllegalInstruction);
        } else if rs2 != 0 {
          r := CompressedResult(rd, y, b);
        } else {
          r := Ok(x);
        }
      } else if rs2 != 0 {
        if rd == 0 {
          return Err(IllegalInstruction);
        }
        r := CompressedResult(rd, Add(x, y), b);
      } else if rd != 0 {
        SetRd(1, next);
        r := Ok(x);
      } else {
        r := Err(IllegalInstruction);
      }
    }

    method CompressedQuadrant2(c: bv16, bus: Bus) returns (r: Result<bv64>)
      requires On(bus)
      modifies regs.data, tlb.entries, bus.Footprint()
      ensures On(bus)
      ensures Outcome(r, View(), bus.View()) == Rvc.Quadrant2(c, old(View()), old(bus.View()))
    {
      hide Rvc.Result, Rvc.CLoadDouble, Rvc.CLoadWord, Rvc.CStore, Rvc.CJumpOrMove, Shl, Address, Rvc.CFunct3,
        Rvc.CRd, Rvc.CRs2, Rvc.ShamtC, Rvc.Offset83Ldsp, Rvc.Offset83Sdsp;
      var rd, shamt := Rvc.CRd(c), Rvc.ShamtC(c);
      match Rvc.CFunct3(c)
      case 0 =>
        if shamt == 0 {
          return Err(ZeroImmediate);
        }
        var x := regs.Read(rd);
        r := CompressedResult(rd, Shl(x, shamt), bus.View());
      case 3 =>
        if rd == 0 {
          return Err(IllegalInstruction);
        }
        var addr := BasePlus(2, Rvc.Offset83Ldsp(c) as bv64);
        r := CompressedLoad(bus, addr, rd, true);
      case 4 => r := CompressedJumpOrMove(c, bus.View());
      case 7 =>
        var addr := BasePlus(2, Rvc.Offset83Sdsp(c) as bv64);
        var v := regs.Read(Rvc.CRs2(c));
        r := CompressedStore(bus, addr, 8, v);
      case _ => r := Err(IllegalInstruction);
    }

    method ExecuteCompressed(c: bv16, bus: Bus) returns (r: Result<bv64>)
      requires On(bus)
      modifies regs.data, tlb.entries, bus.Footprint()
      ensures On(bus)
      ensures Outcome(r, View(), bus.View()) == Rvc.CExecute(c, old(View()), old(bus.View()))
    {
      hide Rvc.Quadrant0, Rvc.Quadrant1, Rvc.Quadrant2, Rvc.COp;
      match Rvc.COp(c)
      case 0 => r := CompressedQuadrant0(c, bus);
      case 1 => r := CompressedQuadrant1(c, bus.View());
      case 2 => r := CompressedQuadrant2(c, bus);
      case 3 => r := Err(IllegalInstruction);
    }

    // ---------- cpu.rs: fetch and step ----------

    /** Ticks the timer and, when its countdown runs out, polls the serial port. */
    method TickDevices(bus: Bus, input: seq<u8>)
      requires On(bus)
      modifies this, bus.clint, bus.uart
      ensures On(bus)
      ensures (View(), bus.View()) == Machine.Tick(old(View()), old(bus.View()), input)
    {
      if attached {
        bus.clint.Tick();
        pollCountdown := pollCountdown - 1;
        if pollCountdown <= 0 {
          bus.uart.PollInput(input);
          pollCountdown := Machine.UART_POLL_INTERVAL;
        }
      }
    }

    method FetchWord(bus: Bus) returns (word: Result<bv32>)
      requires On(bus)
      modifies tlb.entries, bus.uart
      ensures On(bus) && bus.View() == old(bus.View())
      ensures Machine.Fetched(word, View()) == Machine.Fetch(old(View()), bus.View())
    {
      hide CpuTranslate, SystemBus.Read, ToWord, LowWord;
      var pa := Translate(bus, pc, Sv39Bits.X);
      if pa.Err? {
        return Err(pa.error);
      }
      var v := bus.Read(pa.value as int, 4);
      word := if v.Ok? then Ok(LowWord(ToWord(v.value))) else Err(v.error);
    }

    /** Interrupts are sampled between instructions, then the word at pc is read. */
    method Fetch(bus: Bus, input: seq<u8>) returns (word: Result<bv32>)
      requires On(bus) && Machine.Wired(View(), bus.View())
      modifies Footprint(), bus.Footprint()
      ensures On(bus)
      ensures bus.View() == Machine.Ticked(old(View()), old(bus.View()), input)
      ensures Machine.Fetched(word, View()) == Machine.Fetching(old(View()), old(bus.View()), input)
    {
      hide Machine.Tick, Machine.Boundary, Machine.Fetch, Trap.CheckInterrupt, Machine.TimerLine,
        Machine.ExternalLine;
      TickDevices(bus, input);
      var taken := CheckInterrupt(bus);
      word := FetchWord(bus);
    }

    /** Executes the word, full or compressed. */
    method ExecuteWord(word: bv32, bus: Bus) returns (r: Result<bv64>)
      requires On(bus)
      modifies Footprint(), bus.Footprint()
      ensures On(bus)
      ensures Outcome(r, View(), bus.View()) ==
              if Machine.IsFull(word) then
                Rv64.Execute(Decode(word), old(View()), old(bus.View()), Add(old(View()).pc, 4))
              else Rvc.CExecute(Machine.Half(word), old(View()), old(bus.View()))
    {
      hide Rv64.Execute, Rvc.CExecute, Decode, Machine.IsFull, Machine.Half, Add;
      if Machine.IsFull(word) {
        r := Execute(Decode(word), bus, Add(pc, 4));
      } else {
        r := ExecuteCompressed(Machine.Half(word), bus);
      }
    }

    method SetPcBeside(bus: Bus, target: bv64)
      requires On(bus)
      modifies this`pc
      ensures On(bus) && bus.View() == old(bus.View()) && View() == old(View()).(pc := target)
    {
      pc := target;
    }

    /** Executes the word and commits the pc on success. */
    method Perform(word: bv32, bus: Bus) returns (r: Result<bv64>)
      requires On(bus)
      modifies Footprint(), bus.Footprint()
      ensures On(bus)
      ensures Outcome(r, View(), bus.View()) == Machine.Perform(word, old(View()), old(bus.View()))
    {
      hide Rv64.Execute, Rvc.CExecute, Decode, Machine.IsFull, Machine.Half, Add;
      r := ExecuteWord(word, bus);
      if r.Ok? {
        SetPcBeside(bus, r.value);
      }
    }

    /** One fetch and execute step. */
    method Step(bus: Bus, input: seq<u8>) returns (r: Result<bv64>)
      requires On(bus) && Machine.Wired(View(), bus.View())
      modifies Footprint(), bus.Footprint()
      ensures On(bus)
      ensures Outcome(r, View(), bus.View()) == Machine.Step(old(View()), old(bus.View()), input)
    {
      hide Machine.Ticked, Machine.Fetching, Machine.Perform, Machine.Step, View, BusObject.Bus.View;
      StepIsFetchThenPerform(View(), bus.View(), input);
      var word := Fetch(bus, input);
      if word.Err? {
        return Err(word.error);
      }
      r := Perform(word.value, bus);
    }
  }

  lemma StepIsFetchThenPerform(h: Hart, b: SystemBus.Bus, input: seq<u8>)
    requires Machine.Wired(h, b)
    ensures var f, b1 := Machine.Fetching(h, b, input), Machine.Ticked(h, b, input);
            && (f.word.Err? ==> Machine.Step(h, b, input) == Outcome(Err(f.word.error), f.hart, b1))
            && (f.word.Ok? ==> Machine.Step(h, b, input) == Machine.Perform(f.word.value, f.hart, b1))
  {
    hide Machine.Ticked, Machine.Fetching, Machine.Perform;
  }
}
