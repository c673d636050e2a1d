/** Bit tests on machine words held as naturals. */
module Bits {
  predicate Bit(m: nat, i: nat) {
    if i == 0 then m % 2 == 1 else Bit(m / 2, i - 1)
  }

  /** Bitwise and. */
  function And(a: nat, b: nat): nat {
    if a == 0 then 0 else (a % 2) * (b % 2) + 2 * And(a / 2, b / 2)
  }

  /** m | 1 << i. */
  function SetBit(m: nat, i: nat): nat {
    if i == 0 then m / 2 * 2 + 1 else m % 2 + 2 * SetBit(m / 2, i - 1)
  }

  lemma {:induction false} BitOfZero(i: nat)
    ensures !Bit(0, i)
  {
    if i > 0 {
      BitOfZero(i - 1);
    }
  }

  lemma {:induction false} BitOfAnd(a: nat, b: nat, i: nat)
    ensures Bit(And(a, b), i) <==> Bit(a, i) && Bit(b, i)
    decreases i
  {
    if a == 0 {
      BitOfZero(i);
    } else {
      assert (a % 2) * (b % 2) == if a % 2 == 1 && b % 2 == 1 then 1 else 0;
      if i > 0 {
        BitOfAnd(a / 2, b / 2, i - 1);
      }
    }
  }

  lemma {:induction false} BitOfSet(m: nat, k: nat, i: nat)
    ensures Bit(SetBit(m, k), i) <==> i == k || Bit(m, i)
    decreases i
  {
    if i > 0 && k > 0 {
      BitOfSet(m / 2, k - 1, i - 1);
    }
  }
}

/** The core-local timer (clint.rs). */
module Clint {
  import opened Base

  const MTIME_OFFSET := 0xbff8
  const MTIMECMP_OFFSET := 0x4000

  datatype State = State(mtime: u64, mtimecmp: seq<u64>) {
    function Tick(): State {
      this.(mtime := (mtime + 1) % TWO_64)
    }

    predicate Pending(hart: nat)
      requires hart < |mtimecmp|
    {
      mtime >= mtimecmp[hart]
    }

    /** The hart whose mtimecmp register the offset addresses. */
    function Owner(offset: nat): Option<nat> {
      if MTIMECMP_OFFSET <= offset < MTIMECMP_OFFSET + 8 * |mtimecmp| then Some((offset - MTIMECMP_OFFSET) / 8)
      else None
    }

    function Read(offset: nat, size: nat): (r: Result<u64>) {
      if size != 8 then Err(BadSize)
      else if offset == MTIME_OFFSET then Ok(mtime)
      else if Owner(offset).Some? then Ok(mtimecmp[Owner(offset).value])
      else Ok(0)
    }

    function Write(offset: nat, size: nat, value: u64): (r: Result<State>)
      ensures r.Ok? ==> |r.value.mtimecmp| == |mtimecmp|
    {
      if size != 8 then Err(BadSize)
      else if offset == MTIME_OFFSET then Ok(this.(mtime := value))
      else if Owner(offset).Some? then Ok(this.(mtimecmp := mtimecmp[Owner(offset).value := value]))
      else Ok(this)
    }
  }

  /** A write that is neither to mtime nor to this hart's own register leaves its timer line alone. */
  lemma TimerIsolation(c: State, offset: nat, size: nat, value: u64, hart: nat)
    requires hart < |c.mtimecmp| && c.Write(offset, size, value).Ok?
    requires offset != MTIME_OFFSET && c.Owner(offset) != Some(hart)
    ensures c.Write(offset, size, value).value.Pending(hart) == c.Pending(hart)
  {
  }
}

/** The interrupt controller (plic.rs). */
module Plic {
  import opened Base
  import opened Bits

  const PRIORITY_END := 0x1000
  const ENABLE_BASE := 0x2000
  const ENABLE_END := 0x1f2000
  const ENABLE_STRIDE := 0x80
  const CONTEXT_BASE := 0x200000
  const CONTEXT_STRIDE := 0x1000
  const THRESHOLD_OFFSET := 0
  const CLAIM_OFFSET := 4
  const MAX_IRQ := 32
  const MAX_CONTEXTS := 64

  type IrqWords = s: seq<u32> | |s| == MAX_IRQ witness seq(MAX_IRQ, _ => 0)
  type ContextWords = s: seq<u32> | |s| == MAX_CONTEXTS witness seq(MAX_CONTEXTS, _ => 0)

  /** An interrupt source: its number and whether its line is raised. */
  datatype Line = Line(irq: nat, raised: bool)

  datatype State = State(priority: IrqWords, enable: ContextWords, threshold: ContextWords) {
    function Enable(ctx: nat): u32 {
      if ctx < MAX_CONTEXTS then enable[ctx] else 0
    }

    function Threshold(ctx: nat): u32 {
      if ctx < MAX_CONTEXTS then threshold[ctx] else 0
    }

    /** The source is enabled for the context and its priority is above the context's threshold. */
    predicate Claimable(pending: nat, ctx: nat, irq: nat) {
      && 1 <= irq < MAX_IRQ
      && Bit(pending, irq) && Bit(Enable(ctx), irq)
      && priority[irq] > Threshold(ctx)
    }

    /** What claim_irq must return: the lowest-numbered claimable source of maximal priority,
        0 when there is none. */
    ghost predicate IsBest(pending: nat, ctx: nat, best: nat) {
      if best == 0 then forall irq: nat :: !Claimable(pending, ctx, irq)
      else
        && Claimable(pending, ctx, best)
        && (forall irq: nat :: Claimable(pending, ctx, irq) ==> priority[irq] <= priority[best])
        && (forall irq: nat :: Claimable(pending, ctx, irq) && irq < best ==> priority[irq] < priority[best])
    }

    function Read(pending: nat, offset: nat, size: nat): (r: Result<u32>) {
      if size != 4 then Err(BadSize)
      else if offset < PRIORITY_END then
        Ok(if offset / 4 < MAX_IRQ then priority[offset / 4] else 0)
      else if ENABLE_BASE <= offset < ENABLE_END then Ok(Enable((offset - ENABLE_BASE) / ENABLE_STRIDE))
      else if offset >= CONTEXT_BASE then
        var ctx, reg := (offset - CONTEXT_BASE) / CONTEXT_STRIDE, (offset - CONTEXT_BASE) % CONTEXT_STRIDE;
        if reg == THRESHOLD_OFFSET then Ok(Threshold(ctx))
        else if reg == CLAIM_OFFSET then Ok(Claim(this, pending, ctx))
        else Ok(0)
      else Ok(0)
    }

    function Write(offset: nat, size: nat, value: nat): (r: Result<State>) {
      if size != 4 then Err(BadSize)
      else
        var word := value % TWO_32;
        if offset < PRIORITY_END then
          Ok(if offset / 4 < MAX_IRQ then this.(priority := priority[offset / 4 := word]) else this)
        else if ENABLE_BASE <= offset < ENABLE_END then
          var ctx := (offset - ENABLE_BASE) / ENABLE_STRIDE;
          Ok(if ctx < MAX_CONTEXTS then this.(enable := enable[ctx := word]) else this)
        else if offset >= CONTEXT_BASE then
          var ctx, reg := (offset - CONTEXT_BASE) / CONTEXT_STRIDE, (offset - CONTEXT_BASE) % CONTEXT_STRIDE;
          Ok(if reg == THRESHOLD_OFFSET && ctx < MAX_CONTEXTS then this.(threshold := threshold[ctx := word]) else this)
        else Ok(this)
    }
  }

  /** claim_irq's scan from irq upwards with the best source so far. */
  function Scan(p: State, candidates: nat, irq: nat, best: nat, bestPriority: nat): (r: nat)
    requires irq <= MAX_IRQ && best < MAX_IRQ
    ensures r < MAX_IRQ
    decreases MAX_IRQ - irq
  {
    if irq == MAX_IRQ then best
    else if Bit(candidates, irq) && p.priority[irq] > bestPriority then
      Scan(p, candidates, irq + 1, irq, p.priority[irq])
    else Scan(p, candidates, irq + 1, best, bestPriority)
  }

  function Claim(p: State, pending: nat, ctx: nat): nat {
    Scan(p, And(pending, p.Enable(ctx)), 1, 0, p.Threshold(ctx))
  }

  /** pending_mask: one bit per raised line. */
  function PendingMask(lines: seq<Line>): nat {
    if lines == [] then 0
    else
      var n := |lines| - 1;
      if lines[n].raised then SetBit(PendingMask(lines[..n]), lines[n].irq) else PendingMask(lines[..n])
  }

  lemma {:induction false} MaskIsRaisedLines(lines: seq<Line>, irq: nat)
    ensures Bit(PendingMask(lines), irq) <==> exists i :: 0 <= i < |lines| && lines[i] == Line(irq, true)
  {
    if lines == [] {
      BitOfZero(irq);
    } else {
      var n := |lines| - 1;
      MaskIsRaisedLines(lines[..n], irq);
      BitOfSet(PendingMask(lines[..n]), lines[n].irq, irq);
      assert forall i :: 0 <= i < n ==> lines[..n][i] == lines[i];
      if lines[n] == Line(irq, true) {
        assert exists i :: 0 <= i < |lines| && lines[i] == Line(irq, true);
      }
    }
  }

  /** The best claimable source is unique, and the scan returns it. */
  lemma BestIsUnique(p: State, pending: nat, ctx: nat, a: nat, b: nat)
    requires p.IsBest(pending, ctx, a) && p.IsBest(pending, ctx, b)
    ensures a == b
  {
  }

  lemma ClaimIsBest(p: State, pending: nat, ctx: nat)
    ensures p.IsBest(pending, ctx, Claim(p, pending, ctx))
  {
    ScanIsBest(p, pending, ctx, 1, 0, p.Threshold(ctx));
  }

  /** The scan's state after the sources below irq: best among those. */
  ghost predicate BestBelow(p: State, pending: nat, ctx: nat, irq: nat, best: nat, bestPriority: nat) {
    && best < MAX_IRQ
    && (best == 0 ==> bestPriority == p.Threshold(ctx))
    && (best > 0 ==> best < irq && p.Claimable(pending, ctx, best) && bestPriority == p.priority[best])
    && (forall k :: 1 <= k < irq && p.Claimable(pending, ctx, k) ==> p.priority[k] <= bestPriority)
    && (forall k :: 1 <= k < best && p.Claimable(pending, ctx, k) ==> p.priority[k] < bestPriority)
  }

  lemma ScanStep(p: State, pending: nat, ctx: nat, irq: nat, best: nat, bestPriority: nat)
    requires 1 <= irq < MAX_IRQ && BestBelow(p, pending, ctx, irq, best, bestPriority)
    ensures Bit(And(pending, p.Enable(ctx)), irq) <==> Bit(pending, irq) && Bit(p.Enable(ctx), irq)
    ensures if Bit(And(pending, p.Enable(ctx)), irq) && p.priority[irq] > bestPriority
            then BestBelow(p, pending, ctx, irq + 1, irq, p.priority[irq])
            else BestBelow(p, pending, ctx, irq + 1, best, bestPriority)
  {
    BitOfAnd(pending, p.Enable(ctx), irq);
    hide Bit, And;
  }

  lemma {:induction false} ScanIsBest(p: State, pending: nat, ctx: nat, irq: nat, best: nat, bestPriority: nat)
    requires 1 <= irq <= MAX_IRQ && BestBelow(p, pending, ctx, irq, best, bestPriority)
    ensures p.IsBest(pending, ctx, Scan(p, And(pending, p.Enable(ctx)), irq, best, bestPriority))
    decreases MAX_IRQ - irq
  {
    hide Bit, And;
    if irq < MAX_IRQ {
      ScanStep(p, pending, ctx, irq, best, bestPriority);
      if Bit(And(pending, p.Enable(ctx)), irq) && p.priority[irq] > bestPriority {
        ScanIsBest(p, pending, ctx, irq + 1, irq, p.priority[irq]);
      } else {
        ScanIsBest(p, pending, ctx, irq + 1, best, bestPriority);
      }
    }
  }

  /** The register window through which one context is configured. */
  predicate InContext(offset: nat, ctx: nat) {
    || (ENABLE_BASE <= offset < ENABLE_END && (offset - ENABLE_BASE) / ENABLE_STRIDE == ctx)
    || (offset >= CONTEXT_BASE && (offset - CONTEXT_BASE) / CONTEXT_STRIDE == ctx)
  }

  /** Writes outside the shared priorities and a context's own window never change what that
      context claims. */
  lemma ContextIsolation(p: State, offset: nat, size: nat, value: nat, pending: nat, ctx: nat)
    requires p.Write(offset, size, value).Ok?
    requires offset >= PRIORITY_END && !InContext(offset, ctx)
    ensures Claim(p.Write(offset, size, value).value, pending, ctx) == Claim(p, pending, ctx)
  {
    var p' := p.Write(offset, size, value).value;
    assert p'.Enable(ctx) == p.Enable(ctx) && p'.Threshold(ctx) == p.Threshold(ctx);
    SameScan(p, p', And(pending, p.Enable(ctx)), 1, 0, p.Threshold(ctx));
  }

  /** Source 1 enabled and above the threshold for every context. */
  function AllOpen(): State {
    State(seq(MAX_IRQ, _ => 1), seq(MAX_CONTEXTS, _ => 2), seq(MAX_CONTEXTS, _ => 0))
  }

  lemma OpenClaims(ctx: nat)
    requires ctx < MAX_CONTEXTS
    ensures Claim(AllOpen(), 2, ctx) != 0
  {
    ClaimIsBest(AllOpen(), 2, ctx);
    assert Bit(1, 0);
    assert AllOpen().Claimable(2, ctx, 1);
  }

  lemma NothingClaimed(p: State, pending: nat, ctx: nat)
    requires ctx >= MAX_CONTEXTS
    ensures Claim(p, pending, ctx) == 0
  {
    ClaimIsBest(p, pending, ctx);
    if Claim(p, pending, ctx) != 0 {
      BitOfZero(Claim(p, pending, ctx));
      assert false;
    }
  }

  /** A hart's supervisor context. */
  function SContext(hart: nat): nat {
    2 * hart + 1
  }

  /** claimable() for the hart's supervisor context. */
  predicate Interrupts(p: State, pending: nat, hart: nat) {
    Claim(p, pending, SContext(hart)) != 0
  }

  /** The hart bound of new_smp is exact: the controller can interrupt a hart's supervisor context
      2h + 1 for some configuration if and only if h < 32. */
  lemma ReachableIff(hart: nat)
    ensures (exists p: State, pending: nat :: Interrupts(p, pending, hart)) <==> hart < MAX_CONTEXTS / 2
  {
    if hart < MAX_CONTEXTS / 2 {
      OpenClaims(SContext(hart));
      assert Interrupts(AllOpen(), 2, hart);
    } else {
      forall p: State, pending: nat
        ensures !Interrupts(p, pending, hart)
      {
        NothingClaimed(p, pending, SContext(hart));
      }
    }
  }

  lemma {:induction false} SameScan(p: State, p': State, candidates: nat, irq: nat, best: nat, bestPriority: nat)
    requires irq <= MAX_IRQ && best < MAX_IRQ && p.priority == p'.priority
    ensures Scan(p, candidates, irq, best, bestPriority) == Scan(p', candidates, irq, best, bestPriority)
    decreases MAX_IRQ - irq
  {
    if irq < MAX_IRQ {
      SameScan(p, p', candidates, irq + 1, irq, p.priority[irq]);
      SameScan(p, p', candidates, irq + 1, best, bestPriority);
    }
  }
}

/** The serial port's registers and interrupt line (uart.rs); host output is not modelled. */
module Uart {
  import opened Base

  type LineBits = x: int | 0 <= x < 4

  datatype State = State(
    divisorLatch: bool,
    rxInterrupt: bool,
    txInterrupt: bool,
    nbits: LineBits,
    dll: u8,
    dlm: u8,
    rxQueue: seq<u8>)
  {
    predicate Raised() {
      rxQueue != [] && rxInterrupt
    }

    function Poll(input: seq<u8>): State {
      this.(rxQueue := rxQueue + input)
    }

    /** Value read and state after; reading the receive buffer consumes a byte. */
    function Read(offset: nat, size: nat): (r: (Result<nat>, State))
      ensures size != 1 ==> r == (Err(BadSize), this)
      ensures r.0.Ok? ==> r.0.value < 256
    {
      if size != 1 then (Err(BadSize), this)
      else if offset == 0 then
        if divisorLatch then (Ok(dll), this)
        else if rxQueue == [] then (Ok(0), this)
        else (Ok(rxQueue[0]), this.(rxQueue := rxQueue[1..]))
      else if offset == 1 then
        (Ok(if divisorLatch then dlm else (if rxInterrupt then 1 else 0) + (if txInterrupt then 2 else 0)), this)
      else if offset == 3 then (Ok((if divisorLatch then 128 else 0) + nbits), this)
      else if offset == 5 then (Ok((if rxQueue == [] then 0 else 1) + 32), this)
      else (Ok(0), this)
    }

    function Write(offset: nat, size: nat, value: nat): (r: Result<State>) {
      if size != 1 then Err(BadSize)
      else
        var v := value % 256;
        if offset == 5 || offset == 6 then Err(BadWrite)
        else if offset == 0 then Ok(if divisorLatch then this.(dll := v) else this)
        else if offset == 1 then
          if divisorLatch then Ok(this.(dlm := v))
          else if v >= 4 then Err(BadWrite)
          else Ok(this.(rxInterrupt := v % 2 == 1, txInterrupt := v >= 2))
        else if offset == 3 then Ok(this.(divisorLatch := v >= 128, nbits := v % 4))
        else Ok(this)
    }
  }
}
