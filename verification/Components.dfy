/** The leaf devices as objects updated in place (ram.rs, clint.rs, plic.rs, uart.rs), each proved
    against its value-level model. */
module Components {
  import opened Base
  import opened Memory
  import Bits
  import ClintModel = Clint
  import PlicModel = Plic
  import UartModel = Uart

  /** A flat byte array, little-endian. */
  class Ram {
    const data: array<u8>

    constructor (size: nat, content: seq<u8>)
      ensures fresh(data)
      ensures data[..] == content + seq(if size > |content| then size - |content| else 0, _ => 0)
    {
      var n := if size > |content| then size else |content|;
      data := new u8[n](i => if 0 <= i < |content| then content[i] else 0);
      new;
      assert data[..] == content + seq(if size > |content| then size - |content| else 0, _ => 0);
    }

    method Read(a: nat, n: nat) returns (r: Result<nat>)
      requires a + n <= data.Length
      ensures r == if ValidSize(n) then Ok(LoadLE(data[..], a, n)) else Err(BadSize)
    {
      if !ValidSize(n) {
        return Err(BadSize);
      }
      var v: nat, k: nat := 0, n;
      while k > 0
        invariant 0 <= k <= n
        invariant v == LoadLE(data[..], a + k, n - k)
      {
        k := k - 1;
        v := data[a + k] + 256 * v;
      }
      return Ok(v);
    }

    method Write(a: nat, n: nat, value: nat) returns (r: Result<Unit>)
      requires a + n <= data.Length
      modifies data
      ensures r == if ValidSize(n) then Ok(Unit) else Err(BadSize)
      ensures data[..] == if ValidSize(n) then StoreLE(old(data[..]), a, n, value) else old(data[..])
    {
      if !ValidSize(n) {
        return Err(BadSize);
      }
      var rest, k := value, 0;
      while k < n
        invariant 0 <= k <= n
        invariant StoreLE(data[..], a + k, n - k, rest) == StoreLE(old(data[..]), a, n, value)
      {
        ghost var before := data[..];
        data[a + k] := rest % 256;
        assert data[..] == before[a + k := rest % 256];
        rest, k := rest / 256, k + 1;
      }
      return Ok(Unit);
    }
  }

  /** The core-local timer. */
  class Clint {
    var mtime: u64
    var mtimecmp: seq<u64>

    ghost function View(): ClintModel.State
      reads this
    {
      ClintModel.State(mtime, mtimecmp)
    }

    constructor (nhart: nat)
      ensures View() == ClintModel.State(0, seq(nhart, _ => TWO_64 - 1))
    {
      mtime := 0;
      mtimecmp := seq(nhart, _ => TWO_64 - 1);
    }

    method Tick()
      modifies this
      ensures View() == old(View()).Tick()
    {
      mtime := if mtime == TWO_64 - 1 then 0 else mtime + 1;
    }

    method Pending(hart: nat) returns (p: bool)
      requires hart < |mtimecmp|
      ensures p == View().Pending(hart)
    {
      p := mtime >= mtimecmp[hart];
    }

    method Read(a: nat, n: nat) returns (r: Result<u64>)
      ensures r == View().Read(a, n)
    {
      if n != 8 {
        return Err(BadSize);
      }
      if a == ClintModel.MTIME_OFFSET {
        return Ok(mtime);
      }
      var end := ClintModel.MTIMECMP_OFFSET + 8 * |mtimecmp|;
      if ClintModel.MTIMECMP_OFFSET <= a < end {
        return Ok(mtimecmp[(a - ClintModel.MTIMECMP_OFFSET) / 8]);
      }
      return Ok(0);
    }

    method Write(a: nat, n: nat, value: u64) returns (r: Result<Unit>)
      modifies this
      ensures match old(View()).Write(a, n, value)
              case Err(e) => r == Err(e) && View() == old(View())
              case Ok(c) => r == Ok(Unit) && View() == c
    {
      if n != 8 {
        return Err(BadSize);
      }
      if a == ClintModel.MTIME_OFFSET {
        mtime := value;
      } else {
        var end := ClintModel.MTIMECMP_OFFSET + 8 * |mtimecmp|;
        if ClintModel.MTIMECMP_OFFSET <= a < end {
          mtimecmp := mtimecmp[(a - ClintModel.MTIMECMP_OFFSET) / 8 := value];
        }
      }
      return Ok(Unit);
    }
  }

  /** The serial port. Host output is not modelled; host input arrives as an argument of PollInput. */
  class Uart {
    var divisorLatch: bool
    var rxInterrupt: bool
    var txInterrupt: bool
    var nbits: UartModel.LineBits
    var dll: u8
    var dlm: u8
    var rxQueue: seq<u8>

    ghost function View(): UartModel.State
      reads this
    {
      UartModel.State(divisorLatch, rxInterrupt, txInterrupt, nbits, dll, dlm, rxQueue)
    }

    constructor ()
      ensures View() == UartModel.State(false, false, false, 0, 0, 0, [])
    {
      divisorLatch, rxInterrupt, txInterrupt, nbits, dll, dlm, rxQueue := false, false, false, 0, 0, 0, [];
    }

    method InterruptStatus() returns (raised: bool)
      ensures raised == View().Raised()
    {
      raised := rxQueue != [] && rxInterrupt;
    }

    method PollInput(input: seq<u8>)
      modifies this
      ensures View() == old(View()).Poll(input)
    {
      rxQueue := rxQueue + input;
    }

    method Read(a: nat, n: nat) returns (r: Result<nat>)
      modifies this
      ensures (r, View()) == old(View()).Read(a, n)
    {
      if n != 1 {
        return Err(BadSize);
      }
      if a == 0 {
        if divisorLatch {
          var low: nat := dll;
          return Ok(low);
        }
        if rxQueue == [] {
          return Ok(0);
        }
        var c: nat := rxQueue[0];
        rxQueue := rxQueue[1..];
        return Ok(c);
      } else if a == 1 {
        return Ok(if divisorLatch then dlm else (if rxInterrupt then 1 else 0) + (if txInterrupt then 2 else 0));
      } else if a == 3 {
        return Ok((if divisorLatch then 128 else 0) + nbits);
      } else if a == 5 {
        return Ok((if rxQueue == [] then 0 else 1) + 32);
      }
      return Ok(0);
    }

    method Write(a: nat, n: nat, value: nat) returns (r: Result<Unit>)
      modifies this
      ensures match old(View()).Write(a, n, value)
              case Err(e) => r == Err(e) && View() == old(View())
              case Ok(u) => r == Ok(Unit) && View() == u
    {
      if n != 1 {
        return Err(BadSize);
      }
      var v := value % 256;
      if a == 5 || a == 6 {
        return Err(BadWrite);
      } else if a == 0 {
        if divisorLatch {
          dll := v;
        }
      } else if a == 1 {
        if divisorLatch {
          dlm := v;
        } else if v >= 4 {
          return Err(BadWrite);
        } else {
          rxInterrupt, txInterrupt := v % 2 == 1, v >= 2;
        }
      } else if a == 3 {
        divisorLatch, nbits := v >= 128, v % 4;
      }
      return Ok(Unit);
    }
  }

  /** The interrupt controller. The device lines are sampled by the caller. */
  class Plic {
    const priority: array<u32>
    const enable: array<u32>
    const threshold: array<u32>

    ghost predicate Valid() {
      && priority.Length == PlicModel.MAX_IRQ
      && enable.Length == PlicModel.MAX_CONTEXTS
      && threshold.Length == PlicModel.MAX_CONTEXTS
      && enable != threshold
    }

    ghost function View(): PlicModel.State
      requires Valid()
      reads priority, enable, threshold
    {
      PlicModel.State(priority[..], enable[..], threshold[..])
    }

    constructor ()
      ensures Valid() && fresh(priority) && fresh(enable) && fresh(threshold)
      ensures View() == PlicModel.State(seq(PlicModel.MAX_IRQ, _ => 0), seq(PlicModel.MAX_CONTEXTS, _ => 0),
                                        seq(PlicModel.MAX_CONTEXTS, _ => 0))
    {
      priority := new u32[PlicModel.MAX_IRQ](_ => 0);
      enable := new u32[PlicModel.MAX_CONTEXTS](_ => 0);
      threshold := new u32[PlicModel.MAX_CONTEXTS](_ => 0);
      new;
      assert priority[..] == seq(PlicModel.MAX_IRQ, _ => 0);
      assert enable[..] == seq(PlicModel.MAX_CONTEXTS, _ => 0);
      assert threshold[..] == seq(PlicModel.MAX_CONTEXTS, _ => 0);
    }

    method PendingMask(lines: seq<PlicModel.Line>) returns (mask: nat)
      ensures mask == PlicModel.PendingMask(lines)
    {
      mask := 0;
      for i := 0 to |lines|
        invariant mask == PlicModel.PendingMask(lines[..i])
      {
        assert lines[..i + 1][..i] == lines[..i];
        if lines[i].raised {
          mask := Bits.SetBit(mask, lines[i].irq);
        }
      }
      assert lines[..|lines|] == lines;
    }

    /** The loop keeps the best source among those below irq; what it returns is the best of all. */
    method ClaimIrq(pending: nat, context: nat) returns (best: nat)
      requires Valid()
      ensures View().IsBest(pending, context, best)
      ensures best == PlicModel.Claim(View(), pending, context)
    {
      hide Bits.Bit, Bits.And;
      var enabled := if context < PlicModel.MAX_CONTEXTS then enable[context] else 0;
      var limit := if context < PlicModel.MAX_CONTEXTS then threshold[context] else 0;
      var candidates := Bits.And(pending, enabled);
      best := 0;
      var bestPriority := limit;
      for irq := 1 to PlicModel.MAX_IRQ
        invariant PlicModel.BestBelow(View(), pending, context, irq, best, bestPriority)
      {
        PlicModel.ScanStep(View(), pending, context, irq, best, bestPriority);
        if Bits.Bit(candidates, irq) && priority[irq] > bestPriority {
          bestPriority := priority[irq];
          best := irq;
        }
      }
      PlicModel.ClaimIsBest(View(), pending, context);
      PlicModel.BestIsUnique(View(), pending, context, best, PlicModel.Claim(View(), pending, context));
    }

    method Read(pending: nat, a: nat, n: nat) returns (r: Result<u32>)
      requires Valid()
      ensures r == View().Read(pending, a, n)
    {
      if n != 4 {
        return Err(BadSize);
      }
      if a < PlicModel.PRIORITY_END {
        var irq := a / 4;
        return Ok(if irq < PlicModel.MAX_IRQ then priority[irq] else 0);
      }
      if PlicModel.ENABLE_BASE <= a < PlicModel.ENABLE_END {
        var context := (a - PlicModel.ENABLE_BASE) / PlicModel.ENABLE_STRIDE;
        return Ok(if context < PlicModel.MAX_CONTEXTS then enable[context] else 0);
      }
      if a >= PlicModel.CONTEXT_BASE {
        var context := (a - PlicModel.CONTEXT_BASE) / PlicModel.CONTEXT_STRIDE;
        var offset := (a - PlicModel.CONTEXT_BASE) % PlicModel.CONTEXT_STRIDE;
        if offset == PlicModel.THRESHOLD_OFFSET {
          return Ok(if context < PlicModel.MAX_CONTEXTS then threshold[context] else 0);
        }
        if offset == PlicModel.CLAIM_OFFSET {
          var irq := ClaimIrq(pending, context);
          return Ok(irq);
        }
      }
      return Ok(0);
    }

    method Write(a: nat, n: nat, value: nat) returns (r: Result<Unit>)
      requires Valid()
      modifies priority, enable, threshold
      ensures match old(View()).Write(a, n, value)
              case Err(e) => r == Err(e) && View() == old(View())
              case Ok(p) => r == Ok(Unit) && View() == p
    {
      if n != 4 {
        return Err(BadSize);
      }
      var word := value % TWO_32;
      if a < PlicModel.PRIORITY_END {
        var irq := a / 4;
        if irq < PlicModel.MAX_IRQ {
          priority[irq] := word;
        }
        return Ok(Unit);
      }
      if PlicModel.ENABLE_BASE <= a < PlicModel.ENABLE_END {
        var context := (a - PlicModel.ENABLE_BASE) / PlicModel.ENABLE_STRIDE;
        if context < PlicModel.MAX_CONTEXTS {
          enable[context] := word;
        }
        return Ok(Unit);
      }
      if a >= PlicModel.CONTEXT_BASE {
        var context := (a - PlicModel.CONTEXT_BASE) / PlicModel.CONTEXT_STRIDE;
        var offset := (a - PlicModel.CONTEXT_BASE) % PlicModel.CONTEXT_STRIDE;
        if offset == PlicModel.THRESHOLD_OFFSET && context < PlicModel.MAX_CONTEXTS {
          threshold[context] := word;
        }
      }
      return Ok(Unit);
    }
  }
}
