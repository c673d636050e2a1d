/** The serial port as a driver sees it (uart.rs, bus.rs): registers from 0x1000_0000, input in order. */
module SerialPort {
  import opened Base
  import opened Memory
  import opened Rv64
  import opened InterruptPath
  import opened HartState
  import AddressMap
  import Machine
  import SystemBus

  lemma UartSelected(b: Bus, off: nat)
    requires StandardMap(b) && off < 0x100
    ensures AddressMap.Select(b.Layout(), 0x1000_0000 + off, 1) == Some((AddressMap.UartDev, off))
  {
  }

  // ---------- input ----------

  /** n one-byte reads of the receive register. */
  function Received(b: Bus, n: nat): (r: (Result<seq<nat>>, Bus))
    decreases n
  {
    if n == 0 then (Ok([]), b)
    else
      var first := SystemBus.Read(b, 0x1000_0000, 1);
      match first.value
      case Err(e) => (Err(e), first.bus)
      case Ok(c) =>
        var (rest, b') := Received(first.bus, n - 1);
        (match rest case Err(e) => Err(e) case Ok(cs) => Ok([c] + cs), b')
  }

  lemma ReceiveOne(b: Bus)
    requires StandardMap(b) && !b.uart.divisorLatch && b.uart.rxQueue != []
    ensures var r := SystemBus.Read(b, 0x1000_0000, 1);
            r.value == Ok(b.uart.rxQueue[0]) && r.bus == b.(uart := b.uart.(rxQueue := b.uart.rxQueue[1..]))
  {
    hide AddressMap.Select, StandardMap;
    UartSelected(b, 0);
  }

  lemma KeepsMap(b: Bus, queue: seq<u8>)
    requires StandardMap(b)
    ensures StandardMap(b.(uart := b.uart.(rxQueue := queue)))
  {
  }

  /** Reads take the waiting bytes first in, first out, and nothing else changes. */
  lemma {:induction false} FirstInFirstOut(b: Bus, n: nat)
    requires StandardMap(b) && !b.uart.divisorLatch && n <= |b.uart.rxQueue|
    ensures Received(b, n) == (Ok(b.uart.rxQueue[..n]), b.(uart := b.uart.(rxQueue := b.uart.rxQueue[n..])))
    decreases n
  {
    hide SystemBus.Read, StandardMap;
    var q := b.uart.rxQueue;
    if n > 0 {
      ReceiveOne(b);
      KeepsMap(b, q[1..]);
      FirstInFirstOut(b.(uart := b.uart.(rxQueue := q[1..])), n - 1);
      assert [q[0]] + q[1..][..n - 1] == q[..n];
      assert q[1..][n - 1..] == q[n..];
    } else {
      assert q[0..] == q;
    }
  }

  /** What the host types arrives in order, after everything that was waiting. */
  lemma TypedArrives(b: Bus, input: seq<u8>)
    requires StandardMap(b) && !b.uart.divisorLatch
    ensures var b1 := b.(uart := b.uart.Poll(input));
            Received(b1, |b.uart.rxQueue| + |input|).0 == Ok(b.uart.rxQueue + input)
  {
    hide Received, StandardMap;
    var q := b.uart.rxQueue + input;
    KeepsMap(b, q);
    FirstInFirstOut(b.(uart := b.uart.(rxQueue := q)), |q|);
    assert q[..|q|] == q;
  }

  /** The line status register: bit 5 always, bit 0 while input waits; reading it takes nothing. */
  lemma LineStatus(b: Bus)
    requires StandardMap(b)
    ensures SystemBus.Read(b, 0x1000_0005, 1) == SystemBus.Loaded(Ok(if b.uart.rxQueue == [] then 32 else 33), b)
  {
    hide AddressMap.Select, StandardMap;
    UartSelected(b, 5);
  }

  // ---------- control ----------

  /** With the divisor latch closed, 0x1000_0001 holds the two interrupt enables: 1 makes waiting input
      assert the interrupt line, 0 silences it, and other bits are refused. */
  lemma InterruptEnable(b: Bus, v: u8)
    requires StandardMap(b) && !b.uart.divisorLatch
    ensures var w := SystemBus.Write(b, 0x1000_0001, 1, v);
            if v >= 4 then w == SystemBus.Written(Err(BadWrite), b)
            else
              && w.result.Ok? && StandardMap(w.bus) && w.bus.uart.rxQueue == b.uart.rxQueue
              && (Asserted(w.bus, 10) <==> v % 2 == 1 && b.uart.rxQueue != [])
              && SystemBus.Read(w.bus, 0x1000_0001, 1).value == Ok(v)
  {
    hide AddressMap.Select;
    UartSelected(b, 1);
    var w := SystemBus.Write(b, 0x1000_0001, 1, v);
    if v < 4 {
      UartSelected(w.bus, 1);
    }
  }

  /** With the latch open (bit 7 of 0x1000_0003) the first two registers are the divisor, low byte first,
      and input is left alone; closing it brings the interrupt enables back as they were. */
  lemma Divisor(b: Bus, low: u8, high: u8, bits: u8)
    requires StandardMap(b) && bits < 4
    ensures var open := SystemBus.Write(b, 0x1000_0003, 1, 0x80);
            var first := SystemBus.Write(open.bus, 0x1000_0000, 1, low);
            var second := SystemBus.Write(first.bus, 0x1000_0001, 1, high);
            var closed := SystemBus.Write(second.bus, 0x1000_0003, 1, bits);
            && SystemBus.Read(second.bus, 0x1000_0000, 1) == SystemBus.Loaded(Ok(low), second.bus)
            && SystemBus.Read(second.bus, 0x1000_0001, 1) == SystemBus.Loaded(Ok(high), second.bus)
            && SystemBus.Read(second.bus, 0x1000_0003, 1) == SystemBus.Loaded(Ok(0x80), second.bus)
            && SystemBus.Read(closed.bus, 0x1000_0003, 1) == SystemBus.Loaded(Ok(bits), closed.bus)
            && closed.bus == b.(uart := b.uart.(divisorLatch := false, nbits := bits, dll := low, dlm := high))
  {
    hide StandardMap, AddressMap.Select;
    var u := b.uart;
    UartWrites(b, 3, 0x80);
    var u1 := u.(divisorLatch := true, nbits := 0);
    UartWrites(b.(uart := u1), 0, low);
    var u2 := u1.(dll := low);
    UartWrites(b.(uart := u2), 1, high);
    var u3 := u2.(dlm := high);
    UartWrites(b.(uart := u3), 3, bits);
    UartSelected(b.(uart := u3), 0);
    UartSelected(b.(uart := u3), 1);
    UartSelected(b.(uart := u3), 3);
    UartSelected(b.(uart := u3.(divisorLatch := false, nbits := bits)), 3);
  }

  lemma UartWrites(b: Bus, off: nat, v: u8)
    requires StandardMap(b) && off < 0x100
    ensures var r := b.uart.Write(off, 1, v);
            && SystemBus.Write(b, 0x1000_0000 + off, 1, v) ==
               (if r.Ok? then SystemBus.Written(Ok(Unit), b.(uart := r.value)) else SystemBus.Written(Err(r.error), b))
            && (r.Ok? ==> StandardMap(b.(uart := r.value)))
  {
    hide AddressMap.Select;
    UartSelected(b, off);
  }

  // ---------- polling ----------

  /** The hart and bus after one tick per entry, each offered that host input. */
  function Ticks(h: Hart, b: Bus, inputs: seq<seq<u8>>): (r: (Hart, Bus))
    decreases |inputs|
  {
    if inputs == [] then (h, b)
    else
      var (h1, b1) := Machine.Tick(h, b, inputs[0]);
      Ticks(h1, b1, inputs[1..])
  }

  /** The inputs at multiples of 4096, counting from k. */
  function EveryPeriod(inputs: seq<seq<u8>>, k: nat): seq<u8>
    decreases |inputs|
  {
    if inputs == [] then []
    else (if k % 4096 == 0 then inputs[0] else []) + EveryPeriod(inputs[1..], k + 1)
  }

  /** The hart has ticked k times since its counter was reset. */
  predicate InPhase(h: Hart, k: nat) {
    h.attached && if k % 4096 == 0 then h.pollCountdown <= 1 else h.pollCountdown == 4097 - k % 4096
  }

  lemma NextPhase(k: nat)
    ensures (k + 1) % 4096 == if k % 4096 == 4095 then 0 else k % 4096 + 1
  {
  }

  lemma TickPolls(h: Hart, b: Bus, input: seq<u8>, k: nat)
    requires InPhase(h, k)
    ensures var (h1, b1) := Machine.Tick(h, b, input);
            && InPhase(h1, k + 1)
            && b1.uart.rxQueue == b.uart.rxQueue + (if k % 4096 == 0 then input else [])
  {
    NextPhase(k);
  }

  /** The host is polled on the first tick and then once every 4096 ticks; what it offers in between is not
      taken. */
  lemma {:induction false} PollsOnceAPeriod(h: Hart, b: Bus, inputs: seq<seq<u8>>, k: nat)
    requires InPhase(h, k)
    ensures Ticks(h, b, inputs).1.uart.rxQueue == b.uart.rxQueue + EveryPeriod(inputs, k)
    decreases |inputs|
  {
    hide Machine.Tick, InPhase;
    if inputs != [] {
      TickPolls(h, b, inputs[0], k);
      var (h1, b1) := Machine.Tick(h, b, inputs[0]);
      PollsOnceAPeriod(h1, b1, inputs[1..], k + 1);
    }
  }
}
