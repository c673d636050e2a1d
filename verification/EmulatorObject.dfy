/** The multi-hart emulator (emulator.rs): power-on and the round-robin run loop. */
module EmulatorObject {
  import opened Base
  import opened HartState
  import opened Smp
  import opened Components
  import opened BusObject
  import opened CpuObject
  import opened Memory
  import AddressMap
  import Boot
  import PlicModel = Plic
  import SystemBus
  import Virtio
  import Machine

  type Bus = BusObject.Bus

  // ---------- schedules ----------

  /** One round: every hart once, in order, each with the host input of its turn. */
  function Round(inputs: seq<seq<u8>>): (turns: seq<Turn>)
    ensures Schedule(turns, |inputs|)
  {
    seq(|inputs|, k requires 0 <= k < |inputs| => Turn(k, inputs[k]))
  }

  function Rounds(rounds: seq<seq<seq<u8>>>, n: nat): (turns: seq<Turn>)
    requires forall k :: 0 <= k < |rounds| ==> |rounds[k]| == n
    ensures Schedule(turns, n)
  {
    if rounds == [] then [] else Round(rounds[0]) + Rounds(rounds[1..], n)
  }

  /** Every round steps every hart exactly once, in hart order, with its own input: turn k * n + i is
      hart i's in round k, and there are no others. */
  lemma {:induction false} TurnOfRound(rounds: seq<seq<seq<u8>>>, n: nat, k: nat, i: nat)
    requires forall j :: 0 <= j < |rounds| ==> |rounds[j]| == n
    requires k < |rounds| && i < n
    ensures |Rounds(rounds, n)| == |rounds| * n && k * n + i < |Rounds(rounds, n)|
    ensures Rounds(rounds, n)[k * n + i] == Turn(i, rounds[k][i])
    decreases |rounds|
  {
    RoundsLength(rounds, n);
    RoundsLength(rounds[1..], n);
    var first, rest := Round(rounds[0]), Rounds(rounds[1..], n);
    assert Rounds(rounds, n) == first + rest;
    if k == 0 {
      assert (first + rest)[i] == first[i];
    } else {
      TurnOfRound(rounds[1..], n, k - 1, i);
      RoundLater(k, n, i);
      assert (first + rest)[n + ((k - 1) * n + i)] == rest[(k - 1) * n + i];
    }
  }

  lemma RoundLater(k: nat, n: nat, i: nat)
    requires k > 0
    ensures k * n + i == n + ((k - 1) * n + i) && (k - 1) * n >= 0
  {
  }

  lemma {:induction false} RoundsLength(rounds: seq<seq<seq<u8>>>, n: nat)
    requires forall j :: 0 <= j < |rounds| ==> |rounds[j]| == n
    ensures |Rounds(rounds, n)| == |rounds| * n
    decreases |rounds|
  {
    if rounds != [] {
      RoundsLength(rounds[1..], n);
      assert (|rounds| - 1) * n + n == |rounds| * n;
    }
  }

  lemma {:induction false} OnceARound(inputs: seq<seq<u8>>, i: nat)
    ensures TurnsOf(Round(inputs), i) == if i < |inputs| then 1 else 0
    decreases |inputs|
  {
    if inputs != [] {
      var n := |inputs| - 1;
      assert Round(inputs) == Round(inputs[..n]) + [Turn(n, inputs[n])];
      OnceARound(inputs[..n], i);
      TurnsAppend(Round(inputs[..n]), [Turn(n, inputs[n])], i);
    }
  }

  /** Over any number of rounds every hart gets the same number of turns. */
  lemma {:induction false} FairRounds(rounds: seq<seq<seq<u8>>>, n: nat, i: nat)
    requires forall j :: 0 <= j < |rounds| ==> |rounds[j]| == n
    ensures TurnsOf(Rounds(rounds, n), i) == if i < n then |rounds| else 0
    decreases |rounds|
  {
    if rounds != [] {
      FairRounds(rounds[1..], n, i);
      OnceARound(rounds[0], i);
      TurnsAppend(Round(rounds[0]), Rounds(rounds[1..], n), i);
    }
  }

  /** Six rounds of the run loop from power-on bring every hart to the kernel's entry. */
  lemma SixRounds(program: seq<u8>, address: nat, disk: seq<u8>, ncpu: nat, rounds: seq<seq<seq<u8>>>)
    requires ncpu <= MAX_HARTS && address >= 0x1028
    requires |rounds| == 6 && forall k :: 0 <= k < 6 ==> |rounds[k]| == ncpu
    ensures var b := PowerOnBus(program, address, disk, ncpu);
            && Ready(PowerOn(ncpu, b)) && Failure(PowerOn(ncpu, b), Rounds(rounds, ncpu)).None?
            && Boot.AtEntry(Smp.Run(PowerOn(ncpu, b), Rounds(rounds, ncpu)), ncpu, b.mem)
  {
    hide PowerOnBus, PowerOn, Ready, Boot.AtEntry, Failure, Smp.Run, Rounds, TurnsOf;
    forall i | 0 <= i < ncpu
      ensures TurnsOf(Rounds(rounds, ncpu), i) == 6
    {
      FairRounds(rounds, ncpu, i);
    }
    Boot.EveryHartBoots(program, address, disk, ncpu, Rounds(rounds, ncpu));
  }

  class Xv6Emulator {
    const bus: Bus
    const cpus: seq<Cpu>

    ghost predicate Valid()
      reads bus
    {
      && (forall i :: 0 <= i < |cpus| ==> cpus[i].On(bus))
      && (forall i, j :: 0 <= i < j < |cpus| ==> cpus[i].Footprint() !! cpus[j].Footprint())
    }

    ghost function CpuFootprints(): set<object> {
      set i, o | 0 <= i < |cpus| && o in cpus[i].Footprint() :: o
    }

    ghost function View(): (s: Board)
      requires bus.Valid() && Valid()
      reads bus, bus.Footprint(), CpuFootprints()
      ensures |s.harts| == |cpus|
    {
      Board(seq(|cpus|, i requires 0 <= i < |cpus| && Valid() reads bus, CpuFootprints() => cpus[i].View()), bus.View())
    }

    constructor (bus: Bus, cpus: seq<Cpu>)
      ensures this.bus == bus && this.cpus == cpus
    {
      this.bus, this.cpus := bus, cpus;
    }

    /** One hart's step is that hart's turn; the other harts do not notice. */
    method StepHart(i: nat, input: seq<u8>) returns (r: Result<bv64>)
      requires bus.Valid() && Valid() && Ready(View()) && i < |cpus|
      modifies cpus[i].Footprint(), bus.Footprint()
      ensures bus.Valid() && Valid()
      ensures View() == Advance(old(View()), Turn(i, input)) && r == Acts(old(View()), Turn(i, input)).next
    {
      hide Machine.Step, Machine.HartInvariant;
      ghost var s := View();
      assert ReadyHart(s.harts[i], s.bus);
      r := cpus[i].Step(bus, input);
      forall j | 0 <= j < |cpus| && j != i
        ensures cpus[j].View() == old(cpus[j].View())
      {
      }
      assert View().harts == s.harts[i := Acts(s, Turn(i, input)).hart];
    }

    /** One pass over the harts, stopping at the first failing step. */
    method RunRound(inputs: seq<seq<u8>>) returns (e: Option<Error>)
      requires bus.Valid() && Valid() && Ready(View()) && |inputs| == |cpus|
      modifies CpuFootprints(), bus.Footprint()
      ensures bus.Valid() && Valid() && Ready(View())
      ensures View() == Smp.Run(old(View()), Round(inputs)) && e == Failure(old(View()), Round(inputs))
    {
      hide Acts, Advance, ReadyHart;
      ghost var s, turns := View(), Round(inputs);
      for i := 0 to |cpus|
        invariant bus.Valid() && Valid() && Ready(View())
        invariant Smp.Run(s, turns) == Smp.Run(View(), turns[i..]) && Failure(s, turns) == Failure(View(), turns[i..])
      {
        assert turns[i..][0] == Turn(i, inputs[i]) && turns[i..][1..] == turns[i + 1..];
        var r := StepHart(i, inputs[i]);
        if r.Err? {
          return Some(r.error);
        }
      }
      return None;
    }

    /** The run loop, for as many rounds as there is host input for: exactly the run of that
        round-robin schedule. */
    method Run(rounds: seq<seq<seq<u8>>>) returns (e: Option<Error>)
      requires bus.Valid() && Valid() && Ready(View())
      requires forall k :: 0 <= k < |rounds| ==> |rounds[k]| == |cpus|
      modifies CpuFootprints(), bus.Footprint()
      ensures bus.Valid() && Valid() && Ready(View())
      ensures View() == Smp.Run(old(View()), Rounds(rounds, |cpus|))
      ensures e == Failure(old(View()), Rounds(rounds, |cpus|))
    {
      hide Ready, Round, Rounds, Smp.Run, Failure, View, Valid;
      ghost var s, turns := View(), Rounds(rounds, |cpus|);
      assert rounds[0..] == rounds;
      for k := 0 to |rounds|
        invariant bus.Valid() && Valid() && Ready(View())
        invariant Smp.Run(s, turns) == Smp.Run(View(), Rounds(rounds[k..], |cpus|))
        invariant Failure(s, turns) == Failure(View(), Rounds(rounds[k..], |cpus|))
      {
        NextRound(View(), rounds, k);
        e := RunRound(rounds[k]);
        if e.Some? {
          return;
        }
      }
      NoMoreRounds(View(), rounds);
      return None;
    }
  }

  lemma NextRound(s: Board, rounds: seq<seq<seq<u8>>>, k: nat)
    requires Ready(s) && k < |rounds| && forall j :: 0 <= j < |rounds| ==> |rounds[j]| == |s.harts|
    ensures var now, all := Round(rounds[k]), Rounds(rounds[k..], |s.harts|);
            if Failure(s, now).Some? then Smp.Run(s, all) == Smp.Run(s, now) && Failure(s, all) == Failure(s, now)
            else
              var rest := Rounds(rounds[k + 1..], |s.harts|);
              Smp.Run(s, all) == Smp.Run(Smp.Run(s, now), rest) && Failure(s, all) == Failure(Smp.Run(s, now), rest)
  {
    hide Ready, Round, Smp.Run, Failure;
    assert rounds[k..][1..] == rounds[k + 1..];
    RunAppend(s, Round(rounds[k]), Rounds(rounds[k + 1..], |s.harts|));
  }

  lemma NoMoreRounds(s: Board, rounds: seq<seq<seq<u8>>>)
    requires Ready(s)
    ensures Smp.Run(s, Rounds(rounds[|rounds|..], |s.harts|)) == s
    ensures Failure(s, Rounds(rounds[|rounds|..], |s.harts|)).None?
  {
    hide ReadyHart;
  }

  // ---------- new_smp ----------

  /** The reservations still to be made. */
  ghost predicate Towards(goal: Result<AddressMap.Map>, m: AddressMap.Map, len: nat, address: nat, k: nat)
    requires k <= 7
  {
    goal == AddressMap.InstallAll(m, AddressMap.SmpPlan(len, address)[k..])
  }

  lemma NextReservation(goal: Result<AddressMap.Map>, m: AddressMap.Map, len: nat, address: nat, k: nat)
    requires k < 7 && Towards(goal, m, len, address, k)
    ensures var (d, range) := AddressMap.SmpPlan(len, address)[k];
            match AddressMap.Install(m, d, range)
            case Err(e) => goal == Err(e)
            case Ok(m1) => Towards(goal, m1, len, address, k + 1)
  {
    hide AddressMap.Install, AddressMap.RoundUp;
    var plan := AddressMap.SmpPlan(len, address);
    assert plan[k..][0] == plan[k] && plan[k..][1..] == plan[k + 1..];
  }

  lemma RoundUpCovers(len: nat)
    ensures AddressMap.RoundUp(len) >= len
  {
  }

  lemma PlanEntries(len: nat, address: nat)
    ensures var plan := AddressMap.SmpPlan(len, address);
            var top := address + AddressMap.RoundUp(len);
            && |plan| == 7
            && plan[0] == (AddressMap.RamDev, Range(address, AddressMap.RoundUp(len)))
            && plan[1] == (AddressMap.StackDev, Range(top, AddressMap.STACK_SIZE))
            && plan[2] == (AddressMap.ClintDev, Range(AddressMap.CLINT_BASE, AddressMap.CLINT_SIZE))
            && plan[3] == (AddressMap.UartDev, Range(AddressMap.UART_BASE, AddressMap.UART_SIZE))
            && plan[4] == (AddressMap.VirtioDev, Range(AddressMap.VIRTIO_BASE, AddressMap.VIRTIO_SIZE))
            && plan[5] == (AddressMap.PlicDev, Range(AddressMap.PLIC_BASE, AddressMap.PLIC_SIZE))
            && plan[6] == (AddressMap.BootDev, Range(AddressMap.BOOTLOADER_ADDR, AddressMap.BOOTLOADER_SIZE))
  {
  }

  // ---------- the setters in program order ----------

  // Each step either fails as the plan does or gets one reservation further.

  /** Image and stack are in place. */
  ghost predicate HasMemories(bus: Bus, program: seq<u8>, address: nat)
    reads bus`ram, bus`ramRange, bus`stack, bus`stackRange, bus.ram.data, bus.stack.data
  {
    var len := AddressMap.RoundUp(|program|);
    && bus.ramRange.start == address && bus.ram.data[..] == Padded(program, len)
    && bus.stackRange.start == address + len && bus.stack.data[..] == Padded([], AddressMap.STACK_SIZE)
  }

  // The devices are in place, in their reset state.

  ghost predicate HasTimer(bus: Bus, ncpu: nat)
    reads bus`clint, bus`clintRange, bus.clint
  {
    var b := PowerOnBus([], 0, [], ncpu);
    bus.clint.View() == b.clint && bus.clintRange == b.clintRange
  }

  ghost predicate HasSerial(bus: Bus)
    reads bus`uart, bus`uartRange, bus.uart
  {
    var b := PowerOnBus([], 0, [], 0);
    bus.uart.View() == b.uart && bus.uartRange == b.uartRange
  }

  ghost predicate HasDisk(bus: Bus, disk: seq<u8>)
    reads bus`virtio, bus`virtioRange, bus.virtio
  {
    var b := PowerOnBus([], 0, disk, 0);
    bus.virtio.View() == b.virtio && bus.virtioRange == b.virtioRange
  }

  ghost predicate HasPlic(bus: Bus)
    reads bus`plic, bus`plicRange, bus.plic.priority, bus.plic.enable, bus.plic.threshold
  {
    var b := PowerOnBus([], 0, [], 0);
    bus.plic.Valid() && bus.plic.View() == b.plic && bus.plicRange == b.plicRange
  }

  ghost predicate HasBootloader(bus: Bus)
    reads bus`bootloader, bus`bootloaderRange, bus.bootloader.data
  {
    && bus.bootloaderRange.start == AddressMap.BOOTLOADER_ADDR
    && bus.bootloader.data[..] == Padded(BOOTLOADER, AddressMap.BOOTLOADER_SIZE)
  }

  method PlaceRam(bus: Bus, program: seq<u8>, address: nat, ghost goal: Result<AddressMap.Map>)
    returns (r: Result<Unit>)
    requires bus.Valid() && bus.ranges.Valid() && Towards(goal, bus.Map(), |program|, address, 0)
    modifies bus`ram, bus`ramRange, bus.ranges
    ensures r.Err? ==> goal == Err(r.error)
    ensures r.Ok? ==> bus.Valid() && bus.ranges.Valid() && Towards(goal, bus.Map(), |program|, address, 1)
    ensures r.Ok? ==> fresh(bus.ram.data) && bus.ramRange.start == address
    ensures r.Ok? ==> bus.ram.data[..] == Padded(program, AddressMap.RoundUp(|program|))
  {
    hide AddressMap.Install, AddressMap.SmpPlan, AddressMap.RoundUp, Towards;
    PlanEntries(|program|, address);
    RoundUpCovers(|program|);
    var ram := new Ram(AddressMap.RoundUp(|program|), program);
    NextReservation(goal, bus.Map(), |program|, address, 0);
    r := bus.SetRam(ram, address);
  }

  method PlaceStack(bus: Bus, len: nat, address: nat, ghost goal: Result<AddressMap.Map>) returns (r: Result<Unit>)
    requires bus.Valid() && bus.ranges.Valid() && Towards(goal, bus.Map(), len, address, 1)
    modifies bus`stack, bus`stackRange, bus.ranges
    ensures r.Err? ==> goal == Err(r.error)
    ensures r.Ok? ==> bus.Valid() && bus.ranges.Valid() && Towards(goal, bus.Map(), len, address, 2)
    ensures r.Ok? ==> fresh(bus.stack.data) && bus.stackRange.start == address + AddressMap.RoundUp(len)
    ensures r.Ok? ==> bus.stack.data[..] == Padded([], AddressMap.STACK_SIZE)
  {
    hide AddressMap.Install, AddressMap.SmpPlan, AddressMap.RoundUp, Towards;
    PlanEntries(len, address);
    var stack := new Ram(AddressMap.STACK_SIZE, []);
    NextReservation(goal, bus.Map(), len, address, 1);
    r := bus.SetStack(stack, address + AddressMap.RoundUp(len));
  }

  method PlaceTimer(bus: Bus, ncpu: nat, len: nat, address: nat, ghost goal: Result<AddressMap.Map>)
    returns (r: Result<Unit>)
    requires bus.Valid() && bus.ranges.Valid() && Towards(goal, bus.Map(), len, address, 2)
    modifies bus`clint, bus`clintRange, bus.ranges
    ensures r.Err? ==> goal == Err(r.error)
    ensures r.Ok? ==> bus.Valid() && bus.ranges.Valid() && Towards(goal, bus.Map(), len, address, 3)
    ensures r.Ok? ==> fresh(bus.clint) && HasTimer(bus, ncpu)
  {
    hide AddressMap.Install, AddressMap.SmpPlan, AddressMap.RoundUp, Towards;
    PlanEntries(len, address);
    var clint := new Components.Clint(ncpu);
    NextReservation(goal, bus.Map(), len, address, 2);
    r := bus.SetClint(clint, AddressMap.CLINT_BASE);
  }

  method PlaceSerial(bus: Bus, len: nat, address: nat, ghost goal: Result<AddressMap.Map>) returns (r: Result<Unit>)
    requires bus.Valid() && bus.ranges.Valid() && Towards(goal, bus.Map(), len, address, 3)
    modifies bus`uart, bus`uartRange, bus.ranges
    ensures r.Err? ==> goal == Err(r.error)
    ensures r.Ok? ==> bus.Valid() && bus.ranges.Valid() && Towards(goal, bus.Map(), len, address, 4)
    ensures r.Ok? ==> fresh(bus.uart) && HasSerial(bus)
  {
    hide AddressMap.Install, AddressMap.SmpPlan, AddressMap.RoundUp, Towards;
    PlanEntries(len, address);
    var uart := new Components.Uart();
    NextReservation(goal, bus.Map(), len, address, 3);
    r := bus.SetUart(uart, AddressMap.UART_BASE);
  }

  method PlaceDisk(bus: Bus, disk: seq<u8>, len: nat, address: nat, ghost goal: Result<AddressMap.Map>)
    returns (r: Result<Unit>)
    requires bus.Valid() && bus.ranges.Valid() && Towards(goal, bus.Map(), len, address, 4)
    modifies bus`virtio, bus`virtioRange, bus.ranges
    ensures r.Err? ==> goal == Err(r.error)
    ensures r.Ok? ==> bus.Valid() && bus.ranges.Valid() && Towards(goal, bus.Map(), len, address, 5)
    ensures r.Ok? ==> fresh(bus.virtio) && HasDisk(bus, disk)
  {
    hide AddressMap.Install, AddressMap.SmpPlan, AddressMap.RoundUp, Towards;
    PlanEntries(len, address);
    var virtio := new VirtIOBlk(disk, DISK_SIZE);
    NextReservation(goal, bus.Map(), len, address, 4);
    r := bus.SetVirtio(virtio, AddressMap.VIRTIO_BASE);
  }

  method PlacePlic(bus: Bus, len: nat, address: nat, ghost goal: Result<AddressMap.Map>) returns (r: Result<Unit>)
    requires bus.Valid() && bus.ranges.Valid() && Towards(goal, bus.Map(), len, address, 5)
    modifies bus`plic, bus`plicRange, bus.ranges
    ensures r.Err? ==> goal == Err(r.error)
    ensures r.Ok? ==> bus.Valid() && bus.ranges.Valid() && Towards(goal, bus.Map(), len, address, 6)
    ensures r.Ok? ==> fresh({bus.plic.priority, bus.plic.enable, bus.plic.threshold}) && HasPlic(bus)
  {
    hide AddressMap.Install, AddressMap.SmpPlan, AddressMap.RoundUp, Towards;
    PlanEntries(len, address);
    var plic := new Components.Plic();
    NextReservation(goal, bus.Map(), len, address, 5);
    r := bus.SetPlic(plic, AddressMap.PLIC_BASE);
  }

  method PlaceBootloader(bus: Bus, len: nat, address: nat, ghost goal: Result<AddressMap.Map>)
    returns (r: Result<Unit>)
    requires bus.Valid() && bus.ranges.Valid() && Towards(goal, bus.Map(), len, address, 6)
    modifies bus`bootloader, bus`bootloaderRange, bus.ranges
    ensures r.Err? ==> goal == Err(r.error)
    ensures r.Ok? ==> bus.Valid() && bus.ranges.Valid() && Towards(goal, bus.Map(), len, address, 7)
    ensures r.Ok? ==> fresh(bus.bootloader.data) && HasBootloader(bus)
  {
    hide AddressMap.Install, AddressMap.SmpPlan, AddressMap.RoundUp, Towards;
    PlanEntries(len, address);
    var bootloader := new Ram(AddressMap.BOOTLOADER_SIZE, BOOTLOADER);
    NextReservation(goal, bus.Map(), len, address, 6);
    r := bus.SetBootloader(bootloader, AddressMap.BOOTLOADER_ADDR);
  }

  method PlaceMemories(bus: Bus, program: seq<u8>, address: nat, ghost goal: Result<AddressMap.Map>)
    returns (r: Result<Unit>)
    requires bus.Valid() && bus.ranges.Valid() && Towards(goal, bus.Map(), |program|, address, 0)
    modifies bus`ram, bus`ramRange, bus`stack, bus`stackRange, bus.ranges
    ensures r.Err? ==> goal == Err(r.error)
    ensures r.Ok? ==> bus.Valid() && bus.ranges.Valid() && Towards(goal, bus.Map(), |program|, address, 2)
    ensures r.Ok? ==> fresh(bus.ram.data) && fresh(bus.stack.data) && HasMemories(bus, program, address)
  {
    hide Towards, Padded, AddressMap.RoundUp;
    r := PlaceRam(bus, program, address, goal);
    if r.Err? {
      return;
    }
    r := PlaceStack(bus, |program|, address, goal);
  }

  method PlaceTimerAndSerial(bus: Bus, ncpu: nat, len: nat, address: nat, ghost goal: Result<AddressMap.Map>)
    returns (r: Result<Unit>)
    requires bus.Valid() && bus.ranges.Valid() && Towards(goal, bus.Map(), len, address, 2)
    modifies bus`clint, bus`clintRange, bus`uart, bus`uartRange, bus.ranges
    ensures r.Err? ==> goal == Err(r.error)
    ensures r.Ok? ==> bus.Valid() && bus.ranges.Valid() && Towards(goal, bus.Map(), len, address, 4)
    ensures r.Ok? ==> HasTimer(bus, ncpu) && HasSerial(bus) && fresh(bus.clint) && fresh(bus.uart)
  {
    hide Towards, HasTimer, HasSerial;
    r := PlaceTimer(bus, ncpu, len, address, goal);
    if r.Err? {
      return;
    }
    r := PlaceSerial(bus, len, address, goal);
  }

  method PlaceDiskAndPlic(bus: Bus, disk: seq<u8>, len: nat, address: nat, ghost goal: Result<AddressMap.Map>)
    returns (r: Result<Unit>)
    requires bus.Valid() && bus.ranges.Valid() && Towards(goal, bus.Map(), len, address, 4)
    modifies bus`virtio, bus`virtioRange, bus`plic, bus`plicRange, bus.ranges
    ensures r.Err? ==> goal == Err(r.error)
    ensures r.Ok? ==> bus.Valid() && bus.ranges.Valid() && Towards(goal, bus.Map(), len, address, 6)
    ensures r.Ok? ==> HasDisk(bus, disk) && HasPlic(bus)
    ensures r.Ok? ==> fresh(bus.virtio) && fresh({bus.plic.priority, bus.plic.enable, bus.plic.threshold})
  {
    hide Towards, HasDisk, HasPlic;
    r := PlaceDisk(bus, disk, len, address, goal);
    if r.Err? {
      return;
    }
    r := PlacePlic(bus, len, address, goal);
  }

  ghost predicate HasFirst(bus: Bus, program: seq<u8>, address: nat, ncpu: nat)
    reads bus`ram, bus`ramRange, bus`stack, bus`stackRange, bus.ram.data, bus.stack.data
    reads bus`clint, bus`clintRange, bus.clint, bus`uart, bus`uartRange, bus.uart
  {
    HasMemories(bus, program, address) && HasTimer(bus, ncpu) && HasSerial(bus)
  }

  ghost predicate HasLast(bus: Bus, disk: seq<u8>)
    reads bus`virtio, bus`virtioRange, bus.virtio, bus`bootloader, bus`bootloaderRange, bus.bootloader.data
    reads bus`plic, bus`plicRange, bus.plic.priority, bus.plic.enable, bus.plic.threshold
  {
    HasDisk(bus, disk) && HasPlic(bus) && HasBootloader(bus)
  }

  /** Image, stack, timer and serial port. */
  method PlaceFirst(bus: Bus, program: seq<u8>, address: nat, ncpu: nat, ghost goal: Result<AddressMap.Map>)
    returns (r: Result<Unit>)
    requires bus.Valid() && bus.ranges.Valid() && Towards(goal, bus.Map(), |program|, address, 0)
    modifies bus`ram, bus`ramRange, bus`stack, bus`stackRange
    modifies bus`clint, bus`clintRange, bus`uart, bus`uartRange, bus.ranges
    ensures r.Err? ==> goal == Err(r.error)
    ensures r.Ok? ==> bus.Valid() && bus.ranges.Valid() && Towards(goal, bus.Map(), |program|, address, 4)
    ensures r.Ok? ==> HasFirst(bus, program, address, ncpu)
    ensures r.Ok? ==> fresh(bus.ram.data) && fresh(bus.stack.data) && fresh(bus.clint) && fresh(bus.uart)
  {
    hide Towards, HasMemories, HasTimer, HasSerial;
    r := PlaceMemories(bus, program, address, goal);
    if r.Err? {
      return;
    }
    r := PlaceTimerAndSerial(bus, ncpu, |program|, address, goal);
  }

  /** Disk, interrupt controller and bootloader. */
  method PlaceLast(bus: Bus, disk: seq<u8>, len: nat, address: nat, ghost goal: Result<AddressMap.Map>)
    returns (r: Result<Unit>)
    requires bus.Valid() && bus.ranges.Valid() && Towards(goal, bus.Map(), len, address, 4)
    modifies bus`virtio, bus`virtioRange, bus`plic, bus`plicRange, bus`bootloader, bus`bootloaderRange, bus.ranges
    ensures r.Err? ==> goal == Err(r.error)
    ensures r.Ok? ==> bus.Valid() && bus.ranges.Valid() && Towards(goal, bus.Map(), len, address, 7)
    ensures r.Ok? ==> HasLast(bus, disk)
    ensures r.Ok? ==> fresh(bus.virtio) && fresh({bus.plic.priority, bus.plic.enable, bus.plic.threshold})
    ensures r.Ok? ==> fresh(bus.bootloader.data)
  {
    hide Towards, HasDisk, HasPlic, HasBootloader;
    r := PlaceDiskAndPlic(bus, disk, len, address, goal);
    if r.Err? {
      return;
    }
    r := PlaceBootloader(bus, len, address, goal);
  }

  /** Everything new_smp puts on the bus. */
  ghost predicate InPlace(bus: Bus, program: seq<u8>, address: nat, disk: seq<u8>, ncpu: nat)
    reads bus, bus.Footprint()
  {
    HasFirst(bus, program, address, ncpu) && HasLast(bus, disk)
  }

  method PlaceAll(bus: Bus, program: seq<u8>, address: nat, disk: seq<u8>, ncpu: nat,
                  ghost goal: Result<AddressMap.Map>) returns (r: Result<Unit>)
    requires bus.Valid() && bus.ranges.Valid() && Towards(goal, bus.Map(), |program|, address, 0)
    modifies bus, bus.ranges
    ensures r.Err? ==> goal == Err(r.error)
    ensures r.Ok? ==> bus.Valid() && bus.ranges.Valid() && Towards(goal, bus.Map(), |program|, address, 7)
    ensures r.Ok? ==> InPlace(bus, program, address, disk, ncpu)
    ensures r.Ok? ==> fresh(bus.ram.data) && fresh(bus.stack.data) && fresh(bus.bootloader.data)
    ensures r.Ok? ==> fresh(bus.clint) && fresh(bus.uart) && fresh(bus.virtio)
    ensures r.Ok? ==> fresh({bus.plic.priority, bus.plic.enable, bus.plic.threshold})
  {
    hide Towards, HasFirst, HasLast;
    r := PlaceFirst(bus, program, address, ncpu, goal);
    if r.Err? {
      return;
    }
    r := PlaceLast(bus, disk, |program|, address, goal);
  }

  /** Sets up the seven devices in program order. */
  method BuildBus(program: seq<u8>, address: nat, disk: seq<u8>, ncpu: nat) returns (r: Result<Bus>)
    ensures match AddressMap.InstallAll(AddressMap.EMPTY_MAP, AddressMap.SmpPlan(|program|, address))
            case Err(e) => r == Err(e)
            case Ok(m) =>
              && r.Ok? && r.value.Valid() && fresh(r.value.Footprint())
              && r.value.View() == PowerOnBus(program, address, disk, ncpu)
              && r.value.View().Layout() == m.layout
  {
    hide AddressMap.InstallAll, AddressMap.SmpPlan, Towards, PowerOnBus, InPlace;
    ghost var goal := AddressMap.InstallAll(AddressMap.EMPTY_MAP, AddressMap.SmpPlan(|program|, address));
    FirstReservation(goal, |program|, address);
    var bus := new BusObject.Bus();
    var done := PlaceAll(bus, program, address, disk, ncpu, goal);
    if done.Err? {
      return Err(done.error);
    }
    LastReservation(goal, bus.Map(), |program|, address);
    LayoutOf(bus);
    AllInPlace(bus, program, address, disk, ncpu);
    return Ok(bus);
  }

  lemma AllInPlace(bus: Bus, program: seq<u8>, address: nat, disk: seq<u8>, ncpu: nat)
    requires bus.Valid()
    requires InPlace(bus, program, address, disk, ncpu)
    ensures bus.View() == PowerOnBus(program, address, disk, ncpu)
  {
    hide Padded, AddressMap.RoundUp, Virtio.Grow;
  }

  /** The range fields are the extents of the devices. */
  lemma LayoutOf(bus: Bus)
    requires bus.Valid() && bus.ranges.Valid()
    ensures bus.View().Layout() == bus.Map().layout
  {
  }

  lemma FirstReservation(goal: Result<AddressMap.Map>, len: nat, address: nat)
    requires goal == AddressMap.InstallAll(AddressMap.EMPTY_MAP, AddressMap.SmpPlan(len, address))
    ensures Towards(goal, AddressMap.EMPTY_MAP, len, address, 0)
  {
    hide AddressMap.InstallAll;
    assert AddressMap.SmpPlan(len, address)[0..] == AddressMap.SmpPlan(len, address);
  }

  lemma LastReservation(goal: Result<AddressMap.Map>, m: AddressMap.Map, len: nat, address: nat)
    requires Towards(goal, m, len, address, 7)
    ensures goal == Ok(m)
  {
    assert AddressMap.SmpPlan(len, address)[7..] == [];
  }

  /** One hart per id, each with its own state. */
  method BuildHarts(ncpu: nat) returns (cpus: seq<Cpu>)
    requires ncpu <= MAX_HARTS
    ensures |cpus| == ncpu
    ensures forall i :: 0 <= i < ncpu ==>
              fresh(cpus[i].Footprint()) && cpus[i].Valid() && cpus[i].View() == NewSmpHart(i)
    ensures forall i, j :: 0 <= i < j < ncpu ==> cpus[i].Footprint() !! cpus[j].Footprint()
  {
    hide NewSmpHart;
    cpus := [];
    for i := 0 to ncpu
      invariant |cpus| == i
      invariant forall k :: 0 <= k < i ==>
                  fresh(cpus[k].Footprint()) && cpus[k].Valid() && cpus[k].View() == NewSmpHart(k)
      invariant forall j, k :: 0 <= j < k < i ==> cpus[j].Footprint() !! cpus[k].Footprint()
    {
      var cpu := BuildHart(i);
      cpus := cpus + [cpu];
    }
  }

  method BuildHart(i: nat) returns (cpu: Cpu)
    requires i < MAX_HARTS
    ensures fresh(cpu.Footprint()) && cpu.Valid() && cpu.View() == NewSmpHart(i)
  {
    hide HartId;
    cpu := new Cpu(HartId(i));
    cpu.attached := true;
    cpu.pc := 0x1000;
  }

  /** Harts and bus put together. */
  method Assemble(bus: Bus, ncpu: nat) returns (e: Xv6Emulator)
    requires bus.Valid() && ncpu <= MAX_HARTS
    ensures e.bus == bus && e.Valid() && fresh(e.CpuFootprints())
    ensures e.View() == PowerOn(ncpu, bus.View())
    ensures bus.Valid() && bus.View() == old(bus.View())
  {
    hide NewSmpHart, PowerOn;
    var cpus := BuildHarts(ncpu);
    e := Connect(bus, cpus, ncpu);
  }

  method Connect(bus: Bus, cpus: seq<Cpu>, ncpu: nat) returns (e: Xv6Emulator)
    requires bus.Valid() && ncpu <= MAX_HARTS && |cpus| == ncpu
    requires forall i :: 0 <= i < ncpu ==> cpus[i].On(bus) && cpus[i].View() == NewSmpHart(i)
    requires forall i, j :: 0 <= i < j < ncpu ==> cpus[i].Footprint() !! cpus[j].Footprint()
    ensures e.bus == bus && e.cpus == cpus && e.Valid() && e.View() == PowerOn(ncpu, bus.View())
  {
    hide NewSmpHart, PowerOn;
    e := new Xv6Emulator(bus, cpus);
    SameHarts(e, ncpu);
  }

  lemma SameHarts(e: Xv6Emulator, ncpu: nat)
    requires e.bus.Valid() && e.Valid() && ncpu <= MAX_HARTS && |e.cpus| == ncpu
    requires forall i :: 0 <= i < ncpu ==> e.cpus[i].View() == NewSmpHart(i)
    ensures e.View() == PowerOn(ncpu, e.bus.View())
  {
    hide NewSmpHart;
    assert e.View().harts == PowerOn(ncpu, e.bus.View()).harts;
  }

  /** Fails exactly as the planned map does; otherwise the machine is powered on: fresh harts in their
      reset state over exactly the bus the plan describes. */
  method NewSmp(program: seq<u8>, address: nat, disk: seq<u8>, ncpu: nat) returns (r: Result<Xv6Emulator>)
    ensures match AddressMap.NewSmp(|program|, address, ncpu)
            case Err(e) => r == Err(e)
            case Ok(m) =>
              && r.Ok? && r.value.bus.Valid() && r.value.Valid() && ncpu <= MAX_HARTS
              && fresh(r.value.CpuFootprints()) && fresh(r.value.bus.Footprint())
              && r.value.View() == PowerOn(ncpu, PowerOnBus(program, address, disk, ncpu)) && Ready(r.value.View())
              && r.value.bus.View().Layout() == m.layout
  {
    hide AddressMap.InstallAll, AddressMap.SmpPlan, AddressMap.RoundUp, PowerOn, PowerOnBus, Ready, Fresh;
    if ncpu == 0 || ncpu > PlicModel.MAX_CONTEXTS / 2 {
      return Err(BadHartCount);
    }
    if AddressMap.RoundUp(|program|) + address >= TWO_64 {
      return Err(Overflow);
    }
    var bus := BuildBus(program, address, disk, ncpu);
    if bus.Err? {
      return Err(bus.error);
    }
    TimerPerHart(program, address, disk, ncpu);
    PowerOnReady(ncpu, bus.value.View());
    var emulator := Assemble(bus.value, ncpu);
    return Ok(emulator);
  }

  lemma TimerPerHart(program: seq<u8>, address: nat, disk: seq<u8>, ncpu: nat)
    ensures |PowerOnBus(program, address, disk, ncpu).clint.mtimecmp| == ncpu
  {
  }

  // ---------- end to end ----------

  /** What holds of a machine after power-on and a number of rounds: it is in the state the schedule
      leads to from the planned power-on state, everything proved of every run holds of it, and its
      address map is the planned one. */
  ghost predicate Ran(e: Xv6Emulator, stopped: Option<Error>, start: Board, turns: seq<Turn>, m: AddressMap.Map)
    reads e.bus, e.bus.Footprint(), e.CpuFootprints()
  {
    && e.bus.Valid() && e.Valid() && Ready(start) && Schedule(turns, |start.harts|)
    && e.View() == Smp.Run(start, turns) && stopped == Failure(start, turns)
    && Upheld(e.View(), SeenRun(start, seq(|start.harts|, _ => []), turns))
    && e.View().bus.Layout() == m.layout
  }

  /** Building the machine and running it. For a placeable image the address map is sorted, disjoint and
      in agreement with the dispatch chain. */
  method BootAndRun(program: seq<u8>, address: nat, disk: seq<u8>, ncpu: nat, rounds: seq<seq<seq<u8>>>)
    returns (r: Result<Xv6Emulator>, stopped: Option<Error>)
    requires forall k :: 0 <= k < |rounds| ==> |rounds[k]| == ncpu
    ensures match AddressMap.NewSmp(|program|, address, ncpu)
            case Err(e) => r == Err(e)
            case Ok(m) =>
              && r.Ok? && ncpu <= MAX_HARTS
              && Ran(r.value, stopped, PowerOn(ncpu, PowerOnBus(program, address, disk, ncpu)), Rounds(rounds, ncpu), m)
              && (AddressMap.Placeable(|program|, address) ==> AddressMap.Sound(m))
  {
    hide AddressMap.NewSmp, AddressMap.Placeable, AddressMap.Sound, PowerOn, PowerOnBus, Ready, Smp.Run, SeenRun,
      Failure, Rounds, Upheld;
    stopped := None;
    r := NewSmp(program, address, disk, ncpu);
    if r.Err? {
      return;
    }
    PlannedMap(|program|, address, ncpu);
    TimerPerHart(program, address, disk, ncpu);
    HartPerCpu(ncpu, PowerOnBus(program, address, disk, ncpu));
    EveryRun(ncpu, PowerOnBus(program, address, disk, ncpu), Rounds(rounds, ncpu));
    stopped := r.value.Run(rounds);
  }

  lemma HartPerCpu(n: nat, b: SystemBus.Bus)
    requires n <= MAX_HARTS
    ensures |PowerOn(n, b).harts| == n && PowerOn(n, b).bus == b
  {
  }

  lemma PlannedMap(len: nat, address: nat, ncpu: nat)
    requires AddressMap.NewSmp(len, address, ncpu).Ok?
    ensures AddressMap.Placeable(len, address) ==> AddressMap.Sound(AddressMap.NewSmp(len, address, ncpu).value)
  {
    hide AddressMap.InstallAll, AddressMap.Sound, AddressMap.Placeable;
    AddressMap.NewSmpSoundIff(len, address, ncpu);
  }
}
