/** How many interrupts a hart can take in a row, over whole runs of the machine (trap.rs, cpu.rs). */
module Storms {
  import opened Base
  import opened HartState
  import opened Rv64
  import opened Machine
  import opened Smp
  import Trap

  /** The interrupt check at the start of a turn. */
  function Check(s: Board, t: Turn): Trap.Sampled
    requires Ready(s) && t.hart < |s.harts|
  {
    var (h, b) := Tick(s.harts[t.hart], s.bus, t.input);
    Trap.CheckInterrupt(h, TimerLine(h, b), ExternalLine(h, b))
  }

  /** The instruction of the turn leaves mode, mstatus and mideleg alone. */
  predicate Undisturbed(s: Board, t: Turn)
    requires Ready(s) && t.hart < |s.harts|
  {
    Trap.Quiet(Check(s, t).hart, Acts(s, t).hart)
  }

  /** No instruction of hart i changes mode, mstatus or mideleg; the other harts do as they like. */
  predicate QuietFor(s: Board, turns: seq<Turn>, i: nat)
    requires Ready(s) && Schedule(turns, |s.harts|) && i < |s.harts|
    decreases |turns|
  {
    turns != [] ==>
      && (turns[0].hart == i ==> Undisturbed(s, turns[0]))
      && (Acts(s, turns[0]).next.Ok? ==> QuietFor(Advance(s, turns[0]), turns[1..], i))
  }

  /** The mode entered if the turn delivers an interrupt to hart i. */
  function DeliveredTo(s: Board, t: Turn, i: nat): seq<bv2>
    requires Ready(s) && t.hart < |s.harts|
  {
    if t.hart == i && Check(s, t).taken.Some? then [Check(s, t).hart.mode] else []
  }

  /** The modes entered by the interrupts delivered to hart i during the run. */
  function DeliveriesTo(s: Board, turns: seq<Turn>, i: nat): seq<bv2>
    requires Ready(s) && Schedule(turns, |s.harts|) && i < |s.harts|
    decreases |turns|
  {
    if turns == [] then []
    else if Acts(s, turns[0]).next.Err? then DeliveredTo(s, turns[0], i)
    else DeliveredTo(s, turns[0], i) + DeliveriesTo(Advance(s, turns[0]), turns[1..], i)
  }

  lemma TickKeepsBudget(h: Hart, b: Bus, input: seq<u8>)
    ensures Trap.Budget(Tick(h, b, input).0) == Trap.Budget(h)
  {
    hide Trap.Sie, Trap.Mie;
  }

  lemma QuietKeepsBudget(h: Hart, h': Hart)
    requires Trap.Quiet(h, h')
    ensures Trap.Budget(h') == Trap.Budget(h)
  {
    hide Trap.Sie, Trap.Mie;
  }

  /** What a turn does to hart i's budget. */
  lemma TurnSpendsBudget(s: Board, t: Turn, i: nat)
    requires Ready(s) && t.hart < |s.harts| && i < |s.harts| && (t.hart == i ==> Undisturbed(s, t))
    ensures var left, d := Trap.Budget(Advance(s, t).harts[i]), DeliveredTo(s, t, i);
            && (d == [] ==> left == Trap.Budget(s.harts[i]))
            && (d != [] ==> left < Trap.Budget(s.harts[i]))
            && (d != [] ==> (d == [PRIV_S] && left == 1) || (d == [PRIV_M] && left == 0))
  {
    hide Trap.CheckInterrupt, Trap.Budget, Step, HartInvariant, Tick, TimerLine, ExternalLine, Trap.Quiet;
    if t.hart == i {
      var (h, b) := Tick(s.harts[i], s.bus, t.input);
      TickKeepsBudget(s.harts[i], s.bus, t.input);
      Trap.DeliverySpendsBudget(h, TimerLine(h, b), ExternalLine(h, b));
      QuietKeepsBudget(Check(s, t).hart, Acts(s, t).hart);
      if Check(s, t).taken.None? {
        QuietKeepsBudget(h, Check(s, t).hart);
      }
    }
  }

  /** In every run, between two changes of mode, mstatus or mideleg that hart i's own instructions
      make, at most two interrupts reach it: one into S and then one into M, or one into M; none when
      it runs in M with interrupts off. Timer, devices, mip and the other harts are arbitrary. */
  lemma {:induction false} AtMostTwoInARun(s: Board, turns: seq<Turn>, i: nat)
    requires Ready(s) && Schedule(turns, |s.harts|) && i < |s.harts| && QuietFor(s, turns, i)
    ensures |DeliveriesTo(s, turns, i)| <= Trap.Budget(s.harts[i]) <= 2
    ensures |DeliveriesTo(s, turns, i)| == 2 ==> DeliveriesTo(s, turns, i) == [PRIV_S, PRIV_M]
    ensures Trap.Budget(s.harts[i]) == 1 && DeliveriesTo(s, turns, i) != [] ==> DeliveriesTo(s, turns, i) == [PRIV_M]
    decreases |turns|
  {
    hide Acts, Advance, ReadyHart, Undisturbed, DeliveredTo, Trap.Sie, Trap.Mie;
    if turns != [] {
      TurnSpendsBudget(s, turns[0], i);
      if Acts(s, turns[0]).next.Ok? {
        AtMostTwoInARun(Advance(s, turns[0]), turns[1..], i);
      }
    }
  }
}
