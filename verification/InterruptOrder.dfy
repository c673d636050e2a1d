/** The interrupt the standard would take (section 3.1.9 of the RISC-V Privileged Specification
    20211203), and exactly when the emulator's fixed order (trap.rs) takes the same one. */
module InterruptOrder {
  import opened Base
  import opened HartState
  import opened Trap

  /** mideleg sends the cause to S. */
  predicate ToS(h: Hart, cause: bv6) {
    BitAt(DelegationWord(h, true), cause)
  }

  predicate MachineOpen(h: Hart) {
    h.mode == PRIV_M ==> Mie(h.csrs[MSTATUS])
  }

  predicate SupervisorOpen(h: Hart) {
    h.mode == PRIV_U || (h.mode == PRIV_S && Sie(h.csrs[MSTATUS]))
  }

  /** First pending and enabled cause from position k on that mideleg sends to S, or to M. */
  function FirstBound(h: Hart, enabled: bv64, toS: bool, k: nat): Option<bv6>
    requires k <= |PRIORITY|
    decreases |PRIORITY| - k
  {
    if k == |PRIORITY| then None
    else if Pending(enabled, PRIORITY[k]) && ToS(h, PRIORITY[k]) == toS then Some(PRIORITY[k])
    else FirstBound(h, enabled, toS, k + 1)
  }

  /** The standard's choice among the causes from position k on: those bound for M outrank those bound
      for S, and the latter are masked in M. */
  function ChoiceFrom(h: Hart, enabled: bv64, k: nat): Option<bv6>
    requires k <= |PRIORITY|
  {
    if MachineOpen(h) && FirstBound(h, enabled, false, k).Some? then FirstBound(h, enabled, false, k)
    else if SupervisorOpen(h) then FirstBound(h, enabled, true, k)
    else None
  }

  function StandardChoice(h: Hart, enabled: bv64): Option<bv6> {
    ChoiceFrom(h, enabled, 0)
  }

  /** The emulator takes a delegated cause that the standard passes over: it is the first deliverable
      one, and the hart is outside U and S or a later pending cause is bound for M. */
  predicate TakenTooEarly(h: Hart, enabled: bv64, k: nat)
    requires k < |PRIORITY|
  {
    && Deliverable(h, enabled, PRIORITY[k]) && ToS(h, PRIORITY[k])
    && (forall i :: 0 <= i < k ==> !Deliverable(h, enabled, PRIORITY[i]))
    && (|| (h.mode != PRIV_U && h.mode != PRIV_S)
        || exists j :: k < j < |PRIORITY| && Pending(enabled, PRIORITY[j]) && !ToS(h, PRIORITY[j]))
  }

  /** The same, looking from position k on only. */
  predicate Diverges(h: Hart, enabled: bv64, k: nat)
    requires k <= |PRIORITY|
    decreases |PRIORITY| - k
  {
    if k == |PRIORITY| then false
    else if Deliverable(h, enabled, PRIORITY[k]) then
      ToS(h, PRIORITY[k]) && ((h.mode != PRIV_U && h.mode != PRIV_S) || FirstBound(h, enabled, false, k + 1).Some?)
    else Diverges(h, enabled, k + 1)
  }

  /** A bound cause found from k on stands at or after k. */
  lemma {:induction false} BoundIsLater(h: Hart, enabled: bv64, toS: bool, k: nat)
    requires k <= |PRIORITY|
    ensures FirstBound(h, enabled, toS, k).Some? <==>
              exists j :: k <= j < |PRIORITY| && Pending(enabled, PRIORITY[j]) && ToS(h, PRIORITY[j]) == toS
    ensures FirstBound(h, enabled, toS, k).Some? ==>
              exists j :: k <= j < |PRIORITY| && FirstBound(h, enabled, toS, k) == Some(PRIORITY[j])
    decreases |PRIORITY| - k
  {
    hide Pending, ToS;
    if k < |PRIORITY| {
      BoundIsLater(h, enabled, toS, k + 1);
    }
  }

  lemma OrderIsStrict(i: nat, j: nat)
    requires i < j < |PRIORITY|
    ensures PRIORITY[i] != PRIORITY[j]
  {
  }

  /** What the code's rule means for a cause by its destination. */
  lemma TakeableByDestination(h: Hart, cause: bv6)
    ensures !ToS(h, cause) ==> (Takeable(h, cause) <==> MachineOpen(h))
    ensures ToS(h, cause) && (h.mode == PRIV_U || h.mode == PRIV_S) ==> (Takeable(h, cause) <==> SupervisorOpen(h))
    ensures ToS(h, cause) && h.mode == PRIV_M ==> (Takeable(h, cause) <==> MachineOpen(h))
  {
    hide BitAt, DelegationWord, Sie, Mie;
  }

  lemma OutsideIsClosed(h: Hart)
    ensures h.mode != PRIV_U && h.mode != PRIV_S ==> !SupervisorOpen(h)
    ensures h.mode != PRIV_M ==> MachineOpen(h)
  {
    hide Sie, Mie;
  }

  lemma {:induction false} AgreeFrom(h: Hart, enabled: bv64, k: nat)
    requires k <= |PRIORITY|
    ensures FirstFrom(h, enabled, k) == ChoiceFrom(h, enabled, k) <==> !Diverges(h, enabled, k)
    decreases |PRIORITY| - k
  {
    hide Pending, ToS, Takeable, MachineOpen, SupervisorOpen;
    if k < |PRIORITY| {
      AgreeFrom(h, enabled, k + 1);
      TakeableByDestination(h, PRIORITY[k]);
      OutsideIsClosed(h);
      BoundIsLater(h, enabled, false, k + 1);
      BoundIsLater(h, enabled, true, k + 1);
      forall j | k < j < |PRIORITY|
        ensures PRIORITY[k] != PRIORITY[j]
      {
        OrderIsStrict(k, j);
      }
    }
  }

  lemma {:induction false} DivergesSomewhere(h: Hart, enabled: bv64, k: nat)
    requires k <= |PRIORITY| && forall i :: 0 <= i < k ==> !Deliverable(h, enabled, PRIORITY[i])
    ensures Diverges(h, enabled, k) <==> exists i :: k <= i < |PRIORITY| && TakenTooEarly(h, enabled, i)
    decreases |PRIORITY| - k
  {
    hide Deliverable, ToS, Pending;
    if k < |PRIORITY| {
      if Deliverable(h, enabled, PRIORITY[k]) {
        BoundIsLater(h, enabled, false, k + 1);
        assert Diverges(h, enabled, k) <==> TakenTooEarly(h, enabled, k);
      } else {
        DivergesSomewhere(h, enabled, k + 1);
      }
    }
  }

  /** The hart as check_interrupt sees it, with the device lines in mip. */
  function Sampling(h: Hart, timer: Option<bool>, external: Option<bool>): Hart {
    h.SetCsr(MIP, SampledMip(h.csrs[MIP], timer, external))
  }

  lemma TakenIsFirst(h: Hart, timer: Option<bool>, external: Option<bool>)
    ensures var h1 := Sampling(h, timer, external);
            CheckInterrupt(h, timer, external).taken == FirstFrom(h1, Enabled(h1), 0)
  {
    hide SampledMip, Enabled, Deliverable, RaiseTrap, FirstFrom;
    var h1 := Sampling(h, timer, external);
    NothingDeliverable(h1);
    FirstIsFirst(h1, Enabled(h1), 0);
  }

  /** check_interrupt takes the standard's choice if and only if it does not take a delegated cause
      too early: in M (where the standard masks it), in the reserved mode, or ahead of a pending cause
      bound for M. */
  lemma FollowsStandardIff(h: Hart, timer: Option<bool>, external: Option<bool>)
    ensures var h1 := Sampling(h, timer, external);
            CheckInterrupt(h, timer, external).taken == StandardChoice(h1, Enabled(h1)) <==>
            forall k :: 0 <= k < |PRIORITY| ==> !TakenTooEarly(h1, Enabled(h1), k)
  {
    hide CheckInterrupt, Sampling, Enabled, FirstFrom, ChoiceFrom, Diverges, TakenTooEarly;
    var h1 := Sampling(h, timer, external);
    TakenIsFirst(h, timer, external);
    AgreeFrom(h1, Enabled(h1), 0);
    DivergesSomewhere(h1, Enabled(h1), 0);
  }

  /** A hart in the given mode with SIE and MIE set and the given causes delegated, pending and enabled. */
  function Example(mode: bv2, mideleg: bv64, pending: bv64): Hart {
    var h := NewHart(0, false).SetCsr(MSTATUS, 0xa).SetCsr(MIDELEG, mideleg);
    h.SetCsr(MIP, pending).SetCsr(MIE, pending).(mode := mode)
  }

  lemma ExampleFields(mode: bv2, mideleg: bv64, pending: bv64)
    ensures var h := Example(mode, mideleg, pending);
            && h.mode == mode && h.csrs[MSTATUS] == 0xa && h.csrs[MIDELEG] == mideleg
            && Sampling(h, None, None) == h && Enabled(h) == pending
  {
    hide NewHart, Enabled, Sampling;
    var h := Example(mode, mideleg, pending);
    EnabledOf(h, pending);
    NothingSampled(h);
  }

  lemma EnabledOf(h: Hart, w: bv64)
    requires h.csrs[MIP] == w && h.csrs[MIE] == w
    ensures Enabled(h) == w
  {
    SelfMask(w);
  }

  lemma SelfMask(w: bv64)
    ensures w & w == w
  {
  }

  lemma NothingSampled(h: Hart)
    ensures Sampling(h, None, None) == h
  {
    assert h.csrs[MIP := h.csrs[MIP]] == h.csrs;
  }

  lemma ExampleBits()
    ensures Sie(0xa) && Mie(0xa)
    ensures BitAt(Delegatable(0x200), 9) && !BitAt(Delegatable(0x200), 5)
    ensures forall c: bv6 :: c == 11 || c == 3 || c == 7 || c == 1 || c == 5 ==> !Pending(0x200, c)
    ensures forall c: bv6 :: c == 11 || c == 3 || c == 7 || c == 1 ==> !Pending(0x220, c)
    ensures Pending(0x200, 9) && Pending(0x220, 9) && Pending(0x220, 5)
  {
  }

  /** In M with MIE set the delegated cause 9 is taken, into M; the standard masks it. */
  lemma TakesMaskedCause()
    ensures var h := Example(PRIV_M, 0x200, 0x200);
            && CheckInterrupt(h, None, None).taken == Some(9)
            && CheckInterrupt(h, None, None).hart.mode == PRIV_M
            && StandardChoice(Sampling(h, None, None), Enabled(Sampling(h, None, None))) == None
  {
    hide Example, Sampling, Enabled, Sie, Mie, BitAt, Delegatable, Pending, EnterS, EnterM, CauseWord, Vector;
    var h := Example(PRIV_M, 0x200, 0x200);
    ExampleFields(PRIV_M, 0x200, 0x200);
    ExampleBits();
    TakenIsFirst(h, None, None);
  }

  /** In S the delegated cause 9 is taken ahead of cause 5, which is bound for M and outranks it. */
  lemma TakesLowerLevelFirst()
    ensures var h := Example(PRIV_S, 0x200, 0x220);
            && CheckInterrupt(h, None, None).taken == Some(9)
            && StandardChoice(Sampling(h, None, None), Enabled(Sampling(h, None, None))) == Some(5)
  {
    hide Example, Sampling, Enabled, Sie, Mie, BitAt, Delegatable, Pending, RaiseTrap, CheckInterrupt;
    var h := Example(PRIV_S, 0x200, 0x220);
    ExampleFields(PRIV_S, 0x200, 0x220);
    ExampleBits();
    TakenIsFirst(h, None, None);
  }
}
