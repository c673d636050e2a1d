# rv64rs: verified model of a multi-hart RV64 emulator

`rv64rs` emulates a RISC-V machine with several harts on one bus: Sv39 translation behind a software
TLB, a trap and interrupt state machine, a VirtIO block device with DMA, compressed and full
instructions, an interrupt controller and a round-robin loop that steps every hart against the shared
bus. This project models those parts in Dafny and proves what they promise.

It has three layers. The value-level layer describes each component as functions on immutable state
(`Hart`, `Bus`, `Board`) and carries the theorems, from single instructions up to arbitrary runs of
up to 32 harts. The object layer (`Components`, `RangeTable`, `BusObject`, `CpuObject`,
`EmulatorObject`) has the emulator's own shape: classes with arrays and fields changed in place, the
page-walk, priority, descriptor, queue, bisection and run loops. Each of its methods is proved to
compute the value-level function, so the theorems carry over to it. The third layer pins the first
down from outside, in the words of the architecture: literal addresses a driver writes, bit positions
a handler reads, assembled instruction words and the numbers registers hold.

`dafny verify dfyconfig.toml` checks everything.

## Files

- `Base.dfy`, `Memory.dfy`: results and errors, words as bit vectors and as numbers, little-endian memories
- `AddressMap.dfy`, `Devices.dfy`, `SystemBus.dfy`: range table and dispatch chain, timer, interrupt controller, serial port, the bus
- `Virtio.dfy`, `VirtioQueue.dfy`: descriptor chains, requests, rings, notifications
- `Mmu.dfy`, `Trap.dfy`, `InterruptOrder.dfy`: Sv39 with the TLB; CSRs, traps, returns, interrupts and the standard's order
- `Numbers.dfy`, `Extensions.dfy`: shifts, joins and sign extensions as statements about numbers
- `Encoding.dfy`, `MulDiv.dfy`, `Rv64.dfy`, `Rv64M.dfy`, `LoadStore.dfy`, `Compare.dfy`, `Rvc.dfy`: instruction formats and semantics
- `Machine.dfy`, `Smp.dfy`, `Storms.dfy`, `Swap.dfy`, `Boot.dfy`: steps, runs, interrupt bounds, atomic swaps, power-on to kernel entry
- `PageTables.dfy`, `UsedRing.dfy`, `QueueRegisters.dfy`, `InterruptPath.dfy`, `SerialPort.dfy`: what page tables, rings and device registers mean by literal address and place value
- `TrapLaws.dfy`, `Isa.dfy`, `IsaWord.dfy`, `IsaMemory.dfy`, `IsaSystem.dfy`, `Fields.dfy`: what traps and assembled instructions do, by CSR number, bit position and number held
- `Components.dfy`, `RangeTable.dfy`, `BusObject.dfy`, `CpuObject.dfy`, `EmulatorObject.dfy`: the object layer

## Results in brief

- No TLB entry is ever staler than its hart's last fence, in any interleaving; while the cached paths are
  untouched the TLB is invisible, and exactly a coherent TLB is.
- Compressed instructions mean their expansions, with one exact exception.
- Batched queue service equals one-at-a-time service; ring indices stay in step for arbitrary guest memory.
- Trap and return undo each other, nested too; at most two interrupts arrive between guest status changes.
- Atomic swaps conserve values over every interleaving; failing instructions leave no trace but TLB entries.
- From power-on every hart reaches the kernel's entry with its own id in a0, in every interleaving.
- Register writes at their bus addresses raise exactly the mip bits they should, on exactly the right hart; a
  queue set up over the bus completes exactly the published heads.
- The hard-coded dispatch chain equals the sorted lookup; new_smp's layout is sound exactly when stated.

## Where the code differs from its description

- `add_range` promises to reject overlaps with a neighbour, but its middle-insert branch checks only the
  successor (rv64rs/src/bus.rs:93-102): `AddressMap.AddAcceptsOverlap` and `AddressMap.AddKeepsDisjointIff`.
- C.JR and C.JALR keep bit 0 of the target, which JALR clears: the exception in `Rvc.CompressedIsExpansion`,
  shown on a word by `Rvc.OddJump`.
- Low-half writes of ring addresses are not cut to 32 bits (rv64rs/src/virtio.rs:143-148):
  `VirtioMmio.LowWriteExactIff` says when that shows, `QueueRegisters.WrongRingAddress` shows it.
- MPP = 2 is stored and MRET loads it (`Rv64.ReservedModeReached`): `Trap.SRoundTripIff` and
  `Trap.PrivilegeDropsIff` name that mode as the only one a delegated trap does not restore or lowers.
- Section 3.1.9 of the RISC-V Privileged Specification 20211203 masks delegated causes in M and lets causes
  bound for M outrank those bound for S; the code takes any enabled cause in M and uses one fixed order.
  `InterruptOrder.FollowsStandardIff` says exactly when the two choose the same cause,
  `InterruptOrder.TakesMaskedCause` and `InterruptOrder.TakesLowerLevelFirst` show where they do not.

## Model

| member | source | states |
|---|---|---|
| `Mmu.WalkFrame` | rv64rs/src/mmu.rs:158-182 | A page walk is determined by the page-table entries it reads: on any other bus that holds the same entries along the path it finds the same leaf or the same fault |
| `Mmu.WalkReads` | rv64rs/src/mmu.rs:160-182 | A walk makes at least one and at most three page-table reads |
| `Mmu.WalkChangesNothing` | rv64rs/src/mmu.rs:168-168 | None of these reads changes any device |
| `Mmu.WalkInRange` | rv64rs/src/mmu.rs:160-182 | Every page-table entry a walk reads is 8-byte aligned and lies below 2^56, so no entry address overflows |
| `Mmu.WalkYields` | rv64rs/src/mmu.rs:184-210 | A translated address is the leaf frame times 4096 plus the address modulo 2^(12+9L) for a leaf at level L, lies below 2^56, and the leaf grants the access |
| `Mmu.PageIsUniform` | rv64rs/src/mmu.rs:188-202 | All addresses of one page or superpage translate through the same leaf, so differences inside a superpage are preserved |
| `Mmu.RefillMatches` | rv64rs/src/mmu.rs:204-208 | The entry cached on a miss is exactly what a walk of those tables says about its page, permissions included |
| `Mmu.TranslateRefills` | rv64rs/src/mmu.rs:139-211 | Translation keeps the TLB well formed, and any entry it adds matches the current page tables |
| `Mmu.CoherentIsTransparent` | riscvm/mmu.py:37-83 | With a coherent TLB, cached translation gives the same address or the same fault as the uncached reference walk, for every address and access kind |
| `Mmu.TransparentIffCoherent` | rv64rs/src/mmu.rs:145-156 | Under Sv39 a well-formed TLB answers every translation as the walk does if and only if each valid entry matches the tables |
| `Mmu.SecondTranslation` | rv64rs/src/mmu.rs:139-211 | Right after a successful translation, a second one for another access kind reaches the same address if it is allowed at all, even on changed page tables |
| `Mmu.StoreOffPath` | rv64rs/src/mmu.rs:160-182 | A memory store that touches none of the entries of a walk leaves that walk's path unchanged |
| `PageTables.GigaPage` | rv64rs/src/mmu.rs:131-211 | With an entry frame * 1024 + flags at satp % 2^44 * 4096 + 8 * (va / 2^30 % 512), translation answers frame * 4096 + va % 2^30 exactly when V is set, R or X is set, the bit for the access (2, 4 or 8) is set and the frame is a multiple of 2^18; each other case gives its fault |
| `PageTables.MegaPage` | rv64rs/src/mmu.rs:131-211 | The same for a 2 MB leaf below one pointer entry, with va / 2^21 % 512 and va % 2^21 |
| `PageTables.SmallPage` | rv64rs/src/mmu.rs:131-211 | The same for a 4 KB leaf below two pointer entries, with va / 2^12 % 512 and va % 2^12; a pointer at the last level is a fault |
| `PageTables.OtherModes` | rv64rs/src/mmu.rs:131-137 | satp mode 0 is the identity; every mode but 0 and 8 is an error |
| `CpuObject.Tlb.Insert` | rv64rs/src/mmu.rs:89-91 | Filling a slot replaces exactly the entry its page number maps to |
| `CpuObject.Tlb.Lookup` | rv64rs/src/mmu.rs:79-86 | A hit is a valid entry with the same page number in its slot |
| `CpuObject.Tlb.Flush` | rv64rs/src/mmu.rs:97-101 | The flush loop invalidates every entry and changes nothing else |
| `CpuObject.WalkTables` | rv64rs/src/mmu.rs:158-182 | The walk loop computes the recursive reference walk and leaves the bus as it was |
| `CpuObject.MergeFields` | rv64rs/src/mmu.rs:188-202 | The superpage loop combines the leaf frame with the low page-number fields of the address, rejecting misaligned leaves |
| `CpuObject.TranslatePaged` | rv64rs/src/mmu.rs:139-211 | The in-place translation (hit, permission fault, miss, refill) has the result and the TLB of the value-level translation |
| `CpuObject.Cpu.Translate` | rv64rs/src/mmu.rs:131-137 | Bare mode is the identity and leaves the TLB alone; otherwise paged translation |
| `Trap.SupervisorView` | rv64rs/src/trap.rs:50-83 | A write through sstatus, sie or sip reads back under its mask and leaves every machine bit outside the mask alone |
| `Trap.SupervisorFrame` | rv64rs/src/trap.rs:67-91 | Such a write changes only the machine register behind the view; the raw supervisor slot is not written |
| `Trap.SRoundTripIff` | rv64rs/src/trap.rs:105-117 | A delegated trap followed by SRET, with any handler that keeps the S record and MIE, restores pc, mode, SIE and MIE if and only if the hart ran in U or S |
| `Trap.MRoundTrip` | rv64rs/src/execute.rs:323-334 | A trap into M from any mode, M included, followed by MRET restores pc, mode, SIE and MIE |
| `Trap.NestedRoundTrip` | rv64rs/src/execute.rs:306-334 | Delegated trap, then a trap into M inside the S handler, then MRET and SRET: both interrupted contexts come back |
| `Trap.SHandlerFinds` | rv64rs/src/trap.rs:105-117 | After a delegated trap the handler finds pc, cause, interrupt flag and trap value in the S record; every other CSR but mstatus, the registers and the TLB are unchanged |
| `Trap.MHandlerFinds` | rv64rs/src/trap.rs:118-129 | The same for the M record |
| `Trap.CheckIsExact` | rv64rs/src/trap.rs:137-176 | An interrupt is taken if and only if some cause is pending, enabled and takeable; the one taken is the first such cause in priority order, delivered as raise_trap delivers it, and otherwise only mip changes |
| `InterruptOrder.FollowsStandardIff` | rv64rs/src/trap.rs:157-175 | check_interrupt takes the cause section 3.1.9 of the Privileged Specification would take if and only if the first deliverable cause is not a delegated one taken outside U and S or ahead of a pending cause bound for M |
| `InterruptOrder.TakesMaskedCause` | rv64rs/src/trap.rs:157-175 | In M with MIE set, a pending delegated cause 9 is taken into M; the standard takes nothing |
| `InterruptOrder.TakesLowerLevelFirst` | rv64rs/src/trap.rs:157-175 | In S, a delegated cause 9 is taken ahead of a pending cause 5 bound for M; the standard takes 5 |
| `Rv64.ReservedModeReached` | rv64rs/src/execute.rs:323-334 | A CSR write of mstatus with MPP = 2 followed by MRET leaves the hart in mode 2; a delegated exception from there enters S and SRET resumes in U |
| `Trap.MachineCausesStayInM` | rv64rs/src/trap.rs:95-101 | Interrupt causes 3, 7 and 11 always trap into M, whatever mideleg holds |
| `Trap.PrivilegeDropsIff` | rv64rs/src/trap.rs:95-130 | Trap entry lowers the privilege in exactly one case: a delegated trap out of the reserved mode 2 |
| `Trap.DeliverySpendsBudget` | rv64rs/src/trap.rs:137-176 | Each delivery strictly lowers the number of further interrupts the enables can let through |
| `TrapLaws.HandlerAddress` | rv64rs/src/trap.rs:95-130 | A trap continues in S at stvec / 4 * 4 (CSR 0x105) when the mode is not 3 and the cause's bit is set in medeleg (0x302), or for an interrupt in mideleg (0x303) without bits 3, 7 and 11; otherwise in M at mtvec / 4 * 4 (0x305) |
| `TrapLaws.InterruptEntry` | rv64rs/src/trap.rs:157-175 | A delivered interrupt continues at the handler of the level it goes to |
| `TrapLaws.StatusOnEntry` | rv64rs/src/trap.rs:105-129 | By bit position: a trap into S moves bit 1 to bit 5, clears bit 1 and sets bit 8 to whether it came from S; one into M moves bit 3 to 7, clears 3 and puts the mode into 12..11; every other bit stays |
| `TrapLaws.StatusOnSret` | rv64rs/src/execute.rs:306-317 | By bit position: bit 5 to bit 1, bit 5 set, bit 8 cleared, every other bit kept |
| `TrapLaws.StatusOnMret` | rv64rs/src/execute.rs:323-334 | By bit position: bit 7 to bit 3, bit 7 set, bits 12..11 cleared, every other bit kept |
| `TrapLaws.CsrReads` | rv64rs/src/trap.rs:59-65 | CSRs 0x100, 0x104 and 0x144 read 0x300, 0x304 and 0x344 under 0x122, 0x222 and 0x222; every other number reads its own register |
| `TrapLaws.CsrWrites` | rv64rs/src/trap.rs:67-91 | Writes mix under the same masks; 0xf14 ignores them, 0x180 empties the TLB, every other number writes its own register only |
| `TrapLaws.FirstLetThrough` | rv64rs/src/trap.rs:137-176 | In the order 11, 3, 7, 9, 1, 5 the first cause whose bit is set in 0x344 and 0x304 and that mstatus bit 1 (S) or 3 (M) lets through is taken, and none if and only if there is none |
| `Storms.AtMostTwoInARun` | rv64rs/src/trap.rs:137-176 | In every run of any number of harts, between two changes of mode, mstatus or mideleg by a hart's own instructions, that hart takes at most two interrupts: one into S and then one into M |
| `Trap.CheckKeeps` | rv64rs/src/trap.rs:137-176 | Interrupt sampling and delivery keep the CSR invariant, satp, the TLB and the hart id |
| `CpuObject.Cpu.CsrRead` | rv64rs/src/trap.rs:59-65 | Supervisor views read the masked machine register |
| `CpuObject.Cpu.CsrWrite` | rv64rs/src/trap.rs:67-91 | In-place CSR write: mhartid is ignored, views blend under the mask, a satp write flushes the TLB |
| `CpuObject.Cpu.RaiseTrap` | rv64rs/src/trap.rs:95-130 | In-place trap entry equals the value-level trap, delegation decision included |
| `CpuObject.Cpu.TakeFirst` | rv64rs/src/trap.rs:157-175 | The priority loop takes the first deliverable cause and nothing when there is none |
| `CpuObject.Cpu.CheckInterrupt` | rv64rs/src/trap.rs:137-176 | Device lines sampled into mip, then delivery; the returned flag says whether a trap was taken |
| `CpuObject.Cpu.Sret` | rv64rs/src/execute.rs:306-317 | In-place SRET equals the value-level return |
| `CpuObject.Cpu.Mret` | rv64rs/src/execute.rs:323-334 | In-place MRET equals the value-level return |
| `CpuObject.Csrs.Insert` | rv64rs/src/csr.rs:51-58 | A CSR write changes exactly its slot of the 4096-entry file |
| `CpuObject.Registers.Write` | rv64rs/src/register.rs:25-29 | A register write changes exactly its slot, and none for x0 |
| `Virtio.ChainIsGuarded` | rv64rs/src/virtio.rs:200-222 | For every guest memory the descriptors visited are pairwise distinct and at most 2^16, each is the one its predecessor names, and the walk stops at a descriptor without NEXT or at a revisit |
| `Virtio.Grow` | rv64rs/src/virtio.rs:234-237 | Growing the disk is invisible on the zero-padded disk |
| `Virtio.InReadsDisk` | rv64rs/src/virtio.rs:233-241 | A read request leaves the zero-padded disk alone and its buffer receives exactly the disk's bytes |
| `Virtio.OutWritesDisk` | rv64rs/src/virtio.rs:242-252 | A write request replaces exactly the addressed disk bytes by the buffer's bytes and leaves guest memory alone |
| `VirtioQueue.WriteThenRead` | rv64rs/src/virtio.rs:168-256 | A published write request and its notify, then, after arbitrary changes to memory and rings, a published read of the same sector and length and its notify: the read's buffer holds what the write's buffer held, and no other disk byte has moved |
| `VirtioQueue.NotifyIsRequest` | rv64rs/src/virtio.rs:168-198 | A successful notify of one published entry is the service of its chain's request followed by its publication in the used ring |
| `Virtio.WrapIsMod` | rv64rs/src/virtio.rs:183-183 | The ring slot computed by the model is the index modulo the queue size |
| `VirtioQueue.UsedIdxAdvances` | rv64rs/src/virtio.rs:182-193 | For arbitrary memory, even when DMA overwrites the rings, serving n entries leaves used.idx advanced by n modulo 2^16 |
| `VirtioQueue.NotifyKeepsStep` | rv64rs/src/virtio.rs:168-198 | A successful notify serves exactly (avail.idx - last) mod 2^16 chains, moves used.idx by that count, and leaves last_avail_idx equal to used.idx |
| `VirtioQueue.RunStaysInStep` | rv64rs/src/virtio.rs:168-198 | Over every run of notifies of one queue in which the driver leaves used.idx alone, last_avail_idx equals used.idx after each of them |
| `VirtioQueue.BatchIsOneByOne` | rv64rs/src/virtio.rs:168-198 | Publishing n entries and notifying once gives the same verdict, disk and memory as publishing and notifying one at a time (on failure up to avail.idx) and on success the same device, provided nothing served aliases avail.idx |
| `UsedRing.NotifyCompletes` | rv64rs/src/virtio.rs:168-198 | After a successful notify of n entries that spares the rings, for every i < n the word at used + 4 + (u+i) % 65536 % num * 8 is the i-th head of the avail ring, the word after it is 0, the 16 bits at used + 2 have moved by n, and the status byte of every chain of three or more descriptors is 0 |
| `UsedRing.ElementAfter` | rv64rs/src/virtio.rs:182-193 | Used element i, however many entries are served after it |
| `UsedRing.StatusAfter` | rv64rs/src/virtio.rs:200-256 | Status byte i, however many entries are served after it |
| `QueueRegisters.RingsProgrammed` | rv64rs/src/virtio.rs:143-148 | Over the bus, low half then high half: 0x1000_1080/84 set the descriptor table, 0x1000_1090/94 the avail ring and 0x1000_10a0/a4 the used ring to the 64-bit address, whatever they held, and nothing else |
| `QueueRegisters.ControlRegisters` | rv64rs/src/virtio.rs:139-149 | 0x1000_1038 sets the queue size, 0x1000_1044 the ready flag, 0x1000_1050 notifies |
| `QueueRegisters.DriverNotify` | rv64rs/src/virtio.rs:133-198 | A queue set up and notified over the bus with its rings at A and U reads avail.idx at A + 2, moves the 16 bits at U + 2 by n, completes every head published at A + 4 in the elements at U + 4, and raises the interrupt bit |
| `QueueRegisters.DescriptorReadBack` | rv64rs/src/virtio.rs:208-212 | A descriptor stored as 8 bytes of address, 4 of length, 2 of flags and 2 of next at base + 16 * idx is read back as those fields |
| `QueueRegisters.ThreeLinked` | rv64rs/src/virtio.rs:204-219 | Flag bit 0 links: three descriptors of which the first two have it set are one chain of three |
| `QueueRegisters.Probed` | rv64rs/src/virtio.rs:108-125 | The identification words and the interrupt status at their addresses |
| `QueueRegisters.Acknowledged` | rv64rs/src/virtio.rs:150-150 | Writing 1 to 0x1000_1064 drops the interrupt line and nothing else, for both values the interrupt status takes |
| `QueueRegisters.Negotiated` | rv64rs/src/virtio.rs:139-152 | Driver features, queue selection and a nonzero status hold what is written and change nothing else |
| `QueueRegisters.WholeReset` | rv64rs/src/virtio.rs:151-162 | Writing 0 to 0x1000_1070 forgets queue, ring addresses and progress |
| `QueueRegisters.PowerOnMap` | rv64rs/src/emulator.rs:106-166 | Every machine powered on with image and stack clear of the devices has the addresses the register laws are stated for |
| `BusObject.VirtIOBlk.CollectChain` | rv64rs/src/virtio.rs:200-219 | The descriptor loop with its seen-set collects exactly the guarded chain and terminates for every memory |
| `BusObject.VirtIOBlk.DeliverBytes` | rv64rs/src/virtio.rs:239-241 | The byte loop stores the chunk as the value-level model does, keeping earlier bytes when one fails |
| `BusObject.VirtIOBlk.CollectBytes` | rv64rs/src/virtio.rs:243-246 | The byte loop reads the buffer, failing at the first unmapped byte |
| `BusObject.VirtIOBlk.ProcessDescriptorChain` | rv64rs/src/virtio.rs:200-256 | In-place service of one chain: same result, disk and memory as the value-level service |
| `BusObject.VirtIOBlk.ServeUpTo` | rv64rs/src/virtio.rs:182-193 | The queue loop terminates after exactly the ring distance at entry |
| `BusObject.VirtIOBlk.ProcessQueue` | rv64rs/src/virtio.rs:168-198 | In-place notify equals the value-level notify, error paths included |
| `BusObject.VirtIOBlk.Write` | rv64rs/src/virtio.rs:133-166 | Register writes, reset and notify on the device fields |
| `BusObject.VirtIOBlk.Read` | rv64rs/src/virtio.rs:108-125 | Register reads |
| `VirtioMmio.LowWriteExactIff` | rv64rs/src/virtio.rs:143-148 | A low-half write replaces exactly the low half if and only if the bits of the value above 32 are already set in the register |
| `VirtioMmio.HighThenLow` | rv64rs/src/virtio.rs:143-148 | Written high half first, the register ends as the high half or-ed with the whole low value, whatever it held before |
| `VirtioMmio.HighThenLowIff` | rv64rs/src/virtio.rs:143-148 | Programming a ring address high half first gives the intended address if and only if nothing spills into the high half |
| `QueueRegisters.WrongRingAddress` | rv64rs/src/virtio.rs:143-148 | A concrete pair of register writes that leaves a wrong ring address |
| `VirtioMmio.LowThenHigh` | rv64rs/src/virtio.rs:143-148 | Writing the low half of a ring address first and then the high half gives the intended address |
| `Isa.BranchMeans` | rv64rs/src/execute.rs:104-117 | A word assembled as BEQ, BNE, BLT, BGE, BLTU or BGEU goes to pc plus its offset exactly when the registers, as unsigned or signed numbers, stand in its relation, and to pc + 4 otherwise; funct3 2 and 3 are rejected |
| `Isa.OpMeans` | rv64rs/src/execute.rs:159-173 | ADD, SUB, SLL, SLT, SLTU, XOR, SRL, SRA, OR and AND as assembled: shifts multiply or divide by 2^(rs2 % 64), SRA divides the signed number rounding down, comparisons order numbers |
| `Isa.OpImmMeans` | rv64rs/src/execute.rs:118-127 | The same with the sign-extended immediate |
| `Isa.ShiftImmMeans` | rv64rs/src/execute.rs:128-135 | SLLI, SRLI and SRAI multiply and divide by 2^n |
| `Isa.UpperMeans` | rv64rs/src/execute.rs:86-93 | LUI writes the sign-extended upper immediate, AUIPC the pc plus it |
| `Isa.JalMeans` | rv64rs/src/execute.rs:94-97 | JAL goes to pc plus offset and links pc + 4 |
| `Isa.JalrMeans` | rv64rs/src/execute.rs:98-103 | JALR goes to rs1 plus offset, made even, with rs1 read before rd is written, and links pc + 4 |
| `IsaWord.Op32Means` | rv64rs/src/execute.rs:195-207 | ADDW, SUBW, SLLW, SRLW and SRAW as assembled: the signed number of the low 32 bits of the sum, difference, product by or quotient by 2^(rs2 % 32) |
| `IsaWord.AddiwMeans` | rv64rs/src/execute.rs:141-145 | ADDIW likewise |
| `IsaWord.ShiftImm32Means` | rv64rs/src/execute.rs:146-153 | SLLIW, SRLIW and SRAIW likewise |
| `IsaWord.MulDivMeans` | rv64rs/src/execute.rs:174-222 | funct7 = 1 selects the M results in both widths |
| `IsaMemory.LoadMeans` | rv64rs/src/execute.rs:59-73 | LB, LH, LW, LD, LBU, LHU and LWU as assembled translate rs1 plus offset for reading, read 1, 2, 4 or 8 bytes and leave the signed or unsigned number read in rd; funct3 7 is rejected |
| `IsaMemory.StoreMeans` | rv64rs/src/execute.rs:74-85 | SB, SH, SW and SD translate rs1 plus offset for writing and write 1, 2, 4 or 8 bytes of rs2; other funct3 values are rejected |
| `IsaMemory.AmoMeans` | rv64rs/src/execute.rs:229-246 | funct5 1 with funct3 2, whatever the ordering bits, is a 4-byte load into rd followed by a 4-byte store of rs2 at the same address, with rd and pc changed only when both succeed; every other AMO is rejected |
| `IsaMemory.FetchMeans` | rv64rs/src/cpu.rs:135-143 | A fetch translates pc for execution and yields the number read in 4 bytes; only the TLB can change |
| `IsaMemory.OtherOpcodes` | rv64rs/src/execute.rs:227-248 | FENCE goes on; unassigned opcodes are rejected without effect |
| `IsaMemory.CompressedMeans` | rv64rs/src/cpu.rs:158-177 | A fetched word that is not 3 modulo 4 runs as the expansion of its low 16 bits with the next instruction at pc + 2, the odd register jump excepted |
| `IsaSystem.CsrMeans` | rv64rs/src/execute.rs:253-299 | CSRRW replaces, CSRRS sets and CSRRC clears bits, from a register or a zero-extended field; rd receives the old value |
| `IsaSystem.EcallMeans` | rv64rs/src/execute.rs:301-305 | The word 0x73 in mode 0, 1, 2 or 3: cause 8, 9, 10 or 11, epc = pc, tval 0, continuing in S at stvec when medeleg has the bit and the mode is not M, else in M at mtvec; nothing else changes |
| `IsaSystem.SretMeans` | rv64rs/src/execute.rs:306-317 | The word 0x1020_0073 continues at CSR 0x141 in the mode of mstatus bit 8 |
| `IsaSystem.MretMeans` | rv64rs/src/execute.rs:323-334 | The word 0x3020_0073 continues at CSR 0x341 in the mode of mstatus bits 12..11 |
| `IsaSystem.WfiMeans` | rv64rs/src/execute.rs:318-318 | WFI goes on at once |
| `IsaSystem.FenceMeans` | rv64rs/src/execute.rs:319-322 | SFENCE.VMA empties the TLB whatever its operands and changes nothing else |
| `IsaSystem.OthersRejected` | rv64rs/src/execute.rs:335-337 | Every other SYSTEM word with funct3 0, EBREAK included, is rejected without effect |
| `Fields.WordFields` | rv64rs/src/decode.rs:33-77 | Every field of a 32-bit word as a quotient and remainder |
| `Fields.ImmediateFields` | rv64rs/src/decode.rs:33-77 | The five immediates with every bit group at its place value |
| `Fields.CompressedFields` | rv64rs/src/rvc.rs:37-66 | Every field of a compressed word as a quotient and remainder |
| `Rvc.CompressedIsExpansion` | rv64rs/src/rvc.rs:163-377 | Every compressed word acts on registers, memory, devices and control flow as its 32-bit expansion does with pc+2 for fall-through and link, and words without expansion are rejected without effect; the only exception, an if and only if, is a register jump to an odd address |
| `Rvc.OddJump` | rv64rs/src/rvc.rs:342-350 | c.jr a0 with a0 odd continues at the odd address, its expansion at the even one |
| `Rvc.Quadrant0Agrees` | rv64rs/src/rvc.rs:168-203 | Quadrant 0 against its expansions |
| `Rvc.Quadrant1Agrees` | rv64rs/src/rvc.rs:204-311 | Quadrant 1 against its expansions |
| `Rvc.Quadrant2Agrees` | rv64rs/src/rvc.rs:312-377 | Quadrant 2, register jumps and moves aside, against its expansions |
| `Rvc.JumpOrMoveAgrees` | rv64rs/src/rvc.rs:329-377 | C.JR, C.JALR, C.MV and C.ADD against their expansions; jumps agree up to bit 0 of the target |
| `CpuObject.Cpu.ExecuteCompressed` | rv64rs/src/rvc.rs:163-377 | In-place execution of a compressed word equals the value-level execution |
| `CpuObject.Cpu.Execute` | rv64rs/src/execute.rs:54-249 | In-place execution of a decoded instruction equals the value-level execution |
| `CpuObject.Cpu.ExecuteSystem` | rv64rs/src/execute.rs:251-339 | In-place SYSTEM instructions: CSR forms, ECALL, SRET, WFI, SFENCE.VMA, MRET |
| `CpuObject.Cpu.ExecuteAmo` | rv64rs/src/execute.rs:229-246 | In-place AMOSWAP.W: read, write, then rd |
| `Extensions.ImmediateNumber` | rv64rs/src/decode.rs:27-31 | The sign extension of a 32-bit word holds the word's signed number |
| `Numbers.SraNumber` | rv64rs/src/execute.rs:170-170 | An arithmetic right shift by n divides the signed number by 2^n, rounding down |
| `Numbers.ShlNumber` | rv64rs/src/execute.rs:165-165 | A left shift by n multiplies by 2^n modulo 2^64 |
| `Numbers.ShrNumber` | rv64rs/src/execute.rs:169-169 | A logical right shift by n divides by 2^n |
| `LoadStore.LoadAfterStore` | rv64rs/src/execute.rs:59-86 | A load right after a store of the same width to the same memory address yields the stored register's low bytes, extended as the load says, even if the store hit the page tables of its own address |
| `LoadStore.Extension` | rv64rs/src/execute.rs:46-49 | LB, LH and LW sign-extend those bytes, LBU, LHU and LWU zero-extend them, LD keeps the register |
| `LoadStore.ExtensionNumbers` | rv64rs/src/execute.rs:46-49 | In numbers: the signed reading of the register modulo 2^8, 2^16 or 2^32 for LB, LH and LW, the remainder itself for LBU, LHU and LWU |
| `Compare.ComparesNumbers` | rv64rs/src/execute.rs:166-167 | Signed and unsigned comparison order registers as the numbers they hold |
| `Rv64.ExchangeTwice` | rv64rs/src/execute.rs:253-260 | CSRRW rd, csr, rd executed twice restores register and CSR |
| `Rv64.ExecuteFailsCleanly` | rv64rs/src/execute.rs:54-249 | An instruction that fails leaves pc, registers, CSRs, mode, devices and memory unchanged unless its store was addressed to VirtIO; only the TLB may gain entries. Covers AMOSWAP.W whose read succeeds and write fails |
| `Machine.CompressedFailsCleanly` | rv64rs/src/rvc.rs:163-377 | The same for compressed instructions |
| `Machine.PerformFailsCleanly` | rv64rs/src/cpu.rs:158-177 | The same for whatever word was fetched, pc commit included |
| `Rv64M.ExecutesM` | rv64rs/src/execute.rs:174-226 | OP and OP-32 write the multiply and divide results the laws below are about |
| `Rv64M.ProductsExact` | rv64rs/src/execute.rs:174-177 | MULH, MULHSU and MULHU paired with MUL are the exact 128-bit product of the registers |
| `Rv64M.QuotientsExact` | rv64rs/src/execute.rs:178-189 | q * b + r is a modulo 2^64 for every register pair, division by zero and MIN / -1 included; DIVU and REMU exactly, with r < b |
| `Rv64M.RemainderSigned` | rv64rs/src/execute.rs:178-188 | Otherwise |r| < |b| and a nonzero remainder has the sign of the dividend |
| `Rv64M.WordFormsExact` | rv64rs/src/execute.rs:195-226 | The W forms satisfy the 32-bit product and division identities; DIVUW and REMUW exactly, with r < b |
| `Rv64M.WordRemainderSigned` | rv64rs/src/execute.rs:210-220 | DIVW and REMW away from division by zero and MIN / -1: q * b + r = a, |r| < |b| and a nonzero remainder has the sign of the dividend |
| `Rv64M.ByZero` | rv64rs/src/execute.rs:178-189 | Division by zero: all ones as quotient, the dividend as remainder |
| `Rv64M.WordByZero` | rv64rs/src/execute.rs:210-221 | The same in 32 bits |
| `Rv64M.Overflowing` | rv64rs/src/execute.rs:180-218 | MIN / -1: the dividend as quotient and 0 as remainder, in both widths |
| `Rv64M.WordFormsExtend` | rv64rs/src/execute.rs:224-224 | Every assigned W form leaves a sign-extended word |
| `MulDiv.MulhExact` | rv64rs/src/execute.rs:174-175 | Signed product: high and low word exact, and it never leaves 128 bits |
| `MulDiv.MulhsuExact` | rv64rs/src/execute.rs:176-176 | Mixed product: high and low word exact, and it never leaves 128 bits |
| `MulDiv.MulhuExact` | rv64rs/src/execute.rs:177-177 | Unsigned product: high and low word exact |
| `MulDiv.DivRemIdentity` | rv64rs/src/execute.rs:178-188 | DIV and REM identity modulo the word size |
| `MulDiv.DivRemSigned` | rv64rs/src/execute.rs:178-188 | Truncated division laws outside the intercepted cases |
| `MulDiv.DivuRemuIdentity` | rv64rs/src/execute.rs:183-189 | DIVU and REMU identity, division by zero included |
| `Encoding.RoundTripI` | rv64rs/src/asm.rs:7-9 | Decoding an I-format encoding returns the same fields, and every immediate that fits the format comes back as its own 64-bit sign extension |
| `Encoding.RoundTripS` | rv64rs/src/asm.rs:11-15 | Decoding an S-format encoding returns the same fields, and every immediate that fits the format comes back as its own 64-bit sign extension |
| `Encoding.RoundTripU` | rv64rs/src/asm.rs:17-19 | Decoding an U-format encoding returns the same fields, and every immediate that fits the format comes back as its own 64-bit sign extension |
| `Encoding.RoundTripJ` | rv64rs/src/asm.rs:21-28 | Decoding an J-format encoding returns the same fields, and every immediate that fits the format comes back as its own 64-bit sign extension |
| `Encoding.RoundTripB` | rv64rs/src/asm.rs:30-37 | Decoding an B-format encoding returns the same fields, and every immediate that fits the format comes back as its own 64-bit sign extension |
| `Encoding.EncodeDecodeI` | rv64rs/src/decode.rs:33-77 | Re-encoding the decoded I-format fields of any 32-bit word returns that word |
| `Encoding.EncodeDecodeS` | rv64rs/src/decode.rs:33-77 | Re-encoding the decoded S-format fields of any 32-bit word returns that word |
| `Encoding.EncodeDecodeU` | rv64rs/src/decode.rs:33-77 | Re-encoding the decoded U-format fields of any 32-bit word returns that word |
| `Encoding.EncodeDecodeJ` | rv64rs/src/decode.rs:33-77 | Re-encoding the decoded J-format fields of any 32-bit word returns that word |
| `Encoding.EncodeDecodeB` | rv64rs/src/decode.rs:33-77 | Re-encoding the decoded B-format fields of any 32-bit word returns that word |
| `AddressMap.AddKeepsSorted` | rv64rs/src/bus.rs:71-104 | Every accepted reservation keeps the table strictly sorted and adds exactly that range |
| `AddressMap.AddKeepsDisjointIff` | rv64rs/src/bus.rs:71-104 | An accepted reservation leaves a disjoint table disjoint if and only if the preceding range ends at or before its start |
| `AddressMap.AddAcceptsOverlap` | rv64rs/src/bus.rs:93-102 | A concrete overlapping reservation that the middle-insert branch accepts |
| `AddressMap.LookupExact` | rv64rs/src/bus.rs:109-132 | The lookup returns the range covering the access and fails exactly when none does |
| `AddressMap.ChainIsLookup` | rv64rs/src/bus.rs:298-326 | On a disjoint map the if-chain selects the same range and offset as the lookup for every access of at least one byte, and both fail exactly when no single range covers it |
| `AddressMap.NewSmpSoundIff` | rv64rs/src/emulator.rs:106-166 | new_smp builds a sorted disjoint map that matches its fields if and only if there are 1 to 32 harts and image plus stack clear every device window |
| `RangeTable.RangeManager.PartitionPoint` | rv64rs/src/bus.rs:79-79 | The bisection loop finds the number of ranges that start below a bound |
| `RangeTable.RangeManager.Add` | rv64rs/src/bus.rs:71-104 | In-place reservation accepts, rejects and inserts as the model does, keeping the table sorted |
| `RangeTable.RangeManager.Get` | rv64rs/src/bus.rs:109-132 | In-place lookup |
| `BusObject.Bus.Read` | rv64rs/src/bus.rs:298-326 | The in-place dispatch of a read equals the value-level bus; no memory access is out of bounds |
| `BusObject.Bus.Write` | rv64rs/src/bus.rs:329-367 | The in-place dispatch of a write equals the value-level bus, VirtIO notify with DMA included |
| `BusObject.Bus.SetRam` | rv64rs/src/bus.rs:231-241 | A setter reserves its range and populates its field, or fails and changes neither |
| `SystemBus.Read` | rv64rs/src/bus.rs:298-326 | A read changes at most the serial port, and nothing at all unless it is a successful one-byte read |
| `SystemBus.Write` | rv64rs/src/bus.rs:329-367 | A failed write changes nothing unless it was addressed to VirtIO, and no write changes the address map |
| `SystemBus.ReadOffWrite` | rv64rs/src/bus.rs:298-367 | A store to memory is invisible to every access elsewhere, devices included |
| `Memory.ReadBack` | rv64rs/src/ram.rs:40-72 | Reading back a store gives the stored value cut to the access width |
| `Memory.LittleEndian` | rv64rs/src/ram.rs:40-49 | On memories that do not overlap, byte i of an n-byte read is what a one-byte read i addresses up returns |
| `Memory.ReadOverWrite` | rv64rs/src/ram.rs:40-72 | A store is invisible to accesses that do not overlap it |
| `Memory.WriteCommute` | rv64rs/src/ram.rs:51-72 | Stores to disjoint ranges commute, errors included |
| `Components.Ram.Read` | rv64rs/src/ram.rs:40-49 | Little-endian load of 1, 2, 4 or 8 bytes; other widths are errors |
| `Components.Ram.Write` | rv64rs/src/ram.rs:51-72 | Little-endian store in place |
| `Plic.ClaimIsBest` | rv64rs/src/plic.rs:104-116 | The claimed source is the lowest-numbered one of maximal priority strictly above the threshold among pending and enabled ones, and 0 if and only if there is none |
| `Plic.MaskIsRaisedLines` | rv64rs/src/plic.rs:90-98 | A pending bit is set if and only if some registered line with that number is raised |
| `Plic.ContextIsolation` | rv64rs/src/plic.rs:149-175 | Writes outside the priorities and a context's own windows never change what that context claims |
| `Plic.ReachableIff` | rv64rs/src/emulator.rs:117-134 | The controller can interrupt a hart's supervisor context 2h+1 if and only if h < 32, so the hart bound is exact |
| `Clint.TimerIsolation` | rv64rs/src/clint.rs:33-70 | A write that is neither to mtime nor to a hart's own register leaves its timer line alone |
| `Machine.HartsAreIsolated` | rv64rs/src/trap.rs:139-152 | Configuring one hart's timer or context never changes another hart's interrupt decision |
| `InterruptPath.RegisterFile` | rv64rs/src/plic.rs:124-175 | Over the bus, priorities at 0x0c00_0000 + 4s, enable words at 0x0c00_2000 + 0x80c and thresholds at 0x0c20_0000 + 0x1000c form a register file: a write is read back at its own address and nowhere else |
| `InterruptPath.LinesReachMip` | rv64rs/src/trap.rs:137-152 | At every instruction boundary of hart h < 32, mip bit 9 is up if and only if source 1 or 10 is asserted, enabled in the word read at 0x0c00_2080 + 0x100h and of a priority above the word read at 0x0c20_1000 + 0x2000h; bit 7 if and only if the word at 0x0200_bff8 has reached the word at 0x0200_4000 + 8h; no other bit moves |
| `InterruptPath.SerialArrives` | rv64rs/src/trap.rs:142-148 | Three bus writes, 1 to 0x0c00_0028, 0x400 to 0x0c00_2080 + 0x100h and 0 to 0x0c20_1000 + 0x2000h, with serial input waiting: mip bit 9 goes up on hart h and stays down on every other hart whose enable word is zero |
| `InterruptPath.ClaimAnswers` | rv64rs/src/plic.rs:104-147 | The word read at 0x0c20_1004 + 0x2000h is the signalling source of the highest priority, 1 before 10 when equal, and 0 if and only if none signals |
| `InterruptPath.TimerFile` | rv64rs/src/clint.rs:43-70 | A write to 0x0200_4000 + 8h is read back there and moves no other timer register |
| `InterruptPath.TimeMoves` | rv64rs/src/clint.rs:29-70 | mtime is written and read at 0x0200_bff8 and advances by one modulo 2^64 |
| `InterruptPath.TimerArrives` | rv64rs/src/trap.rs:139-141 | After v is written to hart h's mtimecmp, mip bit 7 of that hart is up if and only if mtime has reached v |
| `InterruptPath.StepSeesTime` | rv64rs/src/cpu.rs:123-143 | A step advances mtime before it samples the timer line |
| `SerialPort.FirstInFirstOut` | rv64rs/src/uart.rs:83-123 | n one-byte reads of 0x1000_0000 return the first n waiting bytes in order and change nothing else |
| `SerialPort.TypedArrives` | rv64rs/src/uart.rs:63-81 | Host input is read in order after everything that was waiting |
| `SerialPort.LineStatus` | rv64rs/src/uart.rs:95-97 | 0x1000_0005 reads 33 while input waits and 32 otherwise, and takes nothing |
| `SerialPort.InterruptEnable` | rv64rs/src/uart.rs:125-150 | Bit 0 written to 0x1000_0001 decides whether waiting input asserts source 10; values from 4 on are refused without effect |
| `SerialPort.Divisor` | rv64rs/src/uart.rs:105-158 | With bit 7 of 0x1000_0003 set the first two registers are the divisor bytes and input is left alone; closing the latch brings everything else back |
| `SerialPort.PollsOnceAPeriod` | rv64rs/src/cpu.rs:123-134 | The host is polled on a hart's first tick and then once every 4096 ticks; what it offers in between is not taken |
| `Components.Plic.ClaimIrq` | rv64rs/src/plic.rs:104-116 | The accumulator loop returns the best claimable source |
| `Components.Plic.PendingMask` | rv64rs/src/plic.rs:90-98 | The accumulator loop computes the pending mask |
| `Components.Plic.Read` | rv64rs/src/plic.rs:124-147 | Register reads, claims included |
| `Components.Plic.Write` | rv64rs/src/plic.rs:149-175 | Priority, enable and threshold writes in place |
| `Components.Clint.Tick` | rv64rs/src/clint.rs:29-31 | mtime advances by one and wraps at 2^64 |
| `Components.Clint.Write` | rv64rs/src/clint.rs:57-70 | mtime and mtimecmp writes in place |
| `Components.Clint.Read` | rv64rs/src/clint.rs:43-55 | mtime and mtimecmp reads |
| `Smp.StepProgress` | rv64rs/src/cpu.rs:123-177 | One step keeps the hart's invariant and identity and either empties the TLB (exactly on SFENCE.VMA and satp instructions) or keeps satp and leaves only entries that were there or were read from this step's bus |
| `Smp.NeverStalerThanFence` | rv64rs/src/emulator.rs:201-209 | In every run, any interleaving of harts, stores, DMA, CSR writes and fences, each valid TLB entry is the leaf an uncached walk finds on a bus its hart ran on since that hart's last SFENCE.VMA or satp write |
| `Smp.TransparentWhilePathsKept` | rv64rs/src/mmu.rs:139-211 | If no write changed a page-table entry on a cached path since the flush, translation equals the uncached walk for every address and access kind |
| `Smp.EveryRun` | rv64rs/src/cpu.rs:97-117 | From power-on, in every run: hart i reports mhartid i, the raw supervisor slots stay unwritten, x0 is zero, and no TLB entry is staler than the last fence |
| `Smp.RunAppend` | rv64rs/src/emulator.rs:201-209 | Runs compose, stopping at the first failing step |
| `Boot.PowerOnLayout` | rv64rs/src/emulator.rs:106-166 | The image at its address padded with zeros to a page, 128 MB of zeroed stack right above it, the disk image padded with zeros to at least 8 MB |
| `Boot.ResetState` | rv64rs/src/cpu.rs:97-117 | pc 0x1000, mode 3, mstatus 0xa_0000_0000, mie 0x222, mhartid i, every other CSR and register zero, every TLB entry invalid |
| `Boot.EveryHartBoots` | rv64rs/src/emulator.rs:75-180 | From power-on, for any image above the reset code, up to 32 harts and any interleaving in which each has had six turns: no step has failed, memory is as loaded, and every hart i is in M at 0x8000_0000 with a0 = i, a1 = 0x8700_0000 and a2 = 0x1028 |
| `Boot.BootRun` | rv64rs/src/cpu.rs:123-177 | On the way there, a hart that has had k turns has run exactly the first k instructions of the reset code, whatever the others did |
| `Swap.SwapExchanges` | rv64rs/src/execute.rs:238-246 | A completed AMOSWAP.W moves the word, sign-extended, into rd and the low half of rs2 into the word, at one physical address |
| `Swap.SwapsConserve` | rv64rs/src/execute.rs:238-246 | For any interleaving of swaps by any number of harts the values handed out followed by the final word are the initial word followed by the values stored |
| `Swap.ExactlyOneAcquires` | rv64rs/src/execute.rs:229-246 | Swapping 1 into a 0 word hands the 0 to exactly one swap, the first |
| `CpuObject.Cpu.Read` | rv64rs/src/cpu.rs:146-149 | Translate, then read |
| `CpuObject.Cpu.Write` | rv64rs/src/cpu.rs:152-155 | Translate, then write |
| `CpuObject.Cpu.Fetch` | rv64rs/src/cpu.rs:123-143 | Tick, poll, sample interrupts, then fetch the word at pc |
| `CpuObject.Cpu.Step` | rv64rs/src/cpu.rs:172-177 | The in-place step equals the value-level step, so everything proved over runs holds of it |
| `CpuObject.Cpu.constructor` | rv64rs/src/cpu.rs:97-117 | Reset state of a hart |
| `EmulatorObject.Xv6Emulator.StepHart` | rv64rs/src/emulator.rs:201-209 | A hart's step is that hart's turn on the shared bus; the other harts' state is untouched |
| `EmulatorObject.Xv6Emulator.Run` | rv64rs/src/emulator.rs:201-209 | The round-robin loops perform exactly the run of the round-robin schedule and report its failure |
| `EmulatorObject.TurnOfRound` | rv64rs/src/emulator.rs:201-209 | Turn k * n + i of the schedule is hart i's in round k, with its own input, and there are no others |
| `EmulatorObject.FairRounds` | rv64rs/src/emulator.rs:201-209 | Over any number of rounds every hart gets exactly one turn per round |
| `EmulatorObject.SixRounds` | rv64rs/src/emulator.rs:106-209 | Six rounds of the loop from power-on bring every hart to the kernel's entry |
| `EmulatorObject.NewSmp` | rv64rs/src/emulator.rs:106-180 | The step-by-step construction fails exactly as the planned map does; otherwise it yields fresh harts in their reset state over exactly the planned bus: padded image, zeroed stack, bootloader bytes, disk image, reset devices |
| `EmulatorObject.BootAndRun` | rv64rs/src/emulator.rs:106-209 | Building a machine and running it for any number of rounds gives the run of the round-robin schedule from power-on, with everything proved of every run, on the planned map, which is sorted and disjoint for a placeable image |

## Left out

- DMA aimed at device registers: VirtIO's transfers reach RAM, stack and bootloader memory only; any other address is an access error, where the source dispatches it to the device.
- BusObject.VirtIOBlk.CollectChain: descriptors are read from plain memories only, because a table in device registers would make the read change the device.
- BusObject.VirtIOBlk.DeliverBytes: stores to plain memories only, for the same reason.
- BusObject.VirtIOBlk.CollectBytes: reads from plain memories only, for the same reason.
- BusObject.VirtIOBlk.ProcessDescriptorChain: its DMA is confined to plain memories.
- BusObject.VirtIOBlk.ServeUpTo: its DMA is confined to plain memories.
- BusObject.VirtIOBlk.ProcessQueue: its DMA is confined to plain memories.
- BusObject.VirtIOBlk.Write: its notify confines DMA to plain memories.
- BusObject.Bus.Write: its VirtIO arm confines DMA to plain memories; DMA back into VirtIO's own registers stops the source with a borrow error.
- Address and length sums that leave 64 bits: they are errors, as with overflow checks on, and never wrap.
- Error messages: errors are kinds, not strings; the emulator's message text is not modelled.
- Several VirtIO queues: all queue numbers share one set of rings in the source; the model keeps that and states the ring theorems for one queue number.
- VirtioQueue.BatchIsOneByOne: on failure the two devices are compared by their disks only, because the one-at-a-time driver has by then recorded the entries before the failing one and raised their interrupt.
- Serial port output, host input threads and timing: host input is an argument of each step; output bytes are dropped.
- The mode field is two bits wide and CSR numbers twelve bits wide, which is what every assignment and decoded instruction produces.
- Sharing handles: harts reach timer, serial port and controller through the bus object instead of their own reference-counted handles; a hart has all three or none.
- EmulatorObject.Xv6Emulator.Run: performs as many rounds as it is given host input for, because the source's loop ends only on an error.
- Emulator without devices (rv64rs/src/emulator.rs:31-63): the same steps on a smaller map.
- Sv39 checks the source does not make (canonical addresses, U, A and D bits, M-mode exemption) and page faults as guest traps.
- Floating point, LR/SC, other AMOs, EBREAK and FENCE ordering: absent or no-ops in the source.
- Command line, program loading, disassembly, tracing and the rest of the Python package.
