# Verified model of the Zero kernel's hard cores

This project models the parts of the Zero (Nilix) repository whose correctness is hardest to see from the code, and
proves what each of them is for. It is self-contained Dafny: `dafny verify dfyconfig.toml` checks everything.

| files | what they model |
|---|---|
| `Machine`, `ContextSwitch`, `SwitchRuns` | the naked context-switch routines, and runs of any number of tasks over any number of processors |
| `SyscallPath`, `TimerPath`, `EntryRuns` | the SYSCALL and timer stubs, and every interleaving of boot, syscalls, interrupts and task switches |
| `KernelRuns` | both of these as one run: registers, stacks and memory together with control state, bases and roots |
| `LazyFpu` | lazy FPU ownership: the `#NM` handler, switches, interrupt brackets, signal-frame capture |
| `BlockLog` | the crash-safe rotating slot log of the stress runner |
| `SmpStress` | its spin lock, start barrier and contention seed |
| `Sha256` | both streaming SHA-256 implementations and HMAC |
| `WireFormat`, `ProgramParser`, `HostPolicy`, `Session` | the guest executor's program format and parser, the host's validation, and a whole authenticated execution |
| `FuzzInput` | the byte decoder of the fuzz target |
| `Placement`, `Loader`, `BootTables` | boot-loader placement, segment loading, relocation and page tables |
| `Calendar`, `Coverage` | the build script's date conversion and coverage merging |
| `Common`, `BootLayout`, `Arith`, `Bits`, `Bytes` | the optional value and the word size, the boot layout, remainders, bit strings, little-endian records |

## How the source appears here

Naked assembly is a method over the machine's registers, memory and control state, one statement per instruction,
proved equal to a closed form; context and GS accesses carry the obligation that the base register or GS_BASE is the
right one. The run models are state machines whose steps are exactly those closed forms. C and Rust code that loops
over buffers keeps its loops, arrays and in-place updates. Date arithmetic and policies, which are expressions in the
source, are functions.

Taken from outside the modelled code, and from nothing else:

- The processor: SYSCALL, SYSRETQ, IRETQ, SWAPGS, interrupt delivery and a four-level page walk behave as the
  architecture says. Words are eight-byte aligned.
- Kernel code between switches writes to its own kernel stack and to memory that is no task's kernel stack, and the
  dispatcher and the timer body keep the callee-saved registers and the saved frame.
- A kernel stack has room for the six words a switch pushes.
- User code runs in the low half of the address space and cannot write FS or GS bases itself, and the boot page-table
  root is not zero.
- The first user task, which enters ring 3 without a switch, finds its own FS and GS bases already live and staged: the
  kernel has left them as they were at initialisation until then.
- `fsync` is durable and a torn page does not verify; one write is in flight at a time.
- Shared words of the stress runner are sequentially consistent.
- The SHA-256 compression function and the entropy source are parameters. The firmware's answer to an exact-address
  request depends only on the address, and it hands out distinct page-table frames.

## What the proofs turned up

Each of these is a lemma with a concrete input or state, next to the exact condition under which the code is right.

- `run_workers` can hang after a failed `fork`: it stores the maximum into the ready counter, a late arrival wraps it,
  and that worker waits forever. A fair round ends if and only if the barrier is never opened before every started
  worker has arrived (`SmpStress.FairRoundEnds`, `SmpStress.EarlyOpeningHangs`). A fair schedule that hangs exists for
  every round of two or more workers (`SmpStress.FairRoundCanHang`).
- With zero contention iterations and two or more workers, worker 0 waits for contention that cannot come
  (`SmpStress.ZeroIterationsHang`).
- Block recovery passes if and only if the recovered generation has a successor below 2^64, because generation 0 never
  verifies (`BlockLog.RecoveryPassesIff`); with a single slot one torn write loses the log (`BlockLog.SingleSlotLost`).
- The host accepts programs the guest refuses: getrlimit into an in/out buffer, and buffers whose capacities fit the
  arena only without the guest's eight-byte alignment. Those two are all (`HostPolicy.HostVersusGuest`). The guest
  accepts programs the host refuses: empty paths, and in/out buffers without initial bytes. Those two are all
  (`HostPolicy.GuestVersusHost`).
- `switch_to_user` restores the PCB copy of the FPU image without looking at ownership, which would lose a newer live
  image; no run from boot gets there, since switching out saves first (`LazyFpu.LeftoverOwnerLost`,
  `LazyFpu.NextKeepsEager`).
- The loader does not check where its image is linked, but its tables map every address to the byte loaded for it if
  and only if the lowest segment is linked at the virtual base plus the physical base
  (`BootTables.LandsWhenLinkedAtBase`). An image linked elsewhere is loaded without complaint
  (`BootTables.MislinkedLoads`).
- The nested-syscall exit is described as leaving registers alone but loads r10 with the flag mask: r10 survives if and
  only if it already held the mask (`SyscallPath.Syscall`). No run from power-on takes that exit from ring 3
  (`EntryRuns.NeverBusy`).

Comments in kernel/arch/syscall.rs still describe a `save_context` plus `enter_usermode` switch, and one in
bootloader/src/main.rs speaks of 2 MiB slots; the code switches with `switch_to_user` and uses 64 KiB slots, and the
model follows the code.

## Model

| member | source | states |
|---|---|---|
| Machine.UserAddressIsLow | kernel/arch/context_switch.rs:506-524 | the shift, compare and bit-test guard passes exactly the addresses below 2^47 |
| Machine.ShiftAndTest | kernel/arch/context_switch.rs:507-524 | the arithmetic shift divides the signed value rounding down, and the bit test reads bit 47 |
| Bits.BitAt | kernel/arch/syscall.rs:89-93 | bit i is the binary digit of weight 2^i |
| Machine.UserFlagsBits | kernel/arch/syscall.rs:89-93 | a return to ring 3 forces IF, clears IOPL, NT, RF, VM, AC, VIF and VIP, and keeps every other flag bit |
| ContextSwitch.SaveHalf | kernel/arch/context_switch.rs:236-344 | the save half records the caller as if the call had returned, writes one word below its stack pointer, and traps exactly when the return address is not in the high half |
| ContextSwitch.CliBits | kernel/arch/context_switch.rs:236-344 | the switch runs with exactly the interrupt flag cleared |
| ContextSwitch.SwitchContext | kernel/arch/context_switch.rs:235-386 | instruction by instruction: the outgoing context, the incoming registers, flags and return, and the two words written below the incoming stack pointer |
| ContextSwitch.CheckUserAddress | kernel/arch/context_switch.rs:507-524 | accepts exactly the low half |
| ContextSwitch.EnterHalf | kernel/arch/context_switch.rs:504-571 | enters ring 3 with every general register, rip and rsp from its own slot of the context, forced selectors, exactly the safe flag bits, the user root and the swapped GS, or traps exactly on a non-canonical or high RIP or RSP |
| ContextSwitch.SwitchToUser | kernel/arch/context_switch.rs:437-584 | the save half followed by the enter half, with the IRETQ frame on the outgoing stack below the saved stack pointer; every register ring 3 gets is the context's own |
| ContextSwitch.EnterUsermode | kernel/arch/context_switch.rs:657-816 | first entry: the syscall reservation is cleared and the enter half runs with no outgoing context; every register ring 3 gets is the context's own |
| SwitchRuns.ExecuteSwitch | kernel/sched/enhanced_scheduler.rs:2754-2807 | dispatch on the saved CS privilege level reaches the routine that matches it, and refuses mixed selectors |
| SwitchRuns.BootInv | kernel/sched/enhanced_scheduler.rs:2663-2676 | the state after boot, where every processor runs its own bootstrap context, satisfies the invariant |
| SwitchRuns.ReadyContexts | kernel/sched/enhanced_scheduler.rs:446-453 | the contexts the scheduler may pick: every user one, and the kernel ones that can be resumed in the high half on their own stack |
| SwitchRuns.NextKeeps | kernel/sched/enhanced_scheduler.rs:2754-2807 | every step keeps stacks apart, each task on at most one processor, and every dispatchable context resumable |
| SwitchRuns.RunKeepsInv | kernel/sched/enhanced_scheduler.rs:2754-2807 | so does every run |
| SwitchRuns.SwitchTarget | kernel/arch/context_switch.rs:303-315 | in every run a switch stops exactly on a bad return address or a bad user context; otherwise ring 3 is entered below 2^47 and ring 0 resumes only in the high half, with the FPU trap armed and the syscall reservation dropped |
| SwitchRuns.EntersUserExactly | kernel/arch/context_switch.rs:526-571 | in every run ring 3 starts with each register from its own slot of the saved context; the flags are the saved ones with IF set and the privileged bits cleared |
| SwitchRuns.SwitchWrites | kernel/arch/context_switch.rs:346-379 | a switch changes no memory outside six words below the caller's stack pointer and, in ring 0, two below the incoming one |
| SwitchRuns.StepLeavesIdle | kernel/arch/context_switch.rs:423-428 | a task off every processor keeps its context and its whole kernel stack through any step that does not dispatch it |
| SwitchRuns.SwitchOut | kernel/arch/context_switch.rs:439-502 | switching out by either routine keeps every word at and above the caller's stack pointer and saves the caller's registers, flags and return address |
| SwitchRuns.SwitchIn | kernel/arch/context_switch.rs:346-379 | resuming a kernel context restores it exactly and touches nothing at or above its stack pointer |
| SwitchRuns.ResumesExactly | kernel/arch/context_switch.rs:236-386 | a task switched out and next dispatched anywhere, after any run in between, continues at its own return address with its stack pointer, flags, every register but rsi and rdi, and its stack unchanged |
| SyscallPath.SaveFrame | kernel/arch/syscall.rs:1107-1143 | the scratch frame holds all sixteen user registers, the user stack pointer included, and nothing else is written |
| SyscallPath.FrameWords | kernel/arch/syscall.rs:1107-1143 | each of the sixteen user registers lies at its own offset of the frame |
| SyscallPath.RepMovsq | kernel/arch/syscall.rs:1170-1175 | the string move copies every word between disjoint ranges and nothing else |
| SyscallPath.ToKernelStack | kernel/arch/syscall.rs:1145-1185 | the kernel root is loaded, the frame on the kernel stack equals the scratch frame, and its address is published |
| SyscallPath.LoadArguments | kernel/arch/syscall.rs:1187-1208 | the dispatcher gets the number and the six user arguments in SysV order with the last one on the stack |
| SyscallPath.EntryPath | kernel/arch/syscall.rs:1102-1208 | from the reservation to the dispatcher: arguments, frame, kernel root and published frame pointer |
| SyscallPath.CommitTls | kernel/arch/syscall.rs:1231-1257 | the staged FS and GS bases reach the MSRs whole, and the return value survives in the scratch slot |
| SyscallPath.UserReturnAllowed | kernel/arch/syscall.rs:1259-1278 | SYSRETQ is allowed exactly for RIP and RSP below 2^47 |
| SyscallPath.RestoreFrame | kernel/arch/syscall.rs:1280-1313 | every user register comes from its own frame word, with sanitized flags |
| SyscallPath.ExitPath | kernel/arch/syscall.rs:1210-1355 | from the dispatcher's return to SYSRETQ or `syscall_bad_return`, which is chosen exactly on RIP or RSP at or above 2^47 |
| SyscallPath.Syscall | kernel/arch/syscall.rs:1055-1379 | one SYSCALL: which of the four exits is taken and exactly when, and every register, the control state and memory at each; on SYSRETQ every user register but rax, rcx and r11 is unchanged, FS and GS are the staged pair of the returning processor and the flags are sanitized; the nested exit keeps r10 exactly when it already was the mask |
| TimerPath.EnterStub | kernel/arch/interrupts.rs:1631-1670 | the interrupted registers are saved, GS and CR3 are switched exactly for ring 3, and the body is called on an aligned stack with both frame pointers |
| TimerPath.LeaveStub | kernel/arch/interrupts.rs:1671-1703 | the exit restores the saved registers and frame and undoes the switch exactly for ring 3 |
| TimerPath.Interrupt | kernel/arch/interrupts.rs:1619-1707 | a timer interrupt from ring 3 or ring 0 gives back every register, RSP and flags included |
| EntryRuns.InitPerCpu | kernel/arch/syscall.rs:929-963 | initialisation leaves GS_BASE at the processor's own slot with nothing reserved |
| EntryRuns.NextKeeps | kernel/arch/syscall.rs:215-237 | the two-state GS rule, the CR3 pair, the staged bases and the reservation rule are kept by every step |
| EntryRuns.EveryRunIsSafe | kernel/arch/syscall.rs:493-514 | in every run from power-on: no GS access or scheduler call with a wrong base, kernel root in ring 0, user root, own FS and GS and a free trampoline in ring 3, no syscall turned away |
| EntryRuns.NeverBusy | kernel/arch/syscall.rs:1095-1100 | a SYSCALL from ring 3 always finds the reservation clear and reaches the dispatcher |
| EntryRuns.OwnerTakesEffect | kernel/kernel_core/syscall.rs:19535-19550 | `arch_prctl` and `exec` set the live bases, the staged bases, the roots and the PCB together |
| EntryRuns.StepLeavesBases | kernel/sched/enhanced_scheduler.rs:2616-2627 | only a task's own `arch_prctl` or `exec` changes its bases or roots; sampling the MSRs at switch-out never does |
| EntryRuns.RunLeavesBases | kernel/sched/enhanced_scheduler.rs:2776-2788 | the same over whole runs |
| EntryRuns.MigratedReturn | kernel/arch/syscall.rs:284-299 | a task that blocks in a syscall and leaves it on any processor gets back its own FS, GS and user root there |
| KernelRuns.BootInv | kernel/sched/enhanced_scheduler.rs:2663-2676 | processors that came up from power-on and run their bootstrap contexts satisfy both invariants at once |
| KernelRuns.CalledWithOwnGs | kernel/sched/enhanced_scheduler.rs:2769-2788 | the switch assembly is always called with GS_BASE at the processor's own slot |
| KernelRuns.NextKeeps | kernel/sched/enhanced_scheduler.rs:2754-2807 | every step of the joint machine keeps both invariants and the agreement of the two views |
| KernelRuns.RunKeepsInv | kernel/sched/enhanced_scheduler.rs:2754-2807 | so does every run |
| KernelRuns.EveryRunIsSafe | kernel/arch/syscall.rs:493-514 | in every run from boot a processor is in ring 0 on its task's own stack with its own GS and the task's kernel root, or in ring 3 with the task's bases and user root |
| KernelRuns.SwitchInstructions | kernel/sched/enhanced_scheduler.rs:2789-2803 | in every such state a switch step is what the instructions of the two routines do, with nothing assumed about GS |
| KernelRuns.RunLeavesIdle | kernel/arch/context_switch.rs:423-428 | a task off every processor keeps context, stack, bases, roots and activations over any run that does not dispatch it |
| KernelRuns.MigratesExactly | kernel/sched/enhanced_scheduler.rs:2754-2807 | a task switched out on one processor and next dispatched on another continues with its registers, stack, activations, FS and GS bases and page-table roots, under the GS base of the new processor |
| LazyFpu.FreshMachine | kernel/cpu_local/lib.rs:398-443 | idle processors before any process exists satisfy the invariant |
| LazyFpu.NextKeepsInv | kernel/arch/interrupts.rs:886-1016 | each process's image is in the live registers if it owns the FPU and in its PCB otherwise, after every step |
| LazyFpu.NextKeepsEager | kernel/sched/enhanced_scheduler.rs:2629-2654 | switching out always saves first, so the unsafe restore is unreachable |
| LazyFpu.NothingLost | kernel/arch/interrupts.rs:886-1016 | over every run of traps (with either contention abort), switches, syscalls and interrupt brackets no image is lost or mixed |
| LazyFpu.SeesOwnImage | kernel/arch/interrupts.rs:886-1016 | a process that uses the FPU finds its own image in the registers |
| LazyFpu.TrapCompletes | kernel/arch/interrupts.rs:886-1016 | an uncontended trap ends with TS clear, ownership taken and the process's image live |
| LazyFpu.TrapWithoutProcess | kernel/arch/interrupts.rs:886-1016 | without a live current process an uncontended trap ends with TS clear and no owner |
| LazyFpu.HaltsExactly | kernel/arch/interrupts.rs:128-221 | the machine stops exactly on bracket overflow or underflow |
| LazyFpu.SpawnedFresh | kernel/arch/context_switch.rs:121-152 | a new process starts with the default image in its PCB |
| LazyFpu.BracketFrame | kernel/arch/interrupts.rs:128-221 | one bracket preserves the interrupted registers and TS whatever runs inside |
| LazyFpu.BracketsRestore | kernel/arch/interrupts.rs:128-221 | so does any nesting of brackets |
| LazyFpu.SaveThenRestore | kernel/arch/interrupts.rs:128-221 | saving and restoring count one level each, and a restore undoes its save |
| LazyFpu.LeftoverOwnerLost | kernel/arch/context_switch.rs:417-421 | without the switch-out save the user entry can restore a stale image |
| LazyFpu.CaptureOwn | kernel/arch/interrupts.rs:1803-1867 | over every run from boot a signal frame gets the process's own image if it is live in the interrupted registers or both locks are free, and the default image exactly otherwise |
| LazyFpu.CaptureExactly | kernel/arch/interrupts.rs:1803-1867 | from any state, case by case: the live image, the saved image, the PCB copy of an owner that had TS set, or the default |
| LazyFpu.CaptureGone | kernel/arch/interrupts.rs:1828-1862 | a process that is gone and not live in the registers yields the default image |
| LazyFpu.SanitizeKeeps | kernel/kernel_core/syscall.rs:11158-11163 | sanitizing zeroes bytes 416 to 511 and keeps all others |
| LazyFpu.DefaultImageWords | kernel/kernel_core/syscall.rs:11146-11156 | the default image has control word 0x037F, MXCSR 0x1F80 and zeros |
| LazyFpu.PerCpu.IrqSaveFpu | kernel/arch/interrupts.rs:128-178 | nesting save, refused exactly at the depth limit |
| LazyFpu.PerCpu.IrqRestoreFpu | kernel/arch/interrupts.rs:180-221 | nesting restore, refused exactly at depth zero |
| LazyFpu.PerCpu.DeviceNotAvailable | kernel/arch/interrupts.rs:886-1016 | the handler, with both places where it gives up on contention |
| BlockLog.ExpectedUnique | userspace/stress_runner.c:1717-1731 | in a window of `io_slots` generations exactly one maps to a given slot |
| BlockLog.AcceptedWindow | userspace/stress_runner.c:1683-1733 | whatever the scan accepts is the contiguous window below its maximum |
| BlockLog.WindowReported | userspace/stress_runner.c:1683-1733 | on a window the scan reports its maximum, checksum, counts and the one slot that may be invalid |
| BlockLog.ScanAccepts | userspace/stress_runner.c:1683-1733 | the scan accepts a disk if and only if it holds such a window |
| BlockLog.AcceptsPages | userspace/stress_runner.c:1626-1733 | over the page fields: the scan reports a generation if and only if it is on disk and every slot holds a sealed page of this run with its own slot number and one of the newest `io_slots` generations, except that the next slot may be broken |
| BlockLog.RejectsStale | userspace/stress_runner.c:1719-1732 | a disk is called stale if and only if no page is new enough or two are a rotation apart; any other rejection names a broken slot |
| BlockLog.CommitAdvances | userspace/stress_runner.c:1661-1681 | committing the successor to a window with at most its slot missing makes every slot valid |
| BlockLog.TearKeepsWindow | userspace/stress_runner.c:1770-1773 | tearing the successor's page costs at most that slot |
| BlockLog.NextKeepsInv | userspace/stress_runner.c:1736-1810 | every write, sync, scan, crash, boot and recovery round keeps the log's invariant |
| BlockLog.RunKeepsInv | userspace/stress_runner.c:1736-1810 | so does every run, and the durable generation never goes back |
| BlockLog.NoRunFails | userspace/stress_runner.c:1736-1810 | over any number of crash and recovery cycles after arming no check fails |
| BlockLog.RecoveredGeneration | userspace/stress_runner.c:1774-1785 | the recovered generation is the last durable one, or its successor and then only if a crash interrupted exactly that write |
| BlockLog.CrashLosesOnlyInFlight | userspace/stress_runner.c:1770-1785 | after a crash of a running machine the scan finds the interrupted generation if its page made it to the disk and the last durable one otherwise |
| BlockLog.RecoveryCompletes | userspace/stress_runner.c:1774-1810 | the recovery write lands on the torn slot if there is one, and afterwards every slot is valid and the round passes |
| BlockLog.OverflowFails | userspace/stress_runner.c:1785-1787 | at the top of the 64-bit counter the recovery round fails |
| BlockLog.RecoveryPassesIff | userspace/stress_runner.c:1774-1810 | recovery passes exactly when the successor fits 64 bits |
| BlockLog.SingleSlotLost | userspace/stress_runner.c:1774-1779 | with one slot a torn write loses the log |
| BlockLog.Runner.Commit | userspace/stress_runner.c:1661-1681 | writes the record of a generation into its slot and returns its checksum |
| BlockLog.Runner.ScanDisk | userspace/stress_runner.c:1683-1733 | the scan loop computes the scan result |
| BlockLog.Runner.Fill | userspace/stress_runner.c:1736-1748 | filling every slot ends in a full window and the baseline scan passes |
| BlockLog.Runner.Recover | userspace/stress_runner.c:1774-1791 | scan, refuse an empty log, commit the successor |
| BlockLog.Runner.RecoveryRound | userspace/stress_runner.c:1793-1810 | the read-only round and its three failures |
| BlockLog.FilledWindow | userspace/stress_runner.c:1739-1747 | the first `io_slots` generations fill the log |
| SmpStress.NextKeepsInv | userspace/stress_runner.c:1083-1137 | lock, counter, barrier, spin, seed and report invariants are kept by every step of any worker or the parent |
| SmpStress.RunInv | userspace/stress_runner.c:1083-1137 | so they hold in every reachable state |
| SmpStress.MutualExclusion | userspace/stress_runner.c:793-803 | at most one worker holds the lock, and then the lock word is set |
| SmpStress.SeedComesFirst | userspace/stress_runner.c:1098-1117 | worker 0 has the lock before any other worker can contend |
| SmpStress.MaskOfAll | userspace/stress_runner.c:1863-1876 | when all are done the two mask words are exactly the low bits |
| SmpStress.FinishedRound | userspace/stress_runner.c:1859-1885 | at the end the counter is workers times iterations, the mask is complete, the spin total is the sum of all failed tries and positive exactly with two or more workers, and every result is that worker's checksum chain |
| SmpStress.ActRank | userspace/stress_runner.c:1083-1137 | a worker's step lowers its measure unless it is waiting |
| SmpStress.HelpfulStep | userspace/stress_runner.c:1098-1128 | in every unfinished reachable state one actor's step strictly lowers a well-founded measure |
| SmpStress.OtherStep | userspace/stress_runner.c:1098-1128 | no other actor's step raises it |
| SmpStress.Converges | userspace/stress_runner.c:809-845 | every fair schedule without an early opening finishes |
| SmpStress.FairRoundEnds | userspace/stress_runner.c:809-845 | a fair round ends if and only if the barrier is never opened early |
| SmpStress.EarlyOpeningHangs | userspace/stress_runner.c:809-845 | an early opening is never recovered from |
| SmpStress.FairRoundCanHang | userspace/stress_runner.c:813-825 | with two or more workers a concrete fair schedule, in which the second fork fails, opens early and never ends |
| SmpStress.FairRoundCompletes | userspace/stress_runner.c:809-845 | without a failed fork every fair round completes all workers |
| SmpStress.RoundRobinCompletes | userspace/stress_runner.c:809-845 | round robin is such a schedule, for every configuration whose rounds can end |
| SmpStress.ZeroIterationsHang | userspace/stress_runner.c:1098-1117 | with zero iterations and several workers no schedule completes |
| Sha256.BigEndianValue | userspace/nilix_syz_executor.c:243-247 | the big-endian bytes stand for the number |
| Sha256.ZeroCountLeast | userspace/nilix_syz_executor.c:348-361 | the number of padding zeros is the smallest that works |
| Sha256.FipsLength | userspace/nilix_syz_executor.c:348-361 | below 2^61 bytes the padding is the one of section 5.1.1 of FIPS 180-4, ending in eight bytes that stand for the bit length |
| Sha256.DigestWord | userspace/nilix_syz_executor.c:363-370 | the digest is the final chain word by word, big-endian |
| Sha256.InitialIsStandard | userspace/nilix_syz_executor.c:315-322 | the initial chain is the one of section 5.3.3 of FIPS 180-4: the fractional square roots of the first eight primes |
| Sha256.FoldSplit | userspace/nilix_syz_executor.c:329-346 | compression over a concatenation of whole blocks composes |
| Sha256.FinishIsPadding | userspace/nilix_syz_executor.c:348-362 | finishing a stream, with or without a spill block, is folding the padded message |
| Sha256.Chunked.constructor | userspace/nilix_syz_executor.c:315-327 | a new context has the initial chain and no input |
| Sha256.Chunked.Update | userspace/nilix_syz_executor.c:329-346 | block-wise absorption of any input |
| Sha256.Chunked.Final | userspace/nilix_syz_executor.c:348-368 | the digest of everything fed |
| Sha256.Bytewise.constructor | userspace/stress_runner.c:211-222 | a new context has the initial chain and no input |
| Sha256.Bytewise.Update | userspace/stress_runner.c:266-275 | byte-wise absorption of any input |
| Sha256.Bytewise.Final | userspace/stress_runner.c:277-303 | the digest of everything fed |
| Sha256.HashChunked | userspace/nilix_syz_executor.c:329-368 | the block-wise digest of a message in any number of pieces depends only on their concatenation |
| Sha256.HashBytewise | userspace/stress_runner.c:266-303 | the same for the byte-wise one |
| Sha256.AnySplit | userspace/stress_runner.c:266-303 | both implementations agree on every message however each is split |
| Sha256.HmacSha256 | userspace/nilix_syz_executor.c:377-419 | section 2 of RFC 2104 on the domain followed by the data, for keys of any length |
| Sha256.XorAllBit | userspace/nilix_syz_executor.c:399-402 | the pads are the key block with each bit of the pad constant flipped |
| Sha256.HmacPads | userspace/nilix_syz_executor.c:377-414 | HMAC is the digest of the outer pad and the inner digest, the pads being the key block with the bits of 0x5C and of 0x36 flipped |
| WireFormat.ArgRoundTrip | userspace/nilix_syz_executor.c:862-930 | parsing an encoded argument gives it back and stops behind it |
| WireFormat.ArgCanonical | userspace/nilix_syz_executor.c:862-930 | an accepted argument is the encoding of what was returned |
| WireFormat.ArgLayout | userspace/nilix_syz_executor.c:863-945 | each field of an argument record at its byte offset, then the data and zero padding to a multiple of eight |
| WireFormat.ArgChecks | userspace/nilix_syz_executor.c:865-935 | the argument checks over raw bytes, in the order of their error stages, and what an accepted argument is |
| WireFormat.CallRoundTrip | userspace/nilix_syz_executor.c:827-967 | the same for call records, policy included |
| WireFormat.CallCanonical | userspace/nilix_syz_executor.c:827-967 | accepted call records are encodings of allowed calls |
| WireFormat.CallLayout | userspace/nilix_syz_executor.c:836-854 | each field of a call record at its byte offset, with its own length |
| WireFormat.CallChecks | userspace/nilix_syz_executor.c:836-854 | the call checks over raw bytes, in the order of their error stages |
| WireFormat.RoundTrip | userspace/nilix-syz-fuzzer/src/protocol.rs:133-178 | parsing the encoding of any policy-valid program returns that program |
| WireFormat.Canonical | userspace/nilix_syz_executor.c:765-974 | everything accepted is the encoding of a policy-valid program, so the records tile the input |
| WireFormat.ProgramLayout | userspace/nilix_syz_executor.c:765-828 | each part of a program at its byte offset |
| WireFormat.HeaderChecks | userspace/nilix_syz_executor.c:765-828 | the header checks over raw bytes, in the order of their error stages |
| WireFormat.Injective | userspace/nilix_syz_executor.c:765-974 | two accepted byte strings with the same program are equal |
| ProgramParser.BytesAreZero | userspace/nilix_syz_executor.c:196-202 | the OR-accumulating loop detects exactly the all-zero ranges |
| ProgramParser.ConstantTimeEqual | userspace/nilix_syz_executor.c:421-427 | the XOR-accumulating loop decides equality |
| ProgramParser.Place | userspace/nilix_syz_executor.c:937-951 | a buffer is copied and zero-filled, and nothing below it changes |
| ProgramParser.LaidExtends | userspace/nilix_syz_executor.c:929-953 | placing one more buffer keeps all buffers aligned, apart, in bounds and intact |
| ProgramParser.ReadArg | userspace/nilix_syz_executor.c:855-956 | one argument read from the cursor is the format's argument, with its buffer laid out |
| ProgramParser.ReadCall | userspace/nilix_syz_executor.c:827-967 | one call record read from the cursor is the format's call |
| ProgramParser.ParseProgram | userspace/nilix_syz_executor.c:765-974 | the parser agrees with the format on every input, error stage included; the identity flag is set exactly past the digest check; on success the buffers are aligned, disjoint, inside 128 KiB and hold data then zeros |
| HostPolicy.HostCallVersusGuest | userspace/nilix-syz-fuzzer/src/program.rs:166-251 | a host-valid call is guest-valid unless it is getrlimit into an in/out buffer |
| HostPolicy.PolicyVersusHost | userspace/nilix_syz_executor.c:681-763 | the C allowlist admits exactly what the Rust one does, less getrlimit into an in/out buffer, plus empty paths |
| HostPolicy.GuestCallVersusHost | userspace/nilix-syz-fuzzer/src/program.rs:166-251 | a guest-valid call is host-valid unless it has an empty path or an in/out buffer without bytes |
| HostPolicy.HostVersusGuest | userspace/nilix-syz-fuzzer/src/program.rs:89-113 | exactly when the guest accepts a host-validated program |
| HostPolicy.GuestVersusHost | userspace/nilix-syz-fuzzer/src/program.rs:89-113 | exactly when the host accepts a guest-valid program |
| HostPolicy.RlimitGap | userspace/nilix-syz-fuzzer/src/program.rs:206-210 | a host-valid getrlimit the guest refuses |
| HostPolicy.ArenaGap | userspace/nilix-syz-fuzzer/src/program.rs:97-111 | a host-valid program whose aligned buffers overflow the arena |
| Session.ComputeProgramDigest | userspace/nilix_syz_executor.c:630-644 | the four streamed pieces are the digest of the domain and the covered bytes |
| Session.GuestReceives | userspace/nilix-syz-fuzzer/src/protocol.rs:133-178 | with SHA-256 as the digest the guest parses back what the host encodes |
| Session.HostReceives | userspace/nilix-syz-fuzzer/src/protocol.rs:253-348 | the host decodes the guest's result to its returns and bitmap if and only if the slot count is the bitmap's population count |
| Session.ResultLayout | userspace/nilix_syz_executor.c:1145-1180 | each part of a result at its byte offset, and the tag is the HMAC of everything before it |
| Session.Domains | userspace/nilix_syz_executor.c:119-126 | the domain strings and magics as text |
| Session.HostAcceptsOnly | userspace/nilix-syz-fuzzer/src/protocol.rs:253-348 | everything the host accepts is a result built for its own binding |
| Session.BuildResult | userspace/nilix_syz_executor.c:1120-1184 | the written buffer is the result record with its tag, refused exactly when a call did not run |
| Session.GuestKeepsBinding | userspace/nilix_syz_executor.c:813 | the digest the guest copies out of the header is the one the host bound the program to |
| Session.EndToEnd | userspace/nilix_syz_executor.c:1120-1184 | program out, result back under the identity the guest read from the bytes: nothing is altered on the way |
| FuzzInput.Take | fuzz/src/qemu_executor.rs:95-100 | splits off the front or fails exactly when there is too little |
| FuzzInput.ParseFuzzerInput | fuzz/src/qemu_executor.rs:62-93 | the cursor loops compute the decoder |
| FuzzInput.PrefixFree | fuzz/src/qemu_executor.rs:59-93 | no accepted input is a proper prefix of another |
| FuzzInput.DecodesBack | fuzz/src/qemu_executor.rs:62-93 | every valid expressible program of one to ten calls has an encoding that decodes back to it |
| FuzzInput.DecodesExactly | fuzz/src/qemu_executor.rs:62-93 | an input decodes to a program if and only if it spells that program byte for byte and the program is valid with one to ten calls |
| FuzzInput.Table | fuzz/src/qemu_executor.rs:15-17 | the syscall number at each table index |
| FuzzInput.AcceptedByGuest | fuzz/src/qemu_executor.rs:62-93 | every accepted input is a program the guest accepts |
| Placement.Uniform | bootloader/src/main.rs:339-350 | every remainder has the same number of accepted samples, and fewer than the bound are rejected |
| Placement.DrawIsFirstAccepted | bootloader/src/main.rs:339-350 | a draw yields x if and only if x is the remainder of the first sample not below 2^64 mod the bound, with no failed sample before it, within the tries |
| Placement.HitsUniform | bootloader/src/main.rs:341-347 | of the 2^64 samples exactly 2^64 / bound make a draw yield each result |
| Placement.UniformEntropyBelow | bootloader/src/main.rs:339-350 | the draw loop computes the draw: the remainder of the first accepted sample within 32, which it is told, or failure |
| Placement.ShufflePermutes | bootloader/src/main.rs:369-376 | the shuffle only reorders |
| Placement.ShuffleInjective | bootloader/src/main.rs:369-376 | different choices give different orders |
| Placement.ShuffleOnto | bootloader/src/main.rs:369-376 | every order comes from some choices |
| Placement.Unbiased | bootloader/src/main.rs:351-376 | any two orders come from equally many tuples of accepted samples, counted by what a draw yields on each sample, and from at least one |
| Placement.FisherYates | bootloader/src/main.rs:369-375 | the in-place loop is the shuffle |
| Placement.PlacementOrder | bootloader/src/main.rs:358-383 | both branches return every slot once; randomized exactly when every draw succeeded |
| Placement.AllocateImage | bootloader/src/main.rs:392-460 | gives up exactly when every fitting slot was refused, and otherwise ends at the first one that was not |
| Placement.OrdersExact | bootloader/src/main.rs:351-376 | the shuffle produces every order of the slots and nothing else |
| Placement.UniformOverViable | bootloader/src/main.rs:353-355 | any two slots that fit and are granted are chosen under equally many orders, and under at least one, however many slots are taken |
| Placement.PlacedIsViable | bootloader/src/main.rs:353-355 | no order places the image at any other slot |
| Loader.MeasureExtent | bootloader/src/main.rs:719-750 | lowest and highest high-half address, or panic exactly when there is none or an end overflows |
| Loader.FewestPages | bootloader/src/main.rs:766-775 | the page count is the smallest that holds the image |
| Loader.LoadedByte | bootloader/src/main.rs:961-975 | with disjoint segments each link address holds its file byte or zero |
| Loader.TouchesAddress | bootloader/src/main.rs:908-959 | a segment's page range is exactly the pages that hold one of its addresses |
| Loader.Classify | bootloader/src/main.rs:908-959 | page permissions are exactly the union over touching segments, refused on a writable and executable page |
| Loader.LoadSegments | bootloader/src/main.rs:834-1001 | the LOAD loop accepts exactly the sound segments without a conflicting page, and leaves image and permissions accordingly |
| Loader.ApplyRelocations | bootloader/src/main.rs:98-199 | accepted exactly when all are relative, symbol-free and inside the image (and present if there is a slide), and then applied in order |
| Loader.PatchSets | bootloader/src/main.rs:180-195 | a site that no other overlaps holds addend plus slide |
| Loader.PatchedWord | bootloader/src/main.rs:180-195 | read as a word, such a site holds addend plus slide modulo 2^64 |
| Loader.PatchKeeps | bootloader/src/main.rs:180-195 | bytes away from every site are unchanged |
| BootTables.FillTable | bootloader/src/main.rs:1196-1221 | a table of 4 KiB leaves with the flags of each page |
| BootTables.BuildDirectory | bootloader/src/main.rs:1186-1233 | kernel buckets get 4 KiB tables, all others 2 MiB leaves |
| BootTables.BucketOverlaps | bootloader/src/main.rs:1186-1195 | a bucket counts as a kernel bucket exactly when it overlaps the image |
| BootTables.BuildHighHalf | bootloader/src/main.rs:1186-1246 | walking any address of the 1 GiB window reaches its physical address with its page's rights, never both writable and executable |
| BootTables.PageRights | bootloader/src/main.rs:1196-1221 | the rights of each page: data outside the image, and inside it executable or writable as its permissions say |
| BootTables.ReachesSegment | bootloader/src/main.rs:834-1246 | link address plus slide reaches the loaded, relocated byte with its page's exact rights |
| BootTables.LandsWhenLinkedAtBase | bootloader/src/main.rs:1186-1246 | an address of the window reaches the byte loaded for it if and only if the image is linked at the expected base |
| BootTables.MislinkedLoads | bootloader/src/main.rs:719-765 | an image linked elsewhere that loads cleanly and is mapped to the wrong byte |
| BootTables.LoadKernel | bootloader/src/main.rs:719-1246 | the whole loader gets through if and only if some extent satisfies every check; the image is then the segments in order with the relocations in order, and for a linker's image at the expected base every byte of every segment is reachable at its slid address with its page's rights |
| BootTables.BootKernel | bootloader/src/main.rs:392-1246 | placement and loading together get through if and only if the first slot that fits and is not refused is granted and the image loads cleanly at its slide; the kernel is then reachable wherever it went |
| Calendar.DayStep | kernel/build.rs:353-385 | one calendar day on is one more in the closed form |
| Calendar.StrictlyIncreasing | kernel/build.rs:374-385 | the closed form is strictly increasing in date order |
| Calendar.ClosedFormCountsDays | kernel/build.rs:374-385 | it counts single-day steps from 1970-01-01 |
| Calendar.LeapDaysChecked | kernel/build.rs:375-377 | the checked subtraction of the centuries never goes below zero, and the checked sum is the leap-day count |
| Calendar.ParseDateExact | kernel/build.rs:337-386 | a string is accepted exactly when it spells a valid date whose seconds fit 64 bits, with 86400 times the day count |
| Calendar.SpelledDateParses | kernel/build.rs:337-386 | year, month and day spelled in decimal and joined by dashes are read as that date and converted |
| Calendar.MonthLengths | kernel/build.rs:354-371 | the month table and the leap rule |
| Calendar.ParseDateOrdered | kernel/build.rs:337-386 | accepted strings are ordered by seconds as by dates |
| Coverage.MergeIsUnion | userspace/fuzz_runner_phase2.c:76-99 | merging is the union of edges over the merged length |
| Coverage.CoverageStats.MergeCoverage | userspace/fuzz_runner_phase2.c:76-99 | the bitmap becomes the union and the result is the growth of the edge count |
| Coverage.CountUniqueEdges | userspace/fuzz_runner_phase2.c:101-112 | the nested loops count the set bits |
| Coverage.CountIsEdges | userspace/fuzz_runner_phase2.c:101-112 | that count is the number of edges in the bitmap |
| Coverage.MergeAllIsUnion | userspace/fuzz_runner_phase2.c:343-347 | after any number of merges an edge is present exactly when some input had it |
| Coverage.OrderIrrelevant | userspace/fuzz_runner_phase2.c:343-347 | the same inputs in any order leave the same bitmap |
| Coverage.Campaign | userspace/fuzz_runner_phase2.c:343-354 | the reported new edges add up to the final unique count |

## Left out

- SHA-256 compression rounds, digest collisions and entropy quality: parameters here.
- Speculation fences, debug registers, SMAP and DF instructions, serial tracing: no functional state to prove about.
- Non-maskable interrupts, machine checks and recoverable exceptions from ring 3: they neither schedule nor reach GS in the modelled paths.
- Page-fault handling, signal delivery, process teardown and the scheduler's choice of the next task: any idle task may be dispatched here.
- Kernel stack overflow: a switch is only modelled with room for its pushes.
- SYSRETQ's reserved flag bits: r11 is taken over whole.
- FPU contents in the switch and syscall models: `LazyFpu` has them, with the registers as one value.
- Update in place of the register file: the assembly methods work on record values, one statement per instruction, rather than on an object.
- Page-table frames as memory: tables are values indexed by frame, so overlap of a frame with the image is not modelled; the low identity mapping is left out as it only serves the hand-over.
- LoadKernel: with overlapping LOAD segments or relocation sites the image is stated as a whole, but reachability byte by byte only without overlaps, as in an image a linker produces.
- EndToEnd: the returns and the bitmap stand for whatever the guest's syscalls and coverage device delivered.
- File reading and publishing, marker output, KCOV control calls, the pthread, cgroup and churn profiles: input and output plumbing.
- Bring-up and the first user entry in the joint run of `KernelRuns`: it starts once every processor is initialised, and user tasks enter ring 3 through a switch; `EntryRuns` has both.
- The host's corpus files and statistics and the build script's other reports: they format, store and count records; what host and guest must agree on byte for byte is in `WireFormat` and `Session`.
- The mock kernel and the stub fuzz targets: a mock imitates the kernel's answers without sharing its code, so nothing proved of it would hold of the kernel.
