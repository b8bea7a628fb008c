/**
 * Every interleaving of processor initialisation, first user entry, syscalls that block or migrate, timer interrupts
 * from ring 3 and ring 0, task switches, `arch_prctl` and `exec`, over any number of processors. The control effects
 * are the closed forms that the instruction-level routines are proved equal to.
 */
module EntryRuns {
  import opened Machine
  import ContextSwitch
  import SyscallPath
  import TimerPath

  /** An activation on a task's kernel stack. */
  datatype Activation = InSyscall | InTimer(ring3: bool)

  /**
   * A task: page-table roots, PCB copies of its FS and GS bases, and, while it is off every processor, whether its
   * context is still the user context it was created with, or else its kernel activations.
   */
  datatype Task = Task(space: Word, userSpace: Word, fs: Word, gs: Word, newborn: bool, acts: seq<Activation>)

  /** A processor before initialisation, a running one, or one that used GS or the scheduler with a wrong base. */
  datatype Core =
    | Off(k: Ctl)
    | On(k: Ctl, task: nat, ring3: bool, acts: seq<Activation>, rejected: bool)
    | Wild

  /** `slots` is the address of `SYSCALL_PERCPU`, `boot` the boot page-table root. */
  datatype State = State(slots: nat, boot: Word, cores: seq<Core>, tasks: map<nat, Task>)

  datatype Event =
    | Init(c: nat, t: nat, scratchTop: Word)
    | FirstEntry(c: nat, t: nat, rdx: Word)
    | Enter(c: nat, rsp: Word, fp: Word)
    | Leave(c: nat, rdx: Word, allowed: bool)
    | Tick(c: nat)
    | TickEnd(c: nat)
    | Switch(c: nat, next: nat, rdx: Word)
    | SetBases(c: nat, fs: Word, gs: Word)
    | Exec(c: nat, space: Word, userSpace: Word)
    | Spawn(t: nat, task: Task)

  const SLOT_SIZE: nat := 128

  function KernelRoot(boot: Word, t: Task): Word {
    if t.space == 0 then boot else t.space
  }

  function UserRoot(boot: Word, t: Task): Word {
    if t.userSpace == 0 then KernelRoot(boot, t) else t.userSpace
  }

  // ---------------------------------------------------------------------------------------------
  // Control effects of the kernel's own (non-assembly) steps

  /** `init_syscall_percpu`. */
  function InitCtl(k: Ctl, scratchTop: Word): Ctl {
    var p := k.percpu.(scratchTop := scratchTop, userRsp := 0, framePtr := 0, active := 0, pendingFs := 0, pendingGs := 0);
    SwapGs(k.(percpu := p, kernelGs := k.slot, gs := 0))
  }

  /** `init_syscall_percpu` step by step: reset the record, program both bases, and swap them at once. */
  method InitPerCpu(k0: Ctl, scratchTop: Word) returns (k: Ctl)
    ensures k == InitCtl(k0, scratchTop)
    ensures OwnGs(k) && k.kernelGs == 0 && k.fs == k0.fs && k.cr3 == k0.cr3 && k.percpu.scratchTop == scratchTop
    ensures k.percpu.active == 0 && k.percpu.framePtr == 0 && k.percpu.pendingFs == 0 && k.percpu.pendingGs == 0
  {
    k := k0;
    k := k.(percpu := k.percpu.(scratchTop := scratchTop));
    k := k.(percpu := k.percpu.(userRsp := 0));
    k := k.(percpu := k.percpu.(framePtr := 0));
    k := k.(percpu := k.percpu.(active := 0));
    k := k.(percpu := k.percpu.(pendingFs := 0, pendingGs := 0));
    k := k.(kernelGs := k.slot);
    k := k.(gs := 0);
    k := SwapGs(k);
  }

  /** `activate_memory_space` with an explicit user root, through `arch_set_kpti_cr3s`. */
  function ActivateCtl(k: Ctl, boot: Word, t: Task): Ctl {
    k.(cr3 := KernelRoot(boot, t),
       percpu := k.percpu.(kernelCr3 := KernelRoot(boot, t), userCr3 := UserRoot(boot, t)))
  }

  /** `stage_pending_tls_bases` and the two MSR writes beside it. */
  function BasesCtl(k: Ctl, fs: Word, gs: Word): Ctl {
    k.(fs := fs, kernelGs := gs, percpu := k.percpu.(pendingFs := fs, pendingGs := gs))
  }

  /** `execute_switch` up to and including the save half of the switch routine. */
  function SwitchCtl(k: Ctl, boot: Word, t: Task): Ctl {
    ContextSwitch.Parked(BasesCtl(ActivateCtl(k, boot, t), t.fs, t.gs))
  }

  // ---------------------------------------------------------------------------------------------
  // Steps of one processor

  function EnterCore(core: Core, rsp: Word, fp: Word): Core
    requires core.On?
  {
    if !OwnGs(SwapGs(core.k)) then Wild
    else if core.k.percpu.active % 2 == 1 then core.(rejected := true)
    else core.(k := SyscallPath.EntryCtl(core.k, rsp, fp), ring3 := false, acts := [InSyscall])
  }

  /** The epilogue; a refused return address leaves its task in the kernel, on its way to termination. */
  function LeaveCore(core: Core, rdx: Word, allowed: bool): Core
    requires core.On?
  {
    if !OwnGs(core.k) then Wild
    else
      if allowed then core.(k := SyscallPath.ExitCtl(core.k, rdx), ring3 := true, acts := [])
      else core.(k := SyscallPath.RefusedCtl(core.k, rdx))
  }

  function TickCore(core: Core): Core
    requires core.On?
  {
    var k := TimerPath.EnterCtl(core.k, core.ring3);
    if core.ring3 && !OwnGs(k) then Wild
    else core.(k := k, ring3 := false, acts := core.acts + [InTimer(core.ring3)])
  }

  function TickEndCore(core: Core): Core
    requires core.On? && core.acts != [] && core.acts[|core.acts| - 1].InTimer?
  {
    var last := |core.acts| - 1;
    var ring3 := core.acts[last].ring3;
    if ring3 && !OwnGs(core.k) then Wild
    else core.(k := TimerPath.LeaveCtl(core.k, ring3), ring3 := ring3, acts := core.acts[..last])
  }

  function SwitchInCore(core: Core, boot: Word, next: nat, t: Task, rdx: Word): Core
    requires core.On?
  {
    if !OwnGs(core.k) then Wild
    else
      var k := SwitchCtl(core.k, boot, t);
      if t.newborn then core.(k := ContextSwitch.IretTail(k, rdx), task := next, ring3 := true, acts := [])
      else core.(k := k, task := next, acts := t.acts)
  }

  function FirstEntryCore(core: Core, boot: Word, next: nat, t: Task, rdx: Word): Core
    requires core.On?
  {
    if !OwnGs(core.k) then Wild
    else
      var k := ActivateCtl(core.k, boot, t);
      var cleared := k.(percpu := k.percpu.(active := 0, framePtr := 0));
      core.(k := ContextSwitch.IretTail(cleared, rdx), task := next, ring3 := true, acts := [])
  }

  // ---------------------------------------------------------------------------------------------
  // The system

  predicate Idle(s: State, t: nat) {
    t in s.tasks && forall c :: 0 <= c < |s.cores| && s.cores[c].On? ==> s.cores[c].task != t
  }

  predicate Running(s: State, c: nat) {
    c < |s.cores| && s.cores[c].On? && s.cores[c].task in s.tasks
  }

  predicate InKernel(s: State, c: nat) {
    Running(s, c) && !s.cores[c].ring3
  }

  predicate Enabled(s: State, e: Event) {
    match e
    case Init(c, t, _) => c < |s.cores| && s.cores[c].Off? && t !in s.tasks
    case FirstEntry(c, t, _) =>
      && InKernel(s, c) && s.cores[c].acts == [] && Idle(s, t) && s.tasks[t].newborn
      && s.tasks[t].fs == s.cores[c].k.fs && s.tasks[t].gs == s.cores[c].k.kernelGs
      && s.tasks[t].fs == s.cores[c].k.percpu.pendingFs && s.tasks[t].gs == s.cores[c].k.percpu.pendingGs
    case Enter(c, _, _) => Running(s, c) && s.cores[c].ring3
    case Leave(c, _, _) => InKernel(s, c) && s.cores[c].acts == [InSyscall]
    case Tick(c) => Running(s, c)
    case TickEnd(c) =>
      InKernel(s, c) && s.cores[c].acts != [] && s.cores[c].acts[|s.cores[c].acts| - 1].InTimer?
    case Switch(c, next, _) => InKernel(s, c) && Idle(s, next)
    case SetBases(c, _, _) => InKernel(s, c) && s.cores[c].acts == [InSyscall]
    case Exec(c, _, _) => InKernel(s, c) && s.cores[c].acts == [InSyscall]
    case Spawn(t, task) => t !in s.tasks && task.newborn && task.acts == []
  }

  /**
   * Switching out samples the live bases into the PCB and leaves the activations on the kernel stack. The first user
   * entry parks the boot context the same way, where the code abandons it: that only adds runs.
   */
  function SwitchedOut(t: Task, core: Core): Task
    requires core.On?
  {
    t.(fs := core.k.fs, gs := core.k.kernelGs, newborn := false, acts := core.acts)
  }

  function SetCore(s: State, c: nat, core: Core): State
    requires c < |s.cores|
  {
    s.(cores := s.cores[c := core])
  }

  function Next(s: State, e: Event): State
    requires Enabled(s, e)
  {
    match e
    case Init(c, t, top) =>
      var k := InitCtl(s.cores[c].k, top);
      SetCore(s, c, On(k, t, false, [], false)).(tasks := s.tasks[t := Task(0, 0, k.fs, k.kernelGs, false, [])])
    case FirstEntry(c, t, rdx) =>
      SetCore(s, c, FirstEntryCore(s.cores[c], s.boot, t, s.tasks[t], rdx))
        .(tasks := s.tasks[s.cores[c].task := SwitchedOut(s.tasks[s.cores[c].task], s.cores[c])])
    case Enter(c, rsp, fp) => SetCore(s, c, EnterCore(s.cores[c], rsp, fp))
    case Leave(c, rdx, allowed) => SetCore(s, c, LeaveCore(s.cores[c], rdx, allowed))
    case Tick(c) => SetCore(s, c, TickCore(s.cores[c]))
    case TickEnd(c) => SetCore(s, c, TickEndCore(s.cores[c]))
    case Switch(c, next, rdx) =>
      SetCore(s, c, SwitchInCore(s.cores[c], s.boot, next, s.tasks[next], rdx))
        .(tasks := s.tasks[s.cores[c].task := SwitchedOut(s.tasks[s.cores[c].task], s.cores[c])])
    case SetBases(c, fs, gs) =>
      SetCore(s, c, s.cores[c].(k := BasesCtl(s.cores[c].k, fs, gs)))
        .(tasks := s.tasks[s.cores[c].task := s.tasks[s.cores[c].task].(fs := fs, gs := gs)])
    case Exec(c, space, userSpace) =>
      var t := s.tasks[s.cores[c].task].(space := space, userSpace := userSpace, fs := 0, gs := 0);
      SetCore(s, c, s.cores[c].(k := BasesCtl(ActivateCtl(s.cores[c].k, s.boot, t), 0, 0)))
        .(tasks := s.tasks[s.cores[c].task := t])
    case Spawn(t, task) => s.(tasks := s.tasks[t := task])
  }

  // ---------------------------------------------------------------------------------------------
  // The invariant

  /** Only the oldest activation can have come from ring 3. */
  predicate WellNested(acts: seq<Activation>) {
    forall i :: 0 < i < |acts| ==> acts[i] == InTimer(false)
  }

  /** The activations end in a return to ring 3. */
  predicate UserBound(acts: seq<Activation>) {
    acts != [] && acts[0] != InTimer(false)
  }

  predicate Paired(k: Ctl, boot: Word, t: Task) {
    k.percpu.kernelCr3 == KernelRoot(boot, t) && k.percpu.userCr3 == UserRoot(boot, t)
  }

  predicate Staged(k: Ctl, t: Task) {
    k.percpu.pendingFs == t.fs && k.percpu.pendingGs == t.gs
  }

  predicate UserState(k: Ctl, boot: Word, t: Task) {
    && k.kernelGs == k.slot && k.gs == t.gs && k.fs == t.fs && Staged(k, t)
    && k.cr3 == UserRoot(boot, t) && Paired(k, boot, t)
    && k.percpu.active == 0 && k.percpu.framePtr == 0
  }

  predicate KernelState(k: Ctl, boot: Word, t: Task, acts: seq<Activation>) {
    && OwnGs(k) && k.kernelGs == t.gs && k.fs == t.fs
    && k.cr3 == KernelRoot(boot, t)
    && k.percpu.active <= 1 && WellNested(acts)
    && (UserBound(acts) ==>
          && Paired(k, boot, t) && Staged(k, t)
          && (acts[0] == InTimer(true) ==> k.percpu.active == 0 && k.percpu.framePtr == 0))
  }

  predicate CoreOk(slot: nat, boot: Word, core: Core, t: Task)
    requires core.On?
  {
    && core.k.slot == slot && !core.rejected
    && if core.ring3 then core.acts == [] && UserState(core.k, boot, t)
       else KernelState(core.k, boot, t, core.acts)
  }

  predicate CoreInv(s: State, c: nat)
    requires c < |s.cores|
  {
    var slot := s.slots + SLOT_SIZE * c;
    match s.cores[c]
    case Off(k) => k.slot == slot && k.cr3 == s.boot
    case On(_, task, _, _, _) => task in s.tasks && CoreOk(slot, s.boot, s.cores[c], s.tasks[task])
    case Wild => false
  }

  predicate TaskOk(t: Task) {
    WellNested(t.acts)
  }

  predicate SameTask(a: Core, b: Core) {
    a.On? && b.On? && a.task == b.task
  }

  ghost predicate Inv(s: State) {
    && s.boot != 0
    && (forall c :: 0 <= c < |s.cores| ==> CoreInv(s, c))
    && (forall c, d :: 0 <= c < |s.cores| && 0 <= d < |s.cores| && SameTask(s.cores[c], s.cores[d]) ==> c == d)
    && (forall t :: t in s.tasks ==> TaskOk(s.tasks[t]))
  }

  // One processor

  lemma {:induction false} EnterOk(slot: nat, boot: Word, core: Core, t: Task, rsp: Word, fp: Word)
    requires core.On? && core.ring3 && CoreOk(slot, boot, core, t)
    ensures EnterCore(core, rsp, fp).On? && CoreOk(slot, boot, EnterCore(core, rsp, fp), t)
  {
  }

  lemma {:induction false} LeaveOk(slot: nat, boot: Word, core: Core, t: Task, rdx: Word, allowed: bool)
    requires core.On? && !core.ring3 && core.acts == [InSyscall] && CoreOk(slot, boot, core, t)
    ensures LeaveCore(core, rdx, allowed).On? && CoreOk(slot, boot, LeaveCore(core, rdx, allowed), t)
  {
  }

  lemma {:induction false} TickOk(slot: nat, boot: Word, core: Core, t: Task)
    requires boot != 0 && core.On? && CoreOk(slot, boot, core, t)
    ensures TickCore(core).On? && CoreOk(slot, boot, TickCore(core), t)
  {
  }

  lemma {:induction false} TickEndOk(slot: nat, boot: Word, core: Core, t: Task)
    requires boot != 0 && core.On? && !core.ring3 && core.acts != [] && core.acts[|core.acts| - 1].InTimer?
    requires CoreOk(slot, boot, core, t)
    ensures TickEndCore(core).On? && CoreOk(slot, boot, TickEndCore(core), t)
  {
  }

  lemma {:induction false} SwitchOk(slot: nat, boot: Word, core: Core, t: Task, next: nat, n: Task, rdx: Word)
    requires boot != 0 && core.On? && !core.ring3 && CoreOk(slot, boot, core, t) && TaskOk(n)
    ensures SwitchInCore(core, boot, next, n, rdx).On? && CoreOk(slot, boot, SwitchInCore(core, boot, next, n, rdx), n)
    ensures SwitchedOut(t, core).(newborn := t.newborn, acts := t.acts) == t && TaskOk(SwitchedOut(t, core))
  {
  }

  lemma {:induction false} FirstEntryOk(slot: nat, boot: Word, core: Core, t: Task, next: nat, n: Task, rdx: Word)
    requires boot != 0 && core.On? && !core.ring3 && CoreOk(slot, boot, core, t)
    requires n.fs == core.k.fs && n.gs == core.k.kernelGs && Staged(core.k, n)
    ensures FirstEntryCore(core, boot, next, n, rdx).On?
    ensures CoreOk(slot, boot, FirstEntryCore(core, boot, next, n, rdx), n)
  {
  }

  // The system

  /**
   * A step of processor `c` that ends with processor state `core` and changes no task but `core.task` and the one
   * `c` was running keeps the invariant.
   */
  lemma {:induction false} CoreStep(s: State, s': State, c: nat)
    requires Inv(s) && c < |s.cores| && s'.slots == s.slots && s'.boot == s.boot
    requires |s'.cores| == |s.cores| && s'.cores[c].On? && CoreInv(s', c)
    requires forall d :: 0 <= d < |s.cores| && d != c ==> s'.cores[d] == s.cores[d] && !SameTask(s.cores[d], s'.cores[c])
    requires forall t :: t in s.tasks ==>
      t in s'.tasks && (s'.tasks[t] == s.tasks[t] || t == s'.cores[c].task || (s.cores[c].On? && t == s.cores[c].task))
    requires forall t :: t in s'.tasks ==> TaskOk(s'.tasks[t])
    ensures Inv(s')
  {
    forall d | 0 <= d < |s'.cores| ensures CoreInv(s', d) {
      if d != c {
        assert CoreInv(s, d);
        assert !SameTask(s.cores[d], s'.cores[c]) && !SameTask(s.cores[d], s.cores[c]);
      }
    }
  }

  /** Steps that stay on one task. */
  lemma {:induction false} OwnStepKeeps(s: State, e: Event)
    requires Inv(s) && Enabled(s, e)
    requires e.Enter? || e.Leave? || e.Tick? || e.TickEnd?
    ensures Inv(Next(s, e))
  {
    assert CoreInv(s, e.c);
    var core := s.cores[e.c];
    var t := s.tasks[core.task];
    var slot := s.slots + SLOT_SIZE * e.c;
    match e {
      case Enter(_, rsp, fp) => EnterOk(slot, s.boot, core, t, rsp, fp);
      case Leave(_, rdx, allowed) => LeaveOk(slot, s.boot, core, t, rdx, allowed);
      case Tick(_) => TickOk(slot, s.boot, core, t);
      case TickEnd(_) => TickEndOk(slot, s.boot, core, t);
    }
    CoreStep(s, Next(s, e), e.c);
  }

  lemma {:induction false} SwitchKeeps(s: State, e: Event)
    requires Inv(s) && Enabled(s, e) && (e.Switch? || e.FirstEntry?)
    ensures Inv(Next(s, e))
  {
    assert CoreInv(s, e.c);
    var core := s.cores[e.c];
    var t := s.tasks[core.task];
    var next := if e.Switch? then e.next else e.t;
    var slot := s.slots + SLOT_SIZE * e.c;
    SwitchOk(slot, s.boot, core, t, next, s.tasks[next], e.rdx);
    if e.FirstEntry? {
      FirstEntryOk(slot, s.boot, core, t, next, s.tasks[next], e.rdx);
    }
    CoreStep(s, Next(s, e), e.c);
  }

  lemma {:induction false} OwnerKeeps(s: State, e: Event)
    requires Inv(s) && Enabled(s, e) && (e.SetBases? || e.Exec?)
    ensures Inv(Next(s, e))
  {
    assert CoreInv(s, e.c);
    CoreStep(s, Next(s, e), e.c);
  }

  lemma {:induction false} ArrivalKeeps(s: State, e: Event)
    requires Inv(s) && Enabled(s, e) && (e.Init? || e.Spawn?)
    ensures Inv(Next(s, e))
  {
    var s' := Next(s, e);
    forall d | 0 <= d < |s'.cores| ensures CoreInv(s', d) {
      assert CoreInv(s, d);
    }
    forall a, b | 0 <= a < |s'.cores| && 0 <= b < |s'.cores| && SameTask(s'.cores[a], s'.cores[b]) ensures a == b {
      assert CoreInv(s, a) && CoreInv(s, b);
    }
  }

  lemma {:induction false} NextKeeps(s: State, e: Event)
    requires Inv(s) && Enabled(s, e)
    ensures Inv(Next(s, e))
  {
    match e
    case Init(_, _, _) => ArrivalKeeps(s, e);
    case Spawn(_, _) => ArrivalKeeps(s, e);
    case FirstEntry(_, _, _) => SwitchKeeps(s, e);
    case Switch(_, _, _) => SwitchKeeps(s, e);
    case SetBases(_, _, _) => OwnerKeeps(s, e);
    case Exec(_, _, _) => OwnerKeeps(s, e);
    case _ => OwnStepKeeps(s, e);
  }

  // ---------------------------------------------------------------------------------------------
  // Runs

  /** Power-on: every processor is off on the boot root, and only newly created user tasks exist. */
  predicate Start(s: State) {
    && s.boot != 0
    && (forall c :: 0 <= c < |s.cores| ==>
          s.cores[c].Off? && s.cores[c].k.slot == s.slots + SLOT_SIZE * c && s.cores[c].k.cr3 == s.boot)
    && (forall t :: t in s.tasks ==> s.tasks[t].newborn && s.tasks[t].acts == [])
  }

  predicate Legal(s: State, events: seq<Event>)
    decreases |events|
  {
    events == [] || (Enabled(s, events[0]) && Legal(Next(s, events[0]), events[1..]))
  }

  function RunOf(s: State, events: seq<Event>): State
    requires Legal(s, events)
    decreases |events|
  {
    if events == [] then s else RunOf(Next(s, events[0]), events[1..])
  }

  lemma {:induction false} RunKeeps(s: State, events: seq<Event>)
    requires Inv(s) && Legal(s, events)
    ensures Inv(RunOf(s, events))
    ensures RunOf(s, events).slots == s.slots && RunOf(s, events).boot == s.boot
    ensures |RunOf(s, events).cores| == |s.cores|
    decreases |events|
  {
    if events != [] {
      NextKeeps(s, events[0]);
      RunKeeps(Next(s, events[0]), events[1..]);
    }
  }

  /**
   * In every state of every run from power-on, on every processor: nothing ever went through a wrong GS base and no
   * syscall was ever turned away; kernel code has GS_BASE at the processor's own slot and CR3 at the running task's
   * kernel root; ring 3 has the swapped-out slot, the user root of its task, its own FS and GS bases, a free
   * trampoline and no published frame.
   */
  lemma {:induction false} EveryRunIsSafe(s: State, events: seq<Event>, c: nat)
    requires Start(s) && Legal(s, events) && c < |s.cores|
    ensures var s' := RunOf(s, events);
      && |s'.cores| == |s.cores| && !s'.cores[c].Wild?
      && (s'.cores[c].On? ==>
          var core := s'.cores[c]; var slot := s.slots + SLOT_SIZE * c;
          && !core.rejected && core.task in s'.tasks
          && var t := s'.tasks[core.task];
          && (!core.ring3 ==> core.k.gs == slot && core.k.cr3 == KernelRoot(s.boot, t) != 0)
          && (core.ring3 ==>
              && core.k.kernelGs == slot && core.k.cr3 == UserRoot(s.boot, t) != 0
              && core.k.gs == t.gs && core.k.fs == t.fs && core.k.percpu.active == 0 && core.k.percpu.framePtr == 0))
  {
    RunKeeps(s, events);
    assert CoreInv(RunOf(s, events), c);
  }

  /** A SYSCALL from ring 3 therefore always finds the trampoline free and reaches the dispatcher. */
  lemma {:induction false} NeverBusy(s: State, events: seq<Event>, c: nat, p: SyscallPath.Point, fp: Word)
    requires Start(s) && Legal(s, events) && Enabled(RunOf(s, events), Enter(c, p.r.rsp, fp))
    requires p.k == RunOf(s, events).cores[c].k
    ensures SyscallPath.FromUser(p) && p.k.percpu.active == 0
    ensures var after := Next(RunOf(s, events), Enter(c, p.r.rsp, fp)).cores[c];
      after.On? && !after.ring3 && after.acts == [InSyscall] && after.k == SyscallPath.EntryCtl(p.k, p.r.rsp, fp)
  {
    RunKeeps(s, events);
    assert CoreInv(RunOf(s, events), c);
  }

  /** `arch_prctl` and `exec` take effect at once on the processor and in the PCB. */
  lemma {:induction false} OwnerTakesEffect(s: State, c: nat, a: Word, b: Word)
    requires Inv(s) && Enabled(s, SetBases(c, a, b)) && Enabled(s, Exec(c, a, b))
    ensures var s' := Next(s, SetBases(c, a, b)); var k := s'.cores[c].k; var t := s'.tasks[s.cores[c].task];
      k.fs == k.percpu.pendingFs == t.fs == a && k.kernelGs == k.percpu.pendingGs == t.gs == b
      && k.cr3 == s.cores[c].k.cr3
    ensures var s' := Next(s, Exec(c, a, b)); var k := s'.cores[c].k; var t := s'.tasks[s.cores[c].task];
      && t.space == a && t.userSpace == b && t.fs == 0 && t.gs == 0
      && k.cr3 == k.percpu.kernelCr3 == (if a == 0 then s.boot else a)
      && k.percpu.userCr3 == (if b != 0 then b else if a == 0 then s.boot else a)
      && k.fs == 0 && k.kernelGs == 0 && k.percpu.pendingFs == 0 && k.percpu.pendingGs == 0
  {
  }

  predicate Owns(s: State, e: Event, t: nat) {
    (e.SetBases? || e.Exec?) && e.c < |s.cores| && s.cores[e.c].On? && s.cores[e.c].task == t
  }

  predicate SameSpace(a: Task, b: Task) {
    a.space == b.space && a.userSpace == b.userSpace && a.fs == b.fs && a.gs == b.gs
  }

  /** Only a task's own `arch_prctl` or `exec` changes its bases or roots: sampling at switch-out never does. */
  lemma {:induction false} StepLeavesBases(s: State, e: Event, t: nat)
    requires Inv(s) && Enabled(s, e) && t in s.tasks && !Owns(s, e, t)
    ensures t in Next(s, e).tasks && SameSpace(Next(s, e).tasks[t], s.tasks[t])
  {
    if e.Switch? || e.FirstEntry? {
      assert CoreInv(s, e.c);
    }
  }

  predicate NeverOwns(s: State, events: seq<Event>, t: nat)
    requires Legal(s, events)
    decreases |events|
  {
    events == [] || (!Owns(s, events[0], t) && NeverOwns(Next(s, events[0]), events[1..], t))
  }

  lemma {:induction false} RunLeavesBases(s: State, events: seq<Event>, t: nat)
    requires Inv(s) && Legal(s, events) && t in s.tasks && NeverOwns(s, events, t)
    ensures t in RunOf(s, events).tasks && SameSpace(RunOf(s, events).tasks[t], s.tasks[t])
    decreases |events|
  {
    if events != [] {
      StepLeavesBases(s, events[0], t);
      NextKeeps(s, events[0]);
      RunLeavesBases(Next(s, events[0]), events[1..], t);
    }
  }

  /** A task that blocks in a syscall and leaves it on another processor gets its own bases and root back there. */
  lemma {:induction false} MigratedReturn(s: State, events: seq<Event>, c: nat, t: nat, d: nat, rdx: Word)
    requires Inv(s) && Legal(s, events) && NeverOwns(s, events, t)
    requires Running(s, c) && s.cores[c].task == t && s.cores[c].acts == [InSyscall]
    requires Enabled(RunOf(s, events), Leave(d, rdx, true)) && RunOf(s, events).cores[d].task == t
    ensures var core := Next(RunOf(s, events), Leave(d, rdx, true)).cores[d];
      && core.On? && core.ring3 && core.task == t
      && core.k.fs == s.tasks[t].fs && core.k.gs == s.tasks[t].gs
      && core.k.cr3 == UserRoot(s.boot, s.tasks[t])
      && core.k.kernelGs == s.slots + SLOT_SIZE * d && core.k.percpu.active == 0
  {
    RunLeavesBases(s, events, t);
    RunKeeps(s, events);
    var s' := RunOf(s, events);
    assert CoreInv(s', d);
    LeaveOk(s.slots + SLOT_SIZE * d, s.boot, s'.cores[d], s'.tasks[t], rdx, true);
  }
}
