/**
 * Runs of any number of tasks over any number of processors that switch with `switch_context` and
 * `switch_to_user`, dispatching on the saved CS privilege level as the scheduler does
 * (kernel/sched/enhanced_scheduler.rs, `execute_switch`).
 */
module SwitchRuns {
  import opened Common
  import opened Bits
  import opened Machine
  import opened ContextSwitch

  /** A task: its saved context and its kernel stack, the addresses from `lo` up to `hi`. */
  datatype Task = Task(ctx: Regs, lo: nat, hi: nat)

  /** A processor, or one that trapped or panicked in a switch and holds on to both tasks involved. */
  datatype Core = Live(task: nat, r: Regs, k: Ctl) | Dead(held: set<nat>)

  datatype State = State(cores: seq<Core>, tasks: map<nat, Task>, mem: Memory)

  /**
   * `Run` is anything a processor does between switches, in ring 3 or ring 0. `Switch` is a call of
   * `execute_switch` whose return address is `ret`. `Spawn` adds a task.
   */
  datatype Event =
    | Run(c: nat, r: Regs, k: Ctl, writes: Memory)
    | Switch(c: nat, next: nat, ret: Word)
    | Spawn(t: nat, task: Task)

  predicate Holds(core: Core, t: nat) {
    match core
    case Live(task, _, _) => t == task
    case Dead(held) => t in held
  }

  /** No processor has claimed `t`: the scheduler's `on_cpu` flag is clear. */
  predicate Idle(s: State, t: nat) {
    t in s.tasks && forall c :: 0 <= c < |s.cores| ==> !Holds(s.cores[c], t)
  }

  predicate InKernel(r: Regs) {
    r.cs == KERNEL_CS && r.ss == KERNEL_SS
  }

  predicate InUser(r: Regs) {
    r.cs % 4 == 3
  }

  predicate OnStack(t: Task, a: nat) {
    t.lo <= a < t.hi
  }

  predicate StackPointer(t: Task, room: nat, rsp: nat) {
    t.lo + room <= rsp <= t.hi && rsp % 8 == 0
  }

  /** A context the scheduler may pick: a user context, or a kernel one that stands on its own stack. */
  predicate Ready(t: Task) {
    || InUser(t.ctx)
    || (t.ctx.cs % 4 == 0 && t.ctx.ss % 4 == 0 && HighHalf(t.ctx.rip) && StackPointer(t, 16, t.ctx.rsp))
  }

  /** Every user context may be picked, and a kernel one exactly when it can be resumed in the high half on its stack. */
  lemma {:induction false} ReadyContexts(t: Task)
    ensures Ready(t) <==>
      || t.ctx.cs % 4 == 3
      || (t.ctx.cs % 4 == 0 && t.ctx.ss % 4 == 0 && t.ctx.rip >= TWO_64 - TWO_47
          && t.lo + 16 <= t.ctx.rsp <= t.hi && t.ctx.rsp % 8 == 0)
  {
  }

  predicate Apart(t: Task, u: Task) {
    t.hi <= u.lo || u.hi <= t.lo
  }

  predicate Bounded(t: Task) {
    t.lo <= t.hi < TWO_64
  }

  ghost predicate CoreInv(s: State, c: nat)
    requires c < |s.cores|
  {
    match s.cores[c]
    case Live(task, r, _) =>
      task in s.tasks && (InUser(r) || (InKernel(r) && StackPointer(s.tasks[task], 0, r.rsp)))
    case Dead(held) => held <= s.tasks.Keys
  }

  ghost predicate Inv(s: State) {
    && (forall t :: t in s.tasks ==> Bounded(s.tasks[t]))
    && (forall t, u :: t in s.tasks && u in s.tasks && t != u ==> Apart(s.tasks[t], s.tasks[u]))
    && (forall c :: 0 <= c < |s.cores| ==> CoreInv(s, c))
    && (forall c, d, t :: 0 <= c < |s.cores| && 0 <= d < |s.cores| && Holds(s.cores[c], t) && Holds(s.cores[d], t) ==> c == d)
    && (forall t :: Idle(s, t) ==> Ready(s.tasks[t]))
  }

  ghost predicate Enabled(s: State, e: Event) {
    match e
    case Run(c, r, k, writes) =>
      && c < |s.cores| && s.cores[c].Live? && s.cores[c].task in s.tasks
      && (InUser(r) || (InKernel(r) && StackPointer(s.tasks[s.cores[c].task], 0, r.rsp)))
      && forall a, u :: a in writes && u in s.tasks && OnStack(s.tasks[u], a) ==> u == s.cores[c].task
    case Switch(c, next, ret) =>
      && c < |s.cores| && s.cores[c].Live? && s.cores[c].task in s.tasks
      && InKernel(s.cores[c].r) && StackPointer(s.tasks[s.cores[c].task], 48, s.cores[c].r.rsp)
      && Idle(s, next)
    case Spawn(t, task) =>
      && t !in s.tasks && Bounded(task) && Ready(task)
      && forall u :: u in s.tasks ==> Apart(task, s.tasks[u])
  }

  /**
   * The scheduler's dispatch: `next.cs & 3 == 3` enters ring 3, anything else must be a kernel context. The restore
   * half faults when there is no room for its two pushes.
   */
  function Dispatch(r: Regs, k: Ctl, mem: Memory, n: Regs): Outcome
    requires 40 <= r.rsp && r.rsp + 8 < TWO_64
  {
    if !InUser(n) && (n.cs % 4 != 0 || n.ss % 4 != 0 || n.rsp < 16) then Ud2
    else if !HighHalf(Load(mem, r.rsp)) then Ud2
    else
      var stored := mem[r.rsp - 8 := r.rflags];
      if InUser(n) then Entered(r.rsp, Parked(k), stored, n) else Resumed(r, Parked(k), stored, n)
  }

  /** `execute_switch` from its dispatch on, through the instruction-level routines. */
  method ExecuteSwitch(r: Regs, k: Ctl, mem: Memory, pOld: Word, pNew: Word, old0: Regs, n: Regs)
    returns (out: Outcome, saved: Regs)
    requires r.rdi == pOld && r.rsi == pNew
    requires 40 <= r.rsp && r.rsp + 8 < TWO_64 && InKernel(r) && OwnGs(k)
    requires InUser(n) || n.rsp >= 16
    ensures out == Dispatch(r, k, mem, n)
    ensures out.Running? ==> saved == Saved(r, mem)
  {
    if n.cs % 4 == 3 {
      out, saved := SwitchToUser(r, k, mem, pOld, pNew, old0, n);
    } else if n.cs % 4 != 0 || n.ss % 4 != 0 {
      out, saved := Ud2, old0;
    } else {
      out, saved := SwitchContext(r, k, mem, pOld, pNew, old0, n);
    }
  }

  function SwitchStep(s: State, c: nat, next: nat, ret: Word): State
    requires c < |s.cores| && s.cores[c].Live? && s.cores[c].task in s.tasks && next in s.tasks
    requires 48 <= s.cores[c].r.rsp
  {
    var core := s.cores[c];
    var r := core.r.(rsp := core.r.rsp - 8);
    var mem := s.mem[r.rsp := ret];
    match Dispatch(r, core.k, mem, s.tasks[next].ctx)
    case Running(r', k', mem') =>
      var out := s.tasks[core.task].(ctx := Saved(r, mem));
      State(s.cores[c := Live(next, r', k')], s.tasks[core.task := out], mem')
    case Ud2 => State(s.cores[c := Dead({core.task, next})], s.tasks, mem)
  }

  ghost function Next(s: State, e: Event): State
    requires Enabled(s, e)
  {
    match e
    case Run(c, r, k, writes) => State(s.cores[c := Live(s.cores[c].task, r, k)], s.tasks, s.mem + writes)
    case Switch(c, next, ret) => SwitchStep(s, c, next, ret)
    case Spawn(t, task) => State(s.cores, s.tasks[t := task], s.mem)
  }

  ghost predicate Legal(s: State, events: seq<Event>)
    decreases |events|
  {
    events == [] || (Enabled(s, events[0]) && Legal(Next(s, events[0]), events[1..]))
  }

  ghost function RunOf(s: State, events: seq<Event>): State
    requires Legal(s, events)
    decreases |events|
  {
    if events == [] then s else RunOf(Next(s, events[0]), events[1..])
  }

  // ---------------------------------------------------------------------------------------------
  // The invariant

  lemma {:induction false} RunKeeps(s: State, c: nat, r: Regs, k: Ctl, writes: Memory)
    requires Inv(s) && Enabled(s, Run(c, r, k, writes))
    ensures Inv(Next(s, Run(c, r, k, writes)))
  {
    var s' := Next(s, Run(c, r, k, writes));
    forall d | 0 <= d < |s'.cores| ensures CoreInv(s', d) && forall t :: Holds(s'.cores[d], t) <==> Holds(s.cores[d], t) {
      assert CoreInv(s, d);
    }
    forall t | Idle(s', t) ensures Ready(s'.tasks[t]) {
      assert Idle(s, t);
    }
  }

  lemma {:induction false} SpawnKeeps(s: State, t: nat, task: Task)
    requires Inv(s) && Enabled(s, Spawn(t, task))
    ensures Inv(Next(s, Spawn(t, task)))
  {
    var s' := Next(s, Spawn(t, task));
    forall d | 0 <= d < |s'.cores| ensures CoreInv(s', d) {
      assert CoreInv(s, d);
    }
    forall u | Idle(s', u) ensures Ready(s'.tasks[u]) {
      if u != t { assert Idle(s, u); }
    }
  }

  /** Which processor holds which task after a switch. */
  lemma {:induction false} SwitchHolds(s: State, c: nat, next: nat, ret: Word, d: nat, t: nat)
    requires Inv(s) && Enabled(s, Switch(c, next, ret)) && d < |s.cores|
    ensures var s' := Next(s, Switch(c, next, ret));
      Holds(s'.cores[d], t) <==>
        if d == c then t == next || (s'.cores[c].Dead? && t == s.cores[c].task) else Holds(s.cores[d], t)
  {
    assert CoreInv(s, c);
  }

  lemma {:induction false} SwitchKeepsCores(s: State, c: nat, next: nat, ret: Word, d: nat)
    requires Inv(s) && Enabled(s, Switch(c, next, ret)) && d < |s.cores|
    ensures CoreInv(Next(s, Switch(c, next, ret)), d)
  {
    hide UserFlags, UserAddress, IretTail, IretFrame;
    assert CoreInv(s, c) && CoreInv(s, d);
    assert Ready(s.tasks[next]);
  }

  lemma {:induction false} SwitchedOutReady(s: State, c: nat, next: nat, ret: Word)
    requires Inv(s) && Enabled(s, Switch(c, next, ret))
    requires Next(s, Switch(c, next, ret)).cores[c].Live?
    ensures Ready(Next(s, Switch(c, next, ret)).tasks[s.cores[c].task])
  {
    assert CoreInv(s, c);
  }

  lemma {:induction false} SwitchKeeps(s: State, c: nat, next: nat, ret: Word)
    requires Inv(s) && Enabled(s, Switch(c, next, ret))
    ensures Inv(Next(s, Switch(c, next, ret)))
  {
    var s' := Next(s, Switch(c, next, ret));
    forall d | 0 <= d < |s'.cores| ensures CoreInv(s', d) {
      SwitchKeepsCores(s, c, next, ret, d);
    }
    forall d, e, t | 0 <= d < |s'.cores| && 0 <= e < |s'.cores| && Holds(s'.cores[d], t) && Holds(s'.cores[e], t)
      ensures d == e
    {
      SwitchHolds(s, c, next, ret, d, t);
      SwitchHolds(s, c, next, ret, e, t);
      assert Holds(s.cores[c], s.cores[c].task);
    }
    forall t | Idle(s', t) ensures Ready(s'.tasks[t]) {
      SwitchHolds(s, c, next, ret, c, t);
      if t == s.cores[c].task {
        SwitchedOutReady(s, c, next, ret);
      } else {
        IdleBefore(s, c, next, ret, t);
      }
    }
  }

  lemma {:induction false} IdleBefore(s: State, c: nat, next: nat, ret: Word, t: nat)
    requires Inv(s) && Enabled(s, Switch(c, next, ret)) && t != s.cores[c].task
    requires Idle(Next(s, Switch(c, next, ret)), t)
    ensures Idle(s, t) && Next(s, Switch(c, next, ret)).tasks[t] == s.tasks[t]
  {
    forall d | 0 <= d < |s.cores| ensures !Holds(s.cores[d], t) {
      SwitchHolds(s, c, next, ret, d, t);
    }
  }

  lemma {:induction false} NextKeeps(s: State, e: Event)
    requires Inv(s) && Enabled(s, e)
    ensures Inv(Next(s, e))
  {
    match e
    case Run(c, r, k, writes) => RunKeeps(s, c, r, k, writes);
    case Switch(c, next, ret) => SwitchKeeps(s, c, next, ret);
    case Spawn(t, task) => SpawnKeeps(s, t, task);
  }

  /** After boot every processor runs its own bootstrap context and there is nothing to dispatch. */
  ghost predicate Boot(s: State) {
    && (forall t :: t in s.tasks <==> t < |s.cores|)
    && (forall t :: t in s.tasks ==> Bounded(s.tasks[t]))
    && (forall t, u :: t in s.tasks && u in s.tasks && t != u ==> Apart(s.tasks[t], s.tasks[u]))
    && (forall c :: 0 <= c < |s.cores| ==> s.cores[c].Live? && s.cores[c].task == c && CoreInv(s, c))
  }

  lemma {:induction false} BootInv(s: State)
    requires Boot(s)
    ensures Inv(s)
  {
    forall t: nat ensures !Idle(s, t) {
      if t in s.tasks { assert Holds(s.cores[t], t); }
    }
  }

  lemma {:induction false} RunKeepsInv(s: State, events: seq<Event>)
    requires Inv(s) && Legal(s, events)
    ensures Inv(RunOf(s, events))
    decreases |events|
  {
    if events != [] {
      NextKeeps(s, events[0]);
      RunKeepsInv(Next(s, events[0]), events[1..]);
    }
  }

  // ---------------------------------------------------------------------------------------------
  // Ring 0 never resumes in the low half

  /**
   * The outcome of every switch in every run: it stops exactly when the return address is not a kernel address or
   * the incoming user context is not canonical; otherwise ring 3 is entered below 2^47 with user selectors, and
   * ring 0 is resumed only at or above 2^64 - 2^47, with the FPU trap armed and the syscall reservation dropped.
   */
  lemma {:induction false} SwitchTarget(s: State, c: nat, next: nat, ret: Word)
    requires Inv(s) && Enabled(s, Switch(c, next, ret))
    ensures var n := s.tasks[next].ctx; var core := Next(s, Switch(c, next, ret)).cores[c];
      && (core.Live? <==> ret >= TWO_64 - TWO_47 && (n.cs % 4 == 3 ==> n.rip < TWO_47 && n.rsp < TWO_47))
      && (core.Live? ==> core.k.ts && core.k.percpu.active == 0 && core.k.percpu.framePtr == 0)
      && (core.Live? && n.cs % 4 == 3 ==> core.r.cs == USER_CS && core.r.ss == USER_SS && core.r.rip < TWO_47)
      && (core.Live? && n.cs % 4 != 3 ==> core.r.cs == 0x08 && core.r.ss == 0x10 && core.r.rip >= TWO_64 - TWO_47)
  {
    assert CoreInv(s, c);
    assert Ready(s.tasks[next]);
    UserAddressIsLow(s.tasks[next].ctx.rip);
    UserAddressIsLow(s.tasks[next].ctx.rsp);
  }

  /** In every run ring 3 starts with each register from its own slot of the saved context, and with safe flags. */
  lemma {:induction false} EntersUserExactly(s: State, c: nat, next: nat, ret: Word)
    requires Inv(s) && Enabled(s, Switch(c, next, ret)) && s.tasks[next].ctx.cs % 4 == 3
    requires Next(s, Switch(c, next, ret)).cores[c].Live?
    ensures var n := s.tasks[next].ctx; var r := Next(s, Switch(c, next, ret)).cores[c].r;
      && r == n.(cs := 0x23, ss := 0x1B, rflags := r.rflags)
      && forall i :: Bit(r.rflags, i) <==> i == 9 || (Bit(n.rflags, i) && !Privileged(i))
  {
    hide Bit, Entered, Privileged;
    assert CoreInv(s, c);
    var core := s.cores[c];
    var r := core.r.(rsp := core.r.rsp - 8);
    var stored := s.mem[r.rsp := ret][r.rsp - 8 := r.rflags];
    EnteredAs(r.rsp, Parked(core.k), stored, s.tasks[next].ctx);
  }

  // ---------------------------------------------------------------------------------------------
  // A task that is off every processor is left alone

  ghost predicate SameAbove(t: Task, rsp: nat, m: Memory, m': Memory) {
    forall a: nat :: OnStack(t, a) && a >= rsp ==> Load(m', a) == Load(m, a)
  }

  ghost predicate SameStack(t: Task, m: Memory, m': Memory) {
    SameAbove(t, 0, m, m')
  }

  /** A switch writes six words just below the caller's stack pointer and, in ring 0, two below the incoming one. */
  predicate Written(rsp: nat, n: Regs, a: nat) {
    rsp - 48 <= a < rsp || (!InUser(n) && n.rsp - 16 <= a < n.rsp)
  }

  lemma {:induction false} DispatchWrites(r: Regs, k: Ctl, mem: Memory, n: Regs, a: nat)
    requires 40 <= r.rsp && r.rsp + 8 < TWO_64
    requires !Written(r.rsp + 8, n, a)
    ensures Dispatch(r, k, mem, n).Running? ==> Load(Dispatch(r, k, mem, n).mem, a) == Load(mem, a)
  {
  }

  lemma {:induction false} SwitchWrites(s: State, c: nat, next: nat, ret: Word, a: nat)
    requires Inv(s) && Enabled(s, Switch(c, next, ret))
    requires !Written(s.cores[c].r.rsp, s.tasks[next].ctx, a)
    ensures Load(Next(s, Switch(c, next, ret)).mem, a) == Load(s.mem, a)
  {
    hide Dispatch;
    var core := s.cores[c];
    var r := core.r.(rsp := core.r.rsp - 8);
    assert Ready(s.tasks[next]) && Bounded(s.tasks[core.task]);
    DispatchWrites(r, core.k, s.mem[r.rsp := ret], s.tasks[next].ctx, a);
  }

  predicate Dispatches(e: Event, t: nat) {
    e.Switch? && e.next == t
  }

  lemma {:induction false} SwitchMemory(s: State, c: nat, next: nat, ret: Word, t: nat)
    requires Inv(s) && Enabled(s, Switch(c, next, ret))
    requires t in s.tasks && t != next && t != s.cores[c].task
    ensures SameStack(s.tasks[t], s.mem, Next(s, Switch(c, next, ret)).mem)
  {
    assert Apart(s.tasks[t], s.tasks[next]) && Apart(s.tasks[t], s.tasks[s.cores[c].task]);
    assert Ready(s.tasks[next]);
    forall a: nat | OnStack(s.tasks[t], a)
      ensures Load(Next(s, Switch(c, next, ret)).mem, a) == Load(s.mem, a)
    {
      SwitchWrites(s, c, next, ret, a);
    }
  }

  lemma {:induction false} StepLeavesIdle(s: State, e: Event, t: nat)
    requires Inv(s) && Enabled(s, e) && Idle(s, t) && !Dispatches(e, t)
    ensures var s' := Next(s, e);
      Idle(s', t) && s'.tasks[t] == s.tasks[t] && SameStack(s.tasks[t], s.mem, s'.mem)
  {
    match e
    case Run(c, r, k, writes) =>
      assert !Holds(s.cores[c], t);
    case Switch(c, next, ret) =>
      assert !Holds(s.cores[c], t);
      SwitchMemory(s, c, next, ret, t);
      forall d | 0 <= d < |s.cores| ensures !Holds(Next(s, e).cores[d], t) {
        SwitchHolds(s, c, next, ret, d, t);
      }
    case Spawn(_, _) =>
  }

  lemma {:induction false} RunLeavesIdle(s: State, events: seq<Event>, t: nat)
    requires Inv(s) && Legal(s, events) && Idle(s, t)
    requires forall i :: 0 <= i < |events| ==> !Dispatches(events[i], t)
    ensures var s' := RunOf(s, events);
      Inv(s') && Idle(s', t) && s'.tasks[t] == s.tasks[t] && SameStack(s.tasks[t], s.mem, s'.mem)
    decreases |events|
  {
    if events != [] {
      assert !Dispatches(events[0], t);
      StepLeavesIdle(s, events[0], t);
      NextKeeps(s, events[0]);
      RunLeavesIdle(Next(s, events[0]), events[1..], t);
    }
  }

  // ---------------------------------------------------------------------------------------------
  // Exact resumption

  /** Switching out leaves everything at and above the caller's stack pointer in place. */
  lemma {:induction false} SwitchOut(s: State, c: nat, next: nat, ret: Word)
    requires Inv(s) && Enabled(s, Switch(c, next, ret))
    requires Next(s, Switch(c, next, ret)).cores[c].Live?
    ensures var s' := Next(s, Switch(c, next, ret)); var t := s.cores[c].task;
      && Idle(s', t)
      && s'.tasks[t] == s.tasks[t].(ctx := s.cores[c].r.(rsi := 0, rdi := 0, rip := ret))
      && SameAbove(s.tasks[t], s.cores[c].r.rsp, s.mem, s'.mem)
  {
    var t := s.cores[c].task;
    assert Holds(s.cores[c], t) && !Holds(s.cores[c], next);
    assert Apart(s.tasks[t], s.tasks[next]);
    assert Ready(s.tasks[next]);
    forall a: nat | OnStack(s.tasks[t], a) && a >= s.cores[c].r.rsp
      ensures Load(Next(s, Switch(c, next, ret)).mem, a) == Load(s.mem, a)
    {
      SwitchWrites(s, c, next, ret, a);
    }
    forall d | 0 <= d < |s.cores| ensures !Holds(Next(s, Switch(c, next, ret)).cores[d], t) {
      SwitchHolds(s, c, next, ret, d, t);
    }
  }

  /** Resuming a kernel context writes only below its saved stack pointer. */
  lemma {:induction false} SwitchIn(s: State, c: nat, t: nat, ret: Word)
    requires Inv(s) && Enabled(s, Switch(c, t, ret))
    requires !InUser(s.tasks[t].ctx) && HighHalf(ret)
    ensures var s' := Next(s, Switch(c, t, ret)); var n := s.tasks[t].ctx;
      && s'.cores[c].Live? && s'.cores[c].task == t
      && s'.cores[c].r == n.(cs := KERNEL_CS, ss := KERNEL_SS)
      && SameAbove(s.tasks[t], n.rsp, s.mem, s'.mem)
  {
    forall a: nat | OnStack(s.tasks[t], a) && a >= s.tasks[t].ctx.rsp
      ensures Load(Next(s, Switch(c, t, ret)).mem, a) == Load(s.mem, a)
    {
      assert Apart(s.tasks[t], s.tasks[s.cores[c].task]) by {
        assert Holds(s.cores[c], s.cores[c].task) && !Holds(s.cores[c], t);
      }
      SwitchWrites(s, c, t, ret, a);
    }
    assert CoreInv(s, c);
    assert Ready(s.tasks[t]);
  }

  /**
   * A task switched out on processor `c`, by either routine, and next dispatched on processor `d` after any run in
   * between, is resumed through `switch_context` at its own return address, with the stack pointer, flags and
   * every register but rsi and rdi it had before the call, and with every word at or above that stack pointer
   * unchanged.
   */
  lemma {:induction false} ResumesExactly(
      s: State, c: nat, next: nat, ret: Word, between: seq<Event>, d: nat, ret2: Word)
    requires Inv(s) && Enabled(s, Switch(c, next, ret))
    requires Next(s, Switch(c, next, ret)).cores[c].Live?
    requires Legal(Next(s, Switch(c, next, ret)), between)
    requires forall i :: 0 <= i < |between| ==> !Dispatches(between[i], s.cores[c].task)
    requires Enabled(RunOf(Next(s, Switch(c, next, ret)), between), Switch(d, s.cores[c].task, ret2))
    requires HighHalf(ret2)
    ensures Resumption(s, c, RunOf(Next(s, Switch(c, next, ret)), between), d, ret, ret2)
  {
    KeptUntilDispatch(s, c, next, ret, between);
    PicksUp(s, c, RunOf(Next(s, Switch(c, next, ret)), between), d, ret, ret2);
  }

  /** What `s2` still holds of a task that processor `c` of `s` switched out. */
  ghost predicate Kept(s: State, c: nat, s2: State, ret: Word)
    requires c < |s.cores| && s.cores[c].Live? && s.cores[c].task in s.tasks
  {
    var t := s.cores[c].task;
    && Inv(s2) && t in s2.tasks
    && s2.tasks[t] == s.tasks[t].(ctx := s.cores[c].r.(rsi := 0, rdi := 0, rip := ret))
    && SameAbove(s.tasks[t], s.cores[c].r.rsp, s.mem, s2.mem)
  }

  lemma {:induction false} KeptUntilDispatch(s: State, c: nat, next: nat, ret: Word, between: seq<Event>)
    requires Inv(s) && Enabled(s, Switch(c, next, ret))
    requires Next(s, Switch(c, next, ret)).cores[c].Live?
    requires Legal(Next(s, Switch(c, next, ret)), between)
    requires forall i :: 0 <= i < |between| ==> !Dispatches(between[i], s.cores[c].task)
    ensures Kept(s, c, RunOf(Next(s, Switch(c, next, ret)), between), ret)
  {
    hide Idle, Inv, SwitchStep;
    SwitchOut(s, c, next, ret);
    NextKeeps(s, Switch(c, next, ret));
    RunLeavesIdle(Next(s, Switch(c, next, ret)), between, s.cores[c].task);
  }

  lemma {:induction false} PicksUp(s: State, c: nat, s2: State, d: nat, ret: Word, ret2: Word)
    requires c < |s.cores| && s.cores[c].Live? && s.cores[c].task in s.tasks && InKernel(s.cores[c].r)
    requires Kept(s, c, s2, ret) && Enabled(s2, Switch(d, s.cores[c].task, ret2)) && HighHalf(ret2)
    ensures Resumption(s, c, s2, d, ret, ret2)
  {
    SwitchIn(s2, d, s.cores[c].task, ret2);
  }

  /** Processor `d`, switching from `s2`, picks up exactly where processor `c` of `s` called the switch. */
  ghost predicate Resumption(s: State, c: nat, s2: State, d: nat, ret: Word, ret2: Word)
    requires c < |s.cores| && s.cores[c].Live? && s.cores[c].task in s.tasks
  {
    var before := s.cores[c];
    && Inv(s2) && Enabled(s2, Switch(d, before.task, ret2))
    && var s3 := Next(s2, Switch(d, before.task, ret2));
    && s3.cores[d].Live? && s3.cores[d].task == before.task
    && s3.cores[d].r == before.r.(rip := ret, rsi := 0, rdi := 0)
    && SameAbove(s.tasks[before.task], before.r.rsp, s.mem, s3.mem)
  }
}
