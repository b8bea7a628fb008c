/**
 * One run for both views of the kernel: the registers, stacks and memory of SwitchRuns and the control state, bases,
 * roots and activations of EntryRuns, stepped together. A switch is `execute_switch` as a whole
 * (kernel/sched/enhanced_scheduler.rs): it activates the incoming address space, programs the incoming bases, and
 * calls the assembly with the control state that leaves.
 */
module KernelRuns {
  import opened Common
  import opened Machine
  import ContextSwitch
  import Sw = SwitchRuns
  import En = EntryRuns

  /** The same processors and tasks, seen as machine state and as control state. */
  datatype State = State(m: Sw.State, e: En.State)

  /**
   * `Work` is anything a processor does without changing its control state or privilege level. `Control` is an entry
   * to or exit from the kernel, `arch_prctl` or `exec`, after which the processor has the registers `r`.
   */
  datatype Event =
    | Work(c: nat, r: Regs, writes: Memory)
    | Control(x: En.Event, r: Regs, writes: Memory)
    | Switch(c: nat, next: nat, ret: Word)
    | Spawn(t: nat, task: Sw.Task, user: En.Task)

  predicate SameCore(a: Sw.Core, b: En.Core) {
    a.Live? ==> b.On? && b.task == a.task && b.k == a.k && (b.ring3 <==> Sw.InUser(a.r))
  }

  /** A task is newborn exactly when its saved context is a user one. */
  predicate SameTask(t: Sw.Task, u: En.Task) {
    u.newborn <==> Sw.InUser(t.ctx)
  }

  ghost predicate Coupled(s: State) {
    && |s.m.cores| == |s.e.cores| && s.m.tasks.Keys == s.e.tasks.Keys
    && (forall c :: 0 <= c < |s.m.cores| ==> SameCore(s.m.cores[c], s.e.cores[c]))
    && (forall t :: Sw.Idle(s.m, t) ==> SameTask(s.m.tasks[t], s.e.tasks[t]))
  }

  ghost predicate Inv(s: State) {
    Sw.Inv(s.m) && En.Inv(s.e) && Coupled(s)
  }

  predicate OfRunningTask(x: En.Event) {
    x.Enter? || x.Leave? || x.Tick? || x.TickEnd? || x.SetBases? || x.Exec?
  }

  /** The control state a step leaves on processor `c`; the machine state has none for a processor that went wild. */
  function CtlAfter(e: En.State, c: nat, k: Ctl): Ctl
    requires c < |e.cores|
  {
    if e.cores[c].On? then e.cores[c].k else k
  }

  /** The control state in which `execute_switch` calls the assembly. */
  function Prepared(e: En.State, k: Ctl, next: nat): Ctl
    requires next in e.tasks
  {
    En.BasesCtl(En.ActivateCtl(k, e.boot, e.tasks[next]), e.tasks[next].fs, e.tasks[next].gs)
  }

  ghost predicate LiveOn(s: State, c: nat) {
    c < |s.m.cores| && c < |s.e.cores| && s.m.cores[c].Live?
  }

  ghost predicate Enabled(s: State, v: Event) {
    match v
    case Work(c, r, writes) =>
      && LiveOn(s, c) && Sw.Enabled(s.m, Sw.Run(c, r, s.m.cores[c].k, writes))
      && (Sw.InUser(r) <==> Sw.InUser(s.m.cores[c].r))
    case Control(x, r, writes) =>
      && OfRunningTask(x) && LiveOn(s, x.c) && En.Enabled(s.e, x)
      && var e' := En.Next(s.e, x);
      && x.c < |e'.cores| && Sw.Enabled(s.m, Sw.Run(x.c, r, CtlAfter(e', x.c, s.m.cores[x.c].k), writes))
      && (e'.cores[x.c].On? ==> (Sw.InUser(r) <==> e'.cores[x.c].ring3))
    case Switch(c, next, ret) =>
      && LiveOn(s, c) && next in s.m.tasks && Sw.Enabled(s.m, Sw.Switch(c, next, ret))
      && En.Enabled(s.e, En.Switch(c, next, s.m.tasks[next].ctx.rdx))
    case Spawn(t, task, user) =>
      Sw.Enabled(s.m, Sw.Spawn(t, task)) && En.Enabled(s.e, En.Spawn(t, user)) && SameTask(task, user)
  }

  /** The machine just before the assembly is called. */
  function Called(s: State, c: nat, next: nat): Sw.State
    requires c < |s.m.cores| && s.m.cores[c].Live? && next in s.e.tasks
  {
    s.m.(cores := s.m.cores[c := s.m.cores[c].(k := Prepared(s.e, s.m.cores[c].k, next))])
  }

  lemma {:induction false} CalledEnabled(s: State, c: nat, next: nat, ret: Word)
    requires c < |s.m.cores| && s.m.cores[c].Live? && next in s.e.tasks && Sw.Enabled(s.m, Sw.Switch(c, next, ret))
    ensures Sw.Enabled(Called(s, c, next), Sw.Switch(c, next, ret))
  {
    var m := Called(s, c, next);
    forall d | 0 <= d < |m.cores| ensures !Sw.Holds(m.cores[d], next) {
      assert !Sw.Holds(s.m.cores[d], next);
    }
  }

  /** A switch that traps takes the processor out of both views; the control view then keeps its last state. */
  ghost function SwitchStep(s: State, c: nat, next: nat, ret: Word): (s': State)
    requires Enabled(s, Switch(c, next, ret))
    ensures |s'.m.cores| == |s.m.cores| && |s'.e.cores| == |s.e.cores|
  {
    CalledEnabled(s, c, next, ret);
    var m := Sw.Next(Called(s, c, next), Sw.Switch(c, next, ret));
    State(m, if m.cores[c].Live? then En.Next(s.e, En.Switch(c, next, s.m.tasks[next].ctx.rdx)) else s.e)
  }

  ghost function Next(s: State, v: Event): (s': State)
    requires Enabled(s, v)
    ensures |s'.m.cores| == |s.m.cores| && |s'.e.cores| == |s.e.cores|
  {
    match v
    case Work(c, r, writes) => s.(m := Sw.Next(s.m, Sw.Run(c, r, s.m.cores[c].k, writes)))
    case Control(x, r, writes) =>
      var e' := En.Next(s.e, x);
      State(Sw.Next(s.m, Sw.Run(x.c, r, CtlAfter(e', x.c, s.m.cores[x.c].k), writes)), e')
    case Switch(c, next, ret) => SwitchStep(s, c, next, ret)
    case Spawn(t, task, user) => State(Sw.Next(s.m, Sw.Spawn(t, task)), En.Next(s.e, En.Spawn(t, user)))
  }

  ghost predicate Legal(s: State, events: seq<Event>)
    decreases |events|
  {
    events == [] || (Enabled(s, events[0]) && Legal(Next(s, events[0]), events[1..]))
  }

  ghost function RunOf(s: State, events: seq<Event>): State
    requires Legal(s, events)
    decreases |events|
  {
    if events == [] then s else RunOf(Next(s, events[0]), events[1..])
  }

  // ---------------------------------------------------------------------------------------------
  // The invariant

  /** The assembly is always called with the processor's own GS base. */
  lemma {:induction false} CalledWithOwnGs(s: State, c: nat, next: nat, ret: Word)
    requires Inv(s) && Enabled(s, Switch(c, next, ret))
    ensures OwnGs(Prepared(s.e, s.m.cores[c].k, next))
  {
    hide Sw.Inv, Sw.Enabled, En.WellNested;
    assert SameCore(s.m.cores[c], s.e.cores[c]);
    assert En.CoreInv(s.e, c);
  }

  lemma {:induction false} CalledInv(s: State, c: nat, next: nat)
    requires Sw.Inv(s.m) && c < |s.m.cores| && s.m.cores[c].Live? && next in s.e.tasks
    ensures Sw.Inv(Called(s, c, next))
  {
    var core := s.m.cores[c];
    var k := Prepared(s.e, core.k, next);
    assert Sw.CoreInv(s.m, c);
    assert Sw.Enabled(s.m, Sw.Run(c, core.r, k, map[]));
    assert Called(s, c, next) == Sw.Next(s.m, Sw.Run(c, core.r, k, map[])) by { assert s.m.mem + map[] == s.m.mem; }
    Sw.RunKeeps(s.m, c, core.r, k, map[]);
  }

  lemma {:induction false} WorkKeeps(s: State, c: nat, r: Regs, k: Ctl, writes: Memory, e: En.State)
    requires Inv(s) && Sw.Enabled(s.m, Sw.Run(c, r, k, writes)) && En.Inv(e)
    requires |e.cores| == |s.e.cores| && e.tasks.Keys == s.e.tasks.Keys
    requires forall d :: 0 <= d < |e.cores| && d != c ==> e.cores[d] == s.e.cores[d]
    requires c < |e.cores| && e.cores[c].On? && e.cores[c].task == s.m.cores[c].task && e.cores[c].k == k
    requires e.cores[c].ring3 <==> Sw.InUser(r)
    requires forall t :: t in e.tasks && t != s.m.cores[c].task ==> e.tasks[t].newborn == s.e.tasks[t].newborn
    ensures Inv(State(Sw.Next(s.m, Sw.Run(c, r, k, writes)), e))
  {
    hide Sw.Inv, En.Inv, Sw.InUser;
    var m := Sw.Next(s.m, Sw.Run(c, r, k, writes));
    Sw.RunKeeps(s.m, c, r, k, writes);
    forall d | 0 <= d < |m.cores| ensures SameCore(m.cores[d], e.cores[d]) {
      assert SameCore(s.m.cores[d], s.e.cores[d]);
    }
    forall t | Sw.Idle(m, t) ensures SameTask(m.tasks[t], e.tasks[t]) {
      assert !Sw.Holds(m.cores[c], t);
      IdleBeforeWork(s.m, m, c, t);
    }
  }

  lemma {:induction false} IdleBeforeWork(m: Sw.State, m': Sw.State, c: nat, t: nat)
    requires c < |m.cores| == |m'.cores| && m.cores[c].Live? && m'.cores[c].Live? && m'.cores[c].task == m.cores[c].task
    requires forall d :: 0 <= d < |m.cores| && d != c ==> m'.cores[d] == m.cores[d]
    requires Sw.Idle(m', t) && t in m.tasks
    ensures Sw.Idle(m, t)
  {
    forall d | 0 <= d < |m.cores| ensures !Sw.Holds(m.cores[d], t) {
      assert !Sw.Holds(m'.cores[d], t);
    }
  }

  /** What a control step of a running task leaves in the control view. */
  lemma {:induction false} ControlStep(e: En.State, x: En.Event)
    requires En.Inv(e) && OfRunningTask(x) && En.Enabled(e, x)
    ensures var e' := En.Next(e, x);
      && En.Inv(e') && |e'.cores| == |e.cores| && e'.tasks.Keys == e.tasks.Keys
      && (forall d :: 0 <= d < |e.cores| && d != x.c ==> e'.cores[d] == e.cores[d])
      && e'.cores[x.c].On? && e'.cores[x.c].task == e.cores[x.c].task
      && (forall t :: t in e.tasks ==>
            e'.tasks[t].newborn == e.tasks[t].newborn && (t != e.cores[x.c].task ==> e'.tasks[t] == e.tasks[t]))
  {
    hide En.Inv, En.KernelState, En.UserState;
    En.NextKeeps(e, x);
    OnAfter(e, x);
  }

  lemma {:induction false} OnAfter(e: En.State, x: En.Event)
    requires OfRunningTask(x) && En.Enabled(e, x) && En.Inv(En.Next(e, x))
    ensures En.Next(e, x).cores[x.c].On? && En.Next(e, x).cores[x.c].task == e.cores[x.c].task
  {
    hide En.KernelState, En.UserState;
    assert En.CoreInv(En.Next(e, x), x.c);
  }

  lemma {:induction false} ControlKeeps(s: State, x: En.Event, r: Regs, writes: Memory)
    requires Inv(s) && Enabled(s, Control(x, r, writes))
    ensures Inv(Next(s, Control(x, r, writes)))
  {
    hide Sw.Inv, En.Inv, Sw.Enabled, En.Enabled, En.Next, Sw.InUser;
    ControlStep(s.e, x);
    assert SameCore(s.m.cores[x.c], s.e.cores[x.c]);
    WorkKeeps(s, x.c, r, En.Next(s.e, x).cores[x.c].k, writes, En.Next(s.e, x));
  }

  lemma {:induction false} SpawnKeeps(s: State, t: nat, task: Sw.Task, user: En.Task)
    requires Inv(s) && Enabled(s, Spawn(t, task, user))
    ensures Inv(Next(s, Spawn(t, task, user)))
  {
    hide Sw.Inv, En.Inv;
    Sw.SpawnKeeps(s.m, t, task);
    En.NextKeeps(s.e, En.Spawn(t, user));
    var s' := Next(s, Spawn(t, task, user));
    forall c | 0 <= c < |s'.m.cores| ensures SameCore(s'.m.cores[c], s'.e.cores[c]) {
      assert SameCore(s.m.cores[c], s.e.cores[c]);
    }
    forall u | Sw.Idle(s'.m, u) ensures SameTask(s'.m.tasks[u], s'.e.tasks[u]) {
      if u != t { assert Sw.Idle(s.m, u); }
    }
  }

  lemma {:induction false} RoomToSwitch(s: State, c: nat, next: nat, ret: Word)
    requires Inv(s) && Enabled(s, Switch(c, next, ret))
    ensures var r := s.m.cores[c].r; 48 <= r.rsp < TWO_64 && Sw.InKernel(r) && OwnGs(Prepared(s.e, s.m.cores[c].k, next))
    ensures Sw.InUser(s.m.tasks[next].ctx) || s.m.tasks[next].ctx.rsp >= 16
  {
    CalledWithOwnGs(s, c, next, ret);
    assert Sw.Ready(s.m.tasks[next]);
  }

  /** Where the assembly ends up: the control state and the privilege level. */
  lemma {:induction false} DispatchedTo(r: Regs, k: Ctl, mem: Memory, n: Regs)
    requires 40 <= r.rsp && r.rsp + 8 < TWO_64 && Sw.InKernel(r) && Sw.Dispatch(r, k, mem, n).Running?
    ensures var out := Sw.Dispatch(r, k, mem, n); var parked := ContextSwitch.Parked(k);
      && out.k == (if Sw.InUser(n) then ContextSwitch.IretTail(parked, n.rdx) else parked)
      && (Sw.InUser(out.r) <==> Sw.InUser(n))
  {
    hide UserAddress, UserFlags, ContextSwitch.IretFrame, ContextSwitch.IretTail, ContextSwitch.Parked;
  }

  /** Both views of processor `c` agree after a switch that does not trap. */
  lemma {:induction false} SwitchedCore(s: State, c: nat, next: nat, ret: Word)
    requires Inv(s) && Enabled(s, Switch(c, next, ret)) && Next(s, Switch(c, next, ret)).m.cores[c].Live?
    ensures SameCore(Next(s, Switch(c, next, ret)).m.cores[c], Next(s, Switch(c, next, ret)).e.cores[c])
  {
    hide Sw.Inv, En.Inv, Sw.Dispatch, ContextSwitch.Saved, ContextSwitch.IretTail, ContextSwitch.Parked;
    hide En.ActivateCtl, En.BasesCtl, Sw.InUser;
    assert SameCore(s.m.cores[c], s.e.cores[c]) && SameTask(s.m.tasks[next], s.e.tasks[next]);
    RoomToSwitch(s, c, next, ret);
    OwnGsThroughout(s, c, next, ret);
    var r := s.m.cores[c].r.(rsp := s.m.cores[c].r.rsp - 8);
    DispatchedTo(r, Prepared(s.e, s.m.cores[c].k, next), s.m.mem[r.rsp := ret], s.m.tasks[next].ctx);
  }

  lemma {:induction false} OwnGsThroughout(s: State, c: nat, next: nat, ret: Word)
    requires Inv(s) && Enabled(s, Switch(c, next, ret))
    ensures OwnGs(s.e.cores[c].k)
  {
    hide Sw.Inv, Sw.Enabled, En.WellNested;
    assert En.CoreInv(s.e, c);
  }

  lemma {:induction false} SwitchKeeps(s: State, c: nat, next: nat, ret: Word)
    requires Inv(s) && Enabled(s, Switch(c, next, ret))
    ensures Inv(Next(s, Switch(c, next, ret)))
  {
    hide Sw.Inv, En.Inv, Sw.SwitchStep, En.Next;
    var s' := Next(s, Switch(c, next, ret));
    CalledEnabled(s, c, next, ret);
    CalledInv(s, c, next);
    Sw.SwitchKeeps(Called(s, c, next), c, next, ret);
    En.NextKeeps(s.e, En.Switch(c, next, s.m.tasks[next].ctx.rdx));
    SwitchCouples(s, c, next, ret);
  }

  lemma {:induction false} SwitchCouples(s: State, c: nat, next: nat, ret: Word)
    requires Inv(s) && Enabled(s, Switch(c, next, ret))
    ensures Coupled(Next(s, Switch(c, next, ret)))
  {
    hide Sw.Inv, En.Inv, Sw.Dispatch, En.SwitchInCore, ContextSwitch.Saved;
    var s' := Next(s, Switch(c, next, ret));
    forall d | 0 <= d < |s'.m.cores| ensures SameCore(s'.m.cores[d], s'.e.cores[d]) {
      assert SameCore(s.m.cores[d], s.e.cores[d]);
      if d == c && s'.m.cores[c].Live? { SwitchedCore(s, c, next, ret); }
    }
    forall t | Sw.Idle(s'.m, t) ensures SameTask(s'.m.tasks[t], s'.e.tasks[t]) {
      SwitchedTask(s, c, next, ret, t);
    }
  }

  lemma {:induction false} SwitchedTask(s: State, c: nat, next: nat, ret: Word, t: nat)
    requires Inv(s) && Enabled(s, Switch(c, next, ret)) && Sw.Idle(Next(s, Switch(c, next, ret)).m, t)
    ensures var s' := Next(s, Switch(c, next, ret)); t in s'.e.tasks && SameTask(s'.m.tasks[t], s'.e.tasks[t])
  {
    hide Sw.Inv, En.Inv, Sw.Dispatch, En.SwitchInCore;
    var m := Called(s, c, next);
    CalledEnabled(s, c, next, ret);
    CalledInv(s, c, next);
    Sw.SwitchHolds(m, c, next, ret, c, t);
    assert SameCore(s.m.cores[c], s.e.cores[c]);
    assert !Sw.Holds(Next(s, Switch(c, next, ret)).m.cores[c], t);
    if t == s.m.cores[c].task {
      Sw.SwitchOut(m, c, next, ret);
    } else {
      Sw.IdleBefore(m, c, next, ret, t);
      IdleBeforeWork(s.m, m, c, t);
    }
  }

  lemma {:induction false} NextKeeps(s: State, v: Event)
    requires Inv(s) && Enabled(s, v)
    ensures Inv(Next(s, v))
  {
    hide Sw.Inv, En.Inv, Coupled, Sw.Next, En.Next, SwitchStep;
    match v
    case Work(c, r, writes) => WorkAlone(s, c, r, writes);
    case Control(x, r, writes) => ControlKeeps(s, x, r, writes);
    case Switch(c, next, ret) => SwitchKeeps(s, c, next, ret);
    case Spawn(t, task, user) => SpawnKeeps(s, t, task, user);
  }

  lemma {:induction false} WorkAlone(s: State, c: nat, r: Regs, writes: Memory)
    requires Inv(s) && Enabled(s, Work(c, r, writes))
    ensures Inv(Next(s, Work(c, r, writes)))
  {
    hide Sw.Inv, En.Inv, Sw.InUser;
    assert SameCore(s.m.cores[c], s.e.cores[c]);
    WorkKeeps(s, c, r, s.m.cores[c].k, writes, s.e);
  }

  /** The processors have come up from power-on and run their bootstrap contexts. */
  ghost predicate Booted(s: State, start: En.State, inits: seq<En.Event>) {
    && Sw.Boot(s.m) && En.Start(start) && En.Legal(start, inits) && s.e == En.RunOf(start, inits)
    && |s.m.cores| == |s.e.cores| && s.m.tasks.Keys == s.e.tasks.Keys
    && forall c :: 0 <= c < |s.m.cores| ==> SameCore(s.m.cores[c], s.e.cores[c])
  }

  /** Both invariants hold together in every state of every run. */
  lemma {:induction false} RunKeepsInv(s: State, events: seq<Event>)
    requires Inv(s) && Legal(s, events)
    ensures Inv(RunOf(s, events))
    decreases |events|
  {
    hide Inv, Enabled, Next;
    if events != [] {
      NextKeeps(s, events[0]);
      RunKeepsInv(Next(s, events[0]), events[1..]);
    }
  }

  lemma {:induction false} BootInv(s: State, start: En.State, inits: seq<En.Event>)
    requires Booted(s, start, inits)
    ensures Inv(s)
  {
    Sw.BootInv(s.m);
    En.RunKeeps(start, inits);
    forall t: nat ensures !Sw.Idle(s.m, t) {
      if t in s.m.tasks { assert Sw.Holds(s.m.cores[t], t); }
    }
  }

  /**
   * In every state of every run from boot, a processor that has not trapped is either in ring 0 on its task's own
   * kernel stack, with its own GS base and the task's kernel root, or in ring 3 with the task's own bases and user
   * root.
   */
  lemma {:induction false} EveryRunIsSafe(s: State, start: En.State, inits: seq<En.Event>, events: seq<Event>, c: nat)
    requires Booted(s, start, inits) && Legal(s, events)
    requires var s' := RunOf(s, events); c < |s'.m.cores| && s'.m.cores[c].Live?
    ensures var s' := RunOf(s, events); var core := s'.m.cores[c]; var slot := s'.e.slots + En.SLOT_SIZE * c;
      && core.task in s'.m.tasks && core.task in s'.e.tasks
      && var u := s'.e.tasks[core.task];
      && (Sw.InUser(core.r) ==>
            core.k.kernelGs == slot && core.k.cr3 == En.UserRoot(s'.e.boot, u) && core.k.gs == u.gs && core.k.fs == u.fs)
      && (!Sw.InUser(core.r) ==>
            && core.k.gs == slot && core.k.cr3 == En.KernelRoot(s'.e.boot, u)
            && Sw.InKernel(core.r) && Sw.StackPointer(s'.m.tasks[core.task], 0, core.r.rsp))
  {
    BootInv(s, start, inits);
    RunKeepsInv(s, events);
    BothViews(RunOf(s, events), c);
  }

  lemma {:induction false} BothViews(s: State, c: nat)
    requires Inv(s) && c < |s.m.cores| && s.m.cores[c].Live?
    ensures c < |s.e.cores| && SameCore(s.m.cores[c], s.e.cores[c]) && Sw.CoreInv(s.m, c) && En.CoreInv(s.e, c)
  {
  }

  // ---------------------------------------------------------------------------------------------
  // The steps are the instructions

  lemma {:induction false} ArgumentsDoNotMatter(r: Regs, k: Ctl, mem: Memory, n: Regs, pOld: Word, pNew: Word)
    requires 40 <= r.rsp && r.rsp + 8 < TWO_64
    ensures Sw.Dispatch(r.(rdi := pOld, rsi := pNew), k, mem, n) == Sw.Dispatch(r, k, mem, n)
    ensures ContextSwitch.Saved(r.(rdi := pOld, rsi := pNew), mem) == ContextSwitch.Saved(r, mem)
  {
  }

  /**
   * In every state that satisfies the invariant the switch step is what the instructions of `switch_context` and
   * `switch_to_user` do, called with the addresses of the two contexts: no assumption on GS is left.
   */
  method SwitchInstructions(
      s: State, c: nat, next: nat, ret: Word, pOld: Word, pNew: Word, old0: Regs)
    returns (out: ContextSwitch.Outcome, saved: Regs)
    requires Inv(s) && Enabled(s, Switch(c, next, ret))
    ensures var after := Next(s, Switch(c, next, ret)).m; var t := s.m.cores[c].task;
      && (out.Ud2? <==> after.cores[c].Dead?)
      && (out.Running? ==>
          && after.cores[c] == Sw.Live(next, out.r, out.k) && after.mem == out.mem
          && after.tasks == s.m.tasks[t := s.m.tasks[t].(ctx := saved)])
  {
    hide Inv, Sw.Dispatch, ContextSwitch.Saved;
    RoomToSwitch(s, c, next, ret);
    var core := s.m.cores[c];
    var r := core.r.(rsp := core.r.rsp - 8);
    var mem := s.m.mem[r.rsp := ret];
    var k := Prepared(s.e, core.k, next);
    var n := s.m.tasks[next].ctx;
    ArgumentsDoNotMatter(r, k, mem, n, pOld, pNew);
    CalledEnabled(s, c, next, ret);
    out, saved := Sw.ExecuteSwitch(r.(rdi := pOld, rsi := pNew), k, mem, pOld, pNew, old0, n);
  }

  // ---------------------------------------------------------------------------------------------
  // Migration

  predicate Dispatches(v: Event, t: nat) {
    v.Switch? && v.next == t
  }

  lemma {:induction false} StepLeavesIdle(s: State, v: Event, t: nat)
    requires Inv(s) && Enabled(s, v) && Sw.Idle(s.m, t) && !Dispatches(v, t)
    ensures var s' := Next(s, v);
      && Sw.Idle(s'.m, t) && s'.m.tasks[t] == s.m.tasks[t] && Sw.SameStack(s.m.tasks[t], s.m.mem, s'.m.mem)
      && t in s'.e.tasks && s'.e.tasks[t] == s.e.tasks[t]
  {
    hide Sw.Inv, En.Inv, Sw.Next, Sw.SameStack, Sw.Enabled, Sw.Ready;
    match v
    case Work(c, r, writes) => Sw.StepLeavesIdle(s.m, Sw.Run(c, r, s.m.cores[c].k, writes), t);
    case Control(x, r, writes) =>
      ControlStep(s.e, x);
      assert SameCore(s.m.cores[x.c], s.e.cores[x.c]) && !Sw.Holds(s.m.cores[x.c], t);
      Sw.StepLeavesIdle(s.m, Sw.Run(x.c, r, CtlAfter(En.Next(s.e, x), x.c, s.m.cores[x.c].k), writes), t);
    case Switch(c, next, ret) => SwitchLeavesIdle(s, c, next, ret, t);
    case Spawn(u, task, user) => Sw.StepLeavesIdle(s.m, Sw.Spawn(u, task), t);
  }

  lemma {:induction false} SwitchLeavesIdle(s: State, c: nat, next: nat, ret: Word, t: nat)
    requires Inv(s) && Enabled(s, Switch(c, next, ret)) && Sw.Idle(s.m, t) && next != t
    ensures var s' := Next(s, Switch(c, next, ret));
      && Sw.Idle(s'.m, t) && s'.m.tasks[t] == s.m.tasks[t] && Sw.SameStack(s.m.tasks[t], s.m.mem, s'.m.mem)
      && t in s'.e.tasks && s'.e.tasks[t] == s.e.tasks[t]
  {
    hide Sw.Inv, En.Inv, Sw.Next, Sw.SameStack, Sw.Enabled, Sw.Ready;
    CalledEnabled(s, c, next, ret);
    CalledInv(s, c, next);
    assert SameCore(s.m.cores[c], s.e.cores[c]) && !Sw.Holds(s.m.cores[c], t);
    forall d | 0 <= d < |s.m.cores| ensures !Sw.Holds(Called(s, c, next).cores[d], t) {
      assert !Sw.Holds(s.m.cores[d], t);
    }
    Sw.StepLeavesIdle(Called(s, c, next), Sw.Switch(c, next, ret), t);
  }

  /** A task that is off every processor keeps its context, its stack, its bases and its roots until it is dispatched. */
  lemma {:induction false} RunLeavesIdle(s: State, events: seq<Event>, t: nat)
    requires Inv(s) && Legal(s, events) && Sw.Idle(s.m, t)
    requires forall i :: 0 <= i < |events| ==> !Dispatches(events[i], t)
    ensures var s' := RunOf(s, events);
      && Inv(s') && Sw.Idle(s'.m, t) && s'.m.tasks[t] == s.m.tasks[t] && Sw.SameStack(s.m.tasks[t], s.m.mem, s'.m.mem)
      && t in s'.e.tasks && s'.e.tasks[t] == s.e.tasks[t]
      && s'.e.boot == s.e.boot && s'.e.slots == s.e.slots
    decreases |events|
  {
    hide Inv, Enabled, Next, Sw.Idle;
    if events != [] {
      assert !Dispatches(events[0], t);
      StepLeavesIdle(s, events[0], t);
      NextKeeps(s, events[0]);
      SameGlobals(s, events[0]);
      RunLeavesIdle(Next(s, events[0]), events[1..], t);
    } else {
      IdleKnown(s, t);
    }
  }

  lemma {:induction false} IdleKnown(s: State, t: nat)
    requires Inv(s) && Sw.Idle(s.m, t)
    ensures t in s.m.tasks && t in s.e.tasks
  {
    hide Sw.Inv, En.Inv;
  }

  lemma {:induction false} SameGlobals(s: State, v: Event)
    requires Enabled(s, v)
    ensures Next(s, v).e.boot == s.e.boot && Next(s, v).e.slots == s.e.slots
  {
    hide Sw.Next, Sw.Enabled;
  }

  /** Processor `d`, switching from `s2`, picks up in every respect what processor `c` of `s` was doing. */
  ghost predicate Migration(s: State, c: nat, s2: State, d: nat, ret: Word, ret2: Word)
    requires c < |s.m.cores| && s.m.cores[c].Live? && s.m.cores[c].task in s.m.tasks && s.m.cores[c].task in s.e.tasks
    requires c < |s.e.cores| && s.e.cores[c].On? && Enabled(s2, Switch(d, s.m.cores[c].task, ret2))
  {
    var before, t := s.m.cores[c], s.m.cores[c].task;
    var s3 := Next(s2, Switch(d, t, ret2));
    && d < |s3.m.cores| && s3.m.cores[d].Live? && s3.m.cores[d].task == t
    && s3.m.cores[d].r == before.r.(rip := ret, rsi := 0, rdi := 0)
    && Sw.SameAbove(s.m.tasks[t], before.r.rsp, s.m.mem, s3.m.mem)
    && d < |s3.e.cores| && s3.e.cores[d].On? && s3.e.cores[d].acts == s.e.cores[c].acts
    && OwnState(s.e, d, s3.m.cores[d].k, s.e.tasks[t])
  }

  /** The task's own bases, live and staged, and its own roots, behind the processor's own GS base. */
  predicate OwnState(e: En.State, d: nat, k: Ctl, u: En.Task) {
    && k.gs == e.slots + En.SLOT_SIZE * d && k.percpu.active == 0
    && k.fs == u.fs && k.kernelGs == u.gs && k.percpu.pendingFs == u.fs && k.percpu.pendingGs == u.gs
    && k.cr3 == k.percpu.kernelCr3 == En.KernelRoot(e.boot, u) && k.percpu.userCr3 == En.UserRoot(e.boot, u)
  }

  lemma {:induction false} RunningKnown(s: State, c: nat)
    requires Inv(s) && c < |s.m.cores| && s.m.cores[c].Live?
    ensures c < |s.e.cores| && s.e.cores[c].On? && s.e.cores[c].k == s.m.cores[c].k
    ensures s.e.cores[c].task == s.m.cores[c].task
    ensures s.m.cores[c].task in s.m.tasks && s.m.cores[c].task in s.e.tasks
  {
    assert SameCore(s.m.cores[c], s.e.cores[c]);
    assert Sw.CoreInv(s.m, c);
  }

  /** What switching out leaves of the task in both views. */
  lemma {:induction false} SwitchedOutBoth(s: State, c: nat, next: nat, ret: Word)
    requires Inv(s) && Enabled(s, Switch(c, next, ret)) && Next(s, Switch(c, next, ret)).m.cores[c].Live?
    ensures var s1 := Next(s, Switch(c, next, ret)); var t := s.m.cores[c].task;
      && t in s.m.tasks && t in s.e.tasks && s.e.cores[c].On?
      && Sw.Idle(s1.m, t) && t in s1.m.tasks
      && s1.m.tasks[t] == s.m.tasks[t].(ctx := s.m.cores[c].r.(rsi := 0, rdi := 0, rip := ret))
      && Sw.SameAbove(s.m.tasks[t], s.m.cores[c].r.rsp, s.m.mem, s1.m.mem)
      && t in s1.e.tasks && s1.e.tasks[t] == s.e.tasks[t].(newborn := false, acts := s.e.cores[c].acts)
  {
    hide Sw.Inv, En.Inv, Sw.Dispatch, ContextSwitch.Saved, Sw.SameAbove, En.SwitchInCore;
    RunningKnown(s, c);
    CalledEnabled(s, c, next, ret);
    CalledInv(s, c, next);
    Sw.SwitchOut(Called(s, c, next), c, next, ret);
    SampledUnchanged(s.e, c, next);
  }

  lemma {:induction false} SampledUnchanged(e: En.State, c: nat, next: nat)
    requires En.Inv(e) && En.InKernel(e, c)
    ensures var t := e.tasks[e.cores[c].task];
      En.SwitchedOut(t, e.cores[c]) == t.(newborn := false, acts := e.cores[c].acts)
  {
    assert En.CoreInv(e, c);
  }

  /** The control state with which a kernel context is resumed. */
  lemma {:induction false} ResumedControl(s: State, d: nat, t: nat, ret: Word)
    requires Inv(s) && Enabled(s, Switch(d, t, ret)) && Next(s, Switch(d, t, ret)).m.cores[d].Live?
    requires !s.e.tasks[t].newborn
    ensures var s' := Next(s, Switch(d, t, ret));
      && d < |s'.e.cores| && s'.e.cores[d].On? && s'.e.cores[d].acts == s.e.tasks[t].acts
      && OwnState(s.e, d, s'.m.cores[d].k, s.e.tasks[t])
  {
    hide Sw.Inv, Sw.Dispatch, En.WellNested;
    SwitchedCore(s, d, t, ret);
    assert En.CoreInv(s.e, d);
  }

  lemma {:induction false} PicksUpBoth(s: State, c: nat, s2: State, d: nat, ret: Word, ret2: Word)
    requires c < |s.m.cores| && s.m.cores[c].Live? && s.m.cores[c].task in s.m.tasks && s.m.cores[c].task in s.e.tasks
    requires c < |s.e.cores| && s.e.cores[c].On? && Sw.InKernel(s.m.cores[c].r)
    requires Inv(s2) && Enabled(s2, Switch(d, s.m.cores[c].task, ret2)) && HighHalf(ret2)
    requires s2.e.boot == s.e.boot && s2.e.slots == s.e.slots
    requires var t := s.m.cores[c].task;
      && t in s2.m.tasks && t in s2.e.tasks
      && s2.m.tasks[t] == s.m.tasks[t].(ctx := s.m.cores[c].r.(rsi := 0, rdi := 0, rip := ret))
      && Sw.SameAbove(s.m.tasks[t], s.m.cores[c].r.rsp, s.m.mem, s2.m.mem)
      && s2.e.tasks[t] == s.e.tasks[t].(newborn := false, acts := s.e.cores[c].acts)
    ensures Migration(s, c, s2, d, ret, ret2)
  {
    hide Sw.Inv, En.Inv, Sw.Dispatch, ContextSwitch.Saved, Sw.SameAbove, Sw.Ready, Sw.Idle, En.Next;
    var t := s.m.cores[c].task;
    CalledEnabled(s2, d, t, ret2);
    CalledInv(s2, d, t);
    assert Sw.Kept(s.m, c, Called(s2, d, t), ret);
    Sw.PicksUp(s.m, c, Called(s2, d, t), d, ret, ret2);
    ResumedControl(s2, d, t, ret2);
  }

  /**
   * A task that is switched out on one processor and next dispatched on another, after any run in between, continues
   * there with its registers, its stack, its kernel activations, its FS and GS bases and its page-table roots, under
   * the GS base of the processor it is now on.
   */
  lemma {:induction false} MigratesExactly(
      s: State, c: nat, next: nat, ret: Word, between: seq<Event>, d: nat, ret2: Word)
    requires Inv(s) && Enabled(s, Switch(c, next, ret)) && Next(s, Switch(c, next, ret)).m.cores[c].Live?
    requires Legal(Next(s, Switch(c, next, ret)), between)
    requires forall i :: 0 <= i < |between| ==> !Dispatches(between[i], s.m.cores[c].task)
    requires Enabled(RunOf(Next(s, Switch(c, next, ret)), between), Switch(d, s.m.cores[c].task, ret2))
    requires HighHalf(ret2)
    ensures s.m.cores[c].task in s.m.tasks && s.m.cores[c].task in s.e.tasks && s.e.cores[c].On?
    ensures Migration(s, c, RunOf(Next(s, Switch(c, next, ret)), between), d, ret, ret2)
  {
    hide Inv, Next, Sw.Idle, Sw.SameAbove, OwnState, Sw.Ready;
    var s1, t := Next(s, Switch(c, next, ret)), s.m.cores[c].task;
    SwitchedOutBoth(s, c, next, ret);
    NextKeeps(s, Switch(c, next, ret));
    SameGlobals(s, Switch(c, next, ret));
    RunLeavesIdle(s1, between, t);
    SameStackBounds(s1.m.tasks[t], s.m.tasks[t], s1.m.mem, RunOf(s1, between).m.mem);
    KeptAbove(s.m.tasks[t], s.m.cores[c].r.rsp, s.m.mem, s1.m.mem, RunOf(s1, between).m.mem);
    PicksUpBoth(s, c, RunOf(s1, between), d, ret, ret2);
  }

  lemma {:induction false} SameStackBounds(t: Sw.Task, u: Sw.Task, m: Memory, m': Memory)
    requires t.lo == u.lo && t.hi == u.hi && Sw.SameStack(t, m, m')
    ensures Sw.SameStack(u, m, m')
  {
    forall a: nat | Sw.OnStack(u, a) ensures Load(m', a) == Load(m, a) { assert Sw.OnStack(t, a); }
  }

  lemma {:induction false} KeptAbove(t: Sw.Task, rsp: nat, m0: Memory, m1: Memory, m2: Memory)
    requires Sw.SameAbove(t, rsp, m0, m1) && Sw.SameStack(t, m1, m2)
    ensures Sw.SameAbove(t, rsp, m0, m2)
  {
  }
}
