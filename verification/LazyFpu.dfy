/**
 Lazy FPU ownership. Each CPU has one register file; a context switch sets CR0.TS
 and the first FPU instruction afterwards traps (#NM) to a handler that saves the
 previous owner's registers and loads the current process's, giving up half-way
 whenever a lock is contended. Interrupt handlers bracket their work with a
 nestable save and restore. The specification is that every process has FPU
 registers of its own: `image[p]`.
 */
module LazyFpu {
  import opened Common

  type Pid = nat
  type Image = seq<nat>  // the 512-byte FXSAVE area

  const MAX_DEPTH: nat := 0xFFFF_FFFF

  /** `entering` is the image a switch to user mode still has to restore before IRETQ. */
  datatype Cpu = Cpu(
    current: Pid,
    ts: bool,
    owner: Option<Pid>,
    live: Image,
    depth: nat,
    area: Image,
    tsWas: bool,
    entering: Option<Image>)

  /** `frames[p]` is the area on p's kernel stack while p is inside a system call. */
  datatype State = State(
    cpus: seq<Cpu>,
    pcb: map<Pid, Image>,
    alive: set<Pid>,
    image: map<Pid, Image>,
    frames: map<Pid, Image>,
    halted: bool)

  datatype Event =
    | Fpu(cpu: nat, effect: Image -> Image)                    // an FPU instruction of the current process
    | Trap(cpu: nat, prevFree: bool, curFree: bool)            // #NM, and whether each try_lock succeeds
    | Switch(cpu: nat, next: Pid, toUser: bool)
    | EnterRestore(cpu: nat)                                   // FXRSTOR of the enter-half
    | SyscallSave(cpu: nat)                                    // FXSAVE on system call entry
    | SyscallRestore(cpu: nat)                                 // FXRSTOR on system call exit
    | IrqEnter(cpu: nat)
    | IrqWork(cpu: nat, clobbered: Image)
    | IrqExit(cpu: nat)
    | Spawn(pid: Pid)
    | Exit(pid: Pid)

  function DefaultImage(): Image {
    seq(512, i => if i == 0 then 0x7F else if i == 1 then 0x03 else if i == 24 then 0x80 else if i == 25 then 0x1F else 0)
  }

  /** The registers of the interrupted context: the save area inside a bracket. */
  function Regs(k: Cpu): Image { if k.depth == 0 then k.live else k.area }

  /** CR0.TS of the interrupted context. */
  function Lazy(k: Cpu): bool { if k.depth == 0 then k.ts else k.tsWas }

  // ----- the code

  /** irq_save_fpu and irq_restore_fpu below the overflow and underflow panics. */
  function SaveFpu(k: Cpu): Cpu {
    if k.depth > 0 then k.(depth := k.depth + 1)
    else k.(depth := 1, tsWas := k.ts, ts := false, area := k.live)
  }

  function RestoreFpu(k: Cpu): Cpu
    requires k.depth > 0
  {
    if k.depth != 1 then k.(depth := k.depth - 1)
    else k.(depth := 0, live := k.area, ts := k.ts || k.tsWas, tsWas := false)
  }

  /** Step 1 of the handler: save the previous owner. The flag says whether to go on. */
  function SavePrevious(k: Cpu, pcb: map<Pid, Image>, alive: set<Pid>, free: bool): (Cpu, map<Pid, Image>, bool) {
    match k.owner
    case None => (k, pcb, true)
    case Some(q) =>
      if !free then (k, pcb, false)
      else if q in alive then (k, pcb[q := k.live], true)
      else (k.(owner := None), pcb, true)
  }

  /** Step 2: load the current process and take ownership. */
  function LoadCurrent(k: Cpu, pcb: map<Pid, Image>, alive: set<Pid>, free: bool): (Cpu, bool) {
    if !free then (k, false)
    else if k.current in alive && k.current in pcb then (k.(live := pcb[k.current], owner := Some(k.current)), true)
    else (k.(owner := None), true)
  }

  /** device_not_available_handler with a current process. */
  function Handle(k: Cpu, pcb: map<Pid, Image>, alive: set<Pid>, prevFree: bool, curFree: bool): (Cpu, map<Pid, Image>) {
    var k0 := k.(ts := false);
    if k0.owner == Some(k0.current) then (k0, pcb)
    else
      var (k1, pcb1, saved) := SavePrevious(k0, pcb, alive, prevFree);
      if !saved then (k1.(ts := k.ts), pcb1)
      else
        var (k2, loaded) := LoadCurrent(k1, pcb1, alive, curFree);
        (if loaded then k2 else k2.(ts := k.ts), pcb1)
  }

  /** The scheduler's FPU work, then CR0.TS is set by the switch itself. */
  function SwitchOut(k: Cpu, pcb: map<Pid, Image>): (Cpu, map<Pid, Image>) {
    if k.owner == Some(k.current) then (k.(ts := false, owner := None), pcb[k.current := k.live]) else (k, pcb)
  }

  function SwitchTo(k: Cpu, pcb: map<Pid, Image>, next: Pid, toUser: bool): (Cpu, map<Pid, Image>) {
    var (k1, pcb1) := SwitchOut(k, pcb);
    (k1.(current := next, ts := true,
         entering := if toUser && next in pcb1 then Some(pcb1[next]) else None), pcb1)
  }

  function SetCpu(s: State, c: nat, k: Cpu): State
    requires c < |s.cpus|
  {
    s.(cpus := s.cpus[c := k])
  }

  /** Is p running on, or holding the registers of, a CPU other than c? */
  predicate Elsewhere(s: State, c: nat, p: Pid) {
    exists d :: 0 <= d < |s.cpus| && d != c && (s.cpus[d].current == p || s.cpus[d].owner == Some(p))
  }

  /** When the hardware and the scheduler can produce the event. */
  predicate Enabled(s: State, e: Event) {
    !s.halted &&
    match e
    case Fpu(c, _) =>
      c < |s.cpus| && s.cpus[c].depth == 0 && !s.cpus[c].ts && s.cpus[c].entering.None?
      && s.cpus[c].current !in s.frames
    case Trap(c, _, _) => c < |s.cpus| && s.cpus[c].ts && s.cpus[c].depth == 0
    case Switch(c, p, _) =>
      c < |s.cpus| && s.cpus[c].depth == 0 && s.cpus[c].entering.None?
      && p in s.alive && p != s.cpus[c].current && !Elsewhere(s, c, p)
    case EnterRestore(c) => c < |s.cpus| && s.cpus[c].entering.Some? && !s.cpus[c].ts
    case SyscallSave(c) =>
      c < |s.cpus| && s.cpus[c].depth == 0 && !s.cpus[c].ts && s.cpus[c].entering.None?
      && s.cpus[c].current in s.alive && s.cpus[c].current !in s.frames
    case SyscallRestore(c) =>
      c < |s.cpus| && s.cpus[c].depth == 0 && !s.cpus[c].ts && s.cpus[c].entering.None?
      && s.cpus[c].current in s.frames
    case IrqEnter(c) => c < |s.cpus| && s.cpus[c].entering.None?
    case IrqWork(c, _) => c < |s.cpus| && s.cpus[c].depth > 0
    case IrqExit(c) => c < |s.cpus| && s.cpus[c].entering.None?
    case Spawn(p) => p !in s.alive && !Elsewhere(s, |s.cpus|, p)
    case Exit(p) => p in s.alive
  }

  function Next(s: State, e: Event): State
    requires Enabled(s, e)
  {
    match e
    case Fpu(c, f) =>
      var k := s.cpus[c];
      SetCpu(s, c, k.(live := f(k.live)))
      .(image := if k.current in s.alive && k.current in s.image
                 then s.image[k.current := f(s.image[k.current])] else s.image)
    case Trap(c, prevFree, curFree) =>
      var (k, pcb) := Handle(s.cpus[c], s.pcb, s.alive, prevFree, curFree);
      SetCpu(s, c, k).(pcb := pcb)
    case Switch(c, p, toUser) =>
      var (k, pcb) := SwitchTo(s.cpus[c], s.pcb, p, toUser);
      SetCpu(s, c, k).(pcb := pcb)
    case EnterRestore(c) =>
      var k := s.cpus[c];
      SetCpu(s, c, k.(live := k.entering.value, entering := None))
    case SyscallSave(c) => s.(frames := s.frames[s.cpus[c].current := s.cpus[c].live])
    case SyscallRestore(c) =>
      var k := s.cpus[c];
      SetCpu(s, c, k.(live := s.frames[k.current])).(frames := s.frames - {k.current})
    case IrqEnter(c) =>
      if s.cpus[c].depth == MAX_DEPTH then s.(halted := true) else SetCpu(s, c, SaveFpu(s.cpus[c]))
    case IrqWork(c, image) => SetCpu(s, c, s.cpus[c].(live := image))
    case IrqExit(c) =>
      if s.cpus[c].depth == 0 then s.(halted := true) else SetCpu(s, c, RestoreFpu(s.cpus[c]))
    case Spawn(p) =>
      s.(alive := s.alive + {p}, pcb := s.pcb[p := DefaultImage()], image := s.image[p := DefaultImage()])
    case Exit(p) =>
      s.(alive := s.alive - {p}, frames := s.frames - {p},
         cpus := seq(|s.cpus|, c requires 0 <= c < |s.cpus| =>
           if s.cpus[c].owner == Some(p) then s.cpus[c].(owner := None) else s.cpus[c]))
  }

  // ----- the invariant

  /** What one CPU promises about the process it owns and the one it runs. */
  ghost predicate CpuOk(s: State, k: Cpu) {
    && (k.depth > 0 ==> !k.ts && k.entering.None?)
    && (k.depth == 0 ==> !k.tsWas)
    && (k.owner.Some? ==> k.owner.value in s.alive && k.owner.value in s.image && s.image[k.owner.value] == Regs(k))
    && (!Lazy(k) ==> k.owner == Some(k.current) || (k.owner.None? && k.current !in s.alive))
    && (k.entering.Some? && k.current in s.alive && k.current in s.image ==> k.entering.value == s.image[k.current])
  }

  ghost predicate Owned(s: State, p: Pid) {
    exists c :: 0 <= c < |s.cpus| && s.cpus[c].owner == Some(p)
  }

  /** Two CPUs run different processes and neither holds what the other runs or holds. */
  ghost predicate Apart(k: Cpu, m: Cpu) {
    && k.current != m.current
    && k.owner != Some(m.current) && m.owner != Some(k.current)
    && (k.owner.Some? ==> k.owner != m.owner)
  }

  ghost predicate Inv(s: State) {
    && s.alive <= s.pcb.Keys && s.alive <= s.image.Keys
    && (forall c :: 0 <= c < |s.cpus| ==> CpuOk(s, s.cpus[c]))
    && (forall c, d :: 0 <= c < |s.cpus| && 0 <= d < |s.cpus| && c != d ==> Apart(s.cpus[c], s.cpus[d]))
    && (forall p :: p in s.alive && !Owned(s, p) ==> s.pcb[p] == s.image[p])
    && s.frames.Keys <= s.alive && (forall p :: p in s.frames ==> s.frames[p] == s.image[p])
  }

  /** A change to CPU c alone keeps the invariant if these local conditions hold. */
  lemma {:induction false} LocalChange(s: State, s': State, c: nat)
    requires Inv(s) && c < |s.cpus| && |s'.cpus| == |s.cpus|
    requires forall d :: 0 <= d < |s.cpus| && d != c ==> s'.cpus[d] == s.cpus[d]
    requires s'.alive == s.alive && s'.pcb.Keys == s.pcb.Keys && s'.image.Keys == s.image.Keys
    requires s'.frames.Keys <= s.alive && forall p :: p in s'.frames ==> s'.frames[p] == s'.image[p]
    requires CpuOk(s', s'.cpus[c])
    requires forall d :: 0 <= d < |s.cpus| && d != c ==> Apart(s'.cpus[c], s.cpus[d])
    requires forall p :: p in s.alive && s'.image[p] != s.image[p] ==>
               p == s.cpus[c].current && s'.cpus[c].owner == Some(p)
    requires forall p :: p in s.alive && Some(p) != s'.cpus[c].owner ==>
               (if Some(p) == s.cpus[c].owner then s'.pcb[p] == s'.image[p] else s'.pcb[p] == s.pcb[p])
    ensures Inv(s')
  {
    forall d | 0 <= d < |s.cpus| ensures CpuOk(s', s'.cpus[d]) {
      if d != c {
        var k := s.cpus[d];
        assert CpuOk(s, k) && Apart(s.cpus[c], k);
      }
    }
    forall d, e | 0 <= d < |s.cpus| && 0 <= e < |s.cpus| && d != e ensures Apart(s'.cpus[d], s'.cpus[e]) {
      if d != c && e != c { assert Apart(s.cpus[d], s.cpus[e]); }
    }
    forall p | p in s'.alive && !Owned(s', p) ensures s'.pcb[p] == s'.image[p] {
      if Some(p) != s.cpus[c].owner {
        NotOwned(s, s', c, p);
      }
    }
  }

  lemma {:induction false} NotOwned(s: State, s': State, c: nat, p: Pid)
    requires c < |s.cpus| && |s'.cpus| == |s.cpus|
    requires forall d :: 0 <= d < |s.cpus| && d != c ==> s'.cpus[d] == s.cpus[d]
    requires !Owned(s', p) && Some(p) != s.cpus[c].owner
    ensures !Owned(s, p)
  {
    forall d | 0 <= d < |s.cpus| ensures s.cpus[d].owner != Some(p) {
      if d != c { assert s'.cpus[d] == s.cpus[d]; }
    }
  }

  lemma {:induction false} FpuKeepsInv(s: State, c: nat, f: Image -> Image)
    requires Inv(s) && Enabled(s, Fpu(c, f))
    ensures Inv(Next(s, Fpu(c, f)))
  {
    assert CpuOk(s, s.cpus[c]);
    LocalChange(s, Next(s, Fpu(c, f)), c);
  }

  /** The current process's PCB copy is good when no CPU holds its registers. */
  lemma {:induction false} CurrentCopy(s: State, c: nat)
    requires Inv(s) && c < |s.cpus| && s.cpus[c].owner != Some(s.cpus[c].current)
    ensures s.cpus[c].current in s.alive ==> s.pcb[s.cpus[c].current] == s.image[s.cpus[c].current]
  {
    var p := s.cpus[c].current;
    forall d | 0 <= d < |s.cpus| ensures s.cpus[d].owner != Some(p) {
      if d != c { assert Apart(s.cpus[c], s.cpus[d]); }
    }
  }

  lemma {:induction false} TrapKeepsInv(s: State, c: nat, prevFree: bool, curFree: bool)
    requires Inv(s) && Enabled(s, Trap(c, prevFree, curFree))
    ensures Inv(Next(s, Trap(c, prevFree, curFree)))
  {
    assert CpuOk(s, s.cpus[c]);
    if s.cpus[c].owner != Some(s.cpus[c].current) { CurrentCopy(s, c); }
    LocalChange(s, Next(s, Trap(c, prevFree, curFree)), c);
  }

  /**
   A switch to user mode restores the PCB copy of the incoming process, so that
   process's registers must not still be live on this CPU.
   */
  predicate Safe(s: State, e: Event) {
    e.Switch? && e.toUser && e.cpu < |s.cpus| ==> s.cpus[e.cpu].owner != Some(e.next)
  }

  lemma {:induction false} SwitchKeepsInv(s: State, c: nat, p: Pid, toUser: bool)
    requires Inv(s) && Enabled(s, Switch(c, p, toUser)) && Safe(s, Switch(c, p, toUser))
    ensures Inv(Next(s, Switch(c, p, toUser)))
  {
    var s' := Next(s, Switch(c, p, toUser));
    assert CpuOk(s, s.cpus[c]);
    forall d | 0 <= d < |s.cpus| && d != c ensures Apart(s'.cpus[c], s.cpus[d]) {
      assert Apart(s.cpus[c], s.cpus[d]);
    }
    if s.cpus[c].owner != Some(p) {
      assert !Owned(s, p) by {
        forall d | 0 <= d < |s.cpus| ensures s.cpus[d].owner != Some(p) { }
      }
    }
    LocalChange(s, s', c);
  }

  lemma {:induction false} EnterKeepsInv(s: State, c: nat)
    requires Inv(s) && Enabled(s, EnterRestore(c))
    ensures Inv(Next(s, EnterRestore(c)))
  {
    assert CpuOk(s, s.cpus[c]);
    LocalChange(s, Next(s, EnterRestore(c)), c);
  }

  lemma {:induction false} SyscallKeepsInv(s: State, e: Event)
    requires Inv(s) && Enabled(s, e) && (e.SyscallSave? || e.SyscallRestore?)
    ensures Inv(Next(s, e))
  {
    assert CpuOk(s, s.cpus[e.cpu]);
    LocalChange(s, Next(s, e), e.cpu);
  }

  /** A bracket never changes the registers or CR0.TS of the interrupted context. */
  lemma {:induction false} BracketFrame(k: Cpu, clobbered: Image)
    requires k.depth > 0 ==> !k.ts
    ensures Regs(SaveFpu(k)) == Regs(k) && Lazy(SaveFpu(k)) == Lazy(k)
    ensures k.depth > 0 ==>
              && Regs(RestoreFpu(k)) == Regs(k) && Lazy(RestoreFpu(k)) == Lazy(k)
              && Regs(k.(live := clobbered)) == Regs(k) && Lazy(k.(live := clobbered)) == Lazy(k)
  {
  }

  lemma {:induction false} IrqEnterKeepsInv(s: State, e: Event)
    requires Inv(s) && Enabled(s, e) && e.IrqEnter?
    ensures Inv(Next(s, e))
  {
    assert CpuOk(s, s.cpus[e.cpu]);
    LocalChange(s, Next(s, e), e.cpu);
  }

  lemma {:induction false} IrqKeepsInv(s: State, e: Event)
    requires Inv(s) && Enabled(s, e) && (e.IrqWork? || e.IrqExit?)
    ensures Inv(Next(s, e))
  {
    assert CpuOk(s, s.cpus[e.cpu]);
    if !Next(s, e).halted { LocalChange(s, Next(s, e), e.cpu); }
  }

  lemma {:induction false} SpawnKeepsInv(s: State, p: Pid)
    requires Inv(s) && Enabled(s, Spawn(p))
    ensures Inv(Next(s, Spawn(p)))
  {
    var s' := Next(s, Spawn(p));
    forall d | 0 <= d < |s.cpus| ensures CpuOk(s', s'.cpus[d]) { assert CpuOk(s, s.cpus[d]); }
    forall q | q in s'.alive && !Owned(s', q) ensures s'.pcb[q] == s'.image[q] {
      assert !Owned(s, q);
    }
  }

  lemma {:induction false} ExitKeepsInv(s: State, p: Pid)
    requires Inv(s) && Enabled(s, Exit(p))
    ensures Inv(Next(s, Exit(p)))
  {
    var s' := Next(s, Exit(p));
    forall d | 0 <= d < |s.cpus| ensures CpuOk(s', s'.cpus[d]) { assert CpuOk(s, s.cpus[d]); }
    forall c, d | 0 <= c < |s.cpus| && 0 <= d < |s.cpus| && c != d ensures Apart(s'.cpus[c], s'.cpus[d]) {
      assert Apart(s.cpus[c], s.cpus[d]);
    }
    forall q | q in s'.alive && !Owned(s', q) ensures s'.pcb[q] == s'.image[q] {
      forall d | 0 <= d < |s.cpus| ensures s.cpus[d].owner != Some(q) { assert s'.cpus[d].owner != Some(q); }
    }
  }

  lemma {:induction false} NextKeepsInv(s: State, e: Event)
    requires Inv(s) && Enabled(s, e) && Safe(s, e)
    ensures Inv(Next(s, e))
  {
    match e
    case Fpu(c, f) => FpuKeepsInv(s, c, f);
    case Trap(c, prevFree, curFree) => TrapKeepsInv(s, c, prevFree, curFree);
    case Switch(c, p, toUser) => SwitchKeepsInv(s, c, p, toUser);
    case EnterRestore(c) => EnterKeepsInv(s, c);
    case SyscallSave(_) => SyscallKeepsInv(s, e);
    case SyscallRestore(_) => SyscallKeepsInv(s, e);
    case IrqEnter(_) => IrqEnterKeepsInv(s, e);
    case IrqWork(_, _) => IrqKeepsInv(s, e);
    case IrqExit(_) => IrqKeepsInv(s, e);
    case Spawn(p) => SpawnKeepsInv(s, p);
    case Exit(p) => ExitKeepsInv(s, p);
  }

  // ----- runs from boot

  /** Because the scheduler saves on switch-out, registers are only ever held for the running process. */
  ghost predicate Eager(s: State) {
    forall c :: 0 <= c < |s.cpus| && s.cpus[c].owner.Some? ==>
      s.cpus[c].owner == Some(s.cpus[c].current) && !Lazy(s.cpus[c])
  }

  ghost predicate Booted(s: State) {
    && Inv(s) && forall c :: 0 <= c < |s.cpus| ==> s.cpus[c].owner.None?
  }

  /** A machine on which no process exists yet: any number of idle processors with distinct idle identities. */
  lemma {:induction false} FreshMachine(cpus: seq<Cpu>)
    requires forall c :: 0 <= c < |cpus| ==>
      cpus[c].owner.None? && cpus[c].depth == 0 && !cpus[c].tsWas && cpus[c].entering.None?
    requires forall c, d :: 0 <= c < |cpus| && 0 <= d < |cpus| && c != d ==> cpus[c].current != cpus[d].current
    ensures Booted(State(cpus, map[], {}, map[], map[], false))
  {
  }

  lemma {:induction false} NextKeepsEager(s: State, e: Event)
    requires Inv(s) && Eager(s) && Enabled(s, e)
    ensures Safe(s, e) && Eager(Next(s, e))
  {
    forall c | 0 <= c < |s.cpus| ensures CpuOk(s, s.cpus[c]) { }
  }

  ghost predicate Possible(s: State, events: seq<Event>)
    decreases |events|
  {
    events == [] || (Enabled(s, events[0]) && Possible(Next(s, events[0]), events[1..]))
  }

  ghost function Run(s: State, events: seq<Event>): State
    requires Possible(s, events)
    decreases |events|
  {
    if events == [] then s else Run(Next(s, events[0]), events[1..])
  }

  /**
   In every run of traps (with any lock contention), switches, brackets, spawns and
   exits, each live process's FPU image is in the registers of the CPU that owns
   it, or in its PCB when no CPU does.
   */
  lemma {:induction false} NothingLost(s: State, events: seq<Event>)
    requires Inv(s) && Eager(s) && Possible(s, events)
    ensures Inv(Run(s, events)) && Eager(Run(s, events))
    decreases |events|
  {
    if events != [] {
      NextKeepsEager(s, events[0]);
      NextKeepsInv(s, events[0]);
      NothingLost(Next(s, events[0]), events[1..]);
    }
  }

  /** What the running process sees when its FPU instruction does not trap is its own image. */
  lemma {:induction false} SeesOwnImage(s: State, events: seq<Event>, c: nat, f: Image -> Image)
    requires Booted(s) && Possible(s, events) && Enabled(Run(s, events), Fpu(c, f))
    requires Run(s, events).cpus[c].current in Run(s, events).alive
    ensures var t := Run(s, events); t.cpus[c].current in t.image && t.cpus[c].live == t.image[t.cpus[c].current]
  {
    NothingLost(s, events);
    assert CpuOk(Run(s, events), Run(s, events).cpus[c]);
  }

  /** With both locks free the trap always ends, with the process's own image loaded. */
  lemma {:induction false} TrapCompletes(s: State, c: nat)
    requires Inv(s) && Enabled(s, Trap(c, true, true)) && s.cpus[c].current in s.alive
    ensures var k := Next(s, Trap(c, true, true)).cpus[c];
            !k.ts && k.owner == Some(k.current) && k.live == s.image[k.current]
  {
    TrapKeepsInv(s, c, true, true);
    assert CpuOk(s, s.cpus[c]);
    assert CpuOk(Next(s, Trap(c, true, true)), Next(s, Trap(c, true, true)).cpus[c]);
  }

  /** Without a live current process an uncontended trap ends with TS clear and nobody owning the registers. */
  lemma {:induction false} TrapWithoutProcess(s: State, c: nat)
    requires Inv(s) && Enabled(s, Trap(c, true, true)) && s.cpus[c].current !in s.alive
    ensures var k := Next(s, Trap(c, true, true)).cpus[c]; !k.ts && k.owner.None?
  {
    assert CpuOk(s, s.cpus[c]);
  }

  /** The machine stops exactly when brackets nest too deep or one is closed that was never opened. */
  lemma {:induction false} HaltsExactly(s: State, e: Event)
    requires Enabled(s, e)
    ensures Next(s, e).halted <==>
      (e.IrqEnter? && s.cpus[e.cpu].depth == 0xFFFF_FFFF) || (e.IrqExit? && s.cpus[e.cpu].depth == 0)
  {
  }

  /** A new process is alive, with the default image in its PCB and nowhere else. */
  lemma {:induction false} SpawnedFresh(s: State, p: Pid)
    requires Inv(s) && Enabled(s, Spawn(p))
    ensures var t := Next(s, Spawn(p));
            p in t.alive && p in t.image && p in t.pcb && t.image[p] == t.pcb[p] == DefaultImage() && t.cpus == s.cpus
  {
  }

  /** Saving and restoring count one level each, and a restore undoes the save it belongs to. */
  lemma {:induction false} SaveThenRestore(k: Cpu)
    requires k.depth == 0 ==> !k.tsWas
    ensures SaveFpu(k).depth == k.depth + 1
    ensures RestoreFpu(SaveFpu(k)) == k.(area := if k.depth == 0 then k.live else k.area)
  {
  }

  predicate IrqOn(e: Event, c: nat) {
    (e.IrqEnter? || e.IrqWork? || e.IrqExit?) && e.cpu == c
  }

  lemma {:induction false} BracketStep(s: State, e: Event, c: nat)
    requires Inv(s) && c < |s.cpus| && Enabled(s, e) && IrqOn(e, c)
    ensures var k, t := s.cpus[c], Next(s, e);
            && |t.cpus| == |s.cpus|
            && Regs(t.cpus[c]) == Regs(k) && Lazy(t.cpus[c]) == Lazy(k) && t.cpus[c].owner == k.owner
  {
    assert CpuOk(s, s.cpus[c]);
  }

  /** However brackets nest on a CPU, its registers and CR0.TS are back when the last one ends. */
  lemma {:induction false} BracketsRestore(s: State, events: seq<Event>, c: nat)
    requires Inv(s) && c < |s.cpus| && Possible(s, events) && forall i :: 0 <= i < |events| ==> IrqOn(events[i], c)
    ensures var k, t := s.cpus[c], Run(s, events);
            && |t.cpus| == |s.cpus|
            && Regs(t.cpus[c]) == Regs(k) && Lazy(t.cpus[c]) == Lazy(k) && t.cpus[c].owner == k.owner
            && (k.depth == 0 && t.cpus[c].depth == 0 ==> t.cpus[c].live == k.live && t.cpus[c].ts == k.ts)
    decreases |events|
  {
    hide Inv, Enabled, Next;
    if events != [] {
      assert IrqOn(events[0], c);
      BracketStep(s, events[0], c);
      if events[0].IrqEnter? { IrqEnterKeepsInv(s, events[0]); } else { IrqKeepsInv(s, events[0]); }
      BracketsRestore(Next(s, events[0]), events[1..], c);
    }
  }

  /** Without the condition `Safe` an image is lost: the switch restores a stale copy. */
  lemma {:induction false} LeftoverOwnerLost()
    ensures exists s: State, e: Event ::
              && Inv(s) && Enabled(s, e) && !Safe(s, e) && !Inv(Next(s, e))
  {
    var stale, newer: Image := [0], [1];
    var k := Cpu(1, true, Some(2), newer, 0, stale, false, None);
    var s := State([k], map[1 := stale, 2 := stale], {1, 2}, map[1 := stale, 2 := newer], map[], false);
    assert Owned(s, 2) by { assert s.cpus[0].owner == Some(2); }
    assert Inv(s);
    var e := Switch(0, 2, true);
    assert !Elsewhere(s, 0, 2);
    var s' := Next(s, e);
    assert !CpuOk(s', s'.cpus[0]);
  }

  // ----- the signal frame taken inside a bracket

  /** Zero the reserved tail. */
  function Sanitize(i: Image): Image {
    seq(|i|, k requires 0 <= k < |i| => if 416 <= k < 512 then 0 else i[k])
  }

  /** capture_irq_sigframe_fpu for the interrupted process; the flags are its two try_locks. */
  function Capture(s: State, c: nat, first: bool, second: bool): Image
    requires c < |s.cpus|
  {
    var k := s.cpus[c];
    if !k.tsWas && k.owner == Some(k.current) then Sanitize(k.area)
    else if first && second && k.current in s.alive && k.current in s.pcb then Sanitize(s.pcb[k.current])
    else Sanitize(DefaultImage())
  }

  /** Sanitizing zeroes the last 96 of the 512 bytes and keeps all others. */
  lemma {:induction false} SanitizeKeeps(i: Image, k: nat)
    requires k < |i|
    ensures |Sanitize(i)| == |i|
    ensures k < 416 || k >= 512 ==> Sanitize(i)[k] == i[k]
    ensures 416 <= k < 512 ==> Sanitize(i)[k] == 0
  {
  }

  /** The image a process starts with: x87 control word 0x037F, MXCSR 0x1F80, everything else zero. */
  lemma {:induction false} DefaultImageWords()
    ensures var d := DefaultImage();
            && |d| == 512 && d[0] + 0x100 * d[1] == 0x037F
            && d[24] + 0x100 * d[25] + 0x1_0000 * d[26] + 0x100_0000 * d[27] == 0x1F80
            && forall k :: 2 <= k < 512 && !(24 <= k < 28) ==> d[k] == 0
  {
  }

  /**
   Which image the signal frame gets, over every run from boot: the process's own one
   if it is live in the interrupted registers, or if both locks can be taken; the
   default one exactly when it is not live there and a lock is contended.
   */
  lemma {:induction false} CaptureOwn(s: State, events: seq<Event>, c: nat, first: bool, second: bool)
    requires Booted(s) && Possible(s, events)
    requires var t := Run(s, events); c < |t.cpus| && t.cpus[c].depth > 0 && t.cpus[c].current in t.alive
    ensures var t := Run(s, events); var k := t.cpus[c];
            && k.current in t.image
            && (k.owner == Some(k.current) ==> !k.tsWas)
            && Capture(t, c, first, second) ==
                 if k.owner == Some(k.current) || (first && second) then Sanitize(t.image[k.current])
                 else Sanitize(DefaultImage())
  {
    NothingLost(s, events);
    var t := Run(s, events);
    assert CpuOk(t, t.cpus[c]);
    CaptureExactly(t, c, first, second);
  }

  /**
   From any state that satisfies the invariant: the process's own image if it is live in
   the interrupted registers, or if it is not the owner and both locks can be taken; the
   PCB copy if it is the owner but CR0.TS was set and both locks can be taken; the default
   otherwise.
   */
  lemma {:induction false} CaptureExactly(s: State, c: nat, first: bool, second: bool)
    requires Inv(s) && c < |s.cpus| && s.cpus[c].depth > 0 && s.cpus[c].current in s.alive
    ensures var k := s.cpus[c]; var captured := Capture(s, c, first, second);
            && k.current in s.image && k.current in s.pcb
            && (k.owner == Some(k.current) && !k.tsWas ==> captured == Sanitize(s.image[k.current]))
            && (k.owner != Some(k.current) && first && second ==> captured == Sanitize(s.image[k.current]))
            && (k.owner == Some(k.current) && k.tsWas && first && second ==> captured == Sanitize(s.pcb[k.current]))
            && ((k.owner != Some(k.current) || k.tsWas) && !(first && second) ==> captured == Sanitize(DefaultImage()))
  {
    assert CpuOk(s, s.cpus[c]);
    if s.cpus[c].owner != Some(s.cpus[c].current) { CurrentCopy(s, c); }
  }

  /** A process that is gone and whose registers are not live gets the default image. */
  lemma {:induction false} CaptureGone(s: State, c: nat, first: bool, second: bool)
    requires c < |s.cpus| && s.cpus[c].current !in s.alive
    requires s.cpus[c].tsWas || s.cpus[c].owner != Some(s.cpus[c].current)
    ensures Capture(s, c, first, second) == Sanitize(DefaultImage())
  {
  }

  // ----- the handlers as they update the per-CPU data and the process table

  class ProcessTable {
    var fx: map<Pid, Image>
    var alive: set<Pid>

    constructor ()
      ensures fx == map[] && alive == {}
    {
      fx := map[];
      alive := {};
    }
  }

  class PerCpu {
    var current: Pid
    var ts: bool
    var owner: Option<Pid>
    var live: Image
    var depth: nat
    var area: Image
    var tsWas: bool

    constructor (current: Pid, live: Image)
      ensures View() == Cpu(current, false, None, live, 0, [], false, None)
    {
      this.current := current;
      ts, owner, this.live, depth, area, tsWas := false, None, live, 0, [], false;
    }

    ghost function View(): Cpu
      reads this
    {
      Cpu(current, ts, owner, live, depth, area, tsWas, None)
    }

    /** Returns false where the source panics on overflow. */
    method IrqSaveFpu() returns (ok: bool)
      modifies this
      ensures ok == (old(depth) != MAX_DEPTH)
      ensures View() == if ok then SaveFpu(old(View())) else old(View())
      ensures ok ==> depth == old(depth) + 1 && live == old(live)
      ensures ok && old(depth) == 0 ==> !ts && tsWas == old(ts) && area == old(live)
    {
      if depth == MAX_DEPTH { return false; }
      var previous := depth;
      depth := depth + 1;
      if previous > 0 { return true; }
      tsWas := ts;
      if tsWas { ts := false; }
      area := live;
      ok := true;
    }

    /** Returns false where the source panics on underflow. */
    method IrqRestoreFpu() returns (ok: bool)
      modifies this
      ensures ok == (old(depth) != 0)
      ensures View() == if ok then RestoreFpu(old(View())) else old(View())
      ensures ok ==> depth == old(depth) - 1
      ensures ok && old(depth) == 1 ==> live == old(area) && ts == (old(ts) || old(tsWas))
    {
      if depth == 0 { return false; }
      var previous := depth;
      depth := depth - 1;
      if previous != 1 { return true; }
      live := area;
      if tsWas { ts := true; }
      tsWas := false;
      ok := true;
    }

    /** #NM; `prevFree` and `curFree` say whether each PCB lock can be taken. */
    method DeviceNotAvailable(table: ProcessTable, prevFree: bool, curFree: bool)
      requires table.alive <= table.fx.Keys
      modifies this, table`fx
      ensures (View(), table.fx) == old(Handle(View(), table.fx, table.alive, prevFree, curFree))
    {
      var cr0 := ts;
      ts := false;
      if owner == Some(current) { return; }
      var prevSaved := true;
      if owner.Some? {
        if !prevFree {
          prevSaved := false;
        } else if owner.value in table.alive {
          table.fx := table.fx[owner.value := live];
        } else {
          owner := None;
        }
      }
      var complete := false;
      if prevSaved && curFree {
        if current in table.alive {
          live := table.fx[current];
          owner := Some(current);
        } else {
          owner := None;
        }
        complete := true;
      }
      if !complete { ts := cr0; }
    }
  }
}
